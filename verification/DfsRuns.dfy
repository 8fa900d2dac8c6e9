/** Every run of the radar detector: what each pulse keeps of the queues, where every pool element is, and what
    pulses stand behind a radar report. */
module DfsRuns {
  import opened DfsSpec
  import opened DfsSequences

  // ----- what every pulse keeps of one detector

  /** What `count` counts too much: the pulses of lists that were initialised anew without being emptied. */
  function Stale(d: Detector): int { d.count - |d.pulses| }

  /** `now` is the timestamp of the last pulse shown to the bank. Without a stored pulse `lastTs` may be left over from
      before the lists were initialised, and then says nothing. */
  ghost predicate DetectorInv(r: Rule, d: Detector, now: nat) {
    && 0 <= Stale(d) && d.count <= MaxCount(r) - 1
    && Sorted(d.pulses, r.tolerance, now)
    && d.lastTs < U32
    && (d.pulses != [] ==> d.pulses[0].ts == d.lastTs)
    && (forall i :: 0 <= i < |d.pulses| ==> d.lastTs - d.pulses[i].ts <= WindowSize(r))
    && (forall i :: 0 <= i < |d.pulses| ==> d.pulses[i].ts in d.history)
    && (forall t :: t in d.history ==> t <= now)
    && |d.queues| == |d.history| && (forall k :: 0 <= k < |d.queues| ==> TimesIn(d.queues[k], d.history))
    && AllSupported(r, d.sequences, d.history, d.queues)
    && !Detected(r, d.sequences)
  }

  ghost predicate TimesIn(ps: seq<Pulse>, history: seq<nat>) { forall j :: 0 <= j < |ps| ==> ps[j].ts in history }

  lemma {:induction false} KeptMeaning(pulses: seq<Pulse>, minTs: nat)
    requires forall i, j :: 0 <= i < j < |pulses| ==> pulses[i].ts >= pulses[j].ts
    ensures forall i :: 0 <= i < |pulses| ==> (i < Kept(pulses, minTs) <==> pulses[i].ts >= minTs)
    decreases |pulses|
  {
    if pulses != [] && pulses[|pulses| - 1].ts < minTs { KeptMeaning(pulses[..|pulses| - 1], minTs); }
  }

  /** Queue limits: the pulses of the window stay, without the oldest of them if the count reaches the limit with it. The
      new pulse itself is dropped iff the count was full before it without a pulse being stored. */
  lemma {:induction false} QueueLimitMeaning(r: Rule, all: seq<Pulse>, count: nat, ts: nat) returns (m: nat)
    requires ValidRule(r) && 0 < |all| <= count <= 2 * r.ppb && all[0].ts == ts && Sorted(all, r.tolerance, ts)
    ensures var n := QueueLimit(r, all, count, ts);
            && 1 <= m <= |all| && n == (if count - (|all| - m) >= 2 * r.ppb then m - 1 else m)
            && (forall i :: 0 <= i < |all| ==> (i < m <==> ts - all[i].ts <= r.priMax * r.ppb * r.nrPri))
            && count - (|all| - n) <= 2 * r.ppb - 1 && (n == 0 <==> count - |all| == 2 * r.ppb - 1)
  {
    hide Kept;
    m := InWindow(r, all, count, ts);
    WindowIsPositive(r);
    if count >= 2 && ts > WindowSize(r) { KeptMeaning(all, ts - WindowSize(r)); }
  }

  lemma {:induction false} WindowIsPositive(r: Rule)
    requires ValidRule(r)
    ensures WindowSize(r) == r.priMax * r.ppb * r.nrPri >= 0
  {
  }

  lemma {:induction false} QueueFits(r: Rule, all: seq<Pulse>, count: nat, ts: nat)
    requires ValidRule(r) && 0 < |all| <= count <= MaxCount(r) && all[0].ts == ts && Sorted(all, r.tolerance, ts)
    ensures var n := QueueLimit(r, all, count, ts);
            && 0 <= count - (|all| - n) <= MaxCount(r) - 1
            && (forall i :: 0 <= i < n ==> ts - all[i].ts <= WindowSize(r))
  {
    hide QueueLimit;
    WindowIsPositive(r);
    var m := QueueLimitMeaning(r, all, count, ts);
    hide WindowSize;
  }

  /** A pulse that is accepted comes at least the tolerance after the newest stored one. */
  ghost predicate After(r: Rule, d: Detector, ts: nat) { d.pulses != [] ==> d.lastTs + r.tolerance <= ts }

  lemma {:induction false} EnqueueKeeps(r: Rule, d: Detector, pools: Pools, ts: nat, mem: Memories)
    requires ValidRule(r) && ts < U32 && ts in d.history && After(r, d, ts) && DetectorInv(r, d, ts)
    ensures var d' := Enqueue(r, d, pools, ts, mem).detector; DetectorInv(r, d', ts) && Stale(d') == Stale(d)
  {
    hide AllSupported;
    hide Detected;
    hide WindowSize;
    hide DropTail;
    hide QueueLimit;
    hide Get;
    var new_ := Pulse(Get(pools.pulse, mem.pulse).id, ts);
    var all := [new_] + d.pulses;
    SortedAdd(d.pulses, new_, r.tolerance);
    QueueFits(r, all, d.count + 1, ts);
    hide Sorted;
    var n := QueueLimit(r, all, d.count + 1, ts);
    SortedPrefix(all, n, r.tolerance, ts);
    forall i | 0 <= i < n ensures all[..n][i].ts in d.history { assert i > 0 ==> all[i] == d.pulses[i - 1]; }
  }

  lemma {:induction false} SortedAdd(ps: seq<Pulse>, p: Pulse, gap: nat)
    requires Sorted(ps, gap, p.ts) && (ps != [] ==> ps[0].ts + gap <= p.ts)
    ensures Sorted([p] + ps, gap, p.ts)
  {
    var all := [p] + ps;
    assert forall i :: 0 < i < |all| ==> all[i] == ps[i - 1];
    assert forall i :: 0 <= i < |ps| ==> ps[i].ts <= ps[0].ts;
  }

  lemma {:induction false} SortedPrefix(ps: seq<Pulse>, n: nat, gap: nat, now: nat)
    requires Sorted(ps, gap, now) && n <= |ps|
    ensures Sorted(ps[..n], gap, now)
  {
  }

  /** A sequence that the current pulse makes detectable was extended or created by it. */
  lemma {:induction false} DetectedIsCurrent(r: Rule, ss: seq<PriSequence>, ts: nat, k: nat)
    requires !Detected(r, ss) && k < |Extend(r, ss, ts)| && Detects(r, Extend(r, ss, ts)[k])
    ensures Extend(r, ss, ts)[k].lastTs == ts
    decreases |ss|
  {
    if ss != [] {
      var init := ss[..|ss| - 1];
      var last := ss[|ss| - 1];
      assert !Detects(r, last);
      assert forall i :: 0 <= i < |init| ==> init[i] == ss[i] && !Detects(r, init[i]);
      if k < |Extend(r, init, ts)| { DetectedIsCurrent(r, init, ts, k); }
    }
  }

  lemma {:induction false} CreatedIsCurrent(r: Rule, pulses: seq<Pulse>, n: nat, ts: nat, minCount: nat,
                                            ss: seq<PriSequence>, pool: Pool, mem: Memory, k: nat)
    requires n <= |pulses|
    requires k < |Create(r, pulses, n, ts, minCount, ss, pool, mem).sequences|
    ensures var ps := Create(r, pulses, n, ts, minCount, ss, pool, mem).sequences[k];
            ps.lastTs == ts || ps in ss
    decreases n
  {
    if n > 0 {
      var prev := Create(r, pulses, n - 1, ts, minCount, ss, pool, mem);
      var next := Create(r, pulses, n, ts, minCount, ss, pool, mem);
      if next.sequences == prev.sequences {
        CreatedIsCurrent(r, pulses, n - 1, ts, minCount, ss, pool, mem, k);
      } else if k > 0 {
        CreatedIsCurrent(r, pulses, n - 1, ts, minCount, ss, pool, mem, k - 1);
      }
    }
  }

  /** A train of pulses that `r` takes for radar, in plain time. */
  ghost predicate Train(r: Rule, w: seq<nat>, c: nat, pri: nat) {
    && |w| >= r.ppbThresh && 1 <= c < |w| && Ascending(w)
    && r.priMin <= pri <= r.priMax && IntervalOf(r, w[c] - w[c - 1], pri)
    && (forall k :: 0 <= k < c ==> NearMultiple(w[c] - w[k], pri, r.tolerance))
    && (forall k :: c < k < |w| ==> NearMultiple(w[k] - w[k - 1], pri, r.tolerance))
    && (r.ppb >= 2 ==> w[|w| - 1] - w[0] <= pri * (r.ppb - 1) + 2 * r.tolerance)
  }

  /** The train ends with the pulse at `ts`, its other pulses were accepted before, and few pulses do not match. */
  ghost predicate Radar(r: Rule, d: Detector, ts: nat) {
    exists w: seq<nat>, c: nat, pri: nat, k: nat :: RadarBy(r, Noted(d, ts), ts, w, c, pri, k)
  }

  ghost predicate RadarBy(r: Rule, d: Detector, ts: nat, w: seq<nat>, c: nat, pri: nat, k: nat) {
    && Train(r, w, c, pri) && EndsAt(w, ts) && Within(w, d.history) && Born(w, c, d.history, d.queues, k)
    && FalsePulses(w, c, d.queues[k], |d.history| - 1 - k) <= r.nrPri * |w|
  }

  ghost predicate EndsAt(w: seq<nat>, ts: nat) { |w| > 0 && w[|w| - 1] == ts }

  ghost predicate Within(w: seq<nat>, history: seq<nat>) {
    forall k :: 0 <= k < |w| ==> w[k] in history
  }

  lemma {:induction false} SupportedIsRadar(r: Rule, ps: PriSequence, d: Detector, ts: nat)
    requires ValidRule(r) && Supported(r, ps, Noted(d, ts).history, Noted(d, ts).queues) && Detects(r, ps) && ps.lastTs == ts
    requires forall k :: 0 <= k < |Noted(d, ts).queues| ==> TimesIn(Noted(d, ts).queues[k], Noted(d, ts).history)
    ensures Radar(r, d, ts)
  {
    hide NearMultiple;
    hide Between;
    var e := Noted(d, ts);
    var w: seq<nat>, c: nat, k: nat :| Backs(r, ps, w, c, k, e.history, e.queues);
    DurationBound(r, ps.pri);
    assert Within(w, e.history) by {
      hide Witness;
      BornWithin(w, c, e.history, e.queues, k);
    }
    assert RadarBy(r, e, ts, w, c, ps.pri, k);
  }

  lemma {:induction false} BornWithin(w: seq<nat>, c: nat, history: seq<nat>, queues: seq<seq<Pulse>>, k: nat)
    requires Born(w, c, history, queues, k) && TimesIn(queues[k], history)
    ensures Within(w, history)
  {
  }

  /** Noting the pulse keeps what the invariant says of the lists of accepted pulses. */
  lemma {:induction false} NotedTimes(r: Rule, d: Detector, ts: nat, now: nat)
    requires DetectorInv(r, d, now)
    ensures var e := Noted(d, ts);
            && |e.queues| == |e.history| && (forall k :: 0 <= k < |e.queues| ==> TimesIn(e.queues[k], e.history))
            && TimesIn(d.pulses, e.history)
  {
    hide AllSupported;
    hide Detected;
  }

  lemma {:induction false} AcceptKeeps(r: Rule, d: Detector, pools: Pools, ts: nat, mem: Memories, now: nat)
    requires ValidRule(r) && DetectorInv(r, d, now) && now <= ts < U32 && After(r, d, ts)
    ensures var f := Accept(r, d, pools, ts, mem);
            if f.radar then Radar(r, d, ts)
            else DetectorInv(r, f.detector, ts) && (Stale(f.detector) == Stale(d) || f.detector == ResetDetector(ts))
  {
    hide Create;
    hide Supported;
    hide Enqueue;
    hide Extend;
    hide Radar;
    hide TimesIn;
    var extended := Extend(r, d.sequences, ts);
    var pool := PutAll(pools.pseq, Expired(d.sequences, ts));
    var made := Create(r, d.pulses, |d.pulses|, ts, MaxUpdated(r, d.sequences, ts), extended, pool, mem.pseq);
    ExtendSupported(r, d.sequences, d.history, d.queues, ts, d.pulses);
    CreateSupported(r, d.pulses, |d.pulses|, ts, MaxUpdated(r, d.sequences, ts), extended, pool, mem.pseq, d.history, d.queues);
    NotedTimes(r, d, ts, now);
    var d' := Noted(d, ts).(sequences := made.sequences);
    if made.ok {
      if Detected(r, made.sequences) {
        var k :| 0 <= k < |made.sequences| && Detects(r, made.sequences[k]);
        CreatedIsCurrent(r, d.pulses, |d.pulses|, ts, MaxUpdated(r, d.sequences, ts), extended, pool, mem.pseq, k);
        if made.sequences[k] in extended {
          var j :| 0 <= j < |extended| && extended[j] == made.sequences[k];
          DetectedIsCurrent(r, d.sequences, ts, j);
        }
        SupportedIsRadar(r, made.sequences[k], d, ts);
      } else {
        assert DetectorInv(r, d', ts);
        EnqueueKeeps(r, d', pools.(pseq := made.pool), ts, mem);
        NoRadarFromEnqueue(r, d', pools.(pseq := made.pool), ts, mem);
      }
    } else {
      ResetKeeps(r, ts);
    }
  }

  lemma {:induction false} NoRadarFromEnqueue(r: Rule, d: Detector, pools: Pools, ts: nat, mem: Memories)
    ensures !Enqueue(r, d, pools, ts, mem).radar
    ensures SameHistory(Enqueue(r, d, pools, ts, mem).detector, d)
  {
  }

  lemma {:induction false} ResetKeeps(r: Rule, ts: nat)
    requires ValidRule(r) && ts < U32
    ensures DetectorInv(r, ResetDetector(ts), ts)
  {
  }

  /** One pulse: either radar, with a train behind it, or the invariant holds on. No difference underflows. */
  lemma {:induction false} FeedKeeps(r: Rule, d: Detector, pools: Pools, p: PulseInfo, reset: bool, mem: Memories, now: nat)
    requires ValidRule(r) && DetectorInv(r, d, now) && p.ts < U32 && reset == (now > p.ts)
    ensures var f := Feed(r, d, pools, p, reset, mem);
            && (f.radar ==> !reset && Accepts(r, d, p) && Radar(r, d, p.ts))
            && (!f.radar ==> DetectorInv(r, f.detector, p.ts) && HistoryStep(r, d, f.detector, p))
            && (!f.radar ==> Stale(f.detector) == Stale(d) || f.detector == ResetDetector(p.ts))
  {
    hide Accept;
    hide Radar;
    hide Eligible;
    hide AllSupported;
    hide TimesIn;
    if reset {
      ResetKeeps(r, p.ts);
    } else if Accepts(r, d, p) {
      assert After(r, d, p.ts);
      AcceptKeeps(r, d, pools, p.ts, mem, now);
      AcceptHistory(r, d, pools, p.ts, mem);
    } else {
      assert DetectorInv(r, d, p.ts) by { hide Detected; }
    }
  }

  /** What a pulse does to the list of accepted pulses: it is noted if it is accepted, unless the detector is reset. */
  ghost predicate HistoryStep(r: Rule, d: Detector, d': Detector, p: PulseInfo) {
    || (d'.history == [] && d'.queues == [])
    || (if Accepts(r, d, p) then SameHistory(d', Noted(d, p.ts)) else SameHistory(d', d))
  }

  ghost predicate SameHistory(d: Detector, e: Detector) { d.history == e.history && d.queues == e.queues }

  lemma {:induction false} AcceptHistory(r: Rule, d: Detector, pools: Pools, ts: nat, mem: Memories)
    ensures var d' := Accept(r, d, pools, ts, mem).detector;
            (d'.history == [] && d'.queues == []) || SameHistory(d', Noted(d, ts))
  {
  }

  /** A pulse for which memory is missing empties the detector as if it were reset. */
  lemma {:induction false} MissingMemoryResets(r: Rule, d: Detector, pools: Pools, p: PulseInfo, mem: Memories, now: nat)
    requires ValidRule(r) && DetectorInv(r, d, now) && now <= p.ts < U32 && Takes(r, d, p)
    requires pools.pseq.free == [] && (forall k :: !mem.pseq(k)) && Expired(d.sequences, p.ts) == []
    requires exists i :: 0 <= i < |d.pulses| && Starter(r, d.pulses, i, p.ts, d.sequences)
    ensures var f := Feed(r, d, pools, p, false, mem); !f.radar && f.detector == Detector(p.ts, 0, [], [], [], [])
  {
    hide Create;
    hide Takes;
    hide Extend;
    hide MaxUpdated;
    hide Starter;
    hide Detected;
    hide AllSupported;
    hide TimesIn;
    AcceptsMeaning(r, d, p);
    assert PutAll(pools.pseq, []) == pools.pseq;
    CreateFails(r, d.pulses, |d.pulses|, p.ts, d.sequences, Extend(r, d.sequences, p.ts), pools.pseq, mem.pseq);
  }

  // ----- conservation of pool elements

  /** The elements handed out by the first `n` kmalloc calls. */
  ghost function Allocated(mem: Memory, n: nat): multiset<nat> {
    if n == 0 then multiset{} else Allocated(mem, n - 1) + (if mem(n - 1) then multiset{n - 1} else multiset{})
  }

  /** The elements in the pool and the `owned` ones are, each exactly once, the allocated ones. */
  ghost predicate Conserved(pool: Pool, mem: Memory, owned: multiset<nat>) {
    multiset(pool.free) + owned == Allocated(mem, pool.attempts)
  }

  lemma {:induction false} AllocatedOnce(mem: Memory, n: nat, id: nat)
    ensures Allocated(mem, n)[id] == if id < n && mem(id) then 1 else 0
  {
    if n > 0 { AllocatedOnce(mem, n - 1, id); }
  }

  /** Reading of `Conserved`: an element is allocated iff it is in the pool or in a list, and never in two places. */
  lemma {:induction false} ConservedMeaning(pool: Pool, mem: Memory, owned: multiset<nat>, id: nat)
    requires Conserved(pool, mem, owned)
    ensures id < pool.attempts && mem(id) <==> id in pool.free || id in owned
    ensures multiset(pool.free)[id] + owned[id] <= 1
  {
    AllocatedOnce(mem, pool.attempts, id);
    assert id in multiset(pool.free) <==> id in pool.free;
    assert (multiset(pool.free) + owned)[id] == multiset(pool.free)[id] + owned[id];
  }

  lemma {:induction false} PutConserves(pool: Pool, mem: Memory, id: nat, owned: multiset<nat>)
    requires Conserved(pool, mem, owned + multiset{id})
    ensures Conserved(Put(pool, id), mem, owned)
  {
    assert multiset([id] + pool.free) == multiset{id} + multiset(pool.free);
  }

  lemma {:induction false} TakeFirst(free: seq<nat>, owned: multiset<nat>)
    requires |free| > 0
    ensures multiset(free[1..]) + (owned + multiset{free[0]}) == multiset(free) + owned
  {
    assert free == [free[0]] + free[1..];
  }

  lemma {:induction false} GetConserves(pool: Pool, mem: Memory, owned: multiset<nat>)
    requires Conserved(pool, mem, owned)
    ensures var got := Get(pool, mem);
            Conserved(got.pool, mem, if got.ok then owned + multiset{got.id} else owned)
  {
    if |pool.free| > 0 {
      TakeFirst(pool.free, owned);
    }
  }

  lemma {:induction false} PutAllConserves(pool: Pool, mem: Memory, ids: seq<nat>, owned: multiset<nat>)
    requires Conserved(pool, mem, owned + multiset(ids))
    ensures Conserved(PutAll(pool, ids), mem, owned)
    decreases |ids|
  {
    if ids != [] {
      var init, last := ids[..|ids| - 1], ids[|ids| - 1];
      assert ids == init + [last];
      assert owned + multiset(ids) == (owned + multiset{last}) + multiset(init);
      PutAllConserves(pool, mem, init, owned + multiset{last});
      PutConserves(PutAll(pool, init), mem, last, owned);
    }
  }

  lemma {:induction false} DropTailConserves(pulses: seq<Pulse>, n: nat, pool: Pool, mem: Memory, rest: multiset<nat>)
    requires n <= |pulses| && Conserved(pool, mem, multiset(PulseIds(pulses)) + rest)
    ensures Conserved(DropTail(pulses, n, pool), mem, multiset(PulseIds(pulses[..n])) + rest)
    decreases |pulses|
  {
    if n == |pulses| {
      assert pulses[..n] == pulses;
    } else {
      var init, last := pulses[..|pulses| - 1], pulses[|pulses| - 1];
      assert PulseIds(pulses) == PulseIds(init) + [last.id];
      assert multiset(PulseIds(pulses)) + rest == (multiset(PulseIds(init)) + rest) + multiset{last.id};
      PutConserves(pool, mem, last.id, multiset(PulseIds(init)) + rest);
      DropTailConserves(init, n, Put(pool, last.id), mem, rest);
      assert init[..n] == pulses[..n];
    }
  }

  lemma {:induction false} CreateConserves(r: Rule, pulses: seq<Pulse>, n: nat, ts: nat, minCount: nat,
                                           ss: seq<PriSequence>, pool: Pool, mem: Memory, rest: multiset<nat>)
    requires n <= |pulses| && Conserved(pool, mem, multiset(SeqIds(ss)) + rest)
    ensures var made := Create(r, pulses, n, ts, minCount, ss, pool, mem);
            Conserved(made.pool, mem, multiset(SeqIds(made.sequences)) + rest)
    decreases n
  {
    hide Conserved;
    hide Get;
    hide NewSequence;
    hide Candidate;
    if n > 0 {
      CreateConserves(r, pulses, n - 1, ts, minCount, ss, pool, mem, rest);
      var prev := Create(r, pulses, n - 1, ts, minCount, ss, pool, mem);
      var got := Get(prev.pool, mem);
      GetConserves(prev.pool, mem, multiset(SeqIds(prev.sequences)) + rest);
      var ps := NewSequence(r, pulses, n - 1, ts).(id := got.id);
      assert SeqIds([ps] + prev.sequences) == [got.id] + SeqIds(prev.sequences);
      assert multiset(SeqIds([ps] + prev.sequences)) + rest == multiset(SeqIds(prev.sequences)) + rest + multiset{got.id};
    }
  }

  function PulsesOf(d: Detector): seq<nat> { PulseIds(d.pulses) }
  function SequencesOf(d: Detector): seq<nat> { SeqIds(d.sequences) }

  /** Both pools, for a detector `d` while `restP` and `restS` are owned elsewhere. */
  ghost predicate BothConserved(pools: Pools, mem: Memories, d: Detector, restP: multiset<nat>, restS: multiset<nat>) {
    && Conserved(pools.pulse, mem.pulse, multiset(PulsesOf(d)) + restP)
    && Conserved(pools.pseq, mem.pseq, multiset(SequencesOf(d)) + restS)
  }

  lemma {:induction false} ResetConserves(d: Detector, pools: Pools, ts: nat, mem: Memories, restP: multiset<nat>,
                                          restS: multiset<nat>)
    requires BothConserved(pools, mem, d, restP, restS)
    ensures BothConserved(ResetPools(d, pools), mem, ResetDetector(ts), restP, restS)
  {
    hide PutAll;
    assert multiset(PulsesOf(d)) + restP == restP + multiset(PulsesOf(d));
    PutAllConserves(pools.pulse, mem.pulse, PulsesOf(d), restP);
    assert multiset(SequencesOf(d)) + restS == restS + multiset(SequencesOf(d));
    PutAllConserves(pools.pseq, mem.pseq, SequencesOf(d), restS);
    assert multiset(PulsesOf(ResetDetector(ts))) + restP == restP;
    assert multiset(SequencesOf(ResetDetector(ts))) + restS == restS;
  }

  lemma {:induction false} EnqueueConserves(r: Rule, d: Detector, pools: Pools, ts: nat, mem: Memories,
                         restP: multiset<nat>, restS: multiset<nat>)
    requires BothConserved(pools, mem, d, restP, restS)
    ensures var f := Enqueue(r, d, pools, ts, mem); BothConserved(f.pools, mem, f.detector, restP, restS)
  {
    hide Conserved;
    hide Get;
    hide DropTail;
    GetConserves(pools.pulse, mem.pulse, multiset(PulsesOf(d)) + restP);
    var got := Get(pools.pulse, mem.pulse);
    if got.ok {
      var all := [Pulse(got.id, ts)] + d.pulses;
      assert PulseIds(all) == [got.id] + PulseIds(d.pulses);
      assert multiset(PulseIds(all)) + restP == multiset(PulsesOf(d)) + restP + multiset{got.id};
      DropTailConserves(all, QueueLimit(r, all, d.count + 1, ts), got.pool, mem.pulse, restP);
    }
  }

  lemma {:induction false} ExtendConserves(r: Rule, ss: seq<PriSequence>, ts: nat, pool: Pool, mem: Memory,
                                           rest: multiset<nat>)
    requires Conserved(pool, mem, multiset(SeqIds(ss)) + rest)
    ensures Conserved(PutAll(pool, Expired(ss, ts)), mem, multiset(SeqIds(Extend(r, ss, ts))) + rest)
  {
    ExtendBooksOnce(r, ss, ts);
    var kept := multiset(SeqIds(Extend(r, ss, ts))) + rest;
    assert multiset(SeqIds(ss)) + rest == kept + multiset(Expired(ss, ts));
    PutAllConserves(pool, mem, Expired(ss, ts), kept);
  }

  lemma {:induction false} FeedConserves(r: Rule, d: Detector, pools: Pools, p: PulseInfo, reset: bool, mem: Memories,
                      restP: multiset<nat>, restS: multiset<nat>)
    requires BothConserved(pools, mem, d, restP, restS)
    ensures var f := Feed(r, d, pools, p, reset, mem); BothConserved(f.pools, mem, f.detector, restP, restS)
  {
    hide Conserved;
    hide Create;
    hide Enqueue;
    hide Extend;
    hide Detected;
    if reset {
      ResetConserves(d, pools, p.ts, mem, restP, restS);
    } else if Accepts(r, d, p) {
      var extended := Extend(r, d.sequences, p.ts);
      var pool := PutAll(pools.pseq, Expired(d.sequences, p.ts));
      var min := MaxUpdated(r, d.sequences, p.ts);
      var made := Create(r, d.pulses, |d.pulses|, p.ts, min, extended, pool, mem.pseq);
      ExtendConserves(r, d.sequences, p.ts, pools.pseq, mem.pseq, restS);
      CreateConserves(r, d.pulses, |d.pulses|, p.ts, min, extended, pool, mem.pseq, restS);
      var d' := Noted(d, p.ts).(sequences := made.sequences);
      var pools' := pools.(pseq := made.pool);
      assert BothConserved(pools', mem, d', restP, restS);
      if !made.ok {
        ResetConserves(d', pools', p.ts, mem, restP, restS);
      } else {
        EnqueueConserves(r, d', pools', p.ts, mem, restP, restS);
      }
    }
  }

  // ----- the whole bank

  ghost function Owned(ds: seq<Detector>, of: Detector -> seq<nat>): multiset<nat>
    decreases |ds|
  {
    if ds == [] then multiset{} else Owned(ds[..|ds| - 1], of) + multiset(of(ds[|ds| - 1]))
  }

  ghost function Others(ds: seq<Detector>, i: nat, of: Detector -> seq<nat>): multiset<nat>
    requires i < |ds|
  {
    Owned(ds[..i], of) + Owned(ds[i + 1..], of)
  }

  lemma {:induction false} OwnedConcat(a: seq<Detector>, b: seq<Detector>, of: Detector -> seq<nat>)
    ensures Owned(a + b, of) == Owned(a, of) + Owned(b, of)
    decreases |b|
  {
    if b == [] {
      assert a + b == a;
    } else {
      assert (a + b)[..|a + b| - 1] == a + b[..|b| - 1];
      OwnedConcat(a, b[..|b| - 1], of);
    }
  }

  lemma {:induction false} OwnedOne(d: Detector, of: Detector -> seq<nat>)
    ensures Owned([d], of) == multiset(of(d))
  {
    assert [d][..0] == [];
  }

  lemma {:induction false} OwnedSplit(ds: seq<Detector>, i: nat, of: Detector -> seq<nat>)
    requires i < |ds|
    ensures Owned(ds, of) == multiset(of(ds[i])) + Others(ds, i, of)
  {
    hide Owned;
    var tail := [ds[i]] + ds[i + 1..];
    assert ds == ds[..i] + tail;
    OwnedConcat(ds[..i], tail, of);
    OwnedConcat([ds[i]], ds[i + 1..], of);
    OwnedOne(ds[i], of);
  }

  lemma {:induction false} OthersKept(ds: seq<Detector>, i: nat, d: Detector, of: Detector -> seq<nat>)
    requires i < |ds|
    ensures Others(ds[i := d], i, of) == Others(ds, i, of)
  {
    assert ds[i := d][..i] == ds[..i];
    assert ds[i := d][i + 1..] == ds[i + 1..];
  }

  /** Elements that are in no list and no pool any more. */
  datatype Leaks = Leaks(pulse: multiset<nat>, pseq: multiset<nat>)

  ghost predicate BankConserved(ds: seq<Detector>, pools: Pools, mem: Memories, lost: Leaks) {
    && Conserved(pools.pulse, mem.pulse, Owned(ds, PulsesOf) + lost.pulse)
    && Conserved(pools.pseq, mem.pseq, Owned(ds, SequencesOf) + lost.pseq)
  }

  lemma {:induction false} Focus(ds: seq<Detector>, i: nat, pools: Pools, mem: Memories, lost: Leaks)
    requires i < |ds|
    ensures BankConserved(ds, pools, mem, lost)
            <==> BothConserved(pools, mem, ds[i], Others(ds, i, PulsesOf) + lost.pulse, Others(ds, i, SequencesOf) + lost.pseq)
  {
    hide Others;
    OwnedSplit(ds, i, PulsesOf);
    OwnedSplit(ds, i, SequencesOf);
    assert Owned(ds, PulsesOf) + lost.pulse == multiset(PulsesOf(ds[i])) + (Others(ds, i, PulsesOf) + lost.pulse);
    assert Owned(ds, SequencesOf) + lost.pseq == multiset(SequencesOf(ds[i])) + (Others(ds, i, SequencesOf) + lost.pseq);
  }

  lemma {:induction false} Unfocus(ds: seq<Detector>, i: nat, d: Detector, pools: Pools, mem: Memories, lost: Leaks)
    requires i < |ds|
    requires BothConserved(pools, mem, d, Others(ds, i, PulsesOf) + lost.pulse, Others(ds, i, SequencesOf) + lost.pseq)
    ensures BankConserved(ds[i := d], pools, mem, lost)
  {
    OthersKept(ds, i, d, PulsesOf);
    OthersKept(ds, i, d, SequencesOf);
    Focus(ds[i := d], i, pools, mem, lost);
  }

  lemma {:induction false} ResetOneConserves(ds: seq<Detector>, i: nat, pools: Pools, mem: Memories, lost: Leaks)
    requires i < |ds| && BankConserved(ds, pools, mem, lost)
    ensures BankConserved(ds[i := ResetDetector(0)], ResetPools(ds[i], pools), mem, lost)
  {
    hide BankConserved;
    hide BothConserved;
    hide Others;
    hide ResetPools;
    Focus(ds, i, pools, mem, lost);
    ResetConserves(ds[i], pools, 0, mem, Others(ds, i, PulsesOf) + lost.pulse, Others(ds, i, SequencesOf) + lost.pseq);
    Unfocus(ds, i, ResetDetector(0), ResetPools(ds[i], pools), mem, lost);
  }

  /** Resetting all detectors leaves every list empty and every element that is not lost in its pool. */
  lemma {:induction false} ResetAllMeaning(ds: seq<Detector>, n: nat, pools: Pools, mem: Memories, lost: Leaks)
    requires n <= |ds| && BankConserved(ds, pools, mem, lost)
    ensures var b := ResetAll(ds, n, pools);
            && BankConserved(b.detectors, b.pools, mem, lost)
            && (forall i :: 0 <= i < n ==> b.detectors[i] == ResetDetector(0))
            && (forall i :: n <= i < |ds| ==> b.detectors[i] == ds[i])
  {
    hide BankConserved;
    hide ResetPools;
    if n > 0 {
      ResetAllMeaning(ds, n - 1, pools, mem, lost);
      var b := ResetAll(ds, n - 1, pools);
      ResetOneConserves(b.detectors, n - 1, b.pools, mem, lost);
    }
  }

  lemma {:induction false} FeedOneConserves(r: Rule, ds: seq<Detector>, i: nat, pools: Pools, p: PulseInfo, reset: bool,
                                            mem: Memories, lost: Leaks)
    requires i < |ds| && BankConserved(ds, pools, mem, lost)
    ensures var f := Feed(r, ds[i], pools, p, reset, mem); BankConserved(ds[i := f.detector], f.pools, mem, lost)
  {
    hide BankConserved;
    hide BothConserved;
    hide Others;
    hide Feed;
    var f := Feed(r, ds[i], pools, p, reset, mem);
    var restP, restS := Others(ds, i, PulsesOf) + lost.pulse, Others(ds, i, SequencesOf) + lost.pseq;
    Focus(ds, i, pools, mem, lost);
    FeedConserves(r, ds[i], pools, p, reset, mem, restP, restS);
    Unfocus(ds, i, f.detector, f.pools, mem, lost);
  }

  ghost predicate AllInv(rules: seq<Rule>, ds: seq<Detector>, now: nat)
    requires |rules| == |ds|
  {
    forall i :: 0 <= i < |ds| ==> DetectorInv(rules[i], ds[i], now)
  }

  ghost predicate AllReset(ds: seq<Detector>) {
    forall i :: 0 <= i < |ds| ==> ds[i] == ResetDetector(0)
  }

  /** Rules below `n` have seen the pulse. */
  ghost predicate BankInv(rules: seq<Rule>, ds: seq<Detector>, ds': seq<Detector>, n: nat, p: PulseInfo)
    requires n <= |rules| == |ds| == |ds'|
  {
    forall i :: 0 <= i < n ==> StepInv(rules[i], ds[i], ds'[i], p)
  }

  /** One detector before and after the pulse. */
  ghost predicate StepInv(r: Rule, d: Detector, d': Detector, p: PulseInfo) {
    && DetectorInv(r, d', p.ts) && HistoryStep(r, d, d', p)
    && (Stale(d') == Stale(d) || d' == ResetDetector(p.ts))
  }

  ghost predicate RadarAt(rules: seq<Rule>, ds: seq<Detector>, p: PulseInfo, i: nat)
    requires |rules| == |ds|
  {
    i < |rules| && Accepts(rules[i], ds[i], p) && Radar(rules[i], ds[i], p.ts)
  }

  lemma {:induction false} FeedBankKeeps(rules: seq<Rule>, ds: seq<Detector>, n: nat, pools: Pools, p: PulseInfo,
                                         mem: Memories, now: nat, lost: Leaks)
    requires n <= |rules| == |ds| && ValidRules(rules) && AllInv(rules, ds, now) && p.ts < U32
    requires BankConserved(ds, pools, mem, lost)
    ensures var b := FeedBank(rules, ds, n, pools, p, now > p.ts, mem);
            && BankConserved(b.detectors, b.pools, mem, lost)
            && (b.radar ==> now <= p.ts && AllReset(b.detectors) && exists i: nat :: RadarAt(rules, ds, p, i))
            && (!b.radar ==> BankInv(rules, ds, b.detectors, n, p))
  {
    hide BankConserved;
    hide BothConserved;
    hide DetectorInv;
    hide HistoryStep;
    hide Feed;
    hide Radar;
    hide Stale;
    if n > 0 {
      FeedBankKeeps(rules, ds, n - 1, pools, p, mem, now, lost);
      var b := FeedBank(rules, ds, n - 1, pools, p, now > p.ts, mem);
      if !b.radar {
        var d := b.detectors[n - 1];
        assert d == ds[n - 1];
        var f := Feed(rules[n - 1], d, b.pools, p, now > p.ts, mem);
        FeedKeeps(rules[n - 1], d, b.pools, p, now > p.ts, mem, now);
        FeedOneConserves(rules[n - 1], b.detectors, n - 1, b.pools, p, now > p.ts, mem, lost);
        var ds' := b.detectors[n - 1 := f.detector];
        if f.radar {
          ResetAllMeaning(ds', |ds'|, f.pools, mem, lost);
          assert RadarAt(rules, ds, p, n - 1);
        }
      }
    }
  }

  // ----- runs

  /** `CacDone`: the availability check ends without a report. `Start` configures a channel and starts the check or the
      monitoring. `Stop` ends the use of detection by an interface and `Init` sets one up, this one or another one that
      shares the detectors. */
  datatype Event =
    | PulseSeen(p: PulseInfo)
    | Stop(own: bool)
    | CacDone
    | Start(monitor: bool, ok: bool)
    | Init(own: bool)

  function Reset(n: nat): State {
    State(seq(n, _ => ResetDetector(0)), Pools(Pool([], 0), Pool([], 0)), 0, false, false)
  }

  function Step(rules: seq<Rule>, mem: Memories, s: State, e: Event): (s': State)
    requires |rules| == |s.detectors|
    ensures |s'.detectors| == |rules|
  {
    match e
    case PulseSeen(p) => AddPulse(rules, s, p, mem).state
    case Stop(own) => Deinit(s, own)
    case CacDone => s.(cac := false)
    case Start(monitor, ok) => ChanInit(s, monitor, ok)
    case Init(own) => InitInterface(s, own)
  }

  function Run(rules: seq<Rule>, mem: Memories, events: seq<Event>): (s: State)
    ensures |s.detectors| == |rules|
    decreases |events|
  {
    if events == [] then Reset(|rules|)
    else Step(rules, mem, Run(rules, mem, events[..|events| - 1]), events[|events| - 1])
  }

  predicate InitialisesLists(e: Event) { e.Start? || e.Init? }

  /** What the run has lost: whatever the lists held when they were initialised anew. */
  ghost function Lost(rules: seq<Rule>, mem: Memories, events: seq<Event>): Leaks
    decreases |events|
  {
    if events == [] then Leaks(multiset{}, multiset{})
    else
      var init := events[..|events| - 1];
      LostStep(Lost(rules, mem, init), Run(rules, mem, init).detectors, events[|events| - 1])
  }

  ghost function LostStep(lost: Leaks, ds: seq<Detector>, e: Event): Leaks {
    if InitialisesLists(e) then Leaks(Owned(ds, PulsesOf) + lost.pulse, Owned(ds, SequencesOf) + lost.pseq) else lost
  }

  /** Event `j` ends whatever watches for radar on this interface: it is stopped or set up anew, or radar is reported. */
  predicate EndsWatch(rules: seq<Rule>, mem: Memories, events: seq<Event>, j: nat)
    requires j < |events|
  {
    || events[j] == Event.Stop(true) || events[j] == Init(true)
    || (events[j].PulseSeen? && AddPulse(rules, Run(rules, mem, events[..j]), events[j].p, mem).radar)
  }

  /** Event `k` started the check, or the monitoring, and nothing has ended it since. */
  ghost predicate WatchedSince(rules: seq<Rule>, mem: Memories, events: seq<Event>, monitor: bool, k: nat) {
    && k < |events| && events[k] == Start(monitor, true)
    && forall j :: k < j < |events| ==> !EndsWatch(rules, mem, events, j) && (events[j].CacDone? ==> monitor)
  }

  /** Pulses are looked at exactly while a check, or a monitoring, that was started has not been ended. */
  lemma {:induction false} FlagsMeaning(rules: seq<Rule>, mem: Memories, events: seq<Event>)
    ensures var s := Run(rules, mem, events);
            && (s.cac <==> exists k: nat :: WatchedSince(rules, mem, events, false, k))
            && (s.monitor <==> exists k: nat :: WatchedSince(rules, mem, events, true, k))
    decreases |events|
  {
    hide AddPulse;
    if events != [] {
      var n := |events| - 1;
      FlagsMeaning(rules, mem, events[..n]);
      FlagsStep(rules, mem, Run(rules, mem, events[..n]), events[n]);
      assert forall j :: 0 <= j < n ==> events[..n][..j] == events[..j];
      WatchStep(rules, mem, events, false);
      WatchStep(rules, mem, events, true);
    }
  }

  lemma {:induction false} FlagsStep(rules: seq<Rule>, mem: Memories, s: State, e: Event)
    requires |rules| == |s.detectors|
    ensures var s' := Step(rules, mem, s, e);
            var ends := e == Event.Stop(true) || e == Init(true) || (e.PulseSeen? && AddPulse(rules, s, e.p, mem).radar);
            && (s'.cac <==> e == Start(false, true) || (s.cac && !ends && !e.CacDone?))
            && (s'.monitor <==> e == Start(true, true) || (s.monitor && !ends))
  {
    hide FeedBank;
    hide ResetAll;
  }

  lemma {:induction false} WatchStep(rules: seq<Rule>, mem: Memories, events: seq<Event>, monitor: bool)
    requires events != []
    ensures var n := |events| - 1;
            (exists k: nat :: WatchedSince(rules, mem, events, monitor, k))
            <==> events[n] == Start(monitor, true)
                 || (!EndsWatch(rules, mem, events, n) && (events[n].CacDone? ==> monitor)
                     && exists k: nat :: WatchedSince(rules, mem, events[..n], monitor, k))
  {
    hide Run;
    hide AddPulse;
    var n := |events| - 1;
    assert forall j :: 0 <= j < n ==> events[..n][..j] == events[..j];
    if k: nat :| WatchedSince(rules, mem, events, monitor, k) {
      if k < n { assert WatchedSince(rules, mem, events[..n], monitor, k); }
    }
    if events[n] == Start(monitor, true) { assert WatchedSince(rules, mem, events, monitor, n); }
    if k: nat :| WatchedSince(rules, mem, events[..n], monitor, k) {
      if !EndsWatch(rules, mem, events, n) && (events[n].CacDone? ==> monitor) {
        assert WatchedSince(rules, mem, events, monitor, k);
      }
    }
  }

  /** Timestamps are 32-bit microseconds. */
  predicate Legal(events: seq<Event>) {
    forall k :: 0 <= k < |events| && events[k].PulseSeen? ==> events[k].p.ts < U32
  }

  lemma {:induction false} LegalGrows(events: seq<Event>, e: Event)
    ensures Legal(events + [e]) <==> Legal(events) && (e.PulseSeen? ==> e.p.ts < U32)
  {
    var es := events + [e];
    assert forall k :: 0 <= k < |events| ==> es[k] == events[k];
    assert es[|events|] == e;
  }

  /** From event `since` on there are only pulses, none older than the one before, and ends of the availability check. */
  ghost predicate Session(events: seq<Event>, since: nat, now: nat) {
    && since <= |events|
    && (forall j :: since <= j < |events| ==> events[j].PulseSeen? || events[j].CacDone?)
    && (forall j :: since <= j < |events| && events[j].PulseSeen? ==> events[j].p.ts <= now)
    && (forall j, k :: since <= j <= k < |events| && events[j].PulseSeen? && events[k].PulseSeen? ==>
          events[j].p.ts <= events[k].p.ts)
  }

  /** `t` is the timestamp of a pulse of the session whose width and chirp fit the rule. */
  ghost predicate SeenIn(r: Rule, events: seq<Event>, since: nat, t: nat) {
    exists j :: since <= j < |events| && events[j].PulseSeen? && events[j].p.ts == t && Eligible(r, events[j].p)
  }

  /** Rule `i` takes the pulse of event `j`. */
  ghost predicate AcceptedAt(rules: seq<Rule>, mem: Memories, events: seq<Event>, i: nat, j: nat)
    requires i < |rules| && j < |events|
  {
    var s := Run(rules, mem, events[..j]);
    events[j].PulseSeen? && Armed(s) && s.lastPulseTs <= events[j].p.ts && Takes(rules[i], s.detectors[i], events[j].p)
  }

  /** The events from `from` on whose pulses rule `i` took. */
  ghost function Taken(rules: seq<Rule>, mem: Memories, events: seq<Event>, i: nat, from: nat): (js: seq<nat>)
    requires i < |rules|
    ensures forall k :: 0 <= k < |js| ==> from <= js[k] < |events|
    decreases |events|
  {
    if |events| <= from then []
    else
      var n := |events| - 1;
      var rest := Taken(rules, mem, events[..n], i, from);
      if AcceptedAt(rules, mem, events, i, n) then rest + [n] else rest
  }

  /** `Taken` lists exactly the accepted pulses, in order, each once. */
  lemma {:induction false} TakenMeaning(rules: seq<Rule>, mem: Memories, events: seq<Event>, i: nat, from: nat)
    requires i < |rules|
    ensures var js := Taken(rules, mem, events, i, from);
            && Ascending(js)
            && forall j :: j in js <==> from <= j < |events| && AcceptedAt(rules, mem, events, i, j)
    decreases |events|
  {
    hide Takes;
    hide Run;
    if |events| > from {
      var n := |events| - 1;
      TakenMeaning(rules, mem, events[..n], i, from);
      assert forall j :: 0 <= j < n ==> events[..n][..j] == events[..j];
    }
  }

  /** The pulses after the `k`-th one taken. */
  lemma {:induction false} TakenAfter(rules: seq<Rule>, mem: Memories, events: seq<Event>, i: nat, from: nat, k: nat)
    requires i < |rules| && k < |Taken(rules, mem, events, i, from)|
    ensures var js := Taken(rules, mem, events, i, from); Taken(rules, mem, events, i, js[k] + 1) == js[k + 1..]
    decreases |events|
  {
    hide AcceptedAt;
    if |events| > from {
      var n := |events| - 1;
      var js, rest := Taken(rules, mem, events, i, from), Taken(rules, mem, events[..n], i, from);
      if k < |rest| {
        TakenAfter(rules, mem, events[..n], i, from, k);
        assert js[k + 1..] == if AcceptedAt(rules, mem, events, i, n) then rest[k + 1..] + [n] else rest[k + 1..];
      }
    }
  }

  /** What was stored for rule `i` when event `j` came. */
  ghost function StoredAt(rules: seq<Rule>, mem: Memories, events: seq<Event>, i: nat, j: nat): seq<Pulse>
    requires i < |rules| && j < |events|
  {
    Run(rules, mem, events[..j]).detectors[i].pulses
  }

  /** The accepted pulses that a detector has noted are those of the events from `from` on. */
  ghost predicate Sourced(rules: seq<Rule>, mem: Memories, d: Detector, events: seq<Event>, i: nat, from: nat)
    requires i < |rules|
  {
    var js := Taken(rules, mem, events, i, from);
    && |js| == |d.history| == |d.queues|
    && forall k :: 0 <= k < |js| ==> SourceAt(rules, mem, d, events, i, k, js[k])
  }

  ghost predicate SourceAt(rules: seq<Rule>, mem: Memories, d: Detector, events: seq<Event>, i: nat, k: nat, j: nat)
    requires i < |rules| && k < |d.history| == |d.queues| && j < |events|
  {
    && events[j].PulseSeen? && Eligible(rules[i], events[j].p)
    && d.history[k] == events[j].p.ts && d.queues[k] == StoredAt(rules, mem, events, i, j)
  }

  ghost predicate Grounded(rules: seq<Rule>, mem: Memories, ds: seq<Detector>, events: seq<Event>, since: nat)
    requires |rules| == |ds|
  {
    forall i :: 0 <= i < |ds| ==> GroundedAt(rules, mem, ds[i], events, since, i)
  }

  ghost predicate GroundedAt(rules: seq<Rule>, mem: Memories, d: Detector, events: seq<Event>, since: nat, i: nat)
    requires i < |rules|
  {
    exists from :: since <= from <= |events| && Sourced(rules, mem, d, events, i, from)
  }

  ghost predicate StateInv(rules: seq<Rule>, mem: Memories, s: State, events: seq<Event>, since: nat, lost: Leaks) {
    && |s.detectors| == |rules| && s.lastPulseTs < U32
    && AllInv(rules, s.detectors, s.lastPulseTs)
    && BankConserved(s.detectors, s.pools, mem, lost)
    && (Armed(s) ==> Session(events, since, s.lastPulseTs) && Grounded(rules, mem, s.detectors, events, since))
  }

  /** A bank without histories starts a session. */
  lemma {:induction false} FreshBankInv(rules: seq<Rule>, mem: Memories, s: State, events: seq<Event>, lost: Leaks)
    requires ValidRules(rules) && |s.detectors| == |rules| && s.lastPulseTs < U32
    requires AllInv(rules, s.detectors, s.lastPulseTs) && BankConserved(s.detectors, s.pools, mem, lost)
    requires forall i :: 0 <= i < |rules| ==> s.detectors[i].history == [] && s.detectors[i].queues == []
    ensures StateInv(rules, mem, s, events, |events|, lost)
  {
    forall i | 0 <= i < |rules| ensures GroundedAt(rules, mem, s.detectors[i], events, |events|, i) {
      assert Sourced(rules, mem, s.detectors[i], events, i, |events|);
    }
  }

  lemma {:induction false} ResetBankInv(rules: seq<Rule>, mem: Memories, s: State, events: seq<Event>, lost: Leaks)
    requires ValidRules(rules) && |s.detectors| == |rules| && s.lastPulseTs < U32
    requires AllReset(s.detectors) && BankConserved(s.detectors, s.pools, mem, lost)
    ensures StateInv(rules, mem, s, events, |events|, lost)
  {
    forall i | 0 <= i < |rules| ensures DetectorInv(rules[i], s.detectors[i], s.lastPulseTs) { ResetKeeps(rules[i], 0); }
    FreshBankInv(rules, mem, s, events, lost);
  }

  lemma {:induction false} EmptyOwned(ds: seq<Detector>)
    requires forall i :: 0 <= i < |ds| ==> ds[i].pulses == [] && ds[i].sequences == []
    ensures Owned(ds, PulsesOf) == multiset{} && Owned(ds, SequencesOf) == multiset{}
    decreases |ds|
  {
    if ds != [] { EmptyOwned(ds[..|ds| - 1]); }
  }

  /** Initialising the lists keeps the invariant of a detector, whatever its `count` and `lastTs`. */
  lemma {:induction false} EmptiedKeeps(r: Rule, d: Detector, now: nat, now': nat)
    requires ValidRule(r) && DetectorInv(r, d, now) && now' < U32
    ensures DetectorInv(r, Emptied(d), now') && Stale(Emptied(d)) == d.count
  {
  }

  lemma {:induction false} EmptyListsKeep(rules: seq<Rule>, mem: Memories, s: State, s': State, events: seq<Event>,
                                          lost: Leaks, e: Event)
    requires ValidRules(rules) && |s.detectors| == |rules| && s'.lastPulseTs < U32
    requires AllInv(rules, s.detectors, s.lastPulseTs) && BankConserved(s.detectors, s.pools, mem, lost)
    requires InitialisesLists(e) && s'.detectors == EmptyLists(s.detectors) && s'.pools == s.pools
    ensures StateInv(rules, mem, s', events, |events|, LostStep(lost, s.detectors, e))
  {
    hide DetectorInv;
    hide BankConserved;
    hide LostStep;
    forall i | 0 <= i < |rules| ensures DetectorInv(rules[i], s'.detectors[i], s'.lastPulseTs) {
      EmptiedKeeps(rules[i], s.detectors[i], s.lastPulseTs, s'.lastPulseTs);
    }
    EmptyListsConserve(s.detectors, s.pools, mem, lost, e);
    FreshBankInv(rules, mem, s', events, LostStep(lost, s.detectors, e));
  }

  lemma {:induction false} EmptyListsConserve(ds: seq<Detector>, pools: Pools, mem: Memories, lost: Leaks, e: Event)
    requires BankConserved(ds, pools, mem, lost) && InitialisesLists(e)
    ensures BankConserved(EmptyLists(ds), pools, mem, LostStep(lost, ds, e))
  {
    hide Owned;
    hide Allocated;
    EmptyOwned(EmptyLists(ds));
    var lost' := LostStep(lost, ds, e);
    assert multiset{} + lost'.pulse == lost'.pulse && multiset{} + lost'.pseq == lost'.pseq;
  }

  /** One more event, whose pulse is taken or not. */
  lemma {:induction false} SourcedLater(rules: seq<Rule>, mem: Memories, d: Detector, d': Detector, events: seq<Event>,
                                        e: Event, i: nat, from: nat)
    requires i < |rules| && from <= |events| && Sourced(rules, mem, d, events, i, from)
    requires if AcceptedAt(rules, mem, events + [e], i, |events|)
             then SameHistory(d', Noted(d, e.p.ts)) && d.pulses == Run(rules, mem, events).detectors[i].pulses
             else SameHistory(d', d)
    ensures Sourced(rules, mem, d', events + [e], i, from)
  {
    hide Run;
    hide Heard;
    hide Session;
    var es, n := events + [e], |events|;
    assert es[..n] == events;
    var js, js' := Taken(rules, mem, events, i, from), Taken(rules, mem, es, i, from);
    forall k | 0 <= k < |js'| ensures SourceAt(rules, mem, d', es, i, k, js'[k]) {
      if k < |js| {
        assert SourceAt(rules, mem, d, events, i, k, js[k]);
        assert es[..js[k]] == events[..js[k]] && es[js[k]] == events[js[k]];
      }
    }
  }

  /** A pulse that is looked at and does not reset the bank is noted by the rules that accept it. */
  lemma {:induction false} GroundedStep(rules: seq<Rule>, mem: Memories, ds: seq<Detector>, ds': seq<Detector>,
                                        events: seq<Event>, since: nat, p: PulseInfo)
    requires |rules| == |ds| == |ds'| && Grounded(rules, mem, ds, events, since) && since <= |events| && ValidRules(rules) && p.ts < U32
    requires var s := Run(rules, mem, events); s.detectors == ds && Armed(s) && s.lastPulseTs <= p.ts
    requires forall i :: 0 <= i < |rules| ==> ds[i].lastTs < U32 && HistoryStep(rules[i], ds[i], ds'[i], p)
    ensures Grounded(rules, mem, ds', events + [PulseSeen(p)], since)
  {
    hide Eligible;
    hide Run;
    hide Sourced;
    hide Accepts;
    hide Takes;
    var es := events + [PulseSeen(p)];
    assert es[..|events|] == events;
    forall i | 0 <= i < |ds'| ensures GroundedAt(rules, mem, ds'[i], es, since, i) {
      assert GroundedAt(rules, mem, ds[i], events, since, i);
      var from :| since <= from <= |events| && Sourced(rules, mem, ds[i], events, i, from);
      AcceptsMeaning(rules[i], ds[i], p);
      if ds'[i].history == [] && ds'[i].queues == [] {
        SourcedNone(rules, mem, ds'[i], es, i);
      } else {
        SourcedLater(rules, mem, ds[i], ds'[i], events, PulseSeen(p), i, from);
      }
    }
  }

  lemma {:induction false} SourcedNone(rules: seq<Rule>, mem: Memories, d: Detector, events: seq<Event>, i: nat)
    requires i < |rules| && d.history == [] && d.queues == []
    ensures Sourced(rules, mem, d, events, i, |events|)
  {
  }

  lemma {:induction false} CacDoneKeeps(rules: seq<Rule>, mem: Memories, s: State, events: seq<Event>, since: nat,
                                        lost: Leaks)
    requires StateInv(rules, mem, s, events, since, lost)
    ensures StateInv(rules, mem, s.(cac := false), events + [CacDone], since, lost)
  {
    hide DetectorInv;
    hide BankConserved;
    hide Sourced;
    hide Run;
    if Armed(s) {
      var es := events + [CacDone];
      forall i | 0 <= i < |rules| ensures GroundedAt(rules, mem, s.detectors[i], es, since, i) {
        assert GroundedAt(rules, mem, s.detectors[i], events, since, i);
        var from :| since <= from <= |events| && Sourced(rules, mem, s.detectors[i], events, i, from);
        SourcedLater(rules, mem, s.detectors[i], s.detectors[i], events, CacDone, i, from);
      }
    }
  }

  lemma {:induction false} PulseStepKeeps(rules: seq<Rule>, mem: Memories, s: State, events: seq<Event>, since: nat,
                                          p: PulseInfo, lost: Leaks)
    returns (since': nat)
    requires ValidRules(rules) && StateInv(rules, mem, s, events, since, lost) && p.ts < U32 && s == Run(rules, mem, events)
    ensures StateInv(rules, mem, AddPulse(rules, s, p, mem).state, events + [PulseSeen(p)], since', lost)
  {
    hide DetectorInv;
    hide BankConserved;
    hide HistoryStep;
    hide FeedBank;
    hide Stale;
    hide Run;
    hide GroundedAt;
    hide Takes;
    var es := events + [PulseSeen(p)];
    assert es[..|events|] == events;
    since' := since;
    if Armed(s) {
      FeedBankKeeps(rules, s.detectors, |rules|, s.pools, p, mem, s.lastPulseTs, lost);
      var out := AddPulse(rules, s, p, mem);
      if out.radar {
        since' := |es|;
        ResetBankInv(rules, mem, out.state, es, lost);
      } else {
        var ds, ds' := s.detectors, out.state.detectors;
        forall i | 0 <= i < |rules|
          ensures DetectorInv(rules[i], ds'[i], p.ts) && HistoryStep(rules[i], ds[i], ds'[i], p) && ds[i].lastTs < U32
        {
          assert StepInv(rules[i], ds[i], ds'[i], p);
          LastTsIsWord(rules[i], ds[i], s.lastPulseTs);
        }
        if s.lastPulseTs > p.ts {
          since' := |es|;
          ResetHistories(rules, s.detectors, |rules|, s.pools, p, mem);
          FreshBankInv(rules, mem, out.state, es, lost);
        } else {
          GroundedStep(rules, mem, ds, ds', events, since, p);
        }
      }
    } else {
      UnarmedKeeps(rules, mem, s, events, since, p, lost);
    }
  }

  lemma {:induction false} LastTsIsWord(r: Rule, d: Detector, now: nat)
    requires DetectorInv(r, d, now)
    ensures d.lastTs < U32
  {
  }

  lemma {:induction false} UnarmedKeeps(rules: seq<Rule>, mem: Memories, s: State, events: seq<Event>, since: nat,
                                        p: PulseInfo, lost: Leaks)
    requires StateInv(rules, mem, s, events, since, lost) && !Armed(s)
    ensures StateInv(rules, mem, s, events + [PulseSeen(p)], since, lost)
  {
  }

  lemma {:induction false} ResetHistories(rules: seq<Rule>, ds: seq<Detector>, n: nat, pools: Pools, p: PulseInfo,
                                          mem: Memories)
    requires n <= |rules| == |ds|
    ensures var b := FeedBank(rules, ds, n, pools, p, true, mem);
            !b.radar && forall i :: 0 <= i < n ==> b.detectors[i].history == [] && b.detectors[i].queues == []
  {
    if n > 0 { ResetHistories(rules, ds, n - 1, pools, p, mem); }
  }

  /** The invariant of every reachable state: the count is the queue's length plus a stale part and stays below the
      limit, queue order, gaps and window; conservation of both pools up to what was lost; and, while pulses are looked
      at, accepted pulses that are real pulses of the current session. */
  lemma {:induction false} RunKeeps(rules: seq<Rule>, mem: Memories, events: seq<Event>) returns (since: nat)
    requires ValidRules(rules) && Legal(events)
    ensures StateInv(rules, mem, Run(rules, mem, events), events, since, Lost(rules, mem, events))
    decreases |events|
  {
    hide DetectorInv;
    if events == [] {
      since := 0;
      var s := Reset(|rules|);
      EmptyOwned(s.detectors);
      ResetBankInv(rules, mem, s, events, Lost(rules, mem, events));
    } else {
      hide BankConserved;
      var init, e := events[..|events| - 1], events[|events| - 1];
      assert events == init + [e];
      var since0 := RunKeeps(rules, mem, init);
      since := StepKeeps(rules, mem, Run(rules, mem, init), init, since0, e, Lost(rules, mem, init));
    }
  }

  lemma {:induction false} StepKeeps(rules: seq<Rule>, mem: Memories, s: State, events: seq<Event>, since: nat, e: Event,
                                     lost: Leaks)
    returns (since': nat)
    requires ValidRules(rules) && StateInv(rules, mem, s, events, since, lost) && (e.PulseSeen? ==> e.p.ts < U32)
    requires s == Run(rules, mem, events)
    ensures StateInv(rules, mem, Step(rules, mem, s, e), events + [e], since', LostStep(lost, s.detectors, e))
  {
    hide DetectorInv;
    hide BankConserved;
    hide Session;
    hide Grounded;
    hide AddPulse;
    var es := events + [e];
    since' := |es|;
    match e
    case PulseSeen(p) =>
      since' := PulseStepKeeps(rules, mem, s, events, since, p, lost);
    case CacDone =>
      since' := since;
      CacDoneKeeps(rules, mem, s, events, since, lost);
    case Stop(own) =>
      ResetAllMeaning(s.detectors, |s.detectors|, s.pools, mem, lost);
      ResetBankInv(rules, mem, Deinit(s, own), es, lost);
    case Start(monitor, ok) =>
      EmptyListsKeep(rules, mem, s, ChanInit(s, monitor, ok), es, lost, e);
    case Init(own) =>
      EmptyListsKeep(rules, mem, s, InitInterface(s, own), es, lost, e);
  }

  /** How one event changes what a detector counts too much: initialising the lists makes the whole count stale, a reset
      clears it, and every other event leaves it. */
  lemma {:induction false} StaleSteps(rules: seq<Rule>, mem: Memories, events: seq<Event>, e: Event, i: nat)
    requires ValidRules(rules) && Legal(events + [e]) && i < |rules|
    ensures var d := Run(rules, mem, events).detectors[i];
            var d' := Run(rules, mem, events + [e]).detectors[i];
            if InitialisesLists(e) then Stale(d') == d'.count == d.count
            else Stale(d') == Stale(d) || (d'.count == 0 && d'.pulses == [] && d'.sequences == [])
  {
    hide DetectorInv;
    hide BankConserved;
    hide FeedBank;
    hide ResetAll;
    var es := events + [e];
    assert es[..|es| - 1] == events;
    LegalGrows(events, e);
    var since := RunKeeps(rules, mem, events);
    var s, lost := Run(rules, mem, events), Lost(rules, mem, events);
    if e.PulseSeen? && Armed(s) {
      FeedBankKeeps(rules, s.detectors, |rules|, s.pools, e.p, mem, s.lastPulseTs, lost);
      if !AddPulse(rules, s, e.p, mem).radar {
        assert StepInv(rules[i], s.detectors[i], AddPulse(rules, s, e.p, mem).state.detectors[i], e.p);
      }
    }
    if e.Stop? { ResetAllMeaning(s.detectors, |s.detectors|, s.pools, mem, lost); }
  }

  /** Rule `i` reports radar for a train of pulses, all seen in one session that ends with the last event. The train's
      pulse `w[c]` came with event `born`; the pulses before it were stored then, and those after it were taken later.
      The pulses that do not match are at most `nrPri` times as many as those of the train. */
  ghost predicate Justified(rules: seq<Rule>, mem: Memories, events: seq<Event>, i: nat, w: seq<nat>, c: nat, pri: nat,
                            since: nat, born: nat) {
    && i < |rules| && |events| > 0 && events[|events| - 1].PulseSeen?
    && Session(events, since, events[|events| - 1].p.ts) && since <= born < |events|
    && Train(rules[i], w, c, pri) && EndsAt(w, events[|events| - 1].p.ts)
    && (forall k :: 0 <= k < |w| ==> SeenIn(rules[i], events, since, w[k]))
    && AcceptedAt(rules, mem, events, i, born) && events[born].p.ts == w[c]
    && (forall k :: 0 <= k < c ==> StoredIn(StoredAt(rules, mem, events, i, born), w[k]))
    && (forall k :: c < k < |w| ==> TakenLater(rules, mem, events, i, born, w[k]))
    && FalsePulses(w, c, StoredAt(rules, mem, events, i, born), |Taken(rules, mem, events, i, born + 1)|) <= rules[i].nrPri * |w|
  }

  ghost predicate TakenLater(rules: seq<Rule>, mem: Memories, events: seq<Event>, i: nat, born: nat, t: nat)
    requires i < |rules|
  {
    exists j :: born < j < |events| && AcceptedAt(rules, mem, events, i, j) && events[j].p.ts == t
  }

  /** Main theorem. In every run, a radar report is backed by at least `ppbThresh` distinct pulses of the right width and
      chirp, seen without any reset or list initialisation in between, the reporting one being the last, and among few
      pulses that do not match. */
  lemma {:induction false} RadarIsJustified(rules: seq<Rule>, mem: Memories, events: seq<Event>, p: PulseInfo)
    requires ValidRules(rules) && Legal(events + [PulseSeen(p)])
    requires AddPulse(rules, Run(rules, mem, events), p, mem).radar
    ensures exists i: nat, w, c: nat, pri: nat, since: nat, born: nat ::
              Justified(rules, mem, events + [PulseSeen(p)], i, w, c, pri, since, born)
  {
    hide DetectorInv;
    hide FeedBank;
    hide BankConserved;
    hide BankInv;
    hide Run;
    hide Lost;
    hide Session;
    hide GroundedAt;
    hide RadarAt;
    hide Justified;
    LegalGrows(events, PulseSeen(p));
    hide Legal;
    var since := RunKeeps(rules, mem, events);
    var s := Run(rules, mem, events);
    FeedBankKeeps(rules, s.detectors, |rules|, s.pools, p, mem, s.lastPulseTs, Lost(rules, mem, events));
    var i: nat :| RadarAt(rules, s.detectors, p, i);
    assert i < |rules| by { RadarInRange(rules, s.detectors, p, i); }
    LastTsIsWord(rules[i], s.detectors[i], s.lastPulseTs);
    SessionGrows(events, since, s.lastPulseTs, p);
    assert GroundedAt(rules, mem, s.detectors[i], events, since, i);
    TrainIsSeen(rules, mem, s, events, since, p, i);
  }

  lemma {:induction false} RadarInRange(rules: seq<Rule>, ds: seq<Detector>, p: PulseInfo, i: nat)
    requires |rules| == |ds| && RadarAt(rules, ds, p, i)
    ensures i < |rules|
  {
  }

  lemma {:induction false} SessionGrows(events: seq<Event>, since: nat, now: nat, p: PulseInfo)
    requires Session(events, since, now) && now <= p.ts
    ensures since <= |events| && Session(events + [PulseSeen(p)], since, p.ts)
  {
  }

  /** The train behind a report, in terms of the events. */
  lemma {:induction false} TrainIsSeen(rules: seq<Rule>, mem: Memories, s: State, events: seq<Event>, since: nat,
                                       p: PulseInfo, i: nat)
    requires ValidRules(rules) && p.ts < U32 && s == Run(rules, mem, events) && Armed(s) && s.lastPulseTs <= p.ts
    requires RadarAt(rules, s.detectors, p, i) && i < |rules| && s.detectors[i].lastTs < U32
    requires since <= |events| && GroundedAt(rules, mem, s.detectors[i], events, since, i)
    requires Session(events + [PulseSeen(p)], since, p.ts)
    ensures exists w, c: nat, pri: nat, born: nat :: Justified(rules, mem, events + [PulseSeen(p)], i, w, c, pri, since, born)
  {
    hide RadarBy;
    hide Sourced;
    hide Accepts;
    hide Takes;
    hide Run;
    hide Session;
    hide Justified;
    var es := events + [PulseSeen(p)];
    assert es[..|events|] == events;
    var d := s.detectors[i];
    AcceptsMeaning(rules[i], d, p);
    var from :| since <= from <= |events| && Sourced(rules, mem, d, events, i, from);
    var d' := Noted(d, p.ts);
    assert AcceptedAt(rules, mem, es, i, |events|);
    SourcedLater(rules, mem, d, d', events, PulseSeen(p), i, from);
    assert Radar(rules[i], d, p.ts);
    var w: seq<nat>, c: nat, pri: nat, k: nat :| RadarBy(rules[i], d', p.ts, w, c, pri, k);
    SourcedIsJustified(rules, mem, d', es, since, i, from, w, c, pri, k);
  }

  lemma {:induction false} SourcedIsJustified(rules: seq<Rule>, mem: Memories, d: Detector, es: seq<Event>, since: nat,
                                              i: nat,
                                              from: nat, w: seq<nat>, c: nat, pri: nat, k: nat)
    requires i < |rules| && since <= from <= |es| && Sourced(rules, mem, d, es, i, from)
    requires |es| > 0 && es[|es| - 1].PulseSeen? && Session(es, since, es[|es| - 1].p.ts)
    requires RadarBy(rules[i], d, es[|es| - 1].p.ts, w, c, pri, k)
    ensures exists born: nat :: Justified(rules, mem, es, i, w, c, pri, since, born)
  {
    hide Train;
    hide Run;
    hide Takes;
    hide Between;
    hide AcceptedAt;
    hide StoredAt;
    hide Session;
    var js := Taken(rules, mem, es, i, from);
    TakenMeaning(rules, mem, es, i, from);
    TakenAfter(rules, mem, es, i, from, k);
    assert SourceAt(rules, mem, d, es, i, k, js[k]);
    forall m | 0 <= m < |w| ensures SeenIn(rules[i], es, since, w[m]) {
      var l :| 0 <= l < |d.history| && d.history[l] == w[m];
      assert SourceAt(rules, mem, d, es, i, l, js[l]);
    }
    forall m | c < m < |w| ensures TakenLater(rules, mem, es, i, js[k], w[m]) {
      var l :| 0 <= l < |d.history[k + 1..]| && d.history[k + 1..][l] == w[m];
      var l' := k + 1 + l;
      assert d.history[l'] == w[m] && SourceAt(rules, mem, d, es, i, l', js[l']);
      assert js[l'] in js && js[k] < js[l'];
    }
    assert js[k] in js;
    assert Justified(rules, mem, es, i, w, c, pri, since, js[k]);
  }

  /** After a report every list is empty and every allocated element that was not lost is back in its pool. */
  lemma {:induction false} ReportReturnsEverything(rules: seq<Rule>, mem: Memories, events: seq<Event>, p: PulseInfo)
    requires ValidRules(rules) && Legal(events + [PulseSeen(p)])
    requires AddPulse(rules, Run(rules, mem, events), p, mem).radar
    ensures var s := AddPulse(rules, Run(rules, mem, events), p, mem).state;
            var lost := Lost(rules, mem, events);
            && AllReset(s.detectors) && !Armed(s)
            && multiset(s.pools.pulse.free) + lost.pulse == Allocated(mem.pulse, s.pools.pulse.attempts)
            && multiset(s.pools.pseq.free) + lost.pseq == Allocated(mem.pseq, s.pools.pseq.attempts)
  {
    hide DetectorInv;
    hide FeedBank;
    hide RadarAt;
    hide Grounded;
    hide Session;
    hide BankInv;
    hide Run;
    hide Lost;
    hide Owned;
    hide Allocated;
    LegalGrows(events, PulseSeen(p));
    hide Legal;
    var since := RunKeeps(rules, mem, events);
    var s, lost := Run(rules, mem, events), Lost(rules, mem, events);
    FeedBankKeeps(rules, s.detectors, |rules|, s.pools, p, mem, s.lastPulseTs, lost);
    var ds := AddPulse(rules, s, p, mem).state.detectors;
    EmptyOwned(ds);
    assert Owned(ds, PulsesOf) + lost.pulse == lost.pulse && Owned(ds, SequencesOf) + lost.pseq == lost.pseq;
  }

  ghost predicate ListsEmpty(ds: seq<Detector>) {
    forall i :: 0 <= i < |ds| ==> ds[i].pulses == [] && ds[i].sequences == []
  }

  lemma {:induction false} OwnedEmpty(ds: seq<Detector>)
    ensures Owned(ds, PulsesOf) == multiset{} && Owned(ds, SequencesOf) == multiset{} <==> ListsEmpty(ds)
  {
    hide Owned;
    if ListsEmpty(ds) { EmptyOwned(ds); }
    if Owned(ds, PulsesOf) == multiset{} && Owned(ds, SequencesOf) == multiset{} {
      forall i | 0 <= i < |ds| ensures ds[i].pulses == [] && ds[i].sequences == [] {
        OwnedSplit(ds, i, PulsesOf);
        OwnedSplit(ds, i, SequencesOf);
        SumEmpty(multiset(PulsesOf(ds[i])), Others(ds, i, PulsesOf));
        SumEmpty(multiset(SequencesOf(ds[i])), Others(ds, i, SequencesOf));
        assert |multiset(PulsesOf(ds[i]))| == |PulsesOf(ds[i])| == |ds[i].pulses|;
        assert |multiset(SequencesOf(ds[i]))| == |SequencesOf(ds[i])| == |ds[i].sequences|;
      }
    }
  }

  /** A run loses nothing iff every list was empty whenever the lists were initialised. */
  lemma {:induction false} NothingLost(rules: seq<Rule>, mem: Memories, events: seq<Event>)
    ensures Lost(rules, mem, events) == Leaks(multiset{}, multiset{}) <==>
            forall k :: 0 <= k < |events| && InitialisesLists(events[k]) ==> ListsEmpty(Run(rules, mem, events[..k]).detectors)
    decreases |events|
  {
    hide Run;
    hide ListsEmpty;
    hide Owned;
    if events != [] {
      var n := |events| - 1;
      var init, e := events[..n], events[n];
      NothingLost(rules, mem, init);
      assert forall k :: 0 <= k < n ==> events[..k] == init[..k];
      OwnedEmpty(Run(rules, mem, init).detectors);
      var ds, lost := Run(rules, mem, init).detectors, Lost(rules, mem, init);
      SumEmpty(Owned(ds, PulsesOf), lost.pulse);
      SumEmpty(Owned(ds, SequencesOf), lost.pseq);
    }
  }

  lemma {:induction false} SumEmpty(a: multiset<nat>, b: multiset<nat>)
    ensures a + b == multiset{} <==> a == multiset{} && b == multiset{}
  {
    assert |a + b| == |a| + |b|;
  }

  /** One initialisation of the lists loses nothing iff they are empty. */
  lemma {:induction false} ChanInitConserves(ds: seq<Detector>, pools: Pools, mem: Memories, lost: Leaks)
    requires BankConserved(ds, pools, mem, lost)
    ensures BankConserved(EmptyLists(ds), pools, mem, lost) <==> ListsEmpty(ds)
  {
    hide Owned;
    hide Allocated;
    hide ListsEmpty;
    EmptyOwned(EmptyLists(ds));
    OwnedEmpty(ds);
    SameSum(multiset(pools.pulse.free), Owned(ds, PulsesOf), lost.pulse);
    SameSum(multiset(pools.pseq.free), Owned(ds, SequencesOf), lost.pseq);
  }

  lemma {:induction false} SameSum(free: multiset<nat>, owned: multiset<nat>, lost: multiset<nat>)
    ensures free + (multiset{} + lost) == free + (owned + lost) <==> owned == multiset{}
  {
    if free + (multiset{} + lost) == free + (owned + lost) {
      assert |free + (multiset{} + lost)| == |free| + |lost|;
      assert |free + (owned + lost)| == |free| + |owned| + |lost|;
    }
  }
}
