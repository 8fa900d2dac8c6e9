/** The other direction: when a train of pulses is reported, and how a channel availability check can make a rule deaf. */
module DfsDetection {
  import opened DfsSpec
  import opened DfsSequences
  import opened DfsRuns

  // ----- one detector that follows a train

  /** How far a train has come: the pulses that match, those that do not, and the last one that does. */
  datatype Progress = Progress(count: nat, falses: nat, last: nat)

  ghost function Next(r: Rule, q: nat, g: Progress, ts: nat): Progress {
    if NearMultiple(ts - g.last, q, r.tolerance) then Progress(g.count + 1, g.falses, ts) else g.(falses := g.falses + 1)
  }

  /** After the first `m` pulses of a train: the first two start it, and a later one matches if it comes a multiple of
      `q` after the last one that did. */
  ghost function Follow(r: Rule, q: nat, train: seq<PulseInfo>, m: nat): Progress
    requires 2 <= m <= |train|
    decreases m
  {
    if m == 2 then Progress(2, 0, train[1].ts) else Next(r, q, Follow(r, q, train, m - 1), train[m - 1].ts)
  }

  /** Enough pulses match, and not too many others came between them. */
  ghost predicate Enough(r: Rule, g: Progress) { g.count >= r.ppbThresh && g.falses <= r.nrPri * g.count }

  /** The first `m` pulses of the train have been accepted and none reported. */
  ghost predicate Locked(r: Rule, d: Detector, train: seq<PulseInfo>, q: nat, m: nat) {
    && 1 <= m <= |train| && d.lastTs == train[m - 1].ts
    && (m == 1 ==> d.sequences == [] && |d.pulses| == 1 && d.pulses[0].ts == train[0].ts)
    && (m >= 2 ==> exists i :: 0 <= i < |d.sequences| && Tracks(r, d.sequences[i], train[0].ts, q, Follow(r, q, train, m)))
  }

  ghost predicate Tracks(r: Rule, ps: PriSequence, a: nat, q: nat, g: Progress) {
    && ps.pri == q && ps.count == g.count && ps.falses == g.falses && ps.lastTs == g.last
    && ps.deadlineTs == a + Duration(r, q)
  }

  ghost predicate Plentiful(mem: Memories) {
    (forall n :: mem.pulse(n)) && (forall n :: mem.pseq(n))
  }

  /** An interval of the rule. */
  ghost predicate Interval(r: Rule, q: nat) { ValidRule(r) && r.priMin <= q <= r.priMax }

  /** Two pulses that start a train of interval `q`. */
  ghost predicate Starts(r: Rule, q: nat, a: nat, ts: nat) { r.priMin <= ts - a <= r.priMax && IntervalOf(r, ts - a, q) }

  lemma {:induction false} CreateKeepsOld(r: Rule, pulses: seq<Pulse>, n: nat, ts: nat, minCount: nat,
                                          ss: seq<PriSequence>, pool: Pool, mem: Memory, ps: PriSequence)
    requires n <= |pulses| && ps in ss && forall k :: mem(k)
    ensures var made := Create(r, pulses, n, ts, minCount, ss, pool, mem); made.ok && ps in made.sequences
    decreases n
  {
    hide NewSequence;
    if n > 0 { CreateKeepsOld(r, pulses, n - 1, ts, minCount, ss, pool, mem, ps); }
  }

  /** The sequence that follows a train makes a report exactly when the train has come far enough. */
  lemma {:induction false} TrackOn(r: Rule, ps: PriSequence, a: nat, q: nat, g: Progress, ts: nat)
    requires Interval(r, q) && Tracks(r, ps, a, q, g) && g.last <= ts < U32
    ensures Tracks(r, ExtendOne(r, ps, ts), a, q, Next(r, q, g, ts))
    ensures Detects(r, ExtendOne(r, ps, ts)) <==> Enough(r, Next(r, q, g, ts))
  {
    hide GetMultiple;
    hide Duration;
    hide NearMultiple;
    MultipleMeaning(ts - g.last, q, r.tolerance);
    Wrap32Fits(ts - g.last);
  }

  lemma {:induction false} ExtendTracks(r: Rule, ss: seq<PriSequence>, i: nat, a: nat, q: nat, g: Progress, ts: nat)
    requires Interval(r, q) && i < |ss| && Tracks(r, ss[i], a, q, g) && g.last <= ts < U32 && ts <= a + Duration(r, q)
    ensures exists ps :: ps in Extend(r, ss, ts) && Tracks(r, ps, a, q, Next(r, q, g, ts))
    decreases |ss|
  {
    hide ExtendOne;
    hide Interval;
    hide Next;
    hide Duration;
    if i == |ss| - 1 {
      TrackOn(r, ss[i], a, q, g, ts);
      assert ExtendOne(r, ss[i], ts) in Extend(r, ss, ts);
    } else {
      ExtendTracks(r, ss[..|ss| - 1], i, a, q, g, ts);
      var ps :| ps in Extend(r, ss[..|ss| - 1], ts) && Tracks(r, ps, a, q, Next(r, q, g, ts));
      assert ps in Extend(r, ss, ts);
    }
  }

  lemma {:induction false} FirstSequence(r: Rule, pulses: seq<Pulse>, a: nat, q: nat, ts: nat, id: nat)
    requires ValidRule(r) && Starts(r, q, a, ts) && |pulses| == 1 && pulses[0].ts == a && ts < U32
    ensures Candidate(r, pulses[0], ts)
    ensures NewSequence(r, pulses, 0, ts).count == 2
    ensures Tracks(r, NewSequence(r, pulses, 0, ts).(id := id), a, q, Progress(2, 0, ts))
  {
    hide Duration;
    hide Wrap32;
    hide PriToUse;
    hide NearMultiple;
    Wrap32Fits(ts - a);
    PriInRange(r, ts - a);
    assert pulses[1..] == [];
  }

  /** After the second pulse there is one sequence, with the interval of the train. */
  lemma {:induction false} SecondPulse(r: Rule, d: Detector, pool: Pool, mem: Memory, a: nat, q: nat, ts: nat)
    requires ValidRule(r) && |d.pulses| == 1 && d.pulses[0].ts == a && Starts(r, q, a, ts) && ts < U32 && forall n :: mem(n)
    ensures var made := Create(r, d.pulses, |d.pulses|, ts, 0, [], pool, mem);
            made.ok && exists ps :: ps in made.sequences && Tracks(r, ps, a, q, Progress(2, 0, ts))
  {
    hide Tracks;
    hide Candidate;
    hide NewSequence;
    hide Starts;
    var id := Get(pool, mem).id;
    FirstSequence(r, d.pulses, a, q, ts, id);
    var ps := NewSequence(r, d.pulses, 0, ts).(id := id);
    var prev := Create(r, d.pulses, 0, ts, 0, [], pool, mem);
    assert Create(r, d.pulses, 1, ts, 0, [], pool, mem).sequences == [ps] + prev.sequences;
    assert ps in [ps] + prev.sequences;
  }

  /** What the existing and the new sequences are after the next pulse of the train. */
  ghost function MadeBy(r: Rule, d: Detector, pools: Pools, mem: Memories, ts: nat): Created {
    Create(r, d.pulses, |d.pulses|, ts, MaxUpdated(r, d.sequences, ts), Extend(r, d.sequences, ts),
           PutAll(pools.pseq, Expired(d.sequences, ts)), mem.pseq)
  }

  lemma {:induction false} LaterPulse(r: Rule, d: Detector, pools: Pools, mem: Memories, a: nat, q: nat, g: Progress,
                                      i: nat, ts: nat)
    requires Interval(r, q) && i < |d.sequences| && Tracks(r, d.sequences[i], a, q, g) && Plentiful(mem)
    requires g.last <= ts < U32 && ts <= a + Duration(r, q)
    ensures var made := MadeBy(r, d, pools, mem, ts);
            made.ok && exists ps :: ps in made.sequences && Tracks(r, ps, a, q, Next(r, q, g, ts))
  {
    hide Create;
    hide Extend;
    hide Expired;
    hide MaxUpdated;
    hide Interval;
    hide Next;
    hide Tracks;
    hide Duration;
    ExtendTracks(r, d.sequences, i, a, q, g, ts);
    var extended := Extend(r, d.sequences, ts);
    var ps :| ps in extended && Tracks(r, ps, a, q, Next(r, q, g, ts));
    CreateKeepsOld(r, d.pulses, |d.pulses|, ts, MaxUpdated(r, d.sequences, ts), extended,
                   PutAll(pools.pseq, Expired(d.sequences, ts)), mem.pseq, ps);
  }

  lemma {:induction false} LastIsInTrain(r: Rule, q: nat, train: seq<PulseInfo>, m: nat)
    requires Noisy(r, train, q) && 2 <= m <= |train|
    ensures Follow(r, q, train, m).last <= train[m - 1].ts
    decreases m
  {
    hide NearMultiple;
    if m > 2 { LastIsInTrain(r, q, train, m - 1); }
  }

  lemma {:induction false} TrainTracked(r: Rule, d: Detector, pools: Pools, mem: Memories, train: seq<PulseInfo>, q: nat,
                                        m: nat)
    requires Noisy(r, train, q) && Locked(r, d, train, q, m) && Plentiful(mem) && m < |train|
    ensures var made := MadeBy(r, d, pools, mem, train[m].ts);
            made.ok && exists ps :: ps in made.sequences && Tracks(r, ps, train[0].ts, q, Follow(r, q, train, m + 1))
  {
    hide Create;
    hide Extend;
    hide Expired;
    hide MaxUpdated;
    hide Tracks;
    hide NearMultiple;
    hide Eligible;
    var ts := train[m].ts;
    if m == 1 {
      EmptyExtend(r, ts);
      SecondPulse(r, d, PutAll(pools.pseq, Expired(d.sequences, ts)), mem.pseq, train[0].ts, q, ts);
    } else {
      var i :| 0 <= i < |d.sequences| && Tracks(r, d.sequences[i], train[0].ts, q, Follow(r, q, train, m));
      LastIsInTrain(r, q, train, m);
      DurationBound(r, q);
      LaterPulse(r, d, pools, mem, train[0].ts, q, Follow(r, q, train, m), i, ts);
    }
  }

  lemma {:induction false} TrainStep(r: Rule, d: Detector, pools: Pools, mem: Memories, train: seq<PulseInfo>, q: nat,
                                     m: nat)
    requires Noisy(r, train, q) && Locked(r, d, train, q, m) && Plentiful(mem) && m < |train|
    ensures var f := Accept(r, d, pools, train[m].ts, mem);
            && (Enough(r, Follow(r, q, train, m + 1)) ==> f.radar)
            && (!f.radar ==> Locked(r, f.detector, train, q, m + 1))
  {
    hide Create;
    hide Extend;
    hide Expired;
    hide Enqueue;
    hide MaxUpdated;
    hide Follow;
    var ts := train[m].ts;
    var made := MadeBy(r, d, pools, mem, ts);
    TrainTracked(r, d, pools, mem, train, q, m);
    hide Noisy;
    var ps :| ps in made.sequences && Tracks(r, ps, train[0].ts, q, Follow(r, q, train, m + 1));
    var j :| 0 <= j < |made.sequences| && made.sequences[j] == ps;
    if Enough(r, Follow(r, q, train, m + 1)) { assert Detects(r, made.sequences[j]); }
    EnqueueSucceeds(r, Noted(d, ts).(sequences := made.sequences), pools.(pseq := made.pool), ts, mem);
  }

  lemma {:induction false} EmptyExtend(r: Rule, ts: nat)
    ensures Extend(r, [], ts) == [] && MaxUpdated(r, [], ts) == 0 && Expired([], ts) == []
  {
  }

  lemma {:induction false} EnqueueSucceeds(r: Rule, d: Detector, pools: Pools, ts: nat, mem: Memories)
    requires Plentiful(mem)
    ensures var f := Enqueue(r, d, pools, ts, mem);
            !f.radar && f.detector.lastTs == ts && f.detector.sequences == d.sequences
  {
  }

  // ----- the first pulse

  predicate Unused(d: Detector) { d.pulses == [] && d.sequences == [] }

  /** Nothing is stored and the count is full: every pulse is dropped again as soon as it is queued. */
  predicate Deaf(r: Rule, d: Detector) { Unused(d) && d.count == MaxCount(r) - 1 }

  /** What is done with a pulse when nothing is stored. */
  lemma {:induction false} AcceptUnused(r: Rule, d: Detector, pools: Pools, ts: nat, mem: Memories)
    requires Unused(d)
    ensures Accept(r, d, pools, ts, mem) == Enqueue(r, Noted(d, ts), pools, ts, mem)
  {
    EmptyExtend(r, ts);
    assert PutAll(pools.pseq, []) == pools.pseq;
  }

  lemma {:induction false} KeptOne(p: Pulse, minTs: nat)
    requires p.ts >= minTs
    ensures Kept([p], minTs) == 1
  {
  }

  /** The queue after the first pulse: it is kept iff the count is at least two below the limit. */
  lemma {:induction false} EnqueueUnused(r: Rule, d: Detector, pools: Pools, ts: nat, mem: Memories)
    requires ValidRule(r) && Unused(d) && 0 <= d.count <= MaxCount(r) - 1 && Get(pools.pulse, mem.pulse).ok
    ensures var e := Enqueue(r, d, pools, ts, mem).detector;
            && e.lastTs == ts && e.sequences == [] && e.count - |e.pulses| == d.count
            && (if d.count <= 2 * r.ppb - 2 then |e.pulses| == 1 && e.pulses[0].ts == ts else e.pulses == [])
  {
    hide WindowSize;
    hide Get;
    var new_ := Pulse(Get(pools.pulse, mem.pulse).id, ts);
    var all := [new_] + d.pulses;
    assert all == [new_];
    if d.count + 1 >= 2 && ts > WindowSize(r) { KeptOne(new_, ts - WindowSize(r)); }
  }

  lemma {:induction false} FirstPulse(r: Rule, d: Detector, pools: Pools, mem: Memories, train: seq<PulseInfo>, q: nat)
    requires Noisy(r, train, q) && Plentiful(mem) && |train| >= 1 && d.lastTs < U32
    requires Unused(d) && 0 <= d.count <= 2 * r.ppb - 2 && Heard(r, d, train[0].ts)
    ensures var f := Feed(r, d, pools, train[0], false, mem); !f.radar && Locked(r, f.detector, train, q, 1)
  {
    hide Enqueue;
    hide Accept;
    hide Eligible;
    hide Takes;
    var p := train[0];
    AcceptsMeaning(r, d, p);
    AcceptUnused(r, d, pools, p.ts, mem);
    var d' := Noted(d, p.ts);
    EnqueueUnused(r, d', pools, p.ts, mem);
    NoRadarFromEnqueue(r, d', pools, p.ts, mem);
  }

  /** A deaf detector stays deaf, and silent, whatever pulse it is shown, until it is reset. */
  lemma {:induction false} DeafStays(r: Rule, d: Detector, pools: Pools, p: PulseInfo, mem: Memories)
    requires ValidRule(r) && Deaf(r, d)
    ensures var f := Feed(r, d, pools, p, false, mem); !f.radar && Deaf(r, f.detector)
  {
    hide Enqueue;
    hide Accept;
    hide Eligible;
    AcceptUnused(r, d, pools, p.ts, mem);
    var d' := Noted(d, p.ts);
    NoRadarFromEnqueue(r, d', pools, p.ts, mem);
    if Get(pools.pulse, mem.pulse).ok {
      EnqueueUnused(r, d', pools, p.ts, mem);
    } else {
      EnqueueFails(r, d', pools, p.ts, mem);
    }
  }

  lemma {:induction false} EnqueueFails(r: Rule, d: Detector, pools: Pools, ts: nat, mem: Memories)
    requires !Get(pools.pulse, mem.pulse).ok
    ensures Enqueue(r, d, pools, ts, mem).detector == d
  {
  }

  // ----- the whole bank

  /** Without a report, detector `i` has been fed on its own, with whatever the pools held then. */
  lemma {:induction false} FeedBankAt(rules: seq<Rule>, ds: seq<Detector>, n: nat, pools: Pools, p: PulseInfo, reset: bool,
                                      mem: Memories, i: nat) returns (at: Pools)
    requires i < n <= |rules| == |ds| && !FeedBank(rules, ds, n, pools, p, reset, mem).radar
    ensures var f := Feed(rules[i], ds[i], at, p, reset, mem);
            !f.radar && FeedBank(rules, ds, n, pools, p, reset, mem).detectors[i] == f.detector
  {
    hide Feed;
    if i == n - 1 {
      at := FeedBank(rules, ds, n - 1, pools, p, reset, mem).pools;
    } else {
      at := FeedBankAt(rules, ds, n - 1, pools, p, reset, mem, i);
    }
  }

  /** Rule `j` is the one that reports the pulse. */
  ghost predicate Reports(rules: seq<Rule>, s: State, p: PulseInfo, mem: Memories, j: nat)
    requires |rules| == |s.detectors|
  {
    && Armed(s) && j < |rules|
    && var reset := s.lastPulseTs > p.ts;
       var b := FeedBank(rules, s.detectors, j, s.pools, p, reset, mem);
       !b.radar && Feed(rules[j], b.detectors[j], b.pools, p, reset, mem).radar
  }

  /** Every report is some rule's. */
  lemma {:induction false} SomeRuleReports(rules: seq<Rule>, s: State, p: PulseInfo, mem: Memories, n: nat)
    requires n <= |rules| == |s.detectors| && Armed(s)
    requires FeedBank(rules, s.detectors, n, s.pools, p, s.lastPulseTs > p.ts, mem).radar
    ensures exists j :: 0 <= j < n && Reports(rules, s, p, mem, j)
  {
    hide Feed;
    if n > 0 {
      if FeedBank(rules, s.detectors, n - 1, s.pools, p, s.lastPulseTs > p.ts, mem).radar {
        SomeRuleReports(rules, s, p, mem, n - 1);
      } else {
        assert Reports(rules, s, p, mem, n - 1);
      }
    }
  }

  function Pulses(train: seq<PulseInfo>): seq<Event> {
    seq(|train|, k requires 0 <= k < |train| => PulseSeen(train[k]))
  }

  /** The state in which the `m`-th pulse of the train arrives. */
  ghost function Before(rules: seq<Rule>, mem: Memories, events: seq<Event>, train: seq<PulseInfo>, m: nat): (s: State)
    requires m <= |train|
    ensures |s.detectors| == |rules|
  {
    Run(rules, mem, events + Pulses(train[..m]))
  }

  lemma {:induction false} BeforeStep(rules: seq<Rule>, mem: Memories, events: seq<Event>, train: seq<PulseInfo>, m: nat)
    requires m <= |train|
    ensures m == 0 ==> Before(rules, mem, events, train, m) == Run(rules, mem, events)
    ensures m > 0 ==> Before(rules, mem, events, train, m)
                      == AddPulse(rules, Before(rules, mem, events, train, m - 1), train[m - 1], mem).state
  {
    hide AddPulse;
    if m == 0 {
      assert events + Pulses(train[..0]) == events;
    } else {
      var es := events + Pulses(train[..m]);
      assert es[..|es| - 1] == events + Pulses(train[..m - 1]) && es[|es| - 1] == PulseSeen(train[m - 1]);
    }
  }

  /** Radar was reported for the `m`-th pulse of the train. */
  ghost predicate ReportedAt(rules: seq<Rule>, mem: Memories, events: seq<Event>, train: seq<PulseInfo>, m: nat)
    requires m < |train|
  {
    AddPulse(rules, Before(rules, mem, events, train, m), train[m], mem).radar
  }

  ghost predicate Reported(rules: seq<Rule>, mem: Memories, events: seq<Event>, train: seq<PulseInfo>) {
    exists m :: 0 <= m < |train| && ReportedAt(rules, mem, events, train, m)
  }

  /** Rule `i` reports no pulse of the train. */
  ghost predicate Silent(rules: seq<Rule>, mem: Memories, events: seq<Event>, train: seq<PulseInfo>, i: nat) {
    forall m :: 0 <= m < |train| ==> !Reports(rules, Before(rules, mem, events, train, m), train[m], mem, i)
  }

  /** No pulse is older than the one before, so that no detector is reset. */
  ghost predicate Ascends(train: seq<PulseInfo>) {
    forall j, k :: 0 <= j <= k < |train| ==> train[j].ts <= train[k].ts
  }

  /** The last event of a run configured a channel and detection was started. */
  ghost predicate JustStarted(events: seq<Event>) {
    |events| > 0 && events[|events| - 1].Start? && events[|events| - 1].ok
  }

  lemma {:induction false} AfterStart(rules: seq<Rule>, mem: Memories, events: seq<Event>, i: nat)
    requires ValidRules(rules) && Legal(events) && JustStarted(events) && i < |rules|
    ensures var s := Run(rules, mem, events); var d := s.detectors[i];
            && Armed(s) && s.lastPulseTs == 0 && Unused(d) && d.history == []
            && 0 <= d.count <= MaxCount(rules[i]) - 1 && d.lastTs < U32
  {
    hide BankConserved;
    hide Session;
    hide Grounded;
    var since := RunKeeps(rules, mem, events);
    assert DetectorInv(rules[i], Run(rules, mem, events).detectors[i], 0);
  }

  /** While pulses come in order they are looked at, up to a report. */
  lemma {:induction false} InOrder(rules: seq<Rule>, mem: Memories, events: seq<Event>, train: seq<PulseInfo>, m: nat)
    requires Armed(Run(rules, mem, events)) && Run(rules, mem, events).lastPulseTs == 0 && Ascends(train) && m <= |train|
    ensures var s := Before(rules, mem, events, train, m);
            Armed(s) ==> s.lastPulseTs == (if m == 0 then 0 else train[m - 1].ts)
                         && (m < |train| ==> s.lastPulseTs <= train[m].ts)
    ensures (forall k :: 0 <= k < m ==> !ReportedAt(rules, mem, events, train, k)) ==> Armed(Before(rules, mem, events, train, m))
    decreases m
  {
    hide Run;
    hide FeedBank;
    BeforeStep(rules, mem, events, train, m);
    hide Before;
    if m > 0 {
      InOrder(rules, mem, events, train, m - 1);
      assert (forall k :: 0 <= k < m ==> !ReportedAt(rules, mem, events, train, k)) ==> !ReportedAt(rules, mem, events, train, m - 1);
    }
  }

  // ----- when a train is reported

  /** A train of pulses the rule takes, whose first two start it, and which all come before its duration is over. Its
      other pulses may match the interval or not. */
  ghost predicate Noisy(r: Rule, train: seq<PulseInfo>, q: nat) {
    && Interval(r, q)
    && (forall k :: 0 <= k < |train| ==> Eligible(r, train[k]) && train[k].ts < U32)
    && (forall k :: 1 <= k < |train| ==> train[k - 1].ts + r.tolerance <= train[k].ts)
    && (|train| >= 2 ==> Starts(r, q, train[0].ts, train[1].ts))
    && (forall k :: 2 <= k < |train| ==> train[k].ts - train[0].ts <= q * (r.ppb - 1) + 2 * r.tolerance)
  }

  /** A train whose later intervals each differ from `q` by at most the tolerance. */
  ghost predicate Steady(r: Rule, train: seq<PulseInfo>, q: nat) {
    && Noisy(r, train, q)
    && forall k :: 2 <= k < |train| ==> Near(train[k].ts - train[k - 1].ts, 1, q, r.tolerance)
  }

  lemma {:induction false} NoisyAscends(r: Rule, train: seq<PulseInfo>, q: nat, j: nat, k: nat)
    requires Noisy(r, train, q) && j <= k < |train|
    ensures train[j].ts <= train[k].ts
    decreases k - j
  {
    hide Eligible;
    if j < k { NoisyAscends(r, train, q, j, k - 1); }
  }

  lemma {:induction false} NoisyIsOrdered(r: Rule, train: seq<PulseInfo>, q: nat)
    requires Noisy(r, train, q)
    ensures Ascends(train)
  {
    hide Noisy;
    forall j, k | 0 <= j <= k < |train| ensures train[j].ts <= train[k].ts { NoisyAscends(r, train, q, j, k); }
  }

  /** Every pulse of a steady train matches. */
  lemma {:induction false} SteadyFollows(r: Rule, train: seq<PulseInfo>, q: nat, m: nat)
    requires Steady(r, train, q) && 2 <= m <= |train|
    ensures Follow(r, q, train, m) == Progress(m, 0, train[m - 1].ts)
    decreases m
  {
    hide Noisy;
    if m > 2 { SteadyFollows(r, train, q, m - 1); }
  }

  /** What a detector that was just started must be like to follow a train whose first pulse is at `ts`. */
  predicate Receptive(r: Rule, d: Detector, ts: nat) { d.count <= 2 * r.ppb - 2 && Heard(r, d, ts) }

  /** How many pulses a report takes. */
  function Needed(r: Rule): nat { if r.ppbThresh <= 2 then 2 else r.ppbThresh }

  /** One more pulse of the train, shown to one detector. */
  lemma {:induction false} FeedTrain(r: Rule, d: Detector, pools: Pools, mem: Memories, train: seq<PulseInfo>, q: nat,
                                     m: nat)
    requires Noisy(r, train, q) && Locked(r, d, train, q, m) && Plentiful(mem) && m < |train|
    ensures var f := Feed(r, d, pools, train[m], false, mem);
            !f.radar ==> Locked(r, f.detector, train, q, m + 1) && !Enough(r, Follow(r, q, train, m + 1))
  {
    hide Accept;
    hide Eligible;
    hide Takes;
    hide Follow;
    hide Tracks;
    AcceptsMeaning(r, d, train[m]);
    TrainStep(r, d, pools, mem, train, q, m);
  }

  lemma {:induction false} UnreportedIsLocked(rules: seq<Rule>, mem: Memories, events: seq<Event>, i: nat,
                                              train: seq<PulseInfo>, q: nat, k: nat)
    requires ValidRules(rules) && Legal(events) && JustStarted(events) && i < |rules|
    requires Noisy(rules[i], train, q) && Plentiful(mem) && 1 <= k <= |train|
    requires Receptive(rules[i], Run(rules, mem, events).detectors[i], train[0].ts)
    requires forall m :: 0 <= m < k ==> !ReportedAt(rules, mem, events, train, m)
    ensures Locked(rules[i], Before(rules, mem, events, train, k).detectors[i], train, q, k)
    ensures k >= 2 ==> !Enough(rules[i], Follow(rules[i], q, train, k))
    decreases k
  {
    hide Run;
    hide FeedBank;
    hide Locked;
    hide Noisy;
    hide Feed;
    hide Follow;
    hide Enough;
    var r, p := rules[i], train[k - 1];
    AfterStart(rules, mem, events, i);
    NoisyIsOrdered(r, train, q);
    InOrder(rules, mem, events, train, k - 1);
    BeforeStep(rules, mem, events, train, k - 1);
    BeforeStep(rules, mem, events, train, k);
    hide Before;
    var s := Before(rules, mem, events, train, k - 1);
    assert !ReportedAt(rules, mem, events, train, k - 1);
    var at := FeedBankAt(rules, s.detectors, |rules|, s.pools, p, false, mem, i);
    if k == 1 {
      FirstPulse(r, s.detectors[i], at, mem, train, q);
    } else {
      UnreportedIsLocked(rules, mem, events, i, train, q, k - 1);
      FeedTrain(r, s.detectors[i], at, mem, train, q, k - 1);
    }
  }

  /** Main theorem. A train among which at most `nrPri` times as many pulses come that do not match is reported, by this
      rule or another one, by the time that enough of its pulses match. */
  lemma {:induction false} NoisyTrainIsReported(rules: seq<Rule>, mem: Memories, events: seq<Event>, i: nat,
                                                train: seq<PulseInfo>, q: nat, m: nat)
    requires ValidRules(rules) && Legal(events) && JustStarted(events) && i < |rules|
    requires Noisy(rules[i], train, q) && Plentiful(mem) && 2 <= m <= |train|
    requires Receptive(rules[i], Run(rules, mem, events).detectors[i], train[0].ts)
    requires Enough(rules[i], Follow(rules[i], q, train, m))
    ensures exists k :: 0 <= k < m && ReportedAt(rules, mem, events, train, k)
  {
    hide Run;
    hide Receptive;
    hide Noisy;
    hide ReportedAt;
    hide Legal;
    hide JustStarted;
    hide Enough;
    hide Follow;
    if forall k :: 0 <= k < m ==> !ReportedAt(rules, mem, events, train, k) {
      UnreportedIsLocked(rules, mem, events, i, train, q, m);
    }
  }

  /** A steady train is reported, by this rule or another one, once the rule has seen as many pulses as it needs. */
  lemma {:induction false} SteadyTrainIsReported(rules: seq<Rule>, mem: Memories, events: seq<Event>, i: nat,
                                                 train: seq<PulseInfo>, q: nat)
    requires ValidRules(rules) && Legal(events) && JustStarted(events) && i < |rules|
    requires Steady(rules[i], train, q) && Plentiful(mem) && |train| == Needed(rules[i])
    requires Receptive(rules[i], Run(rules, mem, events).detectors[i], train[0].ts)
    ensures Reported(rules, mem, events, train)
  {
    hide Run;
    hide Receptive;
    hide Noisy;
    hide ReportedAt;
    hide Legal;
    hide JustStarted;
    SteadyFollows(rules[i], train, q, |train|);
    NoisyTrainIsReported(rules, mem, events, i, train, q, |train|);
  }

  // ----- when a rule cannot report

  /** A deaf rule never reports a pulse while time goes forward. */
  lemma {:induction false} DeafRuns(rules: seq<Rule>, mem: Memories, events: seq<Event>, i: nat, train: seq<PulseInfo>,
                                    m: nat)
    requires ValidRules(rules) && Legal(events) && JustStarted(events) && i < |rules| && Ascends(train) && m <= |train|
    requires Deaf(rules[i], Run(rules, mem, events).detectors[i])
    ensures var s := Before(rules, mem, events, train, m);
            Armed(s) ==> Deaf(rules[i], s.detectors[i]) && (m < |train| ==> !Reports(rules, s, train[m], mem, i))
    decreases m
  {
    hide Run;
    hide FeedBank;
    hide Deaf;
    hide Feed;
    AfterStart(rules, mem, events, i);
    InOrder(rules, mem, events, train, m);
    BeforeStep(rules, mem, events, train, m);
    var s := Before(rules, mem, events, train, m);
    if m > 0 {
      DeafRuns(rules, mem, events, i, train, m - 1);
      InOrder(rules, mem, events, train, m - 1);
      var s0 := Before(rules, mem, events, train, m - 1);
      hide Before;
      if Armed(s) {
        assert Armed(s0);
        var at := FeedBankAt(rules, s0.detectors, |rules|, s0.pools, train[m - 1], false, mem, i);
        DeafStays(rules[i], s0.detectors[i], at, train[m - 1], mem);
      }
    }
    if m < |train| && Armed(s) {
      DeafIsSilent(rules, s, train[m], mem, i);
    }
  }

  lemma {:induction false} DeafIsSilent(rules: seq<Rule>, s: State, p: PulseInfo, mem: Memories, i: nat)
    requires ValidRules(rules) && i < |rules| == |s.detectors| && Deaf(rules[i], s.detectors[i]) && s.lastPulseTs <= p.ts
    ensures !Reports(rules, s, p, mem, i)
  {
    hide Feed;
    hide Deaf;
    var b := FeedBank(rules, s.detectors, i, s.pools, p, false, mem);
    if !b.radar { DeafStays(rules[i], b.detectors[i], b.pools, p, mem); }
  }

  lemma {:induction false} DeafNeverReports(rules: seq<Rule>, mem: Memories, events: seq<Event>, i: nat,
                                            train: seq<PulseInfo>)
    requires ValidRules(rules) && Legal(events) && JustStarted(events) && i < |rules| && Ascends(train)
    requires Deaf(rules[i], Run(rules, mem, events).detectors[i])
    ensures Silent(rules, mem, events, train, i)
  {
    hide Run;
    hide Deaf;
    hide FeedBank;
    hide Feed;
    hide Before;
    forall m | 0 <= m < |train| ensures !Reports(rules, Before(rules, mem, events, train, m), train[m], mem, i) {
      DeafRuns(rules, mem, events, i, train, m);
    }
  }

  lemma {:induction false} AscendingFits(w: seq<nat>, history: seq<nat>)
    requires Ascending(w) && Within(w, history)
    ensures |w| <= |history|
    decreases |history|
  {
    if w != [] {
      // the last pulse of the train occurs in the history; the others are in what is left without it
      var n := |w| - 1;
      var j :| 0 <= j < |history| && history[j] == w[n];
      var rest := history[..j] + history[j + 1..];
      forall k | 0 <= k < n ensures w[..n][k] in rest {
        var l :| 0 <= l < |history| && history[l] == w[k];
        assert rest[if l < j then l else l - 1] == w[k];
      }
      AscendingFits(w[..n], rest);
    }
  }

  /** A report takes as many pulses as the rule needs, the reporting one included. */
  lemma {:induction false} ReportTakesHistory(r: Rule, d: Detector, ts: nat)
    requires Radar(r, d, ts)
    ensures |d.history| + 1 >= Needed(r)
  {
    hide NearMultiple;
    hide Born;
    hide FalsePulses;
    var w: seq<nat>, c: nat, pri: nat, k: nat :| RadarBy(r, Noted(d, ts), ts, w, c, pri, k);
    AscendingFits(w, Noted(d, ts).history);
  }

  /** A rule that does not hear the first pulse of a train is one pulse short at every later one. */
  lemma {:induction false} UnheardRuns(rules: seq<Rule>, mem: Memories, events: seq<Event>, i: nat,
                                       train: seq<PulseInfo>, m: nat)
    requires ValidRules(rules) && Legal(events + Pulses(train)) && JustStarted(events) && i < |rules| && Ascends(train) && m <= |train|
    requires |train| > 0 && !Heard(rules[i], Run(rules, mem, events).detectors[i], train[0].ts)
    ensures var s := Before(rules, mem, events, train, m);
            Armed(s) ==> (if m <= 1 then s.detectors[i] == Run(rules, mem, events).detectors[i]
                          else |s.detectors[i].history| <= m - 1)
    decreases m
  {
    hide Run;
    hide FeedBank;
    hide Feed;
    LegalPrefix(events, train, m);
    AfterStart(rules, mem, events, i);
    BeforeStep(rules, mem, events, train, m);
    if m > 0 {
      UnheardRuns(rules, mem, events, i, train, m - 1);
      InOrder(rules, mem, events, train, m - 1);
      var s0, p := Before(rules, mem, events, train, m - 1), train[m - 1];
      if Armed(s0) && !AddPulse(rules, s0, p, mem).radar {
        var at := FeedBankAt(rules, s0.detectors, |rules|, s0.pools, p, false, mem, i);
        if m == 1 {
          UnheardIsIgnored(rules[i], s0.detectors[i], at, p, mem);
        } else {
          HistoryGrowsByOne(rules[i], s0.detectors[i], at, p, mem);
        }
      }
    }
  }

  lemma {:induction false} LegalPrefix(events: seq<Event>, train: seq<PulseInfo>, m: nat)
    requires Legal(events + Pulses(train)) && m <= |train|
    ensures Legal(events) && Legal(events + Pulses(train[..m])) && forall k :: 0 <= k < |train| ==> train[k].ts < U32
  {
    var es := events + Pulses(train);
    assert forall k :: 0 <= k < |events| ==> es[k] == events[k];
    assert forall k :: 0 <= k < |train| ==> es[|events| + k] == PulseSeen(train[k]);
  }

  lemma {:induction false} UnheardIsIgnored(r: Rule, d: Detector, pools: Pools, p: PulseInfo, mem: Memories)
    requires ValidRule(r) && p.ts < U32 && d.lastTs < U32 && !Heard(r, d, p.ts)
    ensures Feed(r, d, pools, p, false, mem) == Fed(d, pools, false)
  {
    hide Accept;
    hide Eligible;
    AcceptsMeaning(r, d, p);
  }

  lemma {:induction false} HistoryGrowsByOne(r: Rule, d: Detector, pools: Pools, p: PulseInfo, mem: Memories)
    ensures |Feed(r, d, pools, p, false, mem).detector.history| <= |d.history| + 1
  {
    AcceptHistory(r, d, pools, p.ts, mem);
    hide Accept;
  }

  lemma {:induction false} UnheardIsSilent(rules: seq<Rule>, mem: Memories, events: seq<Event>, i: nat,
                                           train: seq<PulseInfo>)
    requires ValidRules(rules) && Legal(events + Pulses(train)) && JustStarted(events) && i < |rules| && Ascends(train)
    requires 0 < |train| <= Needed(rules[i]) && !Heard(rules[i], Run(rules, mem, events).detectors[i], train[0].ts)
    ensures Silent(rules, mem, events, train, i)
  {
    hide Run;
    hide FeedBank;
    hide Feed;
    hide Heard;
    hide Reports;
    hide Before;
    hide Legal;
    hide Needed;
    forall m | 0 <= m < |train| ensures !Reports(rules, Before(rules, mem, events, train, m), train[m], mem, i) {
      UnheardAt(rules, mem, events, i, train, m);
    }
  }

  lemma {:induction false} UnheardAt(rules: seq<Rule>, mem: Memories, events: seq<Event>, i: nat, train: seq<PulseInfo>,
                                     m: nat)
    requires ValidRules(rules) && Legal(events + Pulses(train)) && JustStarted(events) && i < |rules| && Ascends(train)
    requires m < |train| <= Needed(rules[i]) && !Heard(rules[i], Run(rules, mem, events).detectors[i], train[0].ts)
    ensures !Reports(rules, Before(rules, mem, events, train, m), train[m], mem, i)
  {
    hide Run;
    hide FeedBank;
    hide Feed;
    hide Heard;
    hide Radar;
    hide BankConserved;
    hide DetectorInv;
    hide Session;
    hide Grounded;
    var s, p := Before(rules, mem, events, train, m), train[m];
    LegalPrefix(events, train, m);
    AfterStart(rules, mem, events, i);
    UnheardRuns(rules, mem, events, i, train, m);
    InOrder(rules, mem, events, train, m);
    var since := RunKeeps(rules, mem, events + Pulses(train[..m]));
    if Reports(rules, s, p, mem, i) {
      var b := FeedBank(rules, s.detectors, i, s.pools, p, false, mem);
      var d := s.detectors[i];
      if m == 0 {
        UnheardIsIgnored(rules[i], d, b.pools, p, mem);
      } else {
        FeedKeeps(rules[i], d, b.pools, p, false, mem, s.lastPulseTs);
        ReportTakesHistory(rules[i], d, p.ts);
      }
      assert false;
    }
  }

  /** Main theorem. Shown to a bank that was just started and has memory, and reported by no other rule, a steady train as
      long as the rule needs is reported iff the count left over from before leaves room for two pulses and the first
      pulse is not within the tolerance after the left-over `lastTs`. */
  lemma {:induction false} ReportedIffReceptive(rules: seq<Rule>, mem: Memories, events: seq<Event>, i: nat,
                                                train: seq<PulseInfo>, q: nat)
    requires ValidRules(rules) && Legal(events) && JustStarted(events) && i < |rules|
    requires Steady(rules[i], train, q) && Plentiful(mem) && |train| == Needed(rules[i])
    requires forall j :: 0 <= j < |rules| && j != i ==> Silent(rules, mem, events, train, j)
    ensures Reported(rules, mem, events, train) <==> Receptive(rules[i], Run(rules, mem, events).detectors[i], train[0].ts)
  {
    hide Run;
    hide FeedBank;
    hide Feed;
    hide Heard;
    hide Before;
    hide Reports;
    var d := Run(rules, mem, events).detectors[i];
    NoisyIsOrdered(rules[i], train, q);
    SteadyIsLegal(rules[i], events, train, q);
    hide Steady;
    hide Legal;
    if Receptive(rules[i], d, train[0].ts) {
      SteadyTrainIsReported(rules, mem, events, i, train, q);
    } else {
      AfterStart(rules, mem, events, i);
      if Heard(rules[i], d, train[0].ts) {
        DeafNeverReports(rules, mem, events, i, train);
      } else {
        UnheardIsSilent(rules, mem, events, i, train);
      }
      NobodyReports(rules, mem, events, train);
    }
  }

  lemma {:induction false} SteadyIsLegal(r: Rule, events: seq<Event>, train: seq<PulseInfo>, q: nat)
    requires Legal(events) && Steady(r, train, q)
    ensures Legal(events + Pulses(train))
  {
    hide Eligible;
  }

  lemma {:induction false} NobodyReports(rules: seq<Rule>, mem: Memories, events: seq<Event>, train: seq<PulseInfo>)
    requires forall j :: 0 <= j < |rules| ==> Silent(rules, mem, events, train, j)
    ensures !Reported(rules, mem, events, train)
  {
    hide Run;
    hide FeedBank;
    hide Reports;
    hide Before;
    forall m | 0 <= m < |train| ensures !ReportedAt(rules, mem, events, train, m) {
      var s := Before(rules, mem, events, train, m);
      forall j | 0 <= j < |rules| ensures !Reports(rules, s, train[m], mem, j) { assert Silent(rules, mem, events, train, j); }
      if ReportedAt(rules, mem, events, train, m) { SomeRuleReports(rules, s, train[m], mem, |rules|); }
    }
  }

  // ----- what can be known of the other rules beforehand

  /** The rule cannot report any pulse of the train: it is deaf, or takes none of them. */
  predicate Unable(r: Rule, d: Detector, train: seq<PulseInfo>) {
    Deaf(r, d) || forall m :: 0 <= m < |train| ==> !Eligible(r, train[m])
  }

  lemma {:induction false} IneligibleIsSilent(rules: seq<Rule>, s: State, p: PulseInfo, mem: Memories, i: nat)
    requires i < |rules| == |s.detectors| && !Eligible(rules[i], p)
    ensures !Reports(rules, s, p, mem, i)
  {
  }

  lemma {:induction false} UnableIsSilent(rules: seq<Rule>, mem: Memories, events: seq<Event>, i: nat, train: seq<PulseInfo>)
    requires ValidRules(rules) && Legal(events) && JustStarted(events) && i < |rules| && Ascends(train)
    requires Unable(rules[i], Run(rules, mem, events).detectors[i], train)
    ensures Silent(rules, mem, events, train, i)
  {
    hide Run;
    hide Deaf;
    hide Eligible;
    hide Reports;
    hide Before;
    if Deaf(rules[i], Run(rules, mem, events).detectors[i]) {
      DeafNeverReports(rules, mem, events, i, train);
    } else {
      forall m | 0 <= m < |train| ensures !Reports(rules, Before(rules, mem, events, train, m), train[m], mem, i) {
        IneligibleIsSilent(rules, Before(rules, mem, events, train, m), train[m], mem, i);
      }
    }
  }

  /** A bank in which every rule is deaf or takes none of the pulses reports none of them. */
  lemma {:induction false} UnableBankIsSilent(rules: seq<Rule>, mem: Memories, events: seq<Event>, train: seq<PulseInfo>)
    requires ValidRules(rules) && Legal(events) && JustStarted(events) && Ascends(train)
    requires forall i :: 0 <= i < |rules| ==> Unable(rules[i], Run(rules, mem, events).detectors[i], train)
    ensures !Reported(rules, mem, events, train)
  {
    hide Run;
    hide Unable;
    hide Silent;
    forall i | 0 <= i < |rules| ensures Silent(rules, mem, events, train, i) { UnableIsSilent(rules, mem, events, i, train); }
    NobodyReports(rules, mem, events, train);
  }

  /** The same as `ReportedIffReceptive`, with a condition on the other rules that is known before the train: each is deaf
      or takes none of its pulses. */
  lemma {:induction false} BankReportsIffReceptive(rules: seq<Rule>, mem: Memories, events: seq<Event>, i: nat,
                                                   train: seq<PulseInfo>, q: nat)
    requires ValidRules(rules) && Legal(events) && JustStarted(events) && i < |rules|
    requires Steady(rules[i], train, q) && Plentiful(mem) && |train| == Needed(rules[i])
    requires forall j :: 0 <= j < |rules| && j != i ==> Unable(rules[j], Run(rules, mem, events).detectors[j], train)
    ensures Reported(rules, mem, events, train) <==> Receptive(rules[i], Run(rules, mem, events).detectors[i], train[0].ts)
  {
    hide Run;
    hide Unable;
    hide Silent;
    hide Receptive;
    hide Reported;
    NoisyIsOrdered(rules[i], train, q);
    hide Steady;
    forall j | 0 <= j < |rules| && j != i ensures Silent(rules, mem, events, train, j) {
      UnableIsSilent(rules, mem, events, j, train);
    }
    ReportedIffReceptive(rules, mem, events, i, train, q);
  }

  // ----- reports happen

  /** No table asks for more pulses than a burst has. */
  lemma {:induction false} ThresholdsFitBursts(r: Rule)
    requires r in EtsiRules() + FccRules() + JpRules()
    ensures 1 <= r.ppbThresh <= r.ppb
  {
  }

  lemma {:induction false} EqualFits(r: Rule, q: nat, k: nat)
    requires Interval(r, q) && k < r.ppb
    ensures k * q <= q * (r.ppb - 1)
  {
    MulMonotone(k, r.ppb - 1, q);
  }

  /** Equal intervals are steady as long as the burst lasts. */
  lemma {:induction false} EqualIsSteady(r: Rule, train: seq<PulseInfo>, q: nat)
    requires Interval(r, q) && IntervalOf(r, q, q) && (|train| <= 2 || |train| <= r.ppb)
    requires forall k :: 0 <= k < |train| ==> Eligible(r, train[k]) && train[k].ts == train[0].ts + k * q < U32
    ensures Steady(r, train, q)
  {
    hide Eligible;
    forall k | 1 <= k < |train|
      ensures train[k].ts - train[k - 1].ts == q && (k >= 2 ==> train[k].ts - train[0].ts <= q * (r.ppb - 1))
    {
      assert k * q == (k - 1) * q + q;
      if k >= 2 { EqualFits(r, q, k); }
    }
  }

  lemma {:induction false} Product(k: nat, q: nat)
    requires k <= 0x100 && q <= 0x1_0000
    ensures 0 <= k * q <= k * 0x1_0000
  {
    if k > 0 {
      Product(k - 1, q);
      assert k * q == (k - 1) * q + q;
    }
  }

  lemma {:induction false} SomeTrain(r: Rule, q: nat, p: PulseInfo) returns (train: seq<PulseInfo>)
    requires Interval(r, q) && IntervalOf(r, q, q) && Eligible(r, p) && 1 <= r.ppbThresh <= r.ppb
    ensures Steady(r, train, q) && |train| == Needed(r) && train[0].ts == PRI_TOLERANCE
  {
    var n := Needed(r);
    train := seq(n, k requires 0 <= k < n => p.(ts := PRI_TOLERANCE + k * q));
    forall k | 0 <= k < n ensures 0 <= k * q <= 0x100_0000 { Product(k, q); }
    EqualIsSteady(r, train, q);
  }

  /** Each rule has legal runs that end in a report: one for every interval it keeps and every pulse it takes. */
  lemma {:induction false} ReportsHappen(rules: seq<Rule>, mem: Memories, i: nat, q: nat, p: PulseInfo)
    requires ValidRules(rules) && i < |rules| && Interval(rules[i], q) && IntervalOf(rules[i], q, q) && Eligible(rules[i], p)
    requires 1 <= rules[i].ppbThresh <= rules[i].ppb && Plentiful(mem)
    ensures exists train, m :: Legal([Start(true, true)] + Pulses(train)) && 0 <= m < |train|
              && ReportedAt(rules, mem, [Start(true, true)], train, m)
  {
    hide Before;
    hide FeedBank;
    var events := [Start(true, true)];
    var train := SomeTrain(rules[i], q, p);
    assert events[..0] == [];
    assert Run(rules, mem, events).detectors[i] == ResetDetector(0);
    hide Run;
    SteadyIsLegal(rules[i], events, train, q);
    SteadyTrainIsReported(rules, mem, events, i, train, q);
  }
}
