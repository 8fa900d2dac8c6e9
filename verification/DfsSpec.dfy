/** Functional specification of the DFS radar detector (skw_dfs.c): radar rules, element pools,
    one pulse-repetition detector per rule, and the detector bank that a pulse is fed to. */
module DfsSpec {

  const PRI_TOLERANCE := 16
  const U32 := 0x1_0000_0000
  const U64 := 0x1_0000_0000_0000_0000

  /** Assignment of a mathematical value to an unsigned 32-bit or 64-bit variable. */
  function Wrap32(x: int): nat { x % U32 }
  function Wrap64(x: int): nat { x % U64 }

  // ----- radar rules

  datatype Rule = Rule(widthMin: nat, widthMax: nat, priMin: nat, priMax: nat, nrPri: nat,
                       ppb: nat, ppbThresh: nat, tolerance: nat, chirp: bool)

  function WidthLower(w: nat): nat { (w * 95 + 50) / 100 }
  function WidthUpper(w: nat): nat { (w * 105 + 50) / 100 }
  function PpbThreshRate(ppb: nat, rate: nat): nat requires rate <= 100 { (ppb * rate + 100 - rate) / 100 }
  function Prf2Pri(prf: nat): nat requires prf > 0 { (1000000 + prf / 2) / prf }

  function EtsiPattern(wMin: nat, wMax: nat, pMin: nat, pMax: nat, prf: nat, ppb: nat): Rule
    requires 0 < pMin && 0 < pMax && Prf2Pri(pMax) >= PRI_TOLERANCE
  {
    Rule(WidthLower(wMin), WidthUpper(wMax), Prf2Pri(pMax) - PRI_TOLERANCE, Prf2Pri(pMin) * prf + PRI_TOLERANCE,
         prf, ppb * prf, PpbThreshRate(ppb, 50), PRI_TOLERANCE, false)
  }

  /** FCC and Japanese rules give the pulse repetition interval directly. */
  function IntervalPattern(wMin: nat, wMax: nat, pMin: nat, pMax: nat, ppb: nat, rate: nat, chirp: bool): Rule
    requires pMin >= PRI_TOLERANCE && rate <= 100
  {
    Rule(WidthLower(wMin), WidthUpper(wMax), pMin - PRI_TOLERANCE, pMax + PRI_TOLERANCE,
         1, ppb, PpbThreshRate(ppb, rate), PRI_TOLERANCE, chirp)
  }

  function EtsiRules(): seq<Rule> {
    [ EtsiPattern(0, 1, 700, 700, 1, 18), EtsiPattern(0, 5, 200, 1000, 1, 10), EtsiPattern(0, 15, 200, 1600, 1, 15),
      EtsiPattern(0, 15, 2300, 4000, 1, 25), EtsiPattern(20, 30, 2000, 4000, 1, 20), EtsiPattern(0, 2, 300, 400, 3, 10),
      EtsiPattern(0, 2, 400, 1200, 3, 15) ]
  }

  function FccRules(): seq<Rule> {
    [ IntervalPattern(0, 1, 1428, 1428, 18, 50, false), IntervalPattern(0, 1, 518, 938, 57, 50, false),
      IntervalPattern(0, 1, 938, 2000, 27, 50, false), IntervalPattern(0, 1, 2000, 3066, 18, 50, false),
      IntervalPattern(0, 5, 150, 230, 23, 50, false), IntervalPattern(6, 10, 200, 500, 16, 50, false),
      IntervalPattern(11, 20, 200, 500, 12, 50, false), IntervalPattern(50, 100, 1000, 2000, 1, 50, true),
      IntervalPattern(0, 1, 333, 333, 9, 50, false) ]
  }

  function JpRules(): seq<Rule> {
    [ IntervalPattern(0, 1, 1428, 1428, 18, 29, false), IntervalPattern(2, 3, 3846, 3846, 18, 29, false),
      IntervalPattern(0, 1, 1388, 1388, 18, 50, false), IntervalPattern(0, 4, 4000, 4000, 18, 50, false),
      IntervalPattern(0, 5, 150, 230, 23, 50, false), IntervalPattern(6, 10, 200, 500, 16, 50, false),
      IntervalPattern(11, 20, 200, 500, 12, 50, false), IntervalPattern(50, 100, 1000, 2000, 3, 50, true),
      IntervalPattern(0, 1, 333, 333, 9, 50, false) ]
  }

  /** What every entry of the three tables satisfies, and all that the proofs use. */
  ghost predicate ValidRule(r: Rule) {
    && r.tolerance == PRI_TOLERANCE && 2 * PRI_TOLERANCE <= r.priMin <= r.priMax < 0x1_0000
    && 1 <= r.ppb < 0x100
    && 1 <= r.nrPri
    && r.priMax * r.ppb * r.nrPri < U32
  }

  ghost predicate ValidRules(rules: seq<Rule>) {
    forall i :: 0 <= i < |rules| ==> ValidRule(rules[i])
  }

  function WindowSize(r: Rule): nat { r.priMax * r.ppb * r.nrPri }
  function MaxCount(r: Rule): nat { r.ppb * 2 }

  function PriToUse(r: Rule, runtime: nat): nat {
    if r.priMin + PRI_TOLERANCE == r.priMax - PRI_TOLERANCE then r.priMin + PRI_TOLERANCE else runtime
  }

  function Duration(r: Rule, pri: nat): nat { Wrap32(pri * (r.ppb - 1) + 2 * r.tolerance) }

  // ----- multiples of the repetition interval

  function GetMultiple(val: nat, fraction: nat, tolerance: nat): nat {
    if fraction == 0 then 0
    else if (if val < fraction then fraction - val else val - fraction) <= tolerance then 1
    else
      var factor := val / fraction;
      var remainder := val % fraction;
      if remainder > tolerance then
        if fraction - remainder <= tolerance then factor + 1 else 0
      else factor
  }

  /** `val` lies within `tolerance` of `k` times `fraction`. */
  ghost predicate Near(val: int, k: nat, fraction: nat, tolerance: nat) {
    val - k * fraction <= tolerance && k * fraction - val <= tolerance
  }

  ghost predicate NearMultiple(val: int, fraction: nat, tolerance: nat) {
    exists k: nat :: k >= 1 && Near(val, k, fraction, tolerance)
  }

  // ----- element pools: `free` is a stack of element ids, `attempts` counts kmalloc calls

  type Memory = nat -> bool  // answers whether the n-th kmalloc call succeeds

  datatype Pool = Pool(free: seq<nat>, attempts: nat)
  datatype Got = Got(ok: bool, id: nat, pool: Pool)

  function Put(p: Pool, id: nat): Pool { p.(free := [id] + p.free) }

  function Get(p: Pool, mem: Memory): Got {
    if |p.free| > 0 then Got(true, p.free[0], p.(free := p.free[1..]))
    else if mem(p.attempts) then Got(true, p.attempts, p.(attempts := p.attempts + 1))
    else Got(false, 0, p.(attempts := p.attempts + 1))
  }

  function PutAll(p: Pool, ids: seq<nat>): Pool
    decreases |ids|
  {
    if ids == [] then p else Put(PutAll(p, ids[..|ids| - 1]), ids[|ids| - 1])
  }

  // ----- one detector

  datatype Pulse = Pulse(id: nat, ts: nat)

  datatype PriSequence = PriSequence(id: nat, pri: nat, dur: nat, count: nat, falses: nat,
                                     firstTs: nat, lastTs: nat, deadlineTs: nat)

  /** `pulses` is newest first. For the specification only, `history` lists the timestamps accepted since the last reset,
      and `queues` what was stored when each of them was accepted. */
  datatype Detector = Detector(lastTs: nat, count: int, pulses: seq<Pulse>, sequences: seq<PriSequence>,
                               history: seq<nat>, queues: seq<seq<Pulse>>)

  function Noted(d: Detector, ts: nat): Detector { d.(history := d.history + [ts], queues := d.queues + [d.pulses]) }

  datatype Pools = Pools(pulse: Pool, pseq: Pool)
  datatype Memories = Memories(pulse: Memory, pseq: Memory)

  function PulseIds(ps: seq<Pulse>): seq<nat> { seq(|ps|, i requires 0 <= i < |ps| => ps[i].id) }
  function SeqIds(ss: seq<PriSequence>): seq<nat> { seq(|ss|, i requires 0 <= i < |ss| => ss[i].id) }

  function ResetDetector(ts: nat): Detector { Detector(ts, 0, [], [], [], []) }

  function ResetPools(d: Detector, pools: Pools): Pools {
    Pools(PutAll(pools.pulse, PulseIds(d.pulses)), PutAll(pools.pseq, SeqIds(d.sequences)))
  }

  // Adding a pulse to the existing sequences.

  predicate Hits(r: Rule, ps: PriSequence, ts: nat) {
    GetMultiple(Wrap32(ts - ps.lastTs), ps.pri, r.tolerance) > 0
  }

  function ExtendOne(r: Rule, ps: PriSequence, ts: nat): PriSequence {
    if Hits(r, ps, ts) then ps.(lastTs := ts, count := ps.count + 1) else ps.(falses := ps.falses + 1)
  }

  function Extend(r: Rule, ss: seq<PriSequence>, ts: nat): seq<PriSequence>
    decreases |ss|
  {
    if ss == [] then []
    else
      var rest := Extend(r, ss[..|ss| - 1], ts);
      var last := ss[|ss| - 1];
      if ts > last.deadlineTs then rest else rest + [ExtendOne(r, last, ts)]
  }

  /** The sequences that are expired go back to the pool, in list order. */
  function Expired(ss: seq<PriSequence>, ts: nat): seq<nat>
    decreases |ss|
  {
    if ss == [] then []
    else
      var rest := Expired(ss[..|ss| - 1], ts);
      var last := ss[|ss| - 1];
      if ts > last.deadlineTs then rest + [last.id] else rest
  }

  /** Largest count among the sequences the pulse extends, 0 when it extends none. */
  function MaxUpdated(r: Rule, ss: seq<PriSequence>, ts: nat): nat
    decreases |ss|
  {
    if ss == [] then 0
    else
      var rest := MaxUpdated(r, ss[..|ss| - 1], ts);
      var last := ss[|ss| - 1];
      if ts <= last.deadlineTs && Hits(r, last, ts) && rest < last.count + 1 then last.count + 1 else rest
  }

  // Creating new sequences.

  /** The candidate search of a new sequence with interval `pri` counts pulse `q`: `q` is inside the
      window that ends at `ts`, and a multiple of the interval older. A window that would start before
      time zero is empty, because the unsigned subtraction at its lower border wraps. */
  predicate Match(r: Rule, pri: nat, ts: nat, q: Pulse) {
    q.ts >= Wrap64(ts - Duration(r, pri)) && GetMultiple(Wrap32(ts - q.ts), pri, r.tolerance) > 0
  }

  function Matches(r: Rule, pri: nat, ts: nat, older: seq<Pulse>): nat
    decreases |older|
  {
    if older == [] then 0
    else Matches(r, pri, ts, older[..|older| - 1]) + (if Match(r, pri, ts, older[|older| - 1]) then 1 else 0)
  }

  /** Timestamp of the oldest match, or `default` when there is none. */
  function OldestMatch(r: Rule, pri: nat, ts: nat, older: seq<Pulse>, default: nat): nat
    decreases |older|
  {
    if older == [] then default
    else if Match(r, pri, ts, older[|older| - 1]) then older[|older| - 1].ts
    else OldestMatch(r, pri, ts, older[..|older| - 1], default)
  }

  /** Pulses among `older` that are not matches but are newer than the oldest match. */
  function FalsesBeforeOldest(r: Rule, pri: nat, ts: nat, older: seq<Pulse>): nat
    ensures FalsesBeforeOldest(r, pri, ts, older) <= |older|
    decreases |older|
  {
    if older == [] then 0
    else
      var rest := older[..|older| - 1];
      if Match(r, pri, ts, older[|older| - 1]) then
        MatchesAtMost(r, pri, ts, rest); |rest| - Matches(r, pri, ts, rest)
      else FalsesBeforeOldest(r, pri, ts, rest)
  }

  lemma {:induction false} MatchesAtMost(r: Rule, pri: nat, ts: nat, older: seq<Pulse>)
    ensures Matches(r, pri, ts, older) <= |older|
    decreases |older|
  {
    if older != [] { MatchesAtMost(r, pri, ts, older[..|older| - 1]); }
  }

  function NewSequence(r: Rule, pulses: seq<Pulse>, i: nat, ts: nat): PriSequence
    requires i < |pulses|
  {
    var pri := PriToUse(r, Wrap32(ts - pulses[i].ts));
    var older := pulses[i + 1..];
    var first := OldestMatch(r, pri, ts, older, pulses[i].ts);
    PriSequence(0, pri, Duration(r, pri), 2 + Matches(r, pri, ts, older), FalsesBeforeOldest(r, pri, ts, older),
                first, ts, first + Duration(r, pri))
  }

  predicate Candidate(r: Rule, p: Pulse, ts: nat) {
    r.priMin <= Wrap32(ts - p.ts) <= r.priMax
  }

  datatype Created = Created(ok: bool, sequences: seq<PriSequence>, pool: Pool)

  /** Sequences and pool after the first `n` stored pulses have been tried as the previous pulse. */
  function Create(r: Rule, pulses: seq<Pulse>, n: nat, ts: nat, minCount: nat,
                  ss: seq<PriSequence>, pool: Pool, mem: Memory): Created
    requires n <= |pulses|
    decreases n
  {
    if n == 0 then Created(true, ss, pool)
    else
      var prev := Create(r, pulses, n - 1, ts, minCount, ss, pool, mem);
      if !prev.ok || !Candidate(r, pulses[n - 1], ts) || NewSequence(r, pulses, n - 1, ts).count <= minCount then prev
      else
        var got := Get(prev.pool, mem);
        if !got.ok then Created(false, prev.sequences, got.pool)
        else Created(true, [NewSequence(r, pulses, n - 1, ts).(id := got.id)] + prev.sequences, got.pool)
  }

  /** Enough pulses, and at least as many matching as false ones, weighted by the number of intervals. */
  predicate Detects(r: Rule, ps: PriSequence) {
    ps.count >= r.ppbThresh && ps.count * r.nrPri >= ps.falses
  }

  predicate Detected(r: Rule, ss: seq<PriSequence>) {
    exists i :: 0 <= i < |ss| && Detects(r, ss[i])
  }

  // Queueing the pulse.

  /** Number of pulses kept when those older than `minTs` are dropped from the tail. */
  function Kept(pulses: seq<Pulse>, minTs: nat): nat
    ensures Kept(pulses, minTs) <= |pulses|
    decreases |pulses|
  {
    if pulses == [] || pulses[|pulses| - 1].ts >= minTs then |pulses|
    else Kept(pulses[..|pulses| - 1], minTs)
  }

  /** The list keeps its first `n` elements; the others go back to the pool, oldest first. */
  function DropTail(pulses: seq<Pulse>, n: nat, pool: Pool): Pool
    requires n <= |pulses|
    decreases |pulses|
  {
    if n == |pulses| then pool
    else DropTail(pulses[..|pulses| - 1], n, Put(pool, pulses[|pulses| - 1].id))
  }

  /** How many pulses are inside the window; with a count below two none is looked at. */
  function InWindow(r: Rule, pulses: seq<Pulse>, count: int, lastTs: nat): (n: nat)
    ensures n <= |pulses|
  {
    if count < 2 || lastTs <= WindowSize(r) then |pulses| else Kept(pulses, lastTs - WindowSize(r))
  }

  /** How many pulses stay queued once window and size limit have been enforced. The size limit looks at `count`, which
      may be larger than the queue. */
  function QueueLimit(r: Rule, pulses: seq<Pulse>, count: int, lastTs: nat): (n: nat)
    ensures n <= |pulses|
  {
    var n := InWindow(r, pulses, count, lastTs);
    if count - (|pulses| - n) >= MaxCount(r) && n > 0 then n - 1 else n
  }

  datatype Fed = Fed(detector: Detector, pools: Pools, radar: bool)

  function Enqueue(r: Rule, d: Detector, pools: Pools, ts: nat, mem: Memories): Fed {
    var got := Get(pools.pulse, mem.pulse);
    if !got.ok then Fed(d, pools.(pulse := got.pool), false)
    else
      var all := [Pulse(got.id, ts)] + d.pulses;
      var n := QueueLimit(r, all, d.count + 1, ts);
      Fed(d.(lastTs := ts, count := d.count + 1 - (|all| - n), pulses := all[..n]),
          pools.(pulse := DropTail(all, n, got.pool)), false)
  }

  // ----- feeding one pulse

  datatype PulseInfo = PulseInfo(ts: nat, width: nat, chirp: bool)

  predicate Eligible(r: Rule, p: PulseInfo) {
    r.widthMin <= p.width <= r.widthMax && (r.chirp ==> p.chirp)
  }

  predicate Accepts(r: Rule, d: Detector, p: PulseInfo) {
    Eligible(r, p) && Wrap64(p.ts - d.lastTs) >= r.tolerance
  }

  function Accept(r: Rule, d: Detector, pools: Pools, ts: nat, mem: Memories): Fed
  {
    var extended := Extend(r, d.sequences, ts);
    var pool := PutAll(pools.pseq, Expired(d.sequences, ts));
    var made := Create(r, d.pulses, |d.pulses|, ts, MaxUpdated(r, d.sequences, ts), extended, pool, mem.pseq);
    var d' := Noted(d, ts).(sequences := made.sequences);
    var pools' := pools.(pseq := made.pool);
    if !made.ok then Fed(ResetDetector(ts), ResetPools(d', pools'), false)
    else if Detected(r, made.sequences) then Fed(d', pools', true)
    else Enqueue(r, d', pools', ts, mem)
  }

  function Feed(r: Rule, d: Detector, pools: Pools, p: PulseInfo, reset: bool, mem: Memories): Fed
  {
    if reset then Fed(ResetDetector(p.ts), ResetPools(d, pools), false)
    else if Accepts(r, d, p) then Accept(r, d, pools, p.ts, mem)
    else Fed(d, pools, false)
  }

  // ----- the bank of detectors of one regulatory region

  datatype Bank = Bank(detectors: seq<Detector>, pools: Pools, radar: bool)

  function ResetAll(ds: seq<Detector>, n: nat, pools: Pools): Bank
    requires n <= |ds|
    ensures |ResetAll(ds, n, pools).detectors| == |ds| && ResetAll(ds, n, pools).radar
  {
    if n == 0 then Bank(ds, pools, true)
    else
      var b := ResetAll(ds, n - 1, pools);
      b.(detectors := b.detectors[n - 1 := ResetDetector(0)], pools := ResetPools(b.detectors[n - 1], b.pools))
  }

  /** State after the first `n` rules have seen the pulse; a report resets every detector and ends the loop. */
  function FeedBank(rules: seq<Rule>, ds: seq<Detector>, n: nat, pools: Pools, p: PulseInfo, reset: bool,
                    mem: Memories): Bank
    requires n <= |rules| == |ds|
    ensures |FeedBank(rules, ds, n, pools, p, reset, mem).detectors| == |ds|
    ensures var b := FeedBank(rules, ds, n, pools, p, reset, mem);
            !b.radar ==> forall i :: n <= i < |ds| ==> b.detectors[i] == ds[i]
  {
    if n == 0 then Bank(ds, pools, false)
    else
      var b := FeedBank(rules, ds, n - 1, pools, p, reset, mem);
      if b.radar then b
      else
        var f := Feed(rules[n - 1], b.detectors[n - 1], b.pools, p, reset, mem);
        var ds' := b.detectors[n - 1 := f.detector];
        if f.radar then ResetAll(ds', |ds'|, f.pools) else Bank(ds', f.pools, false)
  }

  /** `cac` and `monitor` are the two flags under which pulses are looked at. */
  datatype State = State(detectors: seq<Detector>, pools: Pools, lastPulseTs: nat, cac: bool, monitor: bool)

  predicate Armed(s: State) { s.cac || s.monitor }

  datatype Outcome = Outcome(state: State, radar: bool)

  function AddPulse(rules: seq<Rule>, s: State, p: PulseInfo, mem: Memories): Outcome
    requires |rules| == |s.detectors|
  {
    if !Armed(s) then Outcome(s, false)
    else
      var b := FeedBank(rules, s.detectors, |rules|, s.pools, p, s.lastPulseTs > p.ts, mem);
      Outcome(State(b.detectors, b.pools, p.ts, s.cac && !b.radar, s.monitor && !b.radar), b.radar)
  }

  /** Stopping detection on an interface, this one or another that shares the detectors: every detector is emptied into
      the pools, and the flags of the interface are cleared. */
  function Deinit(s: State, own: bool): State {
    var b := ResetAll(s.detectors, |s.detectors|, s.pools);
    s.(detectors := b.detectors, pools := b.pools, cac := s.cac && !own, monitor := s.monitor && !own)
  }

  /** The lists are initialised anew: their elements are not returned, and `count` and `lastTs` stay as they are. */
  function Emptied(d: Detector): Detector { d.(pulses := [], sequences := [], history := [], queues := []) }

  function EmptyLists(ds: seq<Detector>): (es: seq<Detector>)
    ensures |es| == |ds| && forall i :: 0 <= i < |ds| ==> es[i] == Emptied(ds[i])
  {
    seq(|ds|, i requires 0 <= i < |ds| => Emptied(ds[i]))
  }

  /** Configuring a channel, then starting the availability check or the monitoring of it, which may fail. */
  function ChanInit(s: State, monitor: bool, ok: bool): State {
    s.(detectors := EmptyLists(s.detectors), lastPulseTs := 0,
       cac := s.cac || (!monitor && ok), monitor := s.monitor || (monitor && ok))
  }

  /** Setting an interface up initialises the lists shared by all; its own flags are cleared. */
  function InitInterface(s: State, own: bool): State {
    s.(detectors := EmptyLists(s.detectors), cac := s.cac && !own, monitor := s.monitor && !own)
  }
}
