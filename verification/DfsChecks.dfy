/** Channel availability checks that make rules deaf: the pulses they store count on after the lists were initialised. */
module DfsChecks {
  import opened DfsSpec
  import opened DfsSequences
  import opened DfsRuns
  import opened DfsDetection

  // ----- one check with many pulses

  /** `n` pulses, one tolerance apart, the last at `t`, have been stored and nothing else. */
  ghost predicate Filled(r: Rule, d: Detector, n: nat, t: nat) {
    && d.sequences == [] && d.count == |d.pulses| == n
    && (forall j :: 0 <= j < n ==> d.pulses[j].ts == t - j * PRI_TOLERANCE)
    && (n == 0 ==> d.lastTs == 0) && (n > 0 ==> d.lastTs == t)
  }

  /** The pulses are less than the shortest interval old. */
  ghost predicate Recent(r: Rule, pulses: seq<Pulse>, ts: nat) {
    forall j :: 0 <= j < |pulses| ==> pulses[j].ts <= ts && ts - pulses[j].ts < r.priMin
  }

  lemma {:induction false} NoCandidates(r: Rule, pulses: seq<Pulse>, n: nat, ts: nat, ss: seq<PriSequence>, pool: Pool,
                                        mem: Memory)
    requires n <= |pulses| && Recent(r, pulses[..n], ts) && ts < U32
    ensures Create(r, pulses, n, ts, 0, ss, pool, mem) == Created(true, ss, pool)
  {
    hide NewSequence;
    if n > 0 {
      assert pulses[..n][..n - 1] == pulses[..n - 1];
      NoCandidates(r, pulses, n - 1, ts, ss, pool, mem);
      assert pulses[..n][n - 1].ts <= ts;
      Wrap32Fits(ts - pulses[n - 1].ts);
    }
  }

  lemma {:induction false} WindowIsLong(r: Rule)
    requires ValidRule(r)
    ensures WindowSize(r) >= r.priMin
  {
    MulMonotone(1, r.ppb, r.priMax);
    MulMonotone(1, r.nrPri, r.priMax * r.ppb);
  }

  lemma {:induction false} QueueHasRoom(r: Rule, all: seq<Pulse>, ts: nat)
    requires ValidRule(r) && |all| < MaxCount(r) && Recent(r, all, ts)
    ensures QueueLimit(r, all, |all|, ts) == |all|
  {
    hide WindowSize;
    WindowIsLong(r);
    if all != [] { assert ts - all[|all| - 1].ts < r.priMin; }
  }

  lemma {:induction false} FillOne(r: Rule, d: Detector, pools: Pools, p: PulseInfo, mem: Memories, n: nat, t: nat)
    requires ValidRule(r) && Plentiful(mem) && Eligible(r, p) && p.ts < U32 && Filled(r, d, n, t)
    requires p.ts == t + PRI_TOLERANCE && n + 1 < MaxCount(r) && n * PRI_TOLERANCE < r.priMin && n * PRI_TOLERANCE <= t
    ensures var f := Feed(r, d, pools, p, false, mem); !f.radar && Filled(r, f.detector, n + 1, p.ts)
  {
    hide Eligible;
    hide QueueLimit;
    hide DropTail;
    hide Get;
    var ts := p.ts;
    AcceptsMeaning(r, d, p);
    EmptyExtend(r, ts);
    assert d.pulses[..n] == d.pulses;
    NoCandidates(r, d.pulses, n, ts, [], PutAll(pools.pseq, []), mem.pseq);
    var new_ := Pulse(Get(pools.pulse, mem.pulse).id, ts);
    var all := [new_] + d.pulses;
    assert forall j :: 0 < j < |all| ==> all[j] == d.pulses[j - 1];
    QueueHasRoom(r, all, ts);
    assert all[..|all|] == all;
    GetSucceeds(pools.pulse, mem.pulse);
  }

  lemma {:induction false} GetSucceeds(pool: Pool, mem: Memory)
    requires forall n :: mem(n)
    ensures Get(pool, mem).ok
  {
  }

  /** A burst of pulses that are taken, one tolerance apart. */
  ghost predicate Burst(r: Rule, burst: seq<PulseInfo>) {
    forall k :: 0 <= k < |burst| ==> Eligible(r, burst[k]) && burst[k].ts == (k + 1) * PRI_TOLERANCE < U32
  }

  lemma {:induction false} BurstAscends(r: Rule, burst: seq<PulseInfo>)
    requires Burst(r, burst)
    ensures Ascends(burst)
  {
    hide Eligible;
  }

  lemma {:induction false} StartOfCheck(rules: seq<Rule>, mem: Memories)
    ensures var s := Run(rules, mem, [Start(false, true)]);
            && s.cac && !s.monitor && s.lastPulseTs == 0
            && forall i :: 0 <= i < |rules| ==> s.detectors[i] == ResetDetector(0)
  {
    assert [Start(false, true)][..0] == [];
  }

  /** A burst too fast for the rule, and reported by no other, only fills its queue. */
  lemma {:induction false} BurstFills(rules: seq<Rule>, mem: Memories, i: nat, burst: seq<PulseInfo>, m: nat)
    requires ValidRules(rules) && i < |rules| && Plentiful(mem) && Burst(rules[i], burst) && m <= |burst| < MaxCount(rules[i])
    requires |burst| * PRI_TOLERANCE <= rules[i].priMin
    requires forall k :: 0 <= k < m ==> !ReportedAt(rules, mem, [Start(false, true)], burst, k)
    ensures Filled(rules[i], Before(rules, mem, [Start(false, true)], burst, m).detectors[i], m, m * PRI_TOLERANCE)
    decreases m
  {
    hide Run;
    hide FeedBank;
    hide Feed;
    hide Eligible;
    var events := [Start(false, true)];
    StartOfCheck(rules, mem);
    BeforeStep(rules, mem, events, burst, m);
    if m > 0 {
      BurstFills(rules, mem, i, burst, m - 1);
      BurstAscends(rules[i], burst);
      InOrder(rules, mem, events, burst, m - 1);
      var s, p := Before(rules, mem, events, burst, m - 1), burst[m - 1];
      hide Before;
      assert !ReportedAt(rules, mem, events, burst, m - 1);
      var at := FeedBankAt(rules, s.detectors, |rules|, s.pools, p, false, mem, i);
      FillOne(rules[i], s.detectors[i], at, p, mem, m - 1, (m - 1) * PRI_TOLERANCE);
    }
  }

  /** An availability check that sees the burst and ends, and the start of monitoring after it. */
  function CheckThenMonitor(burst: seq<PulseInfo>): seq<Event> {
    [Start(false, true)] + Pulses(burst) + [CacDone] + [Start(true, true)]
  }

  lemma {:induction false} RunOfCheck(rules: seq<Rule>, mem: Memories, burst: seq<PulseInfo>)
    ensures var s := Before(rules, mem, [Start(false, true)], burst, |burst|);
            var es := CheckThenMonitor(burst);
            && Run(rules, mem, es) == ChanInit(s.(cac := false), true, true)
            && Lost(rules, mem, es) == LostStep(Lost(rules, mem, es[..|es| - 1]), s.detectors, Start(true, true))
  {
    hide AddPulse;
    hide LostStep;
    var es := CheckThenMonitor(burst);
    var e1 := es[..|es| - 1];
    var e0 := e1[..|e1| - 1];
    assert burst[..|burst|] == burst;
    assert e0 == [Start(false, true)] + Pulses(burst) && e1[|e1| - 1] == CacDone && es[|es| - 1] == Start(true, true);
    assert Run(rules, mem, e1) == Run(rules, mem, e0).(cac := false);
  }

  /** After a check that saw one pulse less than the queue may count, and reported none, the rule is deaf for good: it
      reports no pulse while time goes forward, and the elements of its queue are lost. Other rules may still report. */
  lemma {:induction false} CheckDeafens(rules: seq<Rule>, mem: Memories, i: nat, burst: seq<PulseInfo>,
                                        train: seq<PulseInfo>)
    requires ValidRules(rules) && i < |rules| && Plentiful(mem) && Burst(rules[i], burst) && |burst| == MaxCount(rules[i]) - 1
    requires |burst| * PRI_TOLERANCE <= rules[i].priMin && !Reported(rules, mem, [Start(false, true)], burst) && Ascends(train)
    ensures Silent(rules, mem, CheckThenMonitor(burst), train, i)
    ensures |Lost(rules, mem, CheckThenMonitor(burst)).pulse| >= |burst|
  {
    hide Run;
    hide Lost;
    hide FeedBank;
    hide Eligible;
    hide ReportedAt;
    var es := CheckThenMonitor(burst);
    BurstFills(rules, mem, i, burst, |burst|);
    RunOfCheck(rules, mem, burst);
    var s := Before(rules, mem, [Start(false, true)], burst, |burst|);
    hide Before;
    CheckIsLegal(rules[i], burst);
    hide Burst;
    DeafNeverReports(rules, mem, es, i, train);
    hide CheckThenMonitor;
    hide Silent;
    OwnedSplit(s.detectors, i, PulsesOf);
    assert |multiset(PulsesOf(s.detectors[i]))| == |PulsesOf(s.detectors[i])| == |burst|;
    LostAtLeast(multiset(PulsesOf(s.detectors[i])), Others(s.detectors, i, PulsesOf), Lost(rules, mem, es[..|es| - 1]).pulse);
  }

  lemma {:induction false} LostAtLeast(a: multiset<nat>, b: multiset<nat>, c: multiset<nat>)
    ensures |(a + b) + c| >= |a|
  {
    assert |(a + b) + c| == |a| + |b| + |c|;
  }

  lemma {:induction false} CheckIsLegal(r: Rule, burst: seq<PulseInfo>)
    requires Burst(r, burst)
    ensures Legal(CheckThenMonitor(burst)) && JustStarted(CheckThenMonitor(burst))
  {
    hide Eligible;
  }

  // ----- many checks with one pulse each

  function At(p: PulseInfo, k: nat): PulseInfo { p.(ts := k * PRI_TOLERANCE) }

  /** `k` checks, each of which sees one pulse like `p`, one tolerance after that of the check before. */
  function Checks(p: PulseInfo, k: nat): seq<Event> {
    if k == 0 then [] else Checks(p, k - 1) + [Start(false, true)] + [PulseSeen(At(p, k))] + [CacDone]
  }

  lemma {:induction false} ChecksAreLegal(p: PulseInfo, k: nat)
    requires k * PRI_TOLERANCE < U32
    ensures Legal(Checks(p, k)) && Legal(Checks(p, k) + [Start(true, true)])
  {
    if k > 0 {
      ChecksAreLegal(p, k - 1);
      var es := Checks(p, k - 1);
      LegalGrows(es, Start(false, true));
      LegalGrows(es + [Start(false, true)], PulseSeen(At(p, k)));
      LegalGrows(es + [Start(false, true)] + [PulseSeen(At(p, k))], CacDone);
    }
    LegalGrows(Checks(p, k), Start(true, true));
  }

  function Min(a: int, b: int): int { if a <= b then a else b }

  /** After `k` checks: a rule that takes the pulse has counted every check up to its limit, and no sequence was made. */
  ghost predicate Checked(r: Rule, d: Detector, p: PulseInfo, k: nat) {
    && d.sequences == []
    && if Eligible(r, p) then d.count == Min(k, MaxCount(r) - 1) && d.lastTs == k * PRI_TOLERANCE
       else d.count == 0 && d.lastTs == 0
  }

  ghost predicate AllChecked(rules: seq<Rule>, ds: seq<Detector>, n: nat, p: PulseInfo, k: nat)
    requires n <= |rules| == |ds|
  {
    forall i :: 0 <= i < n ==> Checked(rules[i], ds[i], p, k)
  }

  /** The pulse of one more check, shown to one detector whose lists were just initialised. */
  lemma {:induction false} CheckOne(r: Rule, d: Detector, pools: Pools, p: PulseInfo, k: nat, mem: Memories)
    requires ValidRule(r) && Plentiful(mem) && (k + 1) * PRI_TOLERANCE < U32 && Checked(r, d, p, k)
    ensures var f := Feed(r, Emptied(d), pools, At(p, k + 1), false, mem); !f.radar && Checked(r, f.detector, p, k + 1)
  {
    hide Enqueue;
    hide Accept;
    var e, pk := Emptied(d), At(p, k + 1);
    assert Eligible(r, pk) == Eligible(r, p);
    hide Eligible;
    if Eligible(r, p) {
      AcceptsMeaning(r, e, pk);
      AcceptUnused(r, e, pools, pk.ts, mem);
      var e' := Noted(e, pk.ts);
      GetSucceeds(pools.pulse, mem.pulse);
      EnqueueUnused(r, e', pools, pk.ts, mem);
      NoRadarFromEnqueue(r, e', pools, pk.ts, mem);
    }
  }

  lemma {:induction false} CheckBank(rules: seq<Rule>, ds: seq<Detector>, n: nat, pools: Pools, p: PulseInfo, k: nat,
                                     mem: Memories)
    requires n <= |rules| == |ds| && ValidRules(rules) && Plentiful(mem) && (k + 1) * PRI_TOLERANCE < U32
    requires AllChecked(rules, ds, |rules|, p, k)
    ensures var b := FeedBank(rules, EmptyLists(ds), n, pools, At(p, k + 1), false, mem);
            !b.radar && AllChecked(rules, b.detectors, n, p, k + 1)
  {
    hide Feed;
    hide Checked;
    hide Plentiful;
    hide Emptied;
    if n > 0 {
      CheckBank(rules, ds, n - 1, pools, p, k, mem);
      var b := FeedBank(rules, EmptyLists(ds), n - 1, pools, At(p, k + 1), false, mem);
      assert b.detectors[n - 1] == Emptied(ds[n - 1]);
      CheckOne(rules[n - 1], ds[n - 1], b.pools, p, k, mem);
    }
  }

  /** In every bank with memory: after `k` checks every rule that takes the pulse counts `k` of them, up to its limit, and
      none was reported. */
  lemma {:induction false} ChecksCount(rules: seq<Rule>, mem: Memories, p: PulseInfo, k: nat)
    requires ValidRules(rules) && Plentiful(mem) && k * PRI_TOLERANCE < U32
    ensures var s := Run(rules, mem, Checks(p, k)); !Armed(s) && AllChecked(rules, s.detectors, |rules|, p, k)
  {
    hide Run;
    hide FeedBank;
    hide AllChecked;
    hide Plentiful;
    if k == 0 {
      NoChecks(rules, mem, p);
    } else {
      ChecksCount(rules, mem, p, k - 1);
      var es := Checks(p, k - 1);
      var e1 := es + [Start(false, true)];
      var e2 := e1 + [PulseSeen(At(p, k))];
      RunMore(rules, mem, es, Start(false, true));
      RunMore(rules, mem, e1, PulseSeen(At(p, k)));
      RunMore(rules, mem, e2, CacDone);
      var s := Run(rules, mem, es);
      CheckBank(rules, s.detectors, |rules|, s.pools, p, k - 1, mem);
    }
  }

  lemma {:induction false} NoChecks(rules: seq<Rule>, mem: Memories, p: PulseInfo)
    requires ValidRules(rules)
    ensures var s := Run(rules, mem, []); !Armed(s) && AllChecked(rules, s.detectors, |rules|, p, 0)
  {
  }

  lemma {:induction false} RunMore(rules: seq<Rule>, mem: Memories, events: seq<Event>, e: Event)
    ensures Run(rules, mem, events + [e]) == Step(rules, mem, Run(rules, mem, events), e)
  {
    hide Step;
    assert (events + [e])[..|events|] == events;
  }

  /** Main theorem on failing banks. After as many one-pulse checks as the largest queue may count, the monitoring that
      follows reports no pulse at all, as long as each rule that takes one of them also took those of the checks. */
  lemma {:induction false} ChecksDeafen(rules: seq<Rule>, mem: Memories, p: PulseInfo, k: nat, train: seq<PulseInfo>)
    requires ValidRules(rules) && Plentiful(mem) && k * PRI_TOLERANCE < U32 && Ascends(train)
    requires forall i :: 0 <= i < |rules| ==> MaxCount(rules[i]) - 1 <= k
    requires forall i, m :: 0 <= i < |rules| && 0 <= m < |train| && Eligible(rules[i], train[m]) ==> Eligible(rules[i], p)
    ensures !Reported(rules, mem, Checks(p, k) + [Start(true, true)], train)
  {
    hide Eligible;
    var es := Checks(p, k) + [Start(true, true)];
    ChecksCount(rules, mem, p, k);
    ChecksAreLegal(p, k);
    RunMore(rules, mem, Checks(p, k), Start(true, true));
    var s := Run(rules, mem, Checks(p, k));
    hide Run;
    hide Plentiful;
    forall i | 0 <= i < |rules| ensures Unable(rules[i], Run(rules, mem, es).detectors[i], train) {
      assert Checked(rules[i], s.detectors[i], p, k);
      assert Run(rules, mem, es).detectors[i] == Emptied(s.detectors[i]);
    }
    UnableBankIsSilent(rules, mem, es, train);
  }

  lemma {:induction false} EtsiLimits(p: PulseInfo, q: PulseInfo, i: nat)
    requires i < |EtsiRules()| && p.width == 1 && Eligible(EtsiRules()[0], q)
    ensures MaxCount(EtsiRules()[i]) <= 90 && (Eligible(EtsiRules()[i], q) ==> Eligible(EtsiRules()[i], p))
  {
    var rs := EtsiRules();
    assert rs[0].widthMax == 1 && rs[1].widthMin == 0 && rs[2].widthMin == 0 && rs[3].widthMin == 0 && rs[4].widthMin == 19;
    assert rs[5].widthMin == 0 && rs[6].widthMin == 0 && rs[6].ppb == 45 && rs[5].ppb == 30;
  }

  /** The whole ETSI table after 89 checks with one pulse of 1 microsecond each: no train that its first rule takes is
      reported by any rule. */
  lemma {:induction false} EtsiChecksDeafen(mem: Memories, train: seq<PulseInfo>, q: nat)
    requires Plentiful(mem) && Steady(EtsiRules()[0], train, q)
    ensures !Reported(EtsiRules(), mem, Checks(PulseInfo(0, 1, false), 89) + [Start(true, true)], train)
  {
    hide Checks;
    var rules, p := EtsiRules(), PulseInfo(0, 1, false);
    EtsiIsValid();
    NoisyIsOrdered(rules[0], train, q);
    forall i, m | 0 <= i < |rules| && 0 <= m < |train|
      ensures Eligible(rules[i], train[m]) ==> Eligible(rules[i], p)
    {
      EtsiLimits(p, train[m], i);
    }
    forall i | 0 <= i < |rules| ensures MaxCount(rules[i]) - 1 <= 89 { EtsiLimits(p, p, i); }
    hide EtsiRules;
    ChecksDeafen(rules, mem, p, 89, train);
  }

  // ----- pulses that are not counted at all

  /** Five pulses of the Japanese chirp type: four in a row, 16 microseconds apart, and one 984 after the first. */
  function FiveChirps(): seq<PulseInfo> {
    [PulseInfo(16, 60, true), PulseInfo(32, 60, true), PulseInfo(48, 60, true), PulseInfo(64, 60, true), PulseInfo(1000, 60, true)]
  }

  lemma {:induction false} ChirpRule(p: PulseInfo, j: nat)
    requires j < |JpRules()| && p.width == 60 && p.chirp
    ensures |JpRules()| == 9 && JpRules()[7] == Rule(48, 105, 984, 2016, 1, 3, 2, 16, true) && ValidRules(JpRules())
    ensures Eligible(JpRules()[j], p) <==> j == 7
  {
    JpNumbers();
    JpIsValid();
    hide JpRules;
  }

  lemma {:induction false} LateChirp(r: Rule, d: Detector, pools: Pools, p: PulseInfo, mem: Memories)
    requires ValidRule(r) && r.priMin == 984 && r.ppbThresh == 2 && r.priMax - r.priMin != 2 * PRI_TOLERANCE
    requires Plentiful(mem) && Eligible(r, p) && p.ts == 1000 && Filled(r, d, 4, 64)
    ensures Feed(r, d, pools, p, false, mem).radar
  {
    hide Eligible;
    hide Takes;
    hide Duration;
    AcceptsMeaning(r, d, p);
    EmptyExtend(r, p.ts);
    var pool := PutAll(pools.pseq, []);
    NoCandidates(r, d.pulses, 3, p.ts, [], pool, mem.pseq);
    assert d.pulses[3].ts == 16 && d.pulses[4..] == [];
    Wrap32Fits(984);
    PriInRange(r, 984);
    hide PriToUse;
    var made := Create(r, d.pulses, 4, p.ts, 0, [], pool, mem.pseq);
    assert made.ok && Detects(r, made.sequences[0]);
  }

  lemma {:induction false} ChirpsUnreported(mem: Memories, m: nat)
    requires Plentiful(mem) && m <= 4
    ensures forall k :: 0 <= k < m ==> !ReportedAt(JpRules(), mem, [Start(false, true)], FiveChirps()[..4], k)
    decreases m
  {
    hide FeedBank;
    hide Feed;
    hide Eligible;
    hide Run;
    hide Reports;
    if m > 0 {
      ChirpsUnreported(mem, m - 1);
      var rules, burst, events := JpRules(), FiveChirps()[..4], [Start(false, true)];
      var s, p := Before(rules, mem, events, burst, m - 1), burst[m - 1];
      ChirpRule(p, 7);
      FirstFour();
      BurstFills(rules, mem, 7, burst, m - 1);
      StartOfCheck(rules, mem);
      BeforeStep(rules, mem, events, burst, 0);
      BurstAscends(rules[7], burst);
      InOrder(rules, mem, events, burst, m - 1);
      hide Before;
      hide JpRules;
      forall j | 0 <= j < |rules| ensures !Reports(rules, s, p, mem, j) { ChirpSilent(s, p, mem, m - 1, j); }
      if ReportedAt(rules, mem, events, burst, m - 1) { SomeRuleReports(rules, s, p, mem, |rules|); }
    }
  }

  lemma {:induction false} FirstFour()
    ensures Burst(JpRules()[7], FiveChirps()[..4])
  {
    forall k | 0 <= k < 4 ensures Eligible(JpRules()[7], FiveChirps()[k]) { ChirpRule(FiveChirps()[k], 7); }
  }

  lemma {:induction false} ChirpSilent(s: State, p: PulseInfo, mem: Memories, n: nat, j: nat)
    requires j < |JpRules()| == |s.detectors| && Plentiful(mem) && p.width == 60 && p.chirp && s.lastPulseTs <= p.ts
    requires n < 4 && Filled(JpRules()[7], s.detectors[7], n, n * PRI_TOLERANCE) && p.ts == (n + 1) * PRI_TOLERANCE
    ensures !Reports(JpRules(), s, p, mem, j)
  {
    hide Feed;
    hide Eligible;
    hide Filled;
    ChirpRule(p, j);
    if j != 7 {
      IneligibleIsSilent(JpRules(), s, p, mem, j);
    } else {
      var b := FeedBank(JpRules(), s.detectors, 7, s.pools, p, false, mem);
      if !b.radar { FillOne(JpRules()[7], s.detectors[7], b.pools, p, mem, n, n * PRI_TOLERANCE); }
    }
  }

  /** Pulses between the last two of a train when its sequence is created are in no count: here three of five, all
      accepted, are no part of the only train there is, and radar is reported although `nrPri` allows two. */
  lemma {:induction false} UncountedPulses(mem: Memories)
    requires Plentiful(mem)
    ensures var s := Before(JpRules(), mem, [Start(false, true)], FiveChirps(), 4);
            Filled(JpRules()[7], s.detectors[7], 4, 64) && ReportedAt(JpRules(), mem, [Start(false, true)], FiveChirps(), 4)
    ensures forall w, c: nat, pri: nat :: Train(JpRules()[7], w, c, pri) && EndsAt(w, 1000) && Within(w, [16, 32, 48, 64, 1000])
              ==> w == [16, 1000]
  {
    hide FeedBank;
    hide Feed;
    hide Eligible;
    hide Run;
    var rules, burst, events, p := JpRules(), FiveChirps()[..4], [Start(false, true)], FiveChirps()[4];
    ChirpRule(p, 7);
    ChirpsUnreported(mem, 4);
    FirstFour();
    BurstFills(rules, mem, 7, burst, 4);
    StartOfCheck(rules, mem);
    BeforeStep(rules, mem, events, burst, 0);
    BurstAscends(rules[7], burst);
    InOrder(rules, mem, events, burst, 4);
    assert burst[..4] == FiveChirps()[..4];
    var s := Before(rules, mem, events, burst, 4);
    assert s == Before(rules, mem, events, FiveChirps(), 4);
    hide Before;
    hide JpRules;
    if !AddPulse(rules, s, p, mem).radar {
      var at := FeedBankAt(rules, s.detectors, |rules|, s.pools, p, false, mem, 7);
      LateChirp(rules[7], s.detectors[7], at, p, mem);
    }
    forall w, c: nat, pri: nat | Train(rules[7], w, c, pri) && EndsAt(w, 1000) && Within(w, [16, 32, 48, 64, 1000])
      ensures w == [16, 1000]
    {
      OnlyTrain(rules[7], w, c, pri);
    }
  }

  lemma {:induction false} OnlyTrain(r: Rule, w: seq<nat>, c: nat, pri: nat)
    requires r.priMin == 984 && r.priMax == 2016 && r.tolerance == 16
    requires Train(r, w, c, pri) && EndsAt(w, 1000) && Within(w, [16, 32, 48, 64, 1000])
    ensures w == [16, 1000]
  {
    hide NearMultiple;
    assert w[c] in [16, 32, 48, 64, 1000] && w[c - 1] in [16, 32, 48, 64, 1000];
    assert w[c] == 1000 && w[c - 1] == 16;
    assert w[|w| - 1] == 1000 && w[0] in [16, 32, 48, 64, 1000];
  }
}
