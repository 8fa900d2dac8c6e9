/** Why the radar detector's specification is right: what a multiple is, what a new sequence counts, which
    pulses stand behind every sequence, and what every pulse keeps of the queues. */
module DfsSequences {
  import opened DfsSpec
  import Powers

  /** The table in numbers. */
  lemma {:induction false} EtsiNumbers()
    ensures EtsiRules()
            == [ Rule(0, 1, 1413, 1445, 1, 18, 9, 16, false), Rule(0, 5, 984, 5016, 1, 10, 5, 16, false),
              Rule(0, 16, 609, 5016, 1, 15, 8, 16, false), Rule(0, 16, 234, 451, 1, 25, 13, 16, false),
              Rule(19, 32, 234, 516, 1, 20, 10, 16, false), Rule(0, 2, 2484, 10015, 3, 30, 5, 16, false),
              Rule(0, 2, 817, 7516, 3, 45, 8, 16, false) ]
  {
    assert EtsiPattern(0, 1, 700, 700, 1, 18) == Rule(0, 1, 1413, 1445, 1, 18, 9, 16, false);
    assert EtsiPattern(0, 5, 200, 1000, 1, 10) == Rule(0, 5, 984, 5016, 1, 10, 5, 16, false);
    assert EtsiPattern(0, 15, 200, 1600, 1, 15) == Rule(0, 16, 609, 5016, 1, 15, 8, 16, false);
    assert EtsiPattern(0, 15, 2300, 4000, 1, 25) == Rule(0, 16, 234, 451, 1, 25, 13, 16, false);
    assert EtsiPattern(20, 30, 2000, 4000, 1, 20) == Rule(19, 32, 234, 516, 1, 20, 10, 16, false);
    assert EtsiPattern(0, 2, 300, 400, 3, 10) == Rule(0, 2, 2484, 10015, 3, 30, 5, 16, false);
    assert EtsiPattern(0, 2, 400, 1200, 3, 15) == Rule(0, 2, 817, 7516, 3, 45, 8, 16, false);
    hide EtsiPattern;
    hide IntervalPattern;
  }

  lemma {:induction false} EtsiIsValid()
    ensures ValidRules(EtsiRules())
  {
    EtsiNumbers();
    hide EtsiRules;
  }

  /** The table in numbers. */
  lemma {:induction false} FccNumbers()
    ensures FccRules()
            == [ Rule(0, 1, 1412, 1444, 1, 18, 9, 16, false), Rule(0, 1, 502, 954, 1, 57, 29, 16, false),
              Rule(0, 1, 922, 2016, 1, 27, 14, 16, false), Rule(0, 1, 1984, 3082, 1, 18, 9, 16, false),
              Rule(0, 5, 134, 246, 1, 23, 12, 16, false), Rule(6, 11, 184, 516, 1, 16, 8, 16, false),
              Rule(10, 21, 184, 516, 1, 12, 6, 16, false), Rule(48, 105, 984, 2016, 1, 1, 1, 16, true),
              Rule(0, 1, 317, 349, 1, 9, 5, 16, false) ]
  {
    assert IntervalPattern(0, 1, 1428, 1428, 18, 50, false) == Rule(0, 1, 1412, 1444, 1, 18, 9, 16, false);
    assert IntervalPattern(0, 1, 518, 938, 57, 50, false) == Rule(0, 1, 502, 954, 1, 57, 29, 16, false);
    assert IntervalPattern(0, 1, 938, 2000, 27, 50, false) == Rule(0, 1, 922, 2016, 1, 27, 14, 16, false);
    assert IntervalPattern(0, 1, 2000, 3066, 18, 50, false) == Rule(0, 1, 1984, 3082, 1, 18, 9, 16, false);
    assert IntervalPattern(0, 5, 150, 230, 23, 50, false) == Rule(0, 5, 134, 246, 1, 23, 12, 16, false);
    assert IntervalPattern(6, 10, 200, 500, 16, 50, false) == Rule(6, 11, 184, 516, 1, 16, 8, 16, false);
    assert IntervalPattern(11, 20, 200, 500, 12, 50, false) == Rule(10, 21, 184, 516, 1, 12, 6, 16, false);
    assert IntervalPattern(50, 100, 1000, 2000, 1, 50, true) == Rule(48, 105, 984, 2016, 1, 1, 1, 16, true);
    assert IntervalPattern(0, 1, 333, 333, 9, 50, false) == Rule(0, 1, 317, 349, 1, 9, 5, 16, false);
    hide EtsiPattern;
    hide IntervalPattern;
  }

  lemma {:induction false} FccIsValid()
    ensures ValidRules(FccRules())
  {
    FccNumbers();
    hide FccRules;
  }

  /** The table in numbers. */
  lemma {:induction false} JpNumbers()
    ensures JpRules()
            == [ Rule(0, 1, 1412, 1444, 1, 18, 5, 16, false), Rule(2, 3, 3830, 3862, 1, 18, 5, 16, false),
              Rule(0, 1, 1372, 1404, 1, 18, 9, 16, false), Rule(0, 4, 3984, 4016, 1, 18, 9, 16, false),
              Rule(0, 5, 134, 246, 1, 23, 12, 16, false), Rule(6, 11, 184, 516, 1, 16, 8, 16, false),
              Rule(10, 21, 184, 516, 1, 12, 6, 16, false), Rule(48, 105, 984, 2016, 1, 3, 2, 16, true),
              Rule(0, 1, 317, 349, 1, 9, 5, 16, false) ]
  {
    assert IntervalPattern(0, 1, 1428, 1428, 18, 29, false) == Rule(0, 1, 1412, 1444, 1, 18, 5, 16, false);
    assert IntervalPattern(2, 3, 3846, 3846, 18, 29, false) == Rule(2, 3, 3830, 3862, 1, 18, 5, 16, false);
    assert IntervalPattern(0, 1, 1388, 1388, 18, 50, false) == Rule(0, 1, 1372, 1404, 1, 18, 9, 16, false);
    assert IntervalPattern(0, 4, 4000, 4000, 18, 50, false) == Rule(0, 4, 3984, 4016, 1, 18, 9, 16, false);
    assert IntervalPattern(0, 5, 150, 230, 23, 50, false) == Rule(0, 5, 134, 246, 1, 23, 12, 16, false);
    assert IntervalPattern(6, 10, 200, 500, 16, 50, false) == Rule(6, 11, 184, 516, 1, 16, 8, 16, false);
    assert IntervalPattern(11, 20, 200, 500, 12, 50, false) == Rule(10, 21, 184, 516, 1, 12, 6, 16, false);
    assert IntervalPattern(50, 100, 1000, 2000, 3, 50, true) == Rule(48, 105, 984, 2016, 1, 3, 2, 16, true);
    assert IntervalPattern(0, 1, 333, 333, 9, 50, false) == Rule(0, 1, 317, 349, 1, 9, 5, 16, false);
    hide EtsiPattern;
    hide IntervalPattern;
  }

  lemma {:induction false} JpIsValid()
    ensures ValidRules(JpRules())
  {
    JpNumbers();
    hide JpRules;
  }

  /** The three tables satisfy what the other lemmas ask of a rule. */
  lemma {:induction false} TablesAreValid()
    ensures ValidRules(EtsiRules()) && ValidRules(FccRules()) && ValidRules(JpRules())
  {
    EtsiIsValid();
    FccIsValid();
    JpIsValid();
  }

  // ----- multiples

  lemma {:induction false} MultipleIsSound(val: nat, f: nat, tol: nat)
    requires f > 0 && GetMultiple(val, f, tol) > 0
    ensures Near(val, GetMultiple(val, f, tol), f, tol)
  {
    hide GetMultiple;
    MultipleIs(val, f, tol);
    Powers.DivMod(val, f);
    NearQuotient(val, val / f, val % f, f, tol);
  }

  lemma {:induction false} NearQuotient(val: nat, q: nat, rem: nat, f: nat, tol: nat)
    requires val == q * f + rem && 0 <= rem < f
    ensures val - f <= tol && f - val <= tol ==> Near(val, 1, f, tol)
    ensures rem <= tol ==> Near(val, q, f, tol)
    ensures f - rem <= tol ==> Near(val, q + 1, f, tol)
  {
    assert (q + 1) * f == q * f + f;
  }

  lemma {:induction false} MultipleIs(val: nat, f: nat, tol: nat)
    requires f > 0 && GetMultiple(val, f, tol) > 0
    ensures var g := GetMultiple(val, f, tol); var q, rem := val / f, val % f;
            || (g == 1 && val - f <= tol && f - val <= tol)
            || (g == q && rem <= tol)
            || (g == q + 1 && f - rem <= tol && 0 <= rem < f)
  {
  }

  lemma {:induction false} MultipleIsComplete(val: nat, f: nat, tol: nat, k: nat)
    requires f > 0 && k >= 1 && Near(val, k, f, tol)
    ensures GetMultiple(val, f, tol) > 0
  {
    var q := val / f;
    assert val == q * f + val % f;
    if k <= q {
      assert k * f <= q * f by { MulMonotone(k, q, f); }
    } else {
      assert q * f + f <= k * f by { MulMonotone(q + 1, k, f); assert (q + 1) * f == q * f + f; }
      assert q == 0 ==> q * f == 0;
      assert 1 * f <= k * f by { MulMonotone(1, k, f); }
    }
  }

  lemma {:induction false} MulMonotone(a: nat, b: nat, f: nat)
    requires a <= b
    ensures a * f <= b * f
  {
  }

  /** Sound and complete: a positive answer is a multiple within tolerance, and it is given whenever one exists. */
  lemma {:induction false} MultipleMeaning(val: nat, f: nat, tol: nat)
    ensures f == 0 ==> GetMultiple(val, f, tol) == 0
    ensures f > 0 ==> (GetMultiple(val, f, tol) > 0 <==> NearMultiple(val, f, tol))
    ensures GetMultiple(val, f, tol) > 0 ==> Near(val, GetMultiple(val, f, tol), f, tol)
  {
    if GetMultiple(val, f, tol) > 0 { MultipleIsSound(val, f, tol); }
    if f > 0 && NearMultiple(val, f, tol) {
      var k: nat :| k >= 1 && Near(val, k, f, tol);
      MultipleIsComplete(val, f, tol, k);
    }
  }

  lemma {:induction false} NearIsPositive(val: int, f: nat, tol: nat)
    requires f > tol && NearMultiple(val, f, tol)
    ensures val > 0
  {
    var k: nat :| k >= 1 && Near(val, k, f, tol);
    MulMonotone(1, k, f);
  }

  // ----- queue order

  /** Newest first, neighbours at least `gap` apart, nothing newer than `now`. */
  ghost predicate Sorted(ps: seq<Pulse>, gap: nat, now: nat) {
    && now < U32
    && (forall i :: 0 <= i < |ps| ==> ps[i].ts <= now)
    && (forall i, j :: 0 <= i < j < |ps| ==> ps[i].ts >= ps[j].ts + gap)
  }

  // ----- what a new sequence counts

  lemma {:induction false} Wrap32Fits(x: nat)
    requires x < U32
    ensures Wrap32(x) == x
  {
  }

  /** A difference of two 32-bit values, held in 64 bits: a negative one becomes huge. */
  lemma {:induction false} Wrap64Fits(x: int)
    requires -U32 < x < U32
    ensures Wrap64(x) == if x >= 0 then x else x + U64
  {
  }

  /** Whether a pulse passes the distance test against a left-over `lastTs`; an earlier one does, because the difference
      wraps. */
  predicate Heard(r: Rule, d: Detector, ts: nat) { ts < d.lastTs || d.lastTs + r.tolerance <= ts }

  /** Width and chirp fit the rule, and the pulse is not within the tolerance after the last one. */
  ghost predicate Takes(r: Rule, d: Detector, p: PulseInfo) {
    && r.widthMin <= p.width <= r.widthMax && (r.chirp ==> p.chirp)
    && (p.ts < d.lastTs || p.ts - d.lastTs >= r.tolerance)
  }

  lemma {:induction false} AcceptsMeaning(r: Rule, d: Detector, p: PulseInfo)
    requires ValidRule(r) && p.ts < U32 && d.lastTs < U32
    ensures Accepts(r, d, p) <==> Eligible(r, p) && Heard(r, d, p.ts)
    ensures Accepts(r, d, p) <==> Takes(r, d, p)
  {
    hide Wrap64;
    Wrap64Fits(p.ts - d.lastTs);
  }

  lemma {:induction false} DurationIsWord(r: Rule, pri: nat)
    ensures Duration(r, pri) < U32
  {
  }

  lemma {:induction false} DurationBound(r: Rule, pri: nat)
    requires ValidRule(r) && pri <= r.priMax
    ensures Duration(r, pri) == pri * (r.ppb - 1) + 2 * r.tolerance
    ensures r.ppb >= 2 ==> Duration(r, pri) >= pri + 2 * r.tolerance
  {
    assert pri * (r.ppb - 1) <= 0x1_0000 * 0x100 by {
      MulMonotone(pri, 0x1_0000, r.ppb - 1);
      assert 0x1_0000 * (r.ppb - 1) <= 0x1_0000 * 0x100;
    }
    if r.ppb >= 2 { assert pri * (r.ppb - 1) >= pri * 1 by { MulMonotone(1, r.ppb - 1, pri); } }
  }

  /** A match in terms of plain time: inside a window that does not start before zero, a multiple older. */
  lemma {:induction false} MatchMeaning(r: Rule, pri: nat, ts: nat, q: Pulse)
    requires ValidRule(r) && 0 < pri <= r.priMax && q.ts <= ts < U32
    ensures Match(r, pri, ts, q) <==>
            Duration(r, pri) <= ts && ts - q.ts <= Duration(r, pri) && NearMultiple(ts - q.ts, pri, r.tolerance)
  {
    hide GetMultiple;
    hide NearMultiple;
    hide Duration;
    hide Wrap32;
    hide Wrap64;
    MultipleMeaning(ts - q.ts, pri, r.tolerance);
    DurationIsWord(r, pri);
    Wrap32Fits(ts - q.ts);
    Wrap64Fits(ts - Duration(r, pri));
  }

  /** The timestamps of the matches, oldest first. */
  function MatchTimes(r: Rule, pri: nat, ts: nat, older: seq<Pulse>): seq<nat>
    decreases |older|
  {
    if older == [] then []
    else
      var rest := MatchTimes(r, pri, ts, older[..|older| - 1]);
      if Match(r, pri, ts, older[|older| - 1]) then [older[|older| - 1].ts] + rest else rest
  }

  ghost predicate Ascending(w: seq<nat>) {
    forall i, j :: 0 <= i < j < |w| ==> w[i] < w[j]
  }

  /** `t` is the timestamp of a matching pulse. */
  ghost predicate MatchTime(r: Rule, pri: nat, ts: nat, older: seq<Pulse>, t: nat) {
    exists i :: 0 <= i < |older| && older[i].ts == t && Match(r, pri, ts, older[i])
  }

  lemma {:induction false} MatchTimesShape(r: Rule, pri: nat, ts: nat, older: seq<Pulse>, default: nat)
    ensures var w := MatchTimes(r, pri, ts, older);
            && |w| == Matches(r, pri, ts, older)
            && OldestMatch(r, pri, ts, older, default) == (if w == [] then default else w[0])
    decreases |older|
  {
    if older != [] { MatchTimesShape(r, pri, ts, older[..|older| - 1], default); }
  }

  lemma {:induction false} MatchTimesSound(r: Rule, pri: nat, ts: nat, older: seq<Pulse>, k: nat)
    requires k < |MatchTimes(r, pri, ts, older)|
    ensures MatchTime(r, pri, ts, older, MatchTimes(r, pri, ts, older)[k])
    decreases |older|
  {
    var init, last := older[..|older| - 1], older[|older| - 1];
    if !Match(r, pri, ts, last) {
      MatchTimesSound(r, pri, ts, init, k);
    } else if k > 0 {
      MatchTimesSound(r, pri, ts, init, k - 1);
    }
  }

  lemma {:induction false} MatchTimesComplete(r: Rule, pri: nat, ts: nat, older: seq<Pulse>, i: nat)
    requires i < |older| && Match(r, pri, ts, older[i])
    ensures older[i].ts in MatchTimes(r, pri, ts, older)
    decreases |older|
  {
    if i < |older| - 1 { MatchTimesComplete(r, pri, ts, older[..|older| - 1], i); }
  }

  lemma {:induction false} MatchTimesAscend(r: Rule, pri: nat, ts: nat, older: seq<Pulse>)
    requires forall i, j :: 0 <= i < j < |older| ==> older[i].ts > older[j].ts
    ensures Ascending(MatchTimes(r, pri, ts, older))
    decreases |older|
  {
    if older != [] {
      var init := older[..|older| - 1];
      MatchTimesAscend(r, pri, ts, init);
      forall k: nat | k < |MatchTimes(r, pri, ts, init)|
        ensures MatchTimes(r, pri, ts, init)[k] > older[|older| - 1].ts
      {
        MatchTimesSound(r, pri, ts, init, k);
      }
    }
  }

  /** Stored pulses with `lo <= ts < hi`. */
  function Between(ps: seq<Pulse>, lo: nat, hi: nat): nat
    decreases |ps|
  {
    if ps == [] then 0
    else Between(ps[..|ps| - 1], lo, hi) + (if lo <= ps[|ps| - 1].ts < hi then 1 else 0)
  }

  lemma {:induction false} BetweenAll(ps: seq<Pulse>, lo: nat, hi: nat)
    requires forall i :: 0 <= i < |ps| ==> lo <= ps[i].ts < hi
    ensures Between(ps, lo, hi) == |ps|
    decreases |ps|
  {
    if ps != [] { BetweenAll(ps[..|ps| - 1], lo, hi); }
  }

  lemma {:induction false} BetweenNone(ps: seq<Pulse>, lo: nat, hi: nat)
    requires forall i :: 0 <= i < |ps| ==> !(lo <= ps[i].ts < hi)
    ensures Between(ps, lo, hi) == 0
    decreases |ps|
  {
    if ps != [] { BetweenNone(ps[..|ps| - 1], lo, hi); }
  }

  lemma {:induction false} BetweenSkips(a: seq<Pulse>, b: seq<Pulse>, lo: nat, hi: nat)
    requires forall i :: 0 <= i < |a| ==> !(lo <= a[i].ts < hi)
    ensures Between(a + b, lo, hi) == Between(b, lo, hi)
    decreases |b|
  {
    if b == [] {
      assert a + b == a;
      BetweenNone(a, lo, hi);
    } else {
      assert (a + b)[..|a + b| - 1] == a + b[..|b| - 1];
      BetweenSkips(a, b[..|b| - 1], lo, hi);
    }
  }

  lemma {:induction false} FalsesMeaning(r: Rule, pri: nat, ts: nat, older: seq<Pulse>, hi: nat)
    requires forall i, j :: 0 <= i < j < |older| ==> older[i].ts > older[j].ts
    requires forall i :: 0 <= i < |older| ==> older[i].ts < hi
    ensures Matches(r, pri, ts, older) + FalsesBeforeOldest(r, pri, ts, older)
            == Between(older, OldestMatch(r, pri, ts, older, hi), hi)
    decreases |older|
  {
    if older != [] {
      var init, last := older[..|older| - 1], older[|older| - 1];
      if Match(r, pri, ts, last) {
        BetweenAll(older, last.ts, hi);
        MatchesAtMost(r, pri, ts, init);
      } else {
        FalsesMeaning(r, pri, ts, init, hi);
        MatchTimesShape(r, pri, ts, init, hi);
        if MatchTimes(r, pri, ts, init) != [] { MatchTimesSound(r, pri, ts, init, 0); }
        assert last.ts < OldestMatch(r, pri, ts, init, hi);
      }
    }
  }

  lemma {:induction false} PriInRange(r: Rule, delta: nat)
    requires ValidRule(r) && r.priMin <= delta <= r.priMax
    ensures r.priMin <= PriToUse(r, delta) <= r.priMax
    ensures PriToUse(r, delta) == if r.priMax - r.priMin == 2 * PRI_TOLERANCE then r.priMin + PRI_TOLERANCE else delta
    ensures NearMultiple(delta, PriToUse(r, delta), r.tolerance)
  {
    assert Near(delta, 1, PriToUse(r, delta), r.tolerance);
  }

  /** The oldest matching pulse, against the set of all matching ones. */
  lemma {:induction false} OldestMatchMeaning(r: Rule, pri: nat, ts: nat, older: seq<Pulse>, default: nat)
    requires forall i, j :: 0 <= i < j < |older| ==> older[i].ts > older[j].ts
    requires forall i :: 0 <= i < |older| ==> older[i].ts < default
    ensures var first := OldestMatch(r, pri, ts, older, default);
            && first <= default
            && (forall i :: 0 <= i < |older| && Match(r, pri, ts, older[i]) ==> first <= older[i].ts)
            && (first == default || MatchTime(r, pri, ts, older, first))
            && (first == default <==> Matches(r, pri, ts, older) == 0)
  {
    var w := MatchTimes(r, pri, ts, older);
    MatchTimesShape(r, pri, ts, older, default);
    MatchTimesAscend(r, pri, ts, older);
    if w != [] { MatchTimesSound(r, pri, ts, older, 0); }
    forall i | 0 <= i < |older| && Match(r, pri, ts, older[i])
      ensures OldestMatch(r, pri, ts, older, default) <= older[i].ts
    {
      MatchTimesComplete(r, pri, ts, older, i);
    }
  }

  lemma {:induction false} NoMatches(r: Rule, pri: nat, ts: nat, older: seq<Pulse>)
    requires ValidRule(r) && 0 < pri <= r.priMax && ts < Duration(r, pri) && Sorted(older, 0, ts)
    ensures Matches(r, pri, ts, older) == 0
    decreases |older|
  {
    if older != [] {
      MatchMeaning(r, pri, ts, older[|older| - 1]);
      NoMatches(r, pri, ts, older[..|older| - 1]);
    }
  }

  ghost function MatchingSet(r: Rule, pri: nat, ts: nat, older: seq<Pulse>): set<Pulse> {
    set q | q in older && Match(r, pri, ts, q)
  }

  lemma {:induction false} MatchingSetGrows(r: Rule, pri: nat, ts: nat, init: seq<Pulse>, last: Pulse)
    ensures MatchingSet(r, pri, ts, init + [last])
            == MatchingSet(r, pri, ts, init) + (if Match(r, pri, ts, last) then {last} else {})
  {
    hide Match;
    var older := init + [last];
    assert forall q :: q in older <==> q in init || q == last;
  }

  lemma {:induction false} MatchingSetIsNew(r: Rule, pri: nat, ts: nat, init: seq<Pulse>, last: Pulse)
    requires forall k :: 0 <= k < |init| ==> init[k].ts > last.ts
    ensures last !in MatchingSet(r, pri, ts, init) && MatchingSet(r, pri, ts, []) == {}
  {
    hide Match;
  }

  lemma {:induction false} MatchSet(r: Rule, pri: nat, ts: nat, older: seq<Pulse>)
    requires forall i, j :: 0 <= i < j < |older| ==> older[i].ts > older[j].ts
    ensures |MatchingSet(r, pri, ts, older)| == Matches(r, pri, ts, older)
    decreases |older|
  {
    hide Match;
    hide MatchingSet;
    if older == [] {
      MatchingSetIsNew(r, pri, ts, older, Pulse(0, 0));
    } else {
      var init, last := older[..|older| - 1], older[|older| - 1];
      assert older == init + [last];
      MatchSet(r, pri, ts, init);
      MatchingSetGrows(r, pri, ts, init, last);
      MatchingSetIsNew(r, pri, ts, init, last);
    }
  }

  lemma {:induction false} NewSequenceTally(r: Rule, pulses: seq<Pulse>, i: nat, ts: nat, pri: nat)
    requires i < |pulses| && Sorted(pulses, 1, ts)
    ensures var older := pulses[i + 1..];
            Matches(r, pri, ts, older) + FalsesBeforeOldest(r, pri, ts, older)
            == Between(pulses, OldestMatch(r, pri, ts, older, pulses[i].ts), pulses[i].ts)
  {
    hide Match;
    var older := pulses[i + 1..];
    FalsesMeaning(r, pri, ts, older, pulses[i].ts);
    assert pulses == pulses[..i + 1] + older;
    BetweenSkips(pulses[..i + 1], older, OldestMatch(r, pri, ts, older, pulses[i].ts), pulses[i].ts);
  }

  /** A new sequence, against the queue it is built from: it counts the new pulse, the previous one and every
      older stored pulse that matches; it starts at the oldest of these; and together with its false pulses it
      accounts for each stored pulse from there up to the previous one. Near time zero it counts just two. */
  lemma {:induction false} NewSequenceMeaning(r: Rule, pulses: seq<Pulse>, i: nat, ts: nat)
    requires ValidRule(r) && i < |pulses| && Sorted(pulses, r.tolerance, ts) && Candidate(r, pulses[i], ts)
    ensures var ps := NewSequence(r, pulses, i, ts);
            var older := pulses[i + 1..];
            && ps.count == 2 + |MatchingSet(r, ps.pri, ts, older)|
            && ps.lastTs == ts && ps.deadlineTs == ps.firstTs + ps.dur
            && (ps.firstTs == pulses[i].ts || MatchTime(r, ps.pri, ts, older, ps.firstTs))
            && (forall k :: 0 <= k < |older| && Match(r, ps.pri, ts, older[k]) ==> ps.firstTs <= older[k].ts)
            && ps.count + ps.falses == 2 + Between(pulses, ps.firstTs, pulses[i].ts)
            && (ts < ps.dur ==> ps.count == 2 && ps.firstTs == pulses[i].ts)
  {
    hide Match;
    hide MatchingSet;
    hide Between;
    hide MatchTime;
    hide NearMultiple;
    var ps := NewSequence(r, pulses, i, ts);
    var older := pulses[i + 1..];
    OldestMatchMeaning(r, ps.pri, ts, older, pulses[i].ts);
    NewSequenceTally(r, pulses, i, ts, ps.pri);
    MatchSet(r, ps.pri, ts, older);
    PriInRange(r, Wrap32(ts - pulses[i].ts));
    if ts < ps.dur { NoMatches(r, ps.pri, ts, older); }
  }

  // ----- the pulses behind a sequence

  /** The pulse `w[c]` was the `k`-th accepted one: the pulses of `w` before it were stored then, and those after it were
      accepted later. */
  ghost predicate Born(w: seq<nat>, c: nat, history: seq<nat>, queues: seq<seq<Pulse>>, k: nat) {
    && 1 <= c < |w| && k < |history| == |queues| && history[k] == w[c]
    && (forall m :: 0 <= m < c ==> StoredIn(queues[k], w[m]))
    && (forall m :: c < m < |w| ==> w[m] in history[k + 1..])
  }

  ghost predicate StoredIn(ps: seq<Pulse>, t: nat) { exists j :: 0 <= j < |ps| && ps[j].ts == t }

  /** The pulses that do not match: of those stored when the sequence was created, the ones from its first pulse up to
      the one before `w[c]`, and all pulses accepted later. */
  ghost function FalsePulses(w: seq<nat>, c: nat, stored: seq<Pulse>, later: nat): int
    requires 1 <= c < |w|
  {
    (Between(stored, w[0], w[c - 1]) - (c - 1)) + (later - (|w| - 1 - c))
  }

  /** `w` lists distinct accepted pulses, oldest first, of which `w[c]` created the sequence: those before it lie
      a multiple of the interval before `w[c]`, each one after it a multiple after its predecessor. */
  ghost predicate Witness(r: Rule, ps: PriSequence, w: seq<nat>, c: nat) {
    && |w| == ps.count && 1 <= c < |w|
    && Ascending(w) && w[0] == ps.firstTs && w[|w| - 1] == ps.lastTs
    && r.priMin <= ps.pri <= r.priMax && IntervalOf(r, w[c] - w[c - 1], ps.pri)
    && (forall k :: 0 <= k < c ==> NearMultiple(w[c] - w[k], ps.pri, r.tolerance))
    && (forall k :: c < k < |w| ==> NearMultiple(w[k] - w[k - 1], ps.pri, r.tolerance))
    && ps.dur == Duration(r, ps.pri) && ps.deadlineTs == ps.firstTs + ps.dur
    && (r.ppb >= 2 ==> ps.lastTs - ps.firstTs <= ps.dur)
  }

  /** The interval taken for two pulses `delta` apart: the rule's own if it has just one. */
  ghost predicate IntervalOf(r: Rule, delta: int, pri: nat) {
    pri == if r.priMax - r.priMin == 2 * PRI_TOLERANCE then r.priMin + PRI_TOLERANCE else delta
  }

  ghost predicate Supported(r: Rule, ps: PriSequence, history: seq<nat>, queues: seq<seq<Pulse>>) {
    exists w: seq<nat>, c: nat, k: nat :: Backs(r, ps, w, c, k, history, queues)
  }

  ghost predicate Backs(r: Rule, ps: PriSequence, w: seq<nat>, c: nat, k: nat, history: seq<nat>, queues: seq<seq<Pulse>>) {
    && Witness(r, ps, w, c) && Born(w, c, history, queues, k)
    && ps.falses == FalsePulses(w, c, queues[k], |history| - 1 - k)
  }

  ghost predicate AllSupported(r: Rule, ss: seq<PriSequence>, history: seq<nat>, queues: seq<seq<Pulse>>) {
    forall i :: 0 <= i < |ss| ==> Supported(r, ss[i], history, queues)
  }

  /** One more accepted pulse, which joins the sequence or does not. */
  lemma {:induction false} BornLater(w: seq<nat>, c: nat, history: seq<nat>, queues: seq<seq<Pulse>>, k: nat, ts: nat,
                                     queue: seq<Pulse>)
    requires Born(w, c, history, queues, k)
    ensures Born(w, c, history + [ts], queues + [queue], k) && Born(w + [ts], c, history + [ts], queues + [queue], k)
  {
    assert (history + [ts])[k + 1..] == history[k + 1..] + [ts];
  }

  lemma {:induction false} WitnessGrows(r: Rule, ps: PriSequence, w: seq<nat>, c: nat, ts: nat)
    requires ValidRule(r) && Witness(r, ps, w, c) && ps.lastTs <= ts < U32 && ts <= ps.deadlineTs
    ensures if Hits(r, ps, ts) then Witness(r, ExtendOne(r, ps, ts), w + [ts], c) else Witness(r, ExtendOne(r, ps, ts), w, c)
  {
    hide NearMultiple;
    hide GetMultiple;
    hide Duration;
    if Hits(r, ps, ts) {
      MultipleMeaning(ts - ps.lastTs, ps.pri, r.tolerance);
      NearIsPositive(ts - ps.lastTs, ps.pri, r.tolerance);
    }
  }

  lemma {:induction false} BackingGrows(r: Rule, ps: PriSequence, w: seq<nat>, c: nat, k: nat, history: seq<nat>,
                                        queues: seq<seq<Pulse>>, ts: nat, queue: seq<Pulse>)
    requires ValidRule(r) && Backs(r, ps, w, c, k, history, queues)
    requires ts < U32 && (forall t :: t in history ==> t <= ts) && ts <= ps.deadlineTs
    ensures Backs(r, ExtendOne(r, ps, ts), if Hits(r, ps, ts) then w + [ts] else w, c, k, history + [ts], queues + [queue])
  {
    hide Witness;
    hide Hits;
    hide Between;
    hide Born;
    BornLater(w, c, history, queues, k, ts, queue);
    BornInside(w, c, history, queues, k);
    WitnessShape(r, ps, w, c);
    WitnessGrows(r, ps, w, c, ts);
    assert (queues + [queue])[k] == queues[k];
  }

  lemma {:induction false} ExtendOneSupported(r: Rule, ps: PriSequence, history: seq<nat>, queues: seq<seq<Pulse>>,
                                              ts: nat, queue: seq<Pulse>)
    requires ValidRule(r) && Supported(r, ps, history, queues)
    requires ts < U32 && (forall t :: t in history ==> t <= ts) && ts <= ps.deadlineTs
    ensures Supported(r, ExtendOne(r, ps, ts), history + [ts], queues + [queue])
  {
    hide Backs;
    hide Hits;
    var w: seq<nat>, c: nat, k: nat :| Backs(r, ps, w, c, k, history, queues);
    BackingGrows(r, ps, w, c, k, history, queues, ts, queue);
  }

  lemma {:induction false} BornInside(w: seq<nat>, c: nat, history: seq<nat>, queues: seq<seq<Pulse>>, k: nat)
    requires Born(w, c, history, queues, k)
    ensures k < |history| == |queues| && w[|w| - 1] in history
  {
  }

  lemma {:induction false} WitnessShape(r: Rule, ps: PriSequence, w: seq<nat>, c: nat)
    requires Witness(r, ps, w, c)
    ensures 1 <= c < |w| && w[|w| - 1] == ps.lastTs
  {
  }

  lemma {:induction false} ExtendSupported(r: Rule, ss: seq<PriSequence>, history: seq<nat>, queues: seq<seq<Pulse>>,
                                           ts: nat, queue: seq<Pulse>)
    requires ValidRule(r) && AllSupported(r, ss, history, queues)
    requires ts < U32 && (forall t :: t in history ==> t <= ts)
    ensures AllSupported(r, Extend(r, ss, ts), history + [ts], queues + [queue])
    decreases |ss|
  {
    hide Supported;
    if ss != [] {
      ExtendSupported(r, ss[..|ss| - 1], history, queues, ts, queue);
      if ts <= ss[|ss| - 1].deadlineTs { ExtendOneSupported(r, ss[|ss| - 1], history, queues, ts, queue); }
    }
  }

  lemma {:induction false} MatchTimesSupport(r: Rule, pulses: seq<Pulse>, i: nat, ts: nat, pri: nat, k: nat)
    requires ValidRule(r) && i < |pulses| && Sorted(pulses, r.tolerance, ts) && 0 < pri <= r.priMax
    requires k < |MatchTimes(r, pri, ts, pulses[i + 1..])|
    ensures var t := MatchTimes(r, pri, ts, pulses[i + 1..])[k];
            && t < pulses[i].ts && ts - t <= Duration(r, pri) && NearMultiple(ts - t, pri, r.tolerance)
            && StoredIn(pulses, t)
  {
    var older := pulses[i + 1..];
    MatchTimesSound(r, pri, ts, older, k);
    var j :| 0 <= j < |older| && older[j].ts == MatchTimes(r, pri, ts, older)[k] && Match(r, pri, ts, older[j]);
    MatchMeaning(r, pri, ts, older[j]);
    assert pulses[i + 1 + j] == older[j];
  }

  lemma {:induction false} CreationWitness(r: Rule, ps: PriSequence, times: seq<nat>, prev: nat, ts: nat, pulses: seq<Pulse>,
                                           history: seq<nat>, queues: seq<seq<Pulse>>)
    requires Ascending(times) && prev < ts && StoredIn(pulses, prev) && |history| == |queues|
    requires forall k :: 0 <= k < |times| ==>
               && times[k] < prev && StoredIn(pulses, times[k])
               && NearMultiple(ts - times[k], ps.pri, r.tolerance)
    requires NearMultiple(ts - prev, ps.pri, r.tolerance)
    requires ps.count == |times| + 2 && ps.firstTs == (if times == [] then prev else times[0]) && ps.lastTs == ts
    requires ps.falses == Between(pulses, ps.firstTs, prev) - |times|
    requires r.priMin <= ps.pri <= r.priMax && IntervalOf(r, ts - prev, ps.pri)
    requires ps.dur == Duration(r, ps.pri) && ps.deadlineTs == ps.firstTs + ps.dur
    requires r.ppb >= 2 ==> ts - ps.firstTs <= ps.dur
    ensures Supported(r, ps, history + [ts], queues + [pulses])
  {
    hide Between;
    var w := times + [prev, ts];
    var c := |times| + 1;
    assert forall k :: 0 <= k < c ==> w[k] <= prev && StoredIn(pulses, w[k]);
    assert w[0] == ps.firstTs && w[c] == ts && w[c - 1] == prev;
    assert Witness(r, ps, w, c);
    assert Backs(r, ps, w, c, |history|, history + [ts], queues + [pulses]);
  }

  lemma {:induction false} NewSequenceSupported(r: Rule, pulses: seq<Pulse>, i: nat, ts: nat, history: seq<nat>,
                                                queues: seq<seq<Pulse>>, id: nat)
    requires ValidRule(r) && i < |pulses| && Sorted(pulses, r.tolerance, ts) && Candidate(r, pulses[i], ts)
    requires |history| == |queues|
    ensures Supported(r, NewSequence(r, pulses, i, ts).(id := id), history + [ts], queues + [pulses])
  {
    hide NearMultiple;
    hide MatchTimes;
    hide Wrap32;
    hide Between;
    Wrap32Fits(ts - pulses[i].ts);
    var ps := NewSequence(r, pulses, i, ts);
    var older := pulses[i + 1..];
    var times := MatchTimes(r, ps.pri, ts, older);
    MatchTimesShape(r, ps.pri, ts, older, pulses[i].ts);
    MatchTimesAscend(r, ps.pri, ts, older);
    NewSequenceTally(r, pulses, i, ts, ps.pri);
    PriInRange(r, Wrap32(ts - pulses[i].ts));
    DurationBound(r, ps.pri);
    forall k: nat | k < |times|
      ensures times[k] < pulses[i].ts && StoredIn(pulses, times[k]) && NearMultiple(ts - times[k], ps.pri, r.tolerance)
      ensures ts - times[k] <= ps.dur
    {
      MatchTimesSupport(r, pulses, i, ts, ps.pri, k);
    }
    CreationWitness(r, ps.(id := id), times, pulses[i].ts, ts, pulses, history, queues);
  }

  lemma {:induction false} CreateSupported(r: Rule, pulses: seq<Pulse>, n: nat, ts: nat, minCount: nat,
                                           ss: seq<PriSequence>, pool: Pool, mem: Memory, history: seq<nat>, queues: seq<seq<Pulse>>)
    requires ValidRule(r) && n <= |pulses| && Sorted(pulses, r.tolerance, ts) && |history| == |queues|
    requires AllSupported(r, ss, history + [ts], queues + [pulses])
    ensures AllSupported(r, Create(r, pulses, n, ts, minCount, ss, pool, mem).sequences, history + [ts], queues + [pulses])
    decreases n
  {
    hide Supported;
    if n > 0 {
      CreateSupported(r, pulses, n - 1, ts, minCount, ss, pool, mem, history, queues);
      var prev := Create(r, pulses, n - 1, ts, minCount, ss, pool, mem);
      if Candidate(r, pulses[n - 1], ts) {
        NewSequenceSupported(r, pulses, n - 1, ts, history, queues, Get(prev.pool, mem).id);
      }
    }
  }

  /** Every unexpired sequence stays, in order, and books the pulse exactly once, as a match or as a false one. */
  lemma {:induction false} ExtendBooksOnce(r: Rule, ss: seq<PriSequence>, ts: nat)
    ensures var u := Unexpired(ss, ts);
            var e := Extend(r, ss, ts);
            && |e| == |u|
            && (forall k :: 0 <= k < |u| ==>
                  && e[k].count + e[k].falses == u[k].count + u[k].falses + 1
                  && (e[k].count > u[k].count <==> Hits(r, u[k], ts))
                  && e[k].(count := u[k].count, falses := u[k].falses, lastTs := u[k].lastTs) == u[k])
            && multiset(SeqIds(ss)) == multiset(SeqIds(e)) + multiset(Expired(ss, ts))
    decreases |ss|
  {
    if ss != [] {
      var init, last := ss[..|ss| - 1], ss[|ss| - 1];
      ExtendBooksOnce(r, init, ts);
      assert SeqIds(ss) == SeqIds(init) + [last.id];
      var e := Extend(r, init, ts);
      assert SeqIds(e + [ExtendOne(r, last, ts)]) == SeqIds(e) + [last.id];
    }
  }

  function Unexpired(ss: seq<PriSequence>, ts: nat): seq<PriSequence>
    decreases |ss|
  {
    if ss == [] then []
    else
      var rest := Unexpired(ss[..|ss| - 1], ts);
      if ts > ss[|ss| - 1].deadlineTs then rest else rest + [ss[|ss| - 1]]
  }

  /** `count` is larger than what any sequence counts that the pulse has just extended. */
  ghost predicate Beats(r: Rule, ss: seq<PriSequence>, ts: nat, count: nat) {
    forall k :: 0 <= k < |ss| && ts <= ss[k].deadlineTs && Hits(r, ss[k], ts) ==> count > ss[k].count + 1
  }

  lemma {:induction false} BeatsMeaning(r: Rule, ss: seq<PriSequence>, ts: nat, count: nat)
    requires count > 0
    ensures count > MaxUpdated(r, ss, ts) <==> Beats(r, ss, ts, count)
    decreases |ss|
  {
    hide Hits;
    if ss != [] {
      var init, last := ss[..|ss| - 1], ss[|ss| - 1];
      assert ss == init + [last];
      BeatsMeaning(r, init, ts, count);
      assert forall k :: 0 <= k < |init| ==> init[k] == ss[k];
    }
  }

  /** The stored pulse is at a distance that is an interval of the rule, and no sequence that the pulse extends counts as
      many pulses as the new one would. */
  ghost predicate Starter(r: Rule, pulses: seq<Pulse>, i: nat, ts: nat, before: seq<PriSequence>)
    requires i < |pulses|
  {
    r.priMin <= ts - pulses[i].ts <= r.priMax && Beats(r, before, ts, NewSequence(r, pulses, i, ts).count)
  }

  /** The new sequences, in front of the old ones and the latest in front: one for each stored pulse that starts one. */
  ghost predicate NewOnes(r: Rule, pulses: seq<Pulse>, n: nat, ts: nat, before: seq<PriSequence>, ss: seq<PriSequence>,
                          from: seq<nat>)
    requires n <= |pulses|
  {
    && |from| <= |ss|
    && (forall a, b :: 0 <= a < b < |from| ==> from[a] > from[b])
    && (forall i :: 0 <= i < n ==>
          (i in from <==> Starter(r, pulses, i, ts, before)))
    && (forall k :: 0 <= k < |from| ==> from[k] < n && ss[k].(id := 0) == NewSequence(r, pulses, from[k], ts))
  }

  lemma {:induction false} CreateMeaning(r: Rule, pulses: seq<Pulse>, n: nat, ts: nat, before: seq<PriSequence>,
                                         ss: seq<PriSequence>, pool: Pool, mem: Memory) returns (from: seq<nat>)
    requires n <= |pulses| && Sorted(pulses, r.tolerance, ts)
    requires Create(r, pulses, n, ts, MaxUpdated(r, before, ts), ss, pool, mem).ok
    ensures var made := Create(r, pulses, n, ts, MaxUpdated(r, before, ts), ss, pool, mem).sequences;
            NewOnes(r, pulses, n, ts, before, made, from) && made[|from|..] == ss
    decreases n
  {
    hide Get;
    hide Sorted;
    hide NewSequence;
    hide MaxUpdated;
    hide Candidate;
    hide NewOnes;
    hide Starter;
    from := [];
    NoNewOnes(r, pulses, ts, before, ss);
    if n > 0 {
      var prev := Create(r, pulses, n - 1, ts, MaxUpdated(r, before, ts), ss, pool, mem);
      from := CreateMeaning(r, pulses, n - 1, ts, before, ss, pool, mem);
      StarterMeaning(r, pulses, n - 1, ts, before);
      NewOnesGrow(r, pulses, n - 1, ts, before, prev.sequences, from, Get(prev.pool, mem).id);
      if Starter(r, pulses, n - 1, ts, before) { from := [n - 1] + from; }
    }
  }

  lemma {:induction false} NoNewOnes(r: Rule, pulses: seq<Pulse>, ts: nat, before: seq<PriSequence>, ss: seq<PriSequence>)
    ensures NewOnes(r, pulses, 0, ts, before, ss, [])
  {
  }

  lemma {:induction false} NewOnesGrow(r: Rule, pulses: seq<Pulse>, n: nat, ts: nat, before: seq<PriSequence>,
                                       ss: seq<PriSequence>,
                                       from: seq<nat>, id: nat)
    requires n < |pulses| && NewOnes(r, pulses, n, ts, before, ss, from) && NewSequence(r, pulses, n, ts).id == 0
    ensures var ps := NewSequence(r, pulses, n, ts).(id := id);
            && |from| <= |ss| && ([ps] + ss)[|from| + 1..] == ss[|from|..]
            && if Starter(r, pulses, n, ts, before) then NewOnes(r, pulses, n + 1, ts, before, [ps] + ss, [n] + from)
               else NewOnes(r, pulses, n + 1, ts, before, ss, from)
  {
    hide NewSequence;
    hide Starter;
  }

  lemma {:induction false} StarterMeaning(r: Rule, pulses: seq<Pulse>, i: nat, ts: nat, before: seq<PriSequence>)
    requires i < |pulses| && Sorted(pulses, r.tolerance, ts)
    ensures Starter(r, pulses, i, ts, before)
            <==> Candidate(r, pulses[i], ts) && NewSequence(r, pulses, i, ts).count > MaxUpdated(r, before, ts)
    ensures NewSequence(r, pulses, i, ts).id == 0
  {
    hide Beats;
    NewCount(r, pulses, i, ts);
    hide NewSequence;
    BeatsMeaning(r, before, ts, NewSequence(r, pulses, i, ts).count);
    DistanceFits(r, pulses, i, ts);
  }

  lemma {:induction false} NewCount(r: Rule, pulses: seq<Pulse>, i: nat, ts: nat)
    requires i < |pulses|
    ensures NewSequence(r, pulses, i, ts).count > 0 && NewSequence(r, pulses, i, ts).id == 0
  {
  }

  lemma {:induction false} DistanceFits(r: Rule, pulses: seq<Pulse>, i: nat, ts: nat)
    requires i < |pulses| && Sorted(pulses, r.tolerance, ts)
    ensures Candidate(r, pulses[i], ts) <==> r.priMin <= ts - pulses[i].ts <= r.priMax
  {
    hide Wrap32;
    Wrap32Fits(ts - pulses[i].ts);
  }

  /** Without memory for a sequence, creating fails iff some stored pulse starts one. */
  lemma {:induction false} CreateFails(r: Rule, pulses: seq<Pulse>, n: nat, ts: nat, before: seq<PriSequence>,
                                       ss: seq<PriSequence>, pool: Pool, mem: Memory)
    requires n <= |pulses| && Sorted(pulses, r.tolerance, ts) && pool.free == [] && forall k :: !mem(k)
    ensures var made := Create(r, pulses, n, ts, MaxUpdated(r, before, ts), ss, pool, mem);
            && (made.ok <==> forall i :: 0 <= i < n ==> !Starter(r, pulses, i, ts, before))
            && made.sequences == ss && (made.ok ==> made.pool == pool)
    decreases n
  {
    hide Sorted;
    hide NewSequence;
    hide MaxUpdated;
    hide Candidate;
    hide Starter;
    if n > 0 {
      CreateFails(r, pulses, n - 1, ts, before, ss, pool, mem);
      StarterMeaning(r, pulses, n - 1, ts, before);
    }
  }
}
