/** Regulatory domains (skw_regd.c): per-channel first-fit lookup of a rule, compressed into channel intervals for the
    firmware. Frequencies are in kHz. */
module Regdomain {

  datatype RegRule = RegRule(startFreq: nat, endFreq: nat, maxPower: int, maxGain: int, flags: nat, noIr: bool)
  datatype Channel = Channel(freq: nat, hw: nat, band: nat)
  datatype FwRule = FwRule(startChannel: nat, nrChannel: nat, maxPower: int, maxGain: int, flags: nat)

  datatype Lookup = Found(i: nat) | OutOfRange | Invalid

  const GHZ := 1000000
  const HALF_BW := 10000
  const MAX_RULES := 8

  function Abs(x: int): nat { if x < 0 then -x else x }

  predicate InBand(r: RegRule, freq: nat) {
    var limit := if freq > 45 * GHZ then 20 * GHZ else 2 * GHZ;
    Abs(freq - r.startFreq) <= limit || Abs(freq - r.endFreq) <= limit
  }

  /** A 20 MHz channel around `freq` lies inside the rule's range. */
  predicate Fits(r: RegRule, freq: nat) {
    freq - HALF_BW >= r.startFreq && freq + HALF_BW <= r.endFreq
  }

  /** Position of the first rule, from `i` on, that the channel fits; the number of rules when there is none. */
  function FirstFit(rules: seq<RegRule>, freq: nat, i: nat): (k: nat)
    requires i <= |rules|
    ensures i <= k <= |rules|
    ensures forall j :: i <= j < k ==> !Fits(rules[j], freq)
    ensures k < |rules| ==> Fits(rules[k], freq)
    decreases |rules| - i
  {
    if i == |rules| || Fits(rules[i], freq) then i else FirstFit(rules, freq, i + 1)
  }

  /** No rule spans two bands: bands are some GHz apart, the 60 GHz ones tens of GHz. */
  predicate NarrowRule(r: RegRule) {
    r.endFreq <= r.startFreq + 4 * GHZ || (r.startFreq > 45 * GHZ && r.endFreq <= r.startFreq + 40 * GHZ)
  }

  ghost predicate Narrow(rules: seq<RegRule>) {
    forall i :: 0 <= i < |rules| ==> NarrowRule(rules[i])
  }

  /** Sorted by start frequency. */
  ghost predicate SortedRules(rules: seq<RegRule>) {
    forall i, j :: 0 <= i < j < |rules| ==> rules[i].startFreq <= rules[j].startFreq
  }

  method FreqRegInfo(rules: seq<RegRule>, freq: nat) returns (r: Lookup)
    ensures r.Found? ==> r.i < |rules| && Fits(rules[r.i], freq)
    ensures r.Found? ==> exists k :: 0 <= k <= r.i && InBand(rules[k], freq)
    ensures r.Found? ==> forall j :: 0 <= j < r.i && Fits(rules[j], freq) ==>
                           forall k :: 0 <= k <= j ==> !InBand(rules[k], freq)
    ensures r == OutOfRange ==> forall k :: 0 <= k < |rules| ==> !InBand(rules[k], freq)
    ensures Narrow(rules) ==> (r.Found? <==> FirstFit(rules, freq, 0) < |rules|)
    ensures Narrow(rules) && r.Found? ==> r.i == FirstFit(rules, freq, 0)
  {
    var bandFound := false;
    for i := 0 to |rules|
      invariant bandFound <==> exists k :: 0 <= k < i && InBand(rules[k], freq)
      invariant forall j :: 0 <= j < i && Fits(rules[j], freq) ==> forall k :: 0 <= k <= j ==> !InBand(rules[k], freq)
      invariant Narrow(rules) ==> forall j :: 0 <= j < i ==> !Fits(rules[j], freq)
    {
      if !bandFound { bandFound := InBand(rules[i], freq); }
      if Narrow(rules) && Fits(rules[i], freq) { FitIsInBand(rules[i], freq); }
      if bandFound && Fits(rules[i], freq) { return Found(i); }
    }
    return if bandFound then Invalid else OutOfRange;
  }

  lemma {:induction false} FitIsInBand(r: RegRule, freq: nat)
    requires Fits(r, freq) && NarrowRule(r)
    ensures InBand(r, freq)
  {
  }

  /** A channel 20 MHz wide around the frequency lies within the rule's range. */
  ghost predicate Around(r: RegRule, freq: nat) { r.startFreq + 10000 <= freq && freq + 10000 <= r.endFreq }

  ghost predicate FirstAround(rules: seq<RegRule>, freq: nat, i: nat) {
    i < |rules| && Around(rules[i], freq) && forall j :: 0 <= j < i ==> !Around(rules[j], freq)
  }

  /** Both ends of the rule are farther from the frequency than its band reaches: 2 GHz, and 20 GHz above 45 GHz. */
  ghost predicate FarFrom(r: RegRule, freq: nat) {
    var limit := if freq <= 45000000 then 2000000 else 20000000;
    && (freq > r.startFreq + limit || r.startFreq > freq + limit)
    && (freq > r.endFreq + limit || r.endFreq > freq + limit)
  }

  /** The lookup, in frequencies: which rule is found and what the two failures mean. */
  lemma {:induction false} LookupMeaning(rules: seq<RegRule>, c: Channel, i: nat)
    ensures FirstAround(rules, c.freq, i) <==> i < |rules| && RuleOf(rules, c) == i
    ensures Permitted(rules, c) <==> exists k: nat :: FirstAround(rules, c.freq, k) && !rules[k].noIr
    ensures i < |rules| ==> (FarFrom(rules[i], c.freq) <==> !InBand(rules[i], c.freq))
  {
    assert forall j :: 0 <= j < |rules| ==> (Around(rules[j], c.freq) <==> Fits(rules[j], c.freq));
    var k := RuleOf(rules, c);
    assert k < |rules| ==> FirstAround(rules, c.freq, k);
  }

  // ----- compression

  /** The rule whose power, gain and flags hold on the channel, if the channel may be used. */
  predicate Permitted(rules: seq<RegRule>, c: Channel) {
    var i := FirstFit(rules, c.freq, 0);
    i < |rules| && !rules[i].noIr
  }

  function RuleOf(rules: seq<RegRule>, c: Channel): nat { FirstFit(rules, c.freq, 0) }

  /** A maximal run of channels that share a rule: from the `first` to the `last` channel of the list. */
  datatype Span = Span(i: nat, first: nat, last: nat)

  function Spans(rules: seq<RegRule>, chs: seq<Channel>, n: nat): seq<Span>
    requires n <= |chs|
  {
    if n == 0 then []
    else
      var prev := Spans(rules, chs, n - 1);
      if !Permitted(rules, chs[n - 1]) then prev
      else
        var i := RuleOf(rules, chs[n - 1]);
        Grown(prev, n, i)
  }

  function ToFw(rules: seq<RegRule>, chs: seq<Channel>, s: Span): FwRule
    requires s.i < |rules| && s.first < |chs| && s.last < |chs| && chs[s.first].hw <= chs[s.last].hw
  {
    FwRule(chs[s.first].hw, chs[s.last].hw - chs[s.first].hw + 1, rules[s.i].maxPower, rules[s.i].maxGain, rules[s.i].flags)
  }

  /** Channel lists ascend in frequency, and in number within a band; the numbers of two bands may overlap. */
  ghost predicate SortedChannels(chs: seq<Channel>) {
    forall a, b :: 0 <= a < b < |chs| ==> chs[a].freq < chs[b].freq && (chs[a].band == chs[b].band ==> chs[a].hw < chs[b].hw)
  }

  /** Channels `a` and `b` are permitted by the same rule. */
  ghost predicate SameRule(rules: seq<RegRule>, a: Channel, b: Channel) {
    Permitted(rules, a) && Permitted(rules, b) && RuleOf(rules, a) == RuleOf(rules, b)
  }

  /** No rule permits channels of two bands. */
  ghost predicate OneBand(rules: seq<RegRule>, chs: seq<Channel>) {
    forall a, b :: 0 <= a < |chs| && 0 <= b < |chs| && SameRule(rules, chs[a], chs[b]) ==> chs[a].band == chs[b].band
  }

  /** The first rule that fits comes no earlier in the table at a higher frequency. */
  lemma {:induction false} FirstFitIsMonotone(rules: seq<RegRule>, f: nat, g: nat)
    requires SortedRules(rules) && f <= g && FirstFit(rules, f, 0) < |rules| && FirstFit(rules, g, 0) < |rules|
    ensures FirstFit(rules, f, 0) <= FirstFit(rules, g, 0)
  {
    // a rule before the one of f starts no later, hence before f; if it reaches beyond g, it fits f as well
  }

  /** Between two channels of the same rule, every channel has that rule. */
  lemma {:induction false} RuleIsConvex(rules: seq<RegRule>, f: nat, g: nat, h: nat)
    requires SortedRules(rules) && f <= g <= h
    requires FirstFit(rules, f, 0) == FirstFit(rules, h, 0) < |rules|
    ensures FirstFit(rules, g, 0) == FirstFit(rules, f, 0)
  {
    var i := FirstFit(rules, f, 0);
    assert Fits(rules[i], g);
    FirstFitIsMonotone(rules, f, g);
    FirstFitIsMonotone(rules, g, h);
  }

  ghost predicate SpanOk(rules: seq<RegRule>, chs: seq<Channel>, s: Span, n: nat)
    requires n <= |chs|
  {
    && s.first <= s.last < n && s.i < |rules|
    && RuleOf(rules, chs[s.first]) == RuleOf(rules, chs[s.last]) == s.i && !rules[s.i].noIr
  }

  ghost predicate SpansOk(rules: seq<RegRule>, chs: seq<Channel>, ss: seq<Span>, n: nat)
    requires n <= |chs|
  {
    && (forall k :: 0 <= k < |ss| ==> SpanOk(rules, chs, ss[k], n))
    && Ordered(ss)
    && (forall j :: 0 <= j < n && Permitted(rules, chs[j]) ==> Spanned(ss, j, RuleOf(rules, chs[j])))
  }

  ghost predicate Spanned(ss: seq<Span>, j: nat, i: nat) {
    exists k :: 0 <= k < |ss| && ss[k].first <= j <= ss[k].last && ss[k].i == i
  }

  lemma {:induction false} SpansAreOk(rules: seq<RegRule>, chs: seq<Channel>, n: nat)
    requires SortedRules(rules) && SortedChannels(chs) && n <= |chs|
    ensures SpansOk(rules, chs, Spans(rules, chs, n), n)
  {
    hide SpansOk;
    hide Permitted;
    hide RuleOf;
    hide SortedRules;
    hide SortedChannels;
    if n == 0 {
      NoSpans(rules, chs);
    } else {
      SpansAreOk(rules, chs, n - 1);
      var prev := Spans(rules, chs, n - 1);
      if Permitted(rules, chs[n - 1]) {
        RulesAscend(rules, chs, prev, n);
        SpansGrow(rules, chs, prev, n, RuleOf(rules, chs[n - 1]));
      } else {
        SpansStay(rules, chs, prev, n);
      }
    }
  }

  lemma {:induction false} NoSpans(rules: seq<RegRule>, chs: seq<Channel>)
    ensures SpansOk(rules, chs, [], 0)
  {
  }

  /** A channel that is not permitted leaves the spans right. */
  lemma {:induction false} SpansStay(rules: seq<RegRule>, chs: seq<Channel>, ss: seq<Span>, n: nat)
    requires 0 < n <= |chs| && SpansOk(rules, chs, ss, n - 1) && !Permitted(rules, chs[n - 1])
    ensures SpansOk(rules, chs, ss, n)
  {
    hide Permitted;
    hide RuleOf;
    hide Spanned;
    forall k | 0 <= k < |ss| ensures SpanOk(rules, chs, ss[k], n) { assert SpanOk(rules, chs, ss[k], n - 1); }
  }

  /** The next channel's rule comes no earlier in the table than those of the spans so far. */
  lemma {:induction false} RulesAscend(rules: seq<RegRule>, chs: seq<Channel>, ss: seq<Span>, n: nat)
    requires SortedRules(rules) && SortedChannels(chs) && 0 < n <= |chs| && SpansOk(rules, chs, ss, n - 1)
    requires Permitted(rules, chs[n - 1])
    ensures forall k :: 0 <= k < |ss| ==> ss[k].i <= RuleOf(rules, chs[n - 1])
  {
    hide FirstFit;
    hide SortedRules;
    hide Spanned;
    forall k | 0 <= k < |ss| ensures ss[k].i <= RuleOf(rules, chs[n - 1]) {
      assert SpanOk(rules, chs, ss[k], n - 1);
      FirstFitIsMonotone(rules, chs[ss[k].last].freq, chs[n - 1].freq);
    }
  }

  /** The spans after one more channel that rule `i` permits. */
  function Grown(prev: seq<Span>, n: nat, i: nat): seq<Span>
    requires n > 0
  {
    if prev != [] && prev[|prev| - 1].i == i then prev[|prev| - 1 := prev[|prev| - 1].(last := n - 1)]
    else prev + [Span(i, n - 1, n - 1)]
  }

  lemma {:induction false} GrownSpan(rules: seq<RegRule>, chs: seq<Channel>, prev: seq<Span>, n: nat, i: nat, k: nat)
    requires 0 < n <= |chs| && SpansOk(rules, chs, prev, n - 1) && i == RuleOf(rules, chs[n - 1]) < |rules| && !rules[i].noIr
    requires k < |Grown(prev, n, i)|
    ensures SpanOk(rules, chs, Grown(prev, n, i)[k], n)
  {
    hide FirstFit;
    hide Spanned;
    hide Permitted;
    hide Ordered;
    if k < |prev| { assert SpanOk(rules, chs, prev[k], n - 1); }
  }

  ghost predicate Ordered(ss: seq<Span>) {
    forall k, l :: 0 <= k < l < |ss| ==> ss[k].i < ss[l].i && ss[k].last < ss[l].first
  }

  lemma {:induction false} GrownOrder(prev: seq<Span>, n: nat, i: nat)
    requires n > 0 && Ordered(prev)
    requires forall k :: 0 <= k < |prev| ==> prev[k].i <= i && prev[k].last < n - 1
    ensures Ordered(Grown(prev, n, i))
  {
    var ss := Grown(prev, n, i);
    forall k, l | 0 <= k < l < |ss| ensures ss[k].i < ss[l].i && ss[k].last < ss[l].first {
      if l == |prev| && k < |prev| - 1 { assert prev[k].i < prev[|prev| - 1].i; }
    }
  }

  lemma {:induction false} GrownCovers(rules: seq<RegRule>, chs: seq<Channel>, prev: seq<Span>, n: nat, i: nat, j: nat)
    requires 0 < n <= |chs| && SpansOk(rules, chs, prev, n - 1) && i == RuleOf(rules, chs[n - 1])
    requires j < n && Permitted(rules, chs[j])
    ensures Spanned(Grown(prev, n, i), j, RuleOf(rules, chs[j]))
  {
    hide Permitted;
    hide RuleOf;
    var ss := Grown(prev, n, i);
    if j == n - 1 {
      if |ss| == |prev| { assert SpanOk(rules, chs, prev[|prev| - 1], n - 1); }
      assert ss[|ss| - 1].first <= j <= ss[|ss| - 1].last;
    } else {
      assert Spanned(prev, j, RuleOf(rules, chs[j]));
      var k :| 0 <= k < |prev| && prev[k].first <= j <= prev[k].last && prev[k].i == RuleOf(rules, chs[j]);
      assert ss[k].first == prev[k].first && ss[k].i == prev[k].i && j <= ss[k].last;
    }
  }

  lemma {:induction false} SpansGrow(rules: seq<RegRule>, chs: seq<Channel>, prev: seq<Span>, n: nat, i: nat)
    requires 0 < n <= |chs| && SpansOk(rules, chs, prev, n - 1) && Permitted(rules, chs[n - 1]) && i == RuleOf(rules, chs[n - 1])
    requires forall k :: 0 <= k < |prev| ==> prev[k].i <= i
    ensures SpansOk(rules, chs, Grown(prev, n, i), n)
  {
    PermittedRule(rules, chs[n - 1]);
    hide Permitted;
    hide RuleOf;
    hide Spanned;
    var ss := Grown(prev, n, i);
    forall k: nat | k < |ss| ensures SpanOk(rules, chs, ss[k], n) { GrownSpan(rules, chs, prev, n, i, k); }
    forall k | 0 <= k < |prev| ensures prev[k].last < n - 1 { assert SpanOk(rules, chs, prev[k], n - 1); }
    GrownOrder(prev, n, i);
    forall j: nat | j < n && Permitted(rules, chs[j]) ensures Spanned(ss, j, RuleOf(rules, chs[j])) {
      GrownCovers(rules, chs, prev, n, i, j);
    }
  }

  lemma {:induction false} PermittedRule(rules: seq<RegRule>, c: Channel)
    requires Permitted(rules, c)
    ensures RuleOf(rules, c) < |rules| && !rules[RuleOf(rules, c)].noIr
  {
  }

  // ----- what the firmware makes of the intervals

  predicate Covers(r: FwRule, hw: nat) { r.startChannel <= hw < r.startChannel + r.nrChannel }

  ghost predicate Compressed(rules: seq<RegRule>, chs: seq<Channel>, fw: seq<FwRule>) {
    var ss := Spans(rules, chs, |chs|);
    && SpansOk(rules, chs, ss, |chs|)
    && |fw| == |ss| && Filled(rules, chs, fw, ss)
  }

  /** Channels of one rule are numbered in their order. */
  lemma {:induction false} SameRuleAscends(rules: seq<RegRule>, chs: seq<Channel>, a: nat, b: nat)
    requires SortedChannels(chs) && OneBand(rules, chs) && a <= b < |chs| && SameRule(rules, chs[a], chs[b])
    ensures chs[a].hw <= chs[b].hw && (a < b ==> chs[a].hw < chs[b].hw)
  {
    hide SameRule;
  }

  /** The channels of a span have its rule. */
  lemma {:induction false} InSpan(rules: seq<RegRule>, chs: seq<Channel>, s: Span, j: nat)
    requires SortedRules(rules) && SortedChannels(chs) && SpanOk(rules, chs, s, |chs|) && s.first <= j <= s.last
    ensures SameRule(rules, chs[s.first], chs[j]) && SameRule(rules, chs[j], chs[s.last]) && RuleOf(rules, chs[j]) == s.i
  {
    RuleIsConvex(rules, chs[s.first].freq, chs[j].freq, chs[s.last].freq);
  }

  /** The interval of a span is the range of numbers from its first to its last channel, which covers its own channels. */
  lemma {:induction false} SpanCovers(rules: seq<RegRule>, chs: seq<Channel>, s: Span, j: nat)
    requires SortedRules(rules) && SortedChannels(chs) && OneBand(rules, chs) && SpanOk(rules, chs, s, |chs|) && j < |chs|
    ensures chs[s.first].hw <= chs[s.last].hw
    ensures Covers(ToFw(rules, chs, s), chs[j].hw) <==> chs[s.first].hw <= chs[j].hw <= chs[s.last].hw
    ensures s.first <= j <= s.last ==> Covers(ToFw(rules, chs, s), chs[j].hw)
  {
    hide SameRule;
    hide OneBand;
    hide SortedRules;
    hide SortedChannels;
    InSpan(rules, chs, s, s.first);
    SameRuleAscends(rules, chs, s.first, s.last);
    if s.first <= j <= s.last {
      InSpan(rules, chs, s, j);
      SameRuleAscends(rules, chs, s.first, j);
      SameRuleAscends(rules, chs, j, s.last);
    }
  }

  /** The intervals say of channel `j` what the lookup says: permitted iff covered, by one interval only, and that with the
      power, gain and flags of its rule. */
  ghost predicate ExactAt(rules: seq<RegRule>, chs: seq<Channel>, fw: seq<FwRule>, j: nat)
    requires j < |chs|
  {
    && (Permitted(rules, chs[j]) <==> exists k :: 0 <= k < |fw| && Covers(fw[k], chs[j].hw))
    && (forall k, l :: 0 <= k < l < |fw| ==> !(Covers(fw[k], chs[j].hw) && Covers(fw[l], chs[j].hw)))
    && forall k :: 0 <= k < |fw| && Covers(fw[k], chs[j].hw) ==> Settings(rules, chs[j], fw[k])
  }

  predicate Settings(rules: seq<RegRule>, c: Channel, f: FwRule) {
    var i := RuleOf(rules, c);
    i < |rules| && f.maxPower == rules[i].maxPower && f.maxGain == rules[i].maxGain && f.flags == rules[i].flags
  }

  /** No channel has a number between two numbers of a rule it does not belong to. */
  ghost predicate NumbersApart(rules: seq<RegRule>, chs: seq<Channel>) {
    forall a, b, j :: 0 <= a < |chs| && 0 <= b < |chs| && 0 <= j < |chs| && Enclosed(rules, chs[a], chs[b], chs[j]) ==>
      SameRule(rules, chs[a], chs[j])
  }

  /** The number of `c` lies between those of two channels of one rule. */
  ghost predicate Enclosed(rules: seq<RegRule>, a: Channel, b: Channel, c: Channel) {
    SameRule(rules, a, b) && a.hw <= c.hw <= b.hw
  }

  /** What the interval of span `k` covers, in terms of channels. */
  lemma {:induction false} FwCovers(rules: seq<RegRule>, chs: seq<Channel>, fw: seq<FwRule>, k: nat, j: nat)
    requires SortedRules(rules) && SortedChannels(chs) && OneBand(rules, chs) && Compressed(rules, chs, fw)
    requires j < |chs| && k < |fw|
    ensures var s := Spans(rules, chs, |chs|)[k];
      && SpanOk(rules, chs, s, |chs|) && fw[k].maxPower == rules[s.i].maxPower && fw[k].maxGain == rules[s.i].maxGain
      && fw[k].flags == rules[s.i].flags && SameRule(rules, chs[s.first], chs[s.last])
      && (Covers(fw[k], chs[j].hw) <==> chs[s.first].hw <= chs[j].hw <= chs[s.last].hw)
      && (s.first <= j <= s.last ==> Covers(fw[k], chs[j].hw))
  {
    hide Spans;
    hide RuleOf;
    hide Permitted;
    hide Covers;
    hide SortedRules;
    hide SortedChannels;
    hide OneBand;
    hide SameRule;
    var ss := Spans(rules, chs, |chs|);
    assert IsFw(rules, chs, fw[k], ss[k]) && SpanOk(rules, chs, ss[k], |chs|);
    InSpan(rules, chs, ss[k], ss[k].last);
    SpanCovers(rules, chs, ss[k], j);
  }

  /** The one span of a permitted channel. */
  lemma {:induction false} SpanOfChannel(rules: seq<RegRule>, chs: seq<Channel>, j: nat) returns (k: nat)
    requires SpansOk(rules, chs, Spans(rules, chs, |chs|), |chs|) && j < |chs| && Permitted(rules, chs[j])
    ensures var ss := Spans(rules, chs, |chs|);
      && k < |ss| && ss[k].first <= j <= ss[k].last && ss[k].i == RuleOf(rules, chs[j])
      && forall l :: 0 <= l < |ss| && ss[l].i == ss[k].i ==> l == k
  {
    hide Spans;
    hide RuleOf;
    hide Permitted;
    var ss := Spans(rules, chs, |chs|);
    assert Spanned(ss, j, RuleOf(rules, chs[j]));
    k :| 0 <= k < |ss| && ss[k].first <= j <= ss[k].last && ss[k].i == RuleOf(rules, chs[j]);
  }

  /** When the numbers are apart, an interval covers only channels of its own rule. */
  lemma {:induction false} CoveredIsOwn(rules: seq<RegRule>, chs: seq<Channel>, fw: seq<FwRule>, k: nat, j: nat)
    requires SortedRules(rules) && SortedChannels(chs) && OneBand(rules, chs) && Compressed(rules, chs, fw)
    requires NumbersApart(rules, chs) && j < |chs| && k < |fw| && Covers(fw[k], chs[j].hw)
    ensures Permitted(rules, chs[j]) && RuleOf(rules, chs[j]) == Spans(rules, chs, |chs|)[k].i && Settings(rules, chs[j], fw[k])
  {
    hide Spans;
    hide SortedRules;
    hide SortedChannels;
    hide OneBand;
    hide SpansOk;
    hide Filled;
    hide Covers;
    hide Permitted;
    hide RuleOf;
    FwCovers(rules, chs, fw, k, j);
    var s := Spans(rules, chs, |chs|)[k];
    assert Enclosed(rules, chs[s.first], chs[s.last], chs[j]);
    assert SameRule(rules, chs[s.first], chs[j]);
  }

  lemma {:induction false} ApartIsExact(rules: seq<RegRule>, chs: seq<Channel>, fw: seq<FwRule>, j: nat)
    requires SortedRules(rules) && SortedChannels(chs) && OneBand(rules, chs) && Compressed(rules, chs, fw)
    requires NumbersApart(rules, chs) && j < |chs|
    ensures ExactAt(rules, chs, fw, j)
  {
    hide Spans;
    hide RuleOf;
    hide Permitted;
    hide Covers;
    hide Settings;
    hide SortedRules;
    hide SortedChannels;
    hide OneBand;
    hide NumbersApart;
    forall k | 0 <= k < |fw| && Covers(fw[k], chs[j].hw)
      ensures Permitted(rules, chs[j]) && RuleOf(rules, chs[j]) == Spans(rules, chs, |chs|)[k].i && Settings(rules, chs[j], fw[k])
    {
      CoveredIsOwn(rules, chs, fw, k, j);
    }
    if Permitted(rules, chs[j]) {
      var k := SpanOfChannel(rules, chs, j);
      FwCovers(rules, chs, fw, k, j);
    }
  }

  lemma {:induction false} ExactIsApart(rules: seq<RegRule>, chs: seq<Channel>, fw: seq<FwRule>, a: nat, b: nat, j: nat)
    requires SortedRules(rules) && SortedChannels(chs) && OneBand(rules, chs) && Compressed(rules, chs, fw)
    requires a < |chs| && b < |chs| && j < |chs| && ExactAt(rules, chs, fw, j)
    requires Enclosed(rules, chs[a], chs[b], chs[j])
    ensures SameRule(rules, chs[a], chs[j])
  {
    hide Spans;
    hide RuleOf;
    hide Permitted;
    hide Covers;
    hide SortedRules;
    hide SortedChannels;
    hide OneBand;
    var k := SpanOfChannel(rules, chs, a);
    var l := SpanOfChannel(rules, chs, b);
    FwCovers(rules, chs, fw, k, a);
    FwCovers(rules, chs, fw, k, b);
    FwCovers(rules, chs, fw, k, j);
    var m := SpanOfChannel(rules, chs, j);
    FwCovers(rules, chs, fw, m, j);
  }

  /** Main theorem. The intervals sent to the firmware say of every channel what the lookup says iff no channel has a
      number between two numbers of a rule it does not belong to. */
  lemma {:induction false} IntervalsAreExact(rules: seq<RegRule>, chs: seq<Channel>, fw: seq<FwRule>)
    requires SortedRules(rules) && SortedChannels(chs) && OneBand(rules, chs) && Compressed(rules, chs, fw)
    ensures (forall j :: 0 <= j < |chs| ==> ExactAt(rules, chs, fw, j)) <==> NumbersApart(rules, chs)
  {
    hide ExactAt;
    hide SameRule;
    hide SortedRules;
    hide SortedChannels;
    hide OneBand;
    hide Compressed;
    if NumbersApart(rules, chs) {
      forall j | 0 <= j < |chs| ensures ExactAt(rules, chs, fw, j) { ApartIsExact(rules, chs, fw, j); }
    }
    if forall j :: 0 <= j < |chs| ==> ExactAt(rules, chs, fw, j) {
      forall a, b, j | 0 <= a < |chs| && 0 <= b < |chs| && 0 <= j < |chs| && Enclosed(rules, chs[a], chs[b], chs[j])
        ensures SameRule(rules, chs[a], chs[j])
      {
        ExactIsApart(rules, chs, fw, a, b, j);
      }
    }
  }

  /** The numbers are apart when they ascend over all bands, as they do without the 6 GHz band. */
  lemma {:induction false} AscendingIsApart(rules: seq<RegRule>, chs: seq<Channel>)
    requires SortedRules(rules) && forall a, b :: 0 <= a < b < |chs| ==> chs[a].freq < chs[b].freq && chs[a].hw < chs[b].hw
    ensures NumbersApart(rules, chs)
  {
    forall a, b, j | 0 <= a < |chs| && 0 <= b < |chs| && 0 <= j < |chs| && Enclosed(rules, chs[a], chs[b], chs[j])
      ensures SameRule(rules, chs[a], chs[j])
    {
      assert a <= j <= b;
      RuleIsConvex(rules, chs[a].freq, chs[j].freq, chs[b].freq);
    }
  }

  /** A channel whose number lies between two numbers of a rule it does not belong to is covered by that rule's interval,
      and what the intervals say of it is not what the lookup says. */
  lemma {:induction false} ClashAt(rules: seq<RegRule>, chs: seq<Channel>, fw: seq<FwRule>, a: nat, b: nat, c: nat) returns (k: nat)
    requires SortedRules(rules) && SortedChannels(chs) && OneBand(rules, chs) && Compressed(rules, chs, fw)
    requires a < |chs| && b < |chs| && c < |chs| && Enclosed(rules, chs[a], chs[b], chs[c]) && !SameRule(rules, chs[a], chs[c])
    ensures !NumbersApart(rules, chs) && !ExactAt(rules, chs, fw, c)
    ensures k < |fw| && Covers(fw[k], chs[c].hw) && Settings(rules, chs[a], fw[k])
  {
    hide Spans;
    hide Permitted;
    hide RuleOf;
    hide Covers;
    hide SortedRules;
    hide SortedChannels;
    hide OneBand;
    hide ExactAt;
    if ExactAt(rules, chs, fw, c) { ExactIsApart(rules, chs, fw, a, b, c); }
    k := SpanOfChannel(rules, chs, a);
    var l := SpanOfChannel(rules, chs, b);
    FwCovers(rules, chs, fw, k, a);
    FwCovers(rules, chs, fw, k, b);
    FwCovers(rules, chs, fw, k, c);
  }

  /** Domain AE, with the flags NO_OUTDOOR (8), DFS (16) and AUTO_BW (2048). */
  function AeRules(): seq<RegRule> {
    [ RegRule(2402000, 2482000, 20, 0, 0, false), RegRule(5170000, 5250000, 17, 0, 2048, false),
      RegRule(5250000, 5330000, 24, 0, 2064, false), RegRule(5490000, 5730000, 24, 0, 16, false),
      RegRule(5735000, 5835000, 30, 0, 0, false), RegRule(5925000, 6425000, 24, 0, 8, false) ]
  }

  lemma {:induction false} AeLookups()
    ensures SortedRules(AeRules()) && FirstFit(AeRules(), 5180000, 0) == 1
    ensures FirstFit(AeRules(), 5955000, 0) == 5 && FirstFit(AeRules(), 6155000, 0) == 5
  {
  }

  /** In domain AE, with any channel list that has channel 36 at 5 GHz and channels 1 and 41 at 6 GHz, number 36 is covered
      by an interval with 17 dBm and by one with 24 dBm. */
  lemma {:induction false} SixGhzClash(chs: seq<Channel>, fw: seq<FwRule>, a: nat, b: nat, c: nat) returns (k: nat, l: nat)
    requires SortedChannels(chs) && OneBand(AeRules(), chs) && Compressed(AeRules(), chs, fw)
    requires a < |chs| && chs[a].freq == 5955000 && chs[a].hw == 1 && b < |chs| && chs[b].freq == 6155000 && chs[b].hw == 41
    requires c < |chs| && chs[c].freq == 5180000 && chs[c].hw == 36
    ensures !NumbersApart(AeRules(), chs) && !ExactAt(AeRules(), chs, fw, c)
    ensures k < |fw| && l < |fw| && Covers(fw[k], 36) && Covers(fw[l], 36) && fw[k].maxPower == 17 && fw[l].maxPower == 24
  {
    AeLookups();
    hide FirstFit;
    hide SortedRules;
    hide SortedChannels;
    hide OneBand;
    hide Spans;
    hide ExactAt;
    hide NumbersApart;
    hide Covers;
    var rules := AeRules();
    l := ClashAt(rules, chs, fw, a, b, c);
    k := SpanOfChannel(rules, chs, c);
    FwCovers(rules, chs, fw, k, c);
  }

  /** There are as many intervals as rules in use. */
  lemma {:induction false} IntervalCount(rules: seq<RegRule>, chs: seq<Channel>)
    requires SortedRules(rules) && SortedChannels(chs)
    ensures |Spans(rules, chs, |chs|)| == |UsedRules(rules, chs)|
  {
    hide Spans;
    hide RuleOf;
    hide Permitted;
    var ss := Spans(rules, chs, |chs|);
    SpansAreOk(rules, chs, |chs|);
    var used := UsedRules(rules, chs);
    forall i | i in used ensures i in Ids(ss) {
      var j :| 0 <= j < |chs| && Permitted(rules, chs[j]) && RuleOf(rules, chs[j]) == i;
      assert Spanned(ss, j, i);
    }
    forall i | i in Ids(ss) ensures i in used {
      var k :| 0 <= k < |ss| && ss[k].i == i;
      SpanIsUsed(rules, chs, ss[k]);
    }
    assert Ids(ss) == used;
    IdCount(ss);
  }

  lemma {:induction false} SpanIsUsed(rules: seq<RegRule>, chs: seq<Channel>, s: Span)
    requires SpanOk(rules, chs, s, |chs|)
    ensures s.i in UsedRules(rules, chs)
  {
    assert Permitted(rules, chs[s.first]) && RuleOf(rules, chs[s.first]) == s.i;
  }

  ghost function Ids(ss: seq<Span>): set<nat> { set k | 0 <= k < |ss| :: ss[k].i }

  ghost function UsedRules(rules: seq<RegRule>, chs: seq<Channel>): set<nat> {
    set j | 0 <= j < |chs| && Permitted(rules, chs[j]) :: RuleOf(rules, chs[j])
  }

  lemma {:induction false} IdsGrow(ss: seq<Span>, s: Span)
    ensures Ids(ss + [s]) == Ids(ss) + {s.i}
  {
    var all := ss + [s];
    forall x | x in Ids(ss) ensures x in Ids(all) {
      var k :| 0 <= k < |ss| && ss[k].i == x;
      assert all[k].i == x;
    }
    assert all[|ss|].i in Ids(all);
  }

  lemma {:induction false} IdCount(ss: seq<Span>)
    requires forall k, l :: 0 <= k < l < |ss| ==> ss[k].i < ss[l].i
    ensures |Ids(ss)| == |ss|
    decreases |ss|
  {
    if ss != [] {
      var init, s := ss[..|ss| - 1], ss[|ss| - 1];
      assert ss == init + [s];
      IdCount(init);
      IdsGrow(init, s);
      assert s.i !in Ids(init);
    }
  }

  // ----- the compression as the driver does it

  function Flatten(bands: seq<seq<Channel>>): seq<Channel>
    decreases |bands|
  {
    if bands == [] then [] else Flatten(bands[..|bands| - 1]) + bands[|bands| - 1]
  }

  lemma {:induction false} FlattenPrefix(bands: seq<seq<Channel>>, b: nat)
    requires b <= |bands|
    ensures Flatten(bands[..b]) <= Flatten(bands)
    decreases |bands|
  {
    if b < |bands| {
      assert bands[..|bands| - 1][..b] == bands[..b];
      FlattenPrefix(bands[..|bands| - 1], b);
    } else {
      assert bands[..b] == bands;
    }
  }

  lemma {:induction false} FlattenAt(bands: seq<seq<Channel>>, b: nat)
    requires b < |bands|
    ensures Flatten(bands[..b + 1]) == Flatten(bands[..b]) + bands[b]
    ensures |Flatten(bands[..b])| + |bands[b]| <= |Flatten(bands)|
    ensures forall i :: 0 <= i < |bands[b]| ==> Flatten(bands)[|Flatten(bands[..b])| + i] == bands[b][i]
  {
    assert bands[..b + 1][..b] == bands[..b];
    assert Flatten(bands[..b + 1]) == Flatten(bands[..b]) + bands[b];
    hide Flatten;
    FlattenPrefix(bands, b + 1);
    var whole, part := Flatten(bands), Flatten(bands[..b + 1]);
    assert forall i :: 0 <= i < |part| ==> whole[i] == part[i];
  }

  lemma {:induction false} SpansLength(rules: seq<RegRule>, chs: seq<Channel>, n: nat, m: nat)
    requires n <= m <= |chs|
    ensures |Spans(rules, chs, n)| <= |Spans(rules, chs, m)|
    decreases m
  {
    hide Permitted;
    if n < m { SpansLength(rules, chs, n, m - 1); }
  }

  /** The command buffer after `n` channels: one entry per span, and the rule of the last one. */
  ghost predicate Built(rules: seq<RegRule>, chs: seq<Channel>, buffer: seq<FwRule>, idx: nat, last: int, n: nat) {
    && n <= |chs| && |buffer| == MAX_RULES
    && var ss := Spans(rules, chs, n);
       && |ss| == idx <= MAX_RULES && last == (if ss == [] then -1 else ss[|ss| - 1].i)
       && SpansOk(rules, chs, ss, n)
       && Filled(rules, chs, buffer, ss)
  }

  ghost predicate Filled(rules: seq<RegRule>, chs: seq<Channel>, buffer: seq<FwRule>, ss: seq<Span>) {
    |ss| <= |buffer| && forall k :: 0 <= k < |ss| ==> IsFw(rules, chs, buffer[k], ss[k])
  }

  ghost predicate IsFw(rules: seq<RegRule>, chs: seq<Channel>, fw: FwRule, s: Span) {
    && s.i < |rules| && s.first < |chs| && s.last < |chs| && chs[s.first].hw <= chs[s.last].hw
    && fw == ToFw(rules, chs, s)
  }

  lemma {:induction false} BuildStart(rules: seq<RegRule>, chs: seq<Channel>, buffer: seq<FwRule>)
    requires |buffer| == MAX_RULES
    ensures Built(rules, chs, buffer, 0, -1, 0)
  {
  }

  /** One channel: ignored, or added to the last interval, or the start of a new one. */
  method AddChannel(rules: seq<RegRule>, c: Channel, buffer: seq<FwRule>, idx: nat, last: int, ghost chs: seq<Channel>, ghost n: nat)
    returns (buffer': seq<FwRule>, idx': nat, last': int)
    requires Narrow(rules) && SortedRules(rules) && SortedChannels(chs) && OneBand(rules, chs)
    requires Built(rules, chs, buffer, idx, last, n) && n < |chs| && c == chs[n] && |Spans(rules, chs, n + 1)| <= MAX_RULES
    ensures Built(rules, chs, buffer', idx', last', n + 1)
  {
    hide Built;
    hide SortedRules;
    hide SortedChannels;
    hide OneBand;
    hide Spans;
    hide Permitted;
    hide RuleOf;
    buffer', idx', last' := buffer, idx, last;
    var usable, i := UsableRule(rules, c);
    BuildStep(rules, chs, buffer, idx, last, n);
    if !usable { return; }
    var rr := rules[i];
    if i != last {
      buffer' := buffer'[idx := FwRule(c.hw, 0, rr.maxPower, rr.maxGain, rr.flags)];
      idx' := idx' + 1;
      last' := i;
    }
    buffer' := buffer'[idx' - 1 := buffer'[idx' - 1].(nrChannel := c.hw - buffer'[idx' - 1].startChannel + 1)];
    if i != last { assert buffer' == buffer[idx := FwRule(c.hw, 1, rr.maxPower, rr.maxGain, rr.flags)]; }
  }

  /** The three ways in which one more channel changes the buffer. */
  lemma {:induction false} BuildStep(rules: seq<RegRule>, chs: seq<Channel>, buffer: seq<FwRule>, idx: nat, last: int, n: nat)
    requires SortedRules(rules) && SortedChannels(chs) && OneBand(rules, chs)
    requires Built(rules, chs, buffer, idx, last, n) && n < |chs| && |Spans(rules, chs, n + 1)| <= MAX_RULES
    ensures |buffer| == MAX_RULES
    ensures !Permitted(rules, chs[n]) ==> Built(rules, chs, buffer, idx, last, n + 1)
    ensures Permitted(rules, chs[n]) && RuleOf(rules, chs[n]) != last ==>
      var i := RuleOf(rules, chs[n]);
      && i < |rules| && idx < MAX_RULES
      && var b := buffer[idx := FwRule(chs[n].hw, 1, rules[i].maxPower, rules[i].maxGain, rules[i].flags)];
      Built(rules, chs, b, idx + 1, i, n + 1)
    ensures Permitted(rules, chs[n]) && RuleOf(rules, chs[n]) == last ==>
      && 0 < idx <= MAX_RULES && buffer[idx - 1].startChannel <= chs[n].hw
      && var b := buffer[idx - 1 := buffer[idx - 1].(nrChannel := chs[n].hw - buffer[idx - 1].startChannel + 1)];
      Built(rules, chs, b, idx, last, n + 1)
  {
    assert |buffer| == MAX_RULES;
    hide Built;
    hide Spans;
    hide Permitted;
    hide RuleOf;
    hide SortedRules;
    hide SortedChannels;
    hide OneBand;
    SpansAreOk(rules, chs, n + 1);
    SpansStep(rules, chs, n);
    if !Permitted(rules, chs[n]) {
      BuildSkip(rules, chs, buffer, idx, last, n);
    } else {
      PermittedRule(rules, chs[n]);
      if RuleOf(rules, chs[n]) != last {
        BuildNew(rules, chs, buffer, idx, last, n);
      } else {
        BuildGrow(rules, chs, buffer, idx, last, n);
      }
    }
  }

  lemma {:induction false} BuildSkip(rules: seq<RegRule>, chs: seq<Channel>, buffer: seq<FwRule>, idx: nat, last: int, n: nat)
    requires Built(rules, chs, buffer, idx, last, n) && n < |chs|
    requires Spans(rules, chs, n + 1) == Spans(rules, chs, n) && SpansOk(rules, chs, Spans(rules, chs, n + 1), n + 1)
    ensures Built(rules, chs, buffer, idx, last, n + 1)
  {
    hide Spans;
    hide SpansOk;
    hide Filled;
  }

  lemma {:induction false} BuildNew(rules: seq<RegRule>, chs: seq<Channel>, buffer: seq<FwRule>, idx: nat, last: int, n: nat)
    requires Built(rules, chs, buffer, idx, last, n) && n < |chs| && |Spans(rules, chs, n + 1)| <= MAX_RULES
    requires RuleOf(rules, chs[n]) < |rules| && RuleOf(rules, chs[n]) != last
    requires Spans(rules, chs, n + 1) == Grown(Spans(rules, chs, n), n + 1, RuleOf(rules, chs[n]))
    requires SpansOk(rules, chs, Spans(rules, chs, n + 1), n + 1)
    ensures var i := RuleOf(rules, chs[n]);
      && idx < MAX_RULES
      && var b := buffer[idx := FwRule(chs[n].hw, 1, rules[i].maxPower, rules[i].maxGain, rules[i].flags)];
      Built(rules, chs, b, idx + 1, i, n + 1)
  {
    hide Spans;
    hide SpansOk;
    hide Filled;
    hide RuleOf;
    FilledNew(rules, chs, buffer, Spans(rules, chs, n), Span(RuleOf(rules, chs[n]), n, n));
  }

  lemma {:induction false} BuildGrow(rules: seq<RegRule>, chs: seq<Channel>, buffer: seq<FwRule>, idx: nat, last: int, n: nat)
    requires SortedChannels(chs) && OneBand(rules, chs) && Built(rules, chs, buffer, idx, last, n) && n < |chs|
    requires Permitted(rules, chs[n]) && RuleOf(rules, chs[n]) == last
    requires Spans(rules, chs, n + 1) == Grown(Spans(rules, chs, n), n + 1, RuleOf(rules, chs[n]))
    requires SpansOk(rules, chs, Spans(rules, chs, n + 1), n + 1)
    ensures 0 < idx <= MAX_RULES && buffer[idx - 1].startChannel <= chs[n].hw
    ensures var b := buffer[idx - 1 := buffer[idx - 1].(nrChannel := chs[n].hw - buffer[idx - 1].startChannel + 1)];
      Built(rules, chs, b, idx, last, n + 1)
  {
    hide Spans;
    hide SpansOk;
    hide Filled;
    hide RuleOf;
    hide Permitted;
    hide SortedChannels;
    hide OneBand;
    LastSpan(rules, chs, n);
    FilledGrow(rules, chs, buffer, Spans(rules, chs, n), n);
  }

  lemma {:induction false} SpansStep(rules: seq<RegRule>, chs: seq<Channel>, n: nat)
    requires n < |chs|
    ensures var prev := Spans(rules, chs, n);
            Spans(rules, chs, n + 1) == if Permitted(rules, chs[n]) then Grown(prev, n + 1, RuleOf(rules, chs[n])) else prev
  {
  }

  /** The rule that permits the channel, if one does. */
  method UsableRule(rules: seq<RegRule>, c: Channel) returns (usable: bool, i: nat)
    requires Narrow(rules)
    ensures usable == Permitted(rules, c) && (usable ==> i < |rules| && i == RuleOf(rules, c))
  {
    var r := FreqRegInfo(rules, c.freq);
    if !r.Found? || rules[r.i].noIr { return false, 0; }
    return true, r.i;
  }

  lemma {:induction false} FilledNew(rules: seq<RegRule>, chs: seq<Channel>, buffer: seq<FwRule>, ss: seq<Span>, s: Span)
    requires Filled(rules, chs, buffer, ss) && |ss| < |buffer|
    requires s.i < |rules| && s.first < |chs| && s.last < |chs| && chs[s.first].hw <= chs[s.last].hw
    ensures Filled(rules, chs, buffer[|ss| := ToFw(rules, chs, s)], ss + [s])
  {
  }

  lemma {:induction false} FilledGrow(rules: seq<RegRule>, chs: seq<Channel>, buffer: seq<FwRule>, ss: seq<Span>, n: nat)
    requires Filled(rules, chs, buffer, ss) && ss != [] && n < |chs| && chs[ss[|ss| - 1].first].hw < chs[n].hw
    ensures var k := |ss| - 1;
            && buffer[k].startChannel == chs[ss[k].first].hw
            && Filled(rules, chs, buffer[k := buffer[k].(nrChannel := chs[n].hw - chs[ss[k].first].hw + 1)],
                      ss[k := ss[k].(last := n)])
  {
    var k := |ss| - 1;
    assert IsFw(rules, chs, buffer[k], ss[k]);
    var b := buffer[k := buffer[k].(nrChannel := chs[n].hw - chs[ss[k].first].hw + 1)];
    var t := ss[k := ss[k].(last := n)];
    forall j | 0 <= j < |t| ensures IsFw(rules, chs, b[j], t[j]) { assert IsFw(rules, chs, buffer[j], ss[j]); }
  }

  /** A channel of the last span's rule has a higher number than the span's first channel. */
  lemma {:induction false} LastSpan(rules: seq<RegRule>, chs: seq<Channel>, n: nat)
    requires n < |chs| && SpansOk(rules, chs, Spans(rules, chs, n), n) && SortedChannels(chs) && OneBand(rules, chs)
    requires Permitted(rules, chs[n])
    ensures var ss := Spans(rules, chs, n);
            ss != [] && ss[|ss| - 1].i == RuleOf(rules, chs[n]) ==>
              ss[|ss| - 1].first < n && chs[ss[|ss| - 1].first].hw < chs[n].hw
  {
    hide Spans;
    hide FirstFit;
    hide Spanned;
    var ss := Spans(rules, chs, n);
    if ss != [] {
      var s := ss[|ss| - 1];
      assert SpanOk(rules, chs, s, n);
      if s.i == RuleOf(rules, chs[n]) { SameRuleAscends(rules, chs, s.first, n); }
    }
  }

  /** Builds the command for the firmware from the channels of all bands. */
  method SetRegdom(rules: seq<RegRule>, bands: seq<seq<Channel>>) returns (fw: seq<FwRule>)
    requires Narrow(rules) && SortedRules(rules) && SortedChannels(Flatten(bands)) && OneBand(rules, Flatten(bands))
    requires |UsedRules(rules, Flatten(bands))| <= MAX_RULES
    ensures Compressed(rules, Flatten(bands), fw) && |fw| <= MAX_RULES
    ensures var chs := Flatten(bands);
      (forall j :: 0 <= j < |chs| ==> ExactAt(rules, chs, fw, j)) <==> NumbersApart(rules, chs)
  {
    hide ExactAt;
    hide NumbersApart;
    hide Built;
    hide Spans;
    hide UsedRules;
    hide Flatten;
    ghost var chs := Flatten(bands);
    ghost var n := 0;
    var buffer := seq(MAX_RULES, _ => FwRule(0, 0, 0, 0, 0));
    var idx, last, b := 0, -1, 0;
    IntervalCount(rules, chs);
    BuildStart(rules, chs, buffer);
    FlattenNone(bands);
    while b < |bands|
      invariant b <= |bands| && n == |Flatten(bands[..b])|
      invariant Built(rules, chs, buffer, idx, last, n)
    {
      FlattenAt(bands, b);
      var i := 0;
      while i < |bands[b]|
        invariant i <= |bands[b]| && n == |Flatten(bands[..b])| + i
        invariant Built(rules, chs, buffer, idx, last, n)
      {
        SpansLength(rules, chs, n + 1, |chs|);
        buffer, idx, last := AddChannel(rules, bands[b][i], buffer, idx, last, chs, n);
        i := i + 1;
        n := n + 1;
      }
      b := b + 1;
    }
    assert bands[..b] == bands;
    fw := BuildEnd(rules, chs, buffer, idx, last);
    IntervalsAreExact(rules, chs, fw);
  }

  lemma {:induction false} FlattenNone(bands: seq<seq<Channel>>)
    ensures Flatten(bands[..0]) == []
  {
  }

  method BuildEnd(rules: seq<RegRule>, ghost chs: seq<Channel>, buffer: seq<FwRule>, idx: nat, ghost last: int) returns (fw: seq<FwRule>)
    requires Built(rules, chs, buffer, idx, last, |chs|)
    ensures Compressed(rules, chs, fw) && |fw| <= MAX_RULES
  {
    fw := buffer[..idx];
    ghost var ss := Spans(rules, chs, |chs|);
    forall k | 0 <= k < |ss| ensures IsFw(rules, chs, fw[k], ss[k]) { assert IsFw(rules, chs, buffer[k], ss[k]); }
  }
}
