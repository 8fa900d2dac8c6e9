/** Wake-filter rules (skw_iw.c): the enabled rules of a 64-bit map are sent in batches of 20, and the firmware's rule
    numbers are mapped back. A 64-bit word is its value; masking low bits is a remainder, shifting a division. */
module WowBatch {
  import opened Powers

  const RULES := 64
  const PER_BATCH := 20
  const CMD_BUF := 1400
  const RULE_BYTES := 66
  const U64 := 0x1_0000_0000_0000_0000

  predicate Bit(x: nat, k: nat) { x / Pow2(k) % 2 == 1 }

  /** The set bits from `k` on, in ascending order. */
  function Ones(x: nat, k: nat): seq<nat>
    requires k <= RULES
    decreases RULES - k
  {
    if k == RULES then [] else (if Bit(x, k) then [k] else []) + Ones(x, k + 1)
  }

  // ----- lowest set bit

  /** Dropping `k` zero bits. */
  lemma {:induction false} DropZeros(x0: nat, x: nat, s: nat, k: nat)
    requires x0 == x * Pow2(s) && x % Pow2(k) == 0
    ensures x0 == (x / Pow2(k)) * Pow2(s + k)
  {
    hide Pow2;
    PowAdd(k, s);
    DivMod(x, Pow2(k));
    Assoc(x / Pow2(k), Pow2(k), Pow2(s));
  }

  /** If some of the low `a` bits is set but none of the low `b`, then after dropping those, one of the next `b` is. */
  lemma {:induction false} StillSet(x: nat, a: nat, b: nat)
    requires b <= a <= 2 * b && x % Pow2(a) != 0 && x % Pow2(b) == 0
    ensures x / Pow2(b) % Pow2(b) != 0
  {
    hide Pow2;
    var p := Pow2(b);
    var y := x / p;
    DivMod(x, p);
    if y % p == 0 {
      DivMod(y, p);
      PowAdd(b, b);
      PowAdd(2 * b - a, a);
      SquareMultiple(x, y / p, p, Pow2(2 * b - a), Pow2(a));
      assert false;
    }
  }

  lemma {:induction false} SquareMultiple(x: nat, z: nat, p: nat, r: nat, q: nat)
    requires x == (z * p) * p && p * p == r * q && q > 0
    ensures x % q == 0
  {
    Assoc(z, p, p);
    Assoc(z, r, q);
    Decompose(z * r, q, 0);
  }

  /** One test of the search: when the low `k` bits are zero, drop them. */
  method Test(x0: nat, x: nat, r: nat, ghost a: nat, k: nat) returns (x': nat, r': nat)
    requires r >= 1 && x0 == x * Pow2(r - 1) && x % Pow2(a) != 0 && k <= a <= 2 * k
    ensures r' >= 1 && x0 == x' * Pow2(r' - 1) && x' % Pow2(k) != 0
  {
    x', r' := x, r;
    if x % Pow2(k) == 0 {
      StillSet(x, a, k);
      DropZeros(x0, x, r - 1, k);
      x', r' := x / Pow2(k), r + k;
    }
  }

  method Ffs64(x: nat) returns (r: nat)
    requires x < U64
    ensures x == 0 <==> r == 0
    ensures x > 0 ==> r <= RULES && Bit(x, r - 1) && forall j :: 0 <= j < r - 1 ==> !Bit(x, j)
  {
    hide Bit;
    hide Pow2;
    if x == 0 { return 0; }
    Pow64();
    var y;
    y, r := x, 1;
    Decompose(0, Pow2(64), x);
    PowBase();
    y, r := Test(x, y, r, 64, 56);
    y, r := Test(x, y, r, 56, 48);
    y, r := Test(x, y, r, 48, 40);
    y, r := Test(x, y, r, 40, 32);
    y, r := Test(x, y, r, 32, 24);
    y, r := Test(x, y, r, 24, 16);
    y, r := Test(x, y, r, 16, 8);
    y, r := Test(x, y, r, 8, 4);
    y, r := Test(x, y, r, 4, 2);
    y, r := Test(x, y, r, 2, 1);
    LowestBit(x, y, r - 1);
    BelowTop(x, r - 1);
  }

  lemma {:induction false} Pow64()
    ensures Pow2(64) == U64
  {
    Pow48();
    PowStep(6);
    PowStep(7);
  }

  lemma {:induction false} PowBase()
    ensures Pow2(0) == 1 && Pow2(1) == 2
  {
  }

  /** An odd number shifted by `s`: bit `s` is the lowest one. */
  lemma {:induction false} LowestBit(x: nat, y: nat, s: nat)
    requires x == y * Pow2(s) && y % Pow2(1) != 0
    ensures Bit(x, s) && forall j :: 0 <= j < s ==> !Bit(x, j)
  {
    PowBase();
    hide Pow2;
    Decompose(y, Pow2(s), 0);
    forall j | 0 <= j < s ensures !Bit(x, j) {
      PowAdd(s - j, j);
      Assoc(y, Pow2(s - j), Pow2(j));
      Decompose(y * Pow2(s - j), Pow2(j), 0);
      PowAdd(s - j - 1, 1);
      Assoc(y, Pow2(s - j - 1), 2);
    }
  }

  lemma {:induction false} BelowTop(x: nat, s: nat)
    requires x < U64 && Bit(x, s)
    ensures s < RULES
  {
    hide Pow2;
    Pow64();
    if s >= RULES {
      PowAdd(s - RULES, RULES);
      Multiples(Pow2(s - RULES), U64);
      Decompose(0, Pow2(s), x);
      assert false;
    }
  }

  // ----- clearing a bit

  lemma {:induction false} OnesFrom(x: nat, k: nat, m: nat)
    requires k <= m <= RULES && forall j :: k <= j < m ==> !Bit(x, j)
    ensures Ones(x, k) == Ones(x, m)
    decreases m - k
  {
    hide Bit;
    if k < m { OnesFrom(x, k + 1, m); }
  }

  lemma {:induction false} OnesSame(x: nat, y: nat, k: nat)
    requires k <= RULES && forall j :: k <= j < RULES ==> Bit(x, j) == Bit(y, j)
    ensures Ones(x, k) == Ones(y, k)
    decreases RULES - k
  {
    hide Bit;
    if k < RULES { OnesSame(x, y, k + 1); }
  }

  /** The quotient by 2^s drops from the odd `k` to `k - 1`. */
  lemma {:induction false} ClearOwn(x: nat, s: nat)
    requires Bit(x, s)
    ensures x >= Pow2(s) && (x - Pow2(s)) / Pow2(s) == x / Pow2(s) - 1
  {
    hide Pow2;
    var p := Pow2(s);
    var k, r := x / p, x % p;
    DivMod(x, p);
    Distrib(k - 1, 1, p);
    Multiples(k, p);
    Decompose(k - 1, p, r);
  }

  lemma {:induction false} ClearAbove(x: nat, s: nat, j: nat)
    requires Bit(x, s) && j > s
    ensures x >= Pow2(s) && Bit(x - Pow2(s), j) == Bit(x, j)
  {
    hide Pow2;
    ClearOwn(x, s);
    QuotientOfQuotient(x, s, j);
    QuotientOfQuotient(x - Pow2(s), s, j);
    HalvesAgree(x / Pow2(s), j - s);
  }

  lemma {:induction false} ClearBelow(x: nat, s: nat, j: nat)
    requires Bit(x, s) && j < s
    ensures x >= Pow2(s) && Bit(x - Pow2(s), j) == Bit(x, j)
  {
    PowBase();
    hide Pow2;
    ClearOwn(x, s);
    PowAdd(s - j - 1, 1);
    PowAdd(s - j, j);
    LowerBits(x, x - Pow2(s), Pow2(s), Pow2(j), Pow2(s - j - 1));
  }

  /** Clearing bit `s` changes no other bit. */
  lemma {:induction false} ClearBit(x: nat, s: nat, j: nat)
    requires Bit(x, s)
    ensures x >= Pow2(s) && (Bit(x - Pow2(s), j) <==> Bit(x, j) && j != s)
  {
    ClearOwn(x, s);
    hide Pow2;
    if j > s { ClearAbove(x, s, j); } else if j < s { ClearBelow(x, s, j); }
  }

  /** x / 2^j is (x / 2^s) / 2^(j - s). */
  lemma {:induction false} QuotientOfQuotient(x: nat, s: nat, j: nat)
    requires s <= j
    ensures x / Pow2(j) == x / Pow2(s) / Pow2(j - s)
  {
    hide Pow2;
    PowAdd(j - s, s);
    NestedQuotient(x, Pow2(s), Pow2(j - s));
  }

  lemma {:induction false} NestedQuotient(x: nat, p: nat, q: nat)
    requires p > 0 && q > 0
    ensures q * p > 0 && x / (q * p) == x / p / q
  {
    var k, r := x / p, x % p;
    var m, t := k / q, k % q;
    DivMod(x, p);
    DivMod(k, q);
    Distrib(m * q, t, p);
    Assoc(m, q, p);
    Below(t, q, p, r);
    Multiples(q, p);
    Decompose(m, q * p, t * p + r);
  }

  /** An odd number and the even one before it have the same quotient by every power of two above 1. */
  lemma {:induction false} HalvesAgree(k: nat, e: nat)
    requires k % 2 == 1 && e >= 1
    ensures k / Pow2(e) == (k - 1) / Pow2(e)
  {
    PowBase();
    hide Pow2;
    QuotientOfQuotient(k, 1, e);
    QuotientOfQuotient(k - 1, 1, e);
  }

  /** Subtracting a multiple of 2q keeps the parity of the quotient by q. */
  lemma {:induction false} LowerBits(x: nat, y: nat, p: nat, q: nat, h: nat)
    requires q > 0 && p == (h * 2) * q && y == x - p
    ensures x / q % 2 == y / q % 2
  {
    var k, r := y / q, y % q;
    DivMod(y, q);
    Distrib(k, h * 2, q);
    Decompose(k + h * 2, q, r);
  }

  /** The lowest set bit heads the list, and clearing it leaves the tail. */
  lemma {:induction false} OnesHead(x: nat, s: nat)
    requires s < RULES && Bit(x, s) && forall j :: 0 <= j < s ==> !Bit(x, j)
    ensures x >= Pow2(s) && Ones(x, 0) == [s] + Ones(x - Pow2(s), 0)
  {
    hide Bit;
    hide Pow2;
    ClearBit(x, s, s);
    var y := x - Pow2(s);
    forall j | 0 <= j < RULES ensures Bit(y, j) <==> Bit(x, j) && j != s { ClearBit(x, s, j); }
    OnesHeads(x, y, s);
  }

  lemma {:induction false} OnesHeads(x: nat, y: nat, s: nat)
    requires s < RULES && Bit(x, s) && forall j :: 0 <= j < s ==> !Bit(x, j)
    requires forall j :: 0 <= j < RULES ==> (Bit(y, j) <==> Bit(x, j) && j != s)
    ensures Ones(x, 0) == [s] + Ones(y, 0)
  {
    hide Bit;
    OnesFrom(x, 0, s);
    OnesSame(x, y, s + 1);
    assert Ones(x, s) == [s] + Ones(x, s + 1);
    hide Ones;
    OnesFrom(y, 0, s + 1);
  }

  lemma {:induction false} NoOnes(x: nat)
    ensures x == 0 ==> Ones(x, 0) == []
  {
    if x == 0 {
      forall j | 0 <= j < RULES ensures !Bit(x, j) { hide Pow2; Decompose(0, Pow2(j), 0); }
      OnesFrom(x, 0, RULES);
    }
  }

  predicate Slots(l: seq<nat>) { forall i :: 0 <= i < |l| ==> l[i] < RULES }

  predicate Ascending(l: seq<nat>, k: nat) {
    (forall i :: 0 <= i < |l| ==> k <= l[i]) && forall i, j :: 0 <= i < j < |l| ==> l[i] < l[j]
  }

  /** `Ones` is the ascending list of exactly the set bits. */
  lemma {:induction false} OnesMeaning(x: nat, k: nat)
    requires k <= RULES
    ensures Slots(Ones(x, k)) && Ascending(Ones(x, k), k)
    decreases RULES - k
  {
    hide Bit;
    if k < RULES {
      OnesMeaning(x, k + 1);
      var l := Ones(x, k + 1);
      assert Ones(x, k) == if Bit(x, k) then [k] + l else [] + l;
      hide Ones;
      assert [] + l == l;
      ListMore(l, k);
    }
  }

  lemma {:induction false} ListMore(l: seq<nat>, k: nat)
    requires Slots(l) && Ascending(l, k + 1) && k < RULES
    ensures Slots([k] + l) && Ascending([k] + l, k) && Ascending(l, k)
  {
    var all := [k] + l;
    assert forall i :: 0 < i < |all| ==> all[i] == l[i - 1];
  }

  lemma {:induction false} OnesAreTheBits(x: nat, k: nat, b: nat)
    requires k <= b < RULES
    ensures b in Ones(x, k) <==> Bit(x, b)
    decreases b - k
  {
    hide Bit;
    var l := Ones(x, k + 1);
    assert Ones(x, k) == (if Bit(x, k) then [k] else []) + l;
    hide Ones;
    assert b in Ones(x, k) <==> (Bit(x, k) && b == k) || b in l;
    if k < b {
      OnesAreTheBits(x, k + 1, b);
    } else {
      OnesMeaning(x, k + 1);
    }
  }

  /** One step of every loop below: take the lowest set bit out of a nonzero map. */
  method TakeLowest(x: nat) returns (idx: nat, rest: nat)
    requires 0 < x < U64
    ensures idx < RULES && rest < x && Ones(x, 0) == [idx] + Ones(rest, 0)
  {
    hide Ones;
    hide Bit;
    var r := Ffs64(x);
    idx := r - 1;
    OnesHead(x, idx);
    rest := x - Pow2(idx);
  }

  // ----- commands

  const DIS_ALL := 0
  const EN_WOW := 3
  const EN_WOW_APPEND := 17
  const PARAM_BYTES := 5

  datatype Rule = Rule(len: nat, bytes: seq<nat>)
  datatype RuleSet = RuleSet(enabled: nat, flags: nat, rules: seq<Rule>)
  datatype Command = Command(action: nat, flags: nat, len: nat, rules: seq<Rule>)

  /** What the parser of user rules stores: 64 slots, no rule longer than its 64-byte field. */
  predicate ValidSet(s: RuleSet) {
    s.enabled < U64 && |s.rules| == RULES && forall i :: 0 <= i < RULES ==> s.rules[i].len <= 64
  }

  function Pick(rules: seq<Rule>, l: seq<nat>): (p: seq<Rule>)
    requires |rules| == RULES && Slots(l)
    ensures |p| == |l| && forall i :: 0 <= i < |l| ==> p[i] == rules[l[i]]
  {
    seq(|l|, i requires 0 <= i < |l| => rules[l[i]])
  }

  /** The command for one batch; with no rule in it the zeroed buffer goes out, whose action is DIS_ALL. */
  function CommandFor(s: RuleSet, l: seq<nat>, action: nat): Command
    requires ValidSet(s) && Slots(l)
  {
    if l == [] then Command(DIS_ALL, 0, PARAM_BYTES, [])
    else Command(action, s.flags, PARAM_BYTES + RULE_BYTES * |l|, Pick(s.rules, l))
  }

  function Commands(s: RuleSet, l: seq<nat>, action: nat): seq<Command>
    requires ValidSet(s) && Slots(l)
    decreases |l|
  {
    if |l| < PER_BATCH then [CommandFor(s, l, action)]
    else [CommandFor(s, l[..PER_BATCH], action)] + Commands(s, l[PER_BATCH..], EN_WOW_APPEND)
  }

  /** What the firmware has received after all commands, numbered in order of arrival. */
  function Received(cs: seq<Command>): seq<Rule> {
    if cs == [] then [] else cs[0].rules + Received(cs[1..])
  }

  function Smaller(a: nat, b: nat): nat { if a <= b then a else b }

  /** The batch loop of both senders, with its guard against overrunning the buffer. */
  method FillBatch(s: RuleSet, bits: nat, action: nat) returns (c: Command, rest: nat, append: bool)
    requires ValidSet(s) && bits < U64
    ensures Slots(Ones(bits, 0)) && rest < U64
    ensures var l := Ones(bits, 0); var n := Smaller(|l|, PER_BATCH);
      c == CommandFor(s, l[..n], action) && Ones(rest, 0) == l[n..] && append == (|l| >= PER_BATCH)
  {
    hide Ones;
    hide Ascending;
    OnesMeaning(bits, 0);
    ghost var l := Ones(bits, 0);
    ghost var n := 0;
    var sub, flags, rules := DIS_ALL, 0, [];
    rest, append := bits, false;
    while rest != 0
      invariant rest < U64 && n <= |l| && n < PER_BATCH && !append
      invariant Ones(rest, 0) == l[n..]
      invariant rules == Pick(s.rules, l[..n])
      invariant if n == 0 then sub == DIS_ALL && flags == 0 else sub == action && flags == s.flags
      decreases rest
    {
      var idx, next := TakeLowest(rest);
      TakeOne(s.rules, l, n, idx, Ones(next, 0));
      if PARAM_BYTES + s.rules[idx].len > CMD_BUF { assert false; break; }
      sub, flags, rest := action, s.flags, next;
      rules := rules + [s.rules[idx]];
      n := n + 1;
      if |rules| >= PER_BATCH { append := true; break; }
    }
    NoOnes(rest);
    assert rest == 0 ==> n == |l|;
    c := Command(sub, flags, PARAM_BYTES + RULE_BYTES * |rules|, rules);
  }

  lemma {:induction false} TakeOne(rules: seq<Rule>, l: seq<nat>, n: nat, idx: nat, rest: seq<nat>)
    requires |rules| == RULES && Slots(l) && n <= |l| && l[n..] == [idx] + rest
    ensures n < |l| && idx == l[n] && rest == l[n + 1..]
    ensures Pick(rules, l[..n + 1]) == Pick(rules, l[..n]) + [rules[l[n]]]
  {
    assert |l[n..]| >= 1;
    assert l[n..][0] == idx && l[n..][1..] == rest;
  }

  /** skw_send_wow_filter_append_cmd: one batch, then itself while a batch was full. */
  method SendAppend(s: RuleSet, bits: nat) returns (cs: seq<Command>)
    requires ValidSet(s) && bits < U64
    ensures Slots(Ones(bits, 0)) && cs == Commands(s, Ones(bits, 0), EN_WOW_APPEND)
    decreases |Ones(bits, 0)|
  {
    hide Ones;
    var c, rest, append := FillBatch(s, bits, EN_WOW_APPEND);
    cs := [];
    if append { cs := SendAppend(s, rest); }
    cs := [c] + cs;
    assert !append ==> Ones(bits, 0)[..|Ones(bits, 0)|] == Ones(bits, 0);
  }

  /** skw_send_wow_filter_cmd: everything sent for the enabled rules. */
  method SendFilter(s: RuleSet) returns (cs: seq<Command>)
    requires ValidSet(s)
    ensures Slots(Ones(s.enabled, 0)) && cs == Commands(s, Ones(s.enabled, 0), EN_WOW)
  {
    hide Ones;
    var c, rest, append := FillBatch(s, s.enabled, EN_WOW);
    cs := [];
    if append { cs := SendAppend(s, rest); }
    cs := [c] + cs;
    ghost var l := Ones(s.enabled, 0);
    assert !append ==> l[..|l|] == l;
  }

  /** The batches carry exactly the listed rules, in order. */
  lemma {:induction false} BatchesConcatenate(s: RuleSet, l: seq<nat>, action: nat)
    requires ValidSet(s) && Slots(l)
    ensures Received(Commands(s, l, action)) == Pick(s.rules, l)
    decreases |l|
  {
    var cs := Commands(s, l, action);
    assert cs[0].rules == Pick(s.rules, l[..Smaller(|l|, PER_BATCH)]);
    if |l| >= PER_BATCH {
      BatchesConcatenate(s, l[PER_BATCH..], EN_WOW_APPEND);
      assert cs[1..] == Commands(s, l[PER_BATCH..], EN_WOW_APPEND);
    } else {
      assert cs[1..] == [];
    }
  }

  /** The shape of batch `i`: only the last is not full, every one fits its buffer, and the last switches everything
      off exactly when the number of enabled rules is a multiple of the batch size. */
  lemma {:induction false} BatchShape(s: RuleSet, l: seq<nat>, action: nat, i: nat)
    requires ValidSet(s) && Slots(l) && i < |Commands(s, l, action)|
    ensures |Commands(s, l, action)| == |l| / 20 + 1
    ensures var c := Commands(s, l, action)[i];
      && |c.rules| == (if i < |l| / 20 then 20 else |l| % 20)
      && c.len == 5 + 66 * |c.rules| <= PARAM_BYTES + CMD_BUF
      && c.action == (if c.rules == [] then 0 else if i == 0 then action else 17)
      && c.flags == if c.rules == [] then 0 else s.flags
    decreases |l|
  {
    if |l| >= PER_BATCH {
      BatchShape(s, l[PER_BATCH..], EN_WOW_APPEND, if i == 0 then 0 else i - 1);
    }
  }

  /** The driver's own last command switches everything off iff the number of enabled rules is a multiple of 20. */
  lemma {:induction false} LastSwitchesOff(s: RuleSet)
    requires ValidSet(s)
    ensures Slots(Ones(s.enabled, 0))
    ensures var cs := Commands(s, Ones(s.enabled, 0), EN_WOW);
      && (cs[|cs| - 1].action == 0 <==> |Ones(s.enabled, 0)| % 20 == 0)
      && (Ones(s.enabled, 0) != [] ==> cs[0].action == 3 && cs[0].flags == s.flags)
  {
    OnesMeaning(s.enabled, 0);
    hide Ones;
    hide Ascending;
    var l := Ones(s.enabled, 0);
    BatchShape(s, l, EN_WOW, |Commands(s, l, EN_WOW)| - 1);
    BatchShape(s, l, EN_WOW, 0);
  }

  // ----- mapping a firmware rule number back

  /** The slot answered for firmware rule `count`: past the enabled rules it is the last one, or 0 when there is none. */
  function Slot(l: seq<nat>, count: nat): nat {
    if count >= RULES then 0xff else if count < |l| then l[count] else if l == [] then 0 else l[|l| - 1]
  }

  /** The highest enabled slot, or 0 when there is none. */
  ghost predicate Highest(enabled: nat, b: nat) {
    if forall j :: 0 <= j < 64 ==> !Bit(enabled, j) then b == 0
    else b < 64 && Bit(enabled, b) && forall j :: b < j < 64 ==> !Bit(enabled, j)
  }

  lemma {:induction false} SlotBeyond(s: RuleSet, count: nat)
    requires ValidSet(s)
    ensures |Ones(s.enabled, 0)| <= count < 64 ==> Highest(s.enabled, Slot(Ones(s.enabled, 0), count))
  {
    hide Ones;
    hide Bit;
    var l := Ones(s.enabled, 0);
    OnesMeaning(s.enabled, 0);
    forall j | 0 <= j < 64 ensures j in l <==> Bit(s.enabled, j) { OnesAreTheBits(s.enabled, 0, j); }
    assert l != [] ==> l[|l| - 1] in l;
  }

  method RemapIdx(s: RuleSet, count: nat) returns (idx: nat)
    requires ValidSet(s)
    ensures idx == Slot(Ones(s.enabled, 0), count)
    ensures count >= 64 ==> idx == 255
    ensures count < 64 && |Ones(s.enabled, 0)| <= count ==> Highest(s.enabled, idx)
  {
    hide Ones;
    if count >= RULES { return 0xff; }
    ghost var l := Ones(s.enabled, 0);
    SlotBeyond(s, count);
    var bits: nat, rules: nat := s.enabled, 0;
    idx := 0;
    NoOnes(0);
    while bits != 0
      invariant bits < U64 && rules <= count && rules <= |l|
      invariant Ones(bits, 0) == l[rules..]
      invariant idx == if rules == 0 then 0 else l[rules - 1]
      decreases bits
    {
      idx, bits := TakeLowest(bits);
      assert |l[rules..]| >= 1;
      assert l[rules..][0] == idx && l[rules..][1..] == Ones(bits, 0);
      assert l[rules..][1..] == l[rules + 1..];
      if rules == count { return; }
      rules := rules + 1;
    }
  }

  /** Mapping back inverts sending: the k-th rule the firmware holds is the one in the enabled slot answered for k, and
      no other number is answered with that slot. */
  lemma {:induction false} RemapInverts(s: RuleSet, k: nat)
    requires ValidSet(s) && k < |Ones(s.enabled, 0)|
    ensures Slots(Ones(s.enabled, 0))
    ensures var rs := Received(Commands(s, Ones(s.enabled, 0), EN_WOW)); var b := Slot(Ones(s.enabled, 0), k);
      b < RULES && Bit(s.enabled, b) && k < |rs| && rs[k] == s.rules[b]
    ensures forall j :: 0 <= j < |Ones(s.enabled, 0)| && Slot(Ones(s.enabled, 0), j) == Slot(Ones(s.enabled, 0), k) ==> j == k
  {
    hide Ones;
    hide Bit;
    hide Commands;
    hide Received;
    var l := Ones(s.enabled, 0);
    OnesMeaning(s.enabled, 0);
    AtMostSlots(l, 0);
    OnesAreTheBits(s.enabled, 0, l[k]);
    BatchesConcatenate(s, l, EN_WOW);
  }

  /** An ascending list of slots has at most 64 entries. */
  lemma {:induction false} AtMostSlots(l: seq<nat>, k: nat)
    requires Slots(l) && Ascending(l, k) && k <= RULES
    ensures |l| <= RULES - k
    decreases |l|
  {
    if l != [] { AtMostSlots(l[1..], l[0] + 1); }
  }

  lemma {:induction false} EverySlotIsAnswered(s: RuleSet, b: nat)
    requires ValidSet(s) && b < RULES && Bit(s.enabled, b)
    ensures exists k :: 0 <= k < |Ones(s.enabled, 0)| && Slot(Ones(s.enabled, 0), k) == b
  {
    hide Ones;
    hide Bit;
    var l := Ones(s.enabled, 0);
    OnesMeaning(s.enabled, 0);
    AtMostSlots(l, 0);
    OnesAreTheBits(s.enabled, 0, b);
    var k :| 0 <= k < |l| && l[k] == b;
    assert Slot(l, k) == b;
  }
}
