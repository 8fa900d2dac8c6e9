/** Wake-on-WLAN patterns (skw_cfg80211.c): a byte mask and a pattern are compiled into runs of consecutive bytes,
    each with its packet offset, in a rule buffer of 64 bytes. */
module WowPattern {
  import opened Elements

  const RULE_SIZE := 64
  const HEADER := 5
  const OP_SAME: Byte := 0
  const TYPE_ETH: Byte := 0
  const U16 := 0x1_0000

  /** One run: the packet holds `vals` from `offset` on. */
  datatype Sub = Sub(offset: nat, vals: seq<Byte>)

  function Head(offset: nat, len: nat): (h: seq<Byte>)
    ensures |h| == HEADER
  {
    [OP_SAME, TYPE_ETH, offset % 256, offset / 256 % 256, len % 256]
  }

  function EncodeSub(s: Sub): seq<Byte> { Head(s.offset, |s.vals|) + s.vals }

  function Encode(subs: seq<Sub>): seq<Byte>
    decreases |subs|
  {
    if subs == [] then [] else Encode(subs[..|subs| - 1]) + EncodeSub(subs[|subs| - 1])
  }

  /** How the firmware reads a rule. */
  function Decode(b: seq<Byte>): seq<Sub>
    decreases |b|
  {
    if |b| < HEADER || |b| < HEADER + b[4] as int then []
    else
      var end := HEADER + b[4] as int;
      [Sub(b[2] as int + 256 * b[3] as int, b[HEADER..end])] + Decode(b[end..])
  }

  /** The layout of a run: operation and type are zero, then come the offset, low byte first, and the length. */
  lemma {:induction false} HeadMeaning(s: Sub)
    requires Encodable(s)
    ensures var b := EncodeSub(s);
            && |b| == 5 + |s.vals| && b[0] == 0 && b[1] == 0 && b[2] as int + 256 * b[3] as int == s.offset
            && b[4] as int == |s.vals| && b[5..] == s.vals
  {
  }

  predicate Encodable(s: Sub) { s.offset < U16 && |s.vals| < 256 }

  lemma {:induction false} DecodeOne(s: Sub, rest: seq<Byte>)
    requires Encodable(s)
    ensures Decode(EncodeSub(s) + rest) == [s] + Decode(rest)
  {
    var b := EncodeSub(s) + rest;
    var end := HEADER + |s.vals|;
    assert b[HEADER..end] == s.vals && b[end..] == rest;
    assert b[2] as int + 256 * b[3] as int == s.offset;
  }

  lemma {:induction false} EncodeConcat(a: seq<Sub>, b: seq<Sub>)
    ensures Encode(a + b) == Encode(a) + Encode(b)
    decreases |b|
  {
    hide EncodeSub;
    if b == [] {
      assert a + b == a;
    } else {
      assert (a + b)[..|a + b| - 1] == a + b[..|b| - 1];
      EncodeConcat(a, b[..|b| - 1]);
    }
  }

  /** A rule is read back as it was built. */
  lemma {:induction false} DecodeEncode(subs: seq<Sub>)
    requires forall i :: 0 <= i < |subs| ==> Encodable(subs[i])
    ensures Decode(Encode(subs)) == subs
    decreases |subs|
  {
    hide EncodeSub;
    hide Decode;
    if subs == [] {
      DecodeNothing();
    } else {
      var s, rest := subs[0], subs[1..];
      assert subs == [s] + rest;
      EncodeConcat([s], rest);
      assert Encode([s]) == EncodeSub(s) by { assert [s][..0] == []; }
      DecodeEncode(rest);
      DecodeOne(s, Encode(rest));
    }
  }

  lemma {:induction false} DecodeNothing()
    ensures Decode([]) == []
  {
  }

  // ----- what a rule means

  predicate ByteAt(packet: seq<Byte>, pos: nat, v: Byte) { pos < |packet| && packet[pos] == v }

  ghost predicate SubHolds(packet: seq<Byte>, s: Sub) {
    forall i :: 0 <= i < |s.vals| ==> ByteAt(packet, s.offset + i, s.vals[i])
  }

  ghost predicate Satisfies(packet: seq<Byte>, subs: seq<Sub>) {
    forall k :: 0 <= k < |subs| ==> SubHolds(packet, subs[k])
  }

  /** Mask bit of pattern byte `j`. */
  predicate Masked(mask: seq<bv8>, j: nat)
    requires j / 8 < |mask|
  {
    mask[j / 8] & (1 << (j % 8)) != 0
  }

  /** Byte `j / 8` holds the bit of position `j`, the lowest bit first. */
  lemma {:induction false} MaskedMeaning(mask: seq<bv8>, j: nat)
    requires j / 8 < |mask|
    ensures Masked(mask, j) <==> (mask[j / 8] >> (j % 8)) & 1 == 1
  {
    MaskedBit(mask[j / 8], j % 8);
  }

  lemma {:induction false} MaskedBit(m: bv8, k: nat)
    requires k < 8
    ensures m & (1 << k) != 0 <==> (m >> k) & 1 == 1
  {
    match k {
      case 0 => case 1 => case 2 => case 3 => case 4 => case 5 => case 6 => case _ =>
    }
  }

  /** The packet equals the pattern at the first `n` masked positions. */
  ghost predicate Agrees(packet: seq<Byte>, pattern: seq<Byte>, mask: seq<bv8>, offset: nat, n: nat)
    requires n <= |pattern| && |pattern| <= 8 * |mask|
  {
    forall j :: 0 <= j < n && Masked(mask, j) ==> ByteAt(packet, offset + j, pattern[j])
  }

  /** The runs say exactly that, for every packet. */
  ghost predicate Means(subs: seq<Sub>, pattern: seq<Byte>, mask: seq<bv8>, offset: nat, n: nat)
    requires n <= |pattern| && |pattern| <= 8 * |mask|
  {
    forall packet :: Satisfies(packet, subs) <==> Agrees(packet, pattern, mask, offset, n)
  }

  ghost function Extended(subs: seq<Sub>, v: Byte): seq<Sub>
    requires |subs| > 0
  {
    var s := subs[|subs| - 1];
    subs[|subs| - 1 := s.(vals := s.vals + [v])]
  }

  lemma {:induction false} MeansStart(pattern: seq<Byte>, mask: seq<bv8>, offset: nat)
    requires |pattern| <= 8 * |mask|
    ensures Means([], pattern, mask, offset, 0)
  {
  }

  lemma {:induction false} MeansSkip(subs: seq<Sub>, pattern: seq<Byte>, mask: seq<bv8>, offset: nat, j: nat)
    requires j < |pattern| <= 8 * |mask| && Means(subs, pattern, mask, offset, j) && !Masked(mask, j)
    ensures Means(subs, pattern, mask, offset, j + 1)
  {
    forall packet ensures Satisfies(packet, subs) <==> Agrees(packet, pattern, mask, offset, j + 1) {
      assert Agrees(packet, pattern, mask, offset, j) <==> Agrees(packet, pattern, mask, offset, j + 1);
    }
  }

  lemma {:induction false} AgreesNext(packet: seq<Byte>, pattern: seq<Byte>, mask: seq<bv8>, offset: nat, j: nat)
    requires j < |pattern| <= 8 * |mask| && Masked(mask, j)
    ensures Agrees(packet, pattern, mask, offset, j + 1) <==>
            Agrees(packet, pattern, mask, offset, j) && ByteAt(packet, offset + j, pattern[j])
  {
  }

  lemma {:induction false} SatisfiesNew(packet: seq<Byte>, subs: seq<Sub>, s: Sub)
    ensures Satisfies(packet, subs + [s]) <==> Satisfies(packet, subs) && SubHolds(packet, s)
  {
    var all := subs + [s];
    if Satisfies(packet, all) {
      assert all[|subs|] == s;
      forall k | 0 <= k < |subs| ensures SubHolds(packet, subs[k]) { assert all[k] == subs[k]; }
    }
  }

  lemma {:induction false} SubHoldsMore(packet: seq<Byte>, s: Sub, v: Byte)
    ensures SubHolds(packet, s.(vals := s.vals + [v])) <==> SubHolds(packet, s) && ByteAt(packet, s.offset + |s.vals|, v)
  {
    var t := s.(vals := s.vals + [v]);
    if SubHolds(packet, t) {
      assert t.vals[|s.vals|] == v;
      forall i | 0 <= i < |s.vals| ensures ByteAt(packet, s.offset + i, s.vals[i]) { assert t.vals[i] == s.vals[i]; }
    }
  }

  lemma {:induction false} MeansNew(subs: seq<Sub>, pattern: seq<Byte>, mask: seq<bv8>, offset: nat, j: nat)
    requires j < |pattern| <= 8 * |mask| && Means(subs, pattern, mask, offset, j) && Masked(mask, j)
    ensures Means(subs + [Sub(offset + j, [pattern[j]])], pattern, mask, offset, j + 1)
  {
    var s := Sub(offset + j, [pattern[j]]);
    forall packet ensures Satisfies(packet, subs + [s]) <==> Agrees(packet, pattern, mask, offset, j + 1) {
      SatisfiesNew(packet, subs, s);
      AgreesNext(packet, pattern, mask, offset, j);
      assert SubHolds(packet, s) <==> ByteAt(packet, offset + j, pattern[j]) by {
        if SubHolds(packet, s) { assert s.vals[0] == pattern[j]; }
      }
    }
  }

  lemma {:induction false} MeansExtend(subs: seq<Sub>, pattern: seq<Byte>, mask: seq<bv8>, offset: nat, j: nat)
    requires j < |pattern| <= 8 * |mask| && Means(subs, pattern, mask, offset, j) && Masked(mask, j)
    requires |subs| > 0 && subs[|subs| - 1].offset + |subs[|subs| - 1].vals| == offset + j
    ensures Means(Extended(subs, pattern[j]), pattern, mask, offset, j + 1)
  {
    var init, s := subs[..|subs| - 1], subs[|subs| - 1];
    var t := s.(vals := s.vals + [pattern[j]]);
    assert subs == init + [s] && Extended(subs, pattern[j]) == init + [t];
    forall packet ensures Satisfies(packet, init + [t]) <==> Agrees(packet, pattern, mask, offset, j + 1) {
      SatisfiesNew(packet, init, s);
      SatisfiesNew(packet, init, t);
      SubHoldsMore(packet, s, pattern[j]);
      AgreesNext(packet, pattern, mask, offset, j);
    }
  }

  // ----- the compiler

  /** Bytes that the runs of the first `n` positions take. */
  function Size(mask: seq<bv8>, n: nat): nat
    requires n <= 8 * |mask|
  {
    if n == 0 then 0
    else if !Masked(mask, n - 1) then Size(mask, n - 1)
    else Size(mask, n - 1) + 1 + (if n >= 2 && Masked(mask, n - 2) then 0 else HEADER)
  }

  lemma {:induction false} SizeNext(mask: seq<bv8>, n: nat)
    requires n < 8 * |mask|
    ensures Size(mask, n + 1) == if !Masked(mask, n) then Size(mask, n)
                                 else Size(mask, n) + 1 + (if n >= 1 && Masked(mask, n - 1) then 0 else HEADER)
  {
  }

  lemma {:induction false} SizeZero(mask: seq<bv8>)
    ensures Size(mask, 0) == 0
  {
  }

  lemma {:induction false} SizeMonotone(mask: seq<bv8>, n: nat, m: nat)
    requires n <= m <= 8 * |mask|
    ensures Size(mask, n) <= Size(mask, m)
    decreases m
  {
    if n < m { SizeMonotone(mask, n, m - 1); }
  }

  /** When nothing more takes space, nothing more is masked. */
  lemma {:induction false} MeansRest(subs: seq<Sub>, pattern: seq<Byte>, mask: seq<bv8>, offset: nat, n: nat, m: nat)
    requires n <= m <= |pattern| <= 8 * |mask| && Means(subs, pattern, mask, offset, n) && Size(mask, m) <= Size(mask, n)
    ensures Means(subs, pattern, mask, offset, m)
    decreases m
  {
    hide Means;
    hide Size;
    hide Masked;
    if n < m {
      SizeMonotone(mask, n, m - 1);
      SizeMonotone(mask, m - 1, m);
      SizeNext(mask, m - 1);
      MeansRest(subs, pattern, mask, offset, n, m - 1);
      MeansSkip(subs, pattern, mask, offset, m - 1);
    }
  }

  lemma {:induction false} EncodeNew(subs: seq<Sub>, o: nat, v: Byte)
    ensures Encode(subs + [Sub(o, [v])]) == Encode(subs) + Head(o, 0)[4 := 1] + [v]
  {
    assert (subs + [Sub(o, [v])])[..|subs|] == subs;
    assert Head(o, 0)[4 := 1] == Head(o, 1);
  }

  lemma {:induction false} EncodeExtended(subs: seq<Sub>, v: Byte)
    requires |subs| > 0 && |subs[|subs| - 1].vals| < 255
    ensures var h := |Encode(subs[..|subs| - 1])|;
            && h + 4 < |Encode(subs)| && Encode(subs)[h + 4] < 255
            && Encode(Extended(subs, v)) == Encode(subs)[h + 4 := Encode(subs)[h + 4] + 1] + [v]
  {
    var init, s := subs[..|subs| - 1], subs[|subs| - 1];
    var t := s.(vals := s.vals + [v]);
    assert Extended(subs, v)[..|subs| - 1] == init;
    assert EncodeSub(t) == EncodeSub(s)[4 := |s.vals| + 1] + [v];
    var h := |Encode(init)|;
    var b := Encode(subs);
    assert b == Encode(init) + EncodeSub(s);
    assert b[h + 4] == |s.vals|;
    assert b[h + 4 := |s.vals| + 1] == Encode(init) + EncodeSub(s)[4 := |s.vals| + 1];
  }

  /** The open run ends just before position `j`. */
  ghost predicate OpenRun(subs: seq<Sub>, offset: nat, j: nat, ptn: nat) {
    && |subs| > 0 && ptn == |Encode(subs[..|subs| - 1])|
    && subs[|subs| - 1].offset + |subs[|subs| - 1].vals| == offset + j
  }

  ghost predicate Compiled(b: seq<Byte>, subs: seq<Sub>, pattern: seq<Byte>, mask: seq<bv8>, offset: nat, j: nat)
    requires j <= |pattern| && |pattern| <= 8 * |mask|
  {
    && b == Encode(subs) && |b| == Size(mask, j)
    && (forall i :: 0 <= i < |subs| ==> Encodable(subs[i]) && |subs[i].vals| + HEADER <= |b|)
    && Means(subs, pattern, mask, offset, j)
  }

  /** Starts a run with one byte. */
  lemma {:induction false} CompileNew(b: seq<Byte>, subs: seq<Sub>, pattern: seq<Byte>, mask: seq<bv8>, offset: nat, j: nat)
    requires j < |pattern| <= 8 * |mask| && offset + |pattern| <= U16 && Compiled(b, subs, pattern, mask, offset, j)
    requires Masked(mask, j) && (j == 0 || !Masked(mask, j - 1))
    ensures var subs' := subs + [Sub(offset + j, [pattern[j]])];
            && Compiled(b + Head(offset + j, 0)[4 := 1] + [pattern[j]], subs', pattern, mask, offset, j + 1)
            && OpenRun(subs', offset, j + 1, |b|)
  {
    hide Encode;
    hide Means;
    EncodeNew(subs, offset + j, pattern[j]);
    MeansNew(subs, pattern, mask, offset, j);
    assert (subs + [Sub(offset + j, [pattern[j]])])[..|subs|] == subs;
  }

  /** Adds one byte to the open run. */
  lemma {:induction false} CompileMore(b: seq<Byte>, subs: seq<Sub>, pattern: seq<Byte>, mask: seq<bv8>, offset: nat, j: nat, ptn: nat)
    requires j < |pattern| <= 8 * |mask| && Compiled(b, subs, pattern, mask, offset, j) && |b| < RULE_SIZE
    requires OpenRun(subs, offset, j, ptn) && Masked(mask, j) && j > 0 && Masked(mask, j - 1)
    ensures ptn + 4 < |b| && b[ptn + 4] < 255 && |subs| > 0
    ensures var subs' := Extended(subs, pattern[j]);
            && Compiled(b[ptn + 4 := b[ptn + 4] + 1] + [pattern[j]], subs', pattern, mask, offset, j + 1)
            && OpenRun(subs', offset, j + 1, ptn)
  {
    hide Encode;
    hide Means;
    EncodeExtended(subs, pattern[j]);
    MeansExtend(subs, pattern, mask, offset, j);
    assert Extended(subs, pattern[j])[..|subs| - 1] == subs[..|subs| - 1];
  }

  /** Compiles one pattern. The rule never takes more than 64 bytes. When the whole pattern fits, the firmware accepts
      exactly the packets that equal the pattern at every masked position; otherwise the rule is exactly the
      constraints of the positions before `cut`, and the next masked byte would not have fitted. */
  method Compile(pattern: seq<Byte>, mask: seq<bv8>, offset: nat, rule: array<Byte>) returns (len: nat, ghost cut: nat)
    requires rule.Length == RULE_SIZE && |pattern| <= 8 * |mask| && offset + |pattern| <= U16
    modifies rule
    ensures len <= RULE_SIZE && cut <= |pattern| && len == Size(mask, cut)
    ensures Means(Decode(rule[..len]), pattern, mask, offset, cut)
    ensures Size(mask, |pattern|) <= RULE_SIZE <==> cut == |pattern|
    ensures cut < |pattern| ==> len == RULE_SIZE || Size(mask, cut + 1) > RULE_SIZE
  {
    hide Means;
    hide Compiled;
    hide OpenRun;
    hide Masked;
    hide Encode;
    hide Decode;
    hide Head;
    hide Size;
    ghost var subs: seq<Sub> := [];
    var vi, start, gap, ptn := 0, false, 0, 0;
    var j := 0;
    CompileStart(rule[..0], pattern, mask, offset);
    SizeZero(mask);
    while j < |pattern|
      invariant j <= |pattern| && gap == j && vi == Size(mask, j) < RULE_SIZE
      invariant start == (j > 0 && Masked(mask, j - 1))
      invariant Compiled(rule[..vi], subs, pattern, mask, offset, j)
      invariant start ==> OpenRun(subs, offset, j, ptn)
    {
      SizeNext(mask, j);
      var y := (j + 1 + 7) / 8 - 1;
      assert y == j / 8;
      if MaskBit(mask, y, j % 8, j) {
        ghost var b := rule[..vi];
        if !start {
          if vi + HEADER >= RULE_SIZE { break; }
          CompileNew(b, subs, pattern, mask, offset, j);
          HeadLength(b, offset + j);
          ptn := vi;
          WriteHead(rule, vi, offset + gap);
          vi := vi + HEADER;
          subs := subs + [Sub(offset + j, [pattern[j]])];
        } else {
          CompileMore(b, subs, pattern, mask, offset, j, ptn);
          subs := Extended(subs, pattern[j]);
        }
        PutByte(rule, vi, ptn, pattern[j]);
        vi := vi + 1;
        start := true;
        gap := gap + 1;
        if vi >= RULE_SIZE {
          j := j + 1;
          break;
        }
      } else {
        MeansSkipCompiled(rule[..vi], subs, pattern, mask, offset, j);
        gap := gap + 1;
        start := false;
      }
      j := j + 1;
    }
    len := vi;
    cut := j;
    SizeMonotone(mask, j, |pattern|);
    if j + 1 <= |pattern| { SizeMonotone(mask, j + 1, |pattern|); }
    CompileEnd(rule[..len], subs, pattern, mask, offset, j);
    if Size(mask, |pattern|) <= RULE_SIZE { cut := |pattern|; }
  }

  predicate MaskBit(mask: seq<bv8>, y: nat, b: nat, ghost j: nat)
    requires y == j / 8 < |mask| && b == j % 8
    ensures MaskBit(mask, y, b, j) == Masked(mask, j)
  {
    mask[y] & (1 << b) != 0
  }

  /** Appends a byte and counts it in the header at `ptn`. */
  method PutByte(rule: array<Byte>, vi: nat, ptn: nat, v: Byte)
    requires ptn + 4 < vi < rule.Length && rule[ptn + 4] < 255
    modifies rule
    ensures rule[..vi + 1] == old(rule[..vi])[ptn + 4 := old(rule[ptn + 4]) + 1] + [v]
  {
    rule[vi] := v;
    rule[ptn + 4] := rule[ptn + 4] + 1;
  }

  lemma {:induction false} HeadLength(b: seq<Byte>, o: nat)
    ensures var c := b + Head(o, 0); c[|b| + 4] == 0 && c[|b| + 4 := 1] == b + Head(o, 0)[4 := 1]
  {
  }

  method WriteHead(rule: array<Byte>, at: nat, offset: nat)
    requires at + HEADER <= rule.Length
    modifies rule
    ensures rule[..at + HEADER] == old(rule[..at]) + Head(offset, 0)
  {
    rule[at], rule[at + 1], rule[at + 2] := OP_SAME, TYPE_ETH, offset % 256;
    rule[at + 3], rule[at + 4] := offset / 256 % 256, 0;
  }

  lemma {:induction false} CompileStart(b: seq<Byte>, pattern: seq<Byte>, mask: seq<bv8>, offset: nat)
    requires |pattern| <= 8 * |mask| && b == []
    ensures Compiled(b, [], pattern, mask, offset, 0)
  {
    MeansStart(pattern, mask, offset);
  }

  lemma {:induction false} MeansSkipCompiled(b: seq<Byte>, subs: seq<Sub>, pattern: seq<Byte>, mask: seq<bv8>, offset: nat, j: nat)
    requires j < |pattern| <= 8 * |mask| && Compiled(b, subs, pattern, mask, offset, j) && !Masked(mask, j)
    ensures Compiled(b, subs, pattern, mask, offset, j + 1)
  {
    MeansSkip(subs, pattern, mask, offset, j);
  }

  lemma {:induction false} CompileEnd(b: seq<Byte>, subs: seq<Sub>, pattern: seq<Byte>, mask: seq<bv8>, offset: nat, j: nat)
    requires j <= |pattern| <= 8 * |mask| && Compiled(b, subs, pattern, mask, offset, j)
    ensures Means(Decode(b), pattern, mask, offset, j)
    ensures Size(mask, |pattern|) <= |b| ==> Means(Decode(b), pattern, mask, offset, |pattern|)
  {
    hide Means;
    hide Encode;
    hide Decode;
    DecodeEncode(subs);
    if Size(mask, |pattern|) <= |b| { MeansRest(subs, pattern, mask, offset, j, |pattern|); }
  }
}
