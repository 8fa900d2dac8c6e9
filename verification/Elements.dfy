/** Information elements: id, length and data, laid out one after the other
    (section 9.4.2.1 of IEEE Std 802.11-2020). */
module Elements {

  type Byte = x: int | 0 <= x < 256
  type Payload = s: seq<Byte> | |s| < 256

  datatype Elem = Elem(id: Byte, data: Payload)

  function Bytes(e: Elem): seq<Byte> { [e.id, |e.data|] + e.data }

  function Serialize(es: seq<Elem>): seq<Byte>
    decreases |es|
  {
    if es == [] then [] else Serialize(es[..|es| - 1]) + Bytes(es[|es| - 1])
  }

  /** Position of the `k`-th element. */
  function Offset(es: seq<Elem>, k: nat): nat
    requires k <= |es|
  {
    if k == 0 then 0 else Offset(es, k - 1) + 2 + |es[k - 1].data|
  }

  /** Bytes taken by the first element. */
  function FirstLen(b: seq<Byte>): nat requires |b| >= 2 { b[1] as int + 2 }

  /** The buffer starts with a complete element. */
  predicate HasElem(b: seq<Byte>) { |b| >= 2 && |b| >= FirstLen(b) }

  function FirstElem(b: seq<Byte>): Elem requires HasElem(b) { Elem(b[0], b[2..FirstLen(b)]) }

  /** The elements a walk over the buffer visits; it ends where no complete element is left. */
  function Parse(b: seq<Byte>): seq<Elem>
    decreases |b|
  {
    if !HasElem(b) then [] else [FirstElem(b)] + Parse(b[FirstLen(b)..])
  }

  /** The walk ends exactly at the end of the buffer. */
  predicate WellFormed(b: seq<Byte>)
    decreases |b|
  {
    b == [] || (HasElem(b) && WellFormed(b[FirstLen(b)..]))
  }

  lemma {:induction false} SerializeConcat(a: seq<Elem>, b: seq<Elem>)
    ensures Serialize(a + b) == Serialize(a) + Serialize(b)
    decreases |b|
  {
    hide Bytes;
    if b == [] {
      assert a + b == a;
    } else {
      assert (a + b)[..|a + b| - 1] == a + b[..|b| - 1];
      SerializeConcat(a, b[..|b| - 1]);
    }
  }

  lemma {:induction false} SerializeOne(e: Elem)
    ensures Serialize([e]) == Bytes(e)
  {
    assert [e][..0] == [];
  }

  lemma {:induction false} SerializeParse(b: seq<Byte>)
    requires WellFormed(b)
    ensures Serialize(Parse(b)) == b
    decreases |b|
  {
    if b != [] {
      hide Bytes;
      var e, rest := FirstElem(b), b[FirstLen(b)..];
      SerializeParse(rest);
      SerializeConcat([e], Parse(rest));
      SerializeOne(e);
      FirstBytes(b);
    }
  }

  lemma {:induction false} FirstBytes(b: seq<Byte>)
    requires HasElem(b)
    ensures Bytes(FirstElem(b)) + b[FirstLen(b)..] == b
  {
    assert b == b[..2] + b[2..FirstLen(b)] + b[FirstLen(b)..];
  }

  lemma {:induction false} ParseSerialize(es: seq<Elem>)
    ensures WellFormed(Serialize(es)) && Parse(Serialize(es)) == es
    decreases |es|
  {
    if es != [] {
      var e, rest := es[0], es[1..];
      assert es == [e] + rest;
      SerializeConcat([e], rest);
      SerializeOne(e);
      ParseSerialize(rest);
      var b := Serialize(es);
      assert b == Bytes(e) + Serialize(rest);
      assert b[2..FirstLen(b)] == e.data && b[FirstLen(b)..] == Serialize(rest);
    }
  }

  lemma {:induction false} OffsetIsLength(es: seq<Elem>, k: nat)
    requires k <= |es|
    ensures Offset(es, k) == |Serialize(es[..k])|
  {
    if k > 0 {
      OffsetIsLength(es, k - 1);
      assert es[..k][..k - 1] == es[..k - 1];
    }
  }

  lemma {:induction false} OffsetNext(es: seq<Elem>, k: nat)
    requires k < |es|
    ensures Offset(es, 0) == 0 && Offset(es, k + 1) == Offset(es, k) + 2 + |es[k].data|
  {
  }

  lemma {:induction false} OffsetMonotone(es: seq<Elem>, a: nat, b: nat)
    requires a <= b <= |es|
    ensures Offset(es, a) <= Offset(es, b)
    decreases b - a
  {
    if a < b { OffsetMonotone(es, a, b - 1); }
  }

  lemma {:induction false} SerializeNext(es: seq<Elem>, k: nat)
    requires k < |es|
    ensures Serialize(es[..k + 1]) == Serialize(es[..k]) + Bytes(es[k])
  {
    hide Bytes;
    assert es[..k + 1][..k] == es[..k];
  }

  lemma {:induction false} SplitAt(es: seq<Elem>, k: nat)
    requires k < |es|
    ensures Serialize(es) == Serialize(es[..k]) + Bytes(es[k]) + Serialize(es[k + 1..])
    ensures es[k + 1..] == [] <==> Serialize(es[k + 1..]) == []
  {
    hide Bytes;
    hide Serialize;
    assert es == es[..k + 1] + es[k + 1..];
    SerializeConcat(es[..k + 1], es[k + 1..]);
    SerializeNext(es, k);
    NonEmpty(es[k + 1..]);
  }

  lemma {:induction false} NonEmpty(es: seq<Elem>)
    ensures es == [] <==> Serialize(es) == []
  {
  }

  lemma {:induction false} Middle(a: seq<Byte>, e: Elem, c: seq<Byte>)
    ensures var b := a + Bytes(e) + c; var o := |a|; var n := |e.data| + 2;
            && |b| == o + n + |c| && b[o] == e.id && b[o + 1] == |e.data|
            && b[o + 2..o + n] == e.data && b[o..o + n] == Bytes(e)
  {
  }

  /** Where the bytes of the `k`-th element are. */
  lemma {:induction false} Locate(es: seq<Elem>, k: nat)
    requires k < |es|
    ensures var o := Offset(es, k);
            var b := Serialize(es);
            && o + 2 + |es[k].data| == Offset(es, k + 1) <= |b|
            && b[o] == es[k].id && b[o + 1] == |es[k].data|
            && b[o + 2..Offset(es, k + 1)] == es[k].data
            && b[o..Offset(es, k + 1)] == Bytes(es[k])
            && (k + 1 == |es| <==> Offset(es, k + 1) == |b|)
  {
    hide Serialize;
    hide Bytes;
    OffsetIsLength(es, k);
    SplitAt(es, k);
    Middle(Serialize(es[..k]), es[k], Serialize(es[k + 1..]));
  }
}
