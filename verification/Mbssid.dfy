/** Profile expansion as the driver does it: offsets into byte buffers, a working copy of the profile in which used
    elements are marked by overwriting their id, and an output buffer that is appended to (skw_mbssid.c). */
module Mbssid {
  import opened Elements
  import opened Options
  import opened MbssidSpec

  // ----- walking a buffer

  lemma {:induction false} WalkStep(ies: seq<Byte>, p: nat, es: seq<Elem>, j: nat)
    requires p + 2 <= |ies| && p + 2 + ies[p + 1] as int <= |ies| && j <= |es| && Parse(ies[p..]) == es[j..]
    ensures j < |es|
    ensures var next := p + 2 + ies[p + 1] as int;
            es[j] == Elem(ies[p], ies[p + 2..next]) && Parse(ies[next..]) == es[j + 1..]
  {
    var rest := ies[p..];
    assert HasElem(rest) && FirstElem(rest) == es[j..][0];
    assert FirstElem(rest).data == ies[p + 2..p + 2 + ies[p + 1] as int];
    assert rest[FirstLen(rest)..] == ies[p + 2 + ies[p + 1] as int..];
    assert es[j..][1..] == es[j + 1..];
  }

  lemma {:induction false} WalkEnd(ies: seq<Byte>, p: nat, es: seq<Elem>, j: nat)
    requires p <= |ies| && j <= |es| && Parse(ies[p..]) == es[j..]
    requires |ies| - p < 2 || |ies| - p < 2 + ies[p + 1] as int
    ensures j == |es|
  {
    assert !HasElem(ies[p..]);
  }

  /** The comparison an element undergoes, on the bytes of the buffer. */
  lemma {:induction false} FoundInBytes(ies: seq<Byte>, p: nat, eid: Byte, match_: seq<Byte>, offset: nat)
    requires p + 2 <= |ies| && p + 2 + ies[p + 1] as int <= |ies|
    requires |match_| < 0x1_0000_0000 && (offset == 2 || (offset == 0 && |match_| <= 1))
    ensures var len := ies[p + 1] as int;
            && (len >= (offset - 2 + |match_|) % 0x1_0000_0000 ==> offset == 2 && |match_| <= len)
            && (Found(Elem(ies[p], ies[p + 2..p + 2 + len]), eid, match_, offset) <==>
                && ies[p] == eid && len >= (offset - 2 + |match_|) % 0x1_0000_0000
                && ies[p + offset..p + offset + |match_|] == match_)
  {
    var len := ies[p + 1] as int;
    var data := ies[p + 2..p + 2 + len];
    if offset == 2 {
      FoundAtData(Elem(ies[p], data), eid, match_);
      if |match_| <= len { assert data[..|match_|] == ies[p + 2..p + 2 + |match_|]; }
    }
  }

  method FindElem(eid: Byte, ies: seq<Byte>, match_: seq<Byte>, offset: nat) returns (pos: int)
    requires |match_| < 0x1_0000_0000 && (offset == 2 || (offset == 0 && |match_| <= 1))
    ensures var es := Parse(ies);
            var k := FirstFound(es, eid, match_, offset, 0);
            pos == if k < |es| then Offset(es, k) else -1
  {
    hide Parse;
    hide Found;
    ghost var es := Parse(ies);
    ghost var j := 0;
    var p := 0;
    assert ies[0..] == ies;
    while |ies| - p >= 2 && |ies| - p >= 2 + ies[p + 1] as int
      invariant p <= |ies| && j <= |es| && p == Offset(es, j)
      invariant Parse(ies[p..]) == es[j..]
      invariant FirstFound(es, eid, match_, offset, 0) == FirstFound(es, eid, match_, offset, j)
      decreases |ies| - p
    {
      var len := ies[p + 1] as int;
      WalkStep(ies, p, es, j);
      FoundInBytes(ies, p, eid, match_, offset);
      if ies[p] == eid && len >= (offset - 2 + |match_|) % 0x1_0000_0000
         && ies[p + offset..p + offset + |match_|] == match_ {
        return p;
      }
      p := p + 2 + len;
      j := j + 1;
    }
    WalkEnd(ies, p, es, j);
    return -1;
  }

  /** Appends to the output buffer. */
  method Append(buf: array<Byte>, pos: nat, bytes: seq<Byte>) returns (next: nat)
    requires pos + |bytes| <= buf.Length
    modifies buf
    ensures next == pos + |bytes| && buf[..next] == old(buf[..pos]) + bytes
  {
    var i := 0;
    while i < |bytes|
      invariant i <= |bytes|
      invariant buf[..pos + i] == old(buf[..pos]) + bytes[..i]
    {
      buf[pos + i] := bytes[i];
      i := i + 1;
    }
    assert bytes[..i] == bytes;
    return pos + |bytes|;
  }

  method IsInherited(e: Elem, ni: Option<Elem>) returns (inherited: bool)
    requires e.id == EID_EXTENSION ==> |e.data| >= 1
    ensures inherited == Inherited(e, ni)
  {
    if e.id == EID_MULTIPLE_BSSID { return false; }
    if ni.None? || |ni.value.data| < 2 { return true; }
    var d := ni.value.data;
    var idLen := d[1] as int;
    if |d| < 3 + idLen { return true; }
    var extLen := d[2 + idLen] as int;
    if |d| < 3 + idLen + extLen { return true; }
    var list, id;
    if e.id == EID_EXTENSION {
      if extLen == 0 { return true; }
      list, id := d[3 + idLen..3 + idLen + extLen], e.data[0];
    } else {
      if idLen == 0 { return true; }
      list, id := d[2..2 + idLen], e.id;
    }
    for i := 0 to |list|
      invariant id !in list[..i]
    {
      if list[i] == id { return false; }
    }
    assert list[..|list|] == list;
    return true;
  }

  // ----- the working copy of the profile

  lemma {:induction false} MarkedOffset(subs: seq<Elem>, used: set<nat>, k: nat)
    requires k <= |subs|
    ensures Offset(Marked(subs, used), k) == Offset(subs, k)
  {
    if k > 0 { MarkedOffset(subs, used, k - 1); }
  }

  lemma {:induction false} MarkBytes(a: seq<Byte>, e: Elem, c: seq<Byte>)
    ensures (a + Bytes(e) + c)[|a| := EID_SSID] == a + Bytes(e.(id := EID_SSID)) + c
  {
    assert Bytes(e)[0 := EID_SSID] == Bytes(e.(id := EID_SSID));
  }

  /** Overwriting one byte marks one element. */
  lemma {:induction false} MarkOne(subs: seq<Elem>, used: set<nat>, k: nat)
    requires k < |subs| && k !in used
    ensures var b := Serialize(Marked(subs, used));
            && Offset(subs, k) < |b|
            && b[Offset(subs, k) := EID_SSID] == Serialize(Marked(subs, used + {k}))
  {
    hide Serialize;
    hide Bytes;
    var es, es' := Marked(subs, used), Marked(subs, used + {k});
    SplitAt(es, k);
    SplitAt(es', k);
    assert es[..k] == es'[..k] && es[k + 1..] == es'[k + 1..];
    OffsetIsLength(es, k);
    MarkedOffset(subs, used, k);
    MarkBytes(Serialize(es[..k]), es[k], Serialize(es[k + 1..]));
    Locate(es, k);
  }

  /** What is searched for on behalf of a beacon element. */
  function Wanted(old_: Elem): seq<Byte>
    requires old_.id == EID_EXTENSION ==> |old_.data| >= 1
  {
    if old_.id == EID_EXTENSION then [old_.data[0]] else []
  }

  /** Searching the marked copy finds the first free element of the same key. */
  lemma {:induction false} FoundIsFree(old_: Elem, subs: seq<Elem>, used: set<nat>)
    requires old_.id != EID_SSID && (old_.id == EID_EXTENSION ==> |old_.data| >= 1)
    ensures FirstFound(Marked(subs, used), old_.id, Wanted(old_), 2, 0) == FirstFree(subs, used, old_, 0)
  {
    hide FirstFound;
    hide FirstFree;
    var es := Marked(subs, used);
    hide Found;
    forall j | 0 <= j < |es| ensures Found(es[j], old_.id, Wanted(old_), 2) <==> j !in used && SameKey(old_, subs[j]) {
      FoundAtData(es[j], old_.id, Wanted(old_));
      if old_.id == EID_EXTENSION && |es[j].data| >= 1 { assert es[j].data[..1] == [es[j].data[0]]; }
    }
    hide SameKey;
    hide Marked;
  }

  // ----- building the new element list

  /** Element `e` stands at offset `o` of the buffer. */
  ghost predicate At(b: seq<Byte>, o: nat, e: Elem) {
    && o + 2 + |e.data| <= |b|
    && b[o] == e.id && b[o + 1] == |e.data| && b[o + 2..o + 2 + |e.data|] == e.data
    && b[o..o + 2 + |e.data|] == Bytes(e)
  }

  /** The elements that are looked into have the bytes that are looked at: an extension id, and five bytes from the data
      of a vendor element on, be they its own or those of the elements after it. */
  ghost predicate Readable(es: seq<Elem>) {
    forall i :: 0 <= i < |es| ==>
      && (es[i].id == EID_EXTENSION ==> |es[i].data| >= 1)
      && (es[i].id == EID_VENDOR ==> |Following(es, i)| >= 5)
  }

  ghost predicate NoSsid(es: seq<Elem>) {
    forall i :: 0 <= i < |es| ==> es[i].id != EID_SSID
  }

  /** The output buffer holds the elements that trace `t` names. */
  ghost predicate Holds(newIe: array<Byte>, pos: nat, t: seq<Source>, olds: seq<Elem>, subs: seq<Elem>)
    reads newIe
  {
    pos <= newIe.Length && newIe[..pos] == Serialize(Resolve(t, olds, subs)) && pos == TraceBytes(t, olds, subs)
  }

  method Emit(newIe: array<Byte>, pos: nat, bytes: seq<Byte>, ghost t: seq<Source>, ghost s: Source,
              ghost olds: seq<Elem>, ghost subs: seq<Elem>)
    returns (next: nat)
    requires Holds(newIe, pos, t, olds, subs) && bytes == Bytes(Pick(s, olds, subs))
    requires TraceBytes(t + [s], olds, subs) <= newIe.Length
    modifies newIe
    ensures Holds(newIe, next, t + [s], olds, subs)
  {
    hide Serialize;
    hide Resolve;
    hide TraceBytes;
    hide Bytes;
    ResolveGrows(t, s, olds, subs);
    next := Append(newIe, pos, bytes);
  }

  /** The bytes of the copy hold the profile with the used elements marked. */
  ghost predicate Copies(copy: array<Byte>, subs: seq<Elem>, used: set<nat>)
    reads copy
  {
    copy[..] == Serialize(Marked(subs, used))
  }

  /** A used or unused element of the copy: only the id may differ. */
  lemma {:induction false} CopyAt(b: seq<Byte>, subs: seq<Elem>, used: set<nat>, k: nat)
    requires b == Serialize(Marked(subs, used)) && k < |subs|
    ensures At(b, Offset(subs, k), Marked(subs, used)[k])
    ensures Offset(subs, k + 1) <= |b| && (k + 1 == |subs| <==> Offset(subs, k + 1) == |b|)
  {
    hide Serialize;
    hide Bytes;
    hide Marked;
    hide At;
    ElemAtOffset(Marked(subs, used), k);
    OffsetMonotone(Marked(subs, used), k + 1, |subs|);
    Lengths(Marked(subs, used), 0, Marked(subs, used));
    MarkedOffset(subs, used, k);
    MarkedOffset(subs, used, k + 1);
  }

  /** Looks for the override of a beacon element in the copy. */
  method FindOverride(ie: seq<Byte>, o: nat, copy: array<Byte>, ghost old_: Elem, ghost subs: seq<Elem>, ghost used: set<nat>)
    returns (pos: int)
    requires At(ie, o, old_) && old_.id != EID_SSID && (old_.id == EID_EXTENSION ==> |old_.data| >= 1)
    requires Copies(copy, subs, used)
    ensures var k := FirstFree(subs, used, old_, 0); pos == if k < |subs| then Offset(subs, k) else -1
  {
    hide Serialize;
    hide FirstFound;
    hide FirstFree;
    hide Bytes;
    if ie[o] == EID_EXTENSION {
      assert [ie[o + 2]] == Wanted(old_) by { assert ie[o + 2..o + 2 + |old_.data|][0] == ie[o + 2]; }
      pos := FindElem(EID_EXTENSION, copy[..], [ie[o + 2]], 2);
    } else {
      pos := FindElem(ie[o], copy[..], [], 2);
    }
    ParseSerialize(Marked(subs, used));
    FoundIsFree(old_, subs, used);
    MarkedOffset(subs, used, FirstFree(subs, used, old_, 0));
  }

  /** One beacon element: kept, dropped, or replaced by a profile element that is then marked. */
  method OverrideOne(ie: seq<Byte>, o: nat, copy: array<Byte>, newIe: array<Byte>, pos: nat, ni: Option<Elem>,
                     ghost olds: seq<Elem>, ghost subs: seq<Elem>, ghost n: nat)
    returns (next: nat)
    requires copy != newIe && n < |olds| && At(ie, o, olds[n]) && ie[o..] == Serialize(olds[n..])
    requires NoSsid(olds) && Readable(olds) && Readable(subs)
    requires Copies(copy, subs, Override(olds, subs, ni, n).used)
    requires Holds(newIe, pos, NewSsid(subs) + Override(olds, subs, ni, n).trace, olds, subs)
    requires newIe.Length >= Offset(olds, |olds|) + Offset(subs, |subs|)
    modifies copy, newIe
    ensures Copies(copy, subs, Override(olds, subs, ni, n + 1).used)
    ensures Holds(newIe, next, NewSsid(subs) + Override(olds, subs, ni, n + 1).trace, olds, subs)
  {
    hide Serialize;
    hide NewSsid;
    hide FirstFree;
    hide Bytes;
    hide Holds;
    hide Inherited;
    hide Override;
    hide SameVendor;
    hide Marked;
    ghost var used := Override(olds, subs, ni, n).used;
    ghost var t := NewSsid(subs) + Override(olds, subs, ni, n).trace;
    ghost var k := FirstFree(subs, used, olds[n], 0);
    OverrideFits(olds, subs, ni, n + 1);
    OffsetMonotone(olds, n + 1, |olds|);
    OverrideNext(olds, subs, ni, n);
    var size := 2 + ie[o + 1] as int;
    var found := FindOverride(ie, o, copy, olds[n], subs, used);
    if found < 0 {
      assert olds[n] == Elem(ie[o], ie[o + 2..o + size]);
      var inherited := IsInherited(Elem(ie[o], ie[o + 2..o + size]), ni);
      if !inherited { return pos; }
      next := Emit(newIe, pos, ie[o..o + size], t, FromBeacon(n), olds, subs);
    } else {
      FreeAt(copy[..], subs, used, olds[n]);
      if ie[o] == EID_VENDOR {
        VendorBytes(ie, o, olds, n, copy[..], found, subs, used, k);
        if ie[o + 2..o + 7] == copy[found + 2..found + 7] {
          next := TakeOverride(copy, found, newIe, pos, t, olds, subs, used, k);
        } else {
          next := Emit(newIe, pos, ie[o..o + size], t, FromBeacon(n), olds, subs);
        }
      } else {
        next := TakeOverride(copy, found, newIe, pos, t, olds, subs, used, k);
      }
    }
  }

  /** Copies a profile element to the output and marks it as used. */
  method TakeOverride(copy: array<Byte>, found: nat, newIe: array<Byte>, pos: nat, ghost t: seq<Source>,
                      ghost olds: seq<Elem>, ghost subs: seq<Elem>, ghost used: set<nat>, ghost k: nat)
    returns (next: nat)
    requires copy != newIe && k < |subs| && k !in used && found == Offset(subs, k)
    requires Copies(copy, subs, used) && Holds(newIe, pos, t, olds, subs)
    requires TraceBytes(t + [FromProfile(k)], olds, subs) <= newIe.Length
    modifies copy, newIe
    ensures Copies(copy, subs, used + {k}) && Holds(newIe, next, t + [FromProfile(k)], olds, subs)
  {
    hide Serialize;
    hide Bytes;
    hide Holds;
    hide TraceBytes;
    hide Offset;
    CopyAt(copy[..], subs, used, k);
    assert Marked(subs, used)[k] == subs[k];
    hide Marked;
    next := Emit(newIe, pos, copy[found..found + 2 + copy[found + 1] as int], t, FromProfile(k), olds, subs);
    MarkOne(subs, used, k);
    copy[found] := EID_SSID;
  }

  lemma {:induction false} FreeAt(b: seq<Byte>, subs: seq<Elem>, used: set<nat>, old_: Elem)
    requires b == Serialize(Marked(subs, used)) && FirstFree(subs, used, old_, 0) < |subs|
    ensures var k := FirstFree(subs, used, old_, 0);
            k !in used && subs[k].id == old_.id && At(b, Offset(subs, k), subs[k])
  {
    CopyAt(b, subs, used, FirstFree(subs, used, old_, 0));
  }

  /** One step of the override, in terms of the trace that includes the SSID. */
  lemma {:induction false} OverrideNext(olds: seq<Elem>, subs: seq<Elem>, ni: Option<Elem>, n: nat)
    requires n < |olds|
    ensures var p, p' := Override(olds, subs, ni, n), Override(olds, subs, ni, n + 1);
            var t, t' := NewSsid(subs) + p.trace, NewSsid(subs) + p'.trace;
            match Choose(olds, n, subs, p.used, ni)
            case Drop => t' == t && p'.used == p.used
            case Keep => t' == t + [FromBeacon(n)] && p'.used == p.used
            case Take(k) => t' == t + [FromProfile(k)] && p'.used == p.used + {k}
  {
    hide Choose;
    hide NewSsid;
    var p := Override(olds, subs, ni, n);
    match Choose(olds, n, subs, p.used, ni)
    case Drop =>
    case Keep => assert NewSsid(subs) + (p.trace + [FromBeacon(n)]) == NewSsid(subs) + p.trace + [FromBeacon(n)];
    case Take(k) => assert NewSsid(subs) + (p.trace + [FromProfile(k)]) == NewSsid(subs) + p.trace + [FromProfile(k)];
  }

  /** The bytes after the head of an element in a buffer. */
  lemma {:induction false} FollowingBytes(b: seq<Byte>, o: nat, es: seq<Elem>, k: nat)
    requires k < |es| && o <= |b| && b[o..] == Serialize(es[k..])
    ensures o + 2 <= |b| && b[o + 2..] == Following(es, k)
  {
    hide Serialize;
    SplitAt(es[k..], 0);
    var none := es[k..][..0];
    NonEmpty(none);
    assert es[k..][1..] == es[k + 1..];
    assert b[o..] == Bytes(es[k]) + Serialize(es[k + 1..]);
    assert b[o + 2..] == b[o..][2..];
  }

  /** From the beginning of an element on, a buffer holds this element and those after it. */
  lemma {:induction false} RestOf(es: seq<Elem>, k: nat)
    requires k <= |es|
    ensures Offset(es, k) <= |Serialize(es)| && Serialize(es)[Offset(es, k)..] == Serialize(es[k..])
  {
    hide Serialize;
    hide Offset;
    OffsetIsLength(es, k);
    assert es == es[..k] + es[k..];
    SerializeConcat(es[..k], es[k..]);
  }

  lemma {:induction false} SameReach(subs: seq<Elem>, used: set<nat>, k: nat)
    requires k < |subs|
    ensures |Following(Marked(subs, used), k)| == |Following(subs, k)|
  {
    hide Serialize;
    hide Offset;
    var ms := Marked(subs, used);
    RestOf(subs, k + 1);
    RestOf(ms, k + 1);
    MarkedOffset(subs, used, k + 1);
    Lengths(ms, 0, ms);
    Lengths(subs, 0, subs);
    MarkedOffset(subs, used, |subs|);
  }

  /** The comparison of vendor elements, on the bytes of the two buffers. */
  lemma {:induction false} VendorBytes(a: seq<Byte>, o: nat, olds: seq<Elem>, n: nat, b: seq<Byte>, q: nat, subs: seq<Elem>, used: set<nat>, k: nat)
    requires n < |olds| && o <= |a| && a[o..] == Serialize(olds[n..]) && olds[n].id == EID_VENDOR && Readable(olds)
    requires k < |subs| && b == Serialize(Marked(subs, used)) && q == Offset(subs, k) && subs[k].id == EID_VENDOR && Readable(subs)
    ensures o + 7 <= |a| && q + 7 <= |b|
    ensures SameVendor(olds, n, subs, used, k) <==> a[o + 2..o + 7] == b[q + 2..q + 7]
  {
    hide Serialize;
    hide Offset;
    hide Following;
    var ms := Marked(subs, used);
    FollowingBytes(a, o, olds, n);
    MarkedOffset(subs, used, k);
    RestOf(ms, k);
    FollowingBytes(b, q, ms, k);
    SameReach(subs, used, k);
    assert a[o + 2..][..5] == a[o + 2..o + 7] && b[q + 2..][..5] == b[q + 2..q + 7];
  }

  /** Appends what is left of the profile. */
  method CopyLeftovers(copy: array<Byte>, newIe: array<Byte>, pos: nat, ghost olds: seq<Elem>, ghost subs: seq<Elem>,
                       ghost ni: Option<Elem>)
    returns (len: nat)
    requires copy != newIe && |subs| > 0 && NoSsid(olds)
    requires Copies(copy, subs, Override(olds, subs, ni, |olds|).used)
    requires Holds(newIe, pos, NewSsid(subs) + Override(olds, subs, ni, |olds|).trace, olds, subs)
    requires newIe.Length >= Offset(olds, |olds|) + Offset(subs, |subs|)
    modifies newIe
    ensures Holds(newIe, len, Expansion(olds, subs, ni), olds, subs)
  {
    hide Serialize;
    hide Override;
    hide NewSsid;
    hide Holds;
    hide Bytes;
    hide TraceBytes;
    hide Leftovers;
    hide Marked;
    hide Offset;
    ghost var used := Override(olds, subs, ni, |olds|).used;
    ghost var head := NewSsid(subs) + Override(olds, subs, ni, |olds|).trace;
    ghost var k := 0;
    var o := 0;
    len := pos;
    LeftoverStart(subs, used, head);
    CopyAt(copy[..], subs, used, 0);
    OffsetNext(subs, 0);
    while o + 2 + copy[o + 1] as int <= copy.Length
      invariant k < |subs| && o == Offset(subs, k) && At(copy[..], o, Marked(subs, used)[k])
      invariant Holds(newIe, len, head + Leftovers(subs, used, k), olds, subs)
      decreases |subs| - k
    {
      ghost var t := head + Leftovers(subs, used, k);
      CopyAt(copy[..], subs, used, k);
      SameLength(subs, used, k);
      OffsetNext(subs, k);
      ExpansionFits(olds, subs, ni, k + 1);
      LeftoverNext(subs, used, head, k);
      var size := 2 + copy[o + 1] as int;
      if !(copy[o] == EID_NON_TX_BSSID_CAP || copy[o] == EID_SSID) {
        len := Emit(newIe, len, copy[o..o + size], t, FromProfile(k), olds, subs);
      }
      assert Holds(newIe, len, head + Leftovers(subs, used, k + 1), olds, subs);
      if o + size == copy.Length { break; }
      o := o + size;
      k := k + 1;
      CopyAt(copy[..], subs, used, k);
    }
  }

  lemma {:induction false} SameLength(subs: seq<Elem>, used: set<nat>, k: nat)
    requires k < |subs|
    ensures |Marked(subs, used)| == |subs| && |Marked(subs, used)[k].data| == |subs[k].data|
  {
  }

  lemma {:induction false} LeftoverStart(subs: seq<Elem>, used: set<nat>, head: seq<Source>)
    ensures head + Leftovers(subs, used, 0) == head
  {
  }

  /** A marked element is left out, like the SSIDs and the capability element. */
  lemma {:induction false} LeftoverNext(subs: seq<Elem>, used: set<nat>, head: seq<Source>, k: nat)
    requires k < |subs|
    ensures var e := Marked(subs, used)[k];
            var t, t' := head + Leftovers(subs, used, k), head + Leftovers(subs, used, k + 1);
            if e.id == EID_NON_TX_BSSID_CAP || e.id == EID_SSID then t' == t
            else t' == t + [FromProfile(k)] && e == Pick(FromProfile(k), [], subs)
  {
    var l := Leftovers(subs, used, k);
    assert head + (l + [FromProfile(k)]) == head + l + [FromProfile(k)];
    assert head + (l + []) == head + l;
  }

  /** What the expansion relies on: two well-formed lists, at least one beacon element after the SSID and none of
      them another SSID, and a profile that is not empty. */
  ghost predicate Expandable(ie: seq<Byte>, subelement: seq<Byte>) {
    var es, subs := Parse(ie), Parse(subelement);
    && WellFormed(ie) && WellFormed(subelement)
    && AfterSsid(es) < |es| && |subs| > 0
    && NoSsid(es[AfterSsid(es)..]) && Readable(es[AfterSsid(es)..]) && Readable(subs)
  }

  ghost function BeaconElems(ie: seq<Byte>): seq<Elem> { Parse(ie)[AfterSsid(Parse(ie))..] }

  /** Where the walk over the beacon starts. */
  method BeaconStart(ie: seq<Byte>, ghost es: seq<Elem>) returns (o: nat)
    requires es == Parse(ie) && ie == Serialize(es)
    ensures o == Offset(es, AfterSsid(es))
  {
    hide Serialize;
    hide Parse;
    hide FirstFound;
    var found := FindElem(EID_SSID, ie, [], 2);
    if found < 0 { return 0; }
    Locate(es, AfterSsid(es) - 1);
    return found + 2 + ie[found + 1] as int;
  }

  lemma {:induction false} ElemAtOffset(es: seq<Elem>, k: nat)
    requires k < |es|
    ensures At(Serialize(es), Offset(es, k), es[k]) && Offset(es, k + 1) == Offset(es, k) + 2 + |es[k].data|
    ensures k + 1 == |es| <==> Offset(es, k + 1) == |Serialize(es)|
  {
    hide Serialize;
    hide Bytes;
    Locate(es, k);
  }

  /** Passes over the beacon's elements. */
  method OverrideAll(ie: seq<Byte>, start: nat, copy: array<Byte>, newIe: array<Byte>, pos0: nat, ni: Option<Elem>,
                     ghost es: seq<Elem>, ghost m: nat, ghost subs: seq<Elem>)
    returns (pos: nat)
    requires copy != newIe && ie == Serialize(es) && m < |es| && start == Offset(es, m)
    requires NoSsid(es[m..]) && Readable(es[m..]) && Readable(subs)
    requires Copies(copy, subs, {}) && Holds(newIe, pos0, NewSsid(subs), es[m..], subs)
    requires newIe.Length >= Offset(es[m..], |es| - m) + Offset(subs, |subs|)
    modifies copy, newIe
    ensures Copies(copy, subs, Override(es[m..], subs, ni, |es| - m).used)
    ensures Holds(newIe, pos, NewSsid(subs) + Override(es[m..], subs, ni, |es| - m).trace, es[m..], subs)
  {
    hide Serialize;
    hide Override;
    hide Holds;
    hide Copies;
    hide Bytes;
    hide Readable;
    hide NewSsid;
    hide Offset;
    ghost var olds := es[m..];
    ghost var i := 0;
    OverrideNone(olds, subs, ni);
    ElemAtOffset(es, m);
    var o := start;
    pos := pos0;
    while o + 2 + ie[o + 1] as int <= |ie|
      invariant i < |olds| && o == Offset(es, m + i) && At(ie, o, olds[i])
      invariant Copies(copy, subs, Override(olds, subs, ni, i).used)
      invariant Holds(newIe, pos, NewSsid(subs) + Override(olds, subs, ni, i).trace, olds, subs)
      decreases |olds| - i
    {
      if ie[o] == EID_SSID {
        o := o + 1;
        continue;
      }
      RestOf(es, m + i);
      assert es[m + i..] == olds[i..];
      pos := OverrideOne(ie, o, copy, newIe, pos, ni, olds, subs, i);
      ElemAtOffset(es, m + i);
      if o + 2 + ie[o + 1] as int == |ie| { break; }
      o := o + 2 + ie[o + 1] as int;
      i := i + 1;
      ElemAtOffset(es, m + i);
    }
  }

  /** The expansion, for any non-inheritance element: the bytes written are exactly the list-level expansion, and
      they fit a buffer as long as both inputs together. */
  method ExpandProfile(ie: seq<Byte>, subelement: seq<Byte>, newIe: array<Byte>, ni: Option<Elem>) returns (len: nat)
    requires Expandable(ie, subelement) && newIe.Length >= |ie| + |subelement|
    modifies newIe
    ensures var olds, subs := BeaconElems(ie), Parse(subelement);
            && len <= |ie| + |subelement|
            && newIe[..len] == Serialize(Resolve(Expansion(olds, subs, ni), olds, subs))
  {
    hide Serialize;
    hide Parse;
    hide Override;
    hide Resolve;
    hide TraceBytes;
    hide FirstFound;
    hide WellFormed;
    hide Offset;
    ghost var es, subs := Parse(ie), Parse(subelement);
    ghost var m := AfterSsid(es);
    SerializeParse(ie);
    SerializeParse(subelement);
    Lengths(es, m, subs);
    ExpansionFits(es[m..], subs, ni, |subs|);
    var copy := new Byte[|subelement|](i requires 0 <= i < |subelement| => subelement[i]);
    assert copy[..] == subelement;
    var pos := CopySsid(copy, newIe, es[m..], subs);
    var start := BeaconStart(ie, es);
    pos := OverrideAll(ie, start, copy, newIe, pos, ni, es, m, subs);
    len := CopyLeftovers(copy, newIe, pos, es[m..], subs, ni);
  }

  function ElemAt(b: seq<Byte>, o: int): Option<Elem> {
    if 0 <= o && o + 2 <= |b| && o + 2 + b[o + 1] as int <= |b| then Some(Elem(b[o], b[o + 2..o + 2 + b[o + 1] as int]))
    else None
  }

  /** Derives the element list of a non-transmitted BSS. The search for the non-inheritance element uses offset 0
      and never succeeds, so everything but Multiple BSSID elements is inherited. */
  method GenNewIe(ie: seq<Byte>, subelement: seq<Byte>, newIe: array<Byte>) returns (len: nat)
    requires Expandable(ie, subelement) && newIe.Length >= |ie| + |subelement|
    modifies newIe
    ensures var olds, subs := BeaconElems(ie), Parse(subelement);
            && len <= |ie| + |subelement|
            && newIe[..len] == Serialize(Resolve(Expansion(olds, subs, None), olds, subs))
  {
    var n := FindElem(EID_EXTENSION, subelement, [EXT_NON_INHERITANCE], 0);
    OffsetZeroFindsNothing(Parse(subelement), EID_EXTENSION, [EXT_NON_INHERITANCE]);
    len := ExpandProfile(ie, subelement, newIe, ElemAt(subelement, n));
  }

  lemma {:induction false} OverrideNone(olds: seq<Elem>, subs: seq<Elem>, ni: Option<Elem>)
    ensures var p := Override(olds, subs, ni, 0); p.used == {} && NewSsid(subs) + p.trace == NewSsid(subs)
  {
  }

  lemma {:induction false} Lengths(es: seq<Elem>, m: nat, subs: seq<Elem>)
    requires m <= |es|
    ensures Offset(es[m..], |es| - m) <= |Serialize(es)|
    ensures Offset(subs, |subs|) == |Serialize(subs)|
  {
    OffsetIsLength(es[m..], |es| - m);
    OffsetIsLength(subs, |subs|);
    assert subs[..|subs|] == subs && es[m..][..|es| - m] == es[m..];
    assert es == es[..m] + es[m..];
    SerializeConcat(es[..m], es[m..]);
  }

  /** The profile's SSID comes first. */
  method CopySsid(copy: array<Byte>, newIe: array<Byte>, ghost olds: seq<Elem>, ghost subs: seq<Elem>) returns (pos: nat)
    requires copy != newIe && copy[..] == Serialize(subs)
    requires newIe.Length >= Offset(olds, |olds|) + Offset(subs, |subs|)
    modifies newIe
    ensures copy[..] == old(copy[..]) && Copies(copy, subs, {})
    ensures Holds(newIe, pos, NewSsid(subs), olds, subs)
  {
    hide Serialize;
    hide FirstFound;
    hide Bytes;
    hide Holds;
    hide TraceBytes;
    hide NewSsid;
    hide At;
    assert Marked(subs, {}) == subs;
    ParseSerialize(subs);
    NothingHeld(newIe, olds, subs);
    pos := 0;
    var found := FindElem(EID_SSID, copy[..], [], 2);
    SsidTrace(olds, subs);
    if found >= 0 {
      assert At(copy[..], found, subs[SsidIndex(subs)]) by { ElemAtOffset(subs, SsidIndex(subs)); }
      var size := SizeAt(copy, found, subs[SsidIndex(subs)]);
      pos := Emit(newIe, 0, copy[found..found + size], [], FromProfile(SsidIndex(subs)), olds, subs);
    }
  }

  method SizeAt(copy: array<Byte>, o: nat, ghost e: Elem) returns (size: nat)
    requires At(copy[..], o, e)
    ensures o + size <= copy.Length && copy[o..o + size] == Bytes(e)
  {
    size := 2 + copy[o + 1] as int;
  }

  lemma {:induction false} SsidTrace(olds: seq<Elem>, subs: seq<Elem>)
    ensures TraceBytes(NewSsid(subs), olds, subs) <= Offset(subs, |subs|)
    ensures NewSsid(subs) == if SsidIndex(subs) < |subs| then [] + [FromProfile(SsidIndex(subs))] else []
  {
    SsidBytes(olds, subs);
    if SsidIndex(subs) < |subs| { OffsetMonotone(subs, SsidIndex(subs) + 1, |subs|); }
  }

  lemma {:induction false} NothingHeld(newIe: array<Byte>, olds: seq<Elem>, subs: seq<Elem>)
    ensures Holds(newIe, 0, [], olds, subs)
  {
  }

  /** Read back by the same walk, the output is the expanded list; and nothing in it is used twice. */
  lemma {:induction false} ExpansionReadsBack(olds: seq<Elem>, subs: seq<Elem>, ni: Option<Elem>)
    ensures var out := Serialize(Resolve(Expansion(olds, subs, ni), olds, subs));
            WellFormed(out) && Parse(out) == Resolve(Expansion(olds, subs, ni), olds, subs)
  {
    ParseSerialize(Resolve(Expansion(olds, subs, ni), olds, subs));
  }
}
