/** Expansion of a non-transmitted BSS's profile against the beacon of the transmitting one, on lists of elements
    (skw_mbssid.c; section 11.1.3.8 of IEEE Std 802.11-2020). */
module MbssidSpec {
  import opened Elements
  import opened Options

  const EID_SSID: Byte := 0
  const EID_MULTIPLE_BSSID: Byte := 71
  const EID_NON_TX_BSSID_CAP: Byte := 83
  const EID_VENDOR: Byte := 221
  const EID_EXTENSION: Byte := 255
  const EXT_NON_INHERITANCE: Byte := 56

  // ----- searching a list

  /** What an element must satisfy to be found: its id, and `match` at `offset` bytes from the element's start.
      The length comparison is made on unsigned 32-bit values. */
  predicate Found(e: Elem, eid: Byte, match_: seq<Byte>, offset: nat) {
    && e.id == eid
    && |e.data| >= (offset - 2 + |match_|) % 0x1_0000_0000
    && offset + |match_| <= |Bytes(e)| && Bytes(e)[offset..offset + |match_|] == match_
  }

  /** At the data's start: the data begins with the match. */
  lemma {:induction false} FoundAtData(e: Elem, eid: Byte, match_: seq<Byte>)
    requires |match_| < 0x1_0000_0000
    ensures Found(e, eid, match_, 2) <==> e.id == eid && |match_| <= |e.data| && e.data[..|match_|] == match_
  {
    if |match_| <= |e.data| { assert Bytes(e)[2..2 + |match_|] == e.data[..|match_|]; }
  }

  function FirstFound(es: seq<Elem>, eid: Byte, match_: seq<Byte>, offset: nat, k: nat): (r: nat)
    requires k <= |es|
    ensures k <= r <= |es|
    ensures forall j :: k <= j < r ==> !Found(es[j], eid, match_, offset)
    ensures r < |es| ==> Found(es[r], eid, match_, offset)
    decreases |es| - k
  {
    if k == |es| || Found(es[k], eid, match_, offset) then k else FirstFound(es, eid, match_, offset, k + 1)
  }

  /** The elements after the first SSID, or all of them when there is none. */
  function AfterSsid(es: seq<Elem>): nat
    ensures AfterSsid(es) <= |es|
  {
    var k := FirstFound(es, EID_SSID, [], 2, 0);
    if k < |es| then k + 1 else 0
  }

  // ----- inheritance

  predicate Inherited(e: Elem, ni: Option<Elem>) {
    if e.id == EID_MULTIPLE_BSSID then false
    else if ni.None? || |ni.value.data| < 2 then true
    else
      var d := ni.value.data;
      var idLen := d[1] as int;
      if |d| < 3 + idLen || |d| < 3 + idLen + d[2 + idLen] as int then true
      else if e.id == EID_EXTENSION then |e.data| >= 1 ==> e.data[0] !in d[3 + idLen..3 + idLen + d[2 + idLen] as int]
      else e.id !in d[2..2 + idLen]
  }

  // ----- overriding

  datatype Source = FromBeacon(i: nat) | FromProfile(k: nat)

  /** The profile's element `s` speaks of the same thing as the beacon's element `old_`. */
  predicate SameKey(old_: Elem, s: Elem) {
    && s.id == old_.id
    && (s.id == EID_EXTENSION ==> |old_.data| >= 1 && |s.data| >= 1 && s.data[0] == old_.data[0])
  }

  /** The profile after its used elements have been marked with the SSID id. */
  function Marked(subs: seq<Elem>, used: set<nat>): (es: seq<Elem>)
    ensures |es| == |subs| && forall k :: 0 <= k < |subs| ==> es[k].data == subs[k].data
  {
    seq(|subs|, k requires 0 <= k < |subs| => if k in used then subs[k].(id := EID_SSID) else subs[k])
  }

  /** The bytes from the data of element `k` on. */
  function Following(es: seq<Elem>, k: nat): seq<Byte>
    requires k < |es|
  {
    es[k].data + Serialize(es[k + 1..])
  }

  /** The five bytes that are compared agree. In a vendor element of less than five bytes they reach into what follows:
      in the beacon, and in the profile as it is marked at that time. */
  predicate SameVendor(olds: seq<Elem>, n: nat, subs: seq<Elem>, used: set<nat>, k: nat)
    requires n < |olds| && k < |subs|
  {
    var a, b := Following(olds, n), Following(Marked(subs, used), k);
    |a| >= 5 && |b| >= 5 && a[..5] == b[..5]
  }

  /** Vendor elements of at least five bytes are compared by their own bytes. */
  lemma {:induction false} LongVendor(olds: seq<Elem>, n: nat, subs: seq<Elem>, used: set<nat>, k: nat)
    requires n < |olds| && k < |subs| && |olds[n].data| >= 5 && |subs[k].data| >= 5
    ensures SameVendor(olds, n, subs, used, k) <==> olds[n].data[..5] == subs[k].data[..5]
  {
    assert Following(olds, n)[..5] == olds[n].data[..5];
    assert Following(Marked(subs, used), k)[..5] == subs[k].data[..5];
  }

  /** Vendor elements of four bytes agree iff their bytes do and the elements after them have the same id, where a used
      one has the id of an SSID. */
  lemma {:induction false} ShortVendor(olds: seq<Elem>, n: nat, subs: seq<Elem>, used: set<nat>, k: nat)
    requires n + 1 < |olds| && k + 1 < |subs| && |olds[n].data| == |subs[k].data| == 4
    ensures SameVendor(olds, n, subs, used, k) <==>
            olds[n].data == subs[k].data && olds[n + 1].id == Marked(subs, used)[k + 1].id
  {
    hide Serialize;
    var ms := Marked(subs, used);
    NextId(olds, n);
    NextId(ms, k);
    var a, b := Following(olds, n), Following(ms, k);
    assert a[..5] == olds[n].data + [a[4]] && b[..5] == subs[k].data + [b[4]];
    assert a[..5][..4] == olds[n].data && b[..5][..4] == subs[k].data && a[..5][4] == a[4] && b[..5][4] == b[4];
  }

  lemma {:induction false} NextId(es: seq<Elem>, k: nat)
    requires k + 1 < |es|
    ensures |Serialize(es[k + 1..])| >= 2 && Serialize(es[k + 1..])[0] == es[k + 1].id
  {
    hide Serialize;
    SplitAt(es[k + 1..], 0);
    var none := es[k + 1..][..0];
    assert Serialize(none) == [] by { NonEmpty(none); }
  }

  function FirstFree(subs: seq<Elem>, used: set<nat>, old_: Elem, k: nat): (r: nat)
    requires k <= |subs|
    ensures k <= r <= |subs|
    ensures forall j :: k <= j < r ==> j in used || !SameKey(old_, subs[j])
    ensures r < |subs| ==> r !in used && SameKey(old_, subs[r])
    decreases |subs| - k
  {
    if k == |subs| || (k !in used && SameKey(old_, subs[k])) then k else FirstFree(subs, used, old_, k + 1)
  }

  datatype Choice = Drop | Keep | Take(k: nat)

  /** What becomes of beacon element `n`. A vendor element is only overridden when it is the same vendor's. */
  function Choose(olds: seq<Elem>, n: nat, subs: seq<Elem>, used: set<nat>, ni: Option<Elem>): (c: Choice)
    requires n < |olds|
    ensures c.Take? ==> c.k < |subs| && c.k !in used && subs[c.k].id == olds[n].id
  {
    var k := FirstFree(subs, used, olds[n], 0);
    if k == |subs| then if Inherited(olds[n], ni) then Keep else Drop
    else if olds[n].id == EID_VENDOR && !SameVendor(olds, n, subs, used, k) then Keep
    else Take(k)
  }

  datatype Progress = Progress(trace: seq<Source>, used: set<nat>)

  /** Where the output of the first `n` beacon elements comes from, and which profile elements it has used. */
  function Override(olds: seq<Elem>, subs: seq<Elem>, ni: Option<Elem>, n: nat): Progress
    requires n <= |olds|
  {
    if n == 0 then Progress([], {})
    else
      var p := Override(olds, subs, ni, n - 1);
      match Choose(olds, n - 1, subs, p.used, ni)
      case Drop => p
      case Keep => p.(trace := p.trace + [FromBeacon(n - 1)])
      case Take(k) => Progress(p.trace + [FromProfile(k)], p.used + {k})
  }

  predicate Carried(subs: seq<Elem>, k: nat)
    requires k < |subs|
  {
    subs[k].id != EID_SSID && subs[k].id != EID_NON_TX_BSSID_CAP
  }

  function Leftovers(subs: seq<Elem>, used: set<nat>, n: nat): seq<Source>
    requires n <= |subs|
  {
    if n == 0 then []
    else Leftovers(subs, used, n - 1) + (if n - 1 !in used && Carried(subs, n - 1) then [FromProfile(n - 1)] else [])
  }

  function NewSsid(subs: seq<Elem>): seq<Source> {
    var k := FirstFound(subs, EID_SSID, [], 2, 0);
    if k < |subs| then [FromProfile(k)] else []
  }

  /** The new SSID, the overridden or inherited elements in beacon order, and the rest of the profile. */
  function Expansion(olds: seq<Elem>, subs: seq<Elem>, ni: Option<Elem>): seq<Source> {
    var p := Override(olds, subs, ni, |olds|);
    NewSsid(subs) + p.trace + Leftovers(subs, p.used, |subs|)
  }

  function Pick(s: Source, olds: seq<Elem>, subs: seq<Elem>): Elem {
    match s
    case FromBeacon(i) => if i < |olds| then olds[i] else Elem(0, [])
    case FromProfile(k) => if k < |subs| then subs[k] else Elem(0, [])
  }

  function Resolve(t: seq<Source>, olds: seq<Elem>, subs: seq<Elem>): seq<Elem> {
    seq(|t|, j requires 0 <= j < |t| => Pick(t[j], olds, subs))
  }

  /** Bytes of the elements a trace names. */
  function TraceBytes(t: seq<Source>, olds: seq<Elem>, subs: seq<Elem>): nat
    decreases |t|
  {
    if t == [] then 0
    else TraceBytes(t[..|t| - 1], olds, subs) + 2 + |Pick(t[|t| - 1], olds, subs).data|
  }

  // ----- what the expansion guarantees

  /** With a zero offset and at most one byte to match, nothing is ever found: the required length wraps around.
      So no non-inheritance element and no continuation of a profile is ever found. */
  lemma {:induction false} OffsetZeroFindsNothing(es: seq<Elem>, eid: Byte, match_: seq<Byte>)
    requires |match_| <= 1
    ensures FirstFound(es, eid, match_, 0, 0) == |es|
  {
  }

  ghost predicate UsesOnce(t: seq<Source>) {
    forall a, b :: 0 <= a < b < |t| ==> t[a] != t[b]
  }

  /** A source of the first `n` beacon elements' output. */
  ghost predicate Known(s: Source, used: set<nat>, n: nat) {
    match s
    case FromBeacon(i) => i < n
    case FromProfile(k) => k in used
  }

  lemma {:induction false} OverrideSources(olds: seq<Elem>, subs: seq<Elem>, ni: Option<Elem>, n: nat)
    requires n <= |olds|
    ensures var p := Override(olds, subs, ni, n);
            && UsesOnce(p.trace)
            && (forall a :: 0 <= a < |p.trace| ==> Known(p.trace[a], p.used, n))
  {
    hide Choose;
    if n > 0 { OverrideSources(olds, subs, ni, n - 1); }
  }

  lemma {:induction false} OverrideUsed(olds: seq<Elem>, subs: seq<Elem>, ni: Option<Elem>, n: nat, k: nat)
    requires n <= |olds| && k in Override(olds, subs, ni, n).used
    requires forall i :: 0 <= i < |olds| ==> olds[i].id != EID_SSID
    ensures k < |subs| && subs[k].id != EID_SSID && FromProfile(k) in Override(olds, subs, ni, n).trace
  {
    hide Choose;
    if n > 0 {
      var p := Override(olds, subs, ni, n - 1);
      if k in p.used { OverrideUsed(olds, subs, ni, n - 1, k); }
    }
  }

  lemma {:induction false} LeftoverSources(subs: seq<Elem>, used: set<nat>, n: nat)
    requires n <= |subs|
    ensures var t := Leftovers(subs, used, n);
            && UsesOnce(t)
            && (forall s :: s in t <==> s.FromProfile? && s.k < n && s.k !in used && Carried(subs, s.k))
  {
    if n > 0 { LeftoverSources(subs, used, n - 1); }
  }

  lemma {:induction false} TwoParts(a: seq<Source>, b: seq<Source>)
    requires UsesOnce(a) && UsesOnce(b) && forall s :: s in a ==> s !in b
    ensures UsesOnce(a + b)
  {
    forall i, j | 0 <= i < j < |a + b| ensures (a + b)[i] != (a + b)[j] {
      if i < |a| <= j { assert a[i] in a && b[j - |a|] in b; }
    }
  }

  /** No element is used twice, and every element of the profile is carried over exactly once, except its SSIDs
      after the first and the capability element. Beacon elements with SSID identifiers must not occur. */
  lemma {:induction false} ExpansionIsComplete(olds: seq<Elem>, subs: seq<Elem>, ni: Option<Elem>)
    requires forall i :: 0 <= i < |olds| ==> olds[i].id != EID_SSID
    ensures UsesOnce(Expansion(olds, subs, ni))
    ensures forall k :: 0 <= k < |subs| && Carried(subs, k) ==> FromProfile(k) in Expansion(olds, subs, ni)
    ensures forall k :: 0 <= k < |subs| && subs[k].id == EID_SSID ==>
              (FromProfile(k) in Expansion(olds, subs, ni) <==> k == FirstFound(subs, EID_SSID, [], 2, 0))
  {
    hide Override;
    hide Leftovers;
    hide FirstFound;
    var p := Override(olds, subs, ni, |olds|);
    var left := Leftovers(subs, p.used, |subs|);
    OverrideSources(olds, subs, ni, |olds|);
    LeftoverSources(subs, p.used, |subs|);
    forall k | k in p.used ensures k < |subs| && subs[k].id != EID_SSID && FromProfile(k) in p.trace {
      OverrideUsed(olds, subs, ni, |olds|, k);
    }
    CompleteParts(subs, p, left);
  }

  /** The override's sources are beacon elements and used profile elements, the leftovers the other carried ones. */
  ghost predicate Parts(subs: seq<Elem>, p: Progress, left: seq<Source>) {
    && UsesOnce(p.trace) && UsesOnce(left)
    && (forall a :: 0 <= a < |p.trace| ==> p.trace[a].FromProfile? ==> p.trace[a].k in p.used)
    && (forall k :: k in p.used ==> k < |subs| && subs[k].id != EID_SSID && FromProfile(k) in p.trace)
    && (forall s :: s in left <==> s.FromProfile? && s.k < |subs| && s.k !in p.used && Carried(subs, s.k))
  }

  lemma {:induction false} SsidIsApart(subs: seq<Elem>, p: Progress, left: seq<Source>, k: nat)
    requires Parts(subs, p, left) && k < |subs| && subs[k].id == EID_SSID
    ensures FromProfile(k) !in p.trace && FromProfile(k) !in left
  {
  }

  lemma {:induction false} TraceIsApart(subs: seq<Elem>, p: Progress, left: seq<Source>, s: Source)
    requires Parts(subs, p, left) && s in p.trace
    ensures s !in left
  {
  }

  lemma {:induction false} CarriedIsIn(subs: seq<Elem>, p: Progress, left: seq<Source>, k: nat)
    requires Parts(subs, p, left) && k < |subs| && Carried(subs, k)
    ensures FromProfile(k) in p.trace || FromProfile(k) in left
  {
  }

  lemma {:induction false} SsidPart(subs: seq<Elem>, s: Source)
    ensures UsesOnce(NewSsid(subs))
    ensures s in NewSsid(subs) <==> s.FromProfile? && s.k < |subs| && s.k == FirstFound(subs, EID_SSID, [], 2, 0)
    ensures s in NewSsid(subs) ==> subs[s.k].id == EID_SSID
  {
  }

  lemma {:induction false} CompleteParts(subs: seq<Elem>, p: Progress, left: seq<Source>)
    requires Parts(subs, p, left)
    ensures var t := NewSsid(subs) + p.trace + left;
            && UsesOnce(t)
            && (forall k :: 0 <= k < |subs| && Carried(subs, k) ==> FromProfile(k) in t)
            && (forall k :: 0 <= k < |subs| && subs[k].id == EID_SSID ==>
                  (FromProfile(k) in t <==> k == FirstFound(subs, EID_SSID, [], 2, 0)))
  {
    assert UsesOnce(p.trace) && UsesOnce(left);
    hide FirstFound;
    hide UsesOnce;
    hide Carried;
    hide NewSsid;
    hide Parts;
    var ssid := NewSsid(subs);
    SsidPart(subs, FromBeacon(0));
    forall s | s in ssid ensures s !in p.trace && s !in left { SsidPart(subs, s); SsidIsApart(subs, p, left, s.k); }
    forall s | s in p.trace ensures s !in left { TraceIsApart(subs, p, left, s); }
    ThreeParts(ssid, p.trace, left);
    var t := ssid + p.trace + left;
    forall k | 0 <= k < |subs| && Carried(subs, k) ensures FromProfile(k) in t { CarriedIsIn(subs, p, left, k); }
    forall k | 0 <= k < |subs| && subs[k].id == EID_SSID
      ensures FromProfile(k) in t <==> k == FirstFound(subs, EID_SSID, [], 2, 0)
    {
      SsidIsApart(subs, p, left, k);
      SsidPart(subs, FromProfile(k));
    }
  }

  lemma {:induction false} ThreeParts(a: seq<Source>, b: seq<Source>, c: seq<Source>)
    requires UsesOnce(a) && UsesOnce(b) && UsesOnce(c)
    requires (forall s :: s in a ==> s !in b && s !in c) && (forall s :: s in b ==> s !in c)
    ensures UsesOnce(a + b + c)
    ensures forall s :: s in a + b + c <==> s in a || s in b || s in c
  {
    hide UsesOnce;
    TwoParts(a, b);
    TwoParts(a + b, c);
  }

  lemma {:induction false} FoundSsid(subs: seq<Elem>)
    ensures SsidIndex(subs) < |subs| ==> subs[SsidIndex(subs)].id == EID_SSID
  {
  }

  // ----- how long the output is

  /** Bytes of the profile elements below `n` that are neither used nor the one at `ssid`. */
  function FreeBytes(subs: seq<Elem>, used: set<nat>, ssid: nat, n: nat): nat
    requires n <= |subs|
  {
    if n == 0 then 0
    else FreeBytes(subs, used, ssid, n - 1) + (if n - 1 in used || n - 1 == ssid then 0 else 2 + |subs[n - 1].data|)
  }

  lemma {:induction false} FreeUse(subs: seq<Elem>, used: set<nat>, ssid: nat, k: nat, n: nat)
    requires n <= |subs| && k < |subs| && k !in used && k != ssid
    ensures FreeBytes(subs, used + {k}, ssid, n)
            == FreeBytes(subs, used, ssid, n) - (if k < n then 2 + |subs[k].data| else 0)
  {
    if n > 0 { FreeUse(subs, used, ssid, k, n - 1); }
  }

  lemma {:induction false} FreeAll(subs: seq<Elem>, ssid: nat, n: nat)
    requires n <= |subs|
    ensures FreeBytes(subs, {}, ssid, n) + (if ssid < n then 2 + |subs[ssid].data| else 0) == Offset(subs, n)
  {
    if n > 0 { FreeAll(subs, ssid, n - 1); }
  }

  lemma {:induction false} TraceGrows(t: seq<Source>, s: Source, olds: seq<Elem>, subs: seq<Elem>)
    ensures TraceBytes(t + [s], olds, subs) == TraceBytes(t, olds, subs) + 2 + |Pick(s, olds, subs).data|
  {
    assert (t + [s])[..|t|] == t;
  }

  function SsidIndex(subs: seq<Elem>): nat { FirstFound(subs, EID_SSID, [], 2, 0) }

  lemma {:induction false} SsidBytes(olds: seq<Elem>, subs: seq<Elem>)
    ensures TraceBytes(NewSsid(subs), olds, subs) == if SsidIndex(subs) < |subs| then 2 + |subs[SsidIndex(subs)].data| else 0
    ensures TraceBytes([], olds, subs) == 0
  {
    if SsidIndex(subs) < |subs| {
      TraceGrows([], FromProfile(SsidIndex(subs)), olds, subs);
      assert [] + [FromProfile(SsidIndex(subs))] == NewSsid(subs);
    }
  }

  /** Every output byte is paid for by a beacon element already passed or by a used profile element. */
  lemma {:induction false} OverrideBytes(olds: seq<Elem>, subs: seq<Elem>, ni: Option<Elem>, n: nat)
    requires n <= |olds| && forall i :: 0 <= i < |olds| ==> olds[i].id != EID_SSID
    ensures var p := Override(olds, subs, ni, n);
            TraceBytes(NewSsid(subs), olds, subs) + TraceBytes(p.trace, olds, subs)
            + FreeBytes(subs, p.used, SsidIndex(subs), |subs|)
            <= Offset(olds, n) + Offset(subs, |subs|)
  {
    hide Choose;
    hide TraceBytes;
    hide FreeBytes;
    hide NewSsid;
    SsidBytes(olds, subs);
    FoundSsid(subs);
    var ssid := SsidIndex(subs);
    if n == 0 {
      FreeAll(subs, ssid, |subs|);
    } else {
      hide SsidIndex;
      OverrideBytes(olds, subs, ni, n - 1);
      var p := Override(olds, subs, ni, n - 1);
      match Choose(olds, n - 1, subs, p.used, ni)
      case Drop =>
      case Keep => TraceGrows(p.trace, FromBeacon(n - 1), olds, subs);
      case Take(k) =>
        TraceGrows(p.trace, FromProfile(k), olds, subs);
        FreeUse(subs, p.used, ssid, k, |subs|);
    }
  }

  lemma {:induction false} LeftoverBytes(olds: seq<Elem>, subs: seq<Elem>, used: set<nat>, n: nat)
    requires n <= |subs|
    ensures TraceBytes(Leftovers(subs, used, n), olds, subs) <= FreeBytes(subs, used, SsidIndex(subs), n)
  {
    hide TraceBytes;
    SsidBytes(olds, subs);
    FoundSsid(subs);
    hide SsidIndex;
    if n > 0 {
      LeftoverBytes(olds, subs, used, n - 1);
      var t := Leftovers(subs, used, n - 1);
      if n - 1 !in used && Carried(subs, n - 1) {
        TraceGrows(t, FromProfile(n - 1), olds, subs);
      } else {
        assert t + [] == t;
      }
    }
  }

  lemma {:induction false} TraceConcat(a: seq<Source>, b: seq<Source>, olds: seq<Elem>, subs: seq<Elem>)
    ensures TraceBytes(a + b, olds, subs) == TraceBytes(a, olds, subs) + TraceBytes(b, olds, subs)
    decreases |b|
  {
    if b == [] {
      assert a + b == a;
    } else {
      assert (a + b)[..|a + b| - 1] == a + b[..|b| - 1];
      TraceConcat(a, b[..|b| - 1], olds, subs);
    }
  }

  lemma {:induction false} FreeMonotone(subs: seq<Elem>, used: set<nat>, ssid: nat, n: nat, m: nat)
    requires n <= m <= |subs|
    ensures FreeBytes(subs, used, ssid, n) <= FreeBytes(subs, used, ssid, m)
    decreases m
  {
    if n < m { FreeMonotone(subs, used, ssid, n, m - 1); }
  }

  /** The output while beacon elements are processed: never longer than both inputs together. */
  lemma {:induction false} OverrideFits(olds: seq<Elem>, subs: seq<Elem>, ni: Option<Elem>, n: nat)
    requires n <= |olds| && forall i :: 0 <= i < |olds| ==> olds[i].id != EID_SSID
    ensures TraceBytes(NewSsid(subs) + Override(olds, subs, ni, n).trace, olds, subs)
            <= Offset(olds, n) + Offset(subs, |subs|)
  {
    OverrideBytes(olds, subs, ni, n);
    TraceConcat(NewSsid(subs), Override(olds, subs, ni, n).trace, olds, subs);
  }

  /** The output while the profile's leftovers are appended: never longer than both inputs together. */
  lemma {:induction false} ExpansionFits(olds: seq<Elem>, subs: seq<Elem>, ni: Option<Elem>, n: nat)
    requires n <= |subs| && forall i :: 0 <= i < |olds| ==> olds[i].id != EID_SSID
    ensures var p := Override(olds, subs, ni, |olds|);
            TraceBytes(NewSsid(subs) + p.trace + Leftovers(subs, p.used, n), olds, subs)
            <= Offset(olds, |olds|) + Offset(subs, |subs|)
  {
    var p := Override(olds, subs, ni, |olds|);
    OverrideBytes(olds, subs, ni, |olds|);
    TraceConcat(NewSsid(subs), p.trace, olds, subs);
    TraceConcat(NewSsid(subs) + p.trace, Leftovers(subs, p.used, n), olds, subs);
    LeftoverBytes(olds, subs, p.used, n);
    FreeMonotone(subs, p.used, SsidIndex(subs), n, |subs|);
  }

  lemma {:induction false} ResolveGrows(t: seq<Source>, s: Source, olds: seq<Elem>, subs: seq<Elem>)
    ensures Serialize(Resolve(t + [s], olds, subs)) == Serialize(Resolve(t, olds, subs)) + Bytes(Pick(s, olds, subs))
    ensures |Bytes(Pick(s, olds, subs))| == TraceBytes(t + [s], olds, subs) - TraceBytes(t, olds, subs)
  {
    assert Resolve(t + [s], olds, subs)[..|t|] == Resolve(t, olds, subs);
    TraceGrows(t, s, olds, subs);
  }
}
