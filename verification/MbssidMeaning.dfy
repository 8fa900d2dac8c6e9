/** What the expansion of a profile contains and in which order, for every element of the beacon and of the profile, said
    without the functions that compute it. */
module MbssidMeaning {
  import opened Elements
  import opened Options
  import opened MbssidSpec

  // ----- the outcome of one beacon element

  /** Element `k` of the profile is not used yet and speaks of the same thing: the same id, and for extension elements the
      same extension id. */
  ghost predicate Unused(e: Elem, subs: seq<Elem>, used: set<nat>, k: nat) {
    && k < |subs| && k !in used && subs[k].id == e.id
    && (e.id == 255 ==> |e.data| >= 1 && |subs[k].data| >= 1 && subs[k].data[0] == e.data[0])
  }

  ghost predicate FirstUnused(e: Elem, subs: seq<Elem>, used: set<nat>, k: nat) {
    Unused(e, subs, used, k) && forall j :: 0 <= j < k ==> !Unused(e, subs, used, j)
  }

  /** The two lists of a non-inheritance element, of ids and of extension ids, each after its length. */
  ghost predicate HasLists(d: seq<Byte>) {
    |d| >= 2 && |d| >= 3 + d[1] as int && |d| >= 3 + d[1] as int + d[2 + d[1] as int] as int
  }

  ghost predicate Listed(e: Elem, d: seq<Byte>)
    requires HasLists(d)
  {
    if e.id == 255 then
      |e.data| >= 1 && exists j :: 3 + d[1] as int <= j < 3 + d[1] as int + d[2 + d[1] as int] as int && d[j] == e.data[0]
    else exists j :: 2 <= j < 2 + d[1] as int && d[j] == e.id
  }

  /** A beacon element that may be inherited: not Multiple BSSID, and not listed. */
  ghost predicate Inheritable(e: Elem, ni: Option<Elem>) {
    e.id != 71 && (ni.Some? && HasLists(ni.value.data) ==> !Listed(e, ni.value.data))
  }

  lemma {:induction false} InheritedMeaning(e: Elem, ni: Option<Elem>)
    requires e.id == EID_EXTENSION ==> |e.data| >= 1
    ensures Inherited(e, ni) <==> Inheritable(e, ni)
  {
    if ni.Some? && HasLists(ni.value.data) {
      var d := ni.value.data;
      var idLen := d[1] as int;
      var ids, exts := d[2..2 + idLen], d[3 + idLen..3 + idLen + d[2 + idLen] as int];
      if e.id == EID_EXTENSION {
        InPart(d, 3 + idLen, 3 + idLen + d[2 + idLen] as int, e.data[0]);
      } else {
        InPart(d, 2, 2 + idLen, e.id);
      }
    }
  }

  lemma {:induction false} InPart(d: seq<Byte>, a: nat, b: nat, x: Byte)
    requires a <= b <= |d|
    ensures x in d[a..b] <==> exists j :: a <= j < b && d[j] == x
  {
    if x in d[a..b] {
      var k :| 0 <= k < b - a && d[a..b][k] == x;
      assert d[a + k] == x;
    }
    if j :| a <= j < b && d[j] == x { assert d[a..b][j - a] == x; }
  }

  lemma {:induction false} FirstFreeMeaning(e: Elem, subs: seq<Elem>, used: set<nat>)
    ensures var k := FirstFree(subs, used, e, 0);
            if k < |subs| then FirstUnused(e, subs, used, k) && forall j :: FirstUnused(e, subs, used, j) ==> j == k
            else forall j :: !FirstUnused(e, subs, used, j)
  {
  }

  /** What becomes of beacon element `i`: the first unused profile element that speaks of the same thing takes its place,
      unless it is another vendor's; then, or when there is none and it may be inherited, it stays. */
  ghost predicate Outcome(olds: seq<Elem>, subs: seq<Elem>, ni: Option<Elem>, i: nat, used: set<nat>, used': set<nat>,
                          out: seq<Source>)
    requires i < |olds|
  {
    && ((exists k :: FirstUnused(olds[i], subs, used, k)) ==>
          exists k :: FirstUnused(olds[i], subs, used, k) &&
            if olds[i].id == 221 && !SameVendor(olds, i, subs, used, k)
            then out == [FromBeacon(i)] && used' == used
            else out == [FromProfile(k)] && used' == used + {k})
    && ((forall k :: !FirstUnused(olds[i], subs, used, k)) ==>
          used' == used && out == if Inheritable(olds[i], ni) then [FromBeacon(i)] else [])
  }

  function Flatten(outs: seq<seq<Source>>): seq<Source>
    decreases |outs|
  {
    if outs == [] then [] else Flatten(outs[..|outs| - 1]) + outs[|outs| - 1]
  }

  ghost predicate Outcomes(olds: seq<Elem>, subs: seq<Elem>, ni: Option<Elem>, us: seq<set<nat>>, outs: seq<seq<Source>>) {
    && |outs| <= |olds| && |us| == |outs| + 1 && us[0] == {}
    && forall i :: 0 <= i < |outs| ==> Outcome(olds, subs, ni, i, us[i], us[i + 1], outs[i])
  }

  lemma {:induction false} ChooseMeaning(olds: seq<Elem>, subs: seq<Elem>, ni: Option<Elem>, n: nat)
    returns (out: seq<Source>)
    requires n < |olds| && (olds[n].id == EID_EXTENSION ==> |olds[n].data| >= 1)
    ensures var p, p' := Override(olds, subs, ni, n), Override(olds, subs, ni, n + 1);
            p'.trace == p.trace + out && Outcome(olds, subs, ni, n, p.used, p'.used, out)
  {
    hide SameVendor;
    hide FirstFree;
    hide Inherited;
    hide Inheritable;
    hide FirstUnused;
    var p, p' := Override(olds, subs, ni, n), Override(olds, subs, ni, n + 1);
    FirstFreeMeaning(olds[n], subs, p.used);
    InheritedMeaning(olds[n], ni);
    var k := FirstFree(subs, p.used, olds[n], 0);
    match Choose(olds, n, subs, p.used, ni)
    case Drop => out := []; assert p.trace + [] == p.trace;
    case Keep => out := [FromBeacon(n)];
    case Take(_) => out := [FromProfile(k)];
  }

  ghost predicate ExtensionsFilled(es: seq<Elem>) {
    forall i :: 0 <= i < |es| ==> es[i].id == EID_EXTENSION ==> |es[i].data| >= 1
  }

  lemma {:induction false} OverrideNothing(olds: seq<Elem>, subs: seq<Elem>, ni: Option<Elem>)
    ensures Override(olds, subs, ni, 0) == Progress([], {})
  {
  }

  lemma {:induction false} OverrideMeaning(olds: seq<Elem>, subs: seq<Elem>, ni: Option<Elem>, n: nat)
    returns (us: seq<set<nat>>, outs: seq<seq<Source>>)
    requires n <= |olds| && ExtensionsFilled(olds)
    ensures Outcomes(olds, subs, ni, us, outs) && |outs| == n
    ensures var p := Override(olds, subs, ni, n); p.trace == Flatten(outs) && p.used == us[n]
  {
    hide Outcome;
    hide Override;
    us, outs := [{}], [];
    OverrideNothing(olds, subs, ni);
    if n > 0 {
      us, outs := OverrideMeaning(olds, subs, ni, n - 1);
      var out := ChooseMeaning(olds, subs, ni, n - 1);
      OutcomesGrow(olds, subs, ni, us, outs, Override(olds, subs, ni, n).used, out);
      us, outs := us + [Override(olds, subs, ni, n).used], outs + [out];
    }
  }

  lemma {:induction false} OutcomesGrow(olds: seq<Elem>, subs: seq<Elem>, ni: Option<Elem>, us: seq<set<nat>>,
                                        outs: seq<seq<Source>>,
                                        used': set<nat>, out: seq<Source>)
    requires Outcomes(olds, subs, ni, us, outs) && |outs| < |olds| && Outcome(olds, subs, ni, |outs|, us[|outs|], used', out)
    ensures Outcomes(olds, subs, ni, us + [used'], outs + [out]) && Flatten(outs + [out]) == Flatten(outs) + out
  {
    hide Outcome;
    assert (outs + [out])[..|outs|] == outs;
  }

  // ----- the whole list

  /** The first SSID of a list, if it has one. */
  ghost predicate FirstSsid(es: seq<Elem>, k: nat) {
    k < |es| && es[k].id == 0 && forall j :: 0 <= j < k ==> es[j].id != 0
  }

  /** The beacon is taken up after its first SSID. */
  lemma {:induction false} AfterSsidMeaning(es: seq<Elem>)
    ensures forall k: nat :: FirstSsid(es, k) ==> AfterSsid(es) == k + 1
    ensures (forall k: nat :: !FirstSsid(es, k)) ==> AfterSsid(es) == 0
  {
    FirstSsidFound(es);
  }

  lemma {:induction false} FirstSsidFound(es: seq<Elem>)
    ensures forall k: nat :: FirstSsid(es, k) <==> k < |es| && k == SsidIndex(es)
    ensures SsidIndex(es) < |es| ==> FirstSsid(es, SsidIndex(es))
  {
    forall j | 0 <= j < |es| ensures Found(es[j], EID_SSID, [], 2) <==> es[j].id == 0 { FoundAtData(es[j], EID_SSID, []); }
    hide Found;
    var r := SsidIndex(es);
    assert r < |es| ==> FirstSsid(es, r);
  }

  /** The new list: the profile's first SSID, what becomes of the beacon's elements, in their order, and the rest of the
      profile, in its order: every unused element but SSIDs and the capability element. */
  lemma {:induction false} ExpansionMeaning(olds: seq<Elem>, subs: seq<Elem>, ni: Option<Elem>)
    returns (ssid: seq<Source>, us: seq<set<nat>>, outs: seq<seq<Source>>, left: seq<Source>)
    requires ExtensionsFilled(olds)
    ensures Expansion(olds, subs, ni) == ssid + Flatten(outs) + left
    ensures (forall k: nat :: FirstSsid(subs, k) ==> ssid == [FromProfile(k)])
    ensures (forall k: nat :: !FirstSsid(subs, k)) ==> ssid == []
    ensures Outcomes(olds, subs, ni, us, outs) && |outs| == |olds|
    ensures Ascending(left, |subs|)
    ensures forall s :: s in left <==> s.FromProfile? && s.k < |subs| && s.k !in us[|olds|] && subs[s.k].id != 0 && subs[s.k].id != 83
  {
    FirstSsidFound(subs);
    us, outs := OverrideMeaning(olds, subs, ni, |olds|);
    ssid, left := NewSsid(subs), Leftovers(subs, us[|olds|], |subs|);
    hide Outcomes;
    hide FirstSsid;
    LeftoverSources(subs, us[|olds|], |subs|);
    LeftoversAscend(subs, us[|olds|], |subs|);
  }

  ghost predicate Ascending(t: seq<Source>, n: nat) {
    && (forall a :: 0 <= a < |t| ==> t[a].FromProfile? && t[a].k < n)
    && forall a, b :: 0 <= a < b < |t| ==> t[a].FromProfile? && t[b].FromProfile? && t[a].k < t[b].k
  }

  lemma {:induction false} LeftoversAscend(subs: seq<Elem>, used: set<nat>, n: nat)
    requires n <= |subs|
    ensures Ascending(Leftovers(subs, used, n), n)
  {
    if n > 0 {
      LeftoversAscend(subs, used, n - 1);
      assert Leftovers(subs, used, n - 1) + [] == Leftovers(subs, used, n - 1);
    }
  }

  lemma {:induction false} InFlatten(outs: seq<seq<Source>>, s: Source)
    ensures s in Flatten(outs) <==> exists i :: 0 <= i < |outs| && s in outs[i]
    decreases |outs|
  {
    if outs != [] {
      var n := |outs| - 1;
      InFlatten(outs[..n], s);
      assert forall i :: 0 <= i < n ==> outs[..n][i] == outs[i];
    }
  }

  /** Exactly which beacon elements are in the new list: those the profile has nothing left for, if they may be inherited,
      and vendor elements whose first unused counterpart is another vendor's. */
  ghost predicate Stays(olds: seq<Elem>, subs: seq<Elem>, ni: Option<Elem>, i: nat, used: set<nat>)
    requires i < |olds|
  {
    || ((forall k :: !Unused(olds[i], subs, used, k)) && Inheritable(olds[i], ni))
    || (olds[i].id == 221 && exists k :: FirstUnused(olds[i], subs, used, k) && !SameVendor(olds, i, subs, used, k))
  }

  lemma {:induction false} InheritedIff(olds: seq<Elem>, subs: seq<Elem>, ni: Option<Elem>)
    returns (us: seq<set<nat>>, outs: seq<seq<Source>>)
    requires ExtensionsFilled(olds)
    ensures Outcomes(olds, subs, ni, us, outs) && |outs| == |olds|
    ensures forall i :: 0 <= i < |olds| ==> (FromBeacon(i) in Expansion(olds, subs, ni) <==> Stays(olds, subs, ni, i, us[i]))
  {
    var ssid, left;
    ssid, us, outs, left := ExpansionMeaning(olds, subs, ni);
    forall i | 0 <= i < |olds| ensures FromBeacon(i) in Expansion(olds, subs, ni) <==> Stays(olds, subs, ni, i, us[i]) {
      InheritedAt(olds, subs, ni, ssid, us, outs, left, i);
    }
  }

  lemma {:induction false} InheritedAt(olds: seq<Elem>, subs: seq<Elem>, ni: Option<Elem>, ssid: seq<Source>,
                                       us: seq<set<nat>>,
                                       outs: seq<seq<Source>>, left: seq<Source>, i: nat)
    requires Outcomes(olds, subs, ni, us, outs) && |outs| == |olds| && i < |olds|
    requires (forall s :: s in ssid ==> s.FromProfile?) && (forall s :: s in left ==> s.FromProfile?)
    ensures FromBeacon(i) in ssid + Flatten(outs) + left <==> Stays(olds, subs, ni, i, us[i])
  {
    hide Inheritable;
    hide SameVendor;
    InFlatten(outs, FromBeacon(i));
    forall j | 0 <= j < |outs| ensures FromBeacon(i) in outs[j] <==> j == i && Stays(olds, subs, ni, i, us[i]) {
      assert Outcome(olds, subs, ni, j, us[j], us[j + 1], outs[j]);
      OutcomeStays(olds, subs, ni, j, us[j], us[j + 1], outs[j]);
    }
    assert FromBeacon(i) !in ssid && FromBeacon(i) !in left;
    assert FromBeacon(i) in outs[i] <==> Stays(olds, subs, ni, i, us[i]);
  }

  lemma {:induction false} OutcomeStays(olds: seq<Elem>, subs: seq<Elem>, ni: Option<Elem>, i: nat, used: set<nat>,
                                        used': set<nat>, out: seq<Source>)
    requires i < |olds| && Outcome(olds, subs, ni, i, used, used', out)
    ensures forall j :: FromBeacon(j) in out <==> j == i && Stays(olds, subs, ni, i, used)
  {
    hide Inheritable;
    hide SameVendor;
    FirstFreeMeaning(olds[i], subs, used);
    FirstUnusedExists(olds[i], subs, used);
    hide Unused;
    hide FirstUnused;
  }

  lemma {:induction false} FirstUnusedExists(e: Elem, subs: seq<Elem>, used: set<nat>)
    ensures (exists k :: Unused(e, subs, used, k)) <==> exists k :: FirstUnused(e, subs, used, k)
    ensures forall j, k :: FirstUnused(e, subs, used, j) && FirstUnused(e, subs, used, k) ==> j == k
  {
    FirstFreeMeaning(e, subs, used);
  }

  // ----- counting elements that speak of the same thing

  ghost predicate Same(e: Elem, x: Elem) {
    x.id == e.id && (e.id == 255 ==> |e.data| >= 1 && |x.data| >= 1 && x.data[0] == e.data[0])
  }

  ghost function Alike(es: seq<Elem>, e: Elem, n: nat): nat
    requires n <= |es|
  {
    if n == 0 then 0 else Alike(es, e, n - 1) + if Same(e, es[n - 1]) then 1 else 0
  }

  ghost function UsedAlike(subs: seq<Elem>, e: Elem, used: set<nat>, n: nat): nat
    requires n <= |subs|
  {
    if n == 0 then 0 else UsedAlike(subs, e, used, n - 1) + if n - 1 in used && Same(e, subs[n - 1]) then 1 else 0
  }

  lemma {:induction false} UseOne(subs: seq<Elem>, e: Elem, used: set<nat>, k: nat, n: nat)
    requires n <= |subs| && k < |subs| && k !in used
    ensures UsedAlike(subs, e, used + {k}, n) == UsedAlike(subs, e, used, n) + if k < n && Same(e, subs[k]) then 1 else 0
  {
    hide Same;
    if n > 0 { UseOne(subs, e, used, k, n - 1); }
  }

  /** All are used iff the numbers agree. */
  lemma {:induction false} AllUsed(subs: seq<Elem>, e: Elem, used: set<nat>, n: nat)
    requires n <= |subs|
    ensures UsedAlike(subs, e, used, n) <= Alike(subs, e, n)
    ensures UsedAlike(subs, e, used, n) == Alike(subs, e, n) <==> forall k :: 0 <= k < n && Same(e, subs[k]) ==> k in used
  {
    hide Same;
    if n > 0 { AllUsed(subs, e, used, n - 1); }
  }

  function Min(a: int, b: int): int { if a <= b then a else b }

  /** One beacon element uses one profile element of its kind, while there is one. */
  lemma {:induction false} OutcomeUses(olds: seq<Elem>, subs: seq<Elem>, ni: Option<Elem>, i: nat, used: set<nat>,
                                       used': set<nat>,
                                       out: seq<Source>, e: Elem)
    requires i < |olds| && Outcome(olds, subs, ni, i, used, used', out) && e.id != 221
    ensures UsedAlike(subs, e, used', |subs|)
            == if Same(e, olds[i]) then Min(UsedAlike(subs, e, used, |subs|) + 1, Alike(subs, e, |subs|)) else UsedAlike(subs, e, used, |subs|)
  {
    hide SameVendor;
    hide Inheritable;
    var n := |subs|;
    AllUsed(subs, e, used, n);
    FirstUnusedExists(olds[i], subs, used);
    if k: nat :| FirstUnused(olds[i], subs, used, k) {
      UseOne(subs, e, used, k, n);
      AllUsed(subs, e, used', n);
      assert used' == used || used' == used + {k};
      assert Same(e, olds[i]) <==> Same(e, subs[k]);
    } else {
      assert forall k :: 0 <= k < n && Same(olds[i], subs[k]) ==> Unused(olds[i], subs, used, k) || k in used;
    }
  }

  lemma {:induction false} UsedCount(olds: seq<Elem>, subs: seq<Elem>, ni: Option<Elem>, us: seq<set<nat>>,
                                     outs: seq<seq<Source>>, n: nat, e: Elem)
    requires Outcomes(olds, subs, ni, us, outs) && n <= |outs| && e.id != 221
    ensures UsedAlike(subs, e, us[n], |subs|) == Min(Alike(olds, e, n), Alike(subs, e, |subs|))
  {
    hide Outcome;
    hide Same;
    if n == 0 {
      NoneUsed(subs, e, |subs|);
    } else {
      UsedCount(olds, subs, ni, us, outs, n - 1, e);
      OutcomeUses(olds, subs, ni, n - 1, us[n - 1], us[n], outs[n - 1], e);
    }
  }

  lemma {:induction false} NoneUsed(subs: seq<Elem>, e: Elem, n: nat)
    requires n <= |subs|
    ensures UsedAlike(subs, e, {}, n) == 0
  {
    if n > 0 { NoneUsed(subs, e, n - 1); }
  }

  /** A beacon element that is no vendor element is inherited iff it may be and the profile has no more elements that speak
      of the same thing than the beacon has before it. */
  lemma {:induction false} InheritedByCount(olds: seq<Elem>, subs: seq<Elem>, ni: Option<Elem>, i: nat)
    requires ExtensionsFilled(olds) && i < |olds| && olds[i].id != 221
    ensures FromBeacon(i) in Expansion(olds, subs, ni)
            <==> Inheritable(olds[i], ni) && Alike(subs, olds[i], |subs|) <= Alike(olds, olds[i], i)
  {
    hide Outcomes;
    hide Inheritable;
    var us, outs := InheritedIff(olds, subs, ni);
    UsedCount(olds, subs, ni, us, outs, i, olds[i]);
    AllUsed(subs, olds[i], us[i], |subs|);
    assert forall k :: 0 <= k < |subs| ==> (Unused(olds[i], subs, us[i], k) <==> Same(olds[i], subs[k]) && k !in us[i]);
  }

  /** As the driver calls it, without a non-inheritance element, everything but Multiple BSSID is inherited when the
      profile says nothing of it; what the profile does say takes the places of the beacon's, one by one. */
  lemma {:induction false} InheritedByDefault(olds: seq<Elem>, subs: seq<Elem>, i: nat)
    requires ExtensionsFilled(olds) && i < |olds| && olds[i].id != 221
    ensures FromBeacon(i) in Expansion(olds, subs, None)
            <==> olds[i].id != 71 && Alike(subs, olds[i], |subs|) <= Alike(olds, olds[i], i)
  {
    InheritedByCount(olds, subs, None, i);
  }
}
