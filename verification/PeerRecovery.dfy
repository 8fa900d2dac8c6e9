/** Crash recovery (skw_recovery.c) and every interleaving of its steps with binding. */
module PeerRecovery {
  import opened Options
  import opened PeerTables

  const NOTHING: seq<Option<Id>> := seq(CTXS, _ => None)

  // ----- prepare

  function Cleared(f: Iface): Iface { if f.present then f.(peerMap := {}) else f }
  function Saved(f: Iface): Iface { if f.present then f.(savedMap := f.peerMap, peerMap := {}) else f }

  /** skw_recovery_prepare: the first one saves every bound peer; a nested one only empties the contexts. */
  function Prepare(t: Tables): Tables
    requires Shape(t)
  {
    if t.recovering then
      t.(ctx := NOTHING, entry := NOTHING, ifaces := seq(IFACES, i requires 0 <= i < IFACES => Cleared(t.ifaces[i])))
    else
      t.(ctx := NOTHING, entry := NOTHING, saved := t.ctx, recovering := true,
         ifaces := seq(IFACES, i requires 0 <= i < IFACES => Saved(t.ifaces[i])))
  }

  // ----- notifications

  /** What the notification of a saved peer is; `None` when there is no peer or it is already marked. */
  function Pending(t: Tables, i: nat, idx: nat): Option<Id>
    requires Shape(t) && i < IFACES && idx < PEERS
  {
    var p := t.saved[Slot(t.ifaces[i].lmac, idx)];
    if idx in t.ifaces[i].savedMap && p.Some? && p.value in t.peers && !t.peers[p.value].deauthed then p else None
  }

  function KindOf(f: Iface, addr: nat): Kind {
    if f.mode == Ap || f.mode == Go then DelSta else if addr == f.bssid then Disconnect else TdlsTeardown
  }

  /** One turn of the loop of skw_recovery_sta or skw_recovery_sap_flush_sta. Leaving the BSS clears its address. */
  function Tell(t: Tables, i: nat, idx: nat): Tables
    requires Shape(t) && i < IFACES && idx < PEERS
  {
    match Pending(t, i, idx)
    case None => t
    case Some(p) =>
      var kind := KindOf(t.ifaces[i], t.peers[p].addr);
      t.(peers := t.peers[p := t.peers[p].(deauthed := true)], told := t.told + [Event(p, kind)],
         ifaces := if kind == Disconnect then t.ifaces[i := t.ifaces[i].(bssid := 0)] else t.ifaces)
  }

  function TellUpTo(t: Tables, i: nat, n: nat): (u: Tables)
    requires Shape(t) && i < IFACES && n <= PEERS
    ensures Shape(u)
  {
    if n == 0 then t else Tell(TellUpTo(t, i, n - 1), i, n - 1)
  }

  function ZeroActived(t: Tables, i: nat): Tables
    requires Shape(t) && i < IFACES
  {
    t.(ifaces := t.ifaces[i := t.ifaces[i].(actived := 0)])
  }

  /** One of the notifications from the `m`-th on went to a peer with the address. */
  ghost predicate ToldAddr(t: Tables, u: Tables, m: nat, k: nat, addr: nat) {
    k <= |u.told| && exists a :: m <= a < k && u.told[a].peer in t.peers && t.peers[u.told[a].peer].addr == addr
  }

  /** An access point deletes each station. A station leaves its BSS when it meets a peer with the address of it, which
      clears that address, and tears the link down to every other peer. */
  ghost predicate KindsOf(t: Tables, u: Tables, i: nat)
    requires Shape(t) && Shape(u) && i < IFACES
  {
    var m, ap := |t.told|, t.ifaces[i].mode == Ap || t.ifaces[i].mode == Go;
    && m <= |u.told| && u.told[..m] == t.told
    && (forall a :: m <= a < |u.told| ==> u.told[a].peer in t.peers && u.told[a].kind == KindAt(t, u, i, a))
    && u.ifaces == t.ifaces[i := t.ifaces[i].(bssid :=
         if !ap && ToldAddr(t, u, m, |u.told|, t.ifaces[i].bssid) then 0 else t.ifaces[i].bssid)]
  }

  ghost function KindAt(t: Tables, u: Tables, i: nat, a: nat): Kind
    requires i < |t.ifaces| && |t.told| <= a < |u.told| && u.told[a].peer in t.peers
  {
    var f, addr := t.ifaces[i], t.peers[u.told[a].peer].addr;
    if f.mode == Ap || f.mode == Go then DelSta
    else if addr == (if ToldAddr(t, u, |t.told|, a, f.bssid) then 0 else f.bssid) then Disconnect
    else TdlsTeardown
  }

  /** Which notification every peer gets. */
  lemma {:induction false} TellKinds(t: Tables, i: nat, n: nat)
    requires Shape(t) && i < IFACES && n <= PEERS
    ensures KindsOf(t, TellUpTo(t, i, n), i) && SameAddrs(t, TellUpTo(t, i, n))
  {
    hide KindsOf;
    hide Tell;
    if n == 0 {
      NoKinds(t, i);
    } else {
      TellKinds(t, i, n - 1);
      TellOneKind(t, TellUpTo(t, i, n - 1), i, n - 1);
    }
  }

  predicate SameAddrs(t: Tables, u: Tables) {
    u.peers.Keys == t.peers.Keys && forall p :: p in t.peers ==> u.peers[p].addr == t.peers[p].addr
  }

  lemma {:induction false} NoKinds(t: Tables, i: nat)
    requires Shape(t) && i < IFACES
    ensures KindsOf(t, t, i)
  {
    assert t.ifaces[i := t.ifaces[i].(bssid := t.ifaces[i].bssid)] == t.ifaces;
  }

  lemma {:induction false} TellOneKind(t: Tables, u: Tables, i: nat, idx: nat)
    requires Shape(t) && Shape(u) && i < IFACES && idx < PEERS && KindsOf(t, u, i) && SameAddrs(t, u)
    ensures var w := Tell(u, i, idx); Shape(w) && KindsOf(t, w, i) && SameAddrs(t, w)
  {
    var w, m := Tell(u, i, idx), |t.told|;
    if Pending(u, i, idx).Some? {
      var p, n := Pending(u, i, idx).value, |u.told|;
      assert w.told[n].peer == p && forall a :: 0 <= a < n ==> w.told[a] == u.told[a];
      assert w.told[..m] == u.told[..m];
      forall k: nat, addr | k <= n ensures ToldAddr(t, w, m, k, addr) == ToldAddr(t, u, m, k, addr) { }
      assert forall a :: m <= a < n ==> KindAt(t, w, i, a) == KindAt(t, u, i, a);
      var bssid := t.ifaces[i].bssid;
      assert ToldAddr(t, w, m, n + 1, bssid) <==> ToldAddr(t, u, m, n, bssid) || t.peers[p].addr == bssid;
    }
  }

  // ----- release

  function FreeSlot(t: Tables, c: nat): Tables
    requires Shape(t) && c < CTXS
  {
    Free(t, t.saved[c]).(saved := t.saved[c := None])
  }

  function FreeUpTo(t: Tables, n: nat): (u: Tables)
    requires Shape(t) && n <= CTXS
    ensures Shape(u)
  {
    if n == 0 then t else FreeSlot(FreeUpTo(t, n - 1), n - 1)
  }

  // ----- what the steps keep

  lemma {:induction false} PrepareKeeps(t: Tables)
    requires Consistent(t)
    ensures Consistent(Prepare(t)) && Prepare(t).recovering
    ensures t.recovering ==> Prepare(t).saved == t.saved
    ensures !t.recovering ==> Prepare(t).saved == t.ctx
  {
    hide LogOk;
    var u := Prepare(t);
    forall i | 0 <= i < IFACES ensures MapOk(u, i) {
      assert MapOk(t, i);
      assert !t.ifaces[i].present ==> u.ifaces[i].peerMap == {} by { AbsentHasNone(t, i); }
    }
    forall c | 0 <= c < CTXS ensures CtxOk(u, c) {
      assert CtxOk(t, c);
      if t.ctx[c].Some? { BoundBit(t, c); }
    }
    PrepareApart(t);
    LogOnly(t, u);
  }

  lemma {:induction false} PrepareApart(t: Tables)
    requires Consistent(t)
    ensures Apart(Prepare(t))
  {
    hide LogOk;
    hide CtxOk;
    var u := Prepare(t);
    forall i, j | 0 <= i < j < IFACES ensures Disjoint(u.ifaces[i], u.ifaces[j]) {
      if t.recovering {
        assert Disjoint(t.ifaces[i], t.ifaces[j]);
      } else {
        assert MapOk(t, i) && MapOk(t, j);
      }
    }
  }

  lemma {:induction false} BoundBit(t: Tables, c: nat)
    requires Consistent(t) && c < CTXS && t.ctx[c].Some?
    ensures var p := t.ctx[c].value; p in t.peers && t.peers[p].iface < IFACES && c % PEERS in t.ifaces[t.peers[p].iface].peerMap
  {
    hide LogOk;
    assert CtxOk(t, c);
    assert MapOk(t, t.peers[t.ctx[c].value].iface);
    SlotOf(c / PEERS, c % PEERS);
  }

  lemma {:induction false} AbsentHasNone(t: Tables, i: nat)
    requires Consistent(t) && i < IFACES
    ensures !t.ifaces[i].present ==> t.ifaces[i].peerMap == {}
  {
    hide LogOk;
    assert MapOk(t, i);
    if idx :| idx in t.ifaces[i].peerMap {
      assert CtxOk(t, Slot(t.ifaces[i].lmac, idx));
    }
  }

  lemma {:induction false} CountNone(t: Tables, i: nat, n: nat)
    requires t.entry == NOTHING
    ensures Count(t, i, n) == 0
  {
    if n > 0 { CountNone(t, i, n - 1); }
  }

  /** A crash leaves `actived_ctx` as it was: too high by the number of contexts that were active. */
  lemma {:induction false} PrepareDrifts(t: Tables, i: nat)
    requires Shape(t) && i < IFACES
    ensures Drift(Prepare(t), i) == Drift(t, i) + Count(t, i, CTXS)
  {
    CountNone(Prepare(t), i, CTXS);
  }

  lemma {:induction false} TellKeeps(t: Tables, i: nat, idx: nat)
    requires Consistent(t) && i < IFACES && idx < PEERS
    ensures var u := Tell(t, i, idx); Consistent(u) && SameDrift(t, u) && u.saved == t.saved && u.recovering == t.recovering
  {
    hide MapOk;
    hide Drift;
    var c := Slot(t.ifaces[i].lmac, idx);
    var u := Tell(t, i, idx);
    assert CtxOk(t, c);
    TellLog(t, i, idx);
    hide LogOk;
    SameBits(t, u, c);
    Local(t, u, c);
    forall j | 0 <= j < IFACES ensures Drift(u, j) == Drift(t, j) { LocalDrift(t, u, c, j); }
  }

  lemma {:induction false} TellLog(t: Tables, i: nat, idx: nat)
    requires Shape(t) && LogOk(t) && i < IFACES && idx < PEERS
    ensures LogOk(Tell(t, i, idx))
  {
    var u := Tell(t, i, idx);
    if Pending(t, i, idx).Some? {
      var p := Pending(t, i, idx).value;
      forall a | 0 <= a < |t.told| ensures t.told[a].peer != p { assert Marked(t, t.told[a].peer); }
      forall a | 0 <= a < |u.told| ensures Marked(u, u.told[a].peer) {
        if a < |t.told| { assert Marked(t, t.told[a].peer); }
      }
    }
  }

  lemma {:induction false} TellUpToKeeps(t: Tables, i: nat, n: nat)
    requires Consistent(t) && i < IFACES && n <= PEERS
    ensures var u := TellUpTo(t, i, n); Consistent(u) && SameDrift(t, u) && u.saved == t.saved && u.recovering == t.recovering
  {
    hide CtxOk;
    hide LogOk;
    hide MapOk;
    hide Tell;
    hide Drift;
    if n > 0 {
      TellUpToKeeps(t, i, n - 1);
      TellKeeps(TellUpTo(t, i, n - 1), i, n - 1);
    }
  }

  lemma {:induction false} ZeroKeeps(t: Tables, i: nat)
    requires Consistent(t) && i < IFACES
    ensures var u := ZeroActived(t, i); Consistent(u) && Drift(u, i) + Count(t, i, CTXS) == 0
  {
    hide MapOk;
    hide LogOk;
    var u := ZeroActived(t, i);
    LogOnly(t, u);
    assert CtxOk(t, 0);
    SameBits(t, u, 0);
    Local(t, u, 0);
    CountSame(t, u, i, CTXS);
  }

  lemma {:induction false} FreeSlotKeeps(t: Tables, c: nat)
    requires Consistent(t) && c < CTXS
    ensures var u := FreeSlot(t, c); Consistent(u) && SameDrift(t, u)
  {
    hide MapOk;
    hide LogOk;
    hide Drift;
    var u := FreeSlot(t, c);
    assert CtxOk(t, c);
    FreeKeepsLog(t, t.saved[c]);
    assert LogOk(u) by { LogOnly(Free(t, t.saved[c]), u); }
    SameBits(t, u, c);
    Local(t, u, c);
    forall j | 0 <= j < IFACES ensures Drift(u, j) == Drift(t, j) { LocalDrift(t, u, c, j); }
  }

  /** Releasing: the saved peers below `n` are appended to the freed ones, the rest is as before. */
  lemma {:induction false} FreeUpToKeeps(t: Tables, n: nat)
    requires Consistent(t) && n <= CTXS
    ensures var u := FreeUpTo(t, n);
      && Consistent(u) && SameDrift(t, u) && u.ctx == t.ctx && u.recovering == t.recovering && u.told == t.told && u.ifaces == t.ifaces
      && (forall c :: 0 <= c < CTXS ==> u.saved[c] == if c < n then None else t.saved[c])
  {
    hide CtxOk;
    hide LogOk;
    hide MapOk;
    hide Drift;
    if n > 0 {
      FreeUpToKeeps(t, n - 1);
      FreeSlotKeeps(FreeUpTo(t, n - 1), n - 1);
    }
  }

  lemma {:induction false} FreeUpToFrees(t: Tables, n: nat)
    requires Shape(t) && n <= CTXS
    ensures forall c :: 0 <= c < CTXS ==> FreeUpTo(t, n).saved[c] == if c < n then None else t.saved[c]
    ensures forall p :: p in t.freed ==> p in FreeUpTo(t, n).freed
    ensures forall c :: 0 <= c < n && t.saved[c].Some? ==> t.saved[c].value in FreeUpTo(t, n).freed
  {
    if n > 0 { FreeUpToFrees(t, n - 1); }
  }

  function Release(t: Tables): Tables requires Shape(t) { FreeUpTo(t, CTXS) }

  function Complete(t: Tables): Tables requires Shape(t) { Release(t).(recovering := false) }

  lemma {:induction false} CompleteKeeps(t: Tables)
    requires Consistent(t)
    ensures Consistent(Complete(t)) && SameDrift(t, Complete(t))
  {
    hide LogOk;
    hide FreeUpTo;
    var r, u := Release(t), Complete(t);
    FreeUpToKeeps(t, CTXS);
    LogOnly(r, u);
    forall c | 0 <= c < CTXS ensures CtxOk(u, c) { assert CtxOk(r, c); }
    forall i | 0 <= i < IFACES ensures MapOk(u, i) { assert MapOk(r, i); }
    forall i | 0 <= i < IFACES ensures Drift(u, i) == Drift(t, i) { CountSame(r, u, i, CTXS); }
  }

  // ----- runs

  datatype Step =
    | Enable(c: nat) | Disable(c: nat) | Mark(c: nat) | Detach(i: nat, c: nat)
    | Rebind(i: nat, c: nat, q: Id, addr: nat, bad: bool)
    | Crash | RecoverSta(i: nat) | RecoverAp(i: nat, stop: nat) | Finish | Deinit

  /** The callers' discipline on contexts; recovery may be interrupted and repeated in any order. */
  predicate Enabled(t: Tables, s: Step)
    requires Shape(t)
  {
    match s
    case Enable(c) => c < CTXS
    case Disable(c) => c < CTXS
    case Mark(c) => c < CTXS
    case Detach(i, c) => c < CTXS && i < IFACES && MayUnbind(t, i, c)
    case Rebind(i, c, q, _, _) => c < CTXS && i < IFACES && MayBind(t, i, c, q)
    case RecoverSta(i) => i < IFACES
    case RecoverAp(i, stop) => i < IFACES && stop <= PEERS
    case _ => true
  }

  function Next(t: Tables, s: Step): Tables
    requires Shape(t) && Enabled(t, s)
  {
    match s
    case Enable(c) => TransmitOn(t, c)
    case Disable(c) => TransmitOff(t, c)
    case Mark(c) => MarkDeauthed(t, c)
    case Detach(i, c) => Unbind(t, i, c)
    case Rebind(i, c, q, addr, bad) => Bind(t, i, c, q, addr, bad)
    case Crash => Prepare(t)
    case RecoverSta(i) => ZeroActived(TellUpTo(t, i, PEERS), i)
    case RecoverAp(i, stop) => TellUpTo(t, i, stop)
    case Finish => Complete(t)
    case Deinit => Release(t)
  }

  lemma {:induction false} StepKeeps(t: Tables, s: Step)
    requires Consistent(t) && Enabled(t, s)
    ensures Consistent(Next(t, s))
  {
    hide CtxOk;
    hide MapOk;
    hide LogOk;
    hide TransmitOn;
    hide TransmitOff;
    hide MarkDeauthed;
    hide Unbind;
    hide Bind;
    hide Prepare;
    hide TellUpTo;
    hide ZeroActived;
    hide Release;
    hide FreeUpTo;
    match s
    case Enable(c) => TransmitOnKeeps(t, c);
    case Disable(c) => TransmitOffKeeps(t, c);
    case Mark(c) => MarkKeeps(t, c);
    case Detach(i, c) => UnbindKeeps(t, i, c);
    case Rebind(i, c, q, addr, bad) => BindKeeps(t, i, c, q, addr, bad);
    case Crash => PrepareKeeps(t);
    case RecoverSta(i) => TellUpToKeeps(t, i, PEERS); ZeroKeeps(TellUpTo(t, i, PEERS), i);
    case RecoverAp(i, stop) => TellUpToKeeps(t, i, stop);
    case Finish => CompleteKeeps(t);
    case Deinit => FreeUpToKeeps(t, CTXS); ReleaseIs(t);
  }

  lemma {:induction false} ReleaseIs(t: Tables)
    requires Shape(t)
    ensures Release(t) == FreeUpTo(t, CTXS)
  {
  }

  /** A run from `t`; a step that is not enabled ends it. */
  function Run(t: Tables, steps: seq<Step>): Tables
    requires Shape(t)
    decreases |steps|
  {
    if steps == [] || !Enabled(t, steps[0]) || !Shape(Next(t, steps[0])) then t else Run(Next(t, steps[0]), steps[1..])
  }

  /** In every reachable state: map bits, entries and peers agree, every freed peer was freed once and is not referred
      to, and no peer was notified twice. */
  lemma {:induction false} RunKeeps(t: Tables, steps: seq<Step>)
    requires Consistent(t)
    ensures Consistent(Run(t, steps))
    decreases |steps|
  {
    hide CtxOk;
    hide MapOk;
    hide LogOk;
    hide Enabled;
    hide Next;
    if steps != [] && Enabled(t, steps[0]) {
      StepKeeps(t, steps[0]);
      RunKeeps(Next(t, steps[0]), steps[1..]);
    }
  }

  predicate Releases(s: Step) { s.Finish? || s.Deinit? }

  lemma {:induction false} StepKeepsSaved(t: Tables, s: Step)
    requires Consistent(t) && Enabled(t, s) && t.recovering && !Releases(s)
    ensures Next(t, s).saved == t.saved && Next(t, s).recovering
  {
    hide CtxOk;
    hide MapOk;
    hide LogOk;
    hide TellUpTo;
    hide FreeUpTo;
    match s
    case RecoverSta(i) => TellUpToKeeps(t, i, PEERS);
    case RecoverAp(i, stop) => TellUpToKeeps(t, i, stop);
    case _ =>
  }

  /** Until they are released, the saved peers survive every number of further crashes and interrupted recoveries. */
  lemma {:induction false} SavedPeersSurvive(t: Tables, steps: seq<Step>)
    requires Consistent(t) && t.recovering && forall k :: 0 <= k < |steps| ==> !Releases(steps[k])
    ensures Run(t, steps).saved == t.saved && Run(t, steps).recovering
    decreases |steps|
  {
    hide CtxOk;
    hide MapOk;
    hide LogOk;
    hide Enabled;
    hide Next;
    hide Releases;
    if steps != [] && Enabled(t, steps[0]) {
      assert !Releases(steps[0]);
      StepKeeps(t, steps[0]);
      StepKeepsSaved(t, steps[0]);
      SavedPeersSurvive(Next(t, steps[0]), steps[1..]);
    }
  }

  /** The peers bound at a crash are each freed exactly once by the first release after it, whatever happens between. */
  lemma {:induction false} CrashedPeersAreFreedOnce(t: Tables, steps: seq<Step>, last: Step, c: nat)
    requires Consistent(t) && !t.recovering && forall k :: 0 <= k < |steps| ==> !Releases(steps[k])
    requires Releases(last) && c < CTXS && t.ctx[c].Some?
    ensures var before := Run(Prepare(t), steps); var p := t.ctx[c].value;
      && Consistent(before) && p in before.peers && p !in before.freed
      && var after := Next(before, last); Consistent(after) && p !in after.peers && multiset(after.freed)[p] == 1
  {
    hide CtxOk;
    hide MapOk;
    hide LogOk;
    hide Run;
    var u := Prepare(t);
    PrepareKeeps(t);
    SavedPeersSurvive(u, steps);
    RunKeeps(u, steps);
    var before := Run(u, steps);
    var p := t.ctx[c].value;
    SavedIsLive(before, c);
    hide Prepare;
    StepKeeps(before, last);
    hide FreeUpTo;
    FreeUpToFrees(before, CTXS);
    FreedOnce(Next(before, last), p);
  }

  lemma {:induction false} SavedIsLive(t: Tables, c: nat)
    requires Consistent(t) && c < CTXS && t.saved[c].Some?
    ensures t.saved[c].value in t.peers && t.saved[c].value !in t.freed
  {
    assert CtxOk(t, c);
  }

  lemma {:induction false} FreedOnce(t: Tables, p: Id)
    requires Consistent(t) && p in t.freed
    ensures p !in t.peers && multiset(t.freed)[p] == 1
  {
    NoDupCount(t.freed, p);
  }

  lemma {:induction false} NoDupCount(s: seq<Id>, p: Id)
    requires NoDup(s)
    ensures multiset(s)[p] == if p in s then 1 else 0
    decreases |s|
  {
    if s != [] {
      var init, x := s[..|s| - 1], s[|s| - 1];
      assert s == init + [x];
      NoDupCount(init, p);
    }
  }

  // ----- who never transmits

  /** The peer is freed, or marked or flagged, and the data path does not see it. */
  predicate Refused(t: Tables, p: Id) {
    p in t.freed || (p in t.peers && (t.peers[p].deauthed || t.peers[p].bad) && !t.peers[p].active)
  }

  lemma {:induction false} TellRefuses(t: Tables, i: nat, n: nat, p: Id)
    requires Shape(t) && Refused(t, p) && i < IFACES && n <= PEERS
    ensures Refused(TellUpTo(t, i, n), p)
  {
    if n > 0 { TellRefuses(t, i, n - 1, p); }
  }

  lemma {:induction false} FreeRefuses(t: Tables, n: nat, p: Id)
    requires Shape(t) && Refused(t, p) && n <= CTXS
    ensures Refused(FreeUpTo(t, n), p)
  {
    if n > 0 { FreeRefuses(t, n - 1, p); }
  }

  lemma {:induction false} StepRefuses(t: Tables, s: Step, p: Id)
    requires Consistent(t) && Enabled(t, s) && Refused(t, p)
    ensures Refused(Next(t, s), p)
  {
    hide LogOk;
    hide MapOk;
    hide Apart;
    hide TellUpTo;
    hide FreeUpTo;
    match s
    case Enable(c) => TransmitOnMeaning(t, c);
    case Disable(c) => TransmitOffMeaning(t, c);
    case Mark(c) => MarkMeaning(t, c);
    case Detach(i, c) => UnbindMeaning(t, i, c);
    case Rebind(i, c, q, addr, bad) => BindMeaning(t, i, c, q, addr, bad);
    case RecoverSta(i) => TellRefuses(t, i, PEERS, p);
    case RecoverAp(i, stop) => TellRefuses(t, i, stop, p);
    case Finish => FreeRefuses(t, CTXS, p);
    case Deinit => FreeRefuses(t, CTXS, p);
    case _ =>
  }

  /** A peer that was silenced and marked, or bound with a bad flag, never transmits again, whatever happens. */
  lemma {:induction false} RefusedForGood(t: Tables, steps: seq<Step>, p: Id)
    requires Consistent(t) && Refused(t, p)
    ensures var u := Run(t, steps); Refused(u, p) && forall c :: 0 <= c < |u.entry| ==> u.entry[c] != Some(p)
    decreases |steps|
  {
    hide CtxOk;
    hide MapOk;
    hide LogOk;
    hide Enabled;
    hide Next;
    hide Refused;
    if steps != [] && Enabled(t, steps[0]) {
      StepKeeps(t, steps[0]);
      StepRefuses(t, steps[0], p);
      RefusedForGood(Next(t, steps[0]), steps[1..], p);
    } else {
      RefusedIsUnseen(t, p);
    }
  }

  lemma {:induction false} RefusedIsUnseen(t: Tables, p: Id)
    requires Consistent(t) && Refused(t, p)
    ensures forall c :: 0 <= c < |t.entry| ==> t.entry[c] != Some(p)
  {
    forall c | 0 <= c < |t.entry| ensures t.entry[c] != Some(p) { assert CtxOk(t, c); }
  }

  // ----- what is lost

  predicate Kept(t: Tables, p: Id)
    requires Shape(t) && p in t.peers
  {
    var h := t.peers[p].home;
    h < CTXS && (t.ctx[h] == Some(p) || t.saved[h] == Some(p))
  }

  /** Every live peer is in a context or saved. */
  predicate Accounted(t: Tables)
    requires Shape(t)
  {
    forall p :: p in t.peers ==> Kept(t, p)
  }

  /** A nested prepare forgets the peers bound since the crash without freeing them: it loses nobody iff there are none. */
  lemma {:induction false} NestedPrepareLoses(t: Tables)
    requires Consistent(t) && Accounted(t) && t.recovering
    ensures Accounted(Prepare(t)) <==> forall c :: 0 <= c < CTXS ==> t.ctx[c] == None
  {
    hide LogOk;
    hide MapOk;
    var u := Prepare(t);
    if forall c :: 0 <= c < CTXS ==> t.ctx[c] == None {
      forall p | p in u.peers ensures Kept(u, p) { assert Kept(t, p); }
    } else {
      var c :| 0 <= c < CTXS && t.ctx[c] != None;
      assert CtxOk(t, c);
      assert !Kept(u, t.ctx[c].value);
    }
  }

  lemma {:induction false} FirstPrepareLosesNobody(t: Tables)
    requires Consistent(t) && Accounted(t) && !t.recovering
    ensures Accounted(Prepare(t))
  {
    hide LogOk;
    hide MapOk;
    var u := Prepare(t);
    forall p | p in u.peers ensures Kept(u, p) {
      assert Kept(t, p);
      assert CtxOk(t, t.peers[p].home);
    }
  }

  /** Exactly the nested prepare with a bound peer loses one. */
  predicate Loses(t: Tables, s: Step)
    requires Shape(t)
  {
    s.Crash? && t.recovering && exists c :: 0 <= c < CTXS && t.ctx[c] != None
  }

  lemma {:induction false} StepLoses(t: Tables, s: Step)
    requires Consistent(t) && Accounted(t) && Enabled(t, s)
    ensures Shape(Next(t, s)) && (Accounted(Next(t, s)) <==> !Loses(t, s))
  {
    hide CtxOk;
    hide MapOk;
    hide LogOk;
    hide Accounted;
    hide TellUpTo;
    hide FreeUpTo;
    StepKeeps(t, s);
    match s
    case Enable(c) => SamePlaces(t, TransmitOn(t, c));
    case Disable(c) => SamePlaces(t, TransmitOff(t, c));
    case Mark(c) => SamePlaces(t, MarkDeauthed(t, c));
    case Detach(i, c) => UnbindPlaces(t, i, c);
    case Rebind(i, c, q, addr, bad) =>
      UnbindPlaces(t, i, c);
      AttachPlaces(Unbind(t, i, c), i, c, q, addr, bad);
    case Crash => if t.recovering { NestedPrepareLoses(t); } else { FirstPrepareLosesNobody(t); }
    case RecoverSta(i) => TellPlaces(t, i, PEERS); SamePlaces(t, Next(t, s));
    case RecoverAp(i, stop) => TellPlaces(t, i, stop); SamePlaces(t, Next(t, s));
    case Finish => FreePlaces(t, CTXS); SamePlaces(Release(t), Complete(t));
    case Deinit => FreePlaces(t, CTXS);
  }

  predicate SameHomes(t: Tables, u: Tables) {
    u.peers.Keys == t.peers.Keys && forall p :: p in t.peers ==> u.peers[p].home == t.peers[p].home
  }

  lemma {:induction false} SamePlaces(t: Tables, u: Tables)
    requires Shape(t) && Shape(u) && Accounted(t) && SameHomes(t, u) && u.ctx == t.ctx && u.saved == t.saved
    ensures Accounted(u)
  {
    forall p | p in u.peers ensures Kept(u, p) { assert Kept(t, p); }
  }

  lemma {:induction false} UnbindPlaces(t: Tables, i: nat, c: nat)
    requires Consistent(t) && Accounted(t) && c < CTXS && i < IFACES
    ensures Accounted(Unbind(t, i, c))
  {
    hide LogOk;
    hide MapOk;
    var u := Unbind(t, i, c);
    assert CtxOk(t, c);
    forall p | p in u.peers ensures Kept(u, p) { assert Kept(t, p); }
  }

  lemma {:induction false} AttachPlaces(t: Tables, i: nat, c: nat, q: Id, addr: nat, bad: bool)
    requires Shape(t) && Accounted(t) && c < CTXS && i < IFACES && t.ctx[c] == None
    ensures Accounted(Attach(t, i, c, q, addr, bad))
  {
    var u := Attach(t, i, c, q, addr, bad);
    forall p | p in u.peers ensures Kept(u, p) { if p != q { assert Kept(t, p); } }
  }

  lemma {:induction false} TellPlaces(t: Tables, i: nat, n: nat)
    requires Shape(t) && i < IFACES && n <= PEERS
    ensures var u := TellUpTo(t, i, n); SameHomes(t, u) && u.ctx == t.ctx && u.saved == t.saved && u.entry == t.entry
  {
    if n > 0 { TellPlaces(t, i, n - 1); }
  }

  lemma {:induction false} FreePlaces(t: Tables, n: nat)
    requires Consistent(t) && Accounted(t) && n <= CTXS
    ensures Accounted(FreeUpTo(t, n))
  {
    hide LogOk;
    hide MapOk;
    hide CtxOk;
    hide Apart;
    hide Accounted;
    hide FreeSlot;
    if n > 0 {
      FreePlaces(t, n - 1);
      FreeUpToKeeps(t, n - 1);
      FreeSlotPlaces(FreeUpTo(t, n - 1), n - 1);
    }
  }

  lemma {:induction false} FreeSlotPlaces(t: Tables, c: nat)
    requires Consistent(t) && Accounted(t) && c < CTXS
    ensures Shape(FreeSlot(t, c)) && Accounted(FreeSlot(t, c))
  {
    hide LogOk;
    hide MapOk;
    hide Apart;
    var w := FreeSlot(t, c);
    assert CtxOk(t, c);
    forall p | p in w.peers ensures Kept(w, p) { assert Kept(t, p); }
  }

  predicate CleanRun(t: Tables, steps: seq<Step>)
    requires Shape(t)
    decreases |steps|
  {
    steps == [] || !Enabled(t, steps[0]) || !Shape(Next(t, steps[0]))
    || (!Loses(t, steps[0]) && CleanRun(Next(t, steps[0]), steps[1..]))
  }

  /** Allocated peers are conserved by every run in which no crash meets a peer bound since the last one: each is in a
      context, saved, or freed (once, by `RunKeeps`). */
  lemma {:induction false} RunConserves(t: Tables, steps: seq<Step>)
    requires Consistent(t) && Accounted(t) && CleanRun(t, steps)
    ensures Shape(Run(t, steps)) && Accounted(Run(t, steps))
    decreases |steps|
  {
    hide CtxOk;
    hide MapOk;
    hide LogOk;
    hide Enabled;
    hide Next;
    hide Accounted;
    hide Loses;
    if steps != [] && Enabled(t, steps[0]) {
      StepKeeps(t, steps[0]);
      StepLoses(t, steps[0]);
      RunConserves(Next(t, steps[0]), steps[1..]);
    }
  }

  // ----- who is told

  /** From `t` to `u` nothing but notifications and counters changed, and who was newly marked was told. */
  predicate Since(t: Tables, u: Tables)
    requires Shape(t) && Shape(u)
  {
    && u.saved == t.saved && u.recovering == t.recovering && u.ctx == t.ctx && u.freed == t.freed
    && SameHomes(t, u) && (forall i :: 0 <= i < IFACES ==> Frame(t.ifaces[i], u.ifaces[i]))
    && (forall p :: p in t.peers ==> Newly(t, u, p))
    && |t.told| <= |u.told| && t.told == u.told[..|t.told|]
  }

  predicate Newly(t: Tables, u: Tables, p: Id) {
    p in t.peers && p in u.peers && u.peers[p].iface == t.peers[p].iface
    && if t.peers[p].deauthed then u.peers[p].deauthed else u.peers[p].deauthed ==> Told(u, p)
  }

  lemma {:induction false} ToldGrows(t: Tables, u: Tables, p: Id)
    requires |t.told| <= |u.told| && t.told == u.told[..|t.told|] && Told(t, p)
    ensures Told(u, p)
  {
    var a :| 0 <= a < |t.told| && t.told[a].peer == p;
    assert u.told[a].peer == p;
  }

  lemma {:induction false} SinceTrans(t: Tables, u: Tables, w: Tables)
    requires Shape(t) && Shape(u) && Shape(w) && Since(t, u) && Since(u, w)
    ensures Since(t, w)
  {
    hide Told;
    forall p | p in t.peers ensures Newly(t, w, p) {
      assert Newly(t, u, p) && Newly(u, w, p);
      if Told(u, p) { ToldGrows(u, w, p); }
    }
  }

  lemma {:induction false} TellSince(t: Tables, i: nat, idx: nat)
    requires Shape(t) && i < IFACES && idx < PEERS
    ensures Shape(Tell(t, i, idx)) && Since(t, Tell(t, i, idx))
  {
    var u := Tell(t, i, idx);
    if Pending(t, i, idx).Some? {
      assert u.told[|t.told|].peer == Pending(t, i, idx).value;
    }
  }

  lemma {:induction false} TellUpToSince(t: Tables, i: nat, n: nat)
    requires Shape(t) && i < IFACES && n <= PEERS
    ensures Since(t, TellUpTo(t, i, n))
  {
    hide Told;
    hide Tell;
    if n > 0 {
      TellUpToSince(t, i, n - 1);
      var u := TellUpTo(t, i, n - 1);
      TellSince(u, i, n - 1);
      hide Since;
      SinceTrans(t, u, Tell(u, i, n - 1));
    }
  }

  /** After a recovery the count of an access point is still too high by what was active at the crash, so it is exact iff
      nothing was; a station's is exact. */
  lemma {:induction false} CountAfterRecovery(t: Tables, i: nat, stop: nat)
    requires Consistent(t) && i < IFACES && stop <= PEERS
    ensures Drift(Complete(TellUpTo(Prepare(t), i, stop)), i) == Drift(t, i) + Count(t, i, CTXS)
    ensures Drift(Complete(ZeroActived(TellUpTo(Prepare(t), i, PEERS), i)), i) == 0
  {
    hide CtxOk;
    hide LogOk;
    hide MapOk;
    hide TellUpTo;
    hide FreeUpTo;
    hide Count;
    var u := Prepare(t);
    PrepareKeeps(t);
    PrepareDrifts(t, i);
    TellUpToKeeps(u, i, stop);
    CompleteKeeps(TellUpTo(u, i, stop));
    TellUpToKeeps(u, i, PEERS);
    TellPlaces(u, i, PEERS);
    var w := TellUpTo(u, i, PEERS);
    ZeroKeeps(w, i);
    CountNone(w, i, CTXS);
    CompleteKeeps(ZeroActived(w, i));
  }

  // ----- the count over runs

  /** What one step makes of the difference between `actived_ctx` and the contexts the data path sees. */
  ghost function DriftAfter(t: Tables, s: Step, i: nat): int
    requires Shape(t) && Enabled(t, s) && Shape(Next(t, s)) && i < IFACES
  {
    match s
    case Crash => Drift(t, i) + Count(t, i, CTXS)
    case RecoverSta(j) => if j == i then -(Count(Next(t, s), i, CTXS) as int) else Drift(t, i)
    case _ => Drift(t, i)
  }

  lemma {:induction false} ZeroDrift(t: Tables, i: nat, j: nat)
    requires Shape(t) && i < IFACES && j < IFACES
    ensures var u := ZeroActived(t, j);
      Drift(u, i) == if j == i then -(Count(u, i, CTXS) as int) else Drift(t, i)
  {
    CountSame(t, ZeroActived(t, j), i, CTXS);
  }

  /** A crash adds what was active, recovering a station subtracts what is active since, nothing else changes it. */
  lemma {:induction false} StepDrift(t: Tables, s: Step, i: nat)
    requires Consistent(t) && Enabled(t, s) && i < IFACES
    ensures Shape(Next(t, s)) && Drift(Next(t, s), i) == DriftAfter(t, s, i)
  {
    hide CtxOk;
    hide MapOk;
    hide LogOk;
    hide TransmitOn;
    hide TransmitOff;
    hide MarkDeauthed;
    hide Unbind;
    hide Bind;
    hide Prepare;
    hide TellUpTo;
    hide ZeroActived;
    hide Complete;
    hide Release;
    hide Drift;
    hide Count;
    StepKeeps(t, s);
    match s
    case Enable(c) => TransmitOnKeeps(t, c);
    case Disable(c) => TransmitOffKeeps(t, c);
    case Mark(c) => MarkKeeps(t, c);
    case Detach(j, c) => UnbindKeeps(t, j, c);
    case Rebind(j, c, q, addr, bad) => BindKeeps(t, j, c, q, addr, bad);
    case Crash => PrepareDrifts(t, i);
    case RecoverSta(j) => TellUpToKeeps(t, j, PEERS); ZeroDrift(TellUpTo(t, j, PEERS), i, j);
    case RecoverAp(j, stop) => TellUpToKeeps(t, j, stop);
    case Finish => CompleteKeeps(t);
    case Deinit => FreeUpToKeeps(t, CTXS); ReleaseIs(t);
  }

  /** No crash of the run meets an active context of the interface, and none is active when it is recovered as a station. */
  ghost predicate CalmRun(t: Tables, steps: seq<Step>, i: nat)
    requires Shape(t) && i < IFACES
    decreases |steps|
  {
    steps == [] || !Enabled(t, steps[0]) || !Shape(Next(t, steps[0]))
    || (CalmStep(t, steps[0], i) && CalmRun(Next(t, steps[0]), steps[1..], i))
  }

  ghost predicate CalmStep(t: Tables, s: Step, i: nat)
    requires Shape(t) && Enabled(t, s) && Shape(Next(t, s)) && i < IFACES
  {
    && (s.Crash? ==> Count(t, i, CTXS) == 0)
    && (s == RecoverSta(i) ==> Count(Next(t, s), i, CTXS) == 0)
  }

  /** One step keeps an exact count exact iff it is calm. */
  lemma {:induction false} ExactIffCalm(t: Tables, s: Step, i: nat)
    requires Consistent(t) && Enabled(t, s) && i < IFACES && Drift(t, i) == 0
    ensures Shape(Next(t, s)) && (Drift(Next(t, s), i) == 0 <==> CalmStep(t, s, i))
  {
    hide CtxOk;
    hide MapOk;
    hide LogOk;
    hide Next;
    hide Drift;
    hide Count;
    StepDrift(t, s, i);
  }

  /** An exact count stays exact over every calm run. */
  lemma {:induction false} CalmRunIsExact(t: Tables, steps: seq<Step>, i: nat)
    requires Consistent(t) && i < IFACES && Drift(t, i) == 0 && CalmRun(t, steps, i)
    ensures Shape(Run(t, steps)) && Drift(Run(t, steps), i) == 0
    decreases |steps|
  {
    hide CtxOk;
    hide MapOk;
    hide LogOk;
    hide Enabled;
    hide Next;
    hide Drift;
    hide CalmStep;
    if steps != [] && Enabled(t, steps[0]) {
      StepKeeps(t, steps[0]);
      ExactIffCalm(t, steps[0], i);
      CalmRunIsExact(Next(t, steps[0]), steps[1..], i);
    }
  }
}
