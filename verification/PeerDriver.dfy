/** The driver's own loops over peers: lookup, station removal, flush, and the recovery work. */
module PeerDriver {
  import opened Options
  import opened PeerTables
  import opened PeerRecovery

  // ----- removing stations

  /** skw_sap_del_sta: transmission stops and the peer is marked whatever the firmware answers. */
  function Removed(t: Tables, i: nat, c: nat, ok: bool): (u: Tables)
    requires Shape(t) && c < CTXS && i < IFACES
    ensures Shape(u)
  {
    if t.ctx[c] == None then t
    else if ok then Unbind(Silence(t, c), i, c) else Silence(t, c)
  }

  function Silence(t: Tables, c: nat): (u: Tables)
    requires Shape(t) && c < CTXS
    ensures Shape(u) && u.ctx == t.ctx
  {
    MarkDeauthed(TransmitOff(t, c), c)
  }

  lemma {:induction false} SilenceKeeps(t: Tables, c: nat)
    requires Consistent(t) && c < CTXS
    ensures var u := Silence(t, c);
      && Consistent(u) && SameDrift(t, u) && Elsewhere(t, u, c) && u.entry[c] == None
      && forall i :: 0 <= i < IFACES ==> u.ifaces[i].peerMap == t.ifaces[i].peerMap && (Holds(t, c, i) ==> Holds(u, c, i))
  {
    hide LogOk;
    hide MapOk;
    hide Drift;
    hide CtxOk;
    TransmitOffKeeps(t, c);
    TransmitOffHere(t, c);
    var a := TransmitOff(t, c);
    hide TransmitOff;
    hide Elsewhere;
    hide Holds;
    MarkKeeps(a, c);
    MarkHere(a, c);
    hide MarkDeauthed;
    ElsewhereTrans(t, a, Silence(t, c), c);
    forall i | 0 <= i < IFACES ensures Recounted(t, a, c, i) { }
  }

  lemma {:induction false} ElsewhereTrans(t: Tables, a: Tables, u: Tables, c: nat)
    requires Shape(t) && Shape(a) && Shape(u) && Elsewhere(t, a, c) && Elsewhere(a, u, c)
    ensures Elsewhere(t, u, c)
  {
    forall i | 0 <= i < IFACES ensures Frame(t.ifaces[i], u.ifaces[i]) {
      assert Frame(t.ifaces[i], a.ifaces[i]) && Frame(a.ifaces[i], u.ifaces[i]);
    }
  }

  lemma {:induction false} MarkHere(t: Tables, c: nat)
    requires Consistent(t) && c < CTXS
    ensures var u := MarkDeauthed(t, c);
      && Elsewhere(t, u, c) && u.ifaces == t.ifaces && u.entry == t.entry && forall i :: Holds(u, c, i) == Holds(t, c, i)
  {
    assert CtxOk(t, c);
  }

  lemma {:induction false} RemovedKeeps(t: Tables, i: nat, c: nat, ok: bool)
    requires Consistent(t) && c < CTXS && i < IFACES && Holds(t, c, i)
    ensures var u := Removed(t, i, c, ok);
      && Consistent(u) && SameDrift(t, u) && Elsewhere(t, u, c) && u.entry[c] == None && (ok <==> u.ctx[c] == None)
      && u.ifaces[i].peerMap == (if ok then t.ifaces[i].peerMap - {c % PEERS} else t.ifaces[i].peerMap)
      && if ok then t.ctx[c].value in u.freed else SilencedAt(u, c)
  {
    hide LogOk;
    hide MapOk;
    hide Drift;
    SilenceKeeps(t, c);
    SilenceMarks(t, c);
    var b := Silence(t, c);
    hide Silence;
    if ok {
      UnbindKeeps(b, i, c);
      UnbindHere(b, i, c);
      UnbindMeaning(b, i, c);
    }
  }

  /** The context holds a peer that does not transmit and is marked; by `RefusedForGood` it never will. */
  predicate SilencedAt(t: Tables, c: nat) {
    c < |t.ctx| && t.ctx[c].Some? && t.ctx[c].value in t.peers
    && t.peers[t.ctx[c].value].deauthed && !t.peers[t.ctx[c].value].active
  }

  lemma {:induction false} SilenceMarks(t: Tables, c: nat)
    requires Consistent(t) && c < CTXS && t.ctx[c].Some?
    ensures SilencedAt(Silence(t, c), c)
  {
    hide LogOk;
    hide MapOk;
    assert CtxOk(t, c);
  }

  lemma {:induction false} UnbindHere(t: Tables, i: nat, c: nat)
    requires Consistent(t) && c < CTXS && i < IFACES
    ensures var u := Unbind(t, i, c);
      && Elsewhere(t, u, c) && u.entry == t.entry && u.ctx[c] == None
      && u.ifaces[i].peerMap == t.ifaces[i].peerMap - {c % PEERS}
  {
    assert CtxOk(t, c);
  }

  /** skw_sap_flush_sta up to index `n`, over the map as it was. */
  function FlushUpTo(t: Tables, i: nat, ok: seq<bool>, n: nat): (u: Tables)
    requires Shape(t) && i < IFACES && |ok| == PEERS && n <= PEERS
    ensures Shape(u)
  {
    if n == 0 then t
    else
      var u := FlushUpTo(t, i, ok, n - 1);
      if n - 1 in t.ifaces[i].peerMap then Removed(u, i, Slot(t.ifaces[i].lmac, n - 1), ok[n - 1]) else u
  }

  predicate Flushed(t: Tables, u: Tables, i: nat, ok: seq<bool>, n: nat)
    requires Shape(t) && Shape(u) && i < IFACES && |ok| == PEERS && n <= PEERS
  {
    && Consistent(u) && SameDrift(t, u) && u.ifaces[i].lmac == t.ifaces[i].lmac
    && (forall idx :: 0 <= idx < PEERS ==>
        (idx in u.ifaces[i].peerMap <==> idx in t.ifaces[i].peerMap && (idx < n ==> !ok[idx])))
    && forall idx :: 0 <= idx < n && idx in t.ifaces[i].peerMap ==>
        u.entry[Slot(t.ifaces[i].lmac, idx)] == None && (!ok[idx] ==> SilencedAt(u, Slot(t.ifaces[i].lmac, idx)))
  }

  lemma {:induction false} FlushUpToMeaning(t: Tables, i: nat, ok: seq<bool>, n: nat)
    requires Consistent(t) && i < IFACES && |ok| == PEERS && n <= PEERS
    ensures Flushed(t, FlushUpTo(t, i, ok, n), i, ok, n)
  {
    hide LogOk;
    hide CtxOk;
    hide MapOk;
    hide Apart;
    hide Drift;
    hide Removed;
    hide Flushed;
    if n == 0 {
      NothingFlushed(t, i, ok);
    } else {
      FlushUpToMeaning(t, i, ok, n - 1);
      FlushOne(t, FlushUpTo(t, i, ok, n - 1), i, ok, n - 1);
    }
  }

  lemma {:induction false} NothingFlushed(t: Tables, i: nat, ok: seq<bool>)
    requires Consistent(t) && i < IFACES && |ok| == PEERS
    ensures Flushed(t, t, i, ok, 0)
  {
    hide LogOk;
    hide CtxOk;
    hide MapOk;
  }

  lemma {:induction false} FlushOne(t: Tables, u: Tables, i: nat, ok: seq<bool>, idx: nat)
    requires Shape(t) && Shape(u) && i < IFACES && |ok| == PEERS && idx < PEERS && Flushed(t, u, i, ok, idx)
    ensures var w := if idx in t.ifaces[i].peerMap then Removed(u, i, Slot(t.ifaces[i].lmac, idx), ok[idx]) else u;
      Flushed(t, w, i, ok, idx + 1)
  {
    hide LogOk;
    hide CtxOk;
    hide Drift;
    hide Removed;
    hide Apart;
    var c := Slot(t.ifaces[i].lmac, idx);
    if idx in t.ifaces[i].peerMap {
      assert MapOk(u, i);
      assert Holds(u, c, i);
      SlotOf(t.ifaces[i].lmac, idx);
      RemovedKeeps(u, i, c, ok[idx]);
      hide Holds;
      hide MapOk;
      var w := Removed(u, i, c, ok[idx]);
      assert Frame(u.ifaces[i], w.ifaces[i]);
      hide SilencedAt;
      forall k | 0 <= k < idx && k in t.ifaces[i].peerMap && !ok[k]
        ensures SilencedAt(w, Slot(t.ifaces[i].lmac, k))
      {
        OtherSilenced(u, w, c, Slot(t.ifaces[i].lmac, k));
      }
    }
  }

  lemma {:induction false} OtherSilenced(t: Tables, u: Tables, c: nat, d: nat)
    requires Consistent(t) && Shape(u) && Elsewhere(t, u, c) && d < CTXS && d != c && SilencedAt(t, d)
    ensures SilencedAt(u, d)
  {
    hide LogOk;
    hide MapOk;
    assert CtxOk(t, d);
  }

  /** A flush leaves exactly the stations the firmware refused to delete, and none of them transmits; when the count was
      exact before, it is zero after. */
  lemma {:induction false} FlushMeaning(t: Tables, i: nat, ok: seq<bool>)
    requires Consistent(t) && i < IFACES && |ok| == PEERS
    ensures var u := FlushUpTo(t, i, ok, PEERS);
      && Consistent(u) && Count(u, i, CTXS) == 0 && u.ifaces[i].actived == Drift(t, i)
      && u.ifaces[i].peerMap == (set idx | idx in t.ifaces[i].peerMap && idx < PEERS && !ok[idx])
      && forall idx :: idx in u.ifaces[i].peerMap ==> SilencedAt(u, Slot(t.ifaces[i].lmac, idx))
  {
    hide LogOk;
    FlushUpToMeaning(t, i, ok, PEERS);
    var u := FlushUpTo(t, i, ok, PEERS);
    hide FlushUpTo;
    assert MapOk(u, i) && MapOk(t, i);
    forall c | 0 <= c < CTXS ensures !On(u, c, i) {
      assert CtxOk(u, c);
      SlotOf(c / PEERS, c % PEERS);
    }
    NobodyOn(u, i, CTXS);
  }

  lemma {:induction false} NobodyOn(t: Tables, i: nat, n: nat)
    requires forall c :: 0 <= c < n ==> !On(t, c, i)
    ensures Count(t, i, n) == 0
  {
    hide On;
    if n > 0 { NobodyOn(t, i, n - 1); }
  }

  // ----- lookup

  predicate Matches(t: Tables, c: nat, mac: nat) {
    c < |t.ctx| && t.ctx[c].Some? && t.ctx[c].value in t.peers && t.peers[t.ctx[c].value].addr == mac
  }

  // ----- recovery

  /** Firmware answers during one run of the work: chip information, calibration, opening each interface, restarting each
      access point; `stop` is the first index an access point's flush does not reach when the firmware asserts again. */
  datatype Answers = Answers(chip: bool, calib: bool, assertSeen: seq<bool>, open: seq<bool>, restart: seq<bool>, stop: seq<nat>)

  predicate ValidAnswers(a: Answers) {
    && |a.assertSeen| == IFACES && |a.open| == IFACES && |a.restart| == IFACES && |a.stop| == IFACES
    && forall i :: 0 <= i < IFACES ==> a.stop[i] <= PEERS
  }

  predicate Early(m: Mode) { m == Sta || m == P2pDev }

  /** Up to which index the peers of an interface are notified. */
  function Reach(m: Mode, restart: bool, stop: nat): nat {
    match m
    case Sta => PEERS
    case Client => PEERS
    case Ap => if restart then stop else 0
    case Go => if restart then stop else 0
    case _ => 0
  }

  function Notified(t: Tables, i: nat, restart: bool, stop: nat): (u: Tables)
    requires Shape(t) && i < IFACES && stop <= PEERS
    ensures Shape(u)
  {
    match t.ifaces[i].mode
    case Sta => ZeroActived(TellUpTo(t, i, PEERS), i)
    case Client => ZeroActived(TellUpTo(t, i, PEERS), i)
    case Ap => if restart then TellUpTo(t, i, stop) else t
    case Go => if restart then TellUpTo(t, i, stop) else t
    case _ => t
  }

  lemma {:induction false} ZeroSince(t: Tables, u: Tables, i: nat)
    requires Shape(t) && Shape(u) && i < IFACES && Since(t, u)
    ensures Since(t, ZeroActived(u, i))
  {
    hide Told;
    var w := ZeroActived(u, i);
    forall p | p in t.peers ensures Newly(t, w, p) {
      assert Newly(t, u, p);
      if Told(u, p) { ToldGrows(u, w, p); }
    }
    forall j | 0 <= j < IFACES ensures Frame(t.ifaces[j], w.ifaces[j]) { assert Frame(t.ifaces[j], u.ifaces[j]); }
  }

  lemma {:induction false} NotifiedKeeps(t: Tables, i: nat, restart: bool, stop: nat)
    requires Consistent(t) && i < IFACES && stop <= PEERS
    ensures var u := Notified(t, i, restart, stop); Consistent(u) && Since(t, u)
  {
    hide CtxOk;
    hide LogOk;
    hide MapOk;
    hide Apart;
    hide TellUpTo;
    hide Since;
    var n := if t.ifaces[i].mode == Sta || t.ifaces[i].mode == Client then PEERS else stop;
    TellUpToKeeps(t, i, n);
    TellUpToSince(t, i, n);
    var u := TellUpTo(t, i, n);
    ZeroSince(t, u, i);
    ZeroKeeps(u, i);
    SinceSelf(t);
  }

  lemma {:induction false} SinceSelf(t: Tables)
    requires Shape(t)
    ensures Since(t, t)
  {
  }

  // ----- exactly who is told

  /** The peer saved for context `c` is marked. */
  predicate MarkedAt(t: Tables, c: nat)
    requires Shape(t) && c < CTXS
  {
    t.saved[c].Some? && t.saved[c].value in t.peers && t.peers[t.saved[c].value].deauthed
  }

  /** The peer saved for context `c` belongs to interface `i`. */
  predicate SavedFor(t: Tables, c: nat, i: nat)
    requires Shape(t) && c < CTXS
  {
    t.saved[c].Some? && t.saved[c].value in t.peers && t.peers[t.saved[c].value].iface == i
  }

  /** One turn of the loop marks exactly the peer saved for its context, if it is the interface's. */
  lemma {:induction false} TellExactly(t: Tables, i: nat, idx: nat, c: nat)
    requires Consistent(t) && i < IFACES && t.ifaces[i].present && idx < PEERS && c < CTXS && t.saved[c].Some?
    ensures var u := Tell(t, i, idx);
      && Shape(u) && u.saved == t.saved
      && (SavedFor(u, c, i) <==> SavedFor(t, c, i))
      && (MarkedAt(u, c) <==> MarkedAt(t, c) || (SavedFor(t, c, i) && c % PEERS == idx))
  {
    hide LogOk;
    hide MapOk;
    hide BoundOk;
    var d := Slot(t.ifaces[i].lmac, idx);
    SlotOf(t.ifaces[i].lmac, idx);
    assert CtxOk(t, c) && CtxOk(t, d);
    if c == d { OwnMap(t, c, i); }
  }

  /** A saved peer is in the saved map of its own interface only. */
  lemma {:induction false} OwnMap(t: Tables, c: nat, i: nat)
    requires Consistent(t) && c < CTXS && t.saved[c].Some? && i < IFACES
    requires t.ifaces[i].present && t.ifaces[i].lmac == c / PEERS
    ensures c % PEERS in t.ifaces[i].savedMap <==> SavedFor(t, c, i)
  {
    hide LogOk;
    hide MapOk;
    assert CtxOk(t, c);
    var j := t.peers[t.saved[c].value].iface;
    if i < j { assert Disjoint(t.ifaces[i], t.ifaces[j]); }
    if j < i { assert Disjoint(t.ifaces[j], t.ifaces[i]); }
  }

  lemma {:induction false} TellUpToExactly(t: Tables, i: nat, n: nat, c: nat)
    requires Consistent(t) && i < IFACES && t.ifaces[i].present && n <= PEERS && c < CTXS && t.saved[c].Some?
    ensures var u := TellUpTo(t, i, n);
      && u.saved == t.saved
      && (SavedFor(u, c, i) <==> SavedFor(t, c, i))
      && (MarkedAt(u, c) <==> MarkedAt(t, c) || (SavedFor(t, c, i) && c % PEERS < n))
    decreases n
  {
    hide CtxOk;
    hide LogOk;
    hide MapOk;
    hide Apart;
    hide Tell;
    hide MarkedAt;
    hide SavedFor;
    if n > 0 {
      TellUpToExactly(t, i, n - 1, c);
      var u := TellUpTo(t, i, n - 1);
      TellUpToKeeps(t, i, n - 1);
      TellUpToSince(t, i, n - 1);
      assert Frame(t.ifaces[i], u.ifaces[i]);
      TellExactly(u, i, n - 1, c);
    }
  }

  /** Recovering an interface marks exactly its saved peers below the index it reaches. */
  lemma {:induction false} NotifiedExactly(t: Tables, i: nat, restart: bool, stop: nat, c: nat)
    requires Consistent(t) && i < IFACES && t.ifaces[i].present && stop <= PEERS && c < CTXS && t.saved[c].Some?
    ensures var u := Notified(t, i, restart, stop);
      && u.saved == t.saved
      && (MarkedAt(u, c) <==> MarkedAt(t, c) || (SavedFor(t, c, i) && c % PEERS < Reach(t.ifaces[i].mode, restart, stop)))
  {
    hide CtxOk;
    hide LogOk;
    hide MapOk;
    hide Apart;
    hide TellUpTo;
    hide SavedFor;
    var n := if t.ifaces[i].mode == Sta || t.ifaces[i].mode == Client then PEERS else stop;
    TellUpToExactly(t, i, n, c);
  }

  // ----- in which order

  /** The notifications from the `m`-th on went to peers of interfaces of the early pass, or of the other one. */
  ghost predicate ToldIn(t1: Tables, t: Tables, m: nat, early: bool)
    requires Shape(t1)
  {
    forall a :: m <= a < |t.told| ==> EarlyPeer(t1, t.told[a].peer) == early
  }

  /** The peer belongs to a station or P2P device. */
  ghost predicate EarlyPeer(t: Tables, p: Id)
    requires Shape(t)
  {
    p in t.peers && t.peers[p].iface < IFACES
    && (t.ifaces[t.peers[p].iface].mode == Sta || t.ifaces[t.peers[p].iface].mode == P2pDev)
  }

  /** Since `t1` the peers of stations were told before all others. */
  ghost predicate EarlyFirst(t1: Tables, t: Tables)
    requires Shape(t1)
  {
    && |t1.told| <= |t.told|
    && forall a, b :: |t1.told| <= a < b < |t.told| && EarlyPeer(t1, t.told[b].peer) ==> EarlyPeer(t1, t.told[a].peer)
  }

  /** The loop tells peers of its own interface only. */
  lemma {:induction false} TellsOwn(t: Tables, i: nat, n: nat)
    requires Consistent(t) && i < IFACES && t.ifaces[i].present && n <= PEERS
    ensures var u := TellUpTo(t, i, n);
      forall a :: |t.told| <= a < |u.told| ==> u.told[a].peer in t.peers && t.peers[u.told[a].peer].iface == i
  {
    hide CtxOk;
    hide LogOk;
    hide MapOk;
    hide Apart;
    hide Tell;
    if n > 0 {
      TellsOwn(t, i, n - 1);
      var u := TellUpTo(t, i, n - 1);
      TellUpToKeeps(t, i, n - 1);
      TellUpToSince(t, i, n - 1);
      assert Frame(t.ifaces[i], u.ifaces[i]);
      TellOwn(u, i, n - 1);
      assert forall p :: p in u.peers ==> p in t.peers && Newly(t, u, p);
    }
  }

  lemma {:induction false} TellOwn(t: Tables, i: nat, idx: nat)
    requires Consistent(t) && i < IFACES && t.ifaces[i].present && idx < PEERS
    ensures var u := Tell(t, i, idx);
      u.told == t.told || exists e :: u.told == t.told + [e] && e.peer in t.peers && t.peers[e.peer].iface == i
  {
    hide LogOk;
    hide MapOk;
    var c := Slot(t.ifaces[i].lmac, idx);
    SlotOf(t.ifaces[i].lmac, idx);
    assert CtxOk(t, c);
    if Pending(t, i, idx).Some? {
      OwnMap(t, c, i);
      assert Tell(t, i, idx).told == t.told + [Event(t.saved[c].value, KindOf(t.ifaces[i], t.peers[t.saved[c].value].addr))];
    }
  }

  /** One more interface of a pass. */
  lemma {:induction false} NotifiedIn(t1: Tables, u: Tables, i: nat, restart: bool, stop: nat, m: nat, early: bool)
    requires Consistent(t1) && Consistent(u) && Since(t1, u) && i < IFACES && t1.ifaces[i].present && stop <= PEERS
    requires ToldIn(t1, u, m, early) && Early(t1.ifaces[i].mode) == early
    ensures ToldIn(t1, Notified(u, i, restart, stop), m, early)
  {
    hide CtxOk;
    hide LogOk;
    hide MapOk;
    hide Apart;
    hide TellUpTo;
    hide Told;
    assert Frame(t1.ifaces[i], u.ifaces[i]);
    TellsOwn(u, i, PEERS);
    TellsOwn(u, i, stop);
    TellUpToSince(u, i, PEERS);
    TellUpToSince(u, i, stop);
    var w := Notified(u, i, restart, stop);
    forall a | m <= a < |w.told| ensures EarlyPeer(t1, w.told[a].peer) == early {
      if a < |u.told| {
        assert w.told[a] == u.told[a];
      } else {
        assert w.told[a].peer in u.peers && u.peers[w.told[a].peer].iface == i;
        assert w.told[a].peer in t1.peers && Newly(t1, u, w.told[a].peer);
      }
    }
  }

  lemma {:induction false} NoneIn(t1: Tables, t: Tables, early: bool)
    requires Shape(t1)
    ensures ToldIn(t1, t, |t.told|, early)
  {
  }

  lemma {:induction false} SinceFrame(t: Tables, u: Tables, i: nat)
    requires Shape(t) && Shape(u) && Since(t, u) && i < IFACES
    ensures Frame(t.ifaces[i], u.ifaces[i])
  {
  }

  lemma {:induction false} TwoPasses(t1: Tables, t2: Tables, t3: Tables)
    requires Shape(t1) && |t1.told| <= |t2.told| <= |t3.told| && t3.told[..|t2.told|] == t2.told
    requires ToldIn(t1, t2, |t1.told|, true) && ToldIn(t1, t3, |t2.told|, false)
    ensures EarlyFirst(t1, t3)
  {
    hide EarlyPeer;
    assert forall a :: |t1.told| <= a < |t2.told| ==> t3.told[a] == t2.told[a];
  }

  function ReachOf(t: Tables, a: Answers, i: nat): nat
    requires Shape(t) && ValidAnswers(a) && i < IFACES
  {
    Reach(t.ifaces[i].mode, a.restart[i], a.stop[i])
  }

  /** Whether the peer saved for context `c` is told, when all interfaces in `done` have been recovered. */
  predicate Reached(t: Tables, a: Answers, c: nat, done: set<nat>)
    requires Shape(t) && ValidAnswers(a) && c < CTXS
  {
    t.saved[c].Some? && t.saved[c].value in t.peers
    && var i := t.peers[t.saved[c].value].iface; i < IFACES && i in done && c % PEERS < ReachOf(t, a, i)
  }

  /** From `t` on, exactly the peers that were reached have been marked. */
  ghost predicate ExactSince(t: Tables, u: Tables, a: Answers, done: set<nat>)
    requires Shape(t) && Shape(u) && ValidAnswers(a)
  {
    forall c :: 0 <= c < CTXS && t.saved[c].Some? ==> (MarkedAt(u, c) <==> MarkedAt(t, c) || Reached(t, a, c, done))
  }

  lemma {:induction false} ExactStart(t: Tables, a: Answers)
    requires Shape(t) && ValidAnswers(a)
    ensures ExactSince(t, t, a, {})
  {
  }

  /** An interface that is not present has no saved peers. */
  lemma {:induction false} AbsentSkipped(t: Tables, u: Tables, a: Answers, done: set<nat>, i: nat)
    requires Consistent(t) && Shape(u) && ValidAnswers(a) && i < IFACES && !t.ifaces[i].present && ExactSince(t, u, a, done)
    ensures ExactSince(t, u, a, done + {i})
  {
    hide LogOk;
    hide MapOk;
    hide BoundOk;
    hide MarkedAt;
    forall c | 0 <= c < CTXS && t.saved[c].Some?
      ensures MarkedAt(u, c) <==> MarkedAt(t, c) || Reached(t, a, c, done + {i})
    {
      assert CtxOk(t, c);
      assert Reached(t, a, c, done + {i}) <==> Reached(t, a, c, done);
    }
  }

  lemma {:induction false} ExactStep(t: Tables, u: Tables, a: Answers, done: set<nat>, i: nat)
    requires Consistent(t) && Consistent(u) && ValidAnswers(a) && i < IFACES && t.ifaces[i].present
    requires Since(t, u) && ExactSince(t, u, a, done)
    ensures ExactSince(t, Notified(u, i, a.restart[i], a.stop[i]), a, done + {i})
  {
    hide LogOk;
    hide MapOk;
    hide CtxOk;
    hide Apart;
    hide Told;
    hide Notified;
    hide MarkedAt;
    assert Frame(t.ifaces[i], u.ifaces[i]);
    forall c | 0 <= c < CTXS && t.saved[c].Some?
      ensures MarkedAt(Notified(u, i, a.restart[i], a.stop[i]), c) <==> MarkedAt(t, c) || Reached(t, a, c, done + {i})
    {
      NotifiedExactly(u, i, a.restart[i], a.stop[i], c);
      SavedIsLive(t, c);
      assert Newly(t, u, t.saved[c].value);
      assert SavedFor(u, c, i) <==> SavedFor(t, c, i);
      ReachedMore(t, a, c, done, i);
    }
  }

  lemma {:induction false} ReachedMore(t: Tables, a: Answers, c: nat, done: set<nat>, i: nat)
    requires Shape(t) && ValidAnswers(a) && c < CTXS && i < IFACES
    ensures Reached(t, a, c, done + {i}) <==> Reached(t, a, c, done) || (SavedFor(t, c, i) && c % PEERS < ReachOf(t, a, i))
  {
  }

  /** A peer that was not marked before is told iff it is marked after. */
  lemma {:induction false} MarkedIsTold(t: Tables, u: Tables, c: nat)
    requires Consistent(t) && Consistent(u) && Since(t, u) && c < CTXS && t.saved[c].Some? && !MarkedAt(t, c)
    ensures Told(u, t.saved[c].value) <==> MarkedAt(u, c)
  {
    hide CtxOk;
    hide MapOk;
    hide Apart;
    SavedIsLive(t, c);
    var p := t.saved[c].value;
    assert Newly(t, u, p);
    ToldIsMarked(u, p);
  }

  lemma {:induction false} ToldIsMarked(t: Tables, p: Id)
    requires LogOk(t)
    ensures Told(t, p) ==> Marked(t, p)
  {
    if k :| 0 <= k < |t.told| && t.told[k].peer == p { assert Marked(t, t.told[k].peer); }
  }

  /** The peer and recovery tables of struct skw_core, updated in place. */
  class Core {
    var t: Tables

    constructor (ifaces: seq<Iface>)
      requires |ifaces| == IFACES
      requires forall i :: 0 <= i < IFACES ==> ifaces[i].lmac < 2 && ifaces[i].peerMap == {} && ifaces[i].actived == 0
      ensures Consistent(t) && Accounted(t) && t.ifaces == ifaces && forall i :: 0 <= i < IFACES ==> Drift(t, i) == 0
    {
      t := Tables(NOTHING, NOTHING, map[], ifaces, false, NOTHING, [], []);
      new;
      forall i | 0 <= i < IFACES ensures Drift(t, i) == 0 { CountNone(t, i, CTXS); }
    }

    method Transmit(c: nat, enable: bool)
      requires Shape(t) && c < CTXS
      modifies this
      ensures t == if enable then TransmitOn(old(t), c) else TransmitOff(old(t), c)
    {
      if enable {
        if t.ctx[c].Some? && t.ctx[c].value in t.peers {
          var p := t.ctx[c].value;
          var info := t.peers[p];
          if info.active || info.deauthed || info.bad { return; }
          t := t.(entry := t.entry[c := Some(p)]);
          t := t.(ifaces := Bump(t.ifaces, info.iface, 1));
          t := t.(peers := t.peers[p := info.(active := true)]);
        }
      } else if t.entry[c].Some? {
        var p := t.entry[c].value;
        if p in t.peers {
          t := t.(ifaces := Bump(t.ifaces, t.peers[p].iface, -1));
          t := t.(peers := t.peers[p := t.peers[p].(active := false)]);
        }
        t := t.(entry := t.entry[c := None]);
      }
    }

    /** __skw_peer_ctx_bind; `peer` is the new allocation, its address and whether its flags start out bad. */
    method BindCtx(i: nat, c: nat, peer: Option<(Id, nat, bool)>)
      requires Shape(t) && c < CTXS && i < IFACES
      modifies this
      ensures t == match peer
        case None => Unbind(old(t), i, c)
        case Some(q) => Bind(old(t), i, c, q.0, q.1, q.2)
    {
      t := t.(ifaces := WithBit(t.ifaces, i, c % PEERS, false));
      t := Free(t, t.ctx[c]).(ctx := t.ctx[c := None]);
      if peer.Some? {
        var (q, addr, bad) := peer.value;
        t := t.(peers := t.peers[q := Peer(i, c, addr, false, false, bad)], ctx := t.ctx[c := Some(q)]);
        t := t.(ifaces := WithBit(t.ifaces, i, c % PEERS, true));
      }
    }

    /** skw_peer_ctx: the first context of the interface whose peer has this address; it misses none. */
    method PeerCtx(i: nat, mac: nat) returns (r: Option<nat>)
      requires Consistent(t) && i < IFACES
      ensures r.Some? ==> r.value < CTXS && Holds(t, r.value, i) && Matches(t, r.value, mac)
      ensures forall d :: 0 <= d < (if r.Some? then r.value else CTXS) && Holds(t, d, i) ==> !Matches(t, d, mac)
    {
      hide LogOk;
      hide SavedOk;
      hide Matches;
      assert MapOk(t, i);
      OwnLmac(t, i);
      var f := t.ifaces[i];
      for idx := 0 to PEERS
        invariant forall d :: 0 <= d < Slot(f.lmac, idx) && Holds(t, d, i) ==> !Matches(t, d, mac)
      {
        var c := Slot(f.lmac, idx);
        SlotOf(f.lmac, idx);
        if idx in f.peerMap && t.ctx[c].Some? {
          assert CtxOk(t, c);
          var same := t.peers[t.ctx[c].value].addr == mac;
          assert same == Matches(t, c, mac) by { MatchesIs(t, c, mac); }
          if same { return Some(c); }
        }
      }
      return None;
    }

    /** skw_sap_del_sta; `ok` is the firmware's answer. */
    method DelStation(i: nat, c: nat, ok: bool)
      requires Shape(t) && c < CTXS && i < IFACES
      modifies this
      ensures t == Removed(old(t), i, c, ok)
    {
      if t.ctx[c].None? { return; }
      Transmit(c, false);
      var p := t.ctx[c].value;
      if p in t.peers { t := t.(peers := t.peers[p := t.peers[p].(deauthed := true)]); }
      if ok { BindCtx(i, c, None); }
    }

    /** skw_sap_flush_sta: every station in the map as it was at the start. */
    method FlushSta(i: nat, ok: seq<bool>)
      requires Consistent(t) && i < IFACES && |ok| == PEERS
      modifies this
      ensures t == FlushUpTo(old(t), i, ok, PEERS) && Consistent(t)
      ensures Count(t, i, CTXS) == 0 && t.ifaces[i].actived == Drift(old(t), i)
      ensures (forall k :: 0 <= k < PEERS ==> ok[k]) ==> t.ifaces[i].peerMap == {}
    {
      hide CtxOk;
      hide LogOk;
      hide Removed;
      hide MapOk;
      hide Count;
      var peerMap := t.ifaces[i].peerMap;
      ghost var t0 := t;
      for idx := 0 to PEERS
        invariant t == FlushUpTo(t0, i, ok, idx) && t.ifaces[i].lmac == t0.ifaces[i].lmac
      {
        FlushUpToMeaning(t0, i, ok, idx + 1);
        if idx in peerMap { DelStation(i, Slot(t.ifaces[i].lmac, idx), ok[idx]); }
      }
      FlushMeaning(t0, i, ok);
    }

    /** skw_unjoin: on success the BSS address is cleared and the context unbound. */
    method Unjoin(i: nat, mac: nat, ok: bool) returns (found: Option<nat>)
      requires Consistent(t) && i < IFACES
      modifies this
      ensures Consistent(t) && SameDrift(old(t), t)
      ensures found.None? ==> t == old(t) && forall d :: 0 <= d < CTXS && Holds(t, d, i) ==> !Matches(t, d, mac)
      ensures found.Some? ==> Left(old(t), t, i, found.value, ok) && Matches(old(t), found.value, mac)
    {
      hide CtxOk;
      hide MapOk;
      hide LogOk;
      hide Drift;
      found := PeerCtx(i, mac);
      if found.None? { return; }
      ghost var t0 := t;
      Transmit(found.value, false);
      LeaveKeeps(t0, i, found.value, ok);
      if ok {
        t := t.(ifaces := t.ifaces[i := t.ifaces[i].(bssid := 0)]);
        BindCtx(i, found.value, None);
      }
    }

    /** skw_recovery_prepare. */
    method PrepareAll()
      requires Shape(t)
      modifies this
      ensures t == Prepare(old(t))
    {
      var nested := t.recovering;
      t := t.(recovering := true);
      ghost var t0 := old(t);
      for c := 0 to CTXS
        invariant Shape(t) && t == t0.(recovering := true, ctx := t.ctx, entry := t.entry, saved := t.saved)
        invariant forall d :: 0 <= d < CTXS ==> t.ctx[d] == if d < c then None else t0.ctx[d]
        invariant forall d :: 0 <= d < CTXS ==> t.entry[d] == if d < c then None else t0.entry[d]
        invariant forall d :: 0 <= d < CTXS ==> t.saved[d] == if d < c && !nested then t0.ctx[d] else t0.saved[d]
      {
        t := t.(entry := t.entry[c := None]);
        if !nested { t := t.(saved := t.saved[c := t.ctx[c]]); }
        t := t.(ctx := t.ctx[c := None]);
      }
      ghost var u := Prepare(t0);
      assert t.ctx == u.ctx && t.entry == u.entry && t.saved == u.saved;
      for i := 0 to IFACES
        invariant |t.ifaces| == IFACES && t == u.(ifaces := t.ifaces)
        invariant forall j :: 0 <= j < IFACES ==> t.ifaces[j] == if j < i then u.ifaces[j] else t0.ifaces[j]
      {
        var f := t.ifaces[i];
        if f.present {
          if !nested { f := f.(savedMap := f.peerMap); }
          t := t.(ifaces := t.ifaces[i := f.(peerMap := {})]);
        }
      }
      assert t.ifaces == u.ifaces;
    }

    /** The loop of skw_recovery_sta and of skw_recovery_sap_flush_sta, up to index `stop`. */
    method TellPeers(i: nat, stop: nat)
      requires Shape(t) && i < IFACES && stop <= PEERS
      modifies this
      ensures t == TellUpTo(old(t), i, stop)
    {
      var peerMap := t.ifaces[i].savedMap;
      ghost var t0 := t;
      for idx := 0 to stop
        invariant t == TellUpTo(t0, i, idx) && t.ifaces[i].savedMap == peerMap
      {
        var p := t.saved[Slot(t.ifaces[i].lmac, idx)];
        if idx in peerMap && p.Some? && p.value in t.peers && !t.peers[p.value].deauthed {
          var kind := KindOf(t.ifaces[i], t.peers[p.value].addr);
          if kind == Disconnect { t := t.(ifaces := t.ifaces[i := t.ifaces[i].(bssid := 0)]); }
          t := t.(told := t.told + [Event(p.value, kind)]);
          t := t.(peers := t.peers[p.value := t.peers[p.value].(deauthed := true)]);
        }
      }
    }

    /** skw_recovery_iface: a failed access point restart is not reported. */
    method RecoverIface(i: nat, a: Answers) returns (ok: bool)
      requires Shape(t) && i < IFACES && ValidAnswers(a)
      modifies this
      ensures ok <==> !old(t).ifaces[i].present || (!a.assertSeen[i] && a.open[i])
      ensures t == if ok && old(t).ifaces[i].present then Notified(old(t), i, a.restart[i], a.stop[i]) else old(t)
    {
      if !t.ifaces[i].present { return true; }
      if a.assertSeen[i] || !a.open[i] { return false; }
      match t.ifaces[i].mode {
        case Sta => TellPeers(i, PEERS); t := t.(ifaces := t.ifaces[i := t.ifaces[i].(actived := 0)]);
        case Client => TellPeers(i, PEERS); t := t.(ifaces := t.ifaces[i := t.ifaces[i].(actived := 0)]);
        case Ap => if a.restart[i] { TellPeers(i, a.stop[i]); }
        case Go => if a.restart[i] { TellPeers(i, a.stop[i]); }
        case _ =>
      }
      return true;
    }

    /** One of the two passes of skw_recovery_work over the interfaces. */
    method Pass(early: bool, a: Answers, ghost t1: Tables, ghost done: set<nat>) returns (ok: bool, ghost done': set<nat>)
      requires Consistent(t) && Consistent(t1) && ValidAnswers(a) && Since(t1, t) && ExactSince(t1, t, a, done)
      requires Counters(t1, t, done)
      modifies this
      ensures Consistent(t) && Since(t1, t) && ExactSince(t1, t, a, done') && Counters(t1, t, done')
      ensures Since(old(t), t) && ToldIn(t1, t, |old(t.told)|, early)
      ensures ok ==> forall i :: 0 <= i < IFACES && (i in done || Early(t1.ifaces[i].mode) == early) ==> i in done'
    {
      hide CtxOk;
      hide MapOk;
      hide LogOk;
      hide Apart;
      hide Notified;
      hide Told;
      hide Newly;
      hide ExactSince;
      hide Counters;
      hide ToldIn;
      hide Since;
      done' := done;
      ghost var t0 := t;
      SinceSelf(t0);
      NoneIn(t1, t0, early);
      for i := 0 to IFACES
        invariant Consistent(t) && Since(t1, t) && ExactSince(t1, t, a, done') && Counters(t1, t, done') && done <= done'
        invariant Since(t0, t) && ToldIn(t1, t, |t0.told|, early)
        invariant forall j :: 0 <= j < i && Early(t1.ifaces[j].mode) == early ==> j in done'
      {
        SinceFrame(t1, t, i);
        if Early(t.ifaces[i].mode) == early {
          ghost var u := t;
          NotifiedKeeps(u, i, a.restart[i], a.stop[i]);
          CountersStep(t1, u, done', i, a.restart[i], a.stop[i]);
          if t1.ifaces[i].present { NotifiedIn(t1, u, i, a.restart[i], a.stop[i], |t0.told|, early); }
          ok := RecoverIface(i, a);
          if !ok { return; }
          if t1.ifaces[i].present { ExactStep(t1, u, a, done', i); } else { AbsentSkipped(t1, u, a, done', i); }
          SinceSelf(u);
          SinceTrans(t1, u, t);
          SinceTrans(t0, u, t);
          done' := done' + {i};
        }
      }
      ok := true;
    }

    /** skw_recovery_work: when it gets through, everybody saved is freed, and of those not marked before exactly the peers
        that the recovery of their interface reaches were told; otherwise the saved peers wait for the next run. */
    method Work(a: Answers) returns (ok: bool)
      requires Consistent(t) && ValidAnswers(a)
      modifies this
      ensures Consistent(t) && ok == !t.recovering
      ensures !ok ==> t.saved == (if old(t).recovering then old(t).saved else old(t).ctx)
      ensures ok ==> Worked(Prepare(old(t)), t, a)
      ensures EarlyFirst(Prepare(old(t)), t)
    {
      hide CtxOk;
      hide MapOk;
      hide LogOk;
      hide Apart;
      hide Prepare;
      hide Newly;
      hide ExactSince;
      hide Told;
      hide Worked;
      PrepareAll();
      PrepareKeeps(old(t));
      ghost var t1 := t;
      SinceSelf(t);
      ExactStart(t, a);
      assert Counters(t1, t1, {});
      hide Counters;
      if !a.chip || !a.calib { return false; }
      ghost var done;
      ok, done := Pass(true, a, t1, {});
      ghost var t2 := t;
      TwoPasses(t1, t2, t2);
      if !ok { return; }
      ok, done := Pass(false, a, t1, done);
      TwoPasses(t1, t2, t);
      if !ok { return; }
      ghost var u := t;
      FreeAll();
      t := t.(recovering := false);
      WorkDone(t1, u, a, done);
      FreeUpToKeeps(u, CTXS);
    }

    /** Releasing the saved peers, at the end of the work and in skw_recovery_deinit. */
    method FreeAll()
      requires Shape(t)
      modifies this
      ensures t == Release(old(t))
    {
      ghost var t0 := t;
      for c := 0 to CTXS
        invariant t == FreeUpTo(t0, c)
      {
        t := Free(t, t.saved[c]);
        t := t.(saved := t.saved[c := None]);
      }
    }
  }

  /** What the work has done when it got through, from the prepared tables `t1` to `t`. */
  ghost predicate Worked(t1: Tables, t: Tables, a: Answers)
    requires Shape(t1) && ValidAnswers(a)
  {
    && Shape(t) && Counters(t1, t, {0, 1, 2, 3})
    && forall c :: 0 <= c < CTXS ==> t.saved[c] == None && WorkedAt(t1, t, a, c)
  }

  predicate IsStation(f: Iface) { f.present && (f.mode == Sta || f.mode == Client) }

  /** Of the recovered interfaces the stations count nothing; all others count as before. */
  ghost predicate Counters(t1: Tables, t: Tables, done: set<nat>)
    requires Shape(t1) && Shape(t)
  {
    forall i :: 0 <= i < IFACES ==>
      t.ifaces[i].actived == if i in done && IsStation(t1.ifaces[i]) then 0 else t1.ifaces[i].actived
  }

  lemma {:induction false} CountersStep(t1: Tables, t: Tables, done: set<nat>, i: nat, restart: bool, stop: nat)
    requires Shape(t1) && Shape(t) && i < IFACES && stop <= PEERS && Counters(t1, t, done) && Frame(t1.ifaces[i], t.ifaces[i])
    ensures Counters(t1, if t1.ifaces[i].present then Notified(t, i, restart, stop) else t, done + {i})
  {
    hide Shape;
    hide TellUpTo;
    hide ToldAddr;
    TellKinds(t, i, PEERS);
    TellKinds(t, i, stop);
    ShapeIs(t);
  }

  lemma {:induction false} ShapeIs(t: Tables)
    requires Shape(t)
    ensures |t.ifaces| == IFACES
  {
  }

  ghost predicate WorkedAt(t1: Tables, t: Tables, a: Answers, c: nat)
    requires Shape(t1) && ValidAnswers(a) && c < CTXS
  {
    t1.saved[c].Some? ==>
      && t1.saved[c].value in t1.peers && t1.peers[t1.saved[c].value].iface < IFACES && t1.saved[c].value in t.freed
      && var p := t1.peers[t1.saved[c].value];
         var mode := t1.ifaces[p.iface].mode;
         !p.deauthed ==> (Told(t, t1.saved[c].value) <==>
           || mode == Sta || mode == Client
           || ((mode == Ap || mode == Go) && a.restart[p.iface] && c % 32 < a.stop[p.iface]))
  }

  lemma {:induction false} WorkDone(t1: Tables, u: Tables, a: Answers, done: set<nat>)
    requires Consistent(t1) && Consistent(u) && ValidAnswers(a) && Since(t1, u) && ExactSince(t1, u, a, done)
    requires (forall i :: 0 <= i < IFACES ==> i in done) && Counters(t1, u, done)
    ensures Consistent(Complete(u)) && Worked(t1, Complete(u), a)
  {
    hide CtxOk;
    hide MapOk;
    hide LogOk;
    hide Apart;
    hide FreeUpTo;
    hide Told;
    hide MarkedAt;
    hide WorkedAt;
    CompleteKeeps(u);
    FreeUpToKeeps(u, CTXS);
    var w := Complete(u);
    forall c | 0 <= c < CTXS ensures WorkedAt(t1, w, a, c) { WorkDoneAt(t1, u, a, done, c); }
  }

  lemma {:induction false} WorkDoneAt(t1: Tables, u: Tables, a: Answers, done: set<nat>, c: nat)
    requires Consistent(t1) && Consistent(u) && ValidAnswers(a) && Since(t1, u) && ExactSince(t1, u, a, done)
    requires c < CTXS && forall i :: 0 <= i < IFACES ==> i in done
    ensures WorkedAt(t1, Complete(u), a, c)
  {
    hide LogOk;
    hide MapOk;
    hide BoundOk;
    hide Apart;
    hide FreeUpTo;
    hide Newly;
    if t1.saved[c].Some? {
      assert CtxOk(t1, c);
      FreeUpToKeeps(u, CTXS);
      FreeUpToFrees(u, CTXS);
      var w := Complete(u);
      var p := t1.saved[c].value;
      assert Told(w, p) <==> Told(u, p);
      hide Told;
      if !t1.peers[p].deauthed { MarkedIsTold(t1, u, c); }
    }
  }

  /** When an access point cannot be restarted, its saved peers are freed without ever having been told. */
  lemma {:induction false} UntoldWhenRestartFails(t: Tables, i: nat, stop: nat, c: nat)
    requires Consistent(t) && i < IFACES && t.ifaces[i].present && (t.ifaces[i].mode == Ap || t.ifaces[i].mode == Go)
    requires stop <= PEERS && c < CTXS && SavedFor(t, c, i) && !MarkedAt(t, c)
    ensures var w := Complete(Notified(t, i, false, stop)); t.saved[c].value in w.freed && !Told(w, t.saved[c].value)
  {
    hide CtxOk;
    hide MapOk;
    hide Apart;
    hide FreeUpTo;
    var p := t.saved[c].value;
    FreeUpToKeeps(t, CTXS);
    FreeUpToFrees(t, CTXS);
    ToldIsMarked(t, p);
  }

  lemma {:induction false} OwnLmac(t: Tables, i: nat)
    requires Consistent(t) && i < IFACES
    ensures forall d :: 0 <= d < CTXS && Holds(t, d, i) ==> d / PEERS == t.ifaces[i].lmac
  {
    forall d | 0 <= d < CTXS && Holds(t, d, i) ensures d / PEERS == t.ifaces[i].lmac { assert CtxOk(t, d); }
  }

  /** Context `c` of interface `i` no longer transmits and, if the firmware agreed, is free; no other context changed. */
  predicate Left(t: Tables, u: Tables, i: nat, c: nat, ok: bool)
    requires Shape(t) && Shape(u) && i < IFACES
  {
    && c < CTXS && Holds(t, c, i) && Elsewhere(t, u, c) && u.entry[c] == None
    && if ok then u.ctx[c] == None && t.ctx[c].value in u.freed && c % PEERS !in u.ifaces[i].peerMap && u.ifaces[i].bssid == 0
       else u.ctx[c] == t.ctx[c] && u.ifaces[i].bssid == t.ifaces[i].bssid
  }

  /** Stopping transmission, clearing the BSS address and unbinding the interface's own context. */
  lemma {:induction false} LeaveKeeps(t: Tables, i: nat, c: nat, ok: bool)
    requires Consistent(t) && i < IFACES && c < CTXS && Holds(t, c, i)
    ensures var a := TransmitOff(t, c); var b := a.(ifaces := a.ifaces[i := a.ifaces[i].(bssid := 0)]);
      var u := if ok then Unbind(b, i, c) else a;
      Consistent(u) && SameDrift(t, u) && Left(t, u, i, c, ok)
  {
    hide LogOk;
    hide MapOk;
    hide Drift;
    TransmitOffKeeps(t, c);
    TransmitOffHere(t, c);
    TransmitOffMeaning(t, c);
    var a := TransmitOff(t, c);
    assert Recounted(t, a, c, i);
    hide TransmitOff;
    var b := a.(ifaces := a.ifaces[i := a.ifaces[i].(bssid := 0)]);
    NewBssid(a, i);
    if ok {
      UnbindKeeps(b, i, c);
      UnbindHere(b, i, c);
      UnbindMeaning(b, i, c);
    }
  }

  lemma {:induction false} NewBssid(t: Tables, i: nat)
    requires Consistent(t) && i < IFACES
    ensures var u := t.(ifaces := t.ifaces[i := t.ifaces[i].(bssid := 0)]); Consistent(u) && SameDrift(t, u)
  {
    hide MapOk;
    hide LogOk;
    var u := t.(ifaces := t.ifaces[i := t.ifaces[i].(bssid := 0)]);
    LogOnly(t, u);
    assert CtxOk(t, 0);
    SameBits(t, u, 0);
    Local(t, u, 0);
    forall j | 0 <= j < IFACES ensures Drift(u, j) == Drift(t, j) { CountSame(t, u, j, CTXS); }
  }

  lemma {:induction false} MatchesIs(t: Tables, c: nat, mac: nat)
    requires c < |t.ctx| && t.ctx[c].Some? && t.ctx[c].value in t.peers
    ensures Matches(t, c, mac) <==> t.peers[t.ctx[c].value].addr == mac
  {
  }
}
