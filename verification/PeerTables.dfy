/** Peers, the contexts that hold them, and what a firmware crash does to both (skw_iface.c, skw_cfg80211.c,
    skw_recovery.c). A peer is named by its allocation; locked regions are single steps. */
module PeerTables {
  import opened Options

  const PEERS := 32
  const CTXS := 64
  const IFACES := 4

  type Id = nat

  /** `home` is the context of its (lmac, idx); `bad` stands for the flags set by a bad index or address. */
  datatype Peer = Peer(iface: nat, home: nat, addr: nat, active: bool, deauthed: bool, bad: bool)

  datatype Mode = Sta | Client | Ap | Go | Adhoc | P2pDev

  datatype Iface = Iface(present: bool, lmac: nat, mode: Mode, bssid: nat, peerMap: set<nat>, actived: int, savedMap: set<nat>)

  datatype Kind = Disconnect | TdlsTeardown | DelSta
  datatype Event = Event(peer: Id, kind: Kind)

  /** `peers` holds the live allocations; `freed` and `told` record every free and every notification. */
  datatype Tables = Tables(
    ctx: seq<Option<Id>>, entry: seq<Option<Id>>, peers: map<Id, Peer>, ifaces: seq<Iface>,
    recovering: bool, saved: seq<Option<Id>>, freed: seq<Id>, told: seq<Event>)

  predicate Shape(t: Tables) {
    && |t.ctx| == CTXS && |t.entry| == CTXS && |t.saved| == CTXS && |t.ifaces| == IFACES
    && forall i :: 0 <= i < IFACES ==> t.ifaces[i].lmac < 2
  }

  function Slot(lmac: nat, idx: nat): nat { lmac * PEERS + idx }

  // ----- consistency

  predicate Holds(t: Tables, c: nat, i: nat) {
    c < |t.ctx| && t.ctx[c].Some? && t.ctx[c].value in t.peers && t.peers[t.ctx[c].value].iface == i
  }

  /** A bound peer is live, at home and on a present interface of this lmac; the data path sees it iff it is active. */
  predicate BoundOk(t: Tables, c: nat)
    requires Shape(t) && c < CTXS
  {
    match t.ctx[c]
    case None => t.entry[c] == None
    case Some(p) =>
      && p in t.peers && t.peers[p].home == c && t.peers[p].iface < IFACES
      && t.ifaces[t.peers[p].iface].present && t.ifaces[t.peers[p].iface].lmac == c / PEERS
      && t.entry[c] == (if t.peers[p].active then Some(p) else None)
  }

  /** A saved peer is live, at home, held by nobody, and marked in the saved map of its interface. */
  predicate SavedOk(t: Tables, c: nat)
    requires Shape(t) && c < CTXS
  {
    t.saved[c].Some? ==>
      && t.recovering && t.saved[c].value in t.peers && t.ctx[c] != t.saved[c]
      && var p := t.peers[t.saved[c].value];
      && p.home == c && p.iface < IFACES
      && t.ifaces[p.iface].present && t.ifaces[p.iface].lmac == c / PEERS && c % PEERS in t.ifaces[p.iface].savedMap
  }

  predicate CtxOk(t: Tables, c: nat)
    requires Shape(t) && c < CTXS
  {
    BoundOk(t, c) && SavedOk(t, c)
  }

  predicate MapOk(t: Tables, i: nat)
    requires Shape(t) && i < IFACES
  {
    && (forall idx :: idx in t.ifaces[i].peerMap ==> idx < PEERS)
    && forall idx :: 0 <= idx < PEERS ==> (idx in t.ifaces[i].peerMap <==> Holds(t, Slot(t.ifaces[i].lmac, idx), i))
  }

  predicate NoDup<T(==)>(s: seq<T>) { forall a, b :: 0 <= a < b < |s| ==> s[a] != s[b] }

  predicate Told(t: Tables, p: Id) { exists a :: 0 <= a < |t.told| && t.told[a].peer == p }

  /** Nothing live was freed, nothing was freed twice, nobody was notified twice, and who was notified is marked. */
  predicate LogOk(t: Tables) {
    && NoDup(t.freed) && (forall p :: p in t.freed ==> p !in t.peers)
    && (forall a, b :: 0 <= a < b < |t.told| ==> t.told[a].peer != t.told[b].peer)
    && forall a :: 0 <= a < |t.told| ==> Marked(t, t.told[a].peer)
  }

  predicate Marked(t: Tables, p: Id) { if p in t.peers then t.peers[p].deauthed else p in t.freed }

  /** During a recovery the saved maps of two interfaces of one lmac have no context in common. */
  predicate Apart(t: Tables)
    requires Shape(t)
  {
    t.recovering ==> forall i, j :: 0 <= i < j < IFACES ==> Disjoint(t.ifaces[i], t.ifaces[j])
  }

  predicate Disjoint(f: Iface, g: Iface) { f.present && g.present && f.lmac == g.lmac ==> f.savedMap !! g.savedMap }

  predicate Consistent(t: Tables) {
    && Shape(t) && LogOk(t) && Apart(t)
    && (forall c :: 0 <= c < CTXS ==> CtxOk(t, c))
    && forall i :: 0 <= i < IFACES ==> MapOk(t, i)
  }

  // ----- counting what the data path sees

  function On(t: Tables, c: nat, i: nat): bool {
    c < |t.entry| && t.entry[c].Some? && t.entry[c].value in t.peers && t.peers[t.entry[c].value].iface == i
  }

  function Count(t: Tables, i: nat, n: nat): nat {
    if n == 0 then 0 else Count(t, i, n - 1) + if On(t, n - 1, i) then 1 else 0
  }

  /** By how much `actived_ctx` differs from the number of contexts the data path sees. */
  function Drift(t: Tables, i: nat): int requires i < |t.ifaces| { t.ifaces[i].actived - Count(t, i, CTXS) }

  lemma {:induction false} CountSame(t: Tables, u: Tables, i: nat, n: nat)
    requires forall c :: 0 <= c < n ==> On(t, c, i) == On(u, c, i)
    ensures Count(t, i, n) == Count(u, i, n)
  {
    hide On;
    if n > 0 { CountSame(t, u, i, n - 1); }
  }

  lemma {:induction false} CountChange(t: Tables, u: Tables, i: nat, n: nat, c: nat)
    requires c < n && forall d :: 0 <= d < n && d != c ==> On(t, d, i) == On(u, d, i)
    ensures Count(u, i, n) == Count(t, i, n) + (if On(u, c, i) then 1 else 0) - (if On(t, c, i) then 1 else 0)
  {
    hide On;
    if n - 1 == c { CountSame(t, u, i, n - 1); } else { CountChange(t, u, i, n - 1, c); }
  }

  // ----- the steps

  function Bump(ifaces: seq<Iface>, i: nat, d: int): seq<Iface> {
    if i < |ifaces| then ifaces[i := ifaces[i].(actived := ifaces[i].actived + d)] else ifaces
  }

  /** __skw_peer_ctx_transmit(ctx, true): refused without a peer, or when the peer has any flag. */
  function TransmitOn(t: Tables, c: nat): Tables
    requires Shape(t) && c < CTXS
  {
    match t.ctx[c]
    case None => t
    case Some(p) =>
      if p !in t.peers || t.peers[p].active || t.peers[p].deauthed || t.peers[p].bad then t
      else t.(entry := t.entry[c := Some(p)], peers := t.peers[p := t.peers[p].(active := true)],
              ifaces := Bump(t.ifaces, t.peers[p].iface, 1))
  }

  function TransmitOff(t: Tables, c: nat): Tables
    requires Shape(t) && c < CTXS
  {
    match t.entry[c]
    case None => t
    case Some(p) =>
      var u := t.(entry := t.entry[c := None]);
      if p !in t.peers then u
      else u.(peers := t.peers[p := t.peers[p].(active := false)], ifaces := Bump(t.ifaces, t.peers[p].iface, -1))
  }

  function MarkDeauthed(t: Tables, c: nat): Tables
    requires Shape(t) && c < CTXS
  {
    match t.ctx[c]
    case None => t
    case Some(p) => if p in t.peers then t.(peers := t.peers[p := t.peers[p].(deauthed := true)]) else t
  }

  function Free(t: Tables, p: Option<Id>): Tables {
    match p
    case None => t
    case Some(q) => t.(peers := t.peers - {q}, freed := t.freed + [q])
  }

  function WithBit(ifaces: seq<Iface>, i: nat, idx: nat, on: bool): seq<Iface>
    requires i < |ifaces|
  {
    var m := ifaces[i].peerMap;
    ifaces[i := ifaces[i].(peerMap := if on then m + {idx} else m - {idx})]
  }

  /** __skw_peer_ctx_bind(iface, ctx, NULL). */
  function Unbind(t: Tables, i: nat, c: nat): Tables
    requires Shape(t) && c < CTXS && i < IFACES
  {
    var u := t.(ifaces := WithBit(t.ifaces, i, c % PEERS, false));
    Free(u, t.ctx[c]).(ctx := t.ctx[c := None])
  }

  /** The second half of __skw_peer_ctx_bind, with a newly allocated and initialised peer. */
  function Attach(t: Tables, i: nat, c: nat, q: Id, addr: nat, bad: bool): Tables
    requires Shape(t) && c < CTXS && i < IFACES
  {
    t.(peers := t.peers[q := Peer(i, c, addr, false, false, bad)], ctx := t.ctx[c := Some(q)],
       ifaces := WithBit(t.ifaces, i, c % PEERS, true))
  }

  function Bind(t: Tables, i: nat, c: nat, q: Id, addr: nat, bad: bool): Tables
    requires Shape(t) && c < CTXS && i < IFACES
  {
    Attach(Unbind(t, i, c), i, c, q, addr, bad)
  }

  // ----- what every step keeps

  /** Only the owner of a context rebinds it, after disabling transmission. */
  predicate MayUnbind(t: Tables, i: nat, c: nat)
    requires Shape(t) && c < CTXS && i < IFACES
  {
    if t.ctx[c].None? then c % PEERS !in t.ifaces[i].peerMap else t.entry[c] == None && Holds(t, c, i)
  }

  predicate MayBind(t: Tables, i: nat, c: nat, q: Id)
    requires Shape(t) && c < CTXS && i < IFACES
  {
    && MayUnbind(t, i, c) && t.ifaces[i].present && t.ifaces[i].lmac == c / PEERS
    && q !in t.peers && q !in t.freed
  }

  predicate Frame(f: Iface, g: Iface) {
    g.present == f.present && g.mode == f.mode && g.lmac == f.lmac && g.savedMap == f.savedMap
  }

  /** A change confined to context `c` and its peer keeps every other context as it is. */
  predicate Elsewhere(t: Tables, u: Tables, c: nat)
    requires Shape(t) && Shape(u)
  {
    && (forall d :: 0 <= d < CTXS && d != c ==> u.ctx[d] == t.ctx[d] && u.entry[d] == t.entry[d] && u.saved[d] == t.saved[d])
    && (forall p :: p in t.peers && t.peers[p].home != c ==> p in u.peers && u.peers[p] == t.peers[p])
    && u.recovering == t.recovering
    && forall i :: 0 <= i < IFACES ==> Frame(t.ifaces[i], u.ifaces[i])
  }

  lemma {:induction false} OthersOk(t: Tables, u: Tables, c: nat, d: nat)
    requires Shape(t) && Shape(u) && Elsewhere(t, u, c) && d < CTXS && d != c && CtxOk(t, d)
    ensures CtxOk(u, d) && forall i :: Holds(u, d, i) == Holds(t, d, i) && On(u, d, i) == On(t, d, i)
  {
  }

  lemma {:induction false} SlotOf(lmac: nat, idx: nat)
    requires idx < PEERS
    ensures Slot(lmac, idx) / PEERS == lmac && Slot(lmac, idx) % PEERS == idx
  {
  }

  /** The maps stay right when the bits of context `c` do. */
  lemma {:induction false} MapsOk(t: Tables, u: Tables, c: nat)
    requires Consistent(t) && Shape(u) && c < CTXS && Elsewhere(t, u, c)
    requires forall i :: 0 <= i < IFACES ==> BitsOk(t, u, i, c)
    ensures forall i :: 0 <= i < IFACES ==> MapOk(u, i)
  {
    hide CtxOk;
    hide Holds;
    hide LogOk;
    forall i | 0 <= i < IFACES ensures MapOk(u, i) {
      assert MapOk(t, i) && BitsOk(t, u, i, c);
      forall idx | 0 <= idx < PEERS
        ensures idx in u.ifaces[i].peerMap <==> Holds(u, Slot(u.ifaces[i].lmac, idx), i)
      {
        var d := Slot(t.ifaces[i].lmac, idx);
        SlotOf(t.ifaces[i].lmac, idx);
        if d != c { OthersOk(t, u, c, d); }
      }
    }
  }

  /** Interface `i` changes at most the bit of context `c`, and that only when the context is of its lmac. */
  predicate BitsOk(t: Tables, u: Tables, i: nat, c: nat)
    requires Shape(t) && Shape(u) && i < IFACES && c < CTXS
  {
    && (forall idx :: idx in u.ifaces[i].peerMap ==> idx < PEERS)
    && (forall idx :: 0 <= idx < PEERS && Slot(t.ifaces[i].lmac, idx) != c ==>
        (idx in u.ifaces[i].peerMap <==> idx in t.ifaces[i].peerMap))
    && (Slot(t.ifaces[i].lmac, c % PEERS) == c ==> (c % PEERS in u.ifaces[i].peerMap <==> Holds(u, c, i)))
  }

  lemma {:induction false} SameApart(t: Tables, u: Tables, c: nat)
    requires Shape(t) && Shape(u) && Apart(t) && Elsewhere(t, u, c)
    ensures Apart(u)
  {
    if u.recovering {
      forall i, j | 0 <= i < j < IFACES ensures Disjoint(u.ifaces[i], u.ifaces[j]) {
        assert Disjoint(t.ifaces[i], t.ifaces[j]) && Frame(t.ifaces[i], u.ifaces[i]) && Frame(t.ifaces[j], u.ifaces[j]);
      }
    }
  }

  /** A step confined to context `c` keeps consistency when it is right there. */
  lemma {:induction false} Local(t: Tables, u: Tables, c: nat)
    requires Consistent(t) && Shape(u) && c < CTXS && Elsewhere(t, u, c) && CtxOk(u, c) && LogOk(u)
    requires forall i :: 0 <= i < IFACES ==> BitsOk(t, u, i, c)
    ensures Consistent(u)
  {
    hide LogOk;
    hide MapOk;
    hide BitsOk;
    SameApart(t, u, c);
    hide Apart;
    MapsOk(t, u, c);
    forall d | 0 <= d < CTXS ensures CtxOk(u, d) {
      if d != c { OthersOk(t, u, c, d); }
    }
  }

  lemma {:induction false} LocalDrift(t: Tables, u: Tables, c: nat, i: nat)
    requires Consistent(t) && Shape(u) && c < CTXS && Elsewhere(t, u, c) && i < IFACES
    requires u.ifaces[i].actived - t.ifaces[i].actived == (if On(u, c, i) then 1 else 0) - (if On(t, c, i) then 1 else 0)
    ensures Drift(u, i) == Drift(t, i)
  {
    hide On;
    hide CtxOk;
    forall d | 0 <= d < CTXS && d != c ensures On(u, d, i) == On(t, d, i) { OthersOk(t, u, c, d); }
    CountChange(t, u, i, CTXS, c);
  }

  predicate SameDrift(t: Tables, u: Tables)
    requires Shape(t) && Shape(u)
  {
    forall i :: 0 <= i < IFACES ==> Drift(u, i) == Drift(t, i)
  }

  /** Bits untouched are right where the holder of `c` is. */
  lemma {:induction false} SameBits(t: Tables, u: Tables, c: nat)
    requires Consistent(t) && Shape(u) && c < CTXS && Elsewhere(t, u, c)
    requires forall i :: 0 <= i < IFACES ==> u.ifaces[i].peerMap == t.ifaces[i].peerMap && Holds(u, c, i) == Holds(t, c, i)
    ensures forall i :: 0 <= i < IFACES ==> BitsOk(t, u, i, c)
  {
    hide CtxOk;
    hide Holds;
    hide LogOk;
    forall i | 0 <= i < IFACES ensures BitsOk(t, u, i, c) { assert MapOk(t, i); }
  }

  lemma {:induction false} LogKept(t: Tables, u: Tables)
    requires LogOk(t) && u.freed == t.freed && u.told == t.told && u.peers.Keys == t.peers.Keys
    requires forall p :: p in t.peers && t.peers[p].deauthed ==> u.peers[p].deauthed
    ensures LogOk(u)
  {
    forall a | 0 <= a < |u.told| ensures Marked(u, u.told[a].peer) { assert Marked(t, t.told[a].peer); }
  }

  /** Interface `i` keeps its map, and its count follows what the data path sees of context `c`. */
  predicate Recounted(t: Tables, u: Tables, c: nat, i: nat)
    requires Shape(t) && Shape(u) && i < IFACES
  {
    && u.ifaces[i].peerMap == t.ifaces[i].peerMap && Holds(u, c, i) == Holds(t, c, i)
    && u.ifaces[i].actived - t.ifaces[i].actived == (if On(u, c, i) then 1 else 0) - (if On(t, c, i) then 1 else 0)
  }

  lemma {:induction false} TransmitOnHere(t: Tables, c: nat)
    requires Consistent(t) && c < CTXS
    ensures var u := TransmitOn(t, c);
      && Elsewhere(t, u, c) && CtxOk(u, c) && LogOk(u)
      && forall i :: 0 <= i < IFACES ==> Recounted(t, u, c, i)
  {
    hide LogOk;
    hide MapOk;
    assert CtxOk(t, c);
    LogKept(t, TransmitOn(t, c));
  }

  lemma {:induction false} TransmitOnKeeps(t: Tables, c: nat)
    requires Consistent(t) && c < CTXS
    ensures Consistent(TransmitOn(t, c)) && SameDrift(t, TransmitOn(t, c))
  {
    hide LogOk;
    hide MapOk;
    hide Drift;
    TransmitOnHere(t, c);
    var u := TransmitOn(t, c);
    assert forall i :: 0 <= i < IFACES ==> Recounted(t, u, c, i);
    hide TransmitOn;
    hide CtxOk;
    hide On;
    hide Elsewhere;
    hide Holds;
    SameBits(t, u, c);
    Local(t, u, c);
    forall i | 0 <= i < IFACES ensures Drift(u, i) == Drift(t, i) {
      assert Recounted(t, u, c, i);
      LocalDrift(t, u, c, i);
    }
  }

  lemma {:induction false} TransmitOffHere(t: Tables, c: nat)
    requires Consistent(t) && c < CTXS
    ensures var u := TransmitOff(t, c);
      && Elsewhere(t, u, c) && CtxOk(u, c) && LogOk(u) && u.entry[c] == None
      && forall i :: 0 <= i < IFACES ==> Recounted(t, u, c, i)
  {
    hide LogOk;
    hide MapOk;
    assert CtxOk(t, c);
    LogKept(t, TransmitOff(t, c));
  }

  lemma {:induction false} TransmitOffKeeps(t: Tables, c: nat)
    requires Consistent(t) && c < CTXS
    ensures Consistent(TransmitOff(t, c)) && SameDrift(t, TransmitOff(t, c)) && TransmitOff(t, c).entry[c] == None
  {
    hide LogOk;
    hide MapOk;
    hide Drift;
    TransmitOffHere(t, c);
    var u := TransmitOff(t, c);
    assert forall i :: 0 <= i < IFACES ==> Recounted(t, u, c, i);
    hide TransmitOff;
    hide CtxOk;
    hide On;
    hide Elsewhere;
    hide Holds;
    SameBits(t, u, c);
    Local(t, u, c);
    forall i | 0 <= i < IFACES ensures Drift(u, i) == Drift(t, i) {
      assert Recounted(t, u, c, i);
      LocalDrift(t, u, c, i);
    }
  }

  lemma {:induction false} MarkKeeps(t: Tables, c: nat)
    requires Consistent(t) && c < CTXS
    ensures Consistent(MarkDeauthed(t, c)) && SameDrift(t, MarkDeauthed(t, c))
  {
    hide LogOk;
    hide MapOk;
    hide Drift;
    var u := MarkDeauthed(t, c);
    assert CtxOk(t, c);
    LogKept(t, u);
    SameBits(t, u, c);
    Local(t, u, c);
    forall i | 0 <= i < IFACES ensures Drift(u, i) == Drift(t, i) { LocalDrift(t, u, c, i); }
  }

  /** Freeing a live peer. */
  lemma {:induction false} FreeKeepsLog(t: Tables, p: Option<Id>)
    requires LogOk(t) && (p.Some? ==> p.value in t.peers)
    ensures LogOk(Free(t, p))
  {
    var u := Free(t, p);
    forall a | 0 <= a < |u.told| ensures Marked(u, u.told[a].peer) { assert Marked(t, t.told[a].peer); }
  }

  lemma {:induction false} ClearedBits(t: Tables, i: nat, c: nat)
    requires Consistent(t) && c < CTXS && i < IFACES && MayUnbind(t, i, c)
    ensures forall j :: 0 <= j < IFACES ==> BitsOk(t, Unbind(t, i, c), j, c)
  {
    hide LogOk;
    var u := Unbind(t, i, c);
    assert CtxOk(t, c);
    forall j | 0 <= j < IFACES ensures BitsOk(t, u, j, c) {
      assert MapOk(t, j);
      SlotOf(t.ifaces[j].lmac, c % PEERS);
      forall idx | 0 <= idx < PEERS && Slot(t.ifaces[j].lmac, idx) != c
        ensures idx in u.ifaces[j].peerMap <==> idx in t.ifaces[j].peerMap
      {
        SlotOf(t.ifaces[j].lmac, idx);
      }
    }
  }

  lemma {:induction false} UnbindKeeps(t: Tables, i: nat, c: nat)
    requires Consistent(t) && c < CTXS && i < IFACES && MayUnbind(t, i, c)
    ensures Consistent(Unbind(t, i, c)) && SameDrift(t, Unbind(t, i, c))
  {
    hide LogOk;
    hide MapOk;
    hide Drift;
    hide BitsOk;
    var u := Unbind(t, i, c);
    assert CtxOk(t, c);
    FreeKeepsLog(t, t.ctx[c]);
    assert LogOk(u) by { LogOnly(Free(t, t.ctx[c]), u); }
    ClearedBits(t, i, c);
    Local(t, u, c);
    forall j | 0 <= j < IFACES ensures Drift(u, j) == Drift(t, j) { LocalDrift(t, u, c, j); }
  }

  lemma {:induction false} LogOnly(t: Tables, u: Tables)
    requires LogOk(t) && u.freed == t.freed && u.told == t.told && u.peers == t.peers
    ensures LogOk(u)
  {
    forall a | 0 <= a < |u.told| ensures Marked(u, u.told[a].peer) { assert Marked(t, t.told[a].peer); }
  }

  /** Unbinding while the data path still sees the peer, for another interface's peer, or by an interface of the other
      lmac that uses the same index, leaves the tables inconsistent. */
  lemma {:induction false} UnbindBreaks(t: Tables, i: nat, c: nat)
    requires Consistent(t) && c < CTXS && i < IFACES && !MayUnbind(t, i, c)
    ensures !Consistent(Unbind(t, i, c))
  {
    hide LogOk;
    var u := Unbind(t, i, c);
    var idx := c % PEERS;
    assert CtxOk(t, c) && MapOk(t, i);
    SlotOf(c / PEERS, idx);
    if t.ctx[c].None? {
      var d := Slot(t.ifaces[i].lmac, idx);
      assert CtxOk(t, d);
      assert Holds(u, d, i) && !MapOk(u, i);
    } else if t.entry[c] != None {
      assert !CtxOk(u, c);
    } else {
      var j := t.peers[t.ctx[c].value].iface;
      assert MapOk(t, j);
      assert !Holds(u, Slot(t.ifaces[j].lmac, idx), j);
      assert !MapOk(u, j);
    }
  }

  lemma {:induction false} AttachKeeps(t: Tables, i: nat, c: nat, q: Id, addr: nat, bad: bool)
    requires Consistent(t) && c < CTXS && i < IFACES && t.ctx[c] == None
    requires t.ifaces[i].present && t.ifaces[i].lmac == c / PEERS && q !in t.peers && q !in t.freed
    ensures var u := Attach(t, i, c, q, addr, bad); Consistent(u) && SameDrift(t, u)
  {
    hide MapOk;
    hide Drift;
    hide BitsOk;
    var u := Attach(t, i, c, q, addr, bad);
    assert CtxOk(t, c);
    AttachLog(t, u, q);
    hide LogOk;
    AttachBits(t, i, c, q, addr, bad);
    Local(t, u, c);
    forall j | 0 <= j < IFACES ensures Drift(u, j) == Drift(t, j) { LocalDrift(t, u, c, j); }
  }

  lemma {:induction false} AttachLog(t: Tables, u: Tables, q: Id)
    requires LogOk(t) && q !in t.peers && q !in t.freed
    requires u.freed == t.freed && u.told == t.told && u.peers.Keys == t.peers.Keys + {q}
    requires forall p :: p in t.peers ==> u.peers[p] == t.peers[p]
    ensures LogOk(u)
  {
    forall a | 0 <= a < |u.told| ensures Marked(u, u.told[a].peer) { assert Marked(t, t.told[a].peer); }
  }

  lemma {:induction false} AttachBits(t: Tables, i: nat, c: nat, q: Id, addr: nat, bad: bool)
    requires Consistent(t) && c < CTXS && i < IFACES && t.ctx[c] == None && t.ifaces[i].lmac == c / PEERS && q !in t.peers
    ensures var u := Attach(t, i, c, q, addr, bad); forall j :: 0 <= j < IFACES ==> BitsOk(t, u, j, c)
  {
    hide LogOk;
    hide CtxOk;
    var u := Attach(t, i, c, q, addr, bad);
    forall j | 0 <= j < IFACES ensures BitsOk(t, u, j, c) {
      assert MapOk(t, j);
      SlotOf(t.ifaces[j].lmac, c % PEERS);
    }
  }

  lemma {:induction false} BindKeeps(t: Tables, i: nat, c: nat, q: Id, addr: nat, bad: bool)
    requires Consistent(t) && c < CTXS && i < IFACES && MayBind(t, i, c, q)
    ensures var u := Bind(t, i, c, q, addr, bad); Consistent(u) && SameDrift(t, u) && Holds(u, c, i)
  {
    hide CtxOk;
    hide MapOk;
    hide LogOk;
    hide Drift;
    var u := Unbind(t, i, c);
    assert t.ctx[c].Some? ==> t.ctx[c].value != q;
    UnbindKeeps(t, i, c);
    AttachKeeps(u, i, c, q, addr, bad);
  }

  // ----- what every step does

  /** The context holds a live peer that is not seen by the data path yet and has no flag. */
  predicate Ready(t: Tables, c: nat)
    requires Shape(t) && c < CTXS
  {
    match t.ctx[c]
    case None => false
    case Some(p) => p in t.peers && var x := t.peers[p]; !x.active && !x.deauthed && !x.bad
  }

  /** Interface `i` counts `d` more, or less, and nothing else of the interfaces changed. */
  predicate Counted(t: Tables, u: Tables, i: nat, d: int)
    requires Shape(t) && Shape(u)
  {
    forall j :: 0 <= j < IFACES ==> u.ifaces[j] == t.ifaces[j].(actived := t.ifaces[j].actived + if j == i then d else 0)
  }

  /** Enabling shows the peer to the data path iff it is ready, and then counts it; nothing else changes. After it the
      context is seen iff its peer was, or has no flag. */
  lemma {:induction false} TransmitOnMeaning(t: Tables, c: nat)
    requires Consistent(t) && c < CTXS
    ensures var u := TransmitOn(t, c);
      && Shape(u)
      && (Ready(t, c) ==> var p := t.ctx[c].value;
           && u.entry == t.entry[c := Some(p)] && u.peers == t.peers[p := t.peers[p].(active := true)]
           && Counted(t, u, t.peers[p].iface, 1)
           && u == t.(entry := u.entry, peers := u.peers, ifaces := u.ifaces))
      && (!Ready(t, c) ==> u == t)
      && (u.entry[c].Some? <==> t.ctx[c].Some? && t.ctx[c].value in t.peers
                                && var x := t.peers[t.ctx[c].value]; x.active || (!x.deauthed && !x.bad))
  {
    hide LogOk;
    hide MapOk;
    assert CtxOk(t, c);
  }

  /** Disabling hides the context from the data path and counts its peer off iff it was seen; nothing else changes. */
  lemma {:induction false} TransmitOffMeaning(t: Tables, c: nat)
    requires Consistent(t) && c < CTXS
    ensures var u := TransmitOff(t, c);
      && Shape(u) && u.entry == t.entry[c := None]
      && (t.entry[c].Some? ==> var p := t.entry[c].value;
           && p in t.peers && u.peers == t.peers[p := t.peers[p].(active := false)] && Counted(t, u, t.peers[p].iface, -1)
           && u == t.(entry := u.entry, peers := u.peers, ifaces := u.ifaces))
      && (t.entry[c].None? ==> u == t)
  {
    hide LogOk;
    hide MapOk;
    assert CtxOk(t, c);
  }

  /** Disabling undoes enabling. */
  lemma {:induction false} DisableUndoes(t: Tables, c: nat)
    requires Consistent(t) && c < CTXS && t.entry[c].None?
    ensures Shape(TransmitOn(t, c)) && TransmitOff(TransmitOn(t, c), c) == t
  {
    hide LogOk;
    hide MapOk;
    assert CtxOk(t, c);
    TransmitOnMeaning(t, c);
    var u := TransmitOn(t, c);
    if Ready(t, c) {
      var p := t.ctx[c].value;
      var w := TransmitOff(u, c);
      assert !t.peers[p].active;
      assert w.peers == t.peers && w.entry == t.entry;
      assert w.ifaces == t.ifaces;
    }
  }

  /** Marking a peer changes nothing but its mark. */
  lemma {:induction false} MarkMeaning(t: Tables, c: nat)
    requires Consistent(t) && c < CTXS
    ensures var u := MarkDeauthed(t, c);
      && (forall p :: p in t.peers ==>
            p in u.peers && u.peers[p] == t.peers[p].(deauthed := t.peers[p].deauthed || t.ctx[c] == Some(p)))
      && u == t.(peers := u.peers) && u.peers.Keys == t.peers.Keys
  {
    hide LogOk;
    hide MapOk;
    assert CtxOk(t, c);
  }

  /** Unbinding empties the context, frees its peer, clears the bit in the map of the interface, and nothing else. */
  lemma {:induction false} UnbindMeaning(t: Tables, i: nat, c: nat)
    requires Consistent(t) && i < IFACES && c < CTXS
    ensures var u := Unbind(t, i, c);
      && u.ctx == t.ctx[c := None] && u.freed == t.freed + (if t.ctx[c].Some? then [t.ctx[c].value] else [])
      && (forall p :: p in u.peers <==> p in t.peers && t.ctx[c] != Some(p))
      && (forall p :: p in u.peers ==> u.peers[p] == t.peers[p])
      && u.ifaces == t.ifaces[i := t.ifaces[i].(peerMap := t.ifaces[i].peerMap - {c % 32})]
      && u == t.(ctx := u.ctx, peers := u.peers, ifaces := u.ifaces, freed := u.freed)
  {
    hide LogOk;
    hide MapOk;
    assert CtxOk(t, c);
  }

  /** Binding puts a new peer into the context, with the address and the flag given, unseen and unmarked, and sets the bit
      in the map of the interface. The peer that was there is freed, and nothing else changes. */
  lemma {:induction false} BindMeaning(t: Tables, i: nat, c: nat, q: Id, addr: nat, bad: bool)
    requires Consistent(t) && i < IFACES && c < CTXS && MayBind(t, i, c, q)
    ensures var u := Bind(t, i, c, q, addr, bad);
      && u.ctx == t.ctx[c := Some(q)] && u.freed == t.freed + (if t.ctx[c].Some? then [t.ctx[c].value] else [])
      && (forall p :: p in u.peers <==> p == q || (p in t.peers && t.ctx[c] != Some(p)))
      && (forall p :: p in u.peers && p != q ==> u.peers[p] == t.peers[p])
      && var x := u.peers[q];
      && x.iface == i && x.home == c && x.addr == addr && !x.active && !x.deauthed && x.bad == bad && u.entry[c] == None
      && u.ifaces == t.ifaces[i := t.ifaces[i].(peerMap := t.ifaces[i].peerMap + {c % 32})]
      && u == t.(ctx := u.ctx, peers := u.peers, ifaces := u.ifaces, freed := u.freed)
  {
    hide LogOk;
    hide MapOk;
    assert CtxOk(t, c);
    UnbindMeaning(t, i, c);
    var a, u := Unbind(t, i, c), Bind(t, i, c, q, addr, bad);
    assert u.ifaces[i].peerMap == t.ifaces[i].peerMap - {c % 32} + {c % 32} == t.ifaces[i].peerMap + {c % 32};
  }
}
