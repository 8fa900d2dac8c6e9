/** Posting of receive buffers to the firmware (skw_edma.c): buffer addresses are packed 32 to a node into a ring of
    24 nodes, submitted, completed in order, and come back one by one with received data. */
module EdmaPosting {

  const NODES := 24
  const SLOTS := 32
  const ENTRY := 8
  const NODE_BYTES := SLOTS * ENTRY
  const TOTAL := NODES * SLOTS

  type Slots = s: seq<int> | |s| == SLOTS witness seq(SLOTS, _ => 0)
  const BLANK: Slots := seq(SLOTS, _ => 0)
  type Ring = r: seq<Slots> | |r| == NODES witness seq(NODES, _ => BLANK)

  function Pos(start: nat, k: nat): (p: nat)
    ensures p < NODES
  {
    (start + k) % NODES
  }

  /** The addresses in the `n` nodes from `start` on. */
  ghost function Entries(ring: Ring, start: nat, n: nat): multiset<int> {
    if n == 0 then multiset{} else Entries(ring, start, n - 1) + multiset(ring[Pos(start, n - 1)])
  }

  lemma {:induction false} EntriesSize(ring: Ring, start: nat, n: nat)
    ensures |Entries(ring, start, n)| == SLOTS * n
  {
    if n > 0 {
      EntriesSize(ring, start, n - 1);
      assert |multiset(ring[Pos(start, n - 1)])| == SLOTS;
    }
  }

  lemma {:induction false} EntriesSame(a: Ring, b: Ring, start: nat, n: nat)
    requires forall k :: 0 <= k < n ==> a[Pos(start, k)] == b[Pos(start, k)]
    ensures Entries(a, start, n) == Entries(b, start, n)
  {
    if n > 0 { EntriesSame(a, b, start, n - 1); }
  }

  lemma {:induction false} EntriesSplit(ring: Ring, start: nat, n: nat, m: nat)
    ensures Entries(ring, start, n + m) == Entries(ring, start, n) + Entries(ring, Pos(start, n), m)
    decreases m
  {
    hide Pos;
    if m > 0 {
      EntriesSplit(ring, start, n, m - 1);
      PosAdvance(start, n, m - 1);
      var x := multiset(ring[Pos(start, n + m - 1)]);
      assert Entries(ring, start, n + m) == Entries(ring, start, n + m - 1) + x;
      assert Entries(ring, Pos(start, n), m) == Entries(ring, Pos(start, n), m - 1) + x;
    }
  }

  /** Two positions less than a whole turn apart are different nodes. */
  lemma {:induction false} PosDiffers(start: nat, i: nat, j: nat)
    requires i < j < i + NODES
    ensures Pos(start, i) != Pos(start, j)
  {
  }

  lemma {:induction false} PosTurn(start: nat, k: nat)
    ensures Pos(start, NODES + k) == Pos(start, k) && (start < NODES ==> Pos(start, 0) == start)
  {
  }

  lemma {:induction false} PosAdvance(start: nat, i: nat, j: nat)
    ensures Pos(Pos(start, i), j) == Pos(start, i + j)
  {
  }

  /** The `m`-th group of addresses, one node full. */
  ghost predicate Packed(ring: Ring, start: nat, n: nat, addrs: seq<int>) {
    SLOTS * n <= |addrs| &&
    forall m :: 0 <= m < n ==> ring[Pos(start, m)] == addrs[SLOTS * m..SLOTS * m + SLOTS]
  }

  lemma {:induction false} PackedEntries(ring: Ring, start: nat, n: nat, addrs: seq<int>)
    requires Packed(ring, start, n, addrs)
    ensures Entries(ring, start, n) == multiset(addrs[..SLOTS * n])
  {
    hide Pos;
    if n > 0 {
      PackedEntries(ring, start, n - 1, addrs);
      Concat(addrs, SLOTS * (n - 1), SLOTS * n);
    } else {
      assert addrs[..0] == [];
    }
  }

  lemma {:induction false} Concat(s: seq<int>, i: nat, j: nat)
    requires i <= j <= |s|
    ensures multiset(s[..j]) == multiset(s[..i]) + multiset(s[i..j])
  {
    assert s[..j] == s[..i] + s[i..j];
  }

  /** The headers of `n` nodes announce a full node. */
  ghost predicate AllFull(lens: seq<nat>, start: nat, n: nat) {
    |lens| == NODES && forall k :: 0 <= k < n ==> FullAt(lens, start, k)
  }

  ghost predicate FullAt(lens: seq<nat>, start: nat, k: nat)
    requires |lens| == NODES
  {
    lens[Pos(start, k)] == NODE_BYTES
  }

  /** Nodes in flight before, followed by the newly packed ones, are the nodes in flight after. */
  lemma {:induction false} PostedEntries(ring0: Ring, ring: Ring, c0: nat, f: nat, q: nat, addrs: seq<int>)
    requires c0 < NODES && f + q <= NODES && |addrs| == SLOTS * q && Packed(ring, c0, q, addrs)
    requires forall k :: NODES - f <= k < NODES ==> ring[Pos(c0, k)] == ring0[Pos(c0, k)]
    ensures var o := Pos(c0, NODES - f);
            && Pos(Pos(c0, q), NODES - f - q) == o
            && Entries(ring, o, f + q) == Entries(ring0, o, f) + multiset(addrs)
            && (forall k :: 0 <= k < f ==> ring[Pos(o, k)] == ring0[Pos(o, k)])
  {
    hide Pos;
    hide Packed;
    hide Entries;
    PosTurn(c0, 0);
    var o := Pos(c0, NODES - f);
    PosAdvance(c0, q, NODES - f - q);
    forall k | 0 <= k < f ensures ring[Pos(o, k)] == ring0[Pos(o, k)] { PosAdvance(c0, NODES - f, k); }
    EntriesSame(ring, ring0, o, f);
    EntriesSplit(ring, o, f, q);
    PosAdvance(c0, NODES - f, f);
    PackedEntries(ring, c0, q, addrs);
    assert addrs[..SLOTS * q] == addrs;
  }

  lemma {:induction false} PostedLengths(lens0: seq<nat>, lens: seq<nat>, c0: nat, f: nat, q: nat)
    requires |lens0| == |lens| == NODES && c0 < NODES && f + q <= NODES
    requires AllFull(lens, c0, q) && AllFull(lens0, Pos(c0, NODES - f), f)
    requires forall k :: NODES - f <= k < NODES ==> lens[Pos(c0, k)] == lens0[Pos(c0, k)]
    ensures AllFull(lens, Pos(c0, NODES - f), f + q)
  {
    hide Pos;
    var o := Pos(c0, NODES - f);
    forall k: nat | k < f + q ensures FullAt(lens, o, k) {
      PosAdvance(c0, NODES - f, k);
      if k >= f {
        assert FullAt(lens, c0, k - f);
        PosTurn(c0, k - f);
      } else {
        assert FullAt(lens0, o, k);
      }
    }
  }

  /** Packing in progress: `q` whole nodes and `r` slots of the next are filled from `c0` on, and the nodes that were
      in flight before are as they were. */
  ghost predicate Filling(ring: Ring, lens: seq<nat>, ring0: Ring, lens0: seq<nat>, c0: nat, f: nat, q: nat, r: nat,
                          addrs: seq<int>)
  {
    && |lens| == |lens0| == NODES && f <= NODES && SLOTS * q + r <= |addrs| && r < SLOTS
    && Packed(ring, c0, q, addrs) && AllFull(lens, c0, q)
    && ring[Pos(c0, q)][..r] == addrs[SLOTS * q..SLOTS * q + r]
    && (forall k :: NODES - f <= k < NODES ==> ring[Pos(c0, k)] == ring0[Pos(c0, k)])
    && (forall k :: NODES - f <= k < NODES ==> lens[Pos(c0, k)] == lens0[Pos(c0, k)])
  }

  lemma {:induction false} FillStep(ring: Ring, lens: seq<nat>, ring0: Ring, lens0: seq<nat>, c0: nat, f: nat, q: nat, r: nat, addrs: seq<int>)
    requires Filling(ring, lens, ring0, lens0, c0, f, q, r, addrs) && SLOTS * q + r < |addrs| && q < NODES - f
    ensures var c := Pos(c0, q);
            var ring' := ring[c := ring[c][r := addrs[SLOTS * q + r]]];
            var lens' := lens[c := ENTRY * r + ENTRY];
            if r == SLOTS - 1 then Filling(ring', lens', ring0, lens0, c0, f, q + 1, 0, addrs)
            else Filling(ring', lens', ring0, lens0, c0, f, q, r + 1, addrs)
  {
    var c := Pos(c0, q);
    var slots := ring[c][r := addrs[SLOTS * q + r]];
    forall k | 0 <= k < NODES && k != q ensures Pos(c0, k) != c {
      if k < q { PosDiffers(c0, k, q); } else { PosDiffers(c0, q, k); }
    }
    assert slots[..r + 1] == ring[c][..r] + [addrs[SLOTS * q + r]];
    assert addrs[SLOTS * q..SLOTS * q + r + 1] == addrs[SLOTS * q..SLOTS * q + r] + [addrs[SLOTS * q + r]];
    assert r == SLOTS - 1 ==> slots == slots[..SLOTS];
    var lens' := lens[c := ENTRY * r + ENTRY];
    forall k: nat | k < q ensures FullAt(lens', c0, k) { assert FullAt(lens, c0, k); }
  }

  /** Receive-buffer posting for one MAC. */
  class RxRequestChannel {
    var ring: Ring             // node buffers
    var used: seq<nat>         // bytes filled, per node
    var dataLen: seq<nat>      // the header's length, per node
    var current: nat
    var nrNode: int
    var txNodeCount: nat
    var availSkb: seq<int>     // buffers the driver has handed out, oldest first
    var availNum: int
    var refill: nat            // users of the receive path
    ghost var inFlight: nat            // submitted nodes that are not completed
    ghost var held: multiset<int>      // addresses the firmware took from completed nodes

    ghost predicate Shape() reads this {
      && |used| == |dataLen| == NODES && current < NODES
      && inFlight <= NODES
    }

    ghost function Oldest(): nat
      requires inFlight <= NODES
      reads this
    {
      Pos(current, NODES - inFlight)
    }

    /** Between operations. */
    ghost predicate Valid() reads this {
      && Shape()
      && used[current] == 0 && txNodeCount == 0
      && nrNode + inFlight == NODES
      && availNum == |availSkb| <= TOTAL
      && AllFull(dataLen, Oldest(), inFlight)
      && multiset(availSkb) == Entries(ring, Oldest(), inFlight) + held
    }

    constructor ()
      ensures Valid() && inFlight == 0 && availSkb == [] && held == multiset{} && refill == 0
    {
      ring := seq(NODES, _ => BLANK);
      used := seq(NODES, _ => 0);
      dataLen := seq(NODES, _ => NODE_BYTES);
      current, nrNode, txNodeCount, availSkb, availNum, refill := 0, NODES, 0, [], 0, 0;
      inFlight, held := 0, multiset{};
    }

    method NextNode()
      requires Shape()
      modifies this`current, this`used, this`txNodeCount, this`nrNode
      ensures Shape() && current == Pos(old(current), 1) && used == old(used)[current := 0]
      ensures txNodeCount == old(txNodeCount) + 1 && nrNode == old(nrNode) - 1
    {
      current := if current == NODES - 1 then 0 else current + 1;
      used := used[current := 0];
      txNodeCount := txNodeCount + 1;
      nrNode := nrNode - 1;
    }

    /** Writes one address behind the last one; a full node is closed at once. */
    method SetData(addr: int)
      requires Shape() && used[current] % ENTRY == 0 && used[current] < NODE_BYTES
      modifies this`ring, this`used, this`dataLen, this`current, this`txNodeCount, this`nrNode
      ensures Shape()
      ensures var c, u := old(current), old(used)[old(current)];
              && ring == old(ring)[c := old(ring)[c][u / ENTRY := addr]]
              && dataLen == old(dataLen)[c := u + ENTRY]
              && (u + ENTRY < NODE_BYTES ==>
                    && current == c && used == old(used)[c := u + ENTRY]
                    && txNodeCount == old(txNodeCount) && nrNode == old(nrNode))
              && (u + ENTRY == NODE_BYTES ==>
                    && current == Pos(c, 1) && used[current] == 0
                    && txNodeCount == old(txNodeCount) + 1 && nrNode == old(nrNode) - 1)
    {
      ring := ring[current := ring[current][used[current] / ENTRY := addr]];
      used := used[current := used[current] + ENTRY];
      dataLen := dataLen[current := used[current]];
      if used[current] + ENTRY > NODE_BYTES { NextNode(); }
    }

    /** Posts `addrs`, whole nodes of fresh buffers, of which there must be room for in the ring. The nodes the
        firmware still owns are not touched; each posted node holds the next 32 addresses. */
    method AllocSkb(addrs: seq<int>)
      requires Valid() && |addrs| % SLOTS == 0 && |addrs| + SLOTS * inFlight <= TOTAL && |availSkb| + |addrs| <= TOTAL
      modifies this
      ensures Valid() && held == old(held) && refill == old(refill)
      ensures inFlight == old(inFlight) + |addrs| / SLOTS && Oldest() == old(Oldest())
      ensures availSkb == old(availSkb) + addrs
      ensures forall k :: 0 <= k < old(inFlight) ==> ring[Pos(Oldest(), k)] == old(ring)[Pos(old(Oldest()), k)]
      ensures Packed(ring, old(current), |addrs| / SLOTS, addrs)
    {
      hide Pos;
      hide Packed;
      hide AllFull;
      hide Entries;
      hide Filling;
      ghost var c0, f0, ring0, lens0 := current, inFlight, ring, dataLen;
      PackAll(addrs);
      FillDone(ring, dataLen, ring0, lens0, c0, f0, |addrs| / SLOTS, addrs);
      inFlight := inFlight + txNodeCount;  // the firmware owns the submitted nodes from here on
      availNum := availNum + |addrs|;
      txNodeCount := 0;
    }

    /** Packs the addresses into the ring and queues the buffers. As long as there is room no node in flight is
        written. */
    method PackAll(addrs: seq<int>)
      requires Shape() && used[current] == 0 && |addrs| % SLOTS == 0
      modifies this`ring, this`used, this`dataLen, this`current, this`txNodeCount, this`nrNode, this`availSkb
      ensures var q := |addrs| / SLOTS;
              && Shape() && used[current] == 0
              && current == Pos(old(current), q) && txNodeCount == q && nrNode == old(nrNode) - q
              && availSkb == old(availSkb) + addrs
              && (|addrs| + SLOTS * inFlight <= TOTAL ==>
                    Filling(ring, dataLen, old(ring), old(dataLen), old(current), inFlight, q, 0, addrs))
    {
      hide Pos;
      hide Filling;
      ghost var room := |addrs| + SLOTS * inFlight <= TOTAL;
      ghost var q, r := 0, 0;
      txNodeCount := 0;
      FillStart(ring, dataLen, current, inFlight, addrs);
      var i := 0;
      while i < |addrs|
        invariant i == SLOTS * q + r <= |addrs| && r < SLOTS && Shape()
        invariant current == Pos(old(current), q) && used[current] == ENTRY * r
        invariant txNodeCount == q && nrNode == old(nrNode) - q
        invariant room ==> Filling(ring, dataLen, old(ring), old(dataLen), old(current), inFlight, q, r, addrs)
        invariant availSkb == old(availSkb) + addrs[..i]
      {
        if room { FillStep(ring, dataLen, old(ring), old(dataLen), old(current), inFlight, q, r, addrs); }
        PosAdvance(old(current), q, 1);
        SetData(addrs[i]);
        availSkb := availSkb + [addrs[i]];
        assert addrs[..i + 1] == addrs[..i] + [addrs[i]];
        i := i + 1;
        if r == SLOTS - 1 { q, r := q + 1, 0; } else { r := r + 1; }
      }
      assert addrs[..i] == addrs;
    }

    /** The first posting takes the whole ring, whatever is outstanding: it is sound if and only if nothing is. */
    method InitDataChan(supply: seq<int>)
      requires Valid() && |supply| == TOTAL
      modifies this
      ensures refill == old(refill) + 1 && nrNode == old(nrNode) - NODES && availNum == old(availNum) + TOTAL
      ensures Valid() <==> old(availSkb) == []
      ensures old(availSkb) == [] ==> inFlight == NODES && availSkb == supply
    {
      hide Pos;
      hide AllFull;
      hide Entries;
      hide Filling;
      EntriesSize(ring, Oldest(), inFlight);
      assert |multiset(availSkb)| == |availSkb|;
      ghost var c0, f0, ring0, lens0 := current, inFlight, ring, dataLen;
      PackAll(supply);
      if f0 == 0 { FillDone(ring, dataLen, ring0, lens0, c0, 0, NODES, supply); }
      inFlight := NODES;
      availNum := availNum + |supply|;
      txNodeCount := 0;
      refill := refill + 1;
    }

    /** How many buffers a refill posts: all that are missing, in whole nodes. */
    function RefillCount(): nat
      reads this
    {
      if 0 <= availNum <= TOTAL && TOTAL - availNum >= SLOTS && refill > 0 then (TOTAL - availNum) / SLOTS * SLOTS else 0
    }

    /** Tops the outstanding buffers up to at least 737 of 768. The ring always has room for it: `nrNode` stays
        non-negative, because every node in flight still accounts for 32 outstanding buffers. */
    method RefillSkb(supply: seq<int>)
      requires Valid() && |supply| >= RefillCount()
      modifies this
      ensures Valid() && nrNode >= 0 && refill == old(refill) && held == old(held)
      ensures availSkb == old(availSkb) + supply[..old(RefillCount())]
      ensures nrNode == old(nrNode) - old(RefillCount()) / SLOTS
      ensures refill > 0 ==> TOTAL - SLOTS < |availSkb| <= TOTAL
    {
      hide Pos;
      hide AllFull;
      hide Entries;
      EntriesSize(ring, Oldest(), inFlight);
      assert |multiset(availSkb)| == |availSkb|;
      if TOTAL - availNum >= SLOTS && refill > 0 {
        AllocSkb(supply[..(TOTAL - availNum) / SLOTS * SLOTS]);
      }
    }

    /** Completion interrupt: the firmware has read the `count` oldest nodes in flight. */
    method TxNodeIsr(count: nat)
      requires Valid() && count <= inFlight
      modifies this`nrNode, this`inFlight, this`held
      ensures Valid() && inFlight == old(inFlight) - count && nrNode == old(nrNode) + count
      ensures held == old(held) + Entries(ring, old(Oldest()), count)
    {
      hide Pos;
      hide Entries;
      hide AllFull;
      var i := 0;
      while i < count
        invariant i <= count && nrNode == old(nrNode) + i && inFlight == old(inFlight) && held == old(held)
      {
        nrNode := nrNode + 1;
        i := i + 1;
      }
      ghost var o, f := Oldest(), inFlight;
      CompletedEntries(ring, dataLen, current, f, count);
      held := held + Entries(ring, o, count);
      inFlight := inFlight - count;
    }

    /** Takes the buffer with the given address out of the queue. */
    method TakeSkb(addr: int) returns (found: bool)
      modifies this`availSkb
      ensures found <==> addr in old(availSkb)
      ensures found ==> multiset(availSkb) == multiset(old(availSkb)) - multiset{addr} && |availSkb| == |old(availSkb)| - 1
      ensures !found ==> availSkb == old(availSkb)
    {
      for i := 0 to |availSkb|
        invariant availSkb == old(availSkb) && addr !in availSkb[..i]
      {
        if availSkb[i] == addr {
          assert availSkb == availSkb[..i] + [addr] + availSkb[i + 1..];
          availSkb := availSkb[..i] + availSkb[i + 1..];
          return true;
        }
      }
      assert availSkb[..|availSkb|] == availSkb;
      return false;
    }

    method RxOne(addr: int)
      requires Valid() && (addr in held || addr !in availSkb)
      modifies this`availSkb, this`availNum, this`held
      ensures Valid()
      ensures old(addr in held) ==>
                && held == old(held) - multiset{addr} && availNum == old(availNum) - 1
                && multiset(availSkb) == multiset(old(availSkb)) - multiset{addr}
      ensures old(addr !in held) ==> held == old(held) && availSkb == old(availSkb) && availNum == old(availNum)
    {
      hide Entries;
      hide AllFull;
      assert addr in held ==> addr in multiset(availSkb);
      var found := TakeSkb(addr);
      if !found { return; }  // the driver reports a firmware error and goes on
      held := held - multiset{addr};
      availNum := availNum - 1;
    }

    /** Received data: each address that belongs to a posted buffer frees it, others are skipped. The firmware gives
        back only what it holds. */
    method RxData(data: seq<int>)
      requires Valid() && multiset(Known(data, availSkb)) <= held
      modifies this`availSkb, this`availNum, this`held
      ensures var known := Known(data, old(availSkb));
              && Valid() && held == old(held) - multiset(known)
              && multiset(availSkb) == multiset(old(availSkb)) - multiset(known)
              && availNum == old(availNum) - |known|
    {
      hide Valid;
      assert Known(data[..0], availSkb) == [];
      hide Known;
      ghost var held0, avail0 := held, availSkb;
      var i := 0;
      while i < |data|
        invariant i <= |data| && Valid() && availNum == old(availNum) - |Known(data[..i], avail0)|
        invariant held == held0 - multiset(Known(data[..i], avail0))
        invariant multiset(availSkb) == multiset(avail0) - multiset(Known(data[..i], avail0))
      {
        KnownNext(held0, data, i, avail0);
        if data[i] in avail0 {
          LessOne(held0, Known(data[..i], avail0), data[i]);
          LessOne(multiset(avail0), Known(data[..i], avail0), data[i]);
        } else {
          NotAdded(availSkb, avail0, data[i], Known(data[..i], avail0));
          NotPosted(data[i]);
        }
        RxOne(data[i]);
        i := i + 1;
      }
      assert data[..i] == data;
    }

    lemma {:induction false} NotPosted(addr: int)
      requires Valid() && addr !in availSkb
      ensures addr !in held
    {
      hide Entries;
      assert addr !in multiset(availSkb);
    }
  }

  /** The addresses in `data` that belong to posted buffers. */
  function Known(data: seq<int>, avail: seq<int>): seq<int>
    decreases |data|
  {
    if data == [] then []
    else
      var rest := Known(data[..|data| - 1], avail);
      if data[|data| - 1] in avail then rest + [data[|data| - 1]] else rest
  }

  lemma {:induction false} LessOne(m: multiset<int>, k: seq<int>, x: int)
    ensures m - multiset(k) - multiset{x} == m - multiset(k + [x])
  {
  }

  lemma {:induction false} NotAdded(avail: seq<int>, avail0: seq<int>, addr: int, gone: seq<int>)
    requires multiset(avail) == multiset(avail0) - multiset(gone) && addr !in avail0
    ensures addr !in avail
  {
    assert addr !in multiset(avail);
  }

  lemma {:induction false} KnownPrefix(data: seq<int>, i: nat, avail: seq<int>)
    requires i <= |data|
    ensures Known(data[..i], avail) <= Known(data, avail)
    decreases |data|
  {
    if i < |data| {
      assert data[..|data| - 1][..i] == data[..i];
      KnownPrefix(data[..|data| - 1], i, avail);
    } else {
      assert data[..i] == data;
    }
  }

  lemma {:induction false} KnownNext(held: multiset<int>, data: seq<int>, i: nat, avail: seq<int>)
    requires i < |data| && multiset(Known(data, avail)) <= held
    ensures var k, k' := Known(data[..i], avail), Known(data[..i + 1], avail);
            if data[i] in avail then data[i] in held - multiset(k) && k' == k + [data[i]] else k' == k
  {
    assert data[..i + 1][..i] == data[..i];
    if data[i] in avail {
      var k, k', all := Known(data[..i], avail), Known(data[..i + 1], avail), Known(data, avail);
      KnownPrefix(data, i + 1, avail);
      assert k' == k + [data[i]];
      assert all == k' + all[|k'|..];
      assert multiset(all)[data[i]] >= multiset(k)[data[i]] + 1;
    }
  }

  lemma {:induction false} CompletedEntries(ring: Ring, lens: seq<nat>, current: nat, f: nat, count: nat)
    requires count <= f <= NODES && AllFull(lens, Pos(current, NODES - f), f)
    ensures var o, o' := Pos(current, NODES - f), Pos(current, NODES - (f - count));
            && Entries(ring, o, f) == Entries(ring, o, count) + Entries(ring, o', f - count)
            && AllFull(lens, o', f - count)
  {
    hide Entries;
    hide Pos;
    var o, o' := Pos(current, NODES - f), Pos(current, NODES - (f - count));
    PosAdvance(current, NODES - f, count);
    EntriesSplit(ring, o, count, f - count);
    forall k: nat | k < f - count ensures FullAt(lens, o', k) {
      assert FullAt(lens, o, count + k);
      PosAdvance(o, count, k);
    }
  }

  lemma {:induction false} FillStart(ring: Ring, lens: seq<nat>, c0: nat, f: nat, addrs: seq<int>)
    requires |lens| == NODES && c0 < NODES && f <= NODES
    ensures Pos(c0, 0) == c0 && Filling(ring, lens, ring, lens, c0, f, 0, 0, addrs)
  {
  }

  lemma {:induction false} FillDone(ring: Ring, lens: seq<nat>, ring0: Ring, lens0: seq<nat>, c0: nat, f: nat, q: nat, addrs: seq<int>)
    requires Filling(ring, lens, ring0, lens0, c0, f, q, 0, addrs) && |addrs| == SLOTS * q
    requires c0 < NODES && f + q <= NODES && AllFull(lens0, Pos(c0, NODES - f), f)
    ensures var o := Pos(c0, NODES - f);
            && Packed(ring, c0, q, addrs)
            && Pos(Pos(c0, q), NODES - f - q) == o
            && Entries(ring, o, f + q) == Entries(ring0, o, f) + multiset(addrs)
            && (forall k :: 0 <= k < f ==> ring[Pos(o, k)] == ring0[Pos(o, k)])
            && AllFull(lens, o, f + q)
  {
    PostedEntries(ring0, ring, c0, f, q, addrs);
    PostedLengths(lens0, lens, c0, f, q);
  }
}
