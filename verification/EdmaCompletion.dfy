/** Completion rings (skw_edma.c): the firmware marks headers done in ring order, the driver's poll consumes them and
    gives a full round of nodes back at once. */
module EdmaCompletion {

  datatype Packet = Packet(addr: int, len: nat)
  datatype Header = Header(done: bool, packet: Packet)

  /** `k` steps after `start` on a ring of `max` nodes. */
  function Pos(max: nat, start: nat, k: nat): (p: nat)
    requires start < max && k <= max
    ensures p < max
  {
    if start + k < max then start + k else start + k - max
  }

  function Units(ps: seq<Packet>): nat
    decreases |ps|
  {
    if ps == [] then 0 else Units(ps[..|ps| - 1]) + ps[|ps| - 1].len / 8
  }

  /** The quota is charged with the total so far at every packet, not with the packet alone. */
  function Charged(ps: seq<Packet>): nat
    decreases |ps|
  {
    if ps == [] then 0 else Charged(ps[..|ps| - 1]) + Units(ps)
  }

  /** The packets of the `n` headers from `start` on. */
  ghost function Packets(hs: seq<Header>, start: nat, n: nat): (s: seq<Packet>)
    requires start < |hs| && n <= |hs|
    ensures |s| == n
  {
    seq(n, j requires 0 <= j < n => hs[Pos(|hs|, start, j)].packet)
  }

  /** Exactly the `n` headers from `start` on are done. */
  ghost predicate DoneRun(hs: seq<Header>, start: nat, n: nat)
    requires start < |hs|
  {
    forall j :: 0 <= j < |hs| ==> (hs[Pos(|hs|, start, j)].done <==> j < n)
  }

  class CompletionRing {
    const max: nat
    var headers: seq<Header>
    var swtail: nat
    var current: nat           // id of the current node
    var rxNodeCount: nat       // consumed nodes that are not given back yet
    ghost var owned: nat       // nodes with the firmware, done or not
    var pending: nat           // firmware's view: done headers that are not consumed
    ghost var completed: seq<Packet>
    ghost var delivered: seq<Packet>

    ghost predicate Valid() reads this {
      && |headers| == max && swtail < max && current == swtail
      && pending <= owned && owned + rxNodeCount == max && rxNodeCount < max
      && DoneRun(headers, swtail, pending)
      && completed == delivered + Packets(headers, swtail, pending)
    }

    /** All nodes are submitted when the ring is set up. */
    constructor (max: nat)
      requires 0 < max
      ensures Valid() && this.max == max && owned == max && completed == [] && delivered == []
    {
      this.max := max;
      headers := seq(max, _ => Header(false, Packet(0, 0)));
      swtail, current, rxNodeCount := 0, 0, 0;
      owned, pending, completed, delivered := max, 0, [], [];
    }

    /** The firmware completes its next node. */
    method Complete(p: Packet)
      requires Valid() && pending < owned
      modifies this`headers, this`pending, this`completed
      ensures Valid() && pending == old(pending) + 1 && completed == old(completed) + [p]
    {
      ghost var hs := headers;
      var at := Pos(max, swtail, pending);
      headers := headers[at := Header(true, p)];
      assert forall j :: 0 <= j < max && j != pending ==> Pos(max, swtail, j) != at;
      assert Packets(headers, swtail, pending + 1) == Packets(hs, swtail, pending) + [p];
      pending := pending + 1;
      completed := completed + [p];
    }

    /** The header behind the last one is never done: the memory there was filled with 0x6a. */
    function DoneAt(k: nat): bool
      requires |headers| == max
      reads this
    {
      k < max && headers[k].done
    }

    /** Consumes the header at the tail. */
    method ConsumeOne()
      requires Valid() && pending > 0
      modifies this`headers, this`swtail, this`current, this`rxNodeCount, this`owned, this`pending, this`delivered
      ensures Valid() && swtail == Pos(max, old(swtail), 1) && pending == old(pending) - 1
      ensures delivered == old(delivered) + [old(headers[swtail]).packet]
    {
      hide DoneRun;
      hide Packets;
      ghost var hs, t := headers, swtail;
      var packet := headers[swtail].packet;
      var hdr := swtail;
      swtail := if swtail + 1 == max then 0 else swtail + 1;
      delivered := delivered + [packet];
      rxNodeCount := rxNodeCount + 1;
      owned := owned - 1;
      if rxNodeCount == max {
        rxNodeCount := 0;
        owned := owned + max;  // the whole ring goes back to the firmware
      }
      headers := headers[hdr := Header(false, headers[hdr].packet)];
      current := if current == max - 1 then 0 else current + 1;
      pending := pending - 1;
      ConsumedHeaders(hs, headers, t, pending + 1);
    }

    /** Consumes done headers while the quota lasts, up to the end of the ring. Packets come out in the order in which
        the firmware completed them, each exactly once. */
    method Poll(quota: nat) returns (count: nat, left: nat)
      requires Valid()
      modifies this`headers, this`swtail, this`current, this`rxNodeCount, this`owned, this`pending, this`delivered
      ensures Valid() && completed == old(completed)
      ensures old(delivered) <= delivered <= completed
      ensures var got := delivered[|old(delivered)|..];
              && count == Units(got) && left == (if Charged(got) <= quota then quota - Charged(got) else 0)
              && (|got| > 0 ==> Charged(got[..|got| - 1]) < quota)
              && pending == old(pending) - |got| && |got| <= max - old(swtail) && swtail == Pos(max, old(swtail), |got|)
      ensures pending > 0 && swtail != 0 ==> left == 0
      ensures quota > 0 && old(pending) > 0 ==> |delivered| > |old(delivered)|
    {
      count, left := 0, quota;
      var hdr := swtail;
      ghost var n := |delivered|;
      assert delivered[n..] == [];
      while DoneAt(hdr) && left > 0
        invariant Valid() && (hdr == swtail || (hdr == max && swtail == 0))
        invariant old(delivered) <= delivered && n == |old(delivered)|
        invariant count == Units(delivered[n..])
        invariant left == if Charged(delivered[n..]) <= quota then quota - Charged(delivered[n..]) else 0
        invariant |delivered| > n ==> Charged(delivered[n..][..|delivered| - n - 1]) < quota
        invariant pending == old(pending) - (|delivered| - n) && hdr == old(swtail) + (|delivered| - n) <= max
        decreases pending
      {
        assert Pos(max, swtail, 0) == swtail;
        count := count + headers[hdr].packet.len / 8;
        left := if left >= count then left - count else 0;
        ghost var before := delivered;
        ConsumeOne();
        assert delivered[n..] == before[n..] + [delivered[|delivered| - 1]];
        assert delivered[n..][..|delivered| - n - 1] == before[n..];
        hdr := hdr + 1;
      }
      assert Pos(max, swtail, 0) == swtail;
    }

    /** Setting the data channel up again submits what was consumed so far. */
    method Resubmit()
      requires Valid()
      modifies this`rxNodeCount, this`owned
      ensures Valid() && rxNodeCount == 0 && owned == max
    {
      owned := owned + rxNodeCount;
      rxNodeCount := 0;
    }
  }

  /** Clearing the header at the tail and moving on leaves one pending header less. */
  lemma {:induction false} ConsumedHeaders(hs: seq<Header>, hs': seq<Header>, t: nat, n: nat)
    requires |hs| == |hs'| > t && 0 < n <= |hs|
    requires hs' == hs[t := Header(false, hs[t].packet)]
    requires DoneRun(hs, t, n)
    ensures var t' := Pos(|hs|, t, 1);
            && DoneRun(hs', t', n - 1)
            && Packets(hs, t, n) == [hs[t].packet] + Packets(hs', t', n - 1)
  {
    var max := |hs|;
    var t' := Pos(max, t, 1);
    forall j | 0 <= j < max ensures hs'[Pos(max, t', j)].done <==> j < n - 1 {
      if j == max - 1 {
        assert Pos(max, t', j) == t;
      } else {
        assert Pos(max, t', j) == Pos(max, t, j + 1) != t;
      }
    }
    assert Pos(max, t, 0) == t;
    assert forall j :: 0 <= j < n - 1 ==> Pos(max, t', j) == Pos(max, t, j + 1) != t;
  }
}
