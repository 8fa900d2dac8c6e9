/** Addresses of non-transmitted BSSs (skw_mbssid.c, skw_util.h; section 9.4.2.45 of IEEE Std 802.11-2020): the
    index is added to the low bits of the reference address, which wrap around; the other bits are kept. Bytes and words
    are the machine's own. */
module BssidAddress {
  import opened Words

  // ----- bytes and words

  /** The word a byte string stands for, most significant byte first. */
  function Value(mac: seq<bv8>): bv64
    decreases |mac|
  {
    if mac == [] then 0 else JoinByte(Value(mac[..|mac| - 1]), mac[|mac| - 1])
  }

  /** The last `k` bytes of a word. */
  function TailBytes(u: bv64, k: nat): (m: seq<bv8>)
    ensures |m| == k
  {
    if k == 0 then [] else TailBytes(Shift8(u), k - 1) + [LastByte(u)]
  }

  /** The mask of `k` bytes. */
  function ByteMask(k: nat): (m: bv64)
    requires k <= 6
    ensures Short(m)
  {
    if k == 0 then 0 else if k == 1 then 0xff else if k == 2 then 0xffff else if k == 3 then 0xff_ffff
    else if k == 4 then 0xffff_ffff else if k == 5 then 0xff_ffff_ffff else 0xffff_ffff_ffff
  }

  lemma {:induction false} ByteMaskNext(k: nat)
    requires 0 < k <= 6
    ensures NextMask(ByteMask(k - 1), ByteMask(k))
  {
  }

  lemma {:induction false} ValueNext(mac: seq<bv8>, x: bv8)
    ensures Value(mac + [x]) == JoinByte(Value(mac), x)
  {
    hide JoinByte;
    assert (mac + [x])[..|mac|] == mac;
  }

  /** The bytes of a word stand for its low bits. */
  lemma {:induction false} ValueOfTail(u: bv64, k: nat)
    requires k <= 6
    ensures Value(TailBytes(u, k)) == Low(u, ByteMask(k))
  {
    if k == 0 {
      NoTail(u);
    } else {
      hide JoinByte;
      hide LastByte;
      hide Shift8;
      hide Low;
      hide NextMask;
      hide ByteMask;
      ByteMaskNext(k);
      JoinByteLast(u, ByteMask(k - 1), ByteMask(k));
      ValueOfTail(Shift8(u), k - 1);
      ValueNext(TailBytes(Shift8(u), k - 1), LastByte(u));
    }
  }

  lemma {:induction false} NoTail(u: bv64)
    ensures Value([]) == Low(u, ByteMask(0)) && InMask(Value([]), ByteMask(0))
  {
  }

  lemma {:induction false} ValueFits(mac: seq<bv8>)
    requires |mac| <= 6
    ensures InMask(Value(mac), ByteMask(|mac|))
    decreases |mac|
  {
    hide JoinByte;
    hide ByteMask;
    hide NextMask;
    hide InMask;
    if mac == [] {
      NoTail(0);
    } else {
      var n := |mac| - 1;
      ValueFits(mac[..n]);
      ByteMaskNext(|mac|);
      JoinByteFits(Value(mac[..n]), mac[n], ByteMask(n), ByteMask(n + 1));
    }
  }

  /** Two addresses that stand for the same word are equal. */
  lemma {:induction false} ValueInjective(a: seq<bv8>, b: seq<bv8>)
    requires |a| == |b| <= 6 && Value(a) == Value(b)
    ensures a == b
    decreases |a|
  {
    hide JoinByte;
    hide ByteMask;
    hide InMask;
    hide Short;
    if a != [] {
      var n := |a| - 1;
      ValueFits(a[..n]);
      ValueFits(b[..n]);
      JoinByteApart(Value(a[..n]), a[n], Value(b[..n]), b[n], ByteMask(n));
      ValueInjective(a[..n], b[..n]);
      assert a == a[..n] + [a[n]] && b == b[..n] + [b[n]];
    }
  }

  method MacToU64(addr: seq<bv8>) returns (u: bv64)
    requires |addr| == 6
    ensures u == Value(addr) && InMask(u, ByteMask(6))
  {
    u := 0;
    hide JoinByte;
    hide ByteMask;
    hide InMask;
    assert addr[..0] == [];
    for i := 0 to 6
      invariant u == Value(addr[..i])
    {
      assert addr[..i + 1] == addr[..i] + [addr[i]];
      ValueNext(addr[..i], addr[i]);
      u := JoinByte(u, addr[i]);
    }
    assert addr[..6] == addr;
    ValueFits(addr);
  }

  /** Writes the low 48 bits of a word, whatever is above them. */
  method U64ToMac(u: bv64, addr: array<bv8>)
    requires addr.Length == 6
    modifies addr
    ensures Value(addr[..]) == Low(u, ByteMask(6))
  {
    hide LastByte;
    hide Shift8;
    hide Value;
    hide Low;
    hide ByteMask;
    var v := u;
    var i := 5;
    assert addr[6..] == [];
    while i >= 0
      invariant -1 <= i <= 5
      invariant TailBytes(u, 6) == TailBytes(v, i + 1) + addr[i + 1..]
    {
      ghost var tail := addr[i + 1..];
      addr[i] := LastByte(v);
      assert addr[i..] == [LastByte(v)] + tail;
      v := Shift8(v);
      i := i - 1;
    }
    assert addr[0..] == addr[..] && addr[..] == TailBytes(u, 6);
    ValueOfTail(u, 6);
  }

  // ----- the derived address

  /** SKW_GENMASK_ULL. */
  function GenMask(h: bv8, l: bv8): bv64
    requires l <= h < 64
  {
    (0xFFFF_FFFF_FFFF_FFFF - (1 << l) + 1) & (0xFFFF_FFFF_FFFF_FFFF >> (63 - h))
  }

  lemma {:induction false} GenMaskIs(n: bv8)
    requires 1 <= n <= 48
    ensures AllOnes(n, GenMask(n - 1, 0))
  {
    MaskOf(n);
    assert 63 - (n - 1) == 64 - n;
  }

  /** Derives the address of the BSS with the given index: the upper 48 - n bits are those of the reference, the lower `n`
      those of its sum with the index. */
  method GenNewBssid(bssid: seq<bv8>, n: bv8, index: bv8, newBssid: array<bv8>)
    requires |bssid| == 6 && newBssid.Length == 6 && 1 <= n <= 48
    modifies newBssid
    ensures var mask := GenMask(n - 1, 0);
      && Value(newBssid[..]) == Mix(Value(bssid), mask, index as bv64)
      && Shr(Value(newBssid[..]), n) == Shr(Value(bssid), n)
      && Low(Value(newBssid[..]), mask) == Low(Sum(Value(bssid), index as bv64), mask)
  {
    hide Value;
    hide GenMask;
    hide Shr;
    hide Low;
    hide Sum;
    hide Mix;
    hide ByteMask;
    hide InMask;
    var b := MacToU64(bssid);
    var mask := GenMask(n - 1, 0);
    var addr := Assigned(b, mask, index as bv64);
    AddressFits(b, n, index as bv64);
    AddressMeaning(b, n, index as bv64);
    U64ToMac(addr, newBssid);
  }

  /** The two assignments to the new word. */
  method Assigned(b: bv64, mask: bv64, index: bv64) returns (addr: bv64)
    ensures addr == Mix(b, mask, index)
  {
    addr := High(b, mask);
    addr := Or(addr, Low(Sum(Low(b, mask), index), mask));
  }

  lemma {:induction false} AddressFits(b: bv64, n: bv8, index: bv64)
    requires InMask(b, ByteMask(6)) && 1 <= n <= 48
    ensures var v := Mix(b, GenMask(n - 1, 0), index); Low(v, ByteMask(6)) == v
  {
    hide GenMask;
    hide Mix;
    hide Low;
    hide AllOnes;
    hide IsMask;
    hide InMask;
    GenMaskIs(n);
    AllOnesIsMask(n, GenMask(n - 1, 0));
    MixFits(b, index, GenMask(n - 1, 0), ByteMask(6));
  }

  /** The upper bits are those of the reference, the lower `n` bits those of its sum with the index. */
  lemma {:induction false} AddressMeaning(b: bv64, n: bv8, index: bv64)
    requires 1 <= n <= 48
    ensures var mask := GenMask(n - 1, 0); var v := Mix(b, mask, index);
      Shr(v, n) == Shr(b, n) && Low(v, mask) == Low(Sum(b, index), mask)
  {
    hide Shr;
    hide Low;
    hide Sum;
    hide GenMask;
    hide Mix;
    hide AllOnes;
    hide High;
    hide InMask;
    hide IsMask;
    var m := GenMask(n - 1, 0);
    GenMaskIs(n);
    AllOnesIsMask(n, m);
    MixMeaning(b, index, m);
    SameShifted(Mix(b, m, index), b, m, n);
  }

  /** Index 0 gives the reference back, and distinct indices below 2^n give distinct addresses. */
  lemma {:induction false} AddressesDiffer(b: bv64, n: bv8, i: bv64, j: bv64)
    requires 1 <= n <= 48 && i <= GenMask(n - 1, 0) && j <= GenMask(n - 1, 0)
    ensures var mask := GenMask(n - 1, 0);
      (Mix(b, mask, i) == Mix(b, mask, j) <==> i == j) && Mix(b, mask, 0) == b
  {
    hide Shr;
    hide Low;
    hide Sum;
    hide GenMask;
    hide Mix;
    hide AllOnes;
    hide IsMask;
    hide InMask;
    var m := GenMask(n - 1, 0);
    MixZero(b, m);
    AddressMeaning(b, n, i);
    AddressMeaning(b, n, j);
    GenMaskIs(n);
    AllOnesIsMask(n, m);
    if Mix(b, m, i) == Mix(b, m, j) { SameSummand(b, i, j, m); }
  }
}
