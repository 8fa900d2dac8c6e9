/** Splitting an oversize radio measurement report (skw_cfg80211.c): every fragment repeats the action header and carries
    whole elements. */
module RrmSplit {
  import opened Elements

  /** Management header, category, action code and dialog token. */
  const HEAD := 27
  const LIMIT := 1500

  function Size(es: seq<Elem>, a: nat, b: nat): int
    requires a <= |es| && b <= |es|
  {
    HEAD + Offset(es, b) - Offset(es, a)
  }

  /** The elements from `a` to `b` are at least one and make a fragment under the limit. */
  predicate FitsAt(es: seq<Elem>, a: nat, b: nat) { a < b <= |es| && Size(es, a, b) < LIMIT }

  /** One more element would not fit. */
  predicate FullAt(es: seq<Elem>, a: nat, b: nat) { a <= b < |es| ==> Size(es, a, b + 1) >= LIMIT }

  /** Cut points up to element `n`: fragment `i` carries the elements from `c[i]` to `c[i + 1]`. */
  predicate Cuts(es: seq<Elem>, c: seq<nat>, n: nat) {
    && |c| >= 1 && c[0] == 0 && c[|c| - 1] == n <= |es|
    && forall i :: 0 <= i < |c| - 1 ==> FitsAt(es, c[i], c[i + 1])
  }

  /** No fragment has room for the element after it. */
  predicate Greedy(es: seq<Elem>, c: seq<nat>) { forall i :: 0 <= i < |c| - 1 ==> FullAt(es, c[i], c[i + 1]) }

  function Fragment(frame: seq<Byte>, es: seq<Elem>, a: nat, b: nat): seq<Byte>
    requires |frame| >= HEAD
  {
    frame[..HEAD] + Serialize(if a <= b <= |es| then es[a..b] else [])
  }

  /** Every fragment is the header and its elements, whole and in order. */
  predicate SplitOf(frame: seq<Byte>, frags: seq<seq<Byte>>, es: seq<Elem>, c: seq<nat>)
    requires |frame| >= HEAD
  {
    && |frags| == |c| - 1
    && forall i :: 0 <= i < |frags| ==> frags[i] == Fragment(frame, es, c[i], c[i + 1])
  }

  /** The frame between two element boundaries. */
  lemma {:induction false} Slice(es: seq<Elem>, a: nat, b: nat)
    requires a <= b <= |es|
    ensures Offset(es, a) <= Offset(es, b) <= |Serialize(es)|
    ensures Serialize(es)[Offset(es, a)..Offset(es, b)] == Serialize(es[a..b])
  {
    hide Serialize;
    hide Offset;
    OffsetIsLength(es, a);
    OffsetIsLength(es, b);
    assert es[..b] == es[..a] + es[a..b];
    SerializeConcat(es[..a], es[a..b]);
    assert es == es[..b] + es[b..];
    SerializeConcat(es[..b], es[b..]);
  }

  lemma {:induction false} AddCut(es: seq<Elem>, c: seq<nat>, a: nat, b: nat)
    requires Cuts(es, c, a) && Greedy(es, c) && FitsAt(es, a, b) && FullAt(es, a, b)
    ensures Cuts(es, c + [b], b) && Greedy(es, c + [b])
  {
    hide Offset;
  }

  lemma {:induction false} AddFragment(frame: seq<Byte>, frags: seq<seq<Byte>>, es: seq<Elem>, c: seq<nat>, b: nat)
    requires |frame| >= HEAD && SplitOf(frame, frags, es, c)
    ensures SplitOf(frame, frags + [Fragment(frame, es, c[|c| - 1], b)], es, c + [b])
  {
    hide Fragment;
  }

  /** Splits the report. Every fragment is under the limit and starts with the header, the bodies are whole elements and
      make up the original body, and the elements are cut greedily. */
  method Split(frame: seq<Byte>) returns (frags: seq<seq<Byte>>)
    requires |frame| > HEAD && WellFormed(frame[HEAD..])
    ensures Bodies(frags) == frame[HEAD..]
    ensures forall i :: 0 <= i < |frags| ==> Proper(frame, frags[i])
    ensures var es := Parse(frame[HEAD..]);
      exists c :: Cuts(es, c, |es|) && Greedy(es, c) && SplitOf(frame, frags, es, c)
  {
    hide Serialize;
    hide Parse;
    hide WellFormed;
    hide Bytes;
    hide Cuts;
    hide Greedy;
    hide SplitOf;
    hide Bodies;
    hide Proper;
    ghost var body := frame[HEAD..];
    ghost var es := Parse(body);
    SerializeParse(body);
    NonEmpty(es);
    var elemLen, left, pos, next := 0, |frame| - HEAD, HEAD, HEAD;
    ghost var a: nat, k: nat := 0, 0;
    ghost var c: seq<nat> := [0];
    frags := [];
    NoCuts(frame, es);
    while left != 0
      invariant a <= k <= |es| && Cuts(es, c, a) && Greedy(es, c) && SplitOf(frame, frags, es, c)
      invariant if left == 0 then a == |es| else
        && k < |es| && left == |body| - Offset(es, k)
        && pos == HEAD + Offset(es, a) && next == pos + elemLen && elemLen == Offset(es, k) - Offset(es, a)
        && HEAD + elemLen < LIMIT
      decreases |es| - k, |es| - a
    {
      Locate(es, k);
      assert frame[next + 1] == body[next + 1 - HEAD];
      var nextLen := frame[next + 1] as int + 2;
      var txLen := elemLen + HEAD + nextLen;
      ghost var b := k;
      if txLen < LIMIT {
        elemLen := elemLen + nextLen;
        left := left - nextLen;
        b := k + 1;
        if left != 0 {
          next := next + nextLen;
          k := k + 1;
          continue;
        }
      }
      Emit(frame, frags, es, c, a, b);
      frags := frags + [frame[..HEAD] + frame[pos..pos + elemLen]];
      c := c + [b];
      pos := next;
      elemLen := 0;
      a, k := b, b;
    }
    ReportIsDelivered(frame, frags, es, c);
  }

  lemma {:induction false} NoCuts(frame: seq<Byte>, es: seq<Elem>)
    requires |frame| >= HEAD
    ensures Cuts(es, [0], 0) && Greedy(es, [0]) && SplitOf(frame, [], es, [0])
  {
  }

  /** Sending what lies between two boundaries adds one cut and its fragment. */
  lemma {:induction false} Emit(frame: seq<Byte>, frags: seq<seq<Byte>>, es: seq<Elem>, c: seq<nat>, a: nat, b: nat)
    requires |frame| >= HEAD && frame[HEAD..] == Serialize(es)
    requires Cuts(es, c, a) && Greedy(es, c) && SplitOf(frame, frags, es, c) && FitsAt(es, a, b) && FullAt(es, a, b)
    ensures Cuts(es, c + [b], b) && Greedy(es, c + [b])
    ensures var from, to := HEAD + Offset(es, a), HEAD + Offset(es, b);
      from <= to <= |frame| && SplitOf(frame, frags + [frame[..HEAD] + frame[from..to]], es, c + [b])
  {
    hide Serialize;
    hide Offset;
    AddCut(es, c, a, b);
    AddFragment(frame, frags, es, c, b);
    Slice(es, a, b);
    FrameSlice(frame, Offset(es, a), Offset(es, b));
  }

  lemma {:induction false} FrameSlice(frame: seq<Byte>, a: nat, b: nat)
    requires |frame| >= HEAD && a <= b <= |frame| - HEAD
    ensures frame[HEAD..][a..b] == frame[HEAD + a..HEAD + b]
  {
  }

  // ----- what the cuts mean for the receiver

  /** The bodies of the fragments, one after the other. */
  function Bodies(frags: seq<seq<Byte>>): seq<Byte> {
    if frags == [] then [] else
      var last := frags[|frags| - 1];
      Bodies(frags[..|frags| - 1]) + (if |last| >= HEAD then last[HEAD..] else [])
  }

  /** However the frame is cut, the bodies are the original body and every fragment starts with the header. */
  lemma {:induction false} BodiesConcatenate(frame: seq<Byte>, frags: seq<seq<Byte>>, es: seq<Elem>, c: seq<nat>, n: nat)
    requires |frame| >= HEAD && Cuts(es, c, n) && SplitOf(frame, frags, es, c)
    ensures Bodies(frags) == Serialize(es[..n])
    decreases |c|
  {
    hide Serialize;
    hide Offset;
    if |c| > 1 {
      var m := |c| - 1;
      var k, last := c[m - 1], frags[m - 1];
      assert FitsAt(es, k, c[m - 1 + 1]);
      FewerCuts(frame, frags, es, c, n);
      BodiesConcatenate(frame, frags[..m - 1], es, c[..m], k);
      assert es[..n] == es[..k] + es[k..n];
      SerializeConcat(es[..k], es[k..n]);
      assert last == Fragment(frame, es, k, n);
      assert last[HEAD..] == Serialize(es[k..n]);
    } else {
      NonEmpty(es[..n]);
    }
  }

  lemma {:induction false} FewerCuts(frame: seq<Byte>, frags: seq<seq<Byte>>, es: seq<Elem>, c: seq<nat>, n: nat)
    requires |frame| >= HEAD && Cuts(es, c, n) && SplitOf(frame, frags, es, c) && |c| > 1
    ensures Cuts(es, c[..|c| - 1], c[|c| - 2]) && SplitOf(frame, frags[..|frags| - 1], es, c[..|c| - 1])
  {
    hide Fragment;
    hide Offset;
    var m := |c| - 1;
    assert FitsAt(es, c[m - 1], c[m - 1 + 1]);
    forall i | 0 <= i < m - 1 ensures FitsAt(es, c[..m][i], c[..m][i + 1]) { assert FitsAt(es, c[i], c[i + 1]); }
    forall i | 0 <= i < m - 1 ensures frags[..m - 1][i] == Fragment(frame, es, c[..m][i], c[..m][i + 1]) {
      assert frags[i] == Fragment(frame, es, c[i], c[i + 1]);
    }
  }

  predicate Proper(frame: seq<Byte>, f: seq<Byte>)
    requires |frame| >= HEAD
  {
    HEAD < |f| < LIMIT && f[..HEAD] == frame[..HEAD] && WellFormed(f[HEAD..])
  }

  /** What the receiver gets: every fragment under the limit with the header in front, the bodies making up the report. */
  lemma {:induction false} ReportIsDelivered(frame: seq<Byte>, frags: seq<seq<Byte>>, es: seq<Elem>, c: seq<nat>)
    requires |frame| >= HEAD && frame[HEAD..] == Serialize(es) && Cuts(es, c, |es|) && SplitOf(frame, frags, es, c)
    ensures Bodies(frags) == frame[HEAD..]
    ensures forall i :: 0 <= i < |frags| ==> Proper(frame, frags[i])
  {
    hide Serialize;
    hide WellFormed;
    BodiesConcatenate(frame, frags, es, c, |es|);
    assert es[..|es|] == es;
    forall i | 0 <= i < |frags| ensures Proper(frame, frags[i]) { FragmentShape(frame, es, c[i], c[i + 1]); }
  }

  lemma {:induction false} FragmentShape(frame: seq<Byte>, es: seq<Elem>, a: nat, b: nat)
    requires |frame| >= HEAD && FitsAt(es, a, b)
    ensures Proper(frame, Fragment(frame, es, a, b))
  {
    hide Serialize;
    hide WellFormed;
    Slice(es, a, b);
    ParseSerialize(es[a..b]);
    NonEmpty(es[a..b]);
    assert Fragment(frame, es, a, b)[HEAD..] == Serialize(es[a..b]);
  }

  // ----- no way of cutting needs fewer fragments

  /** From a cut no further on, a fragment that fits ends no further on than a full one. */
  lemma {:induction false} FullEndsLater(es: seq<Elem>, a: nat, b: nat, a': nat, b': nat)
    requires FitsAt(es, a, b) && FullAt(es, a, b) && FitsAt(es, a', b') && a' <= a
    ensures b' <= b
  {
    hide Offset;
    OffsetMonotone(es, a', a);
    if b < b' { OffsetMonotone(es, b + 1, b'); }
  }

  /** After `i` fragments the greedy cut is at least as far as any other. */
  lemma {:induction false} GreedyStaysAhead(es: seq<Elem>, c: seq<nat>, d: seq<nat>, i: nat)
    requires Cuts(es, c, |es|) && Greedy(es, c) && Cuts(es, d, |es|) && i < |c| && i < |d|
    ensures d[i] <= c[i]
  {
    hide FitsAt;
    hide FullAt;
    if i > 0 {
      var j := i - 1;
      GreedyStaysAhead(es, c, d, j);
      FullEndsLater(es, c[j], c[j + 1], d[j], d[j + 1]);
    }
  }

  /** The source's fragments are as few as possible. */
  lemma {:induction false} FewestFragments(es: seq<Elem>, c: seq<nat>, d: seq<nat>)
    requires Cuts(es, c, |es|) && Greedy(es, c) && Cuts(es, d, |es|)
    ensures |c| <= |d|
  {
    hide Offset;
    var i := |d| - 1;
    if |d| < |c| {
      GreedyStaysAhead(es, c, d, i);
      PastEnd(es, c, i);
      assert false;
    }
  }

  lemma {:induction false} PastEnd(es: seq<Elem>, c: seq<nat>, i: nat)
    requires Cuts(es, c, |es|) && i < |c| - 1
    ensures c[i] < |es|
  {
    hide Offset;
    assert FitsAt(es, c[i], c[i + 1]);
  }
}
