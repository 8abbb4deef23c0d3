/** `Array.prototype.filter` and the facts about it that the handlers rely on. */
module Seqs {

  function Filter<T(!new)>(s: seq<T>, p: T -> bool): (r: seq<T>)
    ensures |r| <= |s|
    ensures forall x :: x in r <==> x in s && p(x)
  {
    if s == [] then []
    else (if p(s[0]) then [s[0]] else []) + Filter(s[1..], p)
  }

  /** Filtering distributes over concatenation, so kept elements keep their relative order. */
  lemma {:induction false} FilterConcat<T(!new)>(a: seq<T>, b: seq<T>, p: T -> bool)
    ensures Filter(a + b, p) == Filter(a, p) + Filter(b, p)
  {
    if a == [] {
      assert a + b == b;
    } else {
      assert (a + b)[0] == a[0];
      assert (a + b)[1..] == a[1..] + b;
      FilterConcat(a[1..], b, p);
    }
  }

  /** A sequence whose every element passes the test is left unchanged. */
  lemma {:induction false} FilterKeepsAll<T(!new)>(s: seq<T>, p: T -> bool)
    requires forall k :: 0 <= k < |s| ==> p(s[k])
    ensures Filter(s, p) == s
  {
    if s != [] {
      FilterKeepsAll(s[1..], p);
    }
  }

  /** Filtering twice with the same test is filtering once. */
  lemma {:induction false} FilterIdempotent<T(!new)>(s: seq<T>, p: T -> bool)
    ensures Filter(Filter(s, p), p) == Filter(s, p)
  {
    var r := Filter(s, p);
    forall k | 0 <= k < |r| ensures p(r[k]) {
      assert r[k] in r;
    }
    FilterKeepsAll(r, p);
  }

  /** The part at position three of a five-part concatenation. */
  lemma Middle<T>(a: seq<T>, b: seq<T>, c: seq<T>, d: seq<T>, e: seq<T>)
    ensures (a + (b + c + d) + e)[|a| + |b|..|a| + |b| + |c|] == c
  {
    assert a + (b + c + d) + e == (a + b) + c + (d + e);
  }

  /** Appending three parts one after another is appending their concatenation. */
  lemma AppendThree<T>(a: seq<T>, b: seq<T>, c: seq<T>, d: seq<T>)
    ensures a + (b + c + d) == a + b + c + d
  {
  }

  /** An element of a slice is the element at the shifted index. */
  lemma SliceAt<T>(s: seq<T>, lo: nat, hi: nat, j: nat)
    requires lo <= hi <= |s| && j < hi - lo
    ensures s[lo..hi][j] == s[lo + j]
  {
  }

  /** The prefix and suffix of a concatenation. */
  lemma Ends<T>(a: seq<T>, b: seq<T>, c: seq<T>)
    ensures a <= a + b + c
    ensures (a + b + c)[|a + b|..] == c
  {
  }

  /** The parts joined end to end, in order. */
  function Concat<T>(parts: seq<seq<T>>): seq<T>
    decreases |parts|
  {
    if parts == [] then [] else Concat(parts[..|parts| - 1]) + parts[|parts| - 1]
  }

  /** One part more at the end adds its elements at the end. */
  lemma ConcatSnoc<T>(parts: seq<seq<T>>, x: seq<T>)
    ensures Concat(parts + [x]) == Concat(parts) + x
  {
    assert (parts + [x])[..|parts|] == parts;
  }

  /** Concatenating two lists of parts is concatenating their concatenations. */
  lemma {:induction false} ConcatAppend<T>(a: seq<seq<T>>, b: seq<seq<T>>)
    ensures Concat(a + b) == Concat(a) + Concat(b)
    decreases |b|
  {
    if b == [] {
      assert a + b == a;
    } else {
      var b', x := b[..|b| - 1], b[|b| - 1];
      assert b == b' + [x];
      assert a + b == (a + b') + [x];
      ConcatAppend(a, b');
      ConcatSnoc(a + b', x);
      ConcatSnoc(b', x);
    }
  }

  /** The concatenation of a longer prefix: one part more at the end. */
  lemma ConcatPrefix<T>(parts: seq<seq<T>>, k: nat)
    requires k < |parts|
    ensures Concat(parts[..k + 1]) == Concat(parts[..k]) + parts[k]
  {
    assert parts[..k + 1][..k] == parts[..k];
  }


  /** Part `k`, framed by `pre` and `post`, sits right after the parts before it. */
  lemma ConcatAt<T>(pre: seq<T>, parts: seq<seq<T>>, post: seq<T>, k: nat)
    requires k < |parts|
    ensures |pre| + |Concat(parts[..k])| + |parts[k]| == |pre| + |Concat(parts[..k + 1])|
    ensures |pre| + |Concat(parts[..k + 1])| <= |pre| + |Concat(parts)|
    ensures (pre + Concat(parts) + post)[|pre| + |Concat(parts[..k])|..|pre| + |Concat(parts[..k + 1])|] == parts[k]
  {
    ConcatPrefix(parts, k);
    ConcatAppend(parts[..k + 1], parts[k + 1..]);
    assert parts[..k + 1] + parts[k + 1..] == parts;
    Middle(pre, Concat(parts[..k]), parts[k], Concat(parts[k + 1..]), post);
  }

  /** The concatenation is empty exactly when every part is. */
  lemma {:induction false} ConcatEmptyIff<T>(parts: seq<seq<T>>)
    ensures Concat(parts) == [] <==> forall i :: 0 <= i < |parts| ==> parts[i] == []
    decreases |parts|
  {
    if parts != [] {
      var init, last := parts[..|parts| - 1], parts[|parts| - 1];
      ConcatEmptyIff(init);
      assert |Concat(parts)| == |Concat(init)| + |last|;
      if Concat(parts) == [] {
        forall i | 0 <= i < |parts| ensures parts[i] == [] {
          if i < |init| {
            assert parts[i] == init[i];
          }
        }
      } else if Concat(init) != [] {
        var i :| 0 <= i < |init| && init[i] != [];
        assert parts[i] == init[i];
      }
    }
  }

  /** An element of the concatenation is an element of some part. */
  lemma {:induction false} ConcatIn<T>(parts: seq<seq<T>>, x: T)
    ensures x in Concat(parts) <==> exists i :: 0 <= i < |parts| && x in parts[i]
    decreases |parts|
  {
    if parts != [] {
      var init, last := parts[..|parts| - 1], parts[|parts| - 1];
      ConcatIn(init, x);
      assert Concat(parts) == Concat(init) + last;
      if x in Concat(init) {
        var i :| 0 <= i < |init| && x in init[i];
        assert parts[i] == init[i];
      }
      if exists i :: 0 <= i < |parts| && x in parts[i] {
        var i :| 0 <= i < |parts| && x in parts[i];
        if i < |init| {
          assert parts[i] == init[i];
        }
      }
    }
  }
}
