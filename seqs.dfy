/** Sequence combinators matching the JavaScript array methods the store uses:
    `filter` (keep in order) and `map` with an id test (replace some, keep the rest). */
module Seqs {

  /** `r` occurs in `s` in the same order, possibly with gaps. */
  predicate IsSubsequence<T(==)>(r: seq<T>, s: seq<T>)
    decreases |s|
  {
    if r == [] then true
    else if s == [] then false
    else if r[0] == s[0] then IsSubsequence(r[1..], s[1..])
    else IsSubsequence(r, s[1..])
  }

  /** `Array.prototype.filter`: the elements of `s` that satisfy `p`, in their order. */
  function Filter<T(==,!new)>(s: seq<T>, p: T -> bool): (r: seq<T>)
    ensures |r| <= |s|
    ensures forall i :: 0 <= i < |r| ==> r[i] in s && p(r[i])
    ensures forall i :: 0 <= i < |s| && p(s[i]) ==> s[i] in r
    ensures forall x :: multiset(r)[x] == if p(x) then multiset(s)[x] else 0
    ensures IsSubsequence(r, s)
  {
    if s == [] then []
    else
      assert s == [s[0]] + s[1..];
      if p(s[0]) then [s[0]] + Filter(s[1..], p)
      else Filter(s[1..], p)
  }

  /** A filter whose test every element passes keeps the whole sequence. */
  lemma {:induction false} FilterKeepsAll<T(!new)>(s: seq<T>, p: T -> bool)
    requires forall i :: 0 <= i < |s| ==> p(s[i])
    ensures Filter(s, p) == s
  {
    if s != [] {
      FilterKeepsAll(s[1..], p);
    }
  }

  /** Filtering a sequence extended at the end extends the filtered sequence by that element when it
      passes the test. */
  lemma {:induction false} FilterSnoc<T(!new)>(s: seq<T>, x: T, p: T -> bool)
    ensures Filter(s + [x], p) == Filter(s, p) + (if p(x) then [x] else [])
  {
    var t := s + [x];
    if s == [] {
      assert t == [x];
      assert t[1..] == [];
      assert Filter(t[1..], p) == [];
      assert Filter(t, p) == (if p(x) then [x] else []);
    } else {
      var u := s[1..] + [x];
      assert t == [s[0]] + u;
      assert t[0] == s[0];
      assert t[1..] == u;
      FilterSnoc(s[1..], x, p);
      var q := if p(x) then [x] else [];
      assert Filter(u, p) == Filter(s[1..], p) + q;
      if p(s[0]) {
        var a := Filter(s[1..], p);
        assert Filter(t, p) == [s[0]] + (a + q);
        assert Filter(s, p) == [s[0]] + a;
        SeqAssoc([s[0]], a, q);
      } else {
        assert Filter(t, p) == Filter(u, p);
        assert Filter(s, p) == Filter(s[1..], p);
      }
    }
  }

  /** A non-empty sequence is its prefix followed by its last element. */
  lemma SplitLast<T>(s: seq<T>)
    requires s != []
    ensures s == s[..|s| - 1] + [s[|s| - 1]]
  {
  }

  /** Concatenation is associative; stated apart so that the proof above need not find it among
      the many facts `Filter`'s contract supplies. */
  lemma SeqAssoc<T>(a: seq<T>, b: seq<T>, c: seq<T>)
    ensures a + (b + c) == (a + b) + c
  {
  }

  /** `s.map(x => m(x) ? f(x) : x)`: every element that `m` selects is replaced by `f` of it;
      the others stay as they are, and the length and the order are kept. */
  function MapWhere<T>(s: seq<T>, m: T -> bool, f: T -> T): (r: seq<T>)
    ensures |r| == |s|
    ensures forall i :: 0 <= i < |s| ==> r[i] == if m(s[i]) then f(s[i]) else s[i]
  {
    if s == [] then []
    else [if m(s[0]) then f(s[0]) else s[0]] + MapWhere(s[1..], m, f)
  }

  /** A replacement that selects nothing leaves the sequence unchanged. */
  lemma MapWhereNoMatch<T>(s: seq<T>, m: T -> bool, f: T -> T)
    requires forall i :: 0 <= i < |s| ==> !m(s[i])
    ensures MapWhere(s, m, f) == s
  {
    var r := MapWhere(s, m, f);
    assert forall i :: 0 <= i < |s| ==> r[i] == s[i];
  }
}
