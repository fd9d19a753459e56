/** Order-preserving selection from a sequence, and the facts the models use about it. */
module Seqs {

  /** The elements of `s` that satisfy `keep`, in their original order. */
  function Filter<T>(s: seq<T>, keep: T -> bool): (r: seq<T>)
    ensures |r| <= |s|
    ensures forall i :: 0 <= i < |r| ==> keep(r[i])
  {
    if s == [] then []
    else
      var last := s[|s| - 1];
      Filter(s[..|s| - 1], keep) + (if keep(last) then [last] else [])
  }

  /** Concatenation regroups to the right. */
  lemma ConcatRight<T>(a: seq<T>, b: seq<T>, c: seq<T>, d: seq<T>)
    ensures a + b + c + d == a + (b + c + d)
  {
  }

  /** The first `|a|` elements of `a + b` are `a`. */
  lemma PrefixOfConcat<T>(a: seq<T>, b: seq<T>)
    ensures (a + b)[..|a|] == a
  {
  }

  /** A non-empty list is its last element after the others. */
  lemma InitLast<T>(s: seq<T>)
    requires s != []
    ensures s[..|s| - 1] + [s[|s| - 1]] == s
  {
  }

  /** An element of a non-empty list is its last one or one of the others. */
  lemma MemberInitLast<T>(s: seq<T>)
    requires s != []
    ensures forall q :: q in s <==> q in s[..|s| - 1] || q == s[|s| - 1]
  {
    InitLast(s);
  }

  /** A prefix one longer is the prefix followed by the next element. */
  lemma TakeOneMore<T>(s: seq<T>, i: nat)
    requires i < |s|
    ensures s[..i + 1] == s[..i] + [s[i]]
  {
  }

  lemma {:induction false} FilterAppend<T>(s: seq<T>, t: seq<T>, keep: T -> bool)
    ensures Filter(s + t, keep) == Filter(s, keep) + Filter(t, keep)
  {
    if t == [] {
      assert s + t == s;
    } else {
      var init := t[..|t| - 1];
      FilterAppend(s, init, keep);
      assert (s + t)[..|s + t| - 1] == s + init;
      assert (s + t)[|s + t| - 1] == t[|t| - 1];
    }
  }

  /** Selection keeps exactly the elements that satisfy `keep`. */
  lemma {:induction false} FilterMembers<T>(s: seq<T>, keep: T -> bool, v: T)
    ensures v in Filter(s, keep) <==> v in s && keep(v)
  {
    if s != [] {
      var init := s[..|s| - 1];
      FilterMembers(init, keep, v);
      assert s == init + [s[|s| - 1]];
    }
  }

  /** Selecting by `keep` and by its negation partitions the sequence. */
  lemma {:induction false} FilterPartition<T>(s: seq<T>, keep: T -> bool, drop: T -> bool)
    requires forall v :: drop(v) == !keep(v)
    ensures multiset(Filter(s, keep)) + multiset(Filter(s, drop)) == multiset(s)
    ensures |Filter(s, keep)| + |Filter(s, drop)| == |s|
  {
    if s != [] {
      var init := s[..|s| - 1];
      var last := s[|s| - 1];
      FilterPartition(init, keep, drop);
      assert s == init + [last];
      assert multiset(s) == multiset(init) + multiset{last};
      if keep(last) {
        assert Filter(s, keep) == Filter(init, keep) + [last];
        assert Filter(s, drop) == Filter(init, drop);
      } else {
        assert Filter(s, keep) == Filter(init, keep);
        assert Filter(s, drop) == Filter(init, drop) + [last];
      }
    }
  }

  /** Selecting from a sequence whose every element passes keeps it whole. */
  lemma {:induction false} FilterAll<T>(s: seq<T>, keep: T -> bool)
    requires forall i :: 0 <= i < |s| ==> keep(s[i])
    ensures Filter(s, keep) == s
  {
    if s != [] {
      var init := s[..|s| - 1];
      FilterAll(init, keep);
      InitLast(s);
    }
  }

  /** Selecting drops the one element that fails between two runs of elements that pass. */
  lemma FilterSkipOne<T>(before: seq<T>, x: T, after: seq<T>, keep: T -> bool)
    requires forall i :: 0 <= i < |before| ==> keep(before[i])
    requires !keep(x)
    requires forall i :: 0 <= i < |after| ==> keep(after[i])
    ensures Filter(before + [x] + after, keep) == before + after
  {
    FilterAll(before, keep);
    FilterAll(after, keep);
    FilterAppend(before + [x], after, keep);
    FilterAppend(before, [x], keep);
    assert Filter([x], keep) == [] by {
      assert [x][..0] == [];
    }
    assert Filter(before + [x], keep) == before;
  }

  /** Two tests that agree on every element select the same subsequence. */
  lemma {:induction false} FilterAgree<T>(s: seq<T>, keep: T -> bool, keep': T -> bool)
    requires forall v :: v in s ==> keep(v) == keep'(v)
    ensures Filter(s, keep) == Filter(s, keep')
  {
    if s != [] {
      var init := s[..|s| - 1];
      assert forall v :: v in init ==> v in s;
      FilterAgree(init, keep, keep');
    }
  }
}
