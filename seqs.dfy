/** Generic sequence combinators shared by the transcoders and the scoring engine:
    a filter-and-convert scan over rows, the count of kept rows, and a plain map. */
module Seqs {

  /** The elements of `s` that satisfy `keep`, each converted by `f`, in their
      original order. Defined on the last element so that a loop appending to
      an accumulator has the invariant `acc == Select(s[..i], keep, f)`. */
  function Select<R, T>(s: seq<R>, keep: R -> bool, f: R -> T): seq<T>
  {
    if s == [] then []
    else Select(s[..|s| - 1], keep, f) + (if keep(s[|s| - 1]) then [f(s[|s| - 1])] else [])
  }

  /** How many elements of `s` satisfy `keep`. */
  function CountKept<R>(s: seq<R>, keep: R -> bool): (n: nat)
    ensures n <= |s|
    ensures n == |s| <==> forall i :: 0 <= i < |s| ==> keep(s[i])
  {
    if s == [] then 0
    else CountKept(s[..|s| - 1], keep) + (if keep(s[|s| - 1]) then 1 else 0)
  }

  /** Every element of `s` converted by `f`. */
  function Map<R, T>(s: seq<R>, f: R -> T): seq<T>
  {
    seq(|s|, i requires 0 <= i < |s| => f(s[i]))
  }

  /** Extending the input by one element extends Select by that element when it is kept. */
  lemma SelectSnoc<R, T>(s: seq<R>, keep: R -> bool, f: R -> T, i: nat)
    requires i < |s|
    ensures Select(s[..i + 1], keep, f) == Select(s[..i], keep, f) + (if keep(s[i]) then [f(s[i])] else [])
  {
    assert s[..i + 1][..i] == s[..i];
  }

  /** Select yields one element per kept element of its input. */
  lemma {:induction false} SelectLength<R, T>(s: seq<R>, keep: R -> bool, f: R -> T)
    ensures |Select(s, keep, f)| == CountKept(s, keep)
  {
    if s != [] {
      SelectLength(s[..|s| - 1], keep, f);
    }
  }

  /** A kept element at index j is counted after every kept element before it. */
  lemma {:induction false} CountKeptGrows<R>(s: seq<R>, keep: R -> bool, i: nat, j: nat)
    requires i < j <= |s| && keep(s[i])
    ensures CountKept(s[..i], keep) < CountKept(s[..j], keep)
  {
    if j == i + 1 {
      assert s[..j][..i] == s[..i];
    } else {
      CountKeptGrows(s, keep, i, j - 1);
      assert s[..j][..j - 1] == s[..j - 1];
    }
  }

  /** The kept element at index i lands at position CountKept(s[..i]) of the result. */
  lemma {:induction false} SelectAt<R, T>(s: seq<R>, keep: R -> bool, f: R -> T, i: nat)
    requires i < |s| && keep(s[i])
    ensures CountKept(s[..i], keep) < |Select(s, keep, f)|
    ensures Select(s, keep, f)[CountKept(s[..i], keep)] == f(s[i])
  {
    var init := s[..|s| - 1];
    SelectLength(init, keep, f);
    SelectLength(s, keep, f);
    if i == |s| - 1 {
      assert init == s[..i];
    } else {
      assert init[..i] == s[..i];
      SelectAt(init, keep, f, i);
    }
  }

  /** Every element of the result comes from a kept element, at the position SelectAt gives it. */
  lemma {:induction false} SelectFrom<R, T>(s: seq<R>, keep: R -> bool, f: R -> T, j: nat)
    requires j < |Select(s, keep, f)|
    ensures exists i :: 0 <= i < |s| && keep(s[i]) && CountKept(s[..i], keep) == j && Select(s, keep, f)[j] == f(s[i])
  {
    var init := s[..|s| - 1];
    SelectLength(init, keep, f);
    if j < |Select(init, keep, f)| {
      SelectFrom(init, keep, f, j);
      var i :| 0 <= i < |init| && keep(init[i]) && CountKept(init[..i], keep) == j && Select(init, keep, f)[j] == f(init[i]);
      assert init[..i] == s[..i];
    } else {
      assert init == s[..|s| - 1];
    }
  }

  /** When exactly the first m elements are kept, Select is the map of f over them. */
  lemma {:induction false} SelectKeptPrefix<R, T>(s: seq<R>, keep: R -> bool, f: R -> T, m: nat)
    requires m <= |s|
    requires forall i :: 0 <= i < m ==> keep(s[i])
    requires forall i :: m <= i < |s| ==> !keep(s[i])
    ensures Select(s, keep, f) == Map(s[..m], f)
  {
    if s != [] {
      var init := s[..|s| - 1];
      if m == |s| {
        SelectKeptPrefix(init, keep, f, m - 1);
        assert init[..m - 1] == init;
        assert s[..m] == s;
      } else {
        SelectKeptPrefix(init, keep, f, m);
        assert init[..m] == s[..m];
      }
    }
  }

  /** Select undoes a Map whose every image is kept and converted back. */
  lemma SelectInvertsMap<R, T>(xs: seq<T>, g: T -> R, keep: R -> bool, f: R -> T)
    requires forall i :: 0 <= i < |xs| ==> keep(g(xs[i])) && f(g(xs[i])) == xs[i]
    ensures Select(Map(xs, g), keep, f) == xs
  {
    var rows := Map(xs, g);
    SelectKeptPrefix(rows, keep, f, |rows|);
    assert rows[..|rows|] == rows;
  }
}
