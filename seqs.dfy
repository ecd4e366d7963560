/** Sequence helpers standing in for list comprehensions, `.first()` queries
    and `list.remove`. */
module Seqs {
  import opened Wrappers

  /** The position of the first element satisfying `p`. */
  function FirstIndex<T>(s: seq<T>, p: T -> bool): (r: Option<nat>)
    ensures r.Some? ==> r.value < |s| && p(s[r.value])
    ensures r.Some? ==> forall j :: 0 <= j < r.value ==> !p(s[j])
    ensures r.None? ==> forall j :: 0 <= j < |s| ==> !p(s[j])
  {
    if s == [] then None
    else if p(s[0]) then Some(0)
    else match FirstIndex(s[1..], p)
      case None => None
      case Some(i) => Some(i + 1)
  }

  /** `[x for x in s if p(x)]`. */
  function Filter<T>(s: seq<T>, p: T -> bool): (r: seq<T>)
    ensures |r| <= |s|
  {
    if s == [] then []
    else Filter(s[..|s| - 1], p) + (if p(s[|s| - 1]) then [s[|s| - 1]] else [])
  }

  lemma FilterAppend<T>(s: seq<T>, x: T, p: T -> bool)
    ensures Filter(s + [x], p) == Filter(s, p) + (if p(x) then [x] else [])
  {
    assert (s + [x])[..|s + [x]| - 1] == s;
  }

  lemma FilterSound<T>(s: seq<T>, p: T -> bool)
    ensures forall x :: x in Filter(s, p) ==> x in s && p(x)
  {
    if s != [] {
      FilterSound(s[..|s| - 1], p);
    }
  }

  lemma FilterNone<T>(s: seq<T>, p: T -> bool)
    requires forall x :: x in s ==> !p(x)
    ensures Filter(s, p) == []
  {
    FilterSound(s, p);
    if Filter(s, p) != [] {
      assert Filter(s, p)[0] in Filter(s, p);
    }
  }

  lemma FilterAll<T>(s: seq<T>, p: T -> bool)
    ensures forall x :: x in s && p(x) ==> x in Filter(s, p)
  {
    if s != [] {
      FilterAll(s[..|s| - 1], p);
      assert s == s[..|s| - 1] + [s[|s| - 1]];
    }
  }

  /** Splitting by a predicate and its negation loses and duplicates nothing. */
  lemma {:induction false} FilterPartition<T>(s: seq<T>, p: T -> bool, q: T -> bool)
    requires forall x :: q(x) == !p(x)
    ensures multiset(Filter(s, p)) + multiset(Filter(s, q)) == multiset(s)
  {
    if s != [] {
      var init, last := s[..|s| - 1], s[|s| - 1];
      FilterPartition(init, p, q);
      assert s == init + [last];
    }
  }

  /** `s` without its element at `i`. */
  function RemoveAt<T>(s: seq<T>, i: nat): (r: seq<T>)
    requires i < |s|
    ensures |r| == |s| - 1
    ensures multiset(r) + multiset{s[i]} == multiset(s)
  {
    assert s == s[..i] + [s[i]] + s[i + 1..];
    s[..i] + s[i + 1..]
  }

  /** `s[:n]`. */
  function Take<T>(s: seq<T>, n: nat): (r: seq<T>)
    ensures |r| <= n && |r| <= |s|
    ensures |s| <= n ==> r == s
  {
    if |s| <= n then s else s[..n]
  }

  /** `f` applied to each element in order, as a loop that stops at the
      first exception; the results in order when none is raised. */
  function MapAll<T, U, E>(s: seq<T>, f: T --> Result<U, E>): (r: Result<seq<U>, E>)
    requires forall i :: 0 <= i < |s| ==> f.requires(s[i])
    ensures r.Ok? ==> |r.value| == |s|
  {
    if s == [] then Ok([])
    else
      var init :- MapAll(s[..|s| - 1], f);
      var last :- f(s[|s| - 1]);
      Ok(init + [last])
  }

  /** Result `k` is `f` of element `k`. */
  lemma {:induction false} MapAllAt<T, U, E>(s: seq<T>, f: T --> Result<U, E>, k: nat)
    requires forall i :: 0 <= i < |s| ==> f.requires(s[i])
    requires MapAll(s, f).Ok? && k < |s|
    ensures f(s[k]) == Ok(MapAll(s, f).value[k])
  {
    var init := s[..|s| - 1];
    assert forall i :: 0 <= i < |init| ==> init[i] == s[i];
    if k < |init| {
      MapAllAt(init, f, k);
    }
  }

  /** Nothing is raised when `f` raises on no element. */
  lemma {:induction false} MapAllOk<T, U, E>(s: seq<T>, f: T --> Result<U, E>)
    requires forall i :: 0 <= i < |s| ==> f.requires(s[i]) && f(s[i]).Ok?
    ensures MapAll(s, f).Ok?
  {
    if s != [] {
      var init := s[..|s| - 1];
      assert forall i :: 0 <= i < |init| ==> init[i] == s[i];
      MapAllOk(init, f);
    }
  }

  lemma AppendAssoc<T>(a: seq<T>, b: seq<T>, c: seq<T>)
    ensures (a + b) + c == a + (b + c)
  {
  }
}
