/** Small sequence toolkit shared by the board model: Python's list
    comprehensions with an `if` (Filter), slicing `[:n]` (Take),
    `list.count` (Count), and an Option for Python's `None`. */
module Seqs {

  datatype Option<T> = None | Some(value: T)

  /** Elements of `s` that satisfy `f`, in their original order.
      Defined from the end so that a loop that appends one element at a
      time matches it step by step. */
  function Filter<T(!new)>(f: T -> bool, s: seq<T>): (r: seq<T>)
    ensures |r| <= |s|
    ensures forall x :: x in r <==> x in s && f(x)
  {
    if s == [] then []
    else
      assert s == s[..|s| - 1] + [s[|s| - 1]];
      Filter(f, s[..|s| - 1]) + (if f(s[|s| - 1]) then [s[|s| - 1]] else [])
  }

  /** Nothing passes the test, so nothing is kept. */
  lemma {:induction false} FilterNone<T(!new)>(f: T -> bool, s: seq<T>)
    requires forall x :: x in s ==> !f(x)
    ensures Filter(f, s) == []
  {
    if s != [] {
      FilterNone(f, s[..|s| - 1]);
    }
  }

  lemma FilterSnoc<T(!new)>(f: T -> bool, s: seq<T>, x: T)
    ensures Filter(f, s + [x]) == Filter(f, s) + (if f(x) then [x] else [])
  {
    assert (s + [x])[..|s|] == s;
  }

  /** Filtering a prefix one element longer adds at most that element. */
  lemma FilterPrefixStep<T(!new)>(f: T -> bool, s: seq<T>, k: nat)
    requires k < |s|
    ensures Filter(f, s[..k + 1]) == Filter(f, s[..k]) + (if f(s[k]) then [s[k]] else [])
  {
    assert s[..k + 1] == s[..k] + [s[k]];
    FilterSnoc(f, s[..k], s[k]);
  }

  /** Filtering commutes with concatenation. */
  lemma {:induction false} FilterConcat<T(!new)>(f: T -> bool, a: seq<T>, b: seq<T>)
    ensures Filter(f, a + b) == Filter(f, a) + Filter(f, b)
    decreases |b|
  {
    if b == [] {
      assert a + b == a;
    } else {
      var init, last := b[..|b| - 1], b[|b| - 1];
      var tail := if f(last) then [last] else [];
      assert b == init + [last];
      assert a + b == (a + init) + [last];
      calc {
        Filter(f, a + b);
        { FilterSnoc(f, a + init, last); }
        Filter(f, a + init) + tail;
        { FilterConcat(f, a, init); }
        Filter(f, a) + Filter(f, init) + tail;
        { FilterSnoc(f, init, last); }
        Filter(f, a) + Filter(f, b);
      }
    }
  }

  /** No element occurs twice. */
  predicate Distinct<T(==)>(s: seq<T>) {
    forall i, j :: 0 <= i < j < |s| ==> s[i] != s[j]
  }

  lemma {:induction false} FilterDistinct<T(!new)>(f: T -> bool, s: seq<T>)
    requires Distinct(s)
    ensures Distinct(Filter(f, s))
    decreases |s|
  {
    if s != [] {
      var init, last := s[..|s| - 1], s[|s| - 1];
      FilterDistinct(f, init);
    }
  }

  /** Concatenating two distinct sequences with no common element. */
  lemma DistinctConcat<T>(a: seq<T>, b: seq<T>)
    requires Distinct(a) && Distinct(b)
    requires forall x :: x in b ==> x !in a
    ensures Distinct(a + b)
  {
    forall i, j | 0 <= i < j < |a + b|
      ensures (a + b)[i] != (a + b)[j]
    {
      if j >= |a| && i < |a| {
        assert (a + b)[j] == b[j - |a|];
        assert b[j - |a|] in b;
      } else if i >= |a| {
        assert (a + b)[i] == b[i - |a|] && (a + b)[j] == b[j - |a|];
      }
    }
  }

  /** Python's `s[:n]`. */
  function Take<T>(s: seq<T>, n: nat): (r: seq<T>)
    ensures |r| == if |s| <= n then |s| else n
    ensures r <= s
    ensures forall x :: x in r ==> x in s
  {
    if |s| <= n then s else s[..n]
  }

  lemma TakeDistinct<T>(s: seq<T>, n: nat)
    requires Distinct(s)
    ensures Distinct(Take(s, n))
  {
  }

  /** `(a + b)[:n]` begins with `a` when `a` is shorter than `n`, and
      lies within `a` otherwise. */
  lemma TakeConcat<T>(a: seq<T>, b: seq<T>, n: nat)
    ensures |a| < n ==> forall x :: x in a ==> x in Take(a + b, n)
    ensures n <= |a| ==> forall x :: x in Take(a + b, n) ==> x in a
  {
    if n <= |a| {
      assert Take(a + b, n) == a[..n];
    } else {
      assert a <= Take(a + b, n);
    }
  }

  /** Filtering `s` is filtering its first `j` elements, then the rest. */
  lemma FilterSplit<T(!new)>(f: T -> bool, s: seq<T>, j: nat)
    requires j <= |s|
    ensures Filter(f, s) == Filter(f, s[..j]) + Filter(f, s[j..])
  {
    assert s == s[..j] + s[j..];
    FilterConcat(f, s[..j], s[j..]);
  }

  /** In a sequence without repeats, no element occurs before itself. */
  lemma DistinctNotBefore<T>(s: seq<T>, j: int)
    requires Distinct(s) && 0 <= j < |s|
    ensures s[j] !in s[..j]
  {
    forall k | 0 <= k < j ensures s[..j][k] != s[j] {
      assert s[..j][k] == s[k];
    }
  }

  /** `Filter(f, s)[:n]` keeps the FIRST qualifying elements: with no
      repeats in `s`, an element it keeps brings along every qualifying
      element before it. */
  lemma TakeFilterFirst<T(!new)>(f: T -> bool, s: seq<T>, n: nat, i: int, j: int)
    requires Distinct(s) && 0 <= i < j < |s| && f(s[i])
    requires s[j] in Take(Filter(f, s), n)
    ensures s[i] in Take(Filter(f, s), n)
  {
    var before := Filter(f, s[..j]);
    FilterSplit(f, s, j);
    DistinctNotBefore(s, j);
    assert s[..j][i] == s[i];
    assert s[i] in before && s[j] !in before;
    TakeConcat(before, Filter(f, s[j..]), n);
  }

  /** The first element of `s` that satisfies `f`: a `for` loop that
      returns at the first hit. */
  function FirstWhere<T>(f: T -> bool, s: seq<T>): Option<T>
  {
    if s == [] then None
    else if f(s[0]) then Some(s[0])
    else FirstWhere(f, s[1..])
  }

  /** One pass of the loop: the search from position `i` either stops at
      `s[i]` or goes on from `i + 1`. */
  lemma FirstWhereStep<T>(f: T -> bool, s: seq<T>, i: nat)
    requires i < |s|
    ensures FirstWhere(f, s[i..]) == if f(s[i]) then Some(s[i]) else FirstWhere(f, s[i + 1..])
  {
    assert s[i..][1..] == s[i + 1..];
  }

  /** `FirstWhere` finds nothing exactly when no element satisfies `f`,
      and otherwise the earliest element that does. */
  lemma {:induction false} FirstWhereSpec<T>(f: T -> bool, s: seq<T>)
    ensures FirstWhere(f, s).None? <==> forall j :: 0 <= j < |s| ==> !f(s[j])
    ensures FirstWhere(f, s).Some? ==>
      exists k :: 0 <= k < |s| && s[k] == FirstWhere(f, s).value && f(s[k])
                  && forall j :: 0 <= j < k ==> !f(s[j])
  {
    if s != [] && !f(s[0]) {
      FirstWhereSpec(f, s[1..]);
      if FirstWhere(f, s).Some? {
        var k :| 0 <= k < |s[1..]| && s[1..][k] == FirstWhere(f, s).value && f(s[1..][k])
                 && forall j :: 0 <= j < k ==> !f(s[1..][j]);
        assert s[k + 1] == s[1..][k];
        forall j | 0 <= j < k + 1 ensures !f(s[j]) {
          if j > 0 {
            assert s[j] == s[1..][j - 1];
          }
        }
      } else {
        forall j | 0 <= j < |s| ensures !f(s[j]) {
          if j > 0 {
            assert s[j] == s[1..][j - 1];
          }
        }
      }
    }
  }

  /** Python's `list.count(v)`. */
  function Count(s: seq<int>, v: int): (n: nat)
    ensures n <= |s|
    ensures n == 0 <==> v !in s
    ensures n == |s| <==> forall i :: 0 <= i < |s| ==> s[i] == v
  {
    if s == [] then 0
    else (if s[0] == v then 1 else 0) + Count(s[1..], v)
  }

  /** The cardinality of the set of elements of a distinct sequence is its length. */
  lemma {:induction false} DistinctCard<T>(s: seq<T>)
    requires Distinct(s)
    ensures |set x | x in s| == |s|
    decreases |s|
  {
    if s != [] {
      var init, last := s[..|s| - 1], s[|s| - 1];
      assert s == init + [last];
      assert Distinct(init);
      DistinctCard(init);
      assert (set x | x in s) == (set x | x in init) + {last};
    }
  }

  /** A duplicate-free sequence contained in another is no longer than it. */
  lemma DistinctSubsetLength<T>(a: seq<T>, b: seq<T>)
    requires Distinct(a) && Distinct(b)
    requires forall x :: x in a ==> x in b
    ensures |a| <= |b|
  {
    DistinctCard(a);
    DistinctCard(b);
    var sa, sb := set x | x in a, set x | x in b;
    assert sb == sa + (sb - sa);
    assert sa * (sb - sa) == {};
  }
}
