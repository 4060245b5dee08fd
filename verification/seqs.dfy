/** Order-preserving filtering over sequences: the model of Python's
    `[x for x in xs if p(x)]`, with the facts the other modules rely on. */
module Seqs {
  import opened Wrappers

  /** The elements of `s` that satisfy `f`, in their original order. */
  function Filter<T>(f: T -> bool, s: seq<T>): (r: seq<T>)
    ensures |r| <= |s|
    ensures forall i :: 0 <= i < |r| ==> f(r[i])
    ensures forall i :: 0 <= i < |r| ==> r[i] in s
    ensures forall i :: 0 <= i < |s| && f(s[i]) ==> s[i] in r
  {
    if s == [] then []
    else if f(s[0]) then [s[0]] + Filter(f, s[1..])
    else Filter(f, s[1..])
  }

  /** `a` can be obtained from `b` by deleting elements (order kept). */
  predicate IsSubsequence<T(==)>(a: seq<T>, b: seq<T>)
  {
    if a == [] then true
    else if b == [] then false
    else if a[0] == b[0] then IsSubsequence(a[1..], b[1..])
    else IsSubsequence(a, b[1..])
  }

  lemma {:induction false} SubsequenceOfSelf<T>(s: seq<T>)
    ensures IsSubsequence(s, s)
  {
    if s != [] {
      SubsequenceOfSelf(s[1..]);
    }
  }

  lemma {:induction false} SubsequenceOfCons<T>(a: seq<T>, x: T, b: seq<T>)
    requires IsSubsequence(a, b)
    ensures IsSubsequence(a, [x] + b)
    decreases |a| + |b|, 1
  {
    assert ([x] + b)[1..] == b;
    if a != [] && a[0] == x {
      SubsequenceDropFirst(a, b);
    }
  }

  lemma {:induction false} SubsequenceDropFirst<T>(a: seq<T>, b: seq<T>)
    requires a != [] && IsSubsequence(a, b)
    ensures IsSubsequence(a[1..], b)
    decreases |a| + |b|, 0
  {
    assert b != [];
    assert [b[0]] + b[1..] == b;
    if a[0] == b[0] {
      SubsequenceOfCons(a[1..], b[0], b[1..]);
    } else {
      SubsequenceDropFirst(a, b[1..]);
      SubsequenceOfCons(a[1..], b[0], b[1..]);
    }
  }

  /** Every element of a subsequence occurs in the list it is taken from. */
  lemma {:induction false} SubsequenceMembers<T>(a: seq<T>, b: seq<T>)
    requires IsSubsequence(a, b)
    ensures forall x :: x in a ==> x in b
    decreases |b|
  {
    if a != [] {
      assert b == [b[0]] + b[1..];
      if a[0] == b[0] {
        SubsequenceMembers(a[1..], b[1..]);
        assert a == [a[0]] + a[1..];
      } else {
        SubsequenceMembers(a, b[1..]);
      }
    }
  }

  /** Two subsequences of a duplicate-free list with the same elements are
      the same list: the order of the list fixes their order. */
  lemma {:induction false} SubsequenceDetermined<T>(a: seq<T>, b: seq<T>, z: seq<T>)
    requires Distinct(z) && IsSubsequence(a, z) && IsSubsequence(b, z)
    requires forall x :: x in a <==> x in b
    ensures a == b
    decreases |z|
  {
    if z != [] {
      var y, t := z[0], z[1..];
      assert [y] + t == z;
      DistinctTail(y, t);
      if y in a {
        assert a != [] && a[0] == y by {
          if a == [] || a[0] != y { SubsequenceMembers(a, t); }
        }
        assert b != [] && b[0] == y by {
          if b == [] || b[0] != y { SubsequenceMembers(b, t); }
        }
        SubsequenceMembers(a[1..], t);
        SubsequenceMembers(b[1..], t);
        assert a == [y] + a[1..] && b == [y] + b[1..];
        forall x
          ensures x in a[1..] <==> x in b[1..]
        {
          assert x in a <==> x == y || x in a[1..];
          assert x in b <==> x == y || x in b[1..];
        }
        SubsequenceDetermined(a[1..], b[1..], t);
      } else {
        assert a == [] || a[0] != y;
        assert b == [] || b[0] != y;
        SubsequenceDetermined(a, b, t);
      }
    }
  }

  /** A filter keeps an order-preserving subsequence of its input. */
  lemma {:induction false} FilterIsSubsequence<T>(f: T -> bool, s: seq<T>)
    ensures IsSubsequence(Filter(f, s), s)
  {
    if s == [] {
    } else {
      FilterIsSubsequence(f, s[1..]);
      if f(s[0]) {
        assert Filter(f, s)[0] == s[0];
        assert Filter(f, s)[1..] == Filter(f, s[1..]);
      } else {
        SubsequenceOfCons(Filter(f, s[1..]), s[0], s[1..]);
        assert [s[0]] + s[1..] == s;
      }
    }
  }

  /** A filter whose predicate holds everywhere returns its input. */
  lemma {:induction false} FilterAll<T>(f: T -> bool, s: seq<T>)
    requires forall i :: 0 <= i < |s| ==> f(s[i])
    ensures Filter(f, s) == s
  {
    if s != [] {
      FilterAll(f, s[1..]);
    }
  }

  /** Filtering twice by `f` then `g` is filtering once by their conjunction. */
  lemma {:induction false} FilterFilter<T>(f: T -> bool, g: T -> bool, h: T -> bool, s: seq<T>)
    requires forall x :: h(x) == (f(x) && g(x))
    ensures Filter(g, Filter(f, s)) == Filter(h, s)
  {
    if s != [] {
      FilterFilter(f, g, h, s[1..]);
    }
  }

  /** A filter whose predicate holds nowhere returns nothing. */
  lemma {:induction false} FilterNone<T>(f: T -> bool, s: seq<T>)
    requires forall i :: 0 <= i < |s| ==> !f(s[i])
    ensures Filter(f, s) == []
  {
    if s != [] {
      FilterNone(f, s[1..]);
    }
  }

  /** Filters by pointwise-equal predicates are equal. */
  lemma {:induction false} FilterCongruent<T>(f: T -> bool, g: T -> bool, s: seq<T>)
    requires forall x :: f(x) == g(x)
    ensures Filter(f, s) == Filter(g, s)
  {
    if s != [] {
      FilterCongruent(f, g, s[1..]);
    }
  }

  /** Two filters commute. */
  lemma FilterCommutes<T>(f: T -> bool, g: T -> bool, s: seq<T>)
    ensures Filter(g, Filter(f, s)) == Filter(f, Filter(g, s))
  {
    var h := (x: T) => f(x) && g(x);
    FilterFilter(f, g, h, s);
    FilterFilter(g, f, h, s);
  }

  /** The kept and the dropped elements together account for the whole input. */
  lemma {:induction false} FilterSplit<T>(f: T -> bool, g: T -> bool, s: seq<T>)
    requires forall x :: g(x) == !f(x)
    ensures |Filter(f, s)| + |Filter(g, s)| == |s|
  {
    if s != [] {
      FilterSplit(f, g, s[1..]);
    }
  }

  /** Concatenation is associative; stated apart so that a proof can use it
      without the solver searching its own context. */
  lemma AppendAssoc<T>(x: seq<T>, y: seq<T>, z: seq<T>)
    ensures (x + y) + z == x + (y + z)
  {
  }

  /** One step of Filter on a list written as head and tail. */
  lemma FilterCons<T>(f: T -> bool, x: T, s: seq<T>)
    ensures Filter(f, [x] + s) == (if f(x) then [x] + Filter(f, s) else Filter(f, s))
  {
    assert ([x] + s)[1..] == s;
  }

  /** Filter distributes over concatenation. */
  lemma {:induction false} FilterAppend<T>(f: T -> bool, a: seq<T>, b: seq<T>)
    ensures Filter(f, a + b) == Filter(f, a) + Filter(f, b)
  {
    if a == [] {
      assert a + b == b;
    } else {
      assert (a + b)[0] == a[0];
      assert (a + b)[1..] == a[1..] + b;
      FilterAppend(f, a[1..], b);
    }
  }

  /** An accepted element lands in the filtered list right after the
      accepted elements before it. */
  lemma FilterPrefixIndex<T>(f: T -> bool, s: seq<T>, k: nat)
    requires k < |s| && f(s[k])
    ensures |Filter(f, s[..k])| < |Filter(f, s)|
    ensures Filter(f, s)[|Filter(f, s[..k])|] == s[k]
  {
    assert s == s[..k] + ([s[k]] + s[k + 1..]);
    FilterAppend(f, s[..k], [s[k]] + s[k + 1..]);
    FilterCons(f, s[k], s[k + 1..]);
  }

  /** The accepted elements of a non-empty prefix: the head, if accepted,
      then those of the tail's shorter prefix. */
  lemma FilterPrefixCons<T>(f: T -> bool, s: seq<T>, k: nat)
    requires 1 <= k <= |s|
    ensures |Filter(f, s[..k])| == (if f(s[0]) then 1 else 0) + |Filter(f, s[1..][..k - 1])|
  {
    assert s[..k] == [s[0]] + s[1..][..k - 1];
    FilterCons(f, s[0], s[1..][..k - 1]);
  }

  /** Filter keeps every element it accepts as often as the input has it,
      and nothing else. */
  lemma {:induction false} FilterMultiset<T>(f: T -> bool, s: seq<T>)
    ensures forall x :: multiset(Filter(f, s))[x] == (if f(x) then multiset(s)[x] else 0)
  {
    if s != [] {
      FilterMultiset(f, s[1..]);
      FilterCons(f, s[0], s[1..]);
      assert [s[0]] + s[1..] == s;
    }
  }

  /** The elements a filter accepts and the ones it rejects together make
      up the input. */
  lemma FilterPartition<T>(f: T -> bool, s: seq<T>)
    ensures |Filter(f, s)| + |Filter((x: T) => !f(x), s)| == |s|
  {
    FilterSplit(f, (x: T) => !f(x), s);
  }

  /** Filtering a list with one more element at the end. */
  lemma FilterSnoc<T>(f: T -> bool, s: seq<T>)
    requires s != []
    ensures Filter(f, s) == Filter(f, s[..|s| - 1]) + (if f(s[|s| - 1]) then [s[|s| - 1]] else [])
  {
    var init, x := s[..|s| - 1], s[|s| - 1];
    assert Filter(f, [x]) == (if f(x) then [x] else []) by {
      assert [x][1..] == [];
      assert Filter(f, [x][1..]) == [];
    }
    FilterAppend(f, init, [x]);
    assert init + [x] == s;
  }

  /** The image of `s` under `g`, element by element. */
  function Map<T, U>(g: T -> U, s: seq<T>): (r: seq<U>)
    ensures |r| == |s|
    ensures forall i :: 0 <= i < |s| ==> r[i] == g(s[i])
  {
    seq(|s|, i requires 0 <= i < |s| => g(s[i]))
  }

  /** One step of Map on a list written as head and tail. */
  lemma MapCons<T, U>(g: T -> U, x: T, s: seq<T>)
    ensures Map(g, [x] + s) == [g(x)] + Map(g, s)
  {
    var r := Map(g, [x] + s);
    assert forall i :: 1 <= i < |r| ==> r[i] == Map(g, s)[i - 1];
  }

  /** The image of a filtered list is an order-preserving subsequence of the
      image of the list. */
  lemma {:induction false} MapFilterSubsequence<T, U>(g: T -> U, f: T -> bool, s: seq<T>)
    ensures IsSubsequence(Map(g, Filter(f, s)), Map(g, s))
  {
    if s != [] {
      var x, t := s[0], s[1..];
      MapFilterSubsequence(g, f, t);
      assert [x] + t == s;
      FilterCons(f, x, t);
      MapCons(g, x, t);
      var a, b := Map(g, Filter(f, t)), Map(g, t);
      if f(x) {
        MapCons(g, x, Filter(f, t));
        assert ([g(x)] + a)[1..] == a;
        assert ([g(x)] + b)[1..] == b;
      } else {
        SubsequenceOfCons(a, g(x), b);
      }
    }
  }

  /** The image of a filtered list is duplicate-free when the image of the
      list is. */
  lemma {:induction false} MapFilterDistinct<T, U>(g: T -> U, f: T -> bool, s: seq<T>)
    requires Distinct(Map(g, s))
    ensures Distinct(Map(g, Filter(f, s)))
  {
    if s != [] {
      var x, t := s[0], s[1..];
      assert [x] + t == s;
      MapCons(g, x, t);
      DistinctTail(g(x), Map(g, t));
      MapFilterDistinct(g, f, t);
      FilterCons(f, x, t);
      if f(x) {
        MapCons(g, x, Filter(f, t));
        MapFilterIn(g, f, t);
        DistinctCons(g(x), Map(g, Filter(f, t)));
      }
    }
  }

  lemma MapFilterIn<T, U>(g: T -> U, f: T -> bool, s: seq<T>)
    ensures forall y :: y in Map(g, Filter(f, s)) ==> y in Map(g, s)
  {
    var a, fs := Map(g, Filter(f, s)), Filter(f, s);
    forall i | 0 <= i < |a|
      ensures a[i] in Map(g, s)
    {
      var j :| 0 <= j < |s| && s[j] == fs[i];
      assert Map(g, s)[j] == a[i];
    }
  }

  lemma DistinctTail<T>(x: T, t: seq<T>)
    requires Distinct([x] + t)
    ensures Distinct(t) && x !in t
  {
    var c := [x] + t;
    assert c[0] == x;
    assert forall i :: 0 <= i < |t| ==> t[i] == c[i + 1];
  }

  lemma DistinctCons<T>(x: T, a: seq<T>)
    requires Distinct(a) && x !in a
    ensures Distinct([x] + a)
  {
    var c := [x] + a;
    forall i, j | 0 <= i < j < |c|
      ensures c[i] != c[j]
    {
      assert c[j] == a[j - 1];
      if i > 0 {
        assert c[i] == a[i - 1];
      }
    }
  }

  /** No element occurs twice. */
  predicate Distinct<T(==)>(s: seq<T>)
  {
    forall i, j :: 0 <= i < j < |s| ==> s[i] != s[j]
  }

  /** The position of the first occurrence of `x` in `s`, if any. */
  function IndexOf<T(==)>(s: seq<T>, x: T): (r: Option<nat>)
    ensures r.Some? ==> r.value < |s| && s[r.value] == x
    ensures r.Some? ==> forall k :: 0 <= k < r.value ==> s[k] != x
    ensures r.None? <==> x !in s
  {
    if s == [] then None
    else if s[0] == x then Some(0)
    else match IndexOf(s[1..], x)
      case None => None
      case Some(k) => Some(k + 1)
  }

  /** The first occurrence is unique: any position that holds `x` with no
      earlier `x` is the one IndexOf returns. */
  lemma IndexOfUnique<T>(s: seq<T>, x: T, k: nat)
    requires k < |s| && s[k] == x
    requires forall j :: 0 <= j < k ==> s[j] != x
    ensures IndexOf(s, x) == Some(k)
  {
    assert x in s;
  }

  /** Looking past a first element that is not `x`. */
  lemma IndexOfCons<T>(y: T, s: seq<T>, x: T)
    requires y != x
    ensures IndexOf([y] + s, x) == match IndexOf(s, x) case None => None case Some(j) => Some(j + 1)
  {
    assert ([y] + s)[1..] == s;
  }

  lemma IndexOfAppend<T>(s: seq<T>, y: T, x: T)
    ensures IndexOf(s + [y], x) == (if x in s then IndexOf(s, x) else if y == x then Some(|s|) else None)
  {
    var t := s + [y];
    if x in s {
      var k := IndexOf(s, x).value;
      IndexOfUnique(t, x, k);
    } else if y == x {
      IndexOfUnique(t, x, |s|);
    } else {
      assert x !in t;
    }
  }

  /** The position of the last occurrence of `x` in `s`, if any. */
  function LastIndexOf<T(==)>(s: seq<T>, x: T): (r: Option<nat>)
    ensures r.Some? ==> r.value < |s| && s[r.value] == x
    ensures r.Some? ==> forall k :: r.value < k < |s| ==> s[k] != x
    ensures r.None? <==> x !in s
  {
    if s == [] then None
    else if s[|s| - 1] == x then Some(|s| - 1)
    else
      var r := LastIndexOf(s[..|s| - 1], x);
      assert s == s[..|s| - 1] + [s[|s| - 1]];
      r
  }

  /** Two filters by predicates that never hold together keep at most the
      whole input between them. */
  lemma {:induction false} FilterDisjoint<T>(f: T -> bool, g: T -> bool, s: seq<T>)
    requires forall x :: !(f(x) && g(x))
    ensures |Filter(f, s)| + |Filter(g, s)| <= |s|
  {
    if s != [] {
      FilterDisjoint(f, g, s[1..]);
    }
  }
}
