/** Python list idioms the bridge uses on its port lists: the filtering
    comprehensions `[x for x in s if x not in xs]` / `[x for x in s if x in xs]`
    and `list.remove(x)`. */
module Lists {

  /** No element occurs twice (for objects: no object is listed twice). */
  predicate NoDup<T(==)>(s: seq<T>) {
    forall i, j :: 0 <= i < j < |s| ==> s[i] != s[j]
  }

  /** `[x for x in s if x not in xs]`. */
  function Without<T(==)>(s: seq<T>, xs: set<T>): (r: seq<T>)
    ensures |r| <= |s|
  {
    if s == [] then []
    else Without(s[..|s| - 1], xs) + (if s[|s| - 1] in xs then [] else [s[|s| - 1]])
  }

  /** `[x for x in s if x in xs]`. */
  function Within<T(==)>(s: seq<T>, xs: set<T>): (r: seq<T>)
    ensures |r| <= |s|
  {
    if s == [] then []
    else Within(s[..|s| - 1], xs) + (if s[|s| - 1] in xs then [s[|s| - 1]] else [])
  }

  /** The filter `Without` keeps exactly the elements of `s` outside `xs`. */
  lemma {:induction false} WithoutMember<T>(s: seq<T>, xs: set<T>, x: T)
    ensures x in Without(s, xs) <==> x in s && x !in xs
  {
    if s != [] {
      var init := s[..|s| - 1];
      WithoutMember(init, xs, x);
      assert s == init + [s[|s| - 1]];
    }
  }

  /** The filter `Within` keeps exactly the elements of `s` inside `xs`. */
  lemma {:induction false} WithinMember<T>(s: seq<T>, xs: set<T>, x: T)
    ensures x in Within(s, xs) <==> x in s && x in xs
  {
    if s != [] {
      var init := s[..|s| - 1];
      WithinMember(init, xs, x);
      assert s == init + [s[|s| - 1]];
    }
  }

  /** Filtering keeps the order: filtering a concatenation filters each part. */
  lemma {:induction false} WithoutConcat<T>(a: seq<T>, b: seq<T>, xs: set<T>)
    ensures Without(a + b, xs) == Without(a, xs) + Without(b, xs)
  {
    if b == [] {
      assert a + b == a;
    } else {
      assert (a + b)[..|a + b| - 1] == a + b[..|b| - 1];
      WithoutConcat(a, b[..|b| - 1], xs);
    }
  }

  lemma {:induction false} WithinConcat<T>(a: seq<T>, b: seq<T>, xs: set<T>)
    ensures Within(a + b, xs) == Within(a, xs) + Within(b, xs)
  {
    if b == [] {
      assert a + b == a;
    } else {
      assert (a + b)[..|a + b| - 1] == a + b[..|b| - 1];
      WithinConcat(a, b[..|b| - 1], xs);
    }
  }

  /** Appending an element that is not yet there keeps a list free of duplicates. */
  lemma NoDupAppend<T>(s: seq<T>, x: T)
    requires NoDup(s) && x !in s
    ensures NoDup(s + [x])
  {
  }

  /** Filtering a list without duplicates gives a list without duplicates. */
  lemma {:induction false} WithoutNoDup<T>(s: seq<T>, xs: set<T>)
    requires NoDup(s)
    ensures NoDup(Without(s, xs))
  {
    if s != [] {
      var init := s[..|s| - 1];
      var last := s[|s| - 1];
      assert NoDup(init);
      WithoutNoDup(init, xs);
      assert last !in init;
      WithoutMember(init, xs, last);
      if last !in xs {
        NoDupAppend(Without(init, xs), last);
      }
    }
  }

  lemma {:induction false} WithinNoDup<T>(s: seq<T>, xs: set<T>)
    requires NoDup(s)
    ensures NoDup(Within(s, xs))
  {
    if s != [] {
      var init := s[..|s| - 1];
      var last := s[|s| - 1];
      assert NoDup(init);
      WithinNoDup(init, xs);
      assert last !in init;
      WithinMember(init, xs, last);
      if last in xs {
        NoDupAppend(Within(init, xs), last);
      }
    }
  }

  /** Filtering out nothing that occurs leaves the list as it is. */
  lemma {:induction false} WithoutNone<T>(s: seq<T>, xs: set<T>)
    requires forall i :: 0 <= i < |s| ==> s[i] !in xs
    ensures Without(s, xs) == s
  {
    if s != [] {
      WithoutNone(s[..|s| - 1], xs);
      assert s == s[..|s| - 1] + [s[|s| - 1]];
    }
  }

  /** Two filters in a row are one filter by the union. */
  lemma {:induction false} WithoutWithout<T>(s: seq<T>, xs: set<T>, ys: set<T>)
    ensures Without(Without(s, xs), ys) == Without(s, xs + ys)
  {
    if s != [] {
      var init := s[..|s| - 1];
      var last := s[|s| - 1];
      WithoutWithout(init, xs, ys);
      WithoutConcat(Without(init, xs), if last in xs then [] else [last], ys);
      if last !in xs {
        assert Without([last], ys) == Without([], ys) + (if last in ys then [] else [last]);
      }
    }
  }

  /** Python's `s.remove(x)`: drops the first occurrence of `x` (Python raises
      `ValueError` when there is none, which the callers here never meet). */
  function RemoveFirst<T(==)>(s: seq<T>, x: T): (r: seq<T>)
    requires x in s
    ensures |r| == |s| - 1
  {
    if s[0] == x then s[1..] else [s[0]] + RemoveFirst(s[1..], x)
  }

  lemma WithoutSingle<T>(h: T, xs: set<T>)
    ensures Without([h], xs) == if h in xs then [] else [h]
  {
    assert [h][..0] == [];
  }

  /** In a list without duplicates, `remove(x)` drops exactly `x`. */
  lemma {:induction false} RemoveFirstNoDup<T>(s: seq<T>, x: T)
    requires NoDup(s) && x in s
    ensures RemoveFirst(s, x) == Without(s, {x})
  {
    var h, t := s[0], s[1..];
    assert s == [h] + t;
    assert NoDup(t);
    WithoutConcat([h], t, {x});
    WithoutSingle(h, {x});
    if h == x {
      forall i | 0 <= i < |t| ensures t[i] !in {x} {
        assert t[i] == s[i + 1];
      }
      WithoutNone(t, {x});
    } else {
      RemoveFirstNoDup(t, x);
    }
  }

  /** Removing, one after another, ports taken from a list without duplicates
      leaves exactly the list without the removed ones. */
  lemma RemoveFirstStep<T>(s: seq<T>, xs: set<T>, x: T)
    requires NoDup(s) && x in s && x !in xs
    ensures x in Without(s, xs)
    ensures RemoveFirst(Without(s, xs), x) == Without(s, xs + {x})
  {
    WithoutMember(s, xs, x);
    WithoutNoDup(s, xs);
    RemoveFirstNoDup(Without(s, xs), x);
    WithoutWithout(s, xs, {x});
  }

  /** The elements of a list, as a set. */
  function Elems<T>(s: seq<T>): (r: set<T>)
    ensures forall i :: 0 <= i < |s| ==> s[i] in r
    ensures forall x :: x in r ==> x in s
  {
    set x | x in s
  }

  /** A filter only looks at the elements of the list: two sets that agree
      on them filter alike. */
  lemma {:induction false} WithoutAgree<T>(s: seq<T>, xs: set<T>, ys: set<T>)
    requires forall i :: 0 <= i < |s| ==> (s[i] in xs <==> s[i] in ys)
    ensures Without(s, xs) == Without(s, ys)
  {
    if s != [] {
      WithoutAgree(s[..|s| - 1], xs, ys);
    }
  }

  /** Filtering out the elements that a `Within` filter picked is filtering out by the same set. */
  lemma WithoutWithin<T>(s: seq<T>, xs: set<T>)
    ensures Without(s, Elems(Within(s, xs))) == Without(s, xs)
  {
    var picked := Within(s, xs);
    forall i | 0 <= i < |s| ensures s[i] in Elems(picked) <==> s[i] in xs {
      WithinMember(s, xs, s[i]);
    }
    WithoutAgree(s, Elems(picked), xs);
  }

  lemma ConcatIndex<T>(a: seq<T>, b: seq<T>, i: int)
    requires |a| <= i < |a| + |b|
    ensures (a + b)[i] == b[i - |a|]
  {
  }

  lemma AppendAssoc<T>(a: seq<T>, b: seq<T>, c: seq<T>)
    ensures (a + b) + c == a + (b + c)
  {
  }
}
