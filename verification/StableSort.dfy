/**
 Stable sorting as section 23.1.3.30 of ECMA-262 asks of `Array.prototype.sort`.

 A stable sort of `s` is sorted, a permutation, and keeps the members of each class of
 equivalent elements in their input order. There is exactly one; `StableSort` computes it.
 */
module StableSort {

  /** `le` is total and transitive on the elements of `s`. */
  ghost predicate TotalPreorderOn<T>(le: (T, T) -> bool, s: seq<T>) {
    && (forall a, b :: a in s && b in s ==> le(a, b) || le(b, a))
    && (forall a, b, c :: a in s && b in s && c in s && le(a, b) && le(b, c) ==> le(a, c))
  }

  ghost predicate Sorted<T>(le: (T, T) -> bool, s: seq<T>) {
    forall i, j :: 0 <= i < j < |s| ==> le(s[i], s[j])
  }

  function Filter<T>(p: T -> bool, s: seq<T>): seq<T> {
    if s == [] then [] else (if p(s[0]) then [s[0]] else []) + Filter(p, s[1..])
  }

  /** The elements that `le` does not tell from `x`. */
  function Like<T>(le: (T, T) -> bool, x: T): T -> bool {
    y => le(x, y) && le(y, x)
  }

  ghost predicate KeepsTies<T(!new)>(le: (T, T) -> bool, s: seq<T>, t: seq<T>) {
    forall x :: x in s ==> Filter(Like(le, x), t) == Filter(Like(le, x), s)
  }

  ghost predicate IsStableSort<T(!new)>(le: (T, T) -> bool, s: seq<T>, t: seq<T>) {
    multiset(t) == multiset(s) && Sorted(le, t) && KeepsTies(le, s, t)
  }

  function Insert<T>(le: (T, T) -> bool, x: T, s: seq<T>): seq<T> {
    if s == [] || le(x, s[0]) then [x] + s else [s[0]] + Insert(le, x, s[1..])
  }

  function Sort<T>(le: (T, T) -> bool, s: seq<T>): seq<T> {
    if s == [] then [] else Insert(le, s[0], Sort(le, s[1..]))
  }

  // ----- Elements and filters

  lemma SameElements<T>(s: seq<T>, t: seq<T>, x: T)
    requires multiset(s) == multiset(t)
    ensures x in s <==> x in t
  {
    assert x in s <==> x in multiset(s);
    assert x in t <==> x in multiset(t);
  }

  lemma FilterCons<T>(p: T -> bool, x: T, s: seq<T>)
    ensures Filter(p, [x] + s) == (if p(x) then [x] else []) + Filter(p, s)
  {
    assert ([x] + s)[1..] == s;
  }

  lemma {:induction false} FilterNested<T>(p: T -> bool, q: T -> bool, s: seq<T>)
    requires forall x :: x in s && q(x) ==> p(x)
    ensures Filter(q, Filter(p, s)) == Filter(q, s)
  {
    if s != [] {
      FilterNested(p, q, s[1..]);
      assert s[0] in s;
      if p(s[0]) {
        FilterCons(q, s[0], Filter(p, s[1..]));
      } else {
        assert Filter(p, s) == Filter(p, s[1..]);
      }
    }
  }

  lemma {:induction false} FilterSorted<T>(le: (T, T) -> bool, p: T -> bool, s: seq<T>)
    requires Sorted(le, s)
    ensures Sorted(le, Filter(p, s))
    ensures forall x :: x in Filter(p, s) ==> x in s
  {
    if s != [] {
      FilterSorted(le, p, s[1..]);
      var rest := Filter(p, s[1..]);
      forall j | 0 <= j < |rest|
        ensures le(s[0], rest[j])
      {
        assert rest[j] in s[1..];
        var i :| 0 <= i < |s[1..]| && s[1..][i] == rest[j];
        assert s[i + 1] == rest[j];
      }
    }
  }

  /** Two elements that pass the filter stand in the same order in the filtered sequence. */
  lemma {:induction false} FilterOrder<T>(p: T -> bool, s: seq<T>, i: nat, j: nat) returns (i': nat, j': nat)
    requires i < j < |s| && p(s[i]) && p(s[j])
    ensures i' < j' < |Filter(p, s)| && Filter(p, s)[i'] == s[i] && Filter(p, s)[j'] == s[j]
  {
    if i == 0 {
      var k := FilterIndex(p, s[1..], j - 1);
      i', j' := 0, k + 1;
    } else {
      var a, b := FilterOrder(p, s[1..], i - 1, j - 1);
      var d := if p(s[0]) then 1 else 0;
      i', j' := a + d, b + d;
    }
  }

  lemma {:induction false} FilterIndex<T>(p: T -> bool, s: seq<T>, i: nat) returns (i': nat)
    requires i < |s| && p(s[i])
    ensures i' < |Filter(p, s)| && Filter(p, s)[i'] == s[i]
  {
    if i == 0 {
      i' := 0;
    } else {
      var a := FilterIndex(p, s[1..], i - 1);
      i' := a + if p(s[0]) then 1 else 0;
    }
  }

  // ----- The sort is a stable sort

  lemma {:induction false} InsertMultiset<T>(le: (T, T) -> bool, x: T, s: seq<T>)
    ensures multiset(Insert(le, x, s)) == multiset{x} + multiset(s)
  {
    if s != [] && !le(x, s[0]) {
      InsertMultiset(le, x, s[1..]);
      assert s == [s[0]] + s[1..];
    }
  }

  lemma {:induction false} SortMultiset<T>(le: (T, T) -> bool, s: seq<T>)
    ensures multiset(Sort(le, s)) == multiset(s)
  {
    if s != [] {
      SortMultiset(le, s[1..]);
      InsertMultiset(le, s[0], Sort(le, s[1..]));
      assert s == [s[0]] + s[1..];
    }
  }

  lemma {:induction false} InsertSorted<T>(le: (T, T) -> bool, x: T, s: seq<T>, dom: seq<T>)
    requires TotalPreorderOn(le, dom) && x in dom && (forall y :: y in s ==> y in dom) && Sorted(le, s)
    ensures Sorted(le, Insert(le, x, s))
  {
    if s != [] && !le(x, s[0]) {
      assert forall y :: y in s[1..] ==> y in s;
      InsertSorted(le, x, s[1..], dom);
      var rest := Insert(le, x, s[1..]);
      InsertMultiset(le, x, s[1..]);
      forall j | 0 <= j < |rest|
        ensures le(s[0], rest[j])
      {
        assert rest[j] in multiset(rest);
        assert rest[j] == x || rest[j] in s[1..];
      }
    } else if s != [] {
      forall j | 0 <= j < |s|
        ensures le(x, s[j])
      {
        assert s[j] in dom && s[0] in dom;
      }
    }
  }

  /** Inserting before the first element not below `x` puts `x` in front of its class. */
  lemma {:induction false} InsertTies<T>(le: (T, T) -> bool, x: T, s: seq<T>, c: T, dom: seq<T>)
    requires TotalPreorderOn(le, dom) && x in dom && c in dom && (forall y :: y in s ==> y in dom)
    ensures Filter(Like(le, c), Insert(le, x, s)) == (if Like(le, c)(x) then [x] else []) + Filter(Like(le, c), s)
  {
    var p := Like(le, c);
    if s == [] || le(x, s[0]) {
      FilterCons(p, x, s);
    } else {
      assert s[0] in dom;
      assert forall y :: y in s[1..] ==> y in s;
      InsertTies(le, x, s[1..], c, dom);
      FilterCons(p, s[0], Insert(le, x, s[1..]));
      assert !(p(x) && p(s[0]));
    }
  }

  lemma {:induction false} SortIsStable<T(!new)>(le: (T, T) -> bool, s: seq<T>, dom: seq<T>)
    requires TotalPreorderOn(le, dom) && forall y :: y in s ==> y in dom
    ensures multiset(Sort(le, s)) == multiset(s) && Sorted(le, Sort(le, s))
    ensures forall c :: c in dom ==> Filter(Like(le, c), Sort(le, s)) == Filter(Like(le, c), s)
  {
    SortMultiset(le, s);
    if s != [] {
      SortIsStable(le, s[1..], dom);
      var t := Sort(le, s[1..]);
      forall y | y in t
        ensures y in dom
      {
        SameElements(t, s[1..], y);
      }
      InsertSorted(le, s[0], t, dom);
      forall c | c in dom
        ensures Filter(Like(le, c), Sort(le, s)) == Filter(Like(le, c), s)
      {
        InsertTies(le, s[0], t, c, dom);
      }
    }
  }

  /** The result of sorting is a stable sort, for every total preorder. */
  lemma StableSortExists<T(!new)>(le: (T, T) -> bool, s: seq<T>)
    requires TotalPreorderOn(le, s)
    ensures IsStableSort(le, s, Sort(le, s))
  {
    SortIsStable(le, s, s);
  }

  // ----- There is only one stable sort

  /** The head of a stable sort is determined by the class filters. */
  lemma SameHead<T(!new)>(le: (T, T) -> bool, s: seq<T>, a: seq<T>, b: seq<T>)
    requires TotalPreorderOn(le, s) && a != [] && b != []
    requires multiset(a) == multiset(b) && (forall x :: x in a ==> x in s)
    requires Sorted(le, a) && Sorted(le, b)
    requires forall x :: x in s ==> Filter(Like(le, x), a) == Filter(Like(le, x), b)
    ensures a[0] == b[0]
  {
    SameElements(a, b, a[0]);
    SameElements(a, b, b[0]);
    assert le(a[0], b[0]) by {
      var i :| 0 <= i < |a| && a[i] == b[0];
    }
    assert le(b[0], a[0]) by {
      var i :| 0 <= i < |b| && b[i] == a[0];
    }
    var p := Like(le, a[0]);
    assert p(a[0]) && p(b[0]);
    assert Filter(p, a)[0] == a[0] && Filter(p, b)[0] == b[0];
  }

  lemma TailFilter<T>(p: T -> bool, a: seq<T>, b: seq<T>)
    requires a != [] && b != [] && a[0] == b[0] && Filter(p, a) == Filter(p, b)
    ensures Filter(p, a[1..]) == Filter(p, b[1..])
  {
    var d := if p(a[0]) then 1 else 0;
    assert Filter(p, a)[d..] == Filter(p, a[1..]);
    assert Filter(p, b)[d..] == Filter(p, b[1..]);
  }

  lemma TailElements<T>(a: seq<T>, b: seq<T>)
    requires a != [] && b != [] && a[0] == b[0] && multiset(a) == multiset(b)
    ensures multiset(a[1..]) == multiset(b[1..])
  {
    assert a == [a[0]] + a[1..] && b == [b[0]] + b[1..];
    assert multiset(a[1..]) == multiset(a) - multiset{a[0]};
    assert multiset(b[1..]) == multiset(b) - multiset{a[0]};
  }

  lemma {:induction false} OnlyOneStableSort<T(!new)>(le: (T, T) -> bool, s: seq<T>, a: seq<T>, b: seq<T>)
    requires TotalPreorderOn(le, s)
    requires multiset(a) == multiset(b) && (forall x :: x in a ==> x in s)
    requires Sorted(le, a) && Sorted(le, b)
    requires forall x :: x in s ==> Filter(Like(le, x), a) == Filter(Like(le, x), b)
    ensures a == b
  {
    assert |a| == |multiset(a)| == |multiset(b)| == |b|;
    if a != [] {
      SameHead(le, s, a, b);
      TailElements(a, b);
      assert forall i, j :: 0 <= i < j < |a[1..]| ==> a[1..][i] == a[i + 1] && a[1..][j] == a[j + 1];
      forall x | x in s
        ensures Filter(Like(le, x), a[1..]) == Filter(Like(le, x), b[1..])
      {
        TailFilter(Like(le, x), a, b);
      }
      OnlyOneStableSort(le, s, a[1..], b[1..]);
    }
  }

  /** Any result that meets the standard's requirements is the one `Sort` computes. */
  lemma StableSortIsUnique<T(!new)>(le: (T, T) -> bool, s: seq<T>, t: seq<T>)
    requires TotalPreorderOn(le, s) && IsStableSort(le, s, t)
    ensures t == Sort(le, s)
  {
    StableSortExists(le, s);
    forall x | x in t
      ensures x in s
    {
      SameElements(s, t, x);
    }
    OnlyOneStableSort(le, s, t, Sort(le, s));
  }
}
