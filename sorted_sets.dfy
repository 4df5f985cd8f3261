/**
 * A `java.util.TreeSet` filled element by element and read back as a list in
 * ascending order (`new ArrayList<>(treeSet)`), for the comparators the form
 * helpers use: the natural order of strings and of integers, and the order of
 * integers by absolute value.
 */
module SortedSets {
  import opened JavaLang

  /** A comparator's "less than" that is irreflexive and transitive. */
  ghost predicate IsStrictOrder<T(!new)>(lt: (T, T) -> bool) {
    && (forall a :: !lt(a, a))
    && (forall a, b, c :: lt(a, b) && lt(b, c) ==> lt(a, c))
  }

  /** A comparator that orders any two different elements. */
  ghost predicate IsTotal<T(!new)>(lt: (T, T) -> bool) {
    forall a, b :: a != b ==> lt(a, b) || lt(b, a)
  }

  /** The comparator says neither is less: the tree set holds one of the two only. */
  predicate Equivalent<T>(lt: (T, T) -> bool, a: T, b: T) {
    !lt(a, b) && !lt(b, a)
  }

  /** Strictly ascending, hence without two equivalent elements. */
  predicate Increasing<T>(s: seq<T>, lt: (T, T) -> bool) {
    forall i, j :: 0 <= i < j < |s| ==> lt(s[i], s[j])
  }

  /** Each of `items` has an equivalent element in `r`. */
  ghost predicate HasEquivalents<T>(r: seq<T>, items: seq<T>, lt: (T, T) -> bool) {
    forall i :: 0 <= i < |items| ==> exists y :: y in r && Equivalent(lt, items[i], y)
  }

  /** `TreeSet.add`: `x` goes in its place unless an equivalent element is
      already there, which then stays. */
  function Insert<T>(s: seq<T>, x: T, lt: (T, T) -> bool): seq<T>
    decreases |s|
  {
    if s == [] then [x]
    else if lt(x, s[0]) then [x] + s
    else if lt(s[0], x) then [s[0]] + Insert(s[1..], x, lt)
    else s
  }

  /** The ascending list of a tree set after adding `items` in order. */
  function TreeSetOf<T>(items: seq<T>, lt: (T, T) -> bool): seq<T>
    decreases |items|
  {
    if items == [] then [] else Insert(TreeSetOf(items[..|items| - 1], lt), items[|items| - 1], lt)
  }

  lemma InsertProperties<T(!new)>(s: seq<T>, x: T, lt: (T, T) -> bool)
    requires IsStrictOrder(lt) && Increasing(s, lt)
    ensures Increasing(Insert(s, x, lt), lt)
    ensures forall y :: y in Insert(s, x, lt) ==> y in s || y == x
    ensures forall y :: y in s ==> y in Insert(s, x, lt)
    ensures exists y :: y in Insert(s, x, lt) && Equivalent(lt, x, y)
  {
    InsertIncreasing(s, x, lt);
    InsertElements(s, x, lt);
    InsertCovers(s, x, lt);
  }

  lemma {:induction false} InsertElements<T>(s: seq<T>, x: T, lt: (T, T) -> bool)
    ensures forall y :: y in Insert(s, x, lt) ==> y in s || y == x
    ensures forall y :: y in s ==> y in Insert(s, x, lt)
    decreases |s|
  {
    if s != [] && !lt(x, s[0]) && lt(s[0], x) {
      InsertElements(s[1..], x, lt);
      assert s == [s[0]] + s[1..];
    }
  }

  lemma {:induction false} InsertCovers<T(!new)>(s: seq<T>, x: T, lt: (T, T) -> bool)
    requires IsStrictOrder(lt)
    ensures exists y :: y in Insert(s, x, lt) && Equivalent(lt, x, y)
    decreases |s|
  {
    var r := Insert(s, x, lt);
    if s == [] || lt(x, s[0]) {
      assert r[0] == x && Equivalent(lt, x, x);
    } else if lt(s[0], x) {
      InsertCovers(s[1..], x, lt);
      var w :| w in Insert(s[1..], x, lt) && Equivalent(lt, x, w);
      assert w in r;
    } else {
      assert r[0] == s[0] && Equivalent(lt, x, s[0]);
    }
  }

  lemma {:induction false} InsertIncreasing<T(!new)>(s: seq<T>, x: T, lt: (T, T) -> bool)
    requires IsStrictOrder(lt) && Increasing(s, lt)
    ensures Increasing(Insert(s, x, lt), lt)
    decreases |s|
  {
    var r := Insert(s, x, lt);
    if s != [] && lt(x, s[0]) {
      forall i, j | 0 <= i < j < |r| ensures lt(r[i], r[j]) {
        if i == 0 {
          assert r[j] == s[j - 1];
        } else {
          assert r[i] == s[i - 1] && r[j] == s[j - 1];
        }
      }
    } else if s != [] && lt(s[0], x) {
      var t := s[1..];
      assert Increasing(t, lt);
      InsertIncreasing(t, x, lt);
      InsertElements(t, x, lt);
      var u := Insert(t, x, lt);
      assert r == [s[0]] + u;
      forall y | y in u ensures lt(s[0], y) {
        if y in t {
          var k :| 0 <= k < |t| && t[k] == y;
          assert s[k + 1] == y;
        }
      }
      forall i, j | 0 <= i < j < |r| ensures lt(r[i], r[j]) {
        if i == 0 {
          assert r[j] == u[j - 1];
          assert r[j] in u;
        } else {
          assert r[i] == u[i - 1] && r[j] == u[j - 1];
        }
      }
    }
  }

  /** The list read back from the tree set is ascending, holds only added
      elements, and holds an element equivalent to each added one. */
  lemma TreeSetOfProperties<T(!new)>(items: seq<T>, lt: (T, T) -> bool)
    requires IsStrictOrder(lt)
    ensures Increasing(TreeSetOf(items, lt), lt)
    ensures forall y :: y in TreeSetOf(items, lt) ==> y in items
    ensures HasEquivalents(TreeSetOf(items, lt), items, lt)
  {
    TreeSetOfIncreasing(items, lt);
    TreeSetOfAdded(items, lt);
    TreeSetOfCovers(items, lt);
  }

  lemma {:induction false} TreeSetOfIncreasing<T(!new)>(items: seq<T>, lt: (T, T) -> bool)
    requires IsStrictOrder(lt)
    ensures Increasing(TreeSetOf(items, lt), lt)
    decreases |items|
  {
    if items != [] {
      TreeSetOfIncreasing(items[..|items| - 1], lt);
      InsertProperties(TreeSetOf(items[..|items| - 1], lt), items[|items| - 1], lt);
    }
  }

  lemma {:induction false} TreeSetOfAdded<T(!new)>(items: seq<T>, lt: (T, T) -> bool)
    requires IsStrictOrder(lt)
    ensures forall y :: y in TreeSetOf(items, lt) ==> y in items
    decreases |items|
  {
    if items != [] {
      var init := items[..|items| - 1];
      var x := items[|items| - 1];
      TreeSetOfIncreasing(init, lt);
      TreeSetOfAdded(init, lt);
      var s := TreeSetOf(init, lt);
      InsertProperties(s, x, lt);
      forall y | y in Insert(s, x, lt) ensures y in items {
        if y != x {
          var k :| 0 <= k < |init| && init[k] == y;
          assert items[k] == y;
        }
      }
    }
  }

  /** `TreeSet.add` puts in an element that has no equivalent in the set. */
  lemma {:induction false} InsertNew<T>(s: seq<T>, x: T, lt: (T, T) -> bool)
    requires forall y :: y in s ==> !Equivalent(lt, x, y)
    ensures x in Insert(s, x, lt)
    decreases |s|
  {
    if s != [] && !lt(x, s[0]) {
      assert s[0] in s;
      forall y | y in s[1..] ensures !Equivalent(lt, x, y) {
        assert y in s;
      }
      InsertNew(s[1..], x, lt);
    }
  }

  /** An element with no equivalent among the elements added before it is in
      the tree set: of equivalent elements, the one added first stays. */
  lemma {:induction false} TreeSetOfKeepsFirst<T(!new)>(items: seq<T>, lt: (T, T) -> bool, i: int)
    requires IsStrictOrder(lt) && 0 <= i < |items|
    requires forall j :: 0 <= j < i ==> !Equivalent(lt, items[j], items[i])
    ensures items[i] in TreeSetOf(items, lt)
    decreases |items|
  {
    var init := items[..|items| - 1];
    var x := items[|items| - 1];
    if i == |items| - 1 {
      TreeSetOfAdded(init, lt);
      forall y | y in TreeSetOf(init, lt) ensures !Equivalent(lt, x, y) {
        var k :| 0 <= k < |init| && init[k] == y;
        assert items[k] == y;
      }
      InsertNew(TreeSetOf(init, lt), x, lt);
    } else {
      forall j | 0 <= j < i ensures !Equivalent(lt, init[j], init[i]) {
        assert init[j] == items[j] && init[i] == items[i];
      }
      TreeSetOfKeepsFirst(init, lt, i);
      InsertElements(TreeSetOf(init, lt), x, lt);
    }
  }

  /** Every element with no equivalent added before it is in the tree set. */
  lemma TreeSetOfFirsts<T(!new)>(items: seq<T>, lt: (T, T) -> bool)
    requires IsStrictOrder(lt)
    ensures forall i :: 0 <= i < |items| && (forall j :: 0 <= j < i ==> !Equivalent(lt, items[j], items[i]))
              ==> items[i] in TreeSetOf(items, lt)
  {
    forall i | 0 <= i < |items| && (forall j :: 0 <= j < i ==> !Equivalent(lt, items[j], items[i]))
      ensures items[i] in TreeSetOf(items, lt)
    {
      TreeSetOfKeepsFirst(items, lt, i);
    }
  }

  lemma {:induction false} TreeSetOfCovers<T(!new)>(items: seq<T>, lt: (T, T) -> bool)
    requires IsStrictOrder(lt)
    ensures HasEquivalents(TreeSetOf(items, lt), items, lt)
    decreases |items|
  {
    if items != [] {
      var init := items[..|items| - 1];
      var x := items[|items| - 1];
      TreeSetOfIncreasing(init, lt);
      TreeSetOfCovers(init, lt);
      var s := TreeSetOf(init, lt);
      InsertProperties(s, x, lt);
      var r := Insert(s, x, lt);
      assert TreeSetOf(items, lt) == r;
      forall i | 0 <= i < |items| ensures exists y :: y in r && Equivalent(lt, items[i], y) {
        if i < |items| - 1 {
          assert items[i] == init[i];
          var y :| y in s && Equivalent(lt, init[i], y);
          assert y in r;
        }
      }
    }
  }

  /** With a total order the tree set holds exactly the added elements. */
  lemma TreeSetOfTotal<T(!new)>(items: seq<T>, lt: (T, T) -> bool)
    requires IsStrictOrder(lt) && IsTotal(lt)
    ensures Increasing(TreeSetOf(items, lt), lt)
    ensures forall y :: y in TreeSetOf(items, lt) <==> y in items
  {
    TreeSetOfProperties(items, lt);
    forall y | y in items ensures y in TreeSetOf(items, lt) {
      var i :| 0 <= i < |items| && items[i] == y;
      var z :| z in TreeSetOf(items, lt) && Equivalent(lt, items[i], z);
    }
  }

  // ---------------------------------------------------------------------------
  // The comparators
  // ---------------------------------------------------------------------------

  /** `a.compareTo(b) < 0` on strings: the first differing character decides,
      and a proper prefix comes first. */
  predicate LexLess(a: string, b: string)
    decreases |a|
  {
    if a == [] then b != []
    else if b == [] then false
    else if a[0] != b[0] then a[0] < b[0]
    else LexLess(a[1..], b[1..])
  }

  lemma {:induction false} LexLessIrreflexive(a: string)
    ensures !LexLess(a, a)
    decreases |a|
  {
    if a != [] {
      LexLessIrreflexive(a[1..]);
    }
  }

  lemma {:induction false} LexLessTransitive(a: string, b: string, c: string)
    requires LexLess(a, b) && LexLess(b, c)
    ensures LexLess(a, c)
    decreases |a|
  {
    if a != [] && b != [] && c != [] && a[0] == b[0] && b[0] == c[0] {
      LexLessTransitive(a[1..], b[1..], c[1..]);
    }
  }

  lemma {:induction false} LexLessTotal(a: string, b: string)
    requires a != b
    ensures LexLess(a, b) || LexLess(b, a)
    decreases |a|
  {
    if a != [] && b != [] && a[0] == b[0] {
      assert a == [a[0]] + a[1..] && b == [b[0]] + b[1..];
      LexLessTotal(a[1..], b[1..]);
    }
  }

  /** The natural order of strings, `String.compareTo`. */
  const StringOrder: (string, string) -> bool := (a: string, b: string) => LexLess(a, b)

  /** The natural order of integers, `Integer.compareTo`. */
  const IntOrder: (Int32, Int32) -> bool := (a: Int32, b: Int32) => a < b

  /** `Comparator.comparingInt(Math::abs)`. */
  const AbsOrder: (Int32, Int32) -> bool := (a: Int32, b: Int32) => JavaAbs(a) < JavaAbs(b)

  lemma StringOrderIsTotal()
    ensures IsStrictOrder(StringOrder) && IsTotal(StringOrder)
  {
    forall a: string { LexLessIrreflexive(a); }
    forall a: string, b: string, c: string | LexLess(a, b) && LexLess(b, c) ensures LexLess(a, c) {
      LexLessTransitive(a, b, c);
    }
    forall a: string, b: string | a != b ensures LexLess(a, b) || LexLess(b, a) {
      LexLessTotal(a, b);
    }
  }

  lemma IntOrderIsTotal()
    ensures IsStrictOrder(IntOrder) && IsTotal(IntOrder)
  {
  }

  lemma AbsOrderIsStrict()
    ensures IsStrictOrder(AbsOrder)
  {
  }
}
