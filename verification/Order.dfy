/**
 Python's lexicographic order on sequences of code points, code units or bytes, and its
 stable sort by a key.
 */
module Order {

  /** a <= b in lexicographic order */
  predicate LexLeq(a: seq<int>, b: seq<int>) {
    a == [] || (b != [] && (a[0] < b[0] || (a[0] == b[0] && LexLeq(a[1..], b[1..]))))
  }

  predicate LexLess(a: seq<int>, b: seq<int>) {
    LexLeq(a, b) && a != b
  }

  /** Lexicographic order: a prefix comes first, and otherwise the first difference decides. */
  lemma {:induction false} LexExactly(a: seq<int>, b: seq<int>)
    ensures LexLeq(a, b) <==> a <= b || exists k :: FirstDifference(a, b, k) && a[k] < b[k]
  {
    if a != [] && b != [] {
      if a[0] != b[0] {
        assert FirstDifference(a, b, 0);
      } else {
        LexExactly(a[1..], b[1..]);
        forall k | FirstDifference(a[1..], b[1..], k) ensures FirstDifference(a, b, k + 1) {
          SameFirst(a, b, k);
        }
        forall k | FirstDifference(a, b, k) ensures k > 0 && FirstDifference(a[1..], b[1..], k - 1) {}
        assert a <= b <==> a[1..] <= b[1..];
      }
    }
  }

  predicate FirstDifference(a: seq<int>, b: seq<int>, k: int) {
    0 <= k < |a| && k < |b| && a[k] != b[k] && a[..k] == b[..k]
  }

  lemma SameFirst(a: seq<int>, b: seq<int>, k: int)
    requires a != [] && b != [] && a[0] == b[0] && FirstDifference(a[1..], b[1..], k)
    ensures FirstDifference(a, b, k + 1)
  {
    assert a[..k + 1] == [a[0]] + a[1..][..k] && b[..k + 1] == [b[0]] + b[1..][..k];
  }

  lemma {:induction false} LexTotal(a: seq<int>, b: seq<int>)
    ensures LexLeq(a, b) || LexLeq(b, a)
    ensures LexLeq(a, b) && LexLeq(b, a) ==> a == b
  {
    if a != [] && b != [] {
      LexTotal(a[1..], b[1..]);
      assert a == [a[0]] + a[1..] && b == [b[0]] + b[1..];
    }
  }

  lemma {:induction false} LexTransitive(a: seq<int>, b: seq<int>, c: seq<int>)
    requires LexLeq(a, b) && LexLeq(b, c)
    ensures LexLeq(a, c)
  {
    if a != [] {
      if a[0] == b[0] && b[0] == c[0] {
        LexTransitive(a[1..], b[1..], c[1..]);
      }
    }
  }

  lemma LexLessTransitive(a: seq<int>, b: seq<int>, c: seq<int>)
    requires LexLess(a, b) && LexLess(b, c)
    ensures LexLess(a, c)
  {
    LexTransitive(a, b, c);
    if a == c {
      LexTotal(a, b);
    }
  }

  /** Python orders strings by code point. */
  function CodePoints(s: string): (r: seq<int>)
    ensures |r| == |s| && forall i | 0 <= i < |s| :: r[i] == s[i] as int
  {
    if s == "" then [] else [s[0] as int] + CodePoints(s[1..])
  }

  lemma AppendOne<T>(a: seq<T>, x: T, b: seq<T>)
    ensures a + ([x] + b) == a + [x] + b
  {}

  // ------------------------------------------------------------------ stable sort by key

  function Insert<T>(x: T, xs: seq<T>, key: T -> seq<int>): (r: seq<T>)
    ensures multiset(r) == multiset{x} + multiset(xs)
  {
    if xs == [] || LexLeq(key(x), key(xs[0])) then [x] + xs
    else
      assert xs == [xs[0]] + xs[1..];
      [xs[0]] + Insert(x, xs[1..], key)
  }

  function SortBy<T>(xs: seq<T>, key: T -> seq<int>): (r: seq<T>)
    ensures multiset(r) == multiset(xs)
    ensures |r| == |xs|
  {
    if xs == [] then []
    else
      assert xs == [xs[0]] + xs[1..];
      var r := Insert(xs[0], SortBy(xs[1..], key), key);
      assert |multiset(r)| == |multiset(xs)|;
      r
  }

  ghost predicate Distinct<T>(xs: seq<T>, key: T -> seq<int>) {
    forall i, j | 0 <= i < j < |xs| :: key(xs[i]) != key(xs[j])
  }

  ghost predicate Ascending<T>(xs: seq<T>, key: T -> seq<int>) {
    forall i, j | 0 <= i < j < |xs| :: LexLess(key(xs[i]), key(xs[j]))
  }

  lemma SameMembers<T>(xs: seq<T>, ys: seq<T>)
    requires multiset(xs) == multiset(ys)
    ensures forall x | x in xs :: x in ys
    ensures forall y | y in ys :: y in xs
  {
    assert forall x | x in xs :: x in multiset(xs);
    assert forall y | y in ys :: y in multiset(ys);
  }

  lemma {:induction false} InsertAscending<T>(x: T, xs: seq<T>, key: T -> seq<int>)
    requires Ascending(xs, key)
    requires forall y | y in xs :: key(y) != key(x)
    ensures Ascending(Insert(x, xs, key), key)
  {
    if xs == [] {
    } else if LexLeq(key(x), key(xs[0])) {
      forall j | 0 <= j < |xs| ensures LexLess(key(x), key(xs[j])) {
        if j > 0 {
          LexLessTransitive(key(x), key(xs[0]), key(xs[j]));
        }
      }
    } else {
      LexTotal(key(x), key(xs[0]));
      var tail := Insert(x, xs[1..], key);
      InsertAscending(x, xs[1..], key);
      SameMembers(tail, [x] + xs[1..]);
      forall j | 0 <= j < |tail| ensures LexLess(key(xs[0]), key(tail[j])) {
        assert tail[j] in tail;
        assert tail[j] in [x] + xs[1..];
        if tail[j] != x {
          FirstIsLeast(xs, tail[j], key);
          assert tail[j] in xs[1..];
        }
      }
    }
  }

  /** Sorting by pairwise distinct keys gives a strictly ascending sequence. */
  lemma {:induction false} SortByAscends<T>(xs: seq<T>, key: T -> seq<int>)
    requires Distinct(xs, key)
    ensures Ascending(SortBy(xs, key), key)
  {
    if xs != [] {
      SortByAscends(xs[1..], key);
      var rest := SortBy(xs[1..], key);
      SameMembers(rest, xs[1..]);
      forall y | y in rest ensures key(y) != key(xs[0]) {
        assert y in xs[1..];
        var j :| 0 <= j < |xs[1..]| && xs[1..][j] == y;
        assert key(xs[0]) != key(xs[j + 1]);
      }
      InsertAscending(xs[0], rest, key);
    }
  }

  ghost predicate Ordered<T>(xs: seq<T>, key: T -> seq<int>) {
    forall i, j | 0 <= i < j < |xs| :: LexLeq(key(xs[i]), key(xs[j]))
  }

  lemma {:induction false} InsertOrdered<T>(x: T, xs: seq<T>, key: T -> seq<int>)
    requires Ordered(xs, key)
    ensures Ordered(Insert(x, xs, key), key)
  {
    hide LexLeq;
    if xs != [] {
      LexTotal(key(x), key(xs[0]));
      if LexLeq(key(x), key(xs[0])) {
        forall j | 0 <= j < |xs| ensures LexLeq(key(x), key(xs[j])) {
          if j > 0 {
            LexTransitive(key(x), key(xs[0]), key(xs[j]));
          }
        }
      } else {
        InsertOrdered(x, xs[1..], key);
        var rest := Insert(x, xs[1..], key);
        SameMembers(rest, [x] + xs[1..]);
        forall y | y in rest ensures LexLeq(key(xs[0]), key(y)) {
          assert y in [x] + xs[1..];
          assert y == x || y in xs[1..];
        }
      }
    }
  }

  /** Sorting puts the keys in order, equal keys included. */
  lemma {:induction false} SortByOrders<T>(xs: seq<T>, key: T -> seq<int>)
    ensures Ordered(SortBy(xs, key), key)
  {
    if xs != [] {
      SortByOrders(xs[1..], key);
      InsertOrdered(xs[0], SortBy(xs[1..], key), key);
    }
  }

  /** A strictly ascending sequence is determined by its members. */
  lemma {:induction false} AscendingUnique<T>(xs: seq<T>, ys: seq<T>, key: T -> seq<int>)
    requires Ascending(xs, key) && Ascending(ys, key)
    requires forall x | x in xs :: x in ys
    requires forall y | y in ys :: y in xs
    ensures xs == ys
  {
    if xs != [] {
      NonemptyToo(xs, ys);
    }
    if ys != [] {
      NonemptyToo(ys, xs);
      assert xs[0] in ys;
      assert ys[0] in xs;
      FirstIsLeast(xs, ys[0], key);
      FirstIsLeast(ys, xs[0], key);
      LexTotal(key(xs[0]), key(ys[0]));
      TailMembers(xs, ys, key);
      TailMembers(ys, xs, key);
      AscendingUnique(xs[1..], ys[1..], key);
      assert xs == [xs[0]] + xs[1..] && ys == [ys[0]] + ys[1..];
    }
  }

  lemma NonemptyToo<T>(xs: seq<T>, ys: seq<T>)
    requires xs != [] && forall x | x in xs :: x in ys
    ensures ys != []
  {
    assert xs[0] in ys;
  }

  lemma FirstIsLeast<T>(xs: seq<T>, y: T, key: T -> seq<int>)
    requires Ascending(xs, key) && y in xs
    ensures xs[0] == y || LexLess(key(xs[0]), key(y))
  {
    var j :| 0 <= j < |xs| && xs[j] == y;
  }

  lemma TailMembers<T>(xs: seq<T>, ys: seq<T>, key: T -> seq<int>)
    requires xs != [] && ys != [] && xs[0] == ys[0]
    requires Ascending(xs, key)
    requires forall x | x in xs :: x in ys
    ensures forall x | x in xs[1..] :: x in ys[1..]
  {
    forall x | x in xs[1..] ensures x in ys[1..] {
      var i :| 0 <= i < |xs[1..]| && xs[1..][i] == x;
      assert LexLess(key(xs[0]), key(xs[i + 1]));
      assert x in ys;
      var j :| 0 <= j < |ys| && ys[j] == x;
      assert j != 0;
      assert ys[1..][j - 1] == x;
    }
  }
}
