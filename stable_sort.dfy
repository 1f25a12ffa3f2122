/**
 * Python's sorted(list, key=SortKey): a stable sort, written as an insertion
 * sort that places each statement before the first later one whose key is not
 * smaller.  Its result is a permutation, is ordered by key, keeps the input
 * order among equal keys, and is the only list with those three properties.
 */
module StableSort {
  import opened PyAst
  import opened SortKeys
  import opened Selection

  /** Put x in front of the first statement of s whose key is not below x's key. */
  function Insert(x: Stmt, s: seq<Stmt>): seq<Stmt>
  {
    if s == [] then [x]
    else if LexLe(SortKey(x), SortKey(s[0])) then [x] + s
    else [s[0]] + Insert(x, s[1..])
  }

  function SortByKey(s: seq<Stmt>): seq<Stmt>
  {
    if s == [] then [] else Insert(s[0], SortByKey(s[1..]))
  }

  /** Keys never decrease from left to right. */
  predicate Sorted(s: seq<Stmt>)
  {
    forall i, j :: 0 <= i < j < |s| ==> LexLe(SortKey(s[i]), SortKey(s[j]))
  }

  lemma {:induction false} InsertMultiset(x: Stmt, s: seq<Stmt>)
    ensures multiset(Insert(x, s)) == multiset(s) + multiset{x}
  {
    if s == [] {
    } else if LexLe(SortKey(x), SortKey(s[0])) {
      assert Insert(x, s) == [x] + s;
    } else {
      assert Insert(x, s) == [s[0]] + Insert(x, s[1..]);
      InsertMultiset(x, s[1..]);
      MultisetBehindHead(x, s[0], Insert(x, s[1..]), s[1..]);
      assert [s[0]] + s[1..] == s;
    }
  }

  lemma MultisetBehindHead(x: Stmt, h: Stmt, t: seq<Stmt>, r: seq<Stmt>)
    requires multiset(t) == multiset(r) + multiset{x}
    ensures multiset([h] + t) == multiset([h] + r) + multiset{x}
  {
  }

  /** The sort is a permutation of its input. */
  lemma {:induction false} SortMultiset(s: seq<Stmt>)
    ensures multiset(SortByKey(s)) == multiset(s)
  {
    if s != [] {
      SortMultiset(s[1..]);
      InsertMultiset(s[0], SortByKey(s[1..]));
      assert s == [s[0]] + s[1..];
    }
  }

  lemma SortedCons(h: Stmt, t: seq<Stmt>)
    requires Sorted(t)
    requires forall y :: y in t ==> LexLe(SortKey(h), SortKey(y))
    ensures Sorted([h] + t)
  {
    var s := [h] + t;
    forall i, j | 0 <= i < j < |s| ensures LexLe(SortKey(s[i]), SortKey(s[j])) {
      if i > 0 {
        assert s[i] == t[i - 1] && s[j] == t[j - 1];
      } else {
        assert s[j] == t[j - 1] && s[j] in t;
      }
    }
  }

  lemma {:induction false} InsertSorted(x: Stmt, s: seq<Stmt>)
    requires Sorted(s)
    ensures Sorted(Insert(x, s))
  {
    if s == [] {
    } else if LexLe(SortKey(x), SortKey(s[0])) {
      forall y | y in s ensures LexLe(SortKey(x), SortKey(y)) {
        var j :| 0 <= j < |s| && s[j] == y;
        if j > 0 {
          LexLeTransitive(SortKey(x), SortKey(s[0]), SortKey(y));
        }
      }
      SortedCons(x, s);
    } else {
      LexLeTotal(SortKey(x), SortKey(s[0]));
      var t := s[1..];
      assert Sorted(t) by {
        forall i, j | 0 <= i < j < |t| ensures LexLe(SortKey(t[i]), SortKey(t[j])) {
          assert t[i] == s[i + 1] && t[j] == s[j + 1];
        }
      }
      InsertSorted(x, t);
      InsertMultiset(x, t);
      forall y | y in Insert(x, t) ensures LexLe(SortKey(s[0]), SortKey(y)) {
        assert y in multiset(Insert(x, t));
        if y != x {
          assert y in t;
          var j :| 0 <= j < |t| && t[j] == y;
          assert s[j + 1] == y;
        }
      }
      SortedCons(s[0], Insert(x, t));
    }
  }

  /** The sort orders its result by key. */
  lemma {:induction false} SortSorted(s: seq<Stmt>)
    ensures Sorted(SortByKey(s))
  {
    if s != [] {
      SortSorted(s[1..]);
      InsertSorted(s[0], SortByKey(s[1..]));
    }
  }

  /**
   * Inserting x adds x to the statements with x's key, in front of them, and
   * leaves the statements of every other key as they were.
   */
  lemma {:induction false} InsertStable(x: Stmt, s: seq<Stmt>, k: string)
    ensures Filter(WithKey(k), Insert(x, s))
         == (if SortKey(x) == k then [x] else []) + Filter(WithKey(k), s)
  {
    if s == [] {
      FilterCons(WithKey(k), x, []);
    } else if LexLe(SortKey(x), SortKey(s[0])) {
      assert Insert(x, s) == [x] + s;
      FilterCons(WithKey(k), x, s);
    } else {
      assert Insert(x, s) == [s[0]] + Insert(x, s[1..]);
      InsertStable(x, s[1..], k);
      LexLeReflexive(SortKey(x));
      assert !(Selects(WithKey(k), x) && Selects(WithKey(k), s[0]));
      FilterBehindHead(WithKey(k), x, s[0], Insert(x, s[1..]), s[1..]);
      assert [s[0]] + s[1..] == s;
    }
  }

  /** Stability: the statements that share a key keep their input order. */
  lemma {:induction false} SortStable(s: seq<Stmt>)
    ensures forall k :: Filter(WithKey(k), SortByKey(s)) == Filter(WithKey(k), s)
  {
    if s != [] {
      SortStable(s[1..]);
      forall k ensures Filter(WithKey(k), SortByKey(s)) == Filter(WithKey(k), s) {
        InsertStable(s[0], SortByKey(s[1..]), k);
      }
    }
  }

  /** Sorting a list that is already in key order leaves it unchanged. */
  lemma {:induction false} SortOfSorted(s: seq<Stmt>)
    requires Sorted(s)
    ensures SortByKey(s) == s
  {
    if s != [] {
      var t := s[1..];
      assert Sorted(t) by {
        forall i, j | 0 <= i < j < |t| ensures LexLe(SortKey(t[i]), SortKey(t[j])) {
          assert t[i] == s[i + 1] && t[j] == s[j + 1];
        }
      }
      SortOfSorted(t);
      assert s == [s[0]] + t;
    }
  }

  /** Sorting twice is sorting once. */
  lemma SortIdempotent(s: seq<Stmt>)
    ensures SortByKey(SortByKey(s)) == SortByKey(s)
  {
    SortSorted(s);
    SortOfSorted(SortByKey(s));
  }

  lemma SortedTail(t: seq<Stmt>)
    requires Sorted(t) && t != []
    ensures Sorted(t[1..])
  {
    var t' := t[1..];
    forall i, j | 0 <= i < j < |t'| ensures LexLe(SortKey(t'[i]), SortKey(t'[j])) {
      assert t'[i] == t[i + 1] && t'[j] == t[j + 1];
    }
  }

  /** In a key-ordered list the first statement has the least key. */
  lemma SortedHeadLeast(t: seq<Stmt>, y: Stmt)
    requires Sorted(t) && y in t
    ensures LexLe(SortKey(t[0]), SortKey(y))
  {
    var j :| 0 <= j < |t| && t[j] == y;
    if j == 0 {
      LexLeReflexive(SortKey(y));
    }
  }

  /** Two key-ordered lists that agree on the statements of every key start with the same statement. */
  lemma SortedSameHead(t: seq<Stmt>, u: seq<Stmt>)
    requires Sorted(t) && Sorted(u) && t != [] && u != []
    requires forall k :: Filter(WithKey(k), t) == Filter(WithKey(k), u)
    ensures t[0] == u[0]
  {
    var kt, ku := SortKey(t[0]), SortKey(u[0]);
    FilterMembers(WithKey(kt), u);
    FilterMembers(WithKey(ku), t);
    assert Filter(WithKey(kt), t)[0] == t[0];
    assert Filter(WithKey(ku), u)[0] == u[0];
    var y :| y in u && SortKey(y) == kt;
    var z :| z in t && SortKey(z) == ku;
    SortedHeadLeast(u, y);
    SortedHeadLeast(t, z);
    LexLeAntisymmetric(kt, ku);
  }

  /** Two key-ordered lists that agree on the statements of every key are equal. */
  lemma {:induction false} SortedUnique(t: seq<Stmt>, u: seq<Stmt>)
    requires Sorted(t) && Sorted(u)
    requires forall k :: Filter(WithKey(k), t) == Filter(WithKey(k), u)
    ensures t == u
    decreases |t|
  {
    if t == [] || u == [] {
      assert t != [] ==> Filter(WithKey(SortKey(t[0])), t) != [];
      assert u != [] ==> Filter(WithKey(SortKey(u[0])), u) != [];
    } else {
      SortedSameHead(t, u);
      var t', u' := t[1..], u[1..];
      forall k ensures Filter(WithKey(k), t') == Filter(WithKey(k), u') {
        var h: seq<Stmt> := if SortKey(t[0]) == k then [t[0]] else [];
        assert Filter(WithKey(k), t) == h + Filter(WithKey(k), t');
        assert Filter(WithKey(k), u) == h + Filter(WithKey(k), u');
        assert Filter(WithKey(k), t') == Filter(WithKey(k), t)[|h|..];
        assert Filter(WithKey(k), u') == Filter(WithKey(k), u)[|h|..];
      }
      SortedTail(t);
      SortedTail(u);
      SortedUnique(t', u');
      assert t == [t[0]] + t' && u == [u[0]] + u';
    }
  }

  /**
   * The contract of Python's sorted determines its result: a key-ordered list
   * that keeps the input order among equal keys is exactly SortByKey(s).
   */
  lemma SortCharacterized(s: seq<Stmt>, t: seq<Stmt>)
    requires Sorted(t)
    requires forall k :: Filter(WithKey(k), t) == Filter(WithKey(k), s)
    ensures t == SortByKey(s)
  {
    SortSorted(s);
    SortStable(s);
    SortedUnique(t, SortByKey(s));
  }

  /** Exchanging two adjacent statements with different keys does not change the sorted result. */
  lemma SortSwapAdjacent(p: seq<Stmt>, x: Stmt, y: Stmt, q: seq<Stmt>)
    requires SortKey(x) != SortKey(y)
    ensures SortByKey(p + [x, y] + q) == SortByKey(p + [y, x] + q)
  {
    var u, v := p + [x, y] + q, p + [y, x] + q;
    forall k ensures Filter(WithKey(k), v) == Filter(WithKey(k), u) {
      FilterSplit(WithKey(k), p, [x, y], q);
      FilterSplit(WithKey(k), p, [y, x], q);
      FilterPairSwap(WithKey(k), x, y);
    }
    SortSorted(v);
    SortStable(v);
    SortCharacterized(u, SortByKey(v));
  }
}
