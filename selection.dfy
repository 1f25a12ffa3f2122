/**
 * Order-preserving selection of statements from a body.  The normaliser keeps
 * a body's code statements (dropping docstrings) and splits it into buckets by
 * kind; stability of its sorts is stated by comparing the statements that share
 * one key.  All three are one filter with a different selector.
 */
module Selection {
  import opened PyAst
  import opened SortKeys

  datatype Selector =
    | Code                     // every statement that is not a docstring
    | OfKind(kind: DeclKind)   // the statements of one bucket
    | WithKey(key: string)     // the statements with one sort key

  predicate Selects(sel: Selector, s: Stmt)
  {
    match sel
    case Code => !IsDocstring(s)
    case OfKind(k) => Kind(s) == k
    case WithKey(k) => SortKey(s) == k
  }

  /** The selected statements of s, in their order in s. */
  function Filter(sel: Selector, s: seq<Stmt>): seq<Stmt>
  {
    if s == [] then []
    else (if Selects(sel, s[0]) then [s[0]] else []) + Filter(sel, s[1..])
  }

  /** One statement in front of a sequence is kept or dropped on its own. */
  lemma FilterCons(sel: Selector, h: Stmt, t: seq<Stmt>)
    ensures Filter(sel, [h] + t) == (if Selects(sel, h) then [h] else []) + Filter(sel, t)
  {
    assert ([h] + t)[0] == h && ([h] + t)[1..] == t;
  }

  /**
   * Of x and h at most one is selected: putting h in front of t and of r keeps
   * x where it stands relative to the filter of r.
   */
  lemma FilterBehindHead(sel: Selector, x: Stmt, h: Stmt, t: seq<Stmt>, r: seq<Stmt>)
    requires !(Selects(sel, x) && Selects(sel, h))
    requires Filter(sel, t) == (if Selects(sel, x) then [x] else []) + Filter(sel, r)
    ensures Filter(sel, [h] + t) == (if Selects(sel, x) then [x] else []) + Filter(sel, [h] + r)
  {
    var fr := Filter(sel, r);
    FilterCons(sel, h, t);
    FilterCons(sel, h, r);
    if Selects(sel, h) {
      assert Filter(sel, t) == [] + fr == fr;
      assert Filter(sel, [h] + t) == [h] + fr == Filter(sel, [h] + r);
      assert [] + Filter(sel, [h] + r) == Filter(sel, [h] + r);
    } else if Selects(sel, x) {
      assert Filter(sel, [h] + t) == [] + Filter(sel, t) == Filter(sel, t);
      assert Filter(sel, [h] + r) == [] + fr == fr;
    } else {
      assert Filter(sel, t) == [] + fr == fr;
      assert Filter(sel, [h] + t) == [] + fr == fr;
      assert Filter(sel, [h] + r) == [] + fr == fr;
    }
  }

  /** Filtering distributes over concatenation: relative order is kept. */
  lemma {:induction false} FilterAppend(sel: Selector, a: seq<Stmt>, b: seq<Stmt>)
    ensures Filter(sel, a + b) == Filter(sel, a) + Filter(sel, b)
  {
    if a == [] {
      assert a + b == b;
    } else {
      var head := if Selects(sel, a[0]) then [a[0]] else [];
      FilterAppend(sel, a[1..], b);
      assert (a + b)[0] == a[0];
      assert (a + b)[1..] == a[1..] + b;
      calc {
        Filter(sel, a + b);
        head + Filter(sel, a[1..] + b);
        head + (Filter(sel, a[1..]) + Filter(sel, b));
        (head + Filter(sel, a[1..])) + Filter(sel, b);
        Filter(sel, a) + Filter(sel, b);
      }
    }
  }

  /** Growing a prefix by one statement grows its filter by that statement if it is selected. */
  lemma FilterSnoc(sel: Selector, s: seq<Stmt>, i: nat)
    requires i < |s|
    ensures Filter(sel, s[..i + 1]) == Filter(sel, s[..i]) + (if Selects(sel, s[i]) then [s[i]] else [])
  {
    assert s[..i + 1] == s[..i] + [s[i]];
    FilterAppend(sel, s[..i], [s[i]]);
  }

  /** The filter holds every selected statement as often as s does, and nothing else. */
  lemma {:induction false} FilterMultiset(sel: Selector, s: seq<Stmt>)
    ensures forall x :: multiset(Filter(sel, s))[x] == if Selects(sel, x) then multiset(s)[x] else 0
  {
    if s != [] {
      FilterMultiset(sel, s[1..]);
      assert s == [s[0]] + s[1..];
    }
  }

  lemma FilterMembers(sel: Selector, s: seq<Stmt>)
    ensures forall x :: x in Filter(sel, s) <==> x in s && Selects(sel, x)
    ensures |Filter(sel, s)| <= |s|
  {
    FilterMultiset(sel, s);
    assert forall x :: x in Filter(sel, s) <==> multiset(Filter(sel, s))[x] > 0;
    calc {
      |Filter(sel, s)|;
      == |multiset(Filter(sel, s))|;
    <= { assert multiset(Filter(sel, s)) <= multiset(s); }
      |multiset(s)|;
      == |s|;
    }
  }

  /** A filter keeps s unchanged exactly when every statement of s is selected. */
  lemma {:induction false} FilterKeepsAll(sel: Selector, s: seq<Stmt>)
    ensures Filter(sel, s) == s <==> forall i :: 0 <= i < |s| ==> Selects(sel, s[i])
  {
    if s != [] {
      FilterKeepsAll(sel, s[1..]);
      FilterMembers(sel, s[1..]);
      if Filter(sel, s) == s {
        assert Selects(sel, s[0]);
        assert Filter(sel, s[1..]) == s[1..];
      }
    }
  }

  /** Two statements that are not both selected filter alike in either order. */
  lemma FilterPairSwap(sel: Selector, x: Stmt, y: Stmt)
    requires !(Selects(sel, x) && Selects(sel, y))
    ensures Filter(sel, [x, y]) == Filter(sel, [y, x])
  {
    assert [x, y][1..] == [y];
    assert [y, x][1..] == [x];
  }

  /** Filtering a concatenation of three parts. */
  lemma FilterSplit(sel: Selector, p: seq<Stmt>, m: seq<Stmt>, q: seq<Stmt>)
    ensures Filter(sel, p + m + q) == Filter(sel, p) + Filter(sel, m) + Filter(sel, q)
  {
    FilterAppend(sel, p + m, q);
    FilterAppend(sel, p, m);
  }
}
