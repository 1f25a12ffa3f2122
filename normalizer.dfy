/**
 * Canonicalisation of a parsed module: in the body of the module and of every
 * class and function, drop the docstrings, then regroup the statements into
 * the buckets Import, ImportFrom, ClassDef, AsyncFunctionDef, FunctionDef,
 * Other (in that order), each declaration bucket stably sorted by its key.
 */
module Normalizer {
  import opened PyAst
  import opened SortKeys
  import opened Selection
  import opened StableSort

  // ---------------------------------------------------------------------------
  // remove_docstrings
  // ---------------------------------------------------------------------------

  /**
   * Walk the body once and keep every statement that is not a standalone string
   * expression.  The result is exactly the code statements, in their order.
   */
  method RemoveDocstrings(body: seq<Stmt>) returns (edited: seq<Stmt>)
    ensures edited == Filter(Code, body)
    ensures forall i :: 0 <= i < |edited| ==> !IsDocstring(edited[i])
    ensures forall x :: multiset(edited)[x] == if IsDocstring(x) then 0 else multiset(body)[x]
    ensures |edited| <= |body|
  {
    edited := [];
    for i := 0 to |body|
      invariant edited == Filter(Code, body[..i])
    {
      FilterSnoc(Code, body, i);
      var node := body[i];
      if !IsDocstring(node) {
        edited := edited + [node];
      }
    }
    assert body[..|body|] == body;
    FilterMembers(Code, body);
    FilterMultiset(Code, body);
    assert forall i :: 0 <= i < |edited| ==> edited[i] in edited;
  }

  // ---------------------------------------------------------------------------
  // sort_current_list and lexicographically_sort_names
  // ---------------------------------------------------------------------------

  /**
   * One bucket in canonical order: a declaration bucket is sorted by key with
   * Python's stable sort, the Other bucket is returned as it is.
   */
  function SortCurrentList(kind: DeclKind, list: seq<Stmt>): seq<Stmt>
  {
    if kind == OtherStmt then list else SortByKey(list)
  }

  /** A bucket in canonical order holds the same statements as the bucket. */
  lemma SortCurrentListPermutes(kind: DeclKind, list: seq<Stmt>)
    ensures multiset(SortCurrentList(kind, list)) == multiset(list)
  {
    SortMultiset(list);
  }

  /** A declaration bucket in canonical order is sorted by key. */
  lemma SortCurrentListSorted(kind: DeclKind, list: seq<Stmt>)
    requires kind != OtherStmt
    ensures Sorted(SortCurrentList(kind, list))
  {
    SortSorted(list);
  }

  /** Statements that share a key keep their input order. */
  lemma SortCurrentListStable(kind: DeclKind, list: seq<Stmt>)
    ensures forall k :: Filter(WithKey(k), SortCurrentList(kind, list)) == Filter(WithKey(k), list)
    ensures kind == OtherStmt ==> SortCurrentList(kind, list) == list
  {
    SortStable(list);
  }

  /** Two lists with the same statements have the same members. */
  lemma PermutationMembers(a: seq<Stmt>, b: seq<Stmt>)
    requires multiset(a) == multiset(b)
    ensures forall x :: x in a <==> x in b
  {
    assert forall x :: x in a <==> x in multiset(a);
    assert forall x :: x in b <==> x in multiset(b);
  }

  /** Every statement of s belongs to bucket k. */
  predicate AllOfKind(s: seq<Stmt>, k: DeclKind)
  {
    forall x :: x in s ==> Kind(x) == k
  }

  /** The statements of one kind, in canonical order. */
  function Bucket(body: seq<Stmt>, k: DeclKind): seq<Stmt>
  {
    SortCurrentList(k, Filter(OfKind(k), body))
  }

  /** The six buckets concatenated in their fixed order. */
  function Reordered(body: seq<Stmt>): seq<Stmt>
  {
    Bucket(body, ImportDecl)
    + Bucket(body, ImportFromDecl)
    + Bucket(body, ClassDecl)
    + Bucket(body, AsyncFunctionDecl)
    + Bucket(body, FunctionDecl)
    + Bucket(body, OtherStmt)
  }

  /** Statements of a lower-ranked bucket always come before those of a higher one. */
  predicate KindsOrdered(s: seq<Stmt>)
  {
    forall i, j :: 0 <= i < j < |s| ==> Rank(Kind(s[i])) <= Rank(Kind(s[j]))
  }

  /**
   * Walk the body once, appending each statement to the list of its kind,
   * then concatenate the lists, each in canonical order.
   */
  method LexicographicallySortNames(body: seq<Stmt>) returns (edited: seq<Stmt>)
    ensures edited == Reordered(body)
    ensures multiset(edited) == multiset(body)
    ensures KindsOrdered(edited)
    ensures forall k :: Filter(OfKind(k), edited) == Bucket(body, k)
  {
    var importList, importFromList, classList, asyncFuncList, funcList, otherList := DistributeByKind(body);
    edited := [];
    edited := edited + SortCurrentList(ImportDecl, importList);
    assert edited == Bucket(body, ImportDecl);
    edited := edited + SortCurrentList(ImportFromDecl, importFromList);
    edited := edited + SortCurrentList(ClassDecl, classList);
    edited := edited + SortCurrentList(AsyncFunctionDecl, asyncFuncList);
    edited := edited + SortCurrentList(FunctionDecl, funcList);
    assert otherList == Bucket(body, OtherStmt);
    edited := edited + otherList;
    ReorderedSpec(body);
  }

  /** The loop of lexicographically_sort_names: each statement of the body goes to the list of its kind, in body order. */
  method DistributeByKind(body: seq<Stmt>)
    returns (importList: seq<Stmt>, importFromList: seq<Stmt>, classList: seq<Stmt>,
             asyncFuncList: seq<Stmt>, funcList: seq<Stmt>, otherList: seq<Stmt>)
    ensures importList == Filter(OfKind(ImportDecl), body)
    ensures importFromList == Filter(OfKind(ImportFromDecl), body)
    ensures classList == Filter(OfKind(ClassDecl), body)
    ensures asyncFuncList == Filter(OfKind(AsyncFunctionDecl), body)
    ensures funcList == Filter(OfKind(FunctionDecl), body)
    ensures otherList == Filter(OfKind(OtherStmt), body)
  {
    funcList, classList, asyncFuncList := [], [], [];
    importList, importFromList, otherList := [], [], [];
    for i := 0 to |body|
      invariant funcList == Filter(OfKind(FunctionDecl), body[..i])
      invariant classList == Filter(OfKind(ClassDecl), body[..i])
      invariant asyncFuncList == Filter(OfKind(AsyncFunctionDecl), body[..i])
      invariant importList == Filter(OfKind(ImportDecl), body[..i])
      invariant importFromList == Filter(OfKind(ImportFromDecl), body[..i])
      invariant otherList == Filter(OfKind(OtherStmt), body[..i])
    {
      BucketsSnoc(body, i);
      var node := body[i];
      if node.FunctionDef? {
        funcList := funcList + [node];
      } else if node.ClassDef? {
        classList := classList + [node];
      } else if node.AsyncFunctionDef? {
        asyncFuncList := asyncFuncList + [node];
      } else if node.Import? {
        importList := importList + [node];
      } else if node.ImportFrom? {
        importFromList := importFromList + [node];
      } else {
        otherList := otherList + [node];
      }
    }
    assert body[..|body|] == body;
  }

  /** One more statement of the body lands in exactly the list of its own kind. */
  lemma BucketsSnoc(body: seq<Stmt>, i: nat)
    requires i < |body|
    ensures Filter(OfKind(FunctionDecl), body[..i + 1])
         == Filter(OfKind(FunctionDecl), body[..i]) + if body[i].FunctionDef? then [body[i]] else []
    ensures Filter(OfKind(ClassDecl), body[..i + 1])
         == Filter(OfKind(ClassDecl), body[..i]) + if body[i].ClassDef? then [body[i]] else []
    ensures Filter(OfKind(AsyncFunctionDecl), body[..i + 1])
         == Filter(OfKind(AsyncFunctionDecl), body[..i]) + if body[i].AsyncFunctionDef? then [body[i]] else []
    ensures Filter(OfKind(ImportDecl), body[..i + 1])
         == Filter(OfKind(ImportDecl), body[..i]) + if body[i].Import? then [body[i]] else []
    ensures Filter(OfKind(ImportFromDecl), body[..i + 1])
         == Filter(OfKind(ImportFromDecl), body[..i]) + if body[i].ImportFrom? then [body[i]] else []
    ensures Filter(OfKind(OtherStmt), body[..i + 1])
         == Filter(OfKind(OtherStmt), body[..i]) + if body[i].StrExpr? || body[i].Other? then [body[i]] else []
  {
    FilterSnoc(OfKind(FunctionDecl), body, i);
    FilterSnoc(OfKind(ClassDecl), body, i);
    FilterSnoc(OfKind(AsyncFunctionDecl), body, i);
    FilterSnoc(OfKind(ImportDecl), body, i);
    FilterSnoc(OfKind(ImportFromDecl), body, i);
    FilterSnoc(OfKind(OtherStmt), body, i);
  }

  lemma BucketKinds(body: seq<Stmt>, k: DeclKind)
    ensures AllOfKind(Bucket(body, k), k)
  {
    var f := Filter(OfKind(k), body);
    FilterMembers(OfKind(k), body);
    SortCurrentListPermutes(k, f);
    PermutationMembers(Bucket(body, k), f);
  }

  lemma {:induction false} FilterOfOneKind(s: seq<Stmt>, k: DeclKind, k': DeclKind)
    requires AllOfKind(s, k)
    ensures Filter(OfKind(k'), s) == if k == k' then s else []
  {
    if s != [] {
      assert s[0] in s;
      assert forall x :: x in s[1..] ==> x in s;
      FilterOfOneKind(s[1..], k, k');
      assert s == [s[0]] + s[1..];
    }
  }

  /** Taking one kind out of six lists of one kind each, concatenated, gives that kind's list. */
  lemma FilterConcatOfKinds(k: DeclKind, b0: seq<Stmt>, b1: seq<Stmt>, b2: seq<Stmt>, b3: seq<Stmt>, b4: seq<Stmt>, b5: seq<Stmt>)
    requires AllOfKind(b0, ImportDecl) && AllOfKind(b1, ImportFromDecl) && AllOfKind(b2, ClassDecl)
    requires AllOfKind(b3, AsyncFunctionDecl) && AllOfKind(b4, FunctionDecl) && AllOfKind(b5, OtherStmt)
    ensures Filter(OfKind(k), b0 + b1 + b2 + b3 + b4 + b5)
         == match k
            case ImportDecl => b0
            case ImportFromDecl => b1
            case ClassDecl => b2
            case AsyncFunctionDecl => b3
            case FunctionDecl => b4
            case OtherStmt => b5
  {
    var sel := OfKind(k);
    FilterAppend(sel, b0 + b1 + b2 + b3 + b4, b5);
    FilterAppend(sel, b0 + b1 + b2 + b3, b4);
    FilterAppend(sel, b0 + b1 + b2, b3);
    FilterAppend(sel, b0 + b1, b2);
    FilterAppend(sel, b0, b1);
    FilterOfOneKind(b0, ImportDecl, k);
    FilterOfOneKind(b1, ImportFromDecl, k);
    FilterOfOneKind(b2, ClassDecl, k);
    FilterOfOneKind(b3, AsyncFunctionDecl, k);
    FilterOfOneKind(b4, FunctionDecl, k);
    FilterOfOneKind(b5, OtherStmt, k);
  }

  /**
   * Taking one kind out of the canonical body gives that kind's bucket: the
   * Other statements in their input order, every declaration kind sorted.
   */
  lemma ReorderedBucket(body: seq<Stmt>, k: DeclKind)
    ensures Filter(OfKind(k), Reordered(body)) == Bucket(body, k)
  {
    BucketKinds(body, ImportDecl);
    BucketKinds(body, ImportFromDecl);
    BucketKinds(body, ClassDecl);
    BucketKinds(body, AsyncFunctionDecl);
    BucketKinds(body, FunctionDecl);
    BucketKinds(body, OtherStmt);
    FilterConcatOfKinds(k, Bucket(body, ImportDecl), Bucket(body, ImportFromDecl), Bucket(body, ClassDecl),
                        Bucket(body, AsyncFunctionDecl), Bucket(body, FunctionDecl), Bucket(body, OtherStmt));
  }

  function KindsMultiset(body: seq<Stmt>): multiset<Stmt>
  {
    multiset(Filter(OfKind(ImportDecl), body))
    + multiset(Filter(OfKind(ImportFromDecl), body))
    + multiset(Filter(OfKind(ClassDecl), body))
    + multiset(Filter(OfKind(AsyncFunctionDecl), body))
    + multiset(Filter(OfKind(FunctionDecl), body))
    + multiset(Filter(OfKind(OtherStmt), body))
  }

  /** Every statement falls into exactly one bucket. */
  lemma KindsPartition(body: seq<Stmt>)
    ensures KindsMultiset(body) == multiset(body)
  {
    FilterMultiset(OfKind(ImportDecl), body);
    FilterMultiset(OfKind(ImportFromDecl), body);
    FilterMultiset(OfKind(ClassDecl), body);
    FilterMultiset(OfKind(AsyncFunctionDecl), body);
    FilterMultiset(OfKind(FunctionDecl), body);
    FilterMultiset(OfKind(OtherStmt), body);
    forall x ensures KindsMultiset(body)[x] == multiset(body)[x] {
    }
  }

  /** Regrouping loses no statement and adds none. */
  lemma ReorderedPermutation(body: seq<Stmt>)
    ensures multiset(Reordered(body)) == multiset(body)
  {
    KindsPartition(body);
    SortCurrentListPermutes(ImportDecl, Filter(OfKind(ImportDecl), body));
    SortCurrentListPermutes(ImportFromDecl, Filter(OfKind(ImportFromDecl), body));
    SortCurrentListPermutes(ClassDecl, Filter(OfKind(ClassDecl), body));
    SortCurrentListPermutes(AsyncFunctionDecl, Filter(OfKind(AsyncFunctionDecl), body));
    SortCurrentListPermutes(FunctionDecl, Filter(OfKind(FunctionDecl), body));
  }

  lemma AppendBucket(a: seq<Stmt>, p: seq<Stmt>, k: DeclKind)
    requires KindsOrdered(a)
    requires forall x :: x in a ==> Rank(Kind(x)) <= Rank(k)
    requires AllOfKind(p, k)
    ensures KindsOrdered(a + p)
    ensures forall x :: x in a + p ==> Rank(Kind(x)) <= Rank(k)
  {
    var s := a + p;
    forall i, j | 0 <= i < j < |s| ensures Rank(Kind(s[i])) <= Rank(Kind(s[j])) {
      if j < |a| {
        assert s[i] == a[i] && s[j] == a[j];
      } else if i < |a| {
        assert s[i] == a[i] && s[i] in a && s[j] == p[j - |a|] && s[j] in p;
      } else {
        assert s[i] == p[i - |a|] && s[j] == p[j - |a|] && s[i] in p && s[j] in p;
      }
    }
  }

  /** Six lists, each of one kind, concatenated in the fixed order of the kinds. */
  lemma ConcatKindsOrdered(b0: seq<Stmt>, b1: seq<Stmt>, b2: seq<Stmt>, b3: seq<Stmt>, b4: seq<Stmt>, b5: seq<Stmt>)
    requires AllOfKind(b0, ImportDecl) && AllOfKind(b1, ImportFromDecl) && AllOfKind(b2, ClassDecl)
    requires AllOfKind(b3, AsyncFunctionDecl) && AllOfKind(b4, FunctionDecl) && AllOfKind(b5, OtherStmt)
    ensures KindsOrdered(b0 + b1 + b2 + b3 + b4 + b5)
  {
    AppendBucket([], b0, ImportDecl);
    assert [] + b0 == b0;
    AppendBucket(b0, b1, ImportFromDecl);
    AppendBucket(b0 + b1, b2, ClassDecl);
    AppendBucket(b0 + b1 + b2, b3, AsyncFunctionDecl);
    AppendBucket(b0 + b1 + b2 + b3, b4, FunctionDecl);
    AppendBucket(b0 + b1 + b2 + b3 + b4, b5, OtherStmt);
  }

  /** Imports, then from-imports, classes, async functions, functions, and the rest. */
  lemma ReorderedKindsOrdered(body: seq<Stmt>)
    ensures KindsOrdered(Reordered(body))
  {
    BucketKinds(body, ImportDecl);
    BucketKinds(body, ImportFromDecl);
    BucketKinds(body, ClassDecl);
    BucketKinds(body, AsyncFunctionDecl);
    BucketKinds(body, FunctionDecl);
    BucketKinds(body, OtherStmt);
    ConcatKindsOrdered(Bucket(body, ImportDecl), Bucket(body, ImportFromDecl), Bucket(body, ClassDecl),
                       Bucket(body, AsyncFunctionDecl), Bucket(body, FunctionDecl), Bucket(body, OtherStmt));
  }

  /**
   * The regrouped body is a permutation of the body, its buckets come in their
   * fixed order, and each bucket is that kind's statements in canonical order.
   */
  lemma ReorderedSpec(body: seq<Stmt>)
    ensures multiset(Reordered(body)) == multiset(body)
    ensures KindsOrdered(Reordered(body))
    ensures forall k :: Filter(OfKind(k), Reordered(body)) == Bucket(body, k)
  {
    ReorderedPermutation(body);
    ReorderedKindsOrdered(body);
    forall k ensures Filter(OfKind(k), Reordered(body)) == Bucket(body, k) {
      ReorderedBucket(body, k);
    }
  }

  /** Regrouping an already regrouped body changes nothing. */
  lemma ReorderedIdempotent(body: seq<Stmt>)
    ensures Reordered(Reordered(body)) == Reordered(body)
  {
    var r := Reordered(body);
    forall k ensures Bucket(r, k) == Bucket(body, k) {
      ReorderedBucket(body, k);
      if k != OtherStmt {
        SortIdempotent(Filter(OfKind(k), body));
      }
    }
  }

  // ---------------------------------------------------------------------------
  // The normalisation walk of format_script
  // ---------------------------------------------------------------------------

  /**
   * Normalise every body reachable from a statement.  Class and function
   * bodies are filtered and regrouped; the statements nested in any other
   * statement are normalised one by one but keep their places.
   */
  function NormalizeStmt(s: Stmt): Stmt
    decreases s, 2
  {
    match s
    case ClassDef(name, header, body) => ClassDef(name, header, NormalizeBody(body))
    case FunctionDef(name, header, body) => FunctionDef(name, header, NormalizeBody(body))
    case AsyncFunctionDef(name, header, body) => AsyncFunctionDef(name, header, NormalizeBody(body))
    case Other(text, children) => Other(text, NormalizeEach(children))
    case _ => s
  }

  /** Normalise each statement of a list in place. */
  function NormalizeEach(b: seq<Stmt>): (r: seq<Stmt>)
    ensures |r| == |b|
    ensures forall i :: 0 <= i < |b| ==> r[i] == NormalizeStmt(b[i])
    decreases b, 0
  {
    if b == [] then [] else [NormalizeStmt(b[0])] + NormalizeEach(b[1..])
  }

  /** A composite node's body: normalise the statements, drop docstrings, regroup. */
  function NormalizeBody(b: seq<Stmt>): seq<Stmt>
    decreases b, 1
  {
    Reordered(Filter(Code, NormalizeEach(b)))
  }

  /** format_script's walk over the whole tree, starting at the module. */
  function NormalizeTree(m: Module): Module
  {
    Module(NormalizeBody(m.body))
  }

  /** Normalising a statement keeps its bucket, its key and whether it is a docstring. */
  lemma NormalizePreserves(s: Stmt)
    ensures Kind(NormalizeStmt(s)) == Kind(s)
    ensures SortKey(NormalizeStmt(s)) == SortKey(s)
    ensures IsDocstring(NormalizeStmt(s)) == IsDocstring(s)
    ensures forall sel :: Selects(sel, NormalizeStmt(s)) == Selects(sel, s)
  {
  }

  lemma EachAppend(a: seq<Stmt>, b: seq<Stmt>)
    ensures NormalizeEach(a + b) == NormalizeEach(a) + NormalizeEach(b)
  {
  }

  lemma {:induction false} EachFilter(sel: Selector, b: seq<Stmt>)
    ensures NormalizeEach(Filter(sel, b)) == Filter(sel, NormalizeEach(b))
  {
    if b != [] {
      EachFilter(sel, b[1..]);
      NormalizePreserves(b[0]);
      var head: seq<Stmt> := if Selects(sel, b[0]) then [b[0]] else [];
      EachAppend(head, Filter(sel, b[1..]));
      assert NormalizeEach(b)[1..] == NormalizeEach(b[1..]);
    }
  }

  lemma {:induction false} EachInsert(x: Stmt, s: seq<Stmt>)
    ensures NormalizeEach(Insert(x, s)) == Insert(NormalizeStmt(x), NormalizeEach(s))
  {
    NormalizePreserves(x);
    if s != [] {
      NormalizePreserves(s[0]);
      assert NormalizeEach(s)[1..] == NormalizeEach(s[1..]);
      if !LexLe(SortKey(x), SortKey(s[0])) {
        EachInsert(x, s[1..]);
        EachAppend([s[0]], Insert(x, s[1..]));
      } else {
        EachAppend([x], s);
      }
    }
  }

  lemma {:induction false} EachSort(s: seq<Stmt>)
    ensures NormalizeEach(SortByKey(s)) == SortByKey(NormalizeEach(s))
  {
    if s != [] {
      EachSort(s[1..]);
      EachInsert(s[0], SortByKey(s[1..]));
      assert NormalizeEach(s)[1..] == NormalizeEach(s[1..]);
    }
  }

  lemma EachBucket(body: seq<Stmt>, k: DeclKind)
    ensures NormalizeEach(Bucket(body, k)) == Bucket(NormalizeEach(body), k)
  {
    EachFilter(OfKind(k), body);
    if k != OtherStmt {
      EachSort(Filter(OfKind(k), body));
    }
  }

  /** Normalising the statements commutes with regrouping them. */
  lemma EachReordered(body: seq<Stmt>)
    ensures NormalizeEach(Reordered(body)) == Reordered(NormalizeEach(body))
  {
    var b0, b1, b2 := Bucket(body, ImportDecl), Bucket(body, ImportFromDecl), Bucket(body, ClassDecl);
    var b3, b4, b5 := Bucket(body, AsyncFunctionDecl), Bucket(body, FunctionDecl), Bucket(body, OtherStmt);
    EachAppend(b0 + b1 + b2 + b3 + b4, b5);
    EachAppend(b0 + b1 + b2 + b3, b4);
    EachAppend(b0 + b1 + b2, b3);
    EachAppend(b0 + b1, b2);
    EachAppend(b0, b1);
    EachBucket(body, ImportDecl);
    EachBucket(body, ImportFromDecl);
    EachBucket(body, ClassDecl);
    EachBucket(body, AsyncFunctionDecl);
    EachBucket(body, FunctionDecl);
    EachBucket(body, OtherStmt);
  }

  /**
   * The walk rewrites a node's body before it reaches the node's children
   * (ast.walk is breadth-first).  Filtering and regrouping first and then
   * normalising the children gives the same body as the children-first
   * recursion, so the order of the walk does not matter.
   */
  lemma WalkOrderIrrelevant(b: seq<Stmt>)
    ensures NormalizeEach(Reordered(Filter(Code, b))) == NormalizeBody(b)
  {
    EachReordered(Filter(Code, b));
    EachFilter(Code, b);
  }

  lemma {:induction false} NormalizeEachFixes(b: seq<Stmt>)
    ensures forall x :: x in NormalizeEach(b) ==> NormalizeStmt(x) == x
    decreases b, 0
  {
    forall x | x in NormalizeEach(b) ensures NormalizeStmt(x) == x {
      var i :| 0 <= i < |b| && NormalizeEach(b)[i] == x;
      NormalizeStmtIdempotent(b[i]);
    }
  }

  lemma {:induction false} EachOfFixed(c: seq<Stmt>)
    requires forall x :: x in c ==> NormalizeStmt(x) == x
    ensures NormalizeEach(c) == c
  {
    if c != [] {
      assert c[0] in c;
      assert forall x :: x in c[1..] ==> x in c;
      EachOfFixed(c[1..]);
      assert c == [c[0]] + c[1..];
    }
  }

  lemma CodeOfCode(c: seq<Stmt>)
    requires forall x :: x in c ==> !IsDocstring(x)
    ensures Filter(Code, c) == c
  {
    assert forall i :: 0 <= i < |c| ==> c[i] in c;
    FilterKeepsAll(Code, c);
  }

  /** What a normalised body is made of: fixed points of the rewrite that are not docstrings. */
  lemma NormalBodyMembers(b: seq<Stmt>)
    ensures forall x :: x in NormalizeBody(b) ==> NormalizeStmt(x) == x && !IsDocstring(x)
    decreases b, 1
  {
    var e := NormalizeEach(b);
    var f := Filter(Code, e);
    NormalizeEachFixes(b);
    FilterMembers(Code, e);
    ReorderedPermutation(f);
    PermutationMembers(Reordered(f), f);
  }

  lemma {:induction false} NormalizeBodyIdempotent(b: seq<Stmt>)
    ensures NormalizeBody(NormalizeBody(b)) == NormalizeBody(b)
    decreases b, 2
  {
    var f := Filter(Code, NormalizeEach(b));
    var c := Reordered(f);
    assert NormalizeBody(b) == c;
    NormalBodyMembers(b);
    EachOfFixed(c);
    CodeOfCode(c);
    ReorderedIdempotent(f);
    calc {
      NormalizeBody(c);
      Reordered(Filter(Code, NormalizeEach(c)));
      Reordered(Filter(Code, c));
      Reordered(c);
      c;
    }
  }

  /** Normalising a normalised statement changes nothing. */
  lemma {:induction false} NormalizeStmtIdempotent(s: Stmt)
    ensures NormalizeStmt(NormalizeStmt(s)) == NormalizeStmt(s)
    decreases s, 3
  {
    match s
    case ClassDef(_, _, body) => NormalizeBodyIdempotent(body);
    case FunctionDef(_, _, body) => NormalizeBodyIdempotent(body);
    case AsyncFunctionDef(_, _, body) => NormalizeBodyIdempotent(body);
    case Other(text, children) =>
      NormalizeEachFixes(children);
      assert NormalizeEach(NormalizeEach(children)) == NormalizeEach(children);
    case _ =>
  }

  /** Canonicalisation is idempotent on whole trees. */
  lemma NormalizeTreeIdempotent(m: Module)
    ensures NormalizeTree(NormalizeTree(m)) == NormalizeTree(m)
  {
    NormalizeBodyIdempotent(m.body);
  }

  /** A normalised body holds no docstring. */
  lemma NormalBodyNoDocstrings(b: seq<Stmt>)
    ensures forall i :: 0 <= i < |NormalizeBody(b)| ==> !IsDocstring(NormalizeBody(b)[i])
  {
    var c := NormalizeBody(b);
    NormalBodyMembers(b);
    assert forall i :: 0 <= i < |c| ==> c[i] in c;
  }

  /** The buckets of a normalised body come in their fixed order. */
  lemma NormalBodyKindsOrdered(b: seq<Stmt>)
    ensures KindsOrdered(NormalizeBody(b))
  {
    ReorderedKindsOrdered(Filter(Code, NormalizeEach(b)));
  }

  /**
   * Each bucket of a normalised body is that kind's normalised code statements
   * in canonical order: the Other statements in their input order, each
   * declaration bucket sorted by key.
   */
  lemma NormalBodyBucket(b: seq<Stmt>, k: DeclKind)
    ensures Filter(OfKind(k), NormalizeBody(b)) == Bucket(Filter(Code, NormalizeEach(b)), k)
    ensures k == OtherStmt ==> Filter(OfKind(k), NormalizeBody(b)) == Filter(OfKind(k), Filter(Code, NormalizeEach(b)))
    ensures k != OtherStmt ==> Sorted(Filter(OfKind(k), NormalizeBody(b)))
  {
    var f := Filter(Code, NormalizeEach(b));
    ReorderedBucket(f, k);
    if k != OtherStmt {
      SortCurrentListSorted(k, Filter(OfKind(k), f));
    }
  }

  /** The code statements of a body, normalised, as the body's rewrite sees them. */
  lemma CodeAppend(a: seq<Stmt>, b: seq<Stmt>)
    ensures Filter(Code, NormalizeEach(a + b)) == Filter(Code, NormalizeEach(a)) + Filter(Code, NormalizeEach(b))
  {
    EachAppend(a, b);
    FilterAppend(Code, NormalizeEach(a), NormalizeEach(b));
  }

  lemma CodeSplit(p: seq<Stmt>, m: seq<Stmt>, q: seq<Stmt>)
    ensures Filter(Code, NormalizeEach(p + m + q))
         == Filter(Code, NormalizeEach(p)) + Filter(Code, NormalizeEach(m)) + Filter(Code, NormalizeEach(q))
  {
    CodeAppend(p + m, q);
    CodeAppend(p, m);
  }

  lemma CodeDropsDocstring(p: seq<Stmt>, doc: string, q: seq<Stmt>)
    ensures Filter(Code, NormalizeEach(p + [StrExpr(doc)] + q)) == Filter(Code, NormalizeEach(p + q))
  {
    CodeSplit(p, [StrExpr(doc)], q);
    CodeAppend(p, q);
    assert NormalizeEach([StrExpr(doc)]) == [StrExpr(doc)];
    assert Filter(Code, [StrExpr(doc)]) == [];
  }

  /** Adding or removing a docstring anywhere in a body does not change its normal form. */
  lemma DocstringInvariance(p: seq<Stmt>, doc: string, q: seq<Stmt>)
    ensures NormalizeBody(p + [StrExpr(doc)] + q) == NormalizeBody(p + q)
  {
    CodeDropsDocstring(p, doc, q);
  }

  /**
   * Replacing one statement of a body by another with the same normal form
   * does not change the body's normal form, so a change deep inside a nested
   * body that its own normal form absorbs is absorbed by every enclosing body.
   */
  lemma NormalizeBodyCongruence(p: seq<Stmt>, x: Stmt, y: Stmt, q: seq<Stmt>)
    requires NormalizeStmt(x) == NormalizeStmt(y)
    ensures NormalizeBody(p + [x] + q) == NormalizeBody(p + [y] + q)
  {
    EachAppend(p + [x], q);
    EachAppend(p, [x]);
    EachAppend(p + [y], q);
    EachAppend(p, [y]);
  }

  /** Adding a docstring anywhere in the body of a class or function does not change its normal form. */
  lemma DeclDocstringInvariance(x: Stmt, bp: seq<Stmt>, doc: string, bq: seq<Stmt>)
    requires x.ClassDef? || x.FunctionDef? || x.AsyncFunctionDef?
    requires x.body == bp + [StrExpr(doc)] + bq
    ensures NormalizeStmt(x) == NormalizeStmt(x.(body := bp + bq))
  {
    DocstringInvariance(bp, doc, bq);
  }

  /** Two selected statements are both kept, in order. */
  lemma FilterPairKeeps(sel: Selector, x: Stmt, y: Stmt)
    requires Selects(sel, x) && Selects(sel, y)
    ensures Filter(sel, [x, y]) == [x, y]
  {
    assert [y][1..] == [];
    assert Filter(sel, [y]) == [y];
    assert [x, y][1..] == [y];
    assert Filter(sel, [x, y]) == [x] + Filter(sel, [y]);
  }

  lemma BucketSwap(p: seq<Stmt>, x: Stmt, y: Stmt, q: seq<Stmt>, k: DeclKind)
    requires Kind(x) != Kind(y) || (Kind(x) != OtherStmt && SortKey(x) != SortKey(y))
    ensures Bucket(p + [x, y] + q, k) == Bucket(p + [y, x] + q, k)
  {
    var sel := OfKind(k);
    FilterSplit(sel, p, [x, y], q);
    FilterSplit(sel, p, [y, x], q);
    if Kind(x) == k && Kind(y) == k {
      FilterPairKeeps(sel, x, y);
      FilterPairKeeps(sel, y, x);
      SortSwapAdjacent(Filter(sel, p), x, y, Filter(sel, q));
    } else {
      FilterPairSwap(sel, x, y);
    }
  }

  /**
   * Exchanging two adjacent statements of different kinds, or two declarations
   * of the same kind with different keys, does not change the regrouped body.
   */
  lemma ReorderedSwap(p: seq<Stmt>, x: Stmt, y: Stmt, q: seq<Stmt>)
    requires Kind(x) != Kind(y) || (Kind(x) != OtherStmt && SortKey(x) != SortKey(y))
    ensures Reordered(p + [x, y] + q) == Reordered(p + [y, x] + q)
  {
    BucketSwap(p, x, y, q, ImportDecl);
    BucketSwap(p, x, y, q, ImportFromDecl);
    BucketSwap(p, x, y, q, ClassDecl);
    BucketSwap(p, x, y, q, AsyncFunctionDecl);
    BucketSwap(p, x, y, q, FunctionDecl);
    BucketSwap(p, x, y, q, OtherStmt);
  }

  /** Reorder invariance: the same exchange does not change the normal form of the body. */
  lemma NormalizeSwap(p: seq<Stmt>, x: Stmt, y: Stmt, q: seq<Stmt>)
    requires Kind(x) != Kind(y) || (Kind(x) != OtherStmt && SortKey(x) != SortKey(y))
    ensures NormalizeBody(p + [x, y] + q) == NormalizeBody(p + [y, x] + q)
  {
    var nx, ny := NormalizeStmt(x), NormalizeStmt(y);
    NormalizePreserves(x);
    NormalizePreserves(y);
    CodeSplit(p, [x, y], q);
    CodeSplit(p, [y, x], q);
    assert NormalizeEach([x, y]) == [nx, ny];
    assert NormalizeEach([y, x]) == [ny, nx];
    var fp, fq := Filter(Code, NormalizeEach(p)), Filter(Code, NormalizeEach(q));
    if Selects(Code, nx) && Selects(Code, ny) {
      FilterPairKeeps(Code, nx, ny);
      FilterPairKeeps(Code, ny, nx);
      ReorderedSwap(fp, nx, ny, fq);
    } else {
      FilterPairSwap(Code, nx, ny);
    }
  }

  /**
   * The limit of reorder invariance: two declarations of one kind that share a
   * key keep their input order in the stable sort, so exchanging them is
   * visible in the normal form whenever they differ.
   */
  lemma SameKeySwapVisible(x: Stmt, y: Stmt)
    requires Kind(x) == Kind(y) != OtherStmt
    requires SortKey(x) == SortKey(y)
    requires NormalizeStmt(x) != NormalizeStmt(y)
    ensures NormalizeBody([x, y]) != NormalizeBody([y, x])
  {
    var nx, ny := NormalizeStmt(x), NormalizeStmt(y);
    NormalizePreserves(x);
    NormalizePreserves(y);
    SameKeyPairBucket(x, y);
    SameKeyPairBucket(y, x);
    assert [nx, ny][0] != [ny, nx][0];
  }

  /** Two normalised declarations of one kind and one key form their bucket in input order. */
  lemma SameKeyPairBucket(x: Stmt, y: Stmt)
    requires Kind(x) == Kind(y) != OtherStmt
    requires SortKey(x) == SortKey(y)
    ensures Filter(OfKind(Kind(x)), NormalizeBody([x, y])) == [NormalizeStmt(x), NormalizeStmt(y)]
  {
    var nx, ny := NormalizeStmt(x), NormalizeStmt(y);
    var k := Kind(x);
    NormalizePreserves(x);
    NormalizePreserves(y);
    assert NormalizeEach([x, y]) == [nx, ny];
    FilterPairKeeps(Code, nx, ny);
    FilterPairKeeps(OfKind(k), nx, ny);
    LexLeReflexive(SortKey(nx));
    assert Sorted([nx, ny]);
    SortOfSorted([nx, ny]);
    ReorderedBucket([nx, ny], k);
  }

  /** `def f(a)` and `def F(b)` share the key "f", so their order survives normalisation. */
  lemma CaseVariantSwapVisible()
    ensures NormalizeBody([FunctionDef("f", "(a)", []), FunctionDef("F", "(b)", [])])
         != NormalizeBody([FunctionDef("F", "(b)", []), FunctionDef("f", "(a)", [])])
  {
    NameKeyOfChar('f');
    NameKeyOfChar('F');
    SameKeySwapVisible(FunctionDef("f", "(a)", []), FunctionDef("F", "(b)", []));
  }
}
