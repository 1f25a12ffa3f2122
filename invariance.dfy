/**
 * The two changes the normal form absorbs, in general: any rearrangement of
 * a body that keeps the other statements in their order and the declarations
 * of each kind and key in theirs, and the removal of docstrings from class
 * and function bodies at any depth.
 */
module Invariance {
  import opened PyAst
  import opened Selection
  import opened StableSort
  import opened Normalizer

  /**
   * b2 is b1 rearranged: the statements of the last bucket come in the same
   * order, and for every declaration kind and key the declarations with that
   * kind and key come in the same order.
   */
  ghost predicate Rearranged(b1: seq<Stmt>, b2: seq<Stmt>)
  {
    && Filter(OfKind(OtherStmt), b1) == Filter(OfKind(OtherStmt), b2)
    && forall k, w :: k != OtherStmt ==>
         Filter(WithKey(w), Filter(OfKind(k), b1)) == Filter(WithKey(w), Filter(OfKind(k), b2))
  }

  /** One bucket is the same for two bodies exactly when the bodies agree on that bucket as Rearranged asks. */
  lemma BucketAgree(b1: seq<Stmt>, b2: seq<Stmt>, k: DeclKind)
    requires k != OtherStmt
    ensures Bucket(b1, k) == Bucket(b2, k)
        <==> forall w :: Filter(WithKey(w), Filter(OfKind(k), b1)) == Filter(WithKey(w), Filter(OfKind(k), b2))
  {
    var f1, f2 := Filter(OfKind(k), b1), Filter(OfKind(k), b2);
    SortStable(f1);
    SortStable(f2);
    if forall w :: Filter(WithKey(w), f1) == Filter(WithKey(w), f2) {
      SortSorted(f2);
      SortCharacterized(f1, SortByKey(f2));
    }
  }

  /**
   * Regrouping gives one result for two bodies if and only if one is a
   * rearrangement of the other.
   */
  lemma ReorderedAgree(b1: seq<Stmt>, b2: seq<Stmt>)
    ensures Reordered(b1) == Reordered(b2) <==> Rearranged(b1, b2)
  {
    BucketAgree(b1, b2, ImportDecl);
    BucketAgree(b1, b2, ImportFromDecl);
    BucketAgree(b1, b2, ClassDecl);
    BucketAgree(b1, b2, AsyncFunctionDecl);
    BucketAgree(b1, b2, FunctionDecl);
    if Reordered(b1) == Reordered(b2) {
      forall k: DeclKind ensures Bucket(b1, k) == Bucket(b2, k) {
        ReorderedBucket(b1, k);
        ReorderedBucket(b2, k);
      }
      assert Bucket(b1, OtherStmt) == Bucket(b2, OtherStmt);
    }
  }

  /** Normalising nested bodies keeps a rearrangement a rearrangement. */
  lemma EachRearranged(c1: seq<Stmt>, c2: seq<Stmt>)
    requires Rearranged(c1, c2)
    ensures Rearranged(NormalizeEach(c1), NormalizeEach(c2))
  {
    EachFilter(OfKind(OtherStmt), c1);
    EachFilter(OfKind(OtherStmt), c2);
    forall k, w | k != OtherStmt
      ensures Filter(WithKey(w), Filter(OfKind(k), NormalizeEach(c1)))
           == Filter(WithKey(w), Filter(OfKind(k), NormalizeEach(c2)))
    {
      EachFilter(OfKind(k), c1);
      EachFilter(OfKind(k), c2);
      EachFilter(WithKey(w), Filter(OfKind(k), c1));
      EachFilter(WithKey(w), Filter(OfKind(k), c2));
    }
  }

  /**
   * Reorder invariance: two bodies whose code statements are rearrangements
   * of each other have one normal form.
   */
  lemma RearrangedNormalizeBody(b1: seq<Stmt>, b2: seq<Stmt>)
    requires Rearranged(Filter(Code, b1), Filter(Code, b2))
    ensures NormalizeBody(b1) == NormalizeBody(b2)
  {
    EachFilter(Code, b1);
    EachFilter(Code, b2);
    EachRearranged(Filter(Code, b1), Filter(Code, b2));
    ReorderedAgree(Filter(Code, NormalizeEach(b1)), Filter(Code, NormalizeEach(b2)));
  }

  /**
   * Every docstring of every class and function body removed, at any depth;
   * the statements nested in other statements are visited but, like the walk,
   * not filtered.
   */
  function StripStmt(s: Stmt): Stmt
    decreases s, 1
  {
    match s
    case ClassDef(name, header, body) => ClassDef(name, header, Filter(Code, StripEach(body)))
    case FunctionDef(name, header, body) => FunctionDef(name, header, Filter(Code, StripEach(body)))
    case AsyncFunctionDef(name, header, body) => AsyncFunctionDef(name, header, Filter(Code, StripEach(body)))
    case Other(text, children) => Other(text, StripEach(children))
    case _ => s
  }

  /** StripStmt applied to each statement of a list. */
  function StripEach(b: seq<Stmt>): (r: seq<Stmt>)
    ensures |r| == |b|
    ensures forall i :: 0 <= i < |b| ==> r[i] == StripStmt(b[i])
    decreases b, 0
  {
    if b == [] then [] else [StripStmt(b[0])] + StripEach(b[1..])
  }

  /** Stripping nested docstrings does not change a statement's normal form. */
  lemma StripStmtNormal(s: Stmt)
    ensures NormalizeStmt(StripStmt(s)) == NormalizeStmt(s)
    decreases s, 1
  {
    match s
    case ClassDef(_, _, body) => StripBodyNormal(body);
    case FunctionDef(_, _, body) => StripBodyNormal(body);
    case AsyncFunctionDef(_, _, body) => StripBodyNormal(body);
    case Other(_, children) => StripEachNormal(children);
    case _ =>
  }

  lemma StripEachNormal(b: seq<Stmt>)
    ensures NormalizeEach(StripEach(b)) == NormalizeEach(b)
    decreases b, 0
  {
    forall i | 0 <= i < |b| ensures NormalizeStmt(StripEach(b)[i]) == NormalizeStmt(b[i]) {
      StripStmtNormal(b[i]);
    }
  }

  /** A body with its docstrings stripped at every depth has the normal form of the body. */
  lemma StripBodyNormal(b: seq<Stmt>)
    ensures NormalizeBody(Filter(Code, StripEach(b))) == NormalizeBody(b)
    decreases b, 2
  {
    var e := NormalizeEach(StripEach(b));
    StripEachNormal(b);
    EachFilter(Code, StripEach(b));
    FilterMembers(Code, e);
    CodeOfCode(Filter(Code, e));
  }
}
