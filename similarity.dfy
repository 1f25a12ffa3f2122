/**
 * The similarity score of two scripts: both are brought to canonical form,
 * unparsed, reduced to their canonical text, and compared by edit distance
 * relative to the longer text.
 */
module Similarity {
  import opened PyAst
  import opened SortKeys
  import opened Levenshtein
  import opened CanonicalText
  import opened Normalizer
  import opened Formatter
  import opened Selection
  import opened Invariance

  /** A score num / den as an exact ratio, before it is rounded to three decimals. */
  datatype Ratio = Ratio(num: nat, den: nat)

  /**
   * The score of two canonical texts: 1 when both are empty, otherwise the
   * share of the longer text that the edit distance leaves untouched.  It is
   * a fraction of at most 1, and it is 1 exactly when the texts are equal.
   */
  function Score(t1: string, t2: string): (r: Ratio)
    ensures 0 < r.den && r.num <= r.den
    ensures r.num == r.den <==> t1 == t2
  {
    if |t1| == 0 && |t2| == 0 then Ratio(1, 1)
    else
      DistanceBounds(t1, t2);
      DistanceZeroIff(t1, t2);
      var longest := Max(|t1|, |t2|);
      Ratio(longest - Distance(t1, t2), longest)
  }

  /** The order the two texts are given in does not matter. */
  lemma ScoreSymmetric(t1: string, t2: string)
    ensures Score(t1, t2) == Score(t2, t1)
  {
    DistanceSymmetric(t1, t2);
  }

  /** An empty text against a non-empty one scores 0. */
  lemma ScoreOfEmpty(t: string)
    requires t != []
    ensures Score([], t).num == 0 && Score(t, []).num == 0
  {
    DistanceBounds([], t);
    DistanceBounds(t, []);
  }

  /** A score never exceeds the length ratio of the shorter text to the longer one. */
  lemma ScoreLengthBound(t1: string, t2: string)
    requires |t1| > 0 || |t2| > 0
    ensures Score(t1, t2).den == Max(|t1|, |t2|)
    ensures Score(t1, t2).num <= if |t1| <= |t2| then |t1| else |t2|
  {
    DistanceBounds(t1, t2);
  }

  /** Two texts of one length that differ in k places keep at least length - k of the score. */
  lemma ScoreAtLeastAgreement(t1: string, t2: string)
    requires |t1| == |t2| > 0
    ensures Score(t1, t2).den == |t1|
    ensures Score(t1, t2).num >= |t1| - Mismatches(t1, t2, |t1|)
  {
    EditDistanceAtMostMismatches(t1, t2, |t1|);
  }

  /** The score of two parsed scripts, given how a tree is unparsed to source text. */
  function ScriptsScore(first: Module, second: Module, unparse: Module -> string): Ratio
  {
    Score(Canonical(unparse(NormalizeTree(first))), Canonical(unparse(NormalizeTree(second))))
  }

  /**
   * plagiarism_check after both files are read and parsed: format each tree,
   * unparse it, keep its canonical text, and score the two texts.
   */
  method PlagiarismCheck(first: Module, second: Module, unparse: Module -> string) returns (score: Ratio)
    ensures score == ScriptsScore(first, second, unparse)
    ensures 0 < score.den && score.num <= score.den
  {
    var firstTree := FormatScript(first);
    var secondTree := FormatScript(second);
    var firstScript := Canonical(unparse(firstTree));
    var secondScript := Canonical(unparse(secondTree));
    var m, n := |firstScript|, |secondScript|;
    if m == 0 && n == 0 {
      return Ratio(1, 1);
    }
    var d := LevenshteinDistance(firstScript, secondScript);
    var longest := if m >= n then m else n;
    DistanceBounds(firstScript, secondScript);
    score := Ratio(longest - d, longest);
  }

  /** Which script comes first does not change the score. */
  lemma ScriptsScoreSymmetric(first: Module, second: Module, unparse: Module -> string)
    ensures ScriptsScore(first, second, unparse) == ScriptsScore(second, first, unparse)
  {
    ScoreSymmetric(Canonical(unparse(NormalizeTree(first))), Canonical(unparse(NormalizeTree(second))));
  }

  /** Scripts with the same canonical tree score 1, whatever the unparser. */
  lemma SameNormalFormFullScore(first: Module, second: Module, unparse: Module -> string)
    requires NormalizeTree(first) == NormalizeTree(second)
    ensures ScriptsScore(first, second, unparse).num == ScriptsScore(first, second, unparse).den
  {
    var t := Canonical(unparse(NormalizeTree(first)));
    assert ScriptsScore(first, second, unparse) == Score(t, t);
  }

  /** A copy that only adds a docstring at module level scores 1 against the original. */
  lemma DocstringAddedFullScore(p: seq<Stmt>, doc: string, q: seq<Stmt>, unparse: Module -> string)
    ensures ScriptsScore(Module(p + [StrExpr(doc)] + q), Module(p + q), unparse).num
         == ScriptsScore(Module(p + [StrExpr(doc)] + q), Module(p + q), unparse).den
  {
    DocstringInvariance(p, doc, q);
    SameNormalFormFullScore(Module(p + [StrExpr(doc)] + q), Module(p + q), unparse);
  }

  /**
   * A copy that only adds a docstring to the body of one module-level class or
   * function scores 1 against the original.
   */
  lemma NestedDocstringFullScore(p: seq<Stmt>, x: Stmt, bp: seq<Stmt>, doc: string, bq: seq<Stmt>, q: seq<Stmt>,
                                 unparse: Module -> string)
    requires x.ClassDef? || x.FunctionDef? || x.AsyncFunctionDef?
    requires x.body == bp + [StrExpr(doc)] + bq
    ensures ScriptsScore(Module(p + [x] + q), Module(p + [x.(body := bp + bq)] + q), unparse).num
         == ScriptsScore(Module(p + [x] + q), Module(p + [x.(body := bp + bq)] + q), unparse).den
  {
    var y := x.(body := bp + bq);
    DeclDocstringInvariance(x, bp, doc, bq);
    NormalizeBodyCongruence(p, x, y, q);
    SameNormalFormFullScore(Module(p + [x] + q), Module(p + [y] + q), unparse);
  }

  /**
   * A copy that exchanges two adjacent module-level statements of different
   * kinds, or two declarations of one kind under different keys, scores 1.
   */
  lemma SwappedFullScore(p: seq<Stmt>, x: Stmt, y: Stmt, q: seq<Stmt>, unparse: Module -> string)
    requires Kind(x) != Kind(y) || (Kind(x) != OtherStmt && SortKey(x) != SortKey(y))
    ensures ScriptsScore(Module(p + [x, y] + q), Module(p + [y, x] + q), unparse).num
         == ScriptsScore(Module(p + [x, y] + q), Module(p + [y, x] + q), unparse).den
  {
    NormalizeSwap(p, x, y, q);
    SameNormalFormFullScore(Module(p + [x, y] + q), Module(p + [y, x] + q), unparse);
  }

  /**
   * A copy whose top-level code is a rearrangement of the original (the other
   * statements in their order, and the declarations of each kind and key in
   * theirs) scores 1, however far the declarations and imports moved.
   */
  lemma RearrangedFullScore(first: Module, second: Module, unparse: Module -> string)
    requires Rearranged(Filter(Code, first.body), Filter(Code, second.body))
    ensures ScriptsScore(first, second, unparse).num == ScriptsScore(first, second, unparse).den
  {
    RearrangedNormalizeBody(first.body, second.body);
    SameNormalFormFullScore(first, second, unparse);
  }

  /** A copy without any of the docstrings of the module and of its classes and functions, at any depth, scores 1. */
  lemma StrippedFullScore(m: Module, unparse: Module -> string)
    ensures ScriptsScore(m, Module(Filter(Code, StripEach(m.body))), unparse).num
         == ScriptsScore(m, Module(Filter(Code, StripEach(m.body))), unparse).den
  {
    StripBodyNormal(m.body);
    SameNormalFormFullScore(m, Module(Filter(Code, StripEach(m.body))), unparse);
  }
}
