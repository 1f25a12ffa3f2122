/**
 * format_script's walk over a parsed module.  Every Module, ClassDef,
 * FunctionDef and AsyncFunctionDef node has its body rewritten by
 * remove_docstrings and then lexicographically_sort_names; the walk rewrites a
 * node's body before it visits the node's children.  Each method is proved to
 * produce the canonical form the functions of Normalizer define.
 */
module Formatter {
  import opened PyAst
  import opened Selection
  import opened Normalizer

  /** Visit one statement: rewrite its body if it has one, then walk what is nested in it. */
  method FormatStmt(s: Stmt) returns (r: Stmt)
    ensures r == NormalizeStmt(s)
    decreases s, 1
  {
    match s {
      case ClassDef(name, header, body) =>
        var edited := FormatBody(body);
        r := ClassDef(name, header, edited);
      case FunctionDef(name, header, body) =>
        var edited := FormatBody(body);
        r := FunctionDef(name, header, edited);
      case AsyncFunctionDef(name, header, body) =>
        var edited := FormatBody(body);
        r := AsyncFunctionDef(name, header, edited);
      case Other(text, children) =>
        var visited := FormatChildren(children, children);
        r := Other(text, visited);
      case _ =>
        r := s;
    }
  }

  /**
   * Walk the statements of `nodes`, each of which is a statement of `parent`
   * (the body the rewrite took them from), keeping their order.
   */
  method FormatChildren(ghost parent: seq<Stmt>, nodes: seq<Stmt>) returns (r: seq<Stmt>)
    requires forall x :: x in nodes ==> x in parent
    ensures r == NormalizeEach(nodes)
    decreases parent, 0
  {
    r := [];
    for i := 0 to |nodes|
      invariant r == NormalizeEach(nodes[..i])
    {
      assert nodes[i] in parent;
      var node := FormatStmt(nodes[i]);
      assert nodes[..i + 1] == nodes[..i] + [nodes[i]];
      EachAppend(nodes[..i], [nodes[i]]);
      r := r + [node];
    }
    assert nodes[..|nodes|] == nodes;
  }

  /**
   * Rewrite one body the way the walk does: drop the docstrings, regroup, and
   * then visit each statement of the new body.
   */
  method FormatBody(body: seq<Stmt>) returns (r: seq<Stmt>)
    ensures r == NormalizeBody(body)
    decreases body, 2
  {
    var code := RemoveDocstrings(body);
    var edited := LexicographicallySortNames(code);
    RegroupedMembers(body);
    r := FormatChildren(body, edited);
    WalkOrderIrrelevant(body);
  }

  /** Every statement of a regrouped body comes from the body. */
  lemma RegroupedMembers(body: seq<Stmt>)
    ensures forall x :: x in Reordered(Filter(Code, body)) ==> x in body
  {
    var code := Filter(Code, body);
    FilterMembers(Code, body);
    ReorderedPermutation(code);
    PermutationMembers(Reordered(code), code);
  }

  /** format_script between parsing and unparsing: the walk from the module root. */
  method FormatScript(tree: Module) returns (r: Module)
    ensures r == NormalizeTree(tree)
  {
    var body := FormatBody(tree.body);
    r := Module(body);
  }
}
