/**
 * The key a declaration is sorted by inside its bucket, and the order Python
 * compares such keys in.
 */
module SortKeys {
  import opened PyAst
  import opened Ascii

  /** re.sub('_', '', s): every underscore removed, the rest kept in order. */
  function StripUnderscores(s: string): (r: string)
    ensures |r| <= |s|
    ensures forall i :: 0 <= i < |r| ==> r[i] != '_'
  {
    if s == [] then []
    else (if s[0] == '_' then [] else [s[0]]) + StripUnderscores(s[1..])
  }

  /** The kept characters are exactly the characters of s other than the underscore. */
  lemma {:induction false} StripUnderscoresMembers(s: string)
    ensures forall c :: c in StripUnderscores(s) <==> c in s && c != '_'
  {
    if s != [] {
      StripUnderscoresMembers(s[1..]);
      assert s == [s[0]] + s[1..];
    }
  }

  /** The key of one name: lower-cased, underscores removed. */
  function NameKey(name: string): (r: string)
    ensures forall i :: 0 <= i < |r| ==> r[i] != '_' && !IsUpper(r[i])
  {
    var lowered := Lower(name);
    assert forall c :: c in lowered ==> !IsUpper(c);
    StripUnderscoresMembers(lowered);
    var r := StripUnderscores(lowered);
    assert forall i :: 0 <= i < |r| ==> r[i] in r;
    r
  }

  /** Removing underscores works piecewise: the other characters keep their order and number. */
  lemma {:induction false} StripUnderscoresAppend(a: string, b: string)
    ensures StripUnderscores(a + b) == StripUnderscores(a) + StripUnderscores(b)
  {
    if a == [] {
      assert a + b == b;
    } else {
      var head := if a[0] == '_' then [] else [a[0]];
      StripUnderscoresAppend(a[1..], b);
      assert (a + b)[0] == a[0];
      assert (a + b)[1..] == a[1..] + b;
      calc {
        StripUnderscores(a + b);
        head + StripUnderscores(a[1..] + b);
        head + (StripUnderscores(a[1..]) + StripUnderscores(b));
        (head + StripUnderscores(a[1..])) + StripUnderscores(b);
        StripUnderscores(a) + StripUnderscores(b);
      }
    }
  }

  /** A text without underscores is left as it is. */
  lemma {:induction false} StripUnderscoresOfPlain(s: string)
    requires forall i :: 0 <= i < |s| ==> s[i] != '_'
    ensures StripUnderscores(s) == s
  {
    if s != [] {
      StripUnderscoresOfPlain(s[1..]);
      assert s == [s[0]] + s[1..];
    }
  }

  /** The key of a concatenation is the concatenation of the keys. */
  lemma NameKeyAppend(a: string, b: string)
    ensures NameKey(a + b) == NameKey(a) + NameKey(b)
  {
    LowerAppend(a, b);
    StripUnderscoresAppend(Lower(a), Lower(b));
  }

  /** One character contributes nothing if it is an underscore, and its lower-case form otherwise. */
  lemma NameKeyOfChar(c: char)
    ensures NameKey([c]) == if c == '_' then [] else [LowerChar(c)]
  {
    assert Lower([c]) == [LowerChar(c)];
    assert [LowerChar(c)][1..] == [];
  }

  /** An underscore anywhere in a name does not change its key. */
  lemma NameKeyIgnoresUnderscore(a: string, b: string)
    ensures NameKey(a + "_" + b) == NameKey(a + b)
  {
    NameKeyAppend(a + "_", b);
    NameKeyAppend(a, "_");
    NameKeyAppend(a, b);
    NameKeyOfChar('_');
  }

  /** Letter case does not change a name's key. */
  lemma NameKeyIgnoresCase(a: string)
    ensures NameKey(Lower(a)) == NameKey(a)
  {
    LowerOfNoUpper(Lower(a));
  }

  /** A name already in lower case and without underscores is its own key. */
  lemma NameKeyOfPlain(name: string)
    requires forall i :: 0 <= i < |name| ==> name[i] != '_' && !IsUpper(name[i])
    ensures NameKey(name) == name
  {
    LowerOfNoUpper(name);
    StripUnderscoresOfPlain(name);
  }

  /**
   * The sort key of a statement: an import by the first name it imports, a
   * from-import by its module (the empty string when it has none, as in
   * `from . import x`), a class or function by its name.  Other statements are
   * never sorted and all share the empty key.
   */
  function SortKey(s: Stmt): (r: string)
    ensures forall i :: 0 <= i < |r| ==> r[i] != '_' && !IsUpper(r[i])
    ensures s.ImportFrom? && s.moduleName.None? ==> r == []
  {
    match s
    case Import(first, _) => NameKey(first)
    case ImportFrom(moduleName, _, _) => if moduleName.Some? then NameKey(moduleName.value) else ""
    case ClassDef(name, _, _) => NameKey(name)
    case FunctionDef(name, _, _) => NameKey(name)
    case AsyncFunctionDef(name, _, _) => NameKey(name)
    case StrExpr(_) => ""
    case Other(_, _) => ""
  }

  /**
   * Python's ordering of strings: character by character by code point, a
   * proper prefix before any extension of it.  LexLe(a, b) is `not b < a`.
   */
  predicate LexLe(a: string, b: string)
    decreases |a|
  {
    |a| == 0 || (|b| > 0 && (a[0] < b[0] || (a[0] == b[0] && LexLe(a[1..], b[1..]))))
  }

  lemma {:induction false} LexLeReflexive(a: string)
    ensures LexLe(a, a)
    decreases |a|
  {
    if |a| > 0 {
      LexLeReflexive(a[1..]);
    }
  }

  lemma {:induction false} LexLeTotal(a: string, b: string)
    ensures LexLe(a, b) || LexLe(b, a)
    decreases |a|
  {
    if |a| > 0 && |b| > 0 && a[0] == b[0] {
      LexLeTotal(a[1..], b[1..]);
    }
  }

  lemma {:induction false} LexLeAntisymmetric(a: string, b: string)
    requires LexLe(a, b) && LexLe(b, a)
    ensures a == b
    decreases |a|
  {
    if |a| > 0 {
      LexLeAntisymmetric(a[1..], b[1..]);
      assert a == [a[0]] + a[1..] && b == [b[0]] + b[1..];
    }
  }

  lemma {:induction false} LexLeTransitive(a: string, b: string, c: string)
    requires LexLe(a, b) && LexLe(b, c)
    ensures LexLe(a, c)
    decreases |a|
  {
    if |a| > 0 && a[0] == b[0] && b[0] == c[0] {
      LexLeTransitive(a[1..], b[1..], c[1..]);
    }
  }
}
