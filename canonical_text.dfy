/**
 * The canonical text two unparsed scripts are compared on: lower-cased, then
 * every character outside [a-zA-Z0-9] removed, so that layout, punctuation and
 * letter case do not count towards the distance.
 */
module CanonicalText {
  import opened Ascii

  /** The character class [a-zA-Z0-9]. */
  predicate IsAsciiAlnum(c: char)
  {
    IsLower(c) || IsUpper(c) || IsDigit(c)
  }

  /** re.sub(r'[^a-zA-Z0-9]', '', s): the characters of the class, in order. */
  function KeepAlnum(s: string): (r: string)
    ensures |r| <= |s|
    ensures forall i :: 0 <= i < |r| ==> IsAsciiAlnum(r[i])
  {
    if s == [] then []
    else (if IsAsciiAlnum(s[0]) then [s[0]] else []) + KeepAlnum(s[1..])
  }

  /** The canonical form of an unparsed script. */
  function Canonical(s: string): (r: string)
    ensures |r| <= |s|
    ensures forall i :: 0 <= i < |r| ==> IsLower(r[i]) || IsDigit(r[i])
  {
    var lowered := Lower(s);
    assert forall c :: c in lowered ==> !IsUpper(c);
    KeepAlnumMembers(lowered);
    var r := KeepAlnum(lowered);
    assert forall i :: 0 <= i < |r| ==> r[i] in r;
    r
  }

  /** The kept characters are exactly the characters of s in the class. */
  lemma {:induction false} KeepAlnumMembers(s: string)
    ensures forall c :: c in KeepAlnum(s) <==> c in s && IsAsciiAlnum(c)
  {
    if s != [] {
      KeepAlnumMembers(s[1..]);
      assert s == [s[0]] + s[1..];
    }
  }

  /** A canonical character: a lower-case ASCII letter or a digit. */
  predicate IsCanonicalChar(c: char)
  {
    IsLower(c) || IsDigit(c)
  }

  lemma {:induction false} KeepAlnumAppend(a: string, b: string)
    ensures KeepAlnum(a + b) == KeepAlnum(a) + KeepAlnum(b)
  {
    if a == [] {
      assert a + b == b;
    } else {
      var head := if IsAsciiAlnum(a[0]) then [a[0]] else [];
      KeepAlnumAppend(a[1..], b);
      assert (a + b)[0] == a[0];
      assert (a + b)[1..] == a[1..] + b;
      calc {
        KeepAlnum(a + b);
        head + KeepAlnum(a[1..] + b);
        head + (KeepAlnum(a[1..]) + KeepAlnum(b));
        (head + KeepAlnum(a[1..])) + KeepAlnum(b);
        KeepAlnum(a) + KeepAlnum(b);
      }
    }
  }

  lemma {:induction false} KeepAlnumOfAlnum(s: string)
    requires forall i :: 0 <= i < |s| ==> IsAsciiAlnum(s[i])
    ensures KeepAlnum(s) == s
  {
    if s != [] {
      KeepAlnumOfAlnum(s[1..]);
      assert s == [s[0]] + s[1..];
    }
  }

  /** Canonicalisation works piecewise: the canonical text of a concatenation is the concatenation of the canonical texts. */
  lemma CanonicalAppend(a: string, b: string)
    ensures Canonical(a + b) == Canonical(a) + Canonical(b)
  {
    LowerAppend(a, b);
    KeepAlnumAppend(Lower(a), Lower(b));
  }

  /** A text is its own canonical form exactly when it holds only lower-case letters and digits. */
  lemma CanonicalFixpoint(s: string)
    ensures Canonical(s) == s <==> forall i :: 0 <= i < |s| ==> IsCanonicalChar(s[i])
  {
    if forall i :: 0 <= i < |s| ==> IsCanonicalChar(s[i]) {
      LowerOfNoUpper(s);
      KeepAlnumOfAlnum(s);
    }
  }

  /** Canonicalising twice changes nothing. */
  lemma CanonicalIdempotent(s: string)
    ensures Canonical(Canonical(s)) == Canonical(s)
  {
    CanonicalFixpoint(Canonical(s));
  }

  /** Inserting a character that is not a letter or digit (blank, newline, punctuation) does not change the canonical text. */
  lemma CanonicalIgnoresSeparator(a: string, c: char, b: string)
    requires !IsAsciiAlnum(c)
    ensures Canonical(a + [c] + b) == Canonical(a + b)
  {
    CanonicalAppend(a + [c], b);
    CanonicalAppend(a, [c]);
    CanonicalAppend(a, b);
    assert Lower([c]) == [c];
    assert KeepAlnum([c]) == [];
  }

  /** Letter case does not matter: a text and its lower-cased form have the same canonical form. */
  lemma CanonicalIgnoresCase(s: string)
    ensures Canonical(Lower(s)) == Canonical(s)
  {
    LowerOfNoUpper(Lower(s));
  }
}
