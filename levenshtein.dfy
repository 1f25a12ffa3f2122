/**
 * The edit distance used by the similarity score: the dynamic programme over an
 * (m+1) x (n+1) table, its recursive specification, and the algebraic facts the
 * score relies on.
 */
module Levenshtein {

  /** The least of three candidates, as Python's min(a, b, c). */
  function Min3(a: nat, b: nat, c: nat): (r: nat)
    ensures r <= a && r <= b && r <= c
    ensures r == a || r == b || r == c
  {
    if a <= b && a <= c then a else if b <= c then b else c
  }

  function Max(a: nat, b: nat): nat { if a >= b then a else b }

  function Abs(x: int): nat { if x < 0 then -x else x }

  /**
   * The value of table cell (i, j): the edit distance between the prefixes
   * s1[..i] and s2[..j].  The recurrence is the one the table is filled with:
   * the first row and column count up, a matching last character copies the
   * diagonal, and a mismatch costs one more than the best of the left, upper
   * and diagonal neighbours.
   */
  function EditDistance(s1: string, s2: string, i: nat, j: nat): nat
    requires i <= |s1| && j <= |s2|
    decreases i + j
  {
    if i == 0 then j
    else if j == 0 then i
    else if s1[i - 1] == s2[j - 1] then EditDistance(s1, s2, i - 1, j - 1)
    else Min3(EditDistance(s1, s2, i, j - 1) + 1,
              EditDistance(s1, s2, i - 1, j) + 1,
              EditDistance(s1, s2, i - 1, j - 1) + 1)
  }

  /** The distance between two whole strings: the bottom-right cell. */
  function Distance(s1: string, s2: string): nat
  {
    EditDistance(s1, s2, |s1|, |s2|)
  }

  /**
   * The textbook Levenshtein recurrence, where every cell takes the least of
   * an insertion, a deletion and a substitution (free when the characters
   * match).  It serves as an independent reference for EditDistance.
   */
  function Textbook(s1: string, s2: string, i: nat, j: nat): nat
    requires i <= |s1| && j <= |s2|
    decreases i + j
  {
    if i == 0 then j
    else if j == 0 then i
    else Min3(Textbook(s1, s2, i, j - 1) + 1,
              Textbook(s1, s2, i - 1, j) + 1,
              Textbook(s1, s2, i - 1, j - 1) + (if s1[i - 1] == s2[j - 1] then 0 else 1))
  }

  /**
   * The dynamic programme: allocate the table, fill the first column and the
   * first row, then every remaining cell row by row, and read the result off
   * the bottom-right corner.  Every filled cell holds the edit distance of the
   * corresponding prefixes.
   */
  method LevenshteinDistance(s1: string, s2: string) returns (d: nat)
    ensures d == Distance(s1, s2)
    ensures |s1| == 0 ==> d == |s2|
    ensures |s2| == 0 ==> d == |s1|
  {
    var m, n := |s1|, |s2|;
    var dp := new nat[m + 1, n + 1]((_, _) => 0);

    for i := 1 to m + 1
      invariant dp[0, 0] == 0
      invariant forall r :: 1 <= r < i ==> dp[r, 0] == r
    {
      dp[i, 0] := i;
    }

    for j := 1 to n + 1
      invariant forall r :: 0 <= r <= m ==> dp[r, 0] == r
      invariant forall c :: 1 <= c < j ==> dp[0, c] == c
    {
      dp[0, j] := j;
    }

    for i := 1 to m + 1
      invariant forall r, c {:trigger dp[r, c]} :: 0 <= r < i && 0 <= c <= n ==> dp[r, c] == EditDistance(s1, s2, r, c)
      invariant forall r :: i <= r <= m ==> dp[r, 0] == r
    {
      for j := 1 to n + 1
        invariant forall r, c {:trigger dp[r, c]} :: 0 <= r < i && 0 <= c <= n ==> dp[r, c] == EditDistance(s1, s2, r, c)
        invariant forall r :: i < r <= m ==> dp[r, 0] == r
        invariant forall c {:trigger dp[i, c]} :: 0 <= c < j ==> dp[i, c] == EditDistance(s1, s2, i, c)
      {
        if s1[i - 1] != s2[j - 1] {
          var insert := dp[i, j - 1] + 1;
          var delete := dp[i - 1, j] + 1;
          var replace := dp[i - 1, j - 1] + 1;
          dp[i, j] := Min3(insert, delete, replace);
        } else {
          dp[i, j] := dp[i - 1, j - 1];
        }
      }
    }

    d := dp[m, n];
  }

  /** Appending a character to the second string costs at most one edit (textbook form). */
  lemma TextbookExtendSecond(s1: string, s2: string, i: nat, j: nat)
    requires i <= |s1| && 1 <= j <= |s2|
    ensures Textbook(s1, s2, i, j) <= Textbook(s1, s2, i, j - 1) + 1
  {
  }

  /** Appending a character to the first string costs at most one edit (textbook form). */
  lemma TextbookExtendFirst(s1: string, s2: string, i: nat, j: nat)
    requires 1 <= i <= |s1| && j <= |s2|
    ensures Textbook(s1, s2, i, j) <= Textbook(s1, s2, i - 1, j) + 1
  {
  }

  /** Dropping the last character of the first prefix costs at most one edit. */
  lemma {:induction false} TextbookShortenFirst(s1: string, s2: string, i: nat, j: nat)
    requires 1 <= i <= |s1| && j <= |s2|
    ensures Textbook(s1, s2, i - 1, j) <= Textbook(s1, s2, i, j) + 1
    decreases j
  {
    if j > 0 {
      TextbookShortenFirst(s1, s2, i, j - 1);
      TextbookExtendSecond(s1, s2, i - 1, j);
    }
  }

  /** Dropping the last character of the second prefix costs at most one edit. */
  lemma {:induction false} TextbookShortenSecond(s1: string, s2: string, i: nat, j: nat)
    requires i <= |s1| && 1 <= j <= |s2|
    ensures Textbook(s1, s2, i, j - 1) <= Textbook(s1, s2, i, j) + 1
    decreases i
  {
    if i > 0 {
      TextbookShortenSecond(s1, s2, i - 1, j);
      TextbookExtendFirst(s1, s2, i, j - 1);
    }
  }

  /**
   * Copying the diagonal on a match, as the table does, gives the same value
   * as the textbook recurrence that also considers insertion and deletion
   * there: the table computes the true Levenshtein recurrence.
   */
  lemma {:induction false} EditDistanceIsTextbook(s1: string, s2: string, i: nat, j: nat)
    requires i <= |s1| && j <= |s2|
    ensures EditDistance(s1, s2, i, j) == Textbook(s1, s2, i, j)
    decreases i + j
  {
    if i > 0 && j > 0 {
      EditDistanceIsTextbook(s1, s2, i - 1, j - 1);
      if s1[i - 1] == s2[j - 1] {
        TextbookShortenFirst(s1, s2, i, j - 1);
        TextbookShortenSecond(s1, s2, i - 1, j);
      } else {
        EditDistanceIsTextbook(s1, s2, i, j - 1);
        EditDistanceIsTextbook(s1, s2, i - 1, j);
      }
    }
  }

  /** The whole-string distance is the textbook Levenshtein distance. */
  lemma DistanceIsTextbook(s1: string, s2: string)
    ensures Distance(s1, s2) == Textbook(s1, s2, |s1|, |s2|)
  {
    EditDistanceIsTextbook(s1, s2, |s1|, |s2|);
  }

  /** Swapping the two strings gives the transposed table. */
  lemma {:induction false} EditDistanceSymmetric(s1: string, s2: string, i: nat, j: nat)
    requires i <= |s1| && j <= |s2|
    ensures EditDistance(s1, s2, i, j) == EditDistance(s2, s1, j, i)
    decreases i + j
  {
    if i > 0 && j > 0 {
      EditDistanceSymmetric(s1, s2, i - 1, j - 1);
      if s1[i - 1] != s2[j - 1] {
        EditDistanceSymmetric(s1, s2, i, j - 1);
        EditDistanceSymmetric(s1, s2, i - 1, j);
      }
    }
  }

  /** The distance is symmetric in its two arguments. */
  lemma DistanceSymmetric(s1: string, s2: string)
    ensures Distance(s1, s2) == Distance(s2, s1)
  {
    EditDistanceSymmetric(s1, s2, |s1|, |s2|);
  }

  /** A cell is zero exactly when the two prefixes are equal. */
  lemma {:induction false} EditDistanceZeroIff(s1: string, s2: string, i: nat, j: nat)
    requires i <= |s1| && j <= |s2|
    ensures EditDistance(s1, s2, i, j) == 0 <==> s1[..i] == s2[..j]
    decreases i + j
  {
    if i == 0 || j == 0 {
      assert |s1[..i]| == i && |s2[..j]| == j;
    } else if s1[i - 1] == s2[j - 1] {
      EditDistanceZeroIff(s1, s2, i - 1, j - 1);
      assert s1[..i] == s1[..i - 1] + [s1[i - 1]];
      assert s2[..j] == s2[..j - 1] + [s2[j - 1]];
      if s1[..i] == s2[..j] {
        assert s1[..i - 1] == s1[..i][..i - 1] == s2[..j][..j - 1] == s2[..j - 1];
      }
    }
  }

  /** The distance is zero exactly when the two strings are equal. */
  lemma DistanceZeroIff(s1: string, s2: string)
    ensures Distance(s1, s2) == 0 <==> s1 == s2
  {
    EditDistanceZeroIff(s1, s2, |s1|, |s2|);
    assert s1[..|s1|] == s1 && s2[..|s2|] == s2;
  }

  /** Every cell lies between the length difference and the longer length. */
  lemma {:induction false} EditDistanceBounds(s1: string, s2: string, i: nat, j: nat)
    requires i <= |s1| && j <= |s2|
    ensures Abs(i - j) <= EditDistance(s1, s2, i, j) <= Max(i, j)
    decreases i + j
  {
    if i > 0 && j > 0 {
      EditDistanceBounds(s1, s2, i - 1, j - 1);
      if s1[i - 1] != s2[j - 1] {
        EditDistanceBounds(s1, s2, i, j - 1);
        EditDistanceBounds(s1, s2, i - 1, j);
      }
    }
  }

  /** |m - n| <= Distance(s1, s2) <= max(m, n). */
  lemma DistanceBounds(s1: string, s2: string)
    ensures Abs(|s1| - |s2|) <= Distance(s1, s2) <= Max(|s1|, |s2|)
  {
    EditDistanceBounds(s1, s2, |s1|, |s2|);
  }

  /** The number of positions below i where two strings differ. */
  function Mismatches(s1: string, s2: string, i: nat): nat
    requires i <= |s1| && i <= |s2|
  {
    if i == 0 then 0
    else Mismatches(s1, s2, i - 1) + (if s1[i - 1] == s2[i - 1] then 0 else 1)
  }

  /** On equal-length prefixes, substituting each differing character is an upper bound. */
  lemma {:induction false} EditDistanceAtMostMismatches(s1: string, s2: string, i: nat)
    requires i <= |s1| && i <= |s2|
    ensures EditDistance(s1, s2, i, i) <= Mismatches(s1, s2, i)
  {
    if i > 0 {
      EditDistanceAtMostMismatches(s1, s2, i - 1);
    }
  }
}
