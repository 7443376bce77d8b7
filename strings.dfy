/** The two functions of Go's `strings` package that the core relies on:
    `strings.Compare` (tie-breaking order of the itinerary) and
    `strings.Contains` (classification of error messages).
    Strings are sequences of characters compared by code point, which orders
    UTF-8 encoded strings exactly as Go's byte-wise comparison does. */
module GoStrings {

  type String = seq<char>

  /** strings.Compare(a, b): -1 if a sorts before b, 0 if equal, +1 otherwise. */
  function Compare(a: String, b: String): (c: int)
    ensures c == -1 || c == 0 || c == 1
    ensures c == 0 <==> a == b
  {
    if a == [] then (if b == [] then 0 else -1)
    else if b == [] then 1
    else if a[0] < b[0] then -1
    else if a[0] > b[0] then 1
    else
      assert a == [a[0]] + a[1..] && b == [b[0]] + b[1..];
      Compare(a[1..], b[1..])
  }

  /** `a` sorts strictly before `b`: the less function handed to sort.Slice. */
  predicate Less(a: String, b: String) {
    Compare(a, b) == -1
  }

  /** Reference definition of lexicographic order: `a` is a proper prefix of `b`,
      or the first position where they differ holds a smaller character in `a`. */
  ghost predicate LexicographicallyBefore(a: String, b: String) {
    (|a| < |b| && a == b[..|a|]) ||
    exists i :: FirstDifference(a, b, i) && a[i] < b[i]
  }

  predicate FirstDifference(a: String, b: String, i: int) {
    0 <= i < |a| && i < |b| && a[..i] == b[..i] && a[i] != b[i]
  }

  /** Swapping the operands negates the comparison. */
  lemma {:induction false} CompareFlip(a: String, b: String)
    ensures Compare(b, a) == -Compare(a, b)
  {
    if a != [] && b != [] && a[0] == b[0] {
      CompareFlip(a[1..], b[1..]);
    }
  }

  /** "Sorts no later than" is transitive. */
  lemma {:induction false} CompareTransitive(a: String, b: String, c: String)
    requires Compare(a, b) <= 0 && Compare(b, c) <= 0
    ensures Compare(a, c) <= 0
  {
    if a != [] && b != [] && c != [] && a[0] == b[0] && b[0] == c[0] {
      CompareTransitive(a[1..], b[1..], c[1..]);
    }
  }

  /** Compare agrees with the reference lexicographic order, in both directions. */
  lemma {:induction false} LessIsLexicographic(a: String, b: String)
    ensures Less(a, b) <==> LexicographicallyBefore(a, b)
  {
    if a == [] || b == [] {
      if b == [] {
        forall i | FirstDifference(a, b, i) ensures false { }
      }
    } else if a[0] != b[0] {
      assert FirstDifference(a, b, 0);
      assert forall i :: 0 < i <= |a| ==> a[..i][0] == a[0];
      assert forall i :: 0 < i <= |b| ==> b[..i][0] == b[0];
    } else {
      LessIsLexicographic(a[1..], b[1..]);
      BeforeAfterCommonHead(a, b);
    }
  }

  /** A common first character does not decide the lexicographic order. */
  lemma BeforeAfterCommonHead(a: String, b: String)
    requires a != [] && b != [] && a[0] == b[0]
    ensures LexicographicallyBefore(a, b) <==> LexicographicallyBefore(a[1..], b[1..])
  {
    if exists i :: FirstDifference(a[1..], b[1..], i) && a[1..][i] < b[1..][i] {
      var i :| FirstDifference(a[1..], b[1..], i) && a[1..][i] < b[1..][i];
      assert a[..i + 1] == [a[0]] + a[1..][..i];
      assert b[..i + 1] == [b[0]] + b[1..][..i];
      assert FirstDifference(a, b, i + 1);
    }
    if exists i :: FirstDifference(a, b, i) && a[i] < b[i] {
      var i :| FirstDifference(a, b, i) && a[i] < b[i];
      assert i > 0;
      assert a[1..][..i - 1] == a[..i][1..];
      assert b[1..][..i - 1] == b[..i][1..];
      assert FirstDifference(a[1..], b[1..], i - 1);
    }
    if |a| < |b| && a == b[..|a|] {
      assert a[1..] == b[1..][..|a[1..]|];
    }
    if |a[1..]| < |b[1..]| && a[1..] == b[1..][..|a[1..]|] {
      assert a == [a[0]] + a[1..];
      assert b[..|a|] == [b[0]] + b[1..][..|a[1..]|];
    }
  }

  /** strings.Contains(s, sub): `sub` occurs somewhere in `s` (the empty string occurs everywhere). */
  function Contains(s: String, sub: String): bool
  {
    sub <= s || (s != [] && Contains(s[1..], sub))
  }

  predicate OccursAt(s: String, sub: String, i: int) {
    0 <= i && i + |sub| <= |s| && s[i..i + |sub|] == sub
  }

  /** Contains holds exactly when `sub` occupies some window of `s`. */
  lemma {:induction false} ContainsIffOccurs(s: String, sub: String)
    ensures Contains(s, sub) <==> exists i :: OccursAt(s, sub, i)
  {
    if sub <= s {
      assert OccursAt(s, sub, 0);
    } else if s == [] {
      assert forall i :: OccursAt(s, sub, i) ==> |sub| == 0;
    } else {
      ContainsIffOccurs(s[1..], sub);
      if exists i :: OccursAt(s[1..], sub, i) {
        var i :| OccursAt(s[1..], sub, i);
        assert s[1..][i..i + |sub|] == s[i + 1..i + 1 + |sub|];
        assert OccursAt(s, sub, i + 1);
      }
      if exists i :: OccursAt(s, sub, i) {
        var i :| OccursAt(s, sub, i);
        assert i != 0;
        assert s[1..][i - 1..i - 1 + |sub|] == s[i..i + |sub|];
        assert OccursAt(s[1..], sub, i - 1);
      }
    }
  }
}
