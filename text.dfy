/** String operations the pipeline relies on: case mapping, JavaScript's
    string `<`, and substring search. Case mapping is the ASCII fold; the
    locale- and Unicode-aware mappings of JavaScript are not modelled. */
module Text {

  /** `toLowerCase` restricted to ASCII: 'A'..'Z' become 'a'..'z'. */
  function LowerChar(c: char): char {
    if 'A' <= c <= 'Z' then (c as int + 32) as char else c
  }

  /** `toUpperCase` restricted to ASCII: 'a'..'z' become 'A'..'Z'. */
  function UpperChar(c: char): char {
    if 'a' <= c <= 'z' then (c as int - 32) as char else c
  }

  /** `toLowerCase` on ASCII: no upper-case letter is left, and only the
      upper-case letters change. */
  function Lower(s: string): (r: string)
    ensures |r| == |s|
    ensures forall i :: 0 <= i < |s| ==> !('A' <= r[i] <= 'Z') && (r[i] != s[i] <==> 'A' <= s[i] <= 'Z')
  {
    seq(|s|, i requires 0 <= i < |s| => LowerChar(s[i]))
  }

  /** `toUpperCase` on ASCII: no lower-case letter is left, and only the
      lower-case letters change. */
  function Upper(s: string): (r: string)
    ensures |r| == |s|
    ensures forall i :: 0 <= i < |s| ==> !('a' <= r[i] <= 'z') && (r[i] != s[i] <==> 'a' <= s[i] <= 'z')
  {
    seq(|s|, i requires 0 <= i < |s| => UpperChar(s[i]))
  }

  /** JavaScript's `<` on strings: lexicographic, here by Unicode scalar
      value, a proper prefix being smaller than the string it begins. */
  predicate Less(a: string, b: string)
    ensures Less(a, b) ==> a != b
    ensures |a| < |b| && b[..|a|] == a ==> Less(a, b)
  {
    if a == [] then b != []
    else b != [] && (a[0] < b[0] || (a[0] == b[0] && Less(a[1..], b[1..])))
  }

  lemma {:induction false} LessIrreflexive(a: string)
    ensures !Less(a, a)
  {
    if a != [] {
      LessIrreflexive(a[1..]);
    }
  }

  lemma {:induction false} LessAsymmetric(a: string, b: string)
    ensures Less(a, b) ==> !Less(b, a)
  {
    if a != [] && b != [] && a[0] == b[0] {
      LessAsymmetric(a[1..], b[1..]);
    }
  }

  lemma {:induction false} LessTransitive(a: string, b: string, c: string)
    requires Less(a, b) && Less(b, c)
    ensures Less(a, c)
  {
    if a != [] && a[0] == b[0] && b[0] == c[0] {
      LessTransitive(a[1..], b[1..], c[1..]);
    }
  }

  /** Any two strings are ordered one way or the other, or are equal. */
  lemma {:induction false} LessTotal(a: string, b: string)
    ensures Less(a, b) || a == b || Less(b, a)
  {
    if a != [] && b != [] && a[0] == b[0] {
      LessTotal(a[1..], b[1..]);
      assert a == [a[0]] + a[1..] && b == [b[0]] + b[1..];
    }
  }

  /** At position `i`, after a common prefix, `a` has ended while `b` has
      not, or `a` has the smaller character. */
  predicate FirstDifferenceAt(a: string, b: string, i: int) {
    0 <= i <= |a| && i < |b| && a[..i] == b[..i] && (i == |a| || a[i] < b[i])
  }

  /** `<` is decided at the first position where the strings differ: `a`
      is smaller iff it ends there while `b` goes on, or has the smaller
      character there. */
  lemma {:induction false} LessFirstDifference(a: string, b: string)
    ensures Less(a, b) <==> exists i :: FirstDifferenceAt(a, b, i)
  {
    if a == [] || b == [] {
      if a == [] && b != [] {
        assert FirstDifferenceAt(a, b, 0);
      }
    } else if a[0] < b[0] {
      assert FirstDifferenceAt(a, b, 0);
    } else if a[0] == b[0] {
      LessFirstDifference(a[1..], b[1..]);
      if Less(a[1..], b[1..]) {
        var i :| FirstDifferenceAt(a[1..], b[1..], i);
        assert a[..i + 1] == [a[0]] + a[1..][..i];
        assert b[..i + 1] == [b[0]] + b[1..][..i];
        assert FirstDifferenceAt(a, b, i + 1);
      } else {
        forall i | FirstDifferenceAt(a, b, i)
          ensures false
        {
          assert i != 0;
          assert a[1..][..i - 1] == a[1..i] == b[1..i] == b[1..][..i - 1];
          assert FirstDifferenceAt(a[1..], b[1..], i - 1);
        }
      }
    }
  }

  /** "Not after": the order `!(b < a)` is transitive. */
  lemma NotLessTransitive(a: string, b: string, c: string)
    requires !Less(b, a) && !Less(c, b)
    ensures !Less(c, a)
  {
    LessTotal(a, b);
    LessTotal(b, c);
    if Less(a, b) && Less(b, c) {
      LessTransitive(a, b, c);
      LessAsymmetric(a, c);
    } else if Less(a, b) {
      LessAsymmetric(a, c);
    } else if Less(b, c) {
      LessAsymmetric(a, c);
    } else {
      LessIrreflexive(a);
    }
  }

  /** A character between 'Z' and 'a' ('[', '\', ']', '^', '_', '`'):
      the lower-case fold puts it before the letters, the upper-case fold
      after them. */
  predicate BetweenCases(c: char) {
    'Z' < c < 'a'
  }

  /** A string on which the two case folds order characters alike. */
  predicate CaseSafe(s: string) {
    forall i :: 0 <= i < |s| ==> !BetweenCases(s[i])
  }

  lemma FoldsAgreeOnChars(c: char, d: char)
    requires !BetweenCases(c) && !BetweenCases(d)
    ensures LowerChar(c) < LowerChar(d) <==> UpperChar(c) < UpperChar(d)
    ensures LowerChar(c) == LowerChar(d) <==> UpperChar(c) == UpperChar(d)
  {
  }

  /** On strings without characters between 'Z' and 'a', comparing the
      lower-cased forms and comparing the upper-cased forms agree. */
  lemma {:induction false} FoldsAgree(a: string, b: string)
    requires CaseSafe(a) && CaseSafe(b)
    ensures Less(Lower(a), Lower(b)) <==> Less(Upper(a), Upper(b))
  {
    if a != [] && b != [] {
      FoldsAgreeOnChars(a[0], b[0]);
      assert Lower(a)[1..] == Lower(a[1..]) && Lower(b)[1..] == Lower(b[1..]);
      assert Upper(a)[1..] == Upper(a[1..]) && Upper(b)[1..] == Upper(b[1..]);
      FoldsAgree(a[1..], b[1..]);
    }
  }

  /** The ASCII fold makes upper-casing first irrelevant to lower-casing. */
  lemma LowerOfUpper(s: string)
    ensures Lower(Upper(s)) == Lower(s)
  {
  }

  predicate StartsWith(s: string, prefix: string) {
    |prefix| <= |s| && s[..|prefix|] == prefix
  }

  /** `String.prototype.includes`: tries each start position in turn. */
  predicate Includes(s: string, sub: string)
    ensures Includes(s, sub) ==> |sub| <= |s|
    ensures sub == [] ==> Includes(s, sub)
    decreases |s|
  {
    StartsWith(s, sub) || (s != [] && Includes(s[1..], sub))
  }

  /** `sub` occurs in `s` starting at position `i`. */
  predicate OccursAt(s: string, sub: string, i: int) {
    0 <= i && i + |sub| <= |s| && s[i..i + |sub|] == sub
  }

  /** The scan finds `sub` exactly when it occurs at some position. */
  lemma {:induction false} IncludesIffOccurs(s: string, sub: string)
    ensures Includes(s, sub) <==> exists i :: OccursAt(s, sub, i)
    decreases |s|
  {
    if StartsWith(s, sub) {
      assert OccursAt(s, sub, 0);
    } else if s != [] {
      IncludesIffOccurs(s[1..], sub);
      if Includes(s[1..], sub) {
        var i :| OccursAt(s[1..], sub, i);
        assert s[1..][i..i + |sub|] == s[i + 1..i + 1 + |sub|];
        assert OccursAt(s, sub, i + 1);
      } else {
        forall i | OccursAt(s, sub, i)
          ensures false
        {
          assert i != 0;
          assert s[1..][i - 1..i - 1 + |sub|] == s[i..i + |sub|];
          assert OccursAt(s[1..], sub, i - 1);
        }
      }
    }
  }
}
