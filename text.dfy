/**
 * Characters and strings as the switcher compares them: lowercasing of a
 * letter, and the ordering `<` used to sort application names.
 */
module Text {

  /** `Character.lowercased()` restricted to ASCII: 'A'..'Z' map to 'a'..'z'. */
  function Lower(c: char): (r: char)
    ensures 'a' <= r <= 'z' <==> 'a' <= c <= 'z' || 'A' <= c <= 'Z'
    ensures !('A' <= r <= 'Z')
    ensures !('A' <= c <= 'Z') ==> r == c
    ensures 'A' <= c <= 'Z' ==> r as int == c as int + 32
  {
    if 'A' <= c <= 'Z' then (c as int + 32) as char else c
  }

  /** Lowercasing twice is lowercasing once (`apps(for:)` lowercases a letter that is already lowercase). */
  lemma LowerIdempotent(c: char)
    ensures Lower(Lower(c)) == Lower(c)
  {
  }

  /** `String.lowercased()`, character by character and ASCII only, like `Lower`. */
  function LowerString(s: string): (r: string)
    ensures |r| == |s|
    ensures forall i :: 0 <= i < |s| ==> r[i] == Lower(s[i])
  {
    if s == [] then [] else [Lower(s[0])] + LowerString(s[1..])
  }

  /** `String <`: lexicographic order on code points, a proper prefix first. */
  predicate Less(a: string, b: string): (r: bool)
    ensures |a| < |b| && a == b[..|a|] ==> r
    ensures |a| > 0 && |b| > 0 && a[0] != b[0] ==> (r <==> a[0] < b[0])
    ensures r ==> |b| > 0
  {
    |b| > 0 && (|a| == 0 || a[0] < b[0] || (a[0] == b[0] && Less(a[1..], b[1..])))
  }

  lemma {:induction false} LessIrreflexive(a: string)
    ensures !Less(a, a)
  {
    if |a| > 0 {
      LessIrreflexive(a[1..]);
    }
  }

  lemma {:induction false} LessTransitive(a: string, b: string, c: string)
    requires Less(a, b) && Less(b, c)
    ensures Less(a, c)
  {
    if |a| > 0 && a[0] == b[0] && b[0] == c[0] {
      LessTransitive(a[1..], b[1..], c[1..]);
    }
  }

  /** Two strings that agree before position `i` and differ there are ordered by their characters at `i`. */
  lemma {:induction false} LessFirstDifference(a: string, b: string, i: nat)
    requires i < |a| && i < |b| && a[..i] == b[..i] && a[i] != b[i]
    ensures Less(a, b) <==> a[i] < b[i]
  {
    if i > 0 {
      assert a[0] == a[..i][0] == b[..i][0] == b[0];
      assert a[1..][..i - 1] == a[..i][1..] == b[..i][1..] == b[1..][..i - 1];
      LessFirstDifference(a[1..], b[1..], i - 1);
    }
  }

  /** No string sorts before one of its own prefixes. */
  lemma {:induction false} LessPrefixNot(a: string, k: nat)
    requires k <= |a|
    ensures !Less(a, a[..k])
  {
    if k > 0 && |a| > 0 {
      assert a[..k][0] == a[0];
      assert a[..k][1..] == a[1..][..k - 1];
      LessPrefixNot(a[1..], k - 1);
    }
  }
}
