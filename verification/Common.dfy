/** Small notions several components share. */
module Common {

  /** The characters Python's `str.strip` removes. */
  predicate Whitespace(c: char) {
    var code := c as int;
    || 9 <= code <= 13 || 28 <= code <= 32 || code == 0x85 || code == 0xA0 || code == 0x1680
    || 0x2000 <= code <= 0x200A || code == 0x2028 || code == 0x2029 || code == 0x202F || code == 0x205F
    || code == 0x3000
  }

  predicate Blank(s: string) { forall c :: c in s ==> Whitespace(c) }

  /** Python's `t in s` on strings. */
  predicate Substring(t: string, s: string) {
    exists i :: 0 <= i <= |s| && t <= s[i..]
  }

  predicate HexDigit(c: char) { '0' <= c <= '9' || 'a' <= c <= 'f' }

  /** A digest as it is written down: `sha256:` and 64 lower-case hexadecimal digits. */
  predicate DigestOk(s: string) {
    |s| == 71 && s[..7] == "sha256:" && forall i :: 7 <= i < 71 ==> HexDigit(s[i])
  }

  predicate Distinct<T(==)>(s: seq<T>) { forall i, j :: 0 <= i < j < |s| ==> s[i] != s[j] }

  lemma {:induction false} SubsetSize<T>(a: set<T>, b: set<T>)
    requires a <= b
    ensures |a| <= |b| && (a != b ==> |a| < |b|)
  {
    if a != {} {
      var x :| x in a;
      SubsetSize(a - {x}, b - {x});
    }
  }

  /** A list without repetitions is as long as the set of its elements. */
  lemma {:induction false} DistinctSize<T>(s: seq<T>, elements: set<T>)
    requires Distinct(s) && forall x :: x in elements <==> x in s
    ensures |s| == |elements|
  {
    if s == [] {
      assert elements == {};
    } else {
      var last := s[|s| - 1];
      var front := s[..|s| - 1];
      assert s == front + [last] && last !in front;
      DistinctSize(front, elements - {last});
    }
  }
}
