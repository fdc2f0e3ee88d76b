/**
 * The per-type validity predicate of the form: an `email` field must match
 * the unanchored pattern `(.+)@(.+){2,}\.(.+){2,}`, a `password` must be
 * longer than six characters, any other field must be non-empty.
 */
module Validation {

  /** The characters a JavaScript `.` does not match (without the `s` flag). */
  predicate IsLineTerminator(c: char)
  {
    c == '\n' || c == '\r' || c == '\U{2028}' || c == '\U{2029}'
  }

  /** Every character of `t` is matched by `.`. */
  predicate AllDot(t: string)
  {
    forall k :: 0 <= k < |t| ==> !IsLineTerminator(t[k])
  }

  /**
   * The pattern `(.+)@(.+){2,}\.(.+){2,}` matches somewhere in `s`: a slice
   * s[a..e] splits into at least one dot-character, '@', at least two,
   * '.', and at least two more.
   */
  predicate EmailPattern(s: string): (matched: bool)
    ensures matched ==> |s| >= 7 && '@' in s && '.' in s
  {
    exists a, p, q, e | 0 <= a < p < q < e <= |s| :: PatternAt(s, a, p, q, e)
  }

  /** s[a..e] is the match, with its '@' at p and its '.' at q. */
  predicate PatternAt(s: string, a: int, p: int, q: int, e: int)
  {
    0 <= a < p && p + 2 < q && q + 2 < e <= |s| &&
    s[p] == '@' && s[q] == '.' &&
    AllDot(s[a..p]) && AllDot(s[p + 1..q]) && AllDot(s[q + 1..e])
  }

  /**
   * The same test stated on the '@' and the '.' alone: one dot-character
   * right before the '@', only dot-characters between it and a later '.' at
   * least three positions on, and two dot-characters right after that '.'.
   */
  predicate EmailLike(s: string)
  {
    exists p, q | 0 <= p < q < |s| :: SplitAt(s, p, q)
  }

  /** The '@' at p and the '.' at q witness EmailLike. */
  predicate SplitAt(s: string, p: int, q: int)
  {
    1 <= p && p + 2 < q && q + 2 < |s| &&
    s[p] == '@' && s[q] == '.' &&
    !IsLineTerminator(s[p - 1]) && AllDot(s[p + 1..q]) &&
    !IsLineTerminator(s[q + 1]) && !IsLineTerminator(s[q + 2])
  }

  /** The pattern matches exactly when the '@'/'.' description holds. */
  lemma EmailPatternIff(s: string)
    ensures EmailPattern(s) <==> EmailLike(s)
  {
    if EmailPattern(s) {
      var a, p, q, e :| 0 <= a < p < q < e <= |s| && PatternAt(s, a, p, q, e);
      assert s[a..p][p - 1 - a] == s[p - 1];
      assert s[q + 1..e][0] == s[q + 1] && s[q + 1..e][1] == s[q + 2];
      assert SplitAt(s, p, q);
    }
    if EmailLike(s) {
      var p, q :| 0 <= p < q < |s| && SplitAt(s, p, q);
      assert s[p - 1..p] == [s[p - 1]];
      assert s[q + 1..q + 3] == [s[q + 1], s[q + 2]];
      assert PatternAt(s, p - 1, p, q, q + 3);
    }
  }

  /** A matching value has at least seven characters, among them an '@' and a '.'. */
  lemma EmailLikeShape(s: string)
    ensures EmailLike(s) ==> |s| >= 7 && '@' in s && '.' in s
  {
    if EmailLike(s) {
      var p, q :| 0 <= p < q < |s| && SplitAt(s, p, q);
      assert s[p] in s && s[q] in s;
    }
  }

  /** The pattern is unanchored: text around a matching value does not stop it matching. */
  lemma EmailUnanchored(before: string, s: string, after: string)
    requires EmailPattern(s)
    ensures EmailPattern(before + s + after)
  {
    var a, p, q, e :| 0 <= a < p < q < e <= |s| && PatternAt(s, a, p, q, e);
    var t := before + s + after;
    var k := |before|;
    assert t[k + a..k + p] == s[a..p];
    assert t[k + p + 1..k + q] == s[p + 1..q];
    assert t[k + q + 1..k + e] == s[q + 1..e];
    assert t[k + p] == s[p] && t[k + q] == s[q];
    assert PatternAt(t, k + a, k + p, k + q, k + e);
  }

  /** `validate`'s switch on the type attribute (an absent attribute takes the default branch). */
  function IsValid(typeAttr: string, value: string): (valid: bool)
    ensures valid ==> |value| > 0
    ensures typeAttr == "email" ==> (valid <==> EmailLike(value))
    ensures typeAttr == "password" ==> (valid <==> |value| > 6)
    ensures typeAttr != "email" && typeAttr != "password" ==> (valid <==> |value| > 0)
  {
    EmailPatternIff(value);
    if typeAttr == "email" then EmailPattern(value)
    else if typeAttr == "password" then |value| > 6
    else |value| > 0
  }

  /** The examples the form is built around. */
  lemma ValidationExamples()
    ensures IsValid("email", "a@bb.cc")
    ensures !IsValid("email", "a@b")
    ensures !IsValid("email", "a@b.cc")
    ensures IsValid("password", "1234567")
    ensures !IsValid("password", "123456")
    ensures IsValid("text", "x") && IsValid("", "x")
    ensures !IsValid("text", "")
  {
    var ok := "a@bb.cc";
    assert ok[1] == '@' && ok[4] == '.';
    assert AllDot(ok[2..4]);
    assert SplitAt(ok, 1, 4);
    var short := "a@b.cc";
    forall p, q | 0 <= p < q < |short|
      ensures !SplitAt(short, p, q)
    {
    }
    EmailLikeShape("a@b");
  }

}
