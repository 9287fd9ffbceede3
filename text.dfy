/** Character classes and string tests used by the validation guards. */
module Text {

  /** Kotlin's `Char.isWhitespace()` on the JVM, which is
      `Character.isWhitespace(c) || Character.isSpaceChar(c)`: the control
      characters U+0009..U+000D and U+001C..U+001F, and every character of the
      Unicode categories Zs, Zl and Zp (as of Unicode 6.3). */
  predicate IsWhitespace(c: char)
    ensures c == ' ' || c == '\t' || c == '\n' || c == '\r' ==> IsWhitespace(c)
    ensures IsWhitespace(c) ==> !IsWordChar(c)
  {
    var n := c as int;
    || 0x09 <= n <= 0x0D
    || 0x1C <= n <= 0x20
    || n == 0xA0
    || n == 0x1680
    || 0x2000 <= n <= 0x200A
    || n == 0x2028 || n == 0x2029
    || n == 0x202F || n == 0x205F
    || n == 0x3000
  }

  /** Kotlin's `CharSequence.isBlank()`: empty, or whitespace only. */
  predicate IsBlank(s: string)
    ensures s == [] ==> IsBlank(s)
    ensures IsBlank(s) ==> forall i :: 0 <= i < |s| ==> !IsWordChar(s[i])
  {
    forall i :: 0 <= i < |s| ==> IsWhitespace(s[i])
  }

  /** One character of the class `[a-zA-Z0-9_]`. */
  predicate IsWordChar(c: char) {
    ('a' <= c <= 'z') || ('A' <= c <= 'Z') || ('0' <= c <= '9') || c == '_'
  }

  /** `s.matches(Regex("^[a-zA-Z0-9_]+$"))`: `matches` must consume the whole
      input, so this is "non-empty and every character is in the class". */
  predicate MatchesUsernamePattern(s: string)
    ensures MatchesUsernamePattern(s) ==> |s| > 0 && forall i :: 0 <= i < |s| ==> !IsWhitespace(s[i])
  {
    |s| > 0 && forall i :: 0 <= i < |s| ==> IsWordChar(s[i])
  }

  /** A string of whitespace is blank, whatever its length. */
  function Spaces(n: nat): (s: string)
    ensures |s| == n && IsBlank(s)
  {
    if n == 0 then "" else Spaces(n - 1) + " "
  }

  /** No character of the username class is whitespace, so a string the
      username pattern accepts is never blank. */
  lemma PatternExcludesBlank(s: string)
    ensures MatchesUsernamePattern(s) ==> !IsBlank(s)
  {
    if MatchesUsernamePattern(s) {
      assert IsWordChar(s[0]);
    }
  }
}
