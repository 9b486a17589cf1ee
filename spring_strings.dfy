/** The two string tests the repository relies on, as Spring and the JDK define them. */
module SpringStrings {

  /**
   * `java.lang.Character.isWhitespace`: the Unicode space, line and paragraph
   * separators other than the no-break spaces U+00A0, U+2007 and U+202F, and
   * the control characters U+0009 to U+000D and U+001C to U+001F.
   */
  predicate IsWhitespace(ch: char)
  {
    var n := ch as int;
    || 0x09 <= n <= 0x0D
    || 0x1C <= n <= 0x20
    || n == 0x1680
    || 0x2000 <= n <= 0x2006
    || 0x2008 <= n <= 0x200A
    || n == 0x2028 || n == 0x2029 || n == 0x205F || n == 0x3000
  }

  /**
   * `org.springframework.util.StringUtils.hasText` on a non-null string:
   * it is not empty and some character of it is not whitespace.
   */
  predicate HasText(s: string)
  {
    exists i | 0 <= i < |s| :: !IsWhitespace(s[i])
  }
}
