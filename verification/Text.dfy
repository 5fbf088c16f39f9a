/** The string primitives the modelled packages share: whitespace, trimming and cutting. */
module Text {

  const MAX_ID_LENGTH: nat := 256
  const MAX_TYPE_LENGTH: nat := 128

  /** Go's unicode.IsSpace. */
  predicate IsSpace(c: char) {
    || '\t' <= c <= '\r'
    || c == ' ' || c == '\U{85}' || c == '\U{A0}' || c == '\U{1680}'
    || '\U{2000}' <= c <= '\U{200A}'
    || c == '\U{2028}' || c == '\U{2029}' || c == '\U{202F}' || c == '\U{205F}' || c == '\U{3000}'
  }

  predicate IsPythonWhitespace(c: char) {
    IsSpace(c) || '\U{1C}' <= c <= '\U{1F}'
  }

  /** The code points Python's str.strip removes. */
  lemma WhitespaceExact(c: char)
    ensures var n := c as int;
            IsPythonWhitespace(c) <==>
              || 9 <= n <= 13 || 28 <= n <= 32 || n == 133 || n == 160 || n == 5760 || 8192 <= n <= 8202
              || n == 8232 || n == 8233 || n == 8239 || n == 8287 || n == 12288
  {}

  function TrimLeft(drop: char -> bool, s: string): string {
    if s != "" && drop(s[0]) then TrimLeft(drop, s[1..]) else s
  }

  function TrimRight(drop: char -> bool, s: string): string {
    if s != "" && drop(s[|s| - 1]) then TrimRight(drop, s[..|s| - 1]) else s
  }

  function Trim(drop: char -> bool, s: string): string {
    TrimRight(drop, TrimLeft(drop, s))
  }

  /** A bounded identity: non-empty, trimmed of Python whitespace and at most `maximum` code points. */
  predicate ValidText(value: string, maximum: nat) {
    var trimmed := Trim(IsPythonWhitespace, value);
    trimmed != "" && trimmed == value && |value| <= maximum
  }

  lemma TrimLeftKeeps(drop: char -> bool, s: string)
    ensures |TrimLeft(drop, s)| < |s| <==> s != "" && drop(s[0])
    ensures |TrimLeft(drop, s)| == |s| <==> TrimLeft(drop, s) == s
  {}

  lemma TrimRightKeeps(drop: char -> bool, s: string)
    ensures |TrimRight(drop, s)| < |s| <==> s != "" && drop(s[|s| - 1])
    ensures |TrimRight(drop, s)| == |s| <==> TrimRight(drop, s) == s
  {}

  /** Comparing a value with its trimmed form asks that it neither starts nor ends with whitespace. */
  lemma ValidTextExact(value: string, maximum: nat)
    ensures ValidText(value, maximum) <==>
              && 0 < |value| <= maximum
              && !IsPythonWhitespace(value[0]) && !IsPythonWhitespace(value[|value| - 1])
  {
    TrimLeftKeeps(IsPythonWhitespace, value);
    TrimRightKeeps(IsPythonWhitespace, TrimLeft(IsPythonWhitespace, value));
  }

  /** The first position of `c` in `s`, or |s| when it does not occur. */
  function IndexOf(s: string, c: char): (i: nat)
    ensures i <= |s| && c !in s[..i]
    ensures i < |s| ==> s[i] == c
  {
    if s == "" || s[0] == c then 0 else 1 + IndexOf(s[1..], c)
  }

  /** bytes.Cut with a one-character separator: the text before it, after it, and whether it occurs. */
  function Cut(s: string, c: char): (string, string, bool) {
    var i := IndexOf(s, c);
    if i < |s| then (s[..i], s[i + 1..], true) else (s, "", false)
  }

  lemma {:induction false} CutAt(a: string, c: char, b: string)
    requires c !in a
    ensures Cut(a + [c] + b, c) == (a, b, true)
  {
    if a == "" {
      assert (a + [c] + b)[1..] == b;
    } else {
      var s := a + [c] + b;
      CutAt(a[1..], c, b);
      assert s[1..] == a[1..] + [c] + b;
      assert IndexOf(a[1..] + [c] + b, c) == |a| - 1;
      assert IndexOf(s, c) == |a|;
      assert s[..|a|] == a && s[|a| + 1..] == b;
    }
  }

  lemma CutMissing(s: string, c: char)
    requires c !in s
    ensures Cut(s, c) == (s, "", false)
  {}
}
