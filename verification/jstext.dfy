/** `String.prototype.trim` as the text tool uses it: a pending text is
    committed only when what is left after trimming is non-empty. */
module JsText {

  /** ECMAScript WhiteSpace and LineTerminator code points (tab, vertical tab,
      form feed, space, no-break space, byte order mark, the other Zs space
      separators, line feed, carriage return, line and paragraph separators). */
  predicate IsJsWhitespace(c: char)
  {
    || c == '\t' || c == '\n' || c == '\U{000B}' || c == '\U{000C}' || c == '\r'
    || c == ' ' || c == '\U{00A0}' || c == '\U{1680}'
    || ('\U{2000}' <= c <= '\U{200A}')
    || c == '\U{2028}' || c == '\U{2029}' || c == '\U{202F}' || c == '\U{205F}'
    || c == '\U{3000}' || c == '\U{FEFF}'
  }

  /** A text with nothing visible in it: `text.trim()` is falsy. */
  predicate IsBlank(t: string)
  {
    forall i :: 0 <= i < |t| ==> IsJsWhitespace(t[i])
  }

  /** Drops leading white space: the result is the longest suffix of `t` that
      does not start with white space. */
  function TrimStart(t: string): (r: string)
    ensures |r| <= |t| && r == t[|t| - |r|..]
    ensures |r| > 0 ==> !IsJsWhitespace(r[0])
    ensures forall i :: 0 <= i < |t| - |r| ==> IsJsWhitespace(t[i])
  {
    if |t| > 0 && IsJsWhitespace(t[0]) then TrimStart(t[1..]) else t
  }

  /** Drops trailing white space: the result is the longest prefix of `t` that
      does not end with white space. */
  function TrimEnd(t: string): (r: string)
    ensures |r| <= |t| && r == t[..|r|]
    ensures |r| > 0 ==> !IsJsWhitespace(r[|r| - 1])
    ensures forall i :: |r| <= i < |t| ==> IsJsWhitespace(t[i])
  {
    if |t| > 0 && IsJsWhitespace(t[|t| - 1]) then TrimEnd(t[..|t| - 1]) else t
  }

  function Trim(t: string): string
  {
    TrimEnd(TrimStart(t))
  }

  /** The commit guard `text.trim()` fails exactly on blank texts. */
  lemma TrimEmptyIffBlank(t: string)
    ensures Trim(t) == "" <==> IsBlank(t)
  {
    var u := TrimStart(t);
    if Trim(t) == "" {
      // Nothing survives trimming the end, so `u` is empty and all of `t` was leading space.
      assert |u| == 0;
    } else {
      var r := Trim(t);
      assert r[0] == u[0];
      assert u[0] == t[|t| - |u|];
    }
  }
}
