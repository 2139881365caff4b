/**
 * `String.prototype.trim` of ECMAScript: remove the white space and line
 * terminators at both ends of a string (section 22.1.3.32 of ECMA-262, with
 * the white space of section 12.2 and the line terminators of section 12.3).
 */
module Text {

  /** ECMAScript white space (tab, vertical tab, form feed, space, no-break space, byte order mark, category Zs) and line terminators. */
  predicate IsTrimmable(c: char)
  {
    || c == '\t' || c == '\n' || c == '\U{000B}' || c == '\U{000C}' || c == '\r' || c == ' '
    || c == '\U{00A0}' || c == '\U{1680}' || ('\U{2000}' <= c <= '\U{200A}')
    || c == '\U{2028}' || c == '\U{2029}' || c == '\U{202F}' || c == '\U{205F}' || c == '\U{3000}'
    || c == '\U{FEFF}'
  }

  /** The number of trimmable characters at the start of `s`. */
  function LeadingCount(s: string): (n: nat)
    ensures n <= |s|
    ensures forall i :: 0 <= i < n ==> IsTrimmable(s[i])
    ensures n < |s| ==> !IsTrimmable(s[n])
  {
    if s == [] || !IsTrimmable(s[0]) then 0
    else 1 + LeadingCount(s[1..])
  }

  /** The number of trimmable characters at the end of `s`. */
  function TrailingCount(s: string): (n: nat)
    ensures n <= |s|
    ensures forall i :: |s| - n <= i < |s| ==> IsTrimmable(s[i])
    ensures n < |s| ==> !IsTrimmable(s[|s| - n - 1])
  {
    if s == [] || !IsTrimmable(s[|s| - 1]) then 0
    else 1 + TrailingCount(s[..|s| - 1])
  }

  /** `s` with its leading and trailing trimmable characters removed. */
  function Trim(s: string): (r: string)
  {
    var start := LeadingCount(s);
    var rest := s[start..];
    rest[..|rest| - TrailingCount(rest)]
  }

  /**
   * The trimmed string is a contiguous piece of the input whose ends are not
   * trimmable, and everything cut off on either side is trimmable.
   */
  lemma TrimSlice(s: string)
    ensures exists i, j ::
      && 0 <= i <= j <= |s| && Trim(s) == s[i..j]
      && (forall k :: 0 <= k < i ==> IsTrimmable(s[k]))
      && (forall k :: j <= k < |s| ==> IsTrimmable(s[k]))
    ensures Trim(s) != [] ==> !IsTrimmable(Trim(s)[0]) && !IsTrimmable(Trim(s)[|Trim(s)| - 1])
  {
    var i := LeadingCount(s);
    var rest := s[i..];
    var j := i + |rest| - TrailingCount(rest);
    assert Trim(s) == s[i..j];
    forall k | j <= k < |s| ensures IsTrimmable(s[k]) {
      assert s[k] == rest[k - i];
    }
  }

  /** The trimmed string is empty exactly when every character of the input is trimmable. */
  lemma TrimEmpty(s: string)
    ensures Trim(s) == [] <==> forall k :: 0 <= k < |s| ==> IsTrimmable(s[k])
  {
    var i := LeadingCount(s);
    var rest := s[i..];
    assert |Trim(s)| == |rest| - TrailingCount(rest);
    if i < |s| {
      assert rest[0] == s[i];
      assert Trim(s) != [];
    }
  }

  /** Trimming twice is trimming once. */
  lemma TrimIdempotent(s: string)
    ensures Trim(Trim(s)) == Trim(s)
  {
    var t := Trim(s);
    TrimSlice(s);
    if t != [] {
      assert LeadingCount(t) == 0;
      assert TrailingCount(t) == 0;
      assert t[0..] == t;
    }
  }
}
