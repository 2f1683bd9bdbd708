/** The two string operations the watchlist applies to a typed symbol:
    `String.prototype.toUpperCase` (on ASCII letters) and `String.prototype.trim`. */
module Text {

  predicate IsAsciiLower(c: char) {
    'a' <= c <= 'z'
  }

  /** Upper-cases one character; only the 26 ASCII lower-case letters change. */
  function UpperChar(c: char): (u: char)
    ensures !IsAsciiLower(u)
    ensures IsAsciiLower(c) ==> 'A' <= u <= 'Z' && u as int - 'A' as int == c as int - 'a' as int
    ensures !IsAsciiLower(c) ==> u == c
  {
    if IsAsciiLower(c) then (c as int - 32) as char else c
  }

  function Upper(s: string): (r: string)
    ensures |r| == |s|
    ensures forall i :: 0 <= i < |s| ==> r[i] == UpperChar(s[i])
  {
    if |s| == 0 then [] else [UpperChar(s[0])] + Upper(s[1..])
  }

  /** Upper-casing twice is the same as upper-casing once. */
  lemma {:induction false} UpperIdempotent(s: string)
    ensures Upper(Upper(s)) == Upper(s)
  {
    if |s| > 0 {
      UpperIdempotent(s[1..]);
    }
  }

  /** The characters ECMAScript counts as WhiteSpace or LineTerminator, which `trim` removes. */
  predicate IsJsWhitespace(c: char) {
    var n := c as int;
    n == 0x09 || n == 0x0A || n == 0x0B || n == 0x0C || n == 0x0D || n == 0x20
    || n == 0xA0 || n == 0x1680 || (0x2000 <= n <= 0x200A) || n == 0x2028 || n == 0x2029
    || n == 0x202F || n == 0x205F || n == 0x3000 || n == 0xFEFF
  }

  predicate AllWhitespace(s: string) {
    forall i :: 0 <= i < |s| ==> IsJsWhitespace(s[i])
  }

  /** Drops leading white space: the result is a suffix of `s` preceded only by white space. */
  function TrimStart(s: string): (r: string)
    ensures |r| <= |s| && r == s[|s| - |r|..]
    ensures AllWhitespace(s[..|s| - |r|])
    ensures |r| > 0 ==> !IsJsWhitespace(r[0])
  {
    if |s| > 0 && IsJsWhitespace(s[0]) then TrimStart(s[1..]) else s
  }

  /** Drops trailing white space: the result is a prefix of `s` followed only by white space. */
  function TrimEnd(s: string): (r: string)
    ensures |r| <= |s| && r == s[..|r|]
    ensures AllWhitespace(s[|r|..])
    ensures |r| > 0 ==> !IsJsWhitespace(r[|r| - 1])
  {
    if |s| > 0 && IsJsWhitespace(s[|s| - 1]) then TrimEnd(s[..|s| - 1]) else s
  }

  /** Dropping leading white space leaves nothing exactly when `s` is blank. */
  lemma {:induction false} TrimStartEmpty(s: string)
    ensures |TrimStart(s)| == 0 <==> AllWhitespace(s)
  {
    if |s| > 0 && IsJsWhitespace(s[0]) {
      TrimStartEmpty(s[1..]);
      assert AllWhitespace(s) <==> AllWhitespace(s[1..]) by {
        assert forall i :: 1 <= i < |s| ==> s[i] == s[1..][i - 1];
      }
    }
  }

  /** Dropping trailing white space leaves nothing exactly when `s` is blank. */
  lemma {:induction false} TrimEndEmpty(s: string)
    ensures |TrimEnd(s)| == 0 <==> AllWhitespace(s)
  {
    if |s| > 0 && IsJsWhitespace(s[|s| - 1]) {
      var p := s[..|s| - 1];
      TrimEndEmpty(p);
      assert AllWhitespace(s) <==> AllWhitespace(p) by {
        assert forall i :: 0 <= i < |p| ==> s[i] == p[i];
      }
    }
  }

  /** `s` is `r` with white space, and only white space, on either side. */
  predicate PaddedBy(s: string, r: string) {
    exists a :: 0 <= a <= |s| - |r| && r == s[a..a + |r|]
                && AllWhitespace(s[..a]) && AllWhitespace(s[a + |r|..])
  }

  lemma TrimFacts(s: string)
    ensures var r := TrimEnd(TrimStart(s));
            && (|r| > 0 ==> !IsJsWhitespace(r[0]))
            && (|r| == 0 <==> AllWhitespace(s))
            && PaddedBy(s, r)
  {
    var t := TrimStart(s);
    TrimStartEmpty(s);
    TrimEndEmpty(t);
    var r := TrimEnd(t);
    if |r| > 0 {
      assert r[0] == t[0];
    }
    if |t| > 0 {
      assert !IsJsWhitespace(t[0]);
    }
    TrimPadded(s);
  }

  /** What trimming both ends drops is white space on either side of the result. */
  lemma TrimPadded(s: string)
    ensures PaddedBy(s, TrimEnd(TrimStart(s)))
  {
    var t := TrimStart(s);
    var r := TrimEnd(t);
    var a := |s| - |t|;
    assert t == s[a..];
    assert r == s[a..a + |r|];
    assert s[a + |r|..] == t[|r|..];
    assert AllWhitespace(s[..a]) && AllWhitespace(s[a + |r|..]);
  }

  /** `s.trim()`: `s` with its leading and trailing white space removed, so
      empty exactly when `s` is all white space, and otherwise starting and
      ending with a character that is not white space. */
  function Trim(s: string): (r: string)
    ensures |r| <= |s|
    ensures PaddedBy(s, r)
    ensures |r| > 0 ==> !IsJsWhitespace(r[0]) && !IsJsWhitespace(r[|r| - 1])
    ensures |r| == 0 <==> AllWhitespace(s)
  {
    TrimFacts(s);
    TrimEnd(TrimStart(s))
  }

  /** Trimming an already trimmed string changes nothing. */
  lemma TrimIdempotent(s: string)
    ensures Trim(Trim(s)) == Trim(s)
  {
    var r := Trim(s);
    assert TrimStart(r) == r;
    assert TrimEnd(r) == r;
  }
}
