/**
 * String.prototype.trim as ECMAScript defines it: strip WhiteSpace and
 * LineTerminator code points from both ends of a string.
 */
module JsString {

  /** The WhiteSpace and LineTerminator code points of ECMAScript (sections 12.2 and 12.3 of ECMA-262). */
  predicate IsWhitespace(c: char) {
    var n := c as int;
    || n == 0x09 || n == 0x0A || n == 0x0B || n == 0x0C || n == 0x0D
    || n == 0x20 || n == 0xA0 || n == 0x1680
    || (0x2000 <= n <= 0x200A)
    || n == 0x2028 || n == 0x2029 || n == 0x202F || n == 0x205F
    || n == 0x3000 || n == 0xFEFF
  }

  predicate AllWhitespace(s: string) {
    forall i :: 0 <= i < |s| ==> IsWhitespace(s[i])
  }

  /** Drops leading whitespace: the result is the suffix of `s` that starts at its first non-whitespace character. */
  function TrimStart(s: string): (r: string)
    ensures |r| <= |s| && r == s[|s| - |r|..]
    ensures AllWhitespace(s[..|s| - |r|])
    ensures r != [] ==> !IsWhitespace(r[0])
  {
    if s != [] && IsWhitespace(s[0]) then
      var r := TrimStart(s[1..]);
      assert s[..|s| - |r|] == [s[0]] + s[1..][..|s| - 1 - |r|];
      r
    else s
  }

  /** Drops trailing whitespace: the result is the prefix of `s` that ends at its last non-whitespace character. */
  function TrimEnd(s: string): (r: string)
    ensures |r| <= |s| && r == s[..|r|]
    ensures AllWhitespace(s[|r|..])
    ensures r != [] ==> !IsWhitespace(r[|r| - 1])
  {
    if s != [] && IsWhitespace(s[|s| - 1]) then
      var r := TrimEnd(s[..|s| - 1]);
      assert s[|r|..] == s[..|s| - 1][|r|..] + [s[|s| - 1]];
      r
    else s
  }

  /**
   * `s.trim()`: the slice of `s` between its leading and its trailing
   * whitespace; it neither starts nor ends with whitespace.
   */
  function Trim(s: string): (r: string)
    ensures var lead := |s| - |TrimStart(s)|;
      && lead + |r| <= |s|
      && r == s[lead..lead + |r|]
      && AllWhitespace(s[..lead])
      && AllWhitespace(s[lead + |r|..])
    ensures r != [] ==> !IsWhitespace(r[0]) && !IsWhitespace(r[|r| - 1])
  {
    var t := TrimStart(s);
    var r := TrimEnd(t);
    TrimSlice(s, t, r);
    r
  }

  lemma TrimSlice(s: string, t: string, r: string)
    requires |t| <= |s| && t == s[|s| - |t|..]
    requires |r| <= |t| && r == t[..|r|] && AllWhitespace(t[|r|..])
    ensures var lead := |s| - |t|;
      && lead + |r| <= |s|
      && r == s[lead..lead + |r|]
      && AllWhitespace(s[lead + |r|..])
  {
    var lead := |s| - |t|;
    assert s[lead + |r|..] == t[|r|..];
  }

  /** A query trims to the empty string exactly when it is blank (empty or whitespace only). */
  lemma TrimEmptyIffBlank(s: string)
    ensures Trim(s) == [] <==> AllWhitespace(s)
  {
    var lead := |s| - |TrimStart(s)|;
    if Trim(s) == [] {
      forall i | 0 <= i < |s| ensures IsWhitespace(s[i]) {
        if i < lead {
          assert s[..lead][i] == s[i];
        } else {
          assert s[lead..][i - lead] == s[i];
        }
      }
    } else {
      assert Trim(s)[0] == s[lead];
    }
  }

  /** Trimming is idempotent: a trimmed query is its own trim. */
  lemma TrimIdempotent(s: string)
    ensures Trim(Trim(s)) == Trim(s)
  {
    var r := Trim(s);
    if r != [] {
      assert TrimStart(r) == r;
      assert TrimEnd(r) == r;
    }
  }
}
