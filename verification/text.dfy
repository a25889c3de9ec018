/**
 * Whitespace and trimming as the form validators see them.
 *
 * In ECMAScript, String.prototype.trim and the regular-expression escape \s
 * both use the same character set: WhiteSpace together with LineTerminator.
 * IsWs is that set, shared by every module of this model.
 */
module Text {

  /** An ECMAScript WhiteSpace or LineTerminator code point (Unicode category Zs included). */
  predicate IsWs(c: char) {
    var n := c as int;
    // TAB, LF, VT, FF, CR
    (0x09 <= n <= 0x0D)
    // SPACE, NO-BREAK SPACE, OGHAM SPACE MARK
    || n == 0x20 || n == 0xA0 || n == 0x1680
    // EN QUAD .. HAIR SPACE
    || (0x2000 <= n <= 0x200A)
    // LINE SEPARATOR, PARAGRAPH SEPARATOR
    || n == 0x2028 || n == 0x2029
    // NARROW NO-BREAK SPACE, MEDIUM MATHEMATICAL SPACE, IDEOGRAPHIC SPACE, ZERO WIDTH NO-BREAK SPACE
    || n == 0x202F || n == 0x205F || n == 0x3000 || n == 0xFEFF
  }

  /** Every character of s is whitespace (true of the empty string). */
  predicate AllWs(s: string) {
    forall i | 0 <= i < |s| :: IsWs(s[i])
  }

  /** Drops the leading whitespace. */
  function TrimStart(s: string): (r: string)
    ensures |r| <= |s|
  {
    if |s| > 0 && IsWs(s[0]) then TrimStart(s[1..]) else s
  }

  /** Drops the trailing whitespace. */
  function TrimEnd(s: string): (r: string)
    ensures |r| <= |s|
  {
    if |s| > 0 && IsWs(s[|s| - 1]) then TrimEnd(s[..|s| - 1]) else s
  }

  /** s is r with only whitespace before it (the first i characters) and after it. */
  predicate WsPadded(s: string, i: int, r: string) {
    0 <= i <= |s| - |r| && r == s[i..i + |r|] && AllWs(s[..i]) && AllWs(s[i + |r|..])
  }

  /** String.prototype.trim: drops the leading and the trailing whitespace. */
  function Trim(s: string): (r: string)
    ensures |r| <= |s|
  {
    TrimEnd(TrimStart(s))
  }

  /** TrimStart leaves the suffix of s that starts at its first non-whitespace character. */
  lemma {:induction false} TrimStartSpec(s: string)
    ensures var r := TrimStart(s);
      r == s[|s| - |r|..] && AllWs(s[..|s| - |r|]) && (r == [] || !IsWs(r[0]))
    decreases |s|
  {
    if |s| > 0 && IsWs(s[0]) {
      var r := TrimStart(s[1..]);
      TrimStartSpec(s[1..]);
      AllWsAppend([s[0]], s[1..][..|s| - 1 - |r|]);
      assert s[..|s| - |r|] == [s[0]] + s[1..][..|s| - 1 - |r|];
    } else {
      assert s[..0] == [];
    }
  }

  /** TrimEnd leaves the prefix of s that ends at its last non-whitespace character. */
  lemma {:induction false} TrimEndSpec(s: string)
    ensures var r := TrimEnd(s);
      r == s[..|r|] && AllWs(s[|r|..]) && (r == [] || !IsWs(r[|r| - 1]))
    decreases |s|
  {
    if |s| > 0 && IsWs(s[|s| - 1]) {
      var r := TrimEnd(s[..|s| - 1]);
      TrimEndSpec(s[..|s| - 1]);
      AllWsAppend(s[..|s| - 1][|r|..], [s[|s| - 1]]);
      assert s[|r|..] == s[..|s| - 1][|r|..] + [s[|s| - 1]];
    } else {
      assert s[|s|..] == [];
    }
  }

  /**
   * Trim(s) is the slice of s between its leading and its trailing
   * whitespace, it neither starts nor ends with whitespace, and it is empty
   * exactly when s is all whitespace.
   */
  lemma TrimSpec(s: string)
    ensures exists i :: WsPadded(s, i, Trim(s))
    ensures var r := Trim(s); r != [] ==> !IsWs(r[0]) && !IsWs(r[|r| - 1])
    ensures Trim(s) == [] <==> AllWs(s)
  {
    var t := TrimStart(s);
    var r := TrimEnd(t);
    TrimStartSpec(s);
    TrimEndSpec(t);
    SliceOfSlice(s, t, r);
    assert Trim(s) == r;
    assert WsPadded(s, |s| - |t|, r);
    if r != [] {
      assert r[0] == t[0];
    }
  }

  lemma AllWsAppend(a: string, b: string)
    ensures AllWs(a + b) <==> AllWs(a) && AllWs(b)
  {
    if AllWs(a) && AllWs(b) {
      forall k | 0 <= k < |a + b| ensures IsWs((a + b)[k]) {
        if k < |a| { assert (a + b)[k] == a[k]; } else { assert (a + b)[k] == b[k - |a|]; }
      }
    }
    if AllWs(a + b) {
      forall k | 0 <= k < |a| ensures IsWs(a[k]) { assert (a + b)[k] == a[k]; }
      forall k | 0 <= k < |b| ensures IsWs(b[k]) { assert (a + b)[|a| + k] == b[k]; }
    }
  }

  lemma SliceOfSlice(s: string, t: string, r: string)
    requires |t| <= |s| && t == s[|s| - |t|..] && AllWs(s[..|s| - |t|])
    requires |r| <= |t| && r == t[..|r|] && AllWs(t[|r|..])
    requires r == [] || !IsWs(r[0])
    ensures WsPadded(s, |s| - |t|, r)
    ensures r == [] <==> AllWs(s)
  {
    var i := |s| - |t|;
    assert r == s[i..i + |r|];
    assert s[i + |r|..] == t[|r|..];
    if r == [] {
      assert s == s[..i] + s[i..];
      AllWsAppend(s[..i], s[i..]);
    } else {
      assert s[i] == r[0];
    }
  }
}
