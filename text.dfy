/** The string operations the handlers apply to request values: JavaScript's `trim()`,
    `toLowerCase()` and `startsWith()`, and the substring test behind a case-insensitive
    search. Strings are sequences of Unicode scalar values. */
module Text {

  /** The characters `String.prototype.trim` removes: ECMAScript's WhiteSpace
      (tab, vertical tab, form feed, space, no-break space, byte order mark and the
      space separators of Unicode) and LineTerminator (LF, CR, U+2028, U+2029). */
  predicate IsJsWhitespace(c: char) {
    || c == '\t' || c == '\n' || c == '\U{B}' || c == '\U{C}' || c == '\r' || c == ' '
    || c == '\U{A0}' || c == '\U{1680}' || ('\U{2000}' <= c <= '\U{200A}')
    || c == '\U{2028}' || c == '\U{2029}' || c == '\U{202F}' || c == '\U{205F}'
    || c == '\U{3000}' || c == '\U{FEFF}'
  }

  /** Neither end of `s` is whitespace. */
  predicate Trimmed(s: string) {
    s == [] || (!IsJsWhitespace(s[0]) && !IsJsWhitespace(s[|s| - 1]))
  }

  predicate AllWhitespace(s: string) {
    forall k :: 0 <= k < |s| ==> IsJsWhitespace(s[k])
  }

  /** `s` with its leading whitespace removed (see TrimStartSpec). */
  function TrimStart(s: string): (r: string)
    ensures |r| <= |s|
  {
    if s != [] && IsJsWhitespace(s[0]) then TrimStart(s[1..]) else s
  }

  /** `s` with its trailing whitespace removed (see TrimEndSpec). */
  function TrimEnd(s: string): (r: string)
    ensures |r| <= |s|
  {
    if s != [] && IsJsWhitespace(s[|s| - 1]) then TrimEnd(s[..|s| - 1]) else s
  }

  /** `s.trim()`: `s` without its leading and trailing whitespace (see TrimSpec). */
  function Trim(s: string): (r: string)
    ensures |r| <= |s|
  {
    TrimEnd(TrimStart(s))
  }

  /** Lower-cases one character as `toLowerCase` does for the ASCII letters. */
  function LowerChar(c: char): (d: char)
    ensures IsJsWhitespace(d) <==> IsJsWhitespace(c)
    ensures ('A' <= c <= 'Z') == (d != c)
  {
    if 'A' <= c <= 'Z' then (c as int + 32) as char else c
  }

  /** `s.toLowerCase()`, restricted to the ASCII letters. */
  function ToLower(s: string): (r: string)
    ensures |r| == |s|
    ensures forall k :: 0 <= k < |s| ==> r[k] == LowerChar(s[k])
  {
    seq(|s|, k requires 0 <= k < |s| => LowerChar(s[k]))
  }

  /** The key under which an e-mail address is stored and looked up:
      `email.trim().toLowerCase()`. */
  function NormalizeEmail(email: string): (r: string)
    ensures |r| <= |email|
  {
    ToLower(Trim(email))
  }

  /** TrimStart keeps a suffix of `s` that does not start with whitespace, and
      everything it cuts off is whitespace. */
  lemma {:induction false} TrimStartSpec(s: string)
    ensures var r := TrimStart(s);
            && r == s[|s| - |r|..] && AllWhitespace(s[..|s| - |r|])
            && (r == [] || !IsJsWhitespace(r[0]))
  {
    if s != [] && IsJsWhitespace(s[0]) {
      TrimStartSpec(s[1..]);
      var r := TrimStart(s);
      assert s[1..][|s| - 1 - |r|..] == s[|s| - |r|..];
      forall k | 0 <= k < |s| - |r| ensures IsJsWhitespace(s[k]) {
        if k > 0 { assert s[k] == s[1..][..|s| - 1 - |r|][k - 1]; }
      }
    }
  }

  /** TrimEnd keeps a prefix of `s` that does not end with whitespace, and everything
      it cuts off is whitespace. */
  lemma {:induction false} TrimEndSpec(s: string)
    ensures var r := TrimEnd(s);
            && r == s[..|r|] && AllWhitespace(s[|r|..])
            && (r == [] || !IsJsWhitespace(r[|r| - 1]))
  {
    if s != [] && IsJsWhitespace(s[|s| - 1]) {
      var t := s[..|s| - 1];
      TrimEndSpec(t);
      var r := TrimEnd(s);
      assert t[..|r|] == s[..|r|];
      forall k | |r| <= k < |s| ensures IsJsWhitespace(s[k]) {
        if k < |s| - 1 { assert s[k] == t[|r|..][k - |r|]; }
      }
    }
  }

  /** The trim of a string has no whitespace at either end, and what it cuts off is
      whitespace on both sides: it is the part of `s` between a whitespace prefix and a
      whitespace suffix. */
  lemma TrimSpec(s: string)
    ensures Trimmed(Trim(s))
    ensures var r := Trim(s);
            exists i :: 0 <= i <= |s| - |r| && s[i..i + |r|] == r
                        && AllWhitespace(s[..i]) && AllWhitespace(s[i + |r|..])
  {
    var t := TrimStart(s);
    var r := TrimEnd(t);
    TrimStartSpec(s);
    TrimEndSpec(t);
    var i := |s| - |t|;
    assert s[i..i + |r|] == r;
    assert s[i + |r|..] == t[|r|..];
    if r != [] {
      assert r[0] == t[0];
    }
  }

  /** Every stored address key has no whitespace at either end. */
  lemma NormalizeEmailTrimmed(email: string)
    ensures Trimmed(NormalizeEmail(email))
  {
    TrimSpec(email);
    LowerTrimmed(Trim(email));
  }

  /** `s.startsWith(p)`. */
  predicate StartsWith(s: string, p: string) {
    |p| <= |s| && s[..|p|] == p
  }

  /** `p` occurs in `s` at some position. */
  predicate IsSubstring(p: string, s: string) {
    exists i :: 0 <= i <= |s| - |p| && OccursAt(p, s, i)
  }

  predicate OccursAt(p: string, s: string, i: int)
    requires 0 <= i <= |s| - |p|
  {
    s[i..i + |p|] == p
  }

  /** A case-insensitive match of `pattern` anywhere in `s`, as the search query's
      `new RegExp(pattern, 'i')` does for a pattern without special characters. */
  predicate MatchesIgnoringCase(s: string, pattern: string) {
    IsSubstring(ToLower(pattern), ToLower(s))
  }

  lemma LowerTrimmed(t: string)
    requires Trimmed(t)
    ensures Trimmed(ToLower(t))
  {
    if t != [] {
      assert ToLower(t)[0] == LowerChar(t[0]);
      assert ToLower(t)[|t| - 1] == LowerChar(t[|t| - 1]);
    }
  }

  /** A string without surrounding whitespace is its own trim. */
  lemma {:induction false} TrimOfTrimmed(s: string)
    requires Trimmed(s)
    ensures Trim(s) == s
  {
    assert TrimStart(s) == s;
    assert TrimEnd(s) == s;
  }

  /** Trimming twice is trimming once. */
  lemma TrimIdempotent(s: string)
    ensures Trim(Trim(s)) == Trim(s)
  {
    TrimSpec(s);
    TrimOfTrimmed(Trim(s));
  }

  lemma {:induction false} TrimStartSkipsPadding(pre: string, t: string)
    requires AllWhitespace(pre)
    ensures TrimStart(pre + t) == TrimStart(t)
  {
    if pre != [] {
      assert (pre + t)[0] == pre[0];
      assert (pre + t)[1..] == pre[1..] + t;
      TrimStartSkipsPadding(pre[1..], t);
    } else {
      assert pre + t == t;
    }
  }

  lemma {:induction false} TrimEndSkipsPadding(t: string, post: string)
    requires AllWhitespace(post)
    ensures TrimEnd(t + post) == TrimEnd(t)
  {
    if post != [] {
      assert (t + post)[|t + post| - 1] == post[|post| - 1];
      assert (t + post)[..|t + post| - 1] == t + post[..|post| - 1];
      TrimEndSkipsPadding(t, post[..|post| - 1]);
    } else {
      assert t + post == t;
    }
  }

  /** Leading-trim of a string followed by more text: if the string is not all whitespace,
      the extra text is carried over unchanged. */
  lemma {:induction false} TrimStartOfConcat(t: string, post: string)
    ensures TrimStart(t) != [] ==> TrimStart(t + post) == TrimStart(t) + post
    ensures TrimStart(t) == [] && AllWhitespace(post) ==> TrimStart(t + post) == []
  {
    if t == [] {
      assert t + post == post;
      if AllWhitespace(post) {
        assert post + [] == post;
        TrimStartSkipsPadding(post, []);
      }
    } else {
      assert (t + post)[0] == t[0];
      if IsJsWhitespace(t[0]) {
        assert (t + post)[1..] == t[1..] + post;
        TrimStartOfConcat(t[1..], post);
      }
    }
  }

  /** Whitespace around a value does not change its trim. */
  lemma TrimIgnoresPadding(pre: string, t: string, post: string)
    requires AllWhitespace(pre) && AllWhitespace(post)
    ensures Trim(pre + t + post) == Trim(t)
  {
    assert pre + t + post == pre + (t + post);
    TrimStartSkipsPadding(pre, t + post);
    TrimStartOfConcat(t, post);
    if TrimStart(t) != [] {
      TrimEndSkipsPadding(TrimStart(t), post);
    }
  }

  lemma {:induction false} TrimStartLower(s: string)
    ensures TrimStart(ToLower(s)) == ToLower(TrimStart(s))
  {
    if s != [] {
      assert ToLower(s)[0] == LowerChar(s[0]);
      assert ToLower(s)[1..] == ToLower(s[1..]);
      if IsJsWhitespace(s[0]) {
        TrimStartLower(s[1..]);
      }
    }
  }

  lemma {:induction false} TrimEndLower(s: string)
    ensures TrimEnd(ToLower(s)) == ToLower(TrimEnd(s))
  {
    if s != [] {
      assert ToLower(s)[|s| - 1] == LowerChar(s[|s| - 1]);
      assert ToLower(s)[..|s| - 1] == ToLower(s[..|s| - 1]);
      if IsJsWhitespace(s[|s| - 1]) {
        TrimEndLower(s[..|s| - 1]);
      }
    }
  }

  /** Lower-casing and trimming commute. */
  lemma TrimLowerCommute(s: string)
    ensures Trim(ToLower(s)) == ToLower(Trim(s))
  {
    TrimStartLower(s);
    TrimEndLower(TrimStart(s));
  }

  lemma ToLowerIdempotent(s: string)
    ensures ToLower(ToLower(s)) == ToLower(s)
  {
  }

  /** Two addresses that differ only in ASCII letter case and surrounding whitespace
      have the same key. */
  lemma NormalizeEmailIgnoresCaseAndPadding(a: string, b: string, pre: string, post: string)
    requires ToLower(a) == ToLower(b)
    requires AllWhitespace(pre) && AllWhitespace(post)
    ensures NormalizeEmail(pre + a + post) == NormalizeEmail(b)
  {
    TrimIgnoresPadding(pre, a, post);
    TrimLowerCommute(a);
    TrimLowerCommute(b);
  }

  /** A key is its own key: normalising a stored address changes nothing. */
  lemma NormalizeEmailIdempotent(email: string)
    ensures NormalizeEmail(NormalizeEmail(email)) == NormalizeEmail(email)
  {
    var n := NormalizeEmail(email);
    NormalizeEmailTrimmed(email);
    TrimOfTrimmed(n);
    ToLowerIdempotent(Trim(email));
  }

  /** `p` occurs in any string that has it between two other pieces. */
  lemma SubstringOfConcat(x: string, p: string, y: string)
    ensures IsSubstring(p, x + p + y)
  {
    var s := x + p + y;
    assert OccursAt(p, s, |x|);
  }
}
