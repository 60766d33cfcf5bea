/** The JavaScript string operations the chat decoder and the chat input guard rely on:
    `indexOf` of one character and `trim`. Strings are sequences of characters. */
module JsString {

  /** The code points `String.prototype.trim` removes: ECMAScript WhiteSpace
      (tab, vertical tab, form feed, space, no-break space, byte order mark and the
      Unicode space separators) and LineTerminator (LF, CR, LS, PS). */
  predicate IsWhitespace(c: char) {
    c == '\t' || c == '\n' || c == '\U{B}' || c == '\U{C}' || c == '\r' || c == ' ' ||
    c == '\U{A0}' || c == '\U{1680}' || ('\U{2000}' <= c <= '\U{200A}') ||
    c == '\U{2028}' || c == '\U{2029}' || c == '\U{202F}' || c == '\U{205F}' ||
    c == '\U{3000}' || c == '\U{FEFF}'
  }

  predicate AllWhitespace(s: string) {
    forall i :: 0 <= i < |s| ==> IsWhitespace(s[i])
  }

  /** `s.indexOf(c)`: the index of the first occurrence of `c`, or -1 when there is none. */
  function IndexOf(s: string, c: char): (r: int)
    ensures -1 <= r < |s|
    ensures r == -1 <==> c !in s
    decreases |s|
  {
    if s == [] then -1
    else if s[0] == c then 0
    else
      var k := IndexOf(s[1..], c);
      if k == -1 then -1 else k + 1
  }

  /** A found index holds `c`, and no earlier position does. */
  lemma {:induction false} IndexOfFirst(s: string, c: char)
    ensures IndexOf(s, c) >= 0 ==> s[IndexOf(s, c)] == c && c !in s[..IndexOf(s, c)]
    decreases |s|
  {
    if s != [] && s[0] != c {
      IndexOfFirst(s[1..], c);
      if IndexOf(s, c) >= 0 {
        assert s[..IndexOf(s, c)] == [s[0]] + s[1..][..IndexOf(s[1..], c)];
      }
    }
  }

  /** Text appended after an occurrence of `c` does not move the first occurrence. */
  lemma IndexOfAppend(s: string, t: string, c: char)
    requires c in s
    ensures IndexOf(s + t, c) == IndexOf(s, c)
  {
    IndexOfFirst(s, c);
    IndexOfFirst(s + t, c);
    assert (s + t)[..IndexOf(s, c) + 1] == s[..IndexOf(s, c) + 1];
    assert (s + t)[..IndexOf(s + t, c)] == s[..IndexOf(s + t, c)] by {
      assert (s + t)[IndexOf(s, c)] == c;
    }
  }

  /** The first occurrence of `c` after a text free of `c`. */
  lemma IndexOfAfter(s: string, c: char, t: string)
    requires c !in s
    ensures IndexOf(s + [c] + t, c) == |s|
  {
    IndexOfFirst(s + [c] + t, c);
    assert (s + [c] + t)[..|s|] == s;
    assert (s + [c] + t)[|s|] == c;
  }

  /** Leading whitespace removed. */
  function TrimStart(s: string): string
    decreases |s|
  {
    if s != [] && IsWhitespace(s[0]) then TrimStart(s[1..]) else s
  }

  /** What remains after `TrimStart` is a suffix of `s` that does not start with whitespace,
      and what was removed is all whitespace. */
  lemma {:induction false} TrimStartShape(s: string)
    ensures |TrimStart(s)| <= |s| && TrimStart(s) == s[|s| - |TrimStart(s)|..]
    ensures AllWhitespace(s[..|s| - |TrimStart(s)|])
    ensures TrimStart(s) == [] || !IsWhitespace(TrimStart(s)[0])
    decreases |s|
  {
    if s != [] && IsWhitespace(s[0]) {
      TrimStartShape(s[1..]);
      var r := TrimStart(s[1..]);
      assert s[1..][|s[1..]| - |r|..] == s[|s| - |r|..];
      var removed, removed' := s[..|s| - |r|], s[1..][..|s[1..]| - |r|];
      forall i | 0 <= i < |removed| ensures IsWhitespace(removed[i]) {
        if i > 0 { assert removed[i] == removed'[i - 1]; }
      }
    }
  }

  /** Trailing whitespace removed. */
  function TrimEnd(s: string): string
    decreases |s|
  {
    if s != [] && IsWhitespace(s[|s| - 1]) then TrimEnd(s[..|s| - 1]) else s
  }

  /** What remains after `TrimEnd` is a prefix of `s` that does not end with whitespace, and
      what was removed is all whitespace. */
  lemma {:induction false} TrimEndShape(s: string)
    ensures TrimEnd(s) <= s
    ensures AllWhitespace(s[|TrimEnd(s)|..])
    ensures TrimEnd(s) == [] || !IsWhitespace(TrimEnd(s)[|TrimEnd(s)| - 1])
    decreases |s|
  {
    if s != [] && IsWhitespace(s[|s| - 1]) {
      var s' := s[..|s| - 1];
      TrimEndShape(s');
      var r := TrimEnd(s');
      assert r <= s;
      forall i | |r| <= i < |s| ensures IsWhitespace(s[i]) {
        if i < |s| - 1 { assert s[i] == s'[|r|..][i - |r|]; }
      }
    }
  }

  /** `s.trim()`: whitespace removed at both ends. */
  function Trim(s: string): string {
    TrimEnd(TrimStart(s))
  }

  lemma AllWhitespaceConcat(a: string, b: string)
    requires AllWhitespace(a) && AllWhitespace(b)
    ensures AllWhitespace(a + b)
  {
    forall i | 0 <= i < |a + b| ensures IsWhitespace((a + b)[i]) {
      if i >= |a| { assert (a + b)[i] == b[i - |a|]; }
    }
  }

  /** `trim` returns the empty string exactly for all-whitespace input; otherwise the result
      neither starts nor ends with whitespace. */
  lemma TrimShape(s: string)
    ensures Trim(s) == [] <==> AllWhitespace(s)
    ensures Trim(s) == [] || (!IsWhitespace(Trim(s)[0]) && !IsWhitespace(Trim(s)[|Trim(s)| - 1]))
  {
    TrimStartShape(s);
    var t := TrimStart(s);
    TrimEndShape(t);
    var r := TrimEnd(t);
    if r == [] {
      assert t[|r|..] == t;
      assert s == s[..|s| - |t|] + t;
      AllWhitespaceConcat(s[..|s| - |t|], t);
    } else {
      assert r[0] == t[0];
      assert !IsWhitespace(s[|s| - |t|]);
    }
  }

  /** What `trim` removes is whitespace at the two ends and nothing else: the result is a
      substring of `s` with only whitespace before and after it. */
  lemma TrimIsInfix(s: string)
    ensures exists k :: (0 <= k && k + |Trim(s)| <= |s| && s[k..k + |Trim(s)|] == Trim(s)
      && AllWhitespace(s[..k]) && AllWhitespace(s[k + |Trim(s)|..]))
  {
    TrimStartShape(s);
    var t := TrimStart(s);
    TrimEndShape(t);
    var r := TrimEnd(t);
    var k := |s| - |t|;
    assert s[k..k + |r|] == r;
    assert s[k + |r|..] == t[|r|..];
  }

  /** Whitespace appended at the end of a string does not change what `trim` returns. */
  lemma TrimIgnoresTrailingWhitespace(s: string, c: char)
    requires IsWhitespace(c)
    ensures Trim(s + [c]) == Trim(s)
  {
    TrimStartAppend(s, c);
    var t := TrimStart(s);
    if AllWhitespace(s) {
      TrimStartAllWhitespace(s);
    } else {
      assert TrimStart(s + [c]) == t + [c];
      assert (t + [c])[..|t|] == t;
    }
  }

  lemma {:induction false} TrimStartAllWhitespace(s: string)
    requires AllWhitespace(s)
    ensures TrimStart(s) == []
    decreases |s|
  {
    if s != [] {
      assert forall i :: 0 <= i < |s[1..]| ==> s[1..][i] == s[i + 1];
      TrimStartAllWhitespace(s[1..]);
    }
  }

  lemma {:induction false} TrimStartAppend(s: string, c: char)
    requires IsWhitespace(c)
    ensures AllWhitespace(s) ==> TrimStart(s + [c]) == []
    ensures !AllWhitespace(s) ==> TrimStart(s + [c]) == TrimStart(s) + [c]
    decreases |s|
  {
    if s == [] {
      assert TrimStart([c]) == TrimStart([c][1..]);
    } else {
      assert (s + [c])[1..] == s[1..] + [c];
      if IsWhitespace(s[0]) {
        TrimStartAppend(s[1..], c);
        assert AllWhitespace(s) <==> AllWhitespace(s[1..]) by {
          if AllWhitespace(s[1..]) {
            forall i | 0 <= i < |s| ensures IsWhitespace(s[i]) {
              if i > 0 { assert s[i] == s[1..][i - 1]; }
            }
          }
          if AllWhitespace(s) {
            forall i | 0 <= i < |s[1..]| ensures IsWhitespace(s[1..][i]) {
              assert s[1..][i] == s[i + 1];
            }
          }
        }
      }
    }
  }
}
