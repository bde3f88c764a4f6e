/** The few Python string operations the packager relies on: `str.isspace`,
    `str.strip`, `str.startswith` and single-character `str.replace`. */
module Text {

  /** Python's `str.isspace()` for one character (the Unicode White_Space
      characters and the four ASCII separators U+001C..U+001F). */
  predicate IsSpace(c: char) {
    || c == ' '
    || ('\t' <= c <= '\r')
    || ('\U{1c}' <= c <= '\U{1f}')
    || c == '\U{85}'
    || c == '\U{a0}'
    || c == '\U{1680}'
    || ('\U{2000}' <= c <= '\U{200a}')
    || c == '\U{2028}'
    || c == '\U{2029}'
    || c == '\U{202f}'
    || c == '\U{205f}'
    || c == '\U{3000}'
  }

  /** Drops leading whitespace. */
  function TrimLeft(s: string): string {
    if s != [] && IsSpace(s[0]) then TrimLeft(s[1..]) else s
  }

  /** Drops trailing whitespace. */
  function TrimRight(s: string): string {
    if s != [] && IsSpace(s[|s| - 1]) then TrimRight(s[..|s| - 1]) else s
  }

  /** Python's `s.strip()`. Its properties are stated by the lemmas below
      rather than as postconditions, which keeps the many uses of `Strip`
      cheap for the verifier. */
  function Strip(s: string): string {
    TrimRight(TrimLeft(s))
  }

  /** `TrimLeft` removes exactly the leading whitespace: what it returns is a
      suffix of `s` that is empty or starts with a non-space, and every
      character it removed is whitespace. */
  lemma {:induction false} TrimLeftSpec(s: string)
    ensures |TrimLeft(s)| <= |s| && TrimLeft(s) == s[|s| - |TrimLeft(s)|..]
    ensures TrimLeft(s) == [] || !IsSpace(TrimLeft(s)[0])
    ensures forall i :: 0 <= i < |s| - |TrimLeft(s)| ==> IsSpace(s[i])
  {
    if s != [] && IsSpace(s[0]) {
      var rest := s[1..];
      TrimLeftSpec(rest);
      var t := TrimLeft(rest);
      assert TrimLeft(s) == t;
      assert rest[|rest| - |t|..] == s[|s| - |t|..];
      forall i | 0 <= i < |s| - |t| ensures IsSpace(s[i]) {
        if i > 0 {
          assert s[i] == rest[i - 1];
        }
      }
    }
  }

  /** `TrimRight` removes exactly the trailing whitespace. */
  lemma {:induction false} TrimRightSpec(s: string)
    ensures |TrimRight(s)| <= |s| && TrimRight(s) == s[..|TrimRight(s)|]
    ensures TrimRight(s) == [] || !IsSpace(TrimRight(s)[|TrimRight(s)| - 1])
    ensures forall i :: |TrimRight(s)| <= i < |s| ==> IsSpace(s[i])
  {
    if s != [] && IsSpace(s[|s| - 1]) {
      var init := s[..|s| - 1];
      TrimRightSpec(init);
      var t := TrimRight(init);
      assert TrimRight(s) == t;
      assert init[..|t|] == s[..|t|];
      forall i | |t| <= i < |s| ensures IsSpace(s[i]) {
        if i < |s| - 1 {
          assert s[i] == init[i];
        }
      }
    }
  }

  /** The strip of `s` neither starts nor ends with whitespace, and it is
      empty exactly when `s` is all whitespace. */
  lemma StripSpec(s: string)
    ensures Strip(s) == [] || (!IsSpace(Strip(s)[0]) && !IsSpace(Strip(s)[|Strip(s)| - 1]))
    ensures Strip(s) == [] <==> forall i :: 0 <= i < |s| ==> IsSpace(s[i])
  {
    var l := TrimLeft(s);
    TrimLeftSpec(s);
    TrimRightSpec(l);
  }

  /** The strip of `s` is a slice of `s`, and everything outside that slice
      is whitespace: only leading and trailing whitespace is removed. */
  lemma StripSlice(s: string)
    ensures exists i, j ::
              && 0 <= i <= j <= |s|
              && Strip(s) == s[i..j]
              && forall k :: 0 <= k < |s| && (k < i || j <= k) ==> IsSpace(s[k])
  {
    var l := TrimLeft(s);
    TrimLeftSpec(s);
    TrimRightSpec(l);
    var i := |s| - |l|;
    var j := i + |Strip(s)|;
    assert Strip(s) == s[i..j];
    forall k | 0 <= k < |s| && (k < i || j <= k) ensures IsSpace(s[k]) {
      if j <= k {
        assert s[k] == l[k - i];
      }
    }
  }

  /** A string that neither starts nor ends with whitespace is its own strip. */
  lemma StripTrimmed(s: string)
    requires s == [] || (!IsSpace(s[0]) && !IsSpace(s[|s| - 1]))
    ensures Strip(s) == s
  {
  }

  /** `strip()` is idempotent. */
  lemma StripIdempotent(s: string)
    ensures Strip(Strip(s)) == Strip(s)
  {
    StripSpec(s);
    StripTrimmed(Strip(s));
  }

  /** A string that starts with a non-space character keeps it as the first
      character of its strip. */
  lemma StripKeepsHead(s: string)
    requires s != [] && !IsSpace(s[0])
    ensures Strip(s) != [] && Strip(s)[0] == s[0]
  {
    TrimRightSpec(s);
  }

  /** Python's `s.startswith(p)`. */
  predicate StartsWith(s: string, p: string) {
    |p| <= |s| && s[..|p|] == p
  }

  /** A string that starts with `p` has `p`'s characters at the front. */
  lemma StartsWithChars(s: string, p: string)
    ensures StartsWith(s, p) ==> forall i :: 0 <= i < |p| ==> s[i] == p[i]
  {
    if StartsWith(s, p) {
      forall i | 0 <= i < |p| ensures s[i] == p[i] {
        assert s[..|p|][i] == s[i];
      }
    }
  }

  /** Python's `s.replace(a, b)` for one-character `a` and `b`. */
  function ReplaceChar(s: string, a: char, b: char): string {
    if s == [] then [] else [if s[0] == a then b else s[0]] + ReplaceChar(s[1..], a, b)
  }

  /** `ReplaceChar` changes every `a` into `b` and nothing else. */
  lemma {:induction false} ReplaceCharSpec(s: string, a: char, b: char)
    ensures |ReplaceChar(s, a, b)| == |s|
    ensures forall i :: 0 <= i < |s| ==> ReplaceChar(s, a, b)[i] == (if s[i] == a then b else s[i])
  {
    if s != [] {
      ReplaceCharSpec(s[1..], a, b);
    }
  }
}
