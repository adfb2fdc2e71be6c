/**
  Character classes and the handful of Python `str` operations the scraper
  relies on: `strip()`, `split()`, `upper()` and slicing `s[:k]`.

  Whitespace is exactly the set Python's `str.isspace()` accepts, which is
  also what `\s` matches in a `str` regular expression. Upper-casing is
  ASCII only.
 */
module Text {

  /** Python's `str.isspace()` for one code point: the C0 separators
      TAB..CR and FS..US, SPACE, NEL, NBSP and the Unicode space separators. */
  predicate IsSpace(c: char) {
    || c == ' '
    || ('\t' <= c <= '\r')
    || ('\U{1C}' <= c <= '\U{1F}')
    || c == '\U{85}' || c == '\U{A0}' || c == '\U{1680}'
    || ('\U{2000}' <= c <= '\U{200A}')
    || c == '\U{2028}' || c == '\U{2029}' || c == '\U{202F}'
    || c == '\U{205F}' || c == '\U{3000}'
  }

  predicate AllSpace(s: string) {
    forall i :: 0 <= i < |s| ==> IsSpace(s[i])
  }

  predicate NoSpace(s: string) {
    forall i :: 0 <= i < |s| ==> !IsSpace(s[i])
  }

  /** No leading and no trailing whitespace: what `strip()` produces. */
  predicate IsStripped(s: string) {
    s == [] || (!IsSpace(s[0]) && !IsSpace(s[|s| - 1]))
  }

  predicate IsAsciiLower(c: char) {
    'a' <= c <= 'z'
  }

  /** ASCII `upper()` of one character. */
  function ToUpper(c: char): (u: char)
    ensures !IsAsciiLower(u)
    ensures IsSpace(u) <==> IsSpace(c)
  {
    if IsAsciiLower(c) then (c as int - 32) as char else c
  }

  function Upper(s: string): string {
    seq(|s|, i requires 0 <= i < |s| => ToUpper(s[i]))
  }

  /** Python `s[:k]` for a non-negative `k`. */
  function Prefix(s: string, k: nat): string {
    if k <= |s| then s[..k] else s
  }

  /** `lstrip()`: the suffix of `s` left after dropping its leading whitespace. */
  function TrimLeft(s: string): (r: string)
    ensures |r| <= |s| && r == s[|s| - |r|..]
    ensures AllSpace(s[..|s| - |r|])
    ensures r == [] || !IsSpace(r[0])
  {
    if s != [] && IsSpace(s[0]) then
      var t := s[1..];
      var r := TrimLeft(t);
      assert t[|t| - |r|..] == s[|s| - |r|..];
      assert AllSpace(s[..|s| - |r|]) by {
        var u := t[..|t| - |r|];
        forall i | 0 < i < |s| - |r|
          ensures IsSpace(s[i])
        {
          assert s[i] == u[i - 1];
        }
      }
      r
    else s
  }

  /** `rstrip()`: the prefix of `s` left after dropping its trailing whitespace. */
  function TrimRight(s: string): (r: string)
    ensures |r| <= |s| && r == s[..|r|]
    ensures AllSpace(s[|r|..])
    ensures r == [] || !IsSpace(r[|r| - 1])
  {
    if s != [] && IsSpace(s[|s| - 1]) then
      var init := s[..|s| - 1];
      var r := TrimRight(init);
      assert init[..|r|] == s[..|r|];
      assert AllSpace(s[|r|..]) by {
        var u := init[|r|..];
        forall i | 0 <= i < |s| - 1 - |r|
          ensures IsSpace(s[|r|..][i])
        {
          assert s[|r|..][i] == u[i];
        }
      }
      r
    else s
  }

  /** `strip()`. */
  function Strip(s: string): (r: string)
    ensures IsStripped(r)
    ensures |r| <= |s|
    ensures r == [] <==> AllSpace(s)
    ensures exists i, j :: 0 <= i <= j <= |s| && r == s[i..j] && SpaceOutside(s, i, j)
  {
    var t := TrimRight(s);
    assert t == [] ==> AllSpace(s) by {
      if t == [] {
        assert s[|t|..] == s;
      }
    }
    var r := TrimLeft(t);
    InfixOf(s, t, r, |t| - |r|);
    r
  }

  /** Every character of `s` outside the index range `[i, j)` is whitespace. */
  predicate SpaceOutside(s: string, i: nat, j: nat) {
    forall k :: 0 <= k < |s| && !(i <= k < j) ==> IsSpace(s[k])
  }

  /** Cutting trailing whitespace and then leading whitespace leaves a
      contiguous piece of the input with only whitespace around it. */
  lemma InfixOf(s: string, t: string, r: string, i: nat)
    requires |t| <= |s| && t == s[..|t|] && AllSpace(s[|t|..])
    requires i + |r| == |t| && r == t[i..] && AllSpace(t[..i])
    ensures r == s[i..|t|]
    ensures SpaceOutside(s, i, |t|)
  {
    forall k | 0 <= k < |s| && !(i <= k < |t|)
      ensures IsSpace(s[k])
    {
      if k < i {
        assert s[k] == t[..i][k];
      } else {
        assert s[k] == s[|t|..][k - |t|];
      }
    }
  }

  lemma {:induction false} TrimLeftOfStripped(s: string)
    requires s == [] || !IsSpace(s[0])
    ensures TrimLeft(s) == s
  {
  }

  lemma {:induction false} TrimRightOfStripped(s: string)
    requires s == [] || !IsSpace(s[|s| - 1])
    ensures TrimRight(s) == s
  {
  }

  /** A string without outer whitespace is its own `strip()`. */
  lemma StripOfStripped(s: string)
    requires IsStripped(s)
    ensures Strip(s) == s
  {
    TrimRightOfStripped(s);
    TrimLeftOfStripped(s);
  }

  /** `strip()` is idempotent. */
  lemma StripIdempotent(s: string)
    ensures Strip(Strip(s)) == Strip(s)
  {
    StripOfStripped(Strip(s));
  }

  /** Trailing whitespace appended to a string does not survive `rstrip()`. */
  lemma {:induction false} TrimRightAppendSpace(s: string, w: string)
    requires AllSpace(w)
    ensures TrimRight(s + w) == TrimRight(s)
    decreases |w|
  {
    if w == [] {
      assert s + w == s;
    } else {
      assert (s + w)[..|s + w| - 1] == s + w[..|w| - 1];
      TrimRightAppendSpace(s, w[..|w| - 1]);
    }
  }

  /** `rstrip()` is idempotent. */
  lemma TrimRightIdempotent(s: string)
    ensures TrimRight(TrimRight(s)) == TrimRight(s)
  {
    TrimRightOfStripped(TrimRight(s));
  }

  /** The characters of `s` that are not whitespace, in order. */
  function NonSpace(s: string): (r: string)
    ensures NoSpace(r)
    ensures |r| <= |s|
  {
    if s == [] then []
    else if IsSpace(s[0]) then NonSpace(s[1..])
    else [s[0]] + NonSpace(s[1..])
  }

  lemma {:induction false} NonSpaceAppend(a: string, b: string)
    ensures NonSpace(a + b) == NonSpace(a) + NonSpace(b)
    decreases |a|
  {
    if a == [] {
      assert a + b == b;
    } else {
      assert (a + b)[1..] == a[1..] + b;
      NonSpaceAppend(a[1..], b);
    }
  }

  lemma {:induction false} NonSpaceOfWord(w: string)
    requires NoSpace(w)
    ensures NonSpace(w) == w
    decreases |w|
  {
    if w != [] {
      NonSpaceOfWord(w[1..]);
    }
  }

  function Concat(ws: seq<string>): string {
    if ws == [] then [] else ws[0] + Concat(ws[1..])
  }

  /** Length of the run of non-whitespace characters that starts `s`. */
  function WordLen(s: string): (n: nat)
    ensures n <= |s|
    ensures NoSpace(s[..n])
    ensures n == |s| || IsSpace(s[n])
  {
    if s == [] || IsSpace(s[0]) then 0 else 1 + WordLen(s[1..])
  }

  /** Python's `s.split()` with no separator: the maximal runs of
      non-whitespace characters, in order; runs of whitespace at either end
      or between words produce no empty strings. */
  function Words(s: string): (r: seq<string>)
    ensures forall i :: 0 <= i < |r| ==> r[i] != [] && NoSpace(r[i])
    ensures Concat(r) == NonSpace(s)
    decreases |s|
  {
    if s == [] then []
    else if IsSpace(s[0]) then Words(s[1..])
    else
      var n := WordLen(s);
      var rest := Words(s[n..]);
      assert ([s[..n]] + rest)[1..] == rest;
      assert s == s[..n] + s[n..];
      NonSpaceAppend(s[..n], s[n..]);
      NonSpaceOfWord(s[..n]);
      [s[..n]] + rest
  }

  /** A string with no whitespace at all is a single word. */
  lemma SingleWord(s: string)
    requires s != [] && NoSpace(s)
    ensures Words(s) == [s]
  {
    assert s[..|s|] == s;
    assert s[|s|..] == [];
  }

  lemma {:induction false} WordLenUpper(s: string)
    ensures WordLen(Upper(s)) == WordLen(s)
    decreases |s|
  {
    if s != [] {
      assert Upper(s)[1..] == Upper(s[1..]);
      WordLenUpper(s[1..]);
    }
  }

  function UpperAll(ws: seq<string>): (r: seq<string>)
    ensures |r| == |ws|
  {
    if ws == [] then [] else [Upper(ws[0])] + UpperAll(ws[1..])
  }

  /** Upper-casing the input upper-cases each word and leaves the word
      boundaries where they were. */
  lemma {:induction false} WordsUpper(s: string)
    ensures Words(Upper(s)) == UpperAll(Words(s))
    decreases |s|
  {
    if s == [] {
    } else if IsSpace(s[0]) {
      assert Upper(s)[1..] == Upper(s[1..]);
      WordsUpper(s[1..]);
    } else {
      var n := WordLen(s);
      WordLenUpper(s);
      assert Upper(s)[..n] == Upper(s[..n]);
      assert Upper(s)[n..] == Upper(s[n..]);
      WordsUpper(s[n..]);
      var ws := Words(s);
      assert ws == [s[..n]] + Words(s[n..]);
      assert ws[1..] == Words(s[n..]);
    }
  }
}
