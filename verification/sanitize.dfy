/**
  `sanitize_filename`: each character Windows forbids in a file name is
  replaced by `_`, one `str.replace` per forbidden character, and the
  result is stripped. It names the per-company download directory.
 */
module Sanitize {
  import opened Text

  /** The characters `sanitize_filename` replaces, in the order it replaces them. */
  const InvalidChars: string := "<>:\"/\\|?*"

  const Replacement: char := '_'

  predicate NoInvalid(s: string) {
    forall i :: 0 <= i < |s| ==> s[i] !in InvalidChars
  }

  /** `s.replace(c, d)` for single characters. */
  function ReplaceChar(s: string, c: char, d: char): (r: string)
    ensures |r| == |s|
    ensures forall i :: 0 <= i < |s| ==> r[i] == (if s[i] == c then d else s[i])
  {
    if s == [] then []
    else [if s[0] == c then d else s[0]] + ReplaceChar(s[1..], c, d)
  }

  /** The replacement loop: `for ch in cs: s = s.replace(ch, '_')`. */
  function ReplaceEach(s: string, cs: string): string
    decreases |cs|
  {
    if cs == [] then s else ReplaceEach(ReplaceChar(s, cs[0], Replacement), cs[1..])
  }

  /** Because the replacement character is not itself replaced, the
      sequential loop acts on each character independently: a character is
      replaced exactly when it is one of `cs`, and the length is kept. */
  lemma {:induction false} ReplaceEachPointwise(s: string, cs: string)
    requires Replacement !in cs
    ensures |ReplaceEach(s, cs)| == |s|
    ensures forall i :: 0 <= i < |s| ==>
      ReplaceEach(s, cs)[i] == (if s[i] in cs then Replacement else s[i])
    decreases |cs|
  {
    if cs != [] {
      var s' := ReplaceChar(s, cs[0], Replacement);
      ReplaceEachPointwise(s', cs[1..]);
      forall i | 0 <= i < |s|
        ensures ReplaceEach(s, cs)[i] == (if s[i] in cs then Replacement else s[i])
      {
        assert s[i] in cs <==> s[i] == cs[0] || s[i] in cs[1..] by {
          assert cs == [cs[0]] + cs[1..];
        }
      }
    }
  }

  /** What the loop does to one character. */
  function Cleaned(c: char): (d: char)
    ensures d !in InvalidChars
    ensures IsSpace(d) <==> IsSpace(c)
  {
    if c in InvalidChars then Replacement else c
  }

  /** The string the replacement loop leaves: a forbidden character
      becomes `_`, every other character stays where it is. */
  function Replaced(s: string): (r: string)
    ensures |r| == |s|
    ensures NoInvalid(r)
  {
    seq(|s|, i requires 0 <= i < |s| => Cleaned(s[i]))
  }

  /** The loop of `sanitize_filename`, one `str.replace` per forbidden
      character in turn, computes `Replaced`. */
  lemma ReplaceLoop(s: string)
    ensures ReplaceEach(s, InvalidChars) == Replaced(s)
  {
    ReplaceEachPointwise(s, InvalidChars);
  }

  /** Python `sanitize_filename`. */
  function SanitizeFilename(name: string): (r: string)
    ensures NoInvalid(r)
    ensures IsStripped(r)
    ensures |r| <= |name|
  {
    NoInvalidStrip(Replaced(name));
    Strip(Replaced(name))
  }

  /** Stripping removes characters but adds none. */
  lemma NoInvalidStrip(t: string)
    requires NoInvalid(t)
    ensures NoInvalid(Strip(t))
  {
    var r := Strip(t);
    var i, j :| 0 <= i <= j <= |t| && r == t[i..j] && SpaceOutside(t, i, j);
    NoInvalidSlice(t, i, j);
  }

  lemma NoInvalidSlice(t: string, i: nat, j: nat)
    requires NoInvalid(t) && i <= j <= |t|
    ensures NoInvalid(t[i..j])
  {
    forall k | 0 <= k < j - i
      ensures t[i..j][k] !in InvalidChars
    {
      assert t[i..j][k] == t[i + k];
    }
  }

  /** A name with nothing to replace is only stripped. */
  lemma ReplacedNoInvalid(s: string)
    requires NoInvalid(s)
    ensures Replaced(s) == s
  {
    var r := Replaced(s);
    forall i | 0 <= i < |s|
      ensures r[i] == s[i]
    {
      assert s[i] !in InvalidChars;
    }
  }

  /** Sanitizing twice is sanitizing once. */
  lemma SanitizeIdempotent(name: string)
    ensures SanitizeFilename(SanitizeFilename(name)) == SanitizeFilename(name)
  {
    var r := SanitizeFilename(name);
    ReplacedNoInvalid(r);
    StripOfStripped(r);
  }

  /** Every whitespace character and every allowed character of the name
      keeps its place: the sanitized name is the stripped name with only the
      forbidden characters turned into `_`. */
  lemma SanitizeCommutes(name: string)
    ensures SanitizeFilename(name) == Replaced(Strip(name))
  {
    var t := Replaced(name);
    StripReplaced(name, t);
  }

  lemma StripReplaced(s: string, t: string)
    requires t == Replaced(s)
    ensures Strip(t) == Replaced(Strip(s))
  {
    TrimRightReplaced(s);
    TrimLeftReplaced(TrimRight(s));
  }

  lemma TrimRightReplaced(s: string)
    ensures TrimRight(Replaced(s)) == Replaced(TrimRight(s))
  {
    var t := Replaced(s);
    SameSpaces(s, t);
    TrimRightSame(s, t);
    var u := TrimRight(t);
    var v := Replaced(TrimRight(s));
    forall i | 0 <= i < |u|
      ensures u[i] == v[i]
    {
      assert u[i] == t[i];
      assert TrimRight(s)[i] == s[i];
    }
  }

  lemma TrimLeftReplaced(s: string)
    ensures TrimLeft(Replaced(s)) == Replaced(TrimLeft(s))
  {
    var t := Replaced(s);
    SameSpaces(s, t);
    TrimLeftSame(s, t);
    var k := |s| - |TrimLeft(s)|;
    assert TrimLeft(t) == t[k..];
    assert TrimLeft(s) == s[k..];
    ReplacedSuffix(s, k);
  }

  /** Replacing commutes with dropping a prefix. */
  lemma ReplacedSuffix(s: string, k: nat)
    requires k <= |s|
    ensures Replaced(s)[k..] == Replaced(s[k..])
  {
    var u := Replaced(s)[k..];
    var v := Replaced(s[k..]);
    forall i | 0 <= i < |u|
      ensures u[i] == v[i]
    {
      assert u[i] == Cleaned(s[k + i]);
    }
  }

  /** Replacing forbidden characters never creates or removes whitespace. */
  lemma SameSpaces(s: string, t: string)
    requires t == Replaced(s)
    ensures forall i :: 0 <= i < |s| ==> (IsSpace(t[i]) <==> IsSpace(s[i]))
  {
  }

  /** Two strings with whitespace in the same places: `rstrip()` cuts both at
      the same index. */
  lemma {:induction false} TrimRightSame(s: string, t: string)
    requires |s| == |t|
    requires forall i :: 0 <= i < |s| ==> (IsSpace(t[i]) <==> IsSpace(s[i]))
    ensures |TrimRight(s)| == |TrimRight(t)|
    decreases |s|
  {
    if s != [] && IsSpace(s[|s| - 1]) {
      TrimRightSame(s[..|s| - 1], t[..|t| - 1]);
    }
  }

  lemma {:induction false} TrimLeftSame(s: string, t: string)
    requires |s| == |t|
    requires forall i :: 0 <= i < |s| ==> (IsSpace(t[i]) <==> IsSpace(s[i]))
    ensures |TrimLeft(s)| == |TrimLeft(t)|
    decreases |s|
  {
    if s != [] && IsSpace(s[0]) {
      TrimLeftSame(s[1..], t[1..]);
    }
  }
}
