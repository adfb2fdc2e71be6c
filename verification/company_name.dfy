/**
  The two name helpers of the scrapers.

  `clean_company_name` applies the regular expression
  `\s+(LIMITED|LTD\.?|PRIVATE|PVT\.?|COMPANY|CO\.?|CORPORATION|CORP\.?)$`
  case-insensitively with `re.sub` and strips the result. The model states
  the regular expression's meaning directly: a match is a non-empty
  whitespace run, then a suffix token, then the end of the string (or the
  position just before a final newline, where Python's `$` also matches).

  `get_company_symbol` guesses a ticker from the words of a name.
 */
module CompanyName {
  import opened Wrappers
  import opened Text

  /** The alternatives of the regular expression, spelled out. */
  const Suffixes: seq<string> :=
    ["LIMITED", "LTD", "LTD.", "PRIVATE", "PVT", "PVT.",
     "COMPANY", "CO", "CO.", "CORPORATION", "CORP", "CORP."]

  /** `t` matches one alternative, ignoring (ASCII) case. */
  predicate IsSuffixToken(t: string) {
    Upper(t) in Suffixes
  }

  /** A suffix token is never empty and contains no whitespace. */
  lemma TokenShape(t: string)
    requires IsSuffixToken(t)
    ensures |t| >= 2 && NoSpace(t)
  {
    var u := Upper(t);
    forall i | 0 <= i < |t|
      ensures !IsSpace(t[i])
    {
      assert u[i] == ToUpper(t[i]);
      assert !IsSpace(u[i]);
    }
  }

  /** Python's `$` without MULTILINE: the end of the string, or just before
      a newline that ends the string. */
  predicate AtDollar(s: string, e: nat) {
    e == |s| || (e + 1 == |s| && s[e] == '\n')
  }

  /** Span of one match: whitespace on [start, group), token on [group, end). */
  datatype Match = Match(start: nat, group: nat, end: nat)

  predicate MatchesAt(s: string, m: Match) {
    && m.start < m.group < m.end <= |s|
    && AllSpace(s[m.start..m.group])
    && IsSuffixToken(s[m.group..m.end])
    && AtDollar(s, m.end)
  }

  /** What every match looks like around its token: a whitespace character
      just before it, no whitespace inside it, and its end is where `$`
      matches. */
  lemma MatchShape(s: string, m: Match)
    requires MatchesAt(s, m)
    ensures IsSpace(s[m.group - 1])
    ensures forall k :: m.group <= k < m.end ==> !IsSpace(s[k])
    ensures m.end == DollarEnd(s)
  {
    var t := s[m.group..m.end];
    TokenShape(t);
    assert s[m.group - 1] == s[m.start..m.group][m.group - 1 - m.start];
    forall k | m.group <= k < m.end
      ensures !IsSpace(s[k])
    {
      assert s[k] == t[k - m.group];
    }
    assert !IsSpace(s[m.end - 1]);
  }

  /** All matches of the regular expression share the token and the end:
      tokens hold no whitespace, so two of them cannot both end the string. */
  lemma MatchTail(s: string, m1: Match, m2: Match)
    requires MatchesAt(s, m1) && MatchesAt(s, m2)
    ensures m1.group == m2.group && m1.end == m2.end
  {
    MatchShape(s, m1);
    MatchShape(s, m2);
    assert !(m1.group <= m2.group - 1 < m1.end);
    assert !(m2.group <= m1.group - 1 < m2.end);
  }

  /** Where the token of a match would have to end. */
  function DollarEnd(s: string): (e: nat)
    ensures AtDollar(s, e)
  {
    if |s| > 0 && s[|s| - 1] == '\n' then |s| - 1 else |s|
  }

  /** The suffix token `t` ends at `e` and follows a whitespace character. */
  predicate TokenEndsAt(s: string, e: nat, t: string) {
    e <= |s| && |t| < e && Upper(s[e - |t|..e]) == t && IsSpace(s[e - |t| - 1])
  }

  /** Some alternative ends at `e` after a whitespace character. */
  predicate SomeTokenEndsAt(s: string, e: nat) {
    exists i :: 0 <= i < |Suffixes| && TokenEndsAt(s, e, Suffixes[i])
  }

  /** Tries the alternatives from index `k` on, in order; returns where the
      token starts. */
  function FindToken(s: string, e: nat, k: nat): (g: Option<nat>)
    requires e <= |s|
    ensures g.Some? ==> exists i :: k <= i < |Suffixes| && TokenEndsAt(s, e, Suffixes[i]) && g.value == e - |Suffixes[i]|
    ensures g.None? ==> forall i :: k <= i < |Suffixes| ==> !TokenEndsAt(s, e, Suffixes[i])
    decreases |Suffixes| - k
  {
    if k >= |Suffixes| then None
    else if TokenEndsAt(s, e, Suffixes[k]) then Some(e - |Suffixes[k]|)
    else FindToken(s, e, k + 1)
  }

  /** Every match puts some alternative at the `$` position. */
  lemma MatchHasToken(s: string, m: Match)
    requires MatchesAt(s, m)
    ensures SomeTokenEndsAt(s, DollarEnd(s))
  {
    MatchShape(s, m);
    var t := s[m.group..m.end];
    var i :| 0 <= i < |Suffixes| && Suffixes[i] == Upper(t);
    assert |Suffixes[i]| == |t|;
    assert TokenEndsAt(s, m.end, Suffixes[i]);
  }

  /** The match `re.sub` finds, if any: the leftmost one. */
  function FindSuffix(s: string): (r: Option<Match>)
    ensures r.Some? ==> MatchesAt(s, r.value)
    ensures r.Some? ==> forall m :: MatchesAt(s, m) ==> m.group == r.value.group && m.end == r.value.end && r.value.start <= m.start
    ensures r.None? ==> forall m :: !MatchesAt(s, m)
  {
    var e := DollarEnd(s);
    match FindToken(s, e, 0)
    case None =>
      assert !SomeTokenEndsAt(s, e);
      forall m ensures !MatchesAt(s, m) {
        if MatchesAt(s, m) {
          MatchHasToken(s, m);
        }
      }
      None
    case Some(g) =>
      var m := Match(|TrimRight(s[..g])|, g, e);
      FoundMatch(s, e, g, m);
      Some(m)
  }

  /** The span built from a found token is the leftmost match. */
  lemma FoundMatch(s: string, e: nat, g: nat, m: Match)
    requires e == DollarEnd(s)
    requires exists i :: 0 <= i < |Suffixes| && TokenEndsAt(s, e, Suffixes[i]) && g == e - |Suffixes[i]|
    requires m == Match(|TrimRight(s[..g])|, g, e)
    ensures MatchesAt(s, m)
    ensures forall m' :: MatchesAt(s, m') ==> m'.group == g && m'.end == e && m.start <= m'.start
  {
    var i :| 0 <= i < |Suffixes| && TokenEndsAt(s, e, Suffixes[i]) && g == e - |Suffixes[i]|;
    var head := s[..g];
    var t := TrimRight(head);
    assert IsSpace(head[g - 1]);
    assert |t| < g;
    assert s[m.start..g] == head[|t|..];
    assert Upper(s[g..e]) == Suffixes[i];
    assert MatchesAt(s, m);
    forall m' | MatchesAt(s, m')
      ensures m'.group == g && m'.end == e && m.start <= m'.start
    {
      MatchTail(s, m, m');
      LeftmostStart(s, m', |t|);
    }
  }

  /** A whitespace run ending at the token cannot reach left past the last
      non-whitespace character before it. */
  lemma LeftmostStart(s: string, m: Match, k: nat)
    requires MatchesAt(s, m)
    requires k == |TrimRight(s[..m.group])|
    ensures k <= m.start
  {
    var t := TrimRight(s[..m.group]);
    if k > 0 {
      assert !IsSpace(s[k - 1]) by {
        assert t[k - 1] == s[k - 1];
      }
      forall j | m.start <= j < m.group
        ensures IsSpace(s[j])
      {
        assert s[j] == s[m.start..m.group][j - m.start];
      }
    }
  }

  /** Python `clean_company_name`: `re.sub` deletes the matched span, then
      `strip()` trims the remainder. */
  function CleanName(name: string): (r: string)
    ensures IsStripped(r)
    ensures |r| <= |name|
    ensures (forall m :: !MatchesAt(name, m)) ==> r == Strip(name)
    ensures (exists m :: MatchesAt(name, m)) ==> |r| + 3 <= |name|
  {
    match FindSuffix(name)
    case None => Strip(name)
    case Some(m) =>
      TokenShape(name[m.group..m.end]);
      var rest := name[..m.start] + name[m.end..];
      assert |rest| + 3 <= |name|;
      Strip(rest)
  }

  /** The pieces of `s + w + t + nl` sit where their lengths say. */
  lemma Pieces(s: string, w: string, t: string, nl: string, x: string)
    requires x == s + w + t + nl
    ensures |x| == |s| + |w| + |t| + |nl|
    ensures x[..|s| + |w|] == s + w
    ensures x[|s| + |w|..|s| + |w| + |t|] == t
    ensures x[|s| + |w| + |t|..] == nl
  {
    assert x == (s + w) + t + nl;
  }

  /** Whitespace appended to `s` extends the whitespace run that `rstrip()`
      would remove from `s`. */
  lemma SpaceRun(s: string, w: string)
    requires AllSpace(w)
    ensures TrimRight(s + w) == TrimRight(s)
    ensures AllSpace((s + w)[|TrimRight(s)|..])
  {
    TrimRightAppendSpace(s, w);
    var k := |TrimRight(s)|;
    assert (s + w)[k..] == s[k..] + w;
  }

  /** The match in `s + w + t + nl` starts where `s` stops having trailing
      whitespace and ends just after `t`. */
  lemma SuffixMatchOf(s: string, w: string, t: string, nl: string, x: string)
    requires w != [] && AllSpace(w)
    requires IsSuffixToken(t)
    requires nl == [] || nl == "\n"
    requires x == s + w + t + nl
    ensures FindSuffix(x) == Some(Match(|TrimRight(s)|, |s| + |w|, |s| + |w| + |t|))
  {
    var m := Match(|TrimRight(s)|, |s| + |w|, |s| + |w| + |t|);
    SuffixMatchHolds(s, w, t, nl, x);
    TrimmedHead(x, s, w, m.group);
    FoundIsLeftmost(x, m);
  }

  lemma TrimmedHead(x: string, s: string, w: string, g: nat)
    requires AllSpace(w)
    requires g == |s| + |w| <= |x| && x[..g] == s + w
    ensures |TrimRight(x[..g])| == |TrimRight(s)|
  {
    SpaceRun(s, w);
  }

  lemma SuffixMatchHolds(s: string, w: string, t: string, nl: string, x: string)
    requires w != [] && AllSpace(w)
    requires IsSuffixToken(t)
    requires nl == [] || nl == "\n"
    requires x == s + w + t + nl
    ensures MatchesAt(x, Match(|TrimRight(s)|, |s| + |w|, |s| + |w| + |t|))
    ensures x[..|s| + |w|] == s + w
  {
    Pieces(s, w, t, nl, x);
    TokenShape(t);
    SpacesBeforeToken(s, w, x);
    DollarAfterToken(x, |s| + |w| + |t|, nl);
  }

  lemma SpacesBeforeToken(s: string, w: string, x: string)
    requires AllSpace(w)
    requires |s| + |w| <= |x| && x[..|s| + |w|] == s + w
    ensures AllSpace(x[|TrimRight(s)|..|s| + |w|])
  {
    SpaceRun(s, w);
    var k := |TrimRight(s)|;
    assert x[k..|s| + |w|] == (s + w)[k..];
  }

  lemma DollarAfterToken(x: string, e: nat, nl: string)
    requires nl == [] || nl == "\n"
    requires e <= |x| && x[e..] == nl
    ensures AtDollar(x, e)
  {
    if nl != [] {
      assert x[e] == x[e..][0];
    }
  }

  /** A match that starts right after the last non-whitespace character
      before its token is the one `re.sub` finds. */
  lemma FoundIsLeftmost(x: string, m: Match)
    requires MatchesAt(x, m)
    requires m.start == |TrimRight(x[..m.group])|
    ensures FindSuffix(x) == Some(m)
  {
    var r := FindSuffix(x);
    MatchTail(x, m, r.value);
    LeftmostStart(x, r.value, m.start);
  }

  /** Exactly one trailing suffix token, with the whitespace before it, is
      removed: whatever precedes the whitespace is kept, trimmed, even when it
      ends in another suffix token. A final newline after the token makes no
      difference. */
  lemma CleanNameDropsSuffix(s: string, w: string, t: string, nl: string)
    requires w != [] && AllSpace(w)
    requires IsSuffixToken(t)
    requires nl == [] || nl == "\n"
    ensures CleanName(s + w + t + nl) == Strip(s)
  {
    var x := s + w + t + nl;
    SuffixMatchOf(s, w, t, nl, x);
    CleanNameOfMatch(x, Match(|TrimRight(s)|, |s| + |w|, |s| + |w| + |t|));
    HeadAndTail(s, w, t, nl, x);
    StripTrimmedNewline(s, nl);
  }

  lemma CleanNameOfMatch(x: string, m: Match)
    requires FindSuffix(x) == Some(m)
    ensures CleanName(x) == Strip(x[..m.start] + x[m.end..])
  {
  }

  /** Before the whitespace run sits `s` without its trailing whitespace;
      after the token sits `nl`. */
  lemma HeadAndTail(s: string, w: string, t: string, nl: string, x: string)
    requires x == s + w + t + nl
    ensures x[..|TrimRight(s)|] == TrimRight(s)
    ensures x[|s| + |w| + |t|..] == nl
  {
    Pieces(s, w, t, nl, x);
    var k := |TrimRight(s)|;
    assert x[..k] == (s + w)[..k];
  }

  /** A final newline after the trimmed text disappears in the strip. */
  lemma StripTrimmedNewline(s: string, nl: string)
    requires nl == [] || nl == "\n"
    ensures Strip(TrimRight(s) + nl) == Strip(s)
  {
    assert AllSpace(nl);
    TrimRightAppendSpace(TrimRight(s), nl);
    TrimRightIdempotent(s);
  }

  /** A name that is nothing but a suffix token has no whitespace before it,
      so nothing is removed. */
  lemma BareTokenKept(t: string)
    requires IsSuffixToken(t)
    ensures CleanName(t) == t
  {
    TokenShape(t);
    forall m ensures !MatchesAt(t, m) {
      if MatchesAt(t, m) {
        MatchShape(t, m);
      }
    }
    StripOfStripped(t);
  }

  lemma UpperOfUpper(t: string)
    requires forall i :: 0 <= i < |t| ==> !IsAsciiLower(t[i])
    ensures Upper(t) == t
  {
  }

  /** One space and one suffix token after an already trimmed name. */
  lemma CleanNameOneToken(name: string, kept: string, t: string)
    requires IsStripped(kept) && IsSuffixToken(t)
    requires name == kept + " " + t
    ensures CleanName(name) == kept
  {
    assert name == kept + " " + t + "";
    CleanNameDropsSuffix(kept, " ", t, "");
    StripOfStripped(kept);
  }

  lemma LimitedIsToken(t: string)
    requires t == "LIMITED"
    ensures IsSuffixToken(t)
  {
    UpperOfUpper(t);
  }

  /** The sample name used to exercise the scraper. */
  lemma CleanNameSample(name: string)
    requires name == "Reliance Industries LIMITED"
    ensures CleanName(name) == "Reliance Industries"
  {
    LimitedIsToken("LIMITED");
    CleanNameOneToken(name, "Reliance Industries", "LIMITED");
  }

  /** Only one token goes: "Foo LIMITED LIMITED" keeps its first LIMITED. */
  lemma CleanNameRemovesOnce(name: string)
    requires name == "Foo LIMITED LIMITED"
    ensures CleanName(name) == "Foo LIMITED"
  {
    LimitedIsToken("LIMITED");
    CleanNameOneToken(name, "Foo LIMITED", "LIMITED");
  }

  /** The first two characters of a word, upper-cased. */
  function Initials(w: string): (r: string)
    ensures |r| == (if |w| < 2 then |w| else 2)
    ensures forall i :: 0 <= i < |r| ==> r[i] == ToUpper(w[i])
  {
    Upper(Prefix(w, 2))
  }

  /** No ASCII lower-case letter survives `upper()`. */
  predicate NoLower(s: string) {
    forall i :: 0 <= i < |s| ==> !IsAsciiLower(s[i])
  }

  lemma NoLowerAppend(a: string, b: string)
    requires NoLower(a) && NoLower(b)
    ensures NoLower(a + b)
  {
    forall i | 0 <= i < |a + b|
      ensures !IsAsciiLower((a + b)[i])
    {
      if i >= |a| {
        assert (a + b)[i] == b[i - |a|];
      }
    }
  }

  /** Python `get_company_symbol`: with two or more words, the initials of
      the first three words; otherwise the first six characters of the name
      as given (not stripped), upper-cased. */
  function CompanySymbol(name: string): (r: string)
    ensures |r| <= 6
    ensures NoLower(r)
    ensures |Words(name)| >= 2 ==> |r| >= (if |Words(name)| >= 3 then 3 else 2)
    ensures |Words(name)| >= 2 ==> r[0] == ToUpper(Words(name)[0][0])
    ensures |Words(name)| < 2 ==> |r| == (if |name| < 6 then |name| else 6)
    ensures |Words(name)| < 2 ==> forall i :: 0 <= i < |r| ==> r[i] == ToUpper(name[i])
  {
    var ws := Words(name);
    if |ws| >= 2 then
      var a := Initials(ws[0]);
      var b := Initials(ws[1]);
      var c := if |ws| >= 3 then Initials(ws[2]) else [];
      NoLowerAppend(a, b);
      NoLowerAppend(a + b, c);
      a + b + c
    else
      Upper(Prefix(name, 6))
  }

  /** The guessed symbol does not depend on the case of the name. */
  lemma SymbolIgnoresCase(name: string)
    ensures CompanySymbol(Upper(name)) == CompanySymbol(name)
  {
    WordsUpper(name);
    var ws := Words(name);
    var us := Words(Upper(name));
    assert |us| == |ws|;
    if |ws| >= 2 {
      UpperAllAt(ws, 0);
      UpperAllAt(ws, 1);
      InitialsOfUpper(ws[0]);
      InitialsOfUpper(ws[1]);
      if |ws| >= 3 {
        UpperAllAt(ws, 2);
        InitialsOfUpper(ws[2]);
      }
    } else {
      PrefixOfUpper(name, 6);
    }
  }

  lemma InitialsOfUpper(w: string)
    ensures Initials(Upper(w)) == Initials(w)
  {
    var a := Initials(Upper(w));
    var b := Initials(w);
    forall i | 0 <= i < |a|
      ensures a[i] == b[i]
    {
      assert Upper(w)[i] == ToUpper(w[i]);
    }
  }

  lemma PrefixOfUpper(s: string, k: nat)
    ensures Upper(Prefix(Upper(s), k)) == Upper(Prefix(s, k))
  {
    var a := Upper(Prefix(Upper(s), k));
    var b := Upper(Prefix(s, k));
    forall i | 0 <= i < |a|
      ensures a[i] == b[i]
    {
      assert Prefix(Upper(s), k)[i] == ToUpper(s[i]);
    }
  }

  /** A word followed by whitespace is the first word of the string. */
  lemma WordsCons(a: string, w: string, rest: string)
    requires a != [] && NoSpace(a)
    requires w != [] && AllSpace(w)
    ensures Words(a + w + rest) == [a] + Words(rest)
  {
    var x := a + w + rest;
    WordLenOf(a, w + rest);
    assert x == a + (w + rest);
    assert x[..|a|] == a;
    assert x[|a|..] == w + rest;
    SkipSpace(w, rest);
  }

  lemma {:induction false} WordLenOf(a: string, rest: string)
    requires NoSpace(a)
    requires rest != [] && IsSpace(rest[0])
    ensures WordLen(a + rest) == |a|
    decreases |a|
  {
    var x := a + rest;
    if a == [] {
      assert x == rest;
      assert IsSpace(x[0]);
    } else {
      assert x[0] == a[0] && !IsSpace(a[0]);
      assert x[1..] == a[1..] + rest;
      WordLenOf(a[1..], rest);
      assert WordLen(x) == 1 + WordLen(x[1..]);
    }
  }

  lemma {:induction false} SkipSpace(w: string, rest: string)
    requires AllSpace(w)
    ensures Words(w + rest) == Words(rest)
    decreases |w|
  {
    if w == [] {
      assert w + rest == rest;
    } else {
      assert (w + rest)[1..] == w[1..] + rest;
      SkipSpace(w[1..], rest);
    }
  }

  /** Two words: the symbol is the two initials. Whitespace before the
      first word and after the second is ignored. */
  lemma SymbolOfTwoWords(lead: string, a: string, w: string, b: string, trail: string)
    requires a != [] && NoSpace(a) && b != [] && NoSpace(b)
    requires w != [] && AllSpace(w)
    requires AllSpace(lead) && AllSpace(trail)
    ensures CompanySymbol(lead + a + w + b + trail) == Initials(a) + Initials(b)
  {
    TwoWords(lead, a, w, b, trail);
  }

  lemma TwoWords(lead: string, a: string, w: string, b: string, trail: string)
    requires a != [] && NoSpace(a) && b != [] && NoSpace(b)
    requires w != [] && AllSpace(w)
    requires AllSpace(lead) && AllSpace(trail)
    ensures Words(lead + a + w + b + trail) == [a, b]
  {
    var y := a + w + (b + trail);
    Regroup(lead, a, w, b, trail);
    SameWords(lead + a + w + b + trail, lead + y);
    PairWords(a, w, b, trail);
    SkipSpace(lead, y);
  }

  lemma Regroup(lead: string, a: string, w: string, b: string, trail: string)
    ensures lead + a + w + b + trail == lead + (a + w + (b + trail))
  {
  }

  /** Equal strings have equal words; stated apart so that the equality is
      checked without unfolding `Words` on either side. */
  lemma SameWords(x: string, y: string)
    requires x == y
    ensures Words(x) == Words(y)
  {
  }

  lemma PairWords(a: string, w: string, b: string, trail: string)
    requires a != [] && NoSpace(a) && b != [] && NoSpace(b)
    requires w != [] && AllSpace(w) && AllSpace(trail)
    ensures Words(a + w + (b + trail)) == [a, b]
  {
    LastWord(b, trail);
    WordsCons(a, w, b + trail);
  }

  /** A word followed only by whitespace is the last word. */
  lemma LastWord(b: string, trail: string)
    requires b != [] && NoSpace(b) && AllSpace(trail)
    ensures Words(b + trail) == [b]
  {
    if trail == [] {
      assert b + trail == b;
      SingleWord(b);
    } else {
      WordsCons(b, trail, []);
      assert b + trail + [] == b + trail;
    }
  }

  /** With two or more words the symbol depends on the words alone. */
  lemma SymbolOfSameWords(x: string, y: string)
    requires Words(x) == Words(y) && |Words(x)| >= 2
    ensures CompanySymbol(x) == CompanySymbol(y)
  {
  }

  /** Three or more words: only the first three contribute. Whitespace
      before the first word and anything after the third is ignored; the
      third word may also end the name. */
  lemma SymbolOfManyWords(lead: string, a: string, w1: string, b: string, w2: string, c: string, w3: string, rest: string)
    requires a != [] && NoSpace(a) && b != [] && NoSpace(b) && c != [] && NoSpace(c)
    requires w1 != [] && AllSpace(w1) && w2 != [] && AllSpace(w2)
    requires (w3 != [] && AllSpace(w3)) || (w3 == [] && rest == [])
    requires AllSpace(lead)
    ensures CompanySymbol(lead + (a + w1 + b + w2 + c + w3 + rest)) == Initials(a) + Initials(b) + Initials(c)
  {
    var tail2 := c + w3 + rest;
    var tail1 := b + w2 + tail2;
    var x := a + w1 + b + w2 + c + w3 + rest;
    assert x == a + w1 + tail1;
    ThreeWords(a, w1, b, w2, c, w3, rest, tail1, tail2);
    SkipSpace(lead, x);
    SymbolOfSameWords(lead + x, x);
  }

  lemma ThreeWords(a: string, w1: string, b: string, w2: string, c: string, w3: string, rest: string,
                   tail1: string, tail2: string)
    requires a != [] && NoSpace(a) && b != [] && NoSpace(b) && c != [] && NoSpace(c)
    requires w1 != [] && AllSpace(w1) && w2 != [] && AllSpace(w2)
    requires (w3 != [] && AllSpace(w3)) || (w3 == [] && rest == [])
    requires tail2 == c + w3 + rest && tail1 == b + w2 + tail2
    ensures CompanySymbol(a + w1 + tail1) == Initials(a) + Initials(b) + Initials(c)
    ensures |Words(a + w1 + tail1)| >= 3
  {
    if w3 == [] {
      assert tail2 == c;
      SingleWord(c);
      assert Words(tail2) == [c] + Words(rest);
    } else {
      WordsCons(c, w3, rest);
    }
    WordsCons(b, w2, tail2);
    WordsCons(a, w1, tail1);
    var ws := Words(a + w1 + tail1);
    assert ws == [a] + ([b] + ([c] + Words(rest)));
    assert ws[0] == a && ws[1] == b && ws[2] == c;
  }

  lemma {:induction false} UpperAllAt(ws: seq<string>, i: nat)
    requires i < |ws|
    ensures UpperAll(ws)[i] == Upper(ws[i])
    decreases i
  {
    if i > 0 {
      UpperAllAt(ws[1..], i - 1);
    }
  }
}
