/**
  The decoded JSON body of an annual-reports API response, and the
  depth-first search for document links in it
  (`extract_download_links_from_response` with its inner
  `find_links_recursive`).
 */
module Json {

  /** A decoded JSON value. A mapping keeps its entries in the order the
      decoder produced them, which is the order Python iterates a `dict`.
      Numbers are integers here. */
  datatype Json =
    | JNull
    | JBool(b: bool)
    | JNumber(n: int)
    | JString(s: string)
    | JArray(items: seq<Json>)
    | JObject(members: seq<(string, Json)>)

  /** Python truthiness of the decoded value: `not data` holds exactly for
      null, false, zero and empty strings, lists and mappings. */
  predicate Truthy(j: Json) {
    match j
    case JNull => false
    case JBool(b) => b
    case JNumber(n) => n != 0
    case JString(s) => s != []
    case JArray(xs) => xs != []
    case JObject(ms) => ms != []
  }
}

module Links {
  import opened Json

  /** The host every collected link must mention. */
  const ArchiveHost: string := "nsearchives.nseindia.com"

  predicate EndsWith(s: string, suffix: string) {
    |suffix| <= |s| && s[|s| - |suffix|..] == suffix
  }

  /** Python `sub in s`. */
  predicate Contains(s: string, sub: string)
    decreases |s|
  {
    |sub| <= |s| && (s[..|sub|] == sub || Contains(s[1..], sub))
  }

  /** A string contains every one of its infixes. */
  lemma {:induction false} ContainsInfix(a: string, sub: string, b: string)
    ensures Contains(a + sub + b, sub)
    decreases |a|
  {
    var s := a + sub + b;
    if a == [] {
      assert s[..|sub|] == sub;
    } else {
      assert s[1..] == a[1..] + sub + b;
      ContainsInfix(a[1..], sub, b);
    }
  }

  /** Conversely, `sub in s` holds only when `s` has `sub` as an infix. */
  lemma ContainsSplits(s: string, sub: string)
    requires Contains(s, sub)
    ensures exists a, b :: s == a + sub + b
  {
    var i := ContainsAt(s, sub);
    var j := i + |sub|;
    assert s == s[..i] + s[i..j] + s[j..];
  }

  /** Where `sub` occurs: the first index found by the search. */
  lemma {:induction false} ContainsAt(s: string, sub: string) returns (i: nat)
    requires Contains(s, sub)
    ensures i + |sub| <= |s| && s[i..i + |sub|] == sub
    decreases |s|
  {
    if s[..|sub|] == sub {
      i := 0;
    } else {
      var k := ContainsAt(s[1..], sub);
      assert s[1..][k..k + |sub|] == s[k + 1..k + 1 + |sub|];
      i := k + 1;
    }
  }

  /** `value.endswith('.pdf') or value.endswith('.zip')`, case-sensitive. */
  predicate HasDocumentSuffix(s: string) {
    EndsWith(s, ".pdf") || EndsWith(s, ".zip")
  }

  /** The two tests a collected string passes. */
  predicate IsDocumentLink(s: string) {
    HasDocumentSuffix(s) && Contains(s, ArchiveHost)
  }

  predicate AllLinks(ls: seq<string>) {
    forall k :: 0 <= k < |ls| ==> IsDocumentLink(ls[k])
  }

  function Flatten(xss: seq<seq<string>>): seq<string> {
    if xss == [] then [] else xss[0] + Flatten(xss[1..])
  }

  lemma {:induction false} FlattenAppend(a: seq<seq<string>>, b: seq<seq<string>>)
    ensures Flatten(a + b) == Flatten(a) + Flatten(b)
    decreases |a|
  {
    if a == [] {
      assert a + b == b;
    } else {
      assert (a + b)[1..] == a[1..] + b;
      FlattenAppend(a[1..], b);
    }
  }

  lemma {:induction false} FlattenAllLinks(xss: seq<seq<string>>)
    requires forall i :: 0 <= i < |xss| ==> AllLinks(xss[i])
    ensures AllLinks(Flatten(xss))
    decreases |xss|
  {
    if xss != [] {
      FlattenAllLinks(xss[1..]);
    }
  }

  /** `find_links_recursive(obj, links)`: what the walk appends for `obj`.
      A mapping hands each of its values, in order, to `MemberLinks`; a list
      hands each element back to `Walk`; anything else, a bare string
      included, appends nothing. */
  function Walk(j: Json): (r: seq<string>)
    ensures AllLinks(r)
    decreases j, 0
  {
    match j
    case JObject(ms) =>
      var parts := seq(|ms|, i requires 0 <= i < |ms| => MemberLinks(ms[i].1));
      FlattenAllLinks(parts);
      Flatten(parts)
    case JArray(xs) =>
      var parts := seq(|xs|, i requires 0 <= i < |xs| => Walk(xs[i]));
      FlattenAllLinks(parts);
      Flatten(parts)
    case _ => []
  }

  /** The body of the mapping loop for one value: a string with a document
      suffix is appended when it mentions the archive host and dropped
      otherwise; every other value is walked. */
  function MemberLinks(v: Json): (r: seq<string>)
    ensures AllLinks(r)
    decreases v, 1
  {
    if v.JString? && HasDocumentSuffix(v.s) then
      (if Contains(v.s, ArchiveHost) then [v.s] else [])
    else
      Walk(v)
  }

  /** Python `extract_download_links_from_response`: nothing unless the
      top-level value is a non-empty mapping. */
  function ExtractLinks(data: Json): (r: seq<string>)
    ensures !data.JObject? ==> r == []
    ensures data == JObject([]) ==> r == []
    ensures AllLinks(r)
    ensures data.JObject? ==> r == FilterLinks(MappingStrings(data))
  {
    WalkIsFilter(data);
    if !Truthy(data) || !data.JObject? then [] else Walk(data)
  }

  // An independent description of the result: every string that sits in a
  // mapping-value position, in depth-first order, then filtered.

  /** The strings that are values of some mapping, depth first, mapping
      entries and list elements in order, duplicates kept. A string that is
      a list element is not in a mapping-value position. */
  function MappingStrings(j: Json): seq<string>
    decreases j, 0
  {
    match j
    case JObject(ms) => Flatten(seq(|ms|, i requires 0 <= i < |ms| => ValueStrings(ms[i].1)))
    case JArray(xs) => Flatten(seq(|xs|, i requires 0 <= i < |xs| => MappingStrings(xs[i])))
    case _ => []
  }

  function ValueStrings(v: Json): seq<string>
    decreases v, 1
  {
    if v.JString? then [v.s] else MappingStrings(v)
  }

  /** The strings of `ls` that are document links, in order. */
  function FilterLinks(ls: seq<string>): (r: seq<string>)
    ensures AllLinks(r)
  {
    if ls == [] then []
    else (if IsDocumentLink(ls[0]) then [ls[0]] else []) + FilterLinks(ls[1..])
  }

  lemma {:induction false} FilterAppend(a: seq<string>, b: seq<string>)
    ensures FilterLinks(a + b) == FilterLinks(a) + FilterLinks(b)
    decreases |a|
  {
    if a == [] {
      assert a + b == b;
    } else {
      var head := if IsDocumentLink(a[0]) then [a[0]] else [];
      assert (a + b)[0] == a[0];
      assert (a + b)[1..] == a[1..] + b;
      assert FilterLinks(a + b) == head + FilterLinks(a[1..] + b);
      FilterAppend(a[1..], b);
      assert FilterLinks(a) == head + FilterLinks(a[1..]);
    }
  }

  /** Filtering a concatenation filters each part. */
  lemma {:induction false} FilterFlatten(xss: seq<seq<string>>, yss: seq<seq<string>>)
    requires |xss| == |yss|
    requires forall i :: 0 <= i < |xss| ==> yss[i] == FilterLinks(xss[i])
    ensures Flatten(yss) == FilterLinks(Flatten(xss))
    decreases |xss|
  {
    if xss != [] {
      FilterFlatten(xss[1..], yss[1..]);
      FilterAppend(xss[0], Flatten(xss[1..]));
    }
  }

  /** The walk collects exactly the mapping-value strings that are document
      links, in depth-first order with duplicates. */
  lemma {:induction false} WalkIsFilter(j: Json)
    ensures Walk(j) == FilterLinks(MappingStrings(j))
    decreases j, 0
  {
    match j
    case JObject(ms) =>
      var xss := seq(|ms|, i requires 0 <= i < |ms| => ValueStrings(ms[i].1));
      var yss := seq(|ms|, i requires 0 <= i < |ms| => MemberLinks(ms[i].1));
      forall i | 0 <= i < |ms|
        ensures yss[i] == FilterLinks(xss[i])
      {
        MemberIsFilter(ms[i].1);
      }
      FilterFlatten(xss, yss);
    case JArray(xs) =>
      var xss := seq(|xs|, i requires 0 <= i < |xs| => MappingStrings(xs[i]));
      var yss := seq(|xs|, i requires 0 <= i < |xs| => Walk(xs[i]));
      forall i | 0 <= i < |xs|
        ensures yss[i] == FilterLinks(xss[i])
      {
        WalkIsFilter(xs[i]);
      }
      FilterFlatten(xss, yss);
    case _ =>
  }

  lemma {:induction false} MemberIsFilter(v: Json)
    ensures MemberLinks(v) == FilterLinks(ValueStrings(v))
    decreases v, 1
  {
    if v.JString? {
      assert FilterLinks([v.s]) == (if IsDocumentLink(v.s) then [v.s] else []) + FilterLinks([]);
    } else {
      WalkIsFilter(v);
    }
  }

  /** A string that is a list element is never collected, even a valid
      document link. */
  lemma ListStringsIgnored(key: string, url: string)
    ensures ExtractLinks(JObject([(key, JArray([JString(url)]))])) == []
  {
    var xs := [JString(url)];
    var arr := JArray(xs);
    var ms := [(key, arr)];
    var inner := seq(|xs|, i requires 0 <= i < |xs| => MappingStrings(xs[i]));
    assert inner == [[]];
    assert Flatten(inner) == [] + Flatten([]);
    assert ValueStrings(arr) == [];
    var outer := seq(|ms|, i requires 0 <= i < |ms| => ValueStrings(ms[i].1));
    assert outer == [[]];
    assert Flatten(outer) == [] + Flatten([]);
    assert MappingStrings(JObject(ms)) == [];
  }

  /** A document link that is the value of a mapping entry is collected. */
  lemma MemberLinkCollected(key: string, url: string)
    requires IsDocumentLink(url)
    ensures ExtractLinks(JObject([(key, JString(url))])) == [url]
  {
    var ms := [(key, JString(url))];
    var outer := seq(|ms|, i requires 0 <= i < |ms| => ValueStrings(ms[i].1));
    assert outer == [[url]];
    assert Flatten(outer) == [url] + Flatten([]);
    assert MappingStrings(JObject(ms)) == [url];
    assert FilterLinks([url]) == [url] + FilterLinks([]);
  }

  /** Entries are searched in order and their links concatenated: the links
      of a mapping are the links of its first entries followed by the links
      of the rest. */
  lemma ExtractSplitsMembers(a: seq<(string, Json)>, b: seq<(string, Json)>)
    ensures ExtractLinks(JObject(a + b)) == ExtractLinks(JObject(a)) + ExtractLinks(JObject(b))
  {
    WalkSplitsMembers(a, b);
    ExtractOfObject(a);
    ExtractOfObject(b);
    ExtractOfObject(a + b);
  }

  /** On a mapping the extractor is the walk: an empty mapping walks to
      nothing anyway. */
  lemma ExtractOfObject(ms: seq<(string, Json)>)
    ensures ExtractLinks(JObject(ms)) == Walk(JObject(ms))
  {
    if ms == [] {
      assert Walk(JObject(ms)) == Flatten([]);
    }
  }

  lemma WalkSplitsMembers(a: seq<(string, Json)>, b: seq<(string, Json)>)
    ensures Walk(JObject(a + b)) == Walk(JObject(a)) + Walk(JObject(b))
  {
    var whole := seq(|a + b|, i requires 0 <= i < |a + b| => MemberLinks((a + b)[i].1));
    var left := seq(|a|, i requires 0 <= i < |a| => MemberLinks(a[i].1));
    var right := seq(|b|, i requires 0 <= i < |b| => MemberLinks(b[i].1));
    assert whole == left + right;
    FlattenAppend(left, right);
  }
}
