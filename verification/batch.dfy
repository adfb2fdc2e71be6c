/**
  The batch side of the scrapers: `process_company` (search, extract links,
  download each one and count the successes), `load_companies_from_csv`
  (the row filter), and `run_scraper` (slicing the company list and adding
  up the per-company counts).

  The search answer is a parameter (`None` when the search failed), the
  network answers one download at a time through `net`, and the outcome
  of processing a company in `run_scraper` comes from `process`.
 */
module Batch {
  import opened Wrappers
  import opened Text
  import opened Json
  import opened Links
  import opened Sanitize
  import opened Download

  // ---------------------------------------------------------------------
  // process_company
  // ---------------------------------------------------------------------

  /** How many downloads succeeded, the file system afterwards, and how
      many downloads went to the network. */
  datatype Tally = Tally(count: nat, fs: FileSystem, fetches: nat)

  /** Where `process_company` stores each of its links: `download_file`
      and `download_file_curl` are called without a file name, so each link
      goes under the company's directory with the link's base name. */
  function Destinations(company: string, links: seq<string>): (ds: seq<FilePath>)
    ensures |ds| == |links|
    ensures forall j :: 0 <= j < |ds| ==> ds[j].dir == SanitizeFilename(company) && ds[j].name == BaseName(links[j])
  {
    var ds := seq(|links|, j requires 0 <= j < |links| => Destination(company, links[j], None));
    assert forall j :: 0 <= j < |ds| ==> ds[j].dir == SanitizeFilename(company) && ds[j].name == BaseName(links[j]) by {
      forall j | 0 <= j < |ds|
        ensures ds[j].dir == SanitizeFilename(company) && ds[j].name == BaseName(links[j])
      {
        assert ds[j] == Destination(company, links[j], None);
        assert FileName(links[j], None) == BaseName(links[j]);
      }
    }
    ds
  }

  /** How many of the answers `net(k)` .. `net(n - 1)` make a download
      that goes to the network succeed. */
  function Successes(net: nat -> Answer, k: nat, n: nat): (c: nat)
    requires k <= n
    ensures c <= n - k
    decreases n - k
  {
    if k == n then 0 else (if Succeeds(net(k)) then 1 else 0) + Successes(net, k + 1, n)
  }

  /** When every answer succeeds, every one of them counts. */
  lemma {:induction false} AllSuccesses(net: nat -> Answer, k: nat, n: nat)
    requires k <= n
    requires forall j :: k <= j < n ==> Succeeds(net(j))
    ensures Successes(net, k, n) == n - k
    decreases n - k
  {
    if k < n {
      AllSuccesses(net, k + 1, n);
    }
  }

  /** The download loop of `process_company` from link `k` on, given the
      links' destinations. The `k`-th download is answered by `net(k)`.
      Each scraper answers every download through its own variant; `net`
      may choose per download, which covers both. */
  function DownloadLinks(fs: FileSystem, dests: seq<FilePath>, k: nat, net: nat -> Answer): (r: Tally)
    requires k <= |dests|
    ensures r.count <= |dests| - k && r.fetches <= |dests| - k
    ensures KeepsFiles(fs, r.fs)
    ensures forall q :: q in r.fs ==> q in fs || q in dests[k..]
    ensures r.count == |dests| - k ==> forall j :: k <= j < |dests| ==> Exists(r.fs, dests[j])
    ensures r.count >= Successes(net, k, |dests|)
    decreases |dests| - k
  {
    if k == |dests| then Tally(0, fs, 0)
    else
      var p := dests[k];
      var a := Fetch(fs, p, net(k));
      var rest := DownloadLinks(a.fs, dests, k + 1, net);
      assert dests[k..] == [p] + dests[k + 1..];
      assert a.ok ==> Exists(rest.fs, p) by {
        if a.ok && p in a.fs {
          assert p in rest.fs;
        }
      }
      Tally((if a.ok then 1 else 0) + rest.count, rest.fs, (if a.fetched then 1 else 0) + rest.fetches)
  }

  /** Python `process_company`, given what the search returned. Nothing is
      downloaded when the search failed, returned a falsy value, or yielded
      no links; otherwise each link is downloaded into the company's
      directory and the successes are counted. */
  function ProcessCompany(fs: FileSystem, company: string, data: Option<Json>, net: nat -> Answer): (r: Tally)
    ensures data.None? || !Truthy(data.value) ==> r == Tally(0, fs, 0)
    ensures data.Some? && ExtractLinks(data.value) == [] ==> r == Tally(0, fs, 0)
    ensures data.Some? ==> r.count <= |ExtractLinks(data.value)| && r.fetches <= |ExtractLinks(data.value)|
    ensures data.Some? && Truthy(data.value) ==> r.count >= Successes(net, 0, |ExtractLinks(data.value)|)
    ensures KeepsFiles(fs, r.fs)
    ensures forall q :: q in r.fs && q.dir != SanitizeFilename(company) ==> q in fs
  {
    if data.None? || !Truthy(data.value) then Tally(0, fs, 0)
    else
      var links := ExtractLinks(data.value);
      if links == [] then Tally(0, fs, 0)
      else
        var ds := Destinations(company, links);
        assert ds[0..] == ds;
        DownloadLinks(fs, ds, 0, net)
  }

  /** When every destination already exists, the download loop counts every
      link as a success, touches nothing and never goes to the network. */
  lemma {:induction false} AllPresentFetchesNothing(fs: FileSystem, dests: seq<FilePath>, k: nat, net: nat -> Answer)
    requires k <= |dests|
    requires forall j :: k <= j < |dests| ==> Exists(fs, dests[j])
    ensures DownloadLinks(fs, dests, k, net) == Tally(|dests| - k, fs, 0)
    decreases |dests| - k
  {
    if k < |dests| {
      var p := dests[k];
      assert Exists(fs, p);
      assert Fetch(fs, p, net(k)) == Attempt(true, fs, false);
      AllPresentFetchesNothing(fs, dests, k + 1, net);
    }
  }

  /** When every answer succeeds, every link counts as a success. */
  lemma DownloadLinksAllSucceed(fs: FileSystem, dests: seq<FilePath>, k: nat, net: nat -> Answer)
    requires k <= |dests|
    requires forall j :: k <= j < |dests| ==> Succeeds(net(j))
    ensures DownloadLinks(fs, dests, k, net).count == |dests| - k
  {
    AllSuccesses(net, k, |dests|);
  }

  /** When no destination exists yet and every answer fails, the loop goes
      to the network for every link, counts nothing and leaves the file
      system as it was. */
  lemma {:induction false} DownloadLinksAllFail(fs: FileSystem, dests: seq<FilePath>, k: nat, net: nat -> Answer)
    requires k <= |dests|
    requires forall j :: k <= j < |dests| ==> !Succeeds(net(j)) && !Exists(fs, dests[j])
    ensures DownloadLinks(fs, dests, k, net) == Tally(0, fs, |dests| - k)
    decreases |dests| - k
  {
    if k < |dests| {
      var a := Fetch(fs, dests[k], net(k));
      assert a == Attempt(false, fs, true);
      DownloadLinksAllFail(fs, dests, k + 1, net);
    }
  }

  /** Nothing but `p` changes existence across a download of `p`. */
  lemma FetchElsewhere(fs: FileSystem, p: FilePath, a: Answer, q: FilePath)
    requires q != p
    ensures Exists(Fetch(fs, p, a).fs, q) <==> Exists(fs, q)
  {
    var r := Fetch(fs, p, a);
    assert q in r.fs - {p} <==> q in fs - {p};
  }

  /** With distinct destinations none of which exists yet, every link goes
      to the network and the count is exactly the number of answers that
      succeed. */
  lemma {:induction false} DownloadLinksFresh(fs: FileSystem, dests: seq<FilePath>, k: nat, net: nat -> Answer)
    requires k <= |dests|
    requires forall j :: k <= j < |dests| ==> !Exists(fs, dests[j])
    requires forall i, j :: k <= i < j < |dests| ==> dests[i] != dests[j]
    ensures DownloadLinks(fs, dests, k, net).count == Successes(net, k, |dests|)
    ensures DownloadLinks(fs, dests, k, net).fetches == |dests| - k
    decreases |dests| - k
  {
    if k < |dests| {
      var p := dests[k];
      var a := Fetch(fs, p, net(k));
      assert a.fetched && (a.ok <==> Succeeds(net(k)));
      forall j | k + 1 <= j < |dests|
        ensures !Exists(a.fs, dests[j])
      {
        FetchElsewhere(fs, p, net(k), dests[j]);
      }
      DownloadLinksFresh(a.fs, dests, k + 1, net);
    }
  }

  /** A company whose search succeeded and whose every download succeeds
      counts every link it found. */
  lemma ProcessCompanyAllSucceed(fs: FileSystem, company: string, data: Option<Json>, net: nat -> Answer)
    requires data.Some? && Truthy(data.value)
    requires forall j :: 0 <= j < |ExtractLinks(data.value)| ==> Succeeds(net(j))
    ensures ProcessCompany(fs, company, data, net).count == |ExtractLinks(data.value)|
  {
    AllSuccesses(net, 0, |ExtractLinks(data.value)|);
  }

  /** A company whose links all fail and none of whose files exists yet
      counts nothing, leaves the file system as it was, and goes to the
      network once per link. */
  lemma ProcessCompanyAllFail(fs: FileSystem, company: string, data: Option<Json>, net: nat -> Answer)
    requires data.Some? && Truthy(data.value)
    requires forall j :: 0 <= j < |ExtractLinks(data.value)| ==>
      !Succeeds(net(j)) && !Exists(fs, FilePath(SanitizeFilename(company), BaseName(ExtractLinks(data.value)[j])))
    ensures ProcessCompany(fs, company, data, net) == Tally(0, fs, |ExtractLinks(data.value)|)
  {
    var links := ExtractLinks(data.value);
    if links != [] {
      var ds := Destinations(company, links);
      forall j | 0 <= j < |ds|
        ensures !Succeeds(net(j)) && !Exists(fs, ds[j])
      {
        assert ds[j] == FilePath(SanitizeFilename(company), BaseName(links[j]));
      }
      DownloadLinksAllFail(fs, ds, 0, net);
      assert ProcessCompany(fs, company, data, net) == DownloadLinks(fs, ds, 0, net);
    }
  }

  /** Re-running a company whose every link was downloaded downloads nothing
      more and reports the same count, whatever the network answers. */
  lemma ProcessCompanyRerun(fs: FileSystem, company: string, data: Option<Json>, net1: nat -> Answer, net2: nat -> Answer)
    requires data.Some?
    requires ProcessCompany(fs, company, data, net1).count == |ExtractLinks(data.value)|
    ensures var r1 := ProcessCompany(fs, company, data, net1);
            ProcessCompany(r1.fs, company, data, net2) == Tally(r1.count, r1.fs, 0)
  {
    var r1 := ProcessCompany(fs, company, data, net1);
    var links := ExtractLinks(data.value);
    if Truthy(data.value) && links != [] {
      var ds := Destinations(company, links);
      assert r1 == DownloadLinks(fs, ds, 0, net1);
      assert r1.count == |ds| - 0;
      AllPresentFetchesNothing(r1.fs, ds, 0, net2);
      assert ProcessCompany(r1.fs, company, data, net2) == DownloadLinks(r1.fs, ds, 0, net2);
    }
  }

  // ---------------------------------------------------------------------
  // load_companies_from_csv
  // ---------------------------------------------------------------------

  datatype Company = Company(name: string, symbol: string)

  /** One row as `csv.DictReader` yields it: the columns it has, each with
      its text, or `None` when the line had fewer fields than the header. */
  type Row = map<string, Option<string>>

  const NameColumn: string := "Company Name"
  const SymbolColumn: string := "Symbol"

  /** `row.get(column, '').strip()`: an absent column reads as the empty
      string; a `None` cell makes `strip()` raise, which is `None` here. */
  function Cell(row: Row, column: string): (r: Option<string>)
    ensures r.Some? ==> IsStripped(r.value)
    ensures column !in row ==> r == Some([])
    ensures r.None? <==> column in row && row[column].None?
    ensures column in row && row[column].Some? ==> r == Some(Strip(row[column].value))
  {
    if column !in row then Some([])
    else match row[column]
      case None => None
      case Some(s) => Some(Strip(s))
  }

  /** Reading the two cells of the row does not raise. */
  predicate Readable(row: Row) {
    Cell(row, NameColumn).Some? && Cell(row, SymbolColumn).Some?
  }

  /** A company as stored: both fields present, non-empty and stripped. */
  predicate ValidCompany(c: Company) {
    c.name != [] && c.symbol != [] && IsStripped(c.name) && IsStripped(c.symbol)
  }

  /** What one row contributes: its stripped fields when both read without
      raising and are non-empty, nothing otherwise. */
  function RowCompany(row: Row): (r: Option<Company>)
    ensures r.Some? ==> ValidCompany(r.value)
    ensures r.Some? <==> Readable(row) && Cell(row, NameColumn).value != [] && Cell(row, SymbolColumn).value != []
    ensures r.Some? ==> r.value.name == Cell(row, NameColumn).value && r.value.symbol == Cell(row, SymbolColumn).value
  {
    match (Cell(row, NameColumn), Cell(row, SymbolColumn))
    case (Some(name), Some(symbol)) =>
      if name != [] && symbol != [] then Some(Company(name, symbol)) else None
    case _ => None
  }

  /** The company one row contributes, as a list. */
  function RowList(row: Row): (r: seq<Company>)
    ensures |r| <= 1
  {
    match RowCompany(row) case Some(c) => [c] case None => []
  }

  predicate AllReadable(rows: seq<Row>) {
    forall i :: 0 <= i < |rows| ==> Readable(rows[i])
  }

  /** The filter loop over readable rows. */
  function KeepRows(rows: seq<Row>): (r: seq<Company>)
    ensures |r| <= |rows|
    ensures forall k :: 0 <= k < |r| ==> ValidCompany(r[k])
  {
    if rows == [] then []
    else
      RowList(rows[0]) + KeepRows(rows[1..])
  }

  /** Python `load_companies_from_csv` on the rows of the file. A row that
      makes `strip()` raise ends the whole load with an empty list. */
  function LoadCompanies(rows: seq<Row>): (r: seq<Company>)
    ensures !AllReadable(rows) ==> r == []
    ensures |r| <= |rows|
    ensures forall k :: 0 <= k < |r| ==> ValidCompany(r[k])
  {
    if AllReadable(rows) then KeepRows(rows) else []
  }

  lemma ReadableAppend(a: seq<Row>, b: seq<Row>)
    requires AllReadable(a) && AllReadable(b)
    ensures AllReadable(a + b)
  {
    forall i | 0 <= i < |a + b|
      ensures Readable((a + b)[i])
    {
      if i < |a| {
        assert (a + b)[i] == a[i];
      } else {
        assert (a + b)[i] == b[i - |a|];
      }
    }
  }

  /** The rows are read in order: loading two blocks of rows loads the
      first block's companies, then the second's. */
  lemma LoadAppend(a: seq<Row>, b: seq<Row>)
    requires AllReadable(a) && AllReadable(b)
    ensures LoadCompanies(a + b) == LoadCompanies(a) + LoadCompanies(b)
  {
    ReadableAppend(a, b);
    KeepAppend(a, b);
  }

  lemma {:induction false} KeepAppend(a: seq<Row>, b: seq<Row>)
    ensures KeepRows(a + b) == KeepRows(a) + KeepRows(b)
    decreases |a|
  {
    if a == [] {
      assert a + b == b;
    } else {
      var ab := a + b;
      assert ab[0] == a[0];
      assert ab[1..] == a[1..] + b;
      KeepAppend(a[1..], b);
    }
  }

  /** A company is loaded exactly when some row has it, once stripped, in
      both its fields. */
  lemma LoadedIffRow(rows: seq<Row>, c: Company)
    requires AllReadable(rows)
    ensures c in LoadCompanies(rows) <==> exists i :: 0 <= i < |rows| && RowCompany(rows[i]) == Some(c)
  {
    KeptIffRow(rows, c);
  }

  lemma {:induction false} KeptIffRow(rows: seq<Row>, c: Company)
    ensures c in KeepRows(rows) <==> exists i :: 0 <= i < |rows| && RowCompany(rows[i]) == Some(c)
    decreases |rows|
  {
    if rows != [] {
      var tail := rows[1..];
      KeptIffRow(tail, c);
      assert KeepRows(rows) == RowList(rows[0]) + KeepRows(tail);
      if c in KeepRows(rows) {
        if c in RowList(rows[0]) {
          assert RowCompany(rows[0]) == Some(c);
        } else {
          var i :| 0 <= i < |tail| && RowCompany(tail[i]) == Some(c);
          assert rows[i + 1] == tail[i];
        }
      }
      if exists i :: 0 <= i < |rows| && RowCompany(rows[i]) == Some(c) {
        var i :| 0 <= i < |rows| && RowCompany(rows[i]) == Some(c);
        if i == 0 {
          assert c in RowList(rows[0]);
        } else {
          assert tail[i - 1] == rows[i];
        }
      }
    }
  }

  // ---------------------------------------------------------------------
  // run_scraper
  // ---------------------------------------------------------------------

  function Min(a: int, b: int): int { if a <= b then a else b }
  function Max(a: int, b: int): int { if a <= b then b else a }

  /** Where the slice starts: `companies[start_from:]` is applied only for a
      positive `start_from`. */
  function SliceStart(n: nat, startFrom: int): (lo: nat)
    ensures lo <= n
  {
    if startFrom > 0 then Min(startFrom, n) else 0
  }

  /** `companies[start_from:]` when `start_from > 0`, then
      `companies[:max_companies]` when `max_companies` is truthy, with
      Python's slice rules (a negative bound counts from the end). */
  function SliceCompanies(cs: seq<Company>, maxCompanies: Option<int>, startFrom: int): (r: seq<Company>)
    ensures var lo := SliceStart(|cs|, startFrom);
            lo + |r| <= |cs| && forall i :: 0 <= i < |r| ==> r[i] == cs[lo + i]
    ensures maxCompanies.None? || maxCompanies.value == 0 ==>
            |r| == |cs| - SliceStart(|cs|, startFrom)
    ensures maxCompanies.Some? && maxCompanies.value > 0 ==>
            |r| == Min(maxCompanies.value, |cs| - SliceStart(|cs|, startFrom))
    ensures maxCompanies.Some? && maxCompanies.value < 0 ==>
            |r| == Max(0, |cs| - SliceStart(|cs|, startFrom) + maxCompanies.value)
  {
    var tail := if startFrom > 0 then cs[Min(startFrom, |cs|)..] else cs;
    if maxCompanies.None? || maxCompanies.value == 0 then tail
    else if maxCompanies.value > 0 then tail[..Min(maxCompanies.value, |tail|)]
    else tail[..Max(0, |tail| + maxCompanies.value)]
  }

  /** What happened to one company inside the `try` of the loop:
      `process_company` returned a count; it raised an ordinary exception
      (the loop goes on); the user interrupted it (the loop stops, nothing
      is counted); or the interrupt came during the pause after the count
      was already added. */
  datatype Outcome = Downloaded(n: nat) | Raised | Interrupted | InterruptedAfter(n: nat)

  /** The files an outcome adds to the total. */
  function Files(o: Outcome): nat {
    if o.Downloaded? || o.InterruptedAfter? then o.n else 0
  }

  predicate Stops(o: Outcome) {
    o.Interrupted? || o.InterruptedAfter?
  }

  /** The index of the first interrupt, or the length when there is none. */
  function FirstStop(os: seq<Outcome>): (k: nat)
    ensures k <= |os|
    ensures forall j :: 0 <= j < k ==> !Stops(os[j])
    ensures k < |os| ==> Stops(os[k])
  {
    if os == [] || Stops(os[0]) then 0 else 1 + FirstStop(os[1..])
  }

  /** The outcomes the loop gets to see: all of them, or those up to and
      including the first interrupt. */
  function Seen(os: seq<Outcome>): (r: seq<Outcome>)
    ensures |r| <= |os| && r == os[..|r|]
  {
    var k := FirstStop(os);
    if k < |os| then os[..k + 1] else os
  }

  /** Reference sums, defined from the back. */
  function TotalFiles(os: seq<Outcome>): nat {
    if os == [] then 0 else TotalFiles(os[..|os| - 1]) + Files(os[|os| - 1])
  }

  function WithDownloads(os: seq<Outcome>): nat {
    if os == [] then 0 else WithDownloads(os[..|os| - 1]) + (if Files(os[|os| - 1]) > 0 then 1 else 0)
  }

  /** Each company with downloads has at least one file: the company tally
      never exceeds the file total, nor the number of companies. */
  lemma {:induction false} WithDownloadsBounds(os: seq<Outcome>)
    ensures WithDownloads(os) <= TotalFiles(os)
    ensures WithDownloads(os) <= |os|
    decreases |os|
  {
    if os != [] {
      WithDownloadsBounds(os[..|os| - 1]);
    }
  }

  /** The totals of consecutive runs add up. */
  lemma {:induction false} TotalsAppend(a: seq<Outcome>, b: seq<Outcome>)
    ensures TotalFiles(a + b) == TotalFiles(a) + TotalFiles(b)
    ensures WithDownloads(a + b) == WithDownloads(a) + WithDownloads(b)
    decreases |b|
  {
    if b == [] {
      assert a + b == a;
    } else {
      var b' := b[..|b| - 1];
      assert (a + b)[..|a + b| - 1] == a + b';
      TotalsAppend(a, b');
    }
  }

  /** The outcome of each company of the batch, in order. */
  function Outcomes(batch: seq<Company>, process: (nat, Company) -> Outcome): (os: seq<Outcome>)
    ensures |os| == |batch|
  {
    seq(|batch|, i requires 0 <= i < |batch| => process(i, batch[i]))
  }

  /** The final report of `run_scraper`. */
  datatype Summary = Summary(processed: nat, withDownloads: nat, totalFiles: nat)

  /** The loop of `run_scraper` over the batch: it adds up the files and
      counts the companies with downloads, and stops after the first
      interrupt. */
  method Aggregate(batch: seq<Company>, process: (nat, Company) -> Outcome)
    returns (withDownloads: nat, totalFiles: nat)
    ensures var seen := Seen(Outcomes(batch, process));
            withDownloads == WithDownloads(seen) && totalFiles == TotalFiles(seen)
    ensures withDownloads <= totalFiles
  {
    ghost var os := Outcomes(batch, process);
    totalFiles := 0;
    withDownloads := 0;
    var i := 0;
    while i < |batch|
      invariant i <= |batch|
      invariant forall j :: 0 <= j < i ==> !Stops(os[j])
      invariant totalFiles == TotalFiles(os[..i])
      invariant withDownloads == WithDownloads(os[..i])
    {
      var o := process(i, batch[i]);
      assert o == os[i];
      totalFiles := totalFiles + Files(o);
      if Files(o) > 0 {
        withDownloads := withDownloads + 1;
      }
      PrefixStep(os, i);
      if Stops(o) {
        SeenAtStop(os, i);
        WithDownloadsBounds(os[..i + 1]);
        return;
      }
      i := i + 1;
    }
    SeenWithoutStop(os);
    WithDownloadsBounds(os);
  }

  /** One more outcome adds its files, and one company when it has any. */
  lemma PrefixStep(os: seq<Outcome>, i: nat)
    requires i < |os|
    ensures TotalFiles(os[..i + 1]) == TotalFiles(os[..i]) + Files(os[i])
    ensures WithDownloads(os[..i + 1]) == WithDownloads(os[..i]) + (if Files(os[i]) > 0 then 1 else 0)
  {
    assert os[..i + 1][..i] == os[..i];
  }

  /** The loop sees the outcomes up to and including the first interrupt. */
  lemma SeenAtStop(os: seq<Outcome>, i: nat)
    requires i < |os| && Stops(os[i])
    requires forall j :: 0 <= j < i ==> !Stops(os[j])
    ensures Seen(os) == os[..i + 1]
  {
    assert FirstStop(os) == i;
  }

  lemma SeenWithoutStop(os: seq<Outcome>)
    requires forall j :: 0 <= j < |os| ==> !Stops(os[j])
    ensures Seen(os) == os[..|os|]
  {
    assert FirstStop(os) == |os|;
  }

  /** Python `run_scraper`, from the CSV rows on. No summary is reported
      when no company was loaded. Otherwise the processed count is the size
      of the slice even when an interrupt cut the loop short, and the two
      tallies add up the outcomes the loop saw. */
  method RunScraper(rows: seq<Row>, maxCompanies: Option<int>, startFrom: int, process: (nat, Company) -> Outcome)
    returns (r: Option<Summary>)
    ensures r.None? <==> LoadCompanies(rows) == []
    ensures r.Some? ==>
      var batch := SliceCompanies(LoadCompanies(rows), maxCompanies, startFrom);
      var seen := Seen(Outcomes(batch, process));
      r.value == Summary(|batch|, WithDownloads(seen), TotalFiles(seen))
    ensures r.Some? ==> r.value.withDownloads <= r.value.totalFiles
  {
    var companies := LoadCompanies(rows);
    if companies == [] {
      return None;
    }
    var batch := SliceCompanies(companies, maxCompanies, startFrom);
    var withDownloads, totalFiles := Aggregate(batch, process);
    return Some(Summary(|batch|, withDownloads, totalFiles));
  }
}
