/**
  The two download routines over an abstract file system: `download_file_curl`
  (the curl variant) and `download_file` (the `requests` variant).

  A file system maps each existing file to its size in bytes. The network,
  and the curl process, are an answer handed in as a parameter: what curl
  reported and left on disk, or what HTTP status and body the server sent.
 */
module Download {
  import opened Wrappers
  import opened Text
  import opened Sanitize
  import Links

  /** `downloads_dir / sanitize_filename(company_name) / filename`. */
  datatype FilePath = FilePath(dir: string, name: string)

  /** The files that exist, with their sizes. */
  type FileSystem = map<FilePath, nat>

  /** A file name that makes `dir / name` denote a directory rather than a
      file: the empty name (pathlib drops it), `.` and `..`. */
  predicate NamesDirectory(name: string) {
    name == "" || name == "." || name == ".."
  }

  /** `file_path.exists()`. The company directory and its parent were created
      just before the test, so a directory name always exists. */
  predicate Exists(fs: FileSystem, p: FilePath) {
    NamesDirectory(p.name) || p in fs
  }

  /** `os.path.basename`: the text after the last `/`. */
  function BaseName(path: string): (r: string)
    ensures |r| <= |path| && r == path[|path| - |r|..]
    ensures '/' !in r
    ensures |r| < |path| ==> path[|path| - |r| - 1] == '/'
  {
    if path == [] || path[|path| - 1] == '/' then []
    else BaseName(path[..|path| - 1]) + [path[|path| - 1]]
  }

  /** The base name of a path whose last component is `name` is `name`. */
  lemma {:induction false} BaseNameOfJoin(dir: string, name: string)
    requires '/' !in name
    ensures BaseName(dir + "/" + name) == name
    decreases |name|
  {
    var path := dir + "/" + name;
    if name == [] {
      assert path[|path| - 1] == '/';
    } else {
      var init := name[..|name| - 1];
      assert path[..|path| - 1] == dir + "/" + init;
      assert path[|path| - 1] == name[|name| - 1];
      BaseNameOfJoin(dir, init);
      assert init + [name[|name| - 1]] == name;
    }
  }

  /** The name a download is stored under: `filename` when it is truthy,
      else the base name of the URL. */
  function FileName(url: string, filename: Option<string>): (r: string)
    ensures filename.Some? && filename.value != [] ==> r == filename.value
    ensures filename.None? || filename.value == [] ==> '/' !in r && Links.EndsWith(url, r)
    ensures filename.None? || filename.value == [] ==> |r| < |url| ==> url[|url| - |r| - 1] == '/'
  {
    if filename.None? || filename.value == [] then BaseName(url) else filename.value
  }

  /** Where a link for a company is stored. */
  function Destination(company: string, url: string, filename: Option<string>): (p: FilePath)
    ensures p.dir == SanitizeFilename(company)
    ensures Sanitize.NoInvalid(p.dir)
    ensures p.name == FileName(url, filename)
  {
    FilePath(SanitizeFilename(company), FileName(url, filename))
  }

  /** What running curl did: it raised before finishing (for instance, curl
      is not installed), or it exited with a code and left a file of some
      size at the output path, or none. */
  datatype CurlAnswer = CurlRaised | CurlRun(exitCode: int, written: Option<nat>)

  /** What `session.get` did: it raised, or the server answered with a
      status and a body of `size` bytes. */
  datatype HttpAnswer = HttpRaised | HttpResponse(status: int, size: nat)

  /** The answer to one download, from whichever variant is in use. */
  datatype Answer = ViaCurl(curl: CurlAnswer) | ViaRequests(http: HttpAnswer)

  /** The boolean the routine returns, the file system afterwards, and
      whether it went to the network at all. */
  datatype Attempt = Attempt(ok: bool, fs: FileSystem, fetched: bool)

  /** Nothing but the entry for `p` may differ between `fs` and `fs'`. */
  predicate OnlyAt(fs: FileSystem, fs': FileSystem, p: FilePath) {
    fs' - {p} == fs - {p}
  }

  /** Every file of `fs` is still in `fs'`, with the same size. */
  predicate KeepsFiles(fs: FileSystem, fs': FileSystem) {
    forall q :: q in fs ==> q in fs' && fs'[q] == fs[q]
  }

  /** `download_file_curl`: an existing destination is success without a
      transfer. Otherwise success needs exit code 0 and a non-empty file at
      the destination; on failure whatever curl left there is deleted. */
  function DownloadCurl(fs: FileSystem, p: FilePath, a: CurlAnswer): (r: Attempt)
    ensures Exists(fs, p) ==> r == Attempt(true, fs, false)
    ensures r.fetched <==> !Exists(fs, p)
    ensures r.ok && r.fetched ==> p in r.fs && r.fs[p] > 0
    ensures !r.ok ==> p !in r.fs && r.fs == fs
    ensures r.fetched ==> (r.ok <==> a.CurlRun? && a.exitCode == 0 && a.written.Some? && a.written.value > 0)
    ensures r.ok && r.fetched ==> r.fs[p] == a.written.value
    ensures OnlyAt(fs, r.fs, p)
  {
    if Exists(fs, p) then Attempt(true, fs, false)
    else
      match a
      case CurlRaised => Attempt(false, fs, true)
      case CurlRun(code, written) =>
        var fs1 := if written.Some? then fs[p := written.value] else fs;
        if code == 0 && p in fs1 && fs1[p] > 0 then Attempt(true, fs1, true)
        else
          assert fs1 - {p} == fs;
          Attempt(false, fs1 - {p}, true)
  }

  /** `download_file`: an existing destination is success without a
      request. Otherwise it succeeds exactly on status 200, writing the body
      (which may be empty); on failure it writes and removes nothing. */
  function DownloadRequests(fs: FileSystem, p: FilePath, a: HttpAnswer): (r: Attempt)
    ensures Exists(fs, p) ==> r == Attempt(true, fs, false)
    ensures r.fetched <==> !Exists(fs, p)
    ensures r.fetched ==> (r.ok <==> a.HttpResponse? && a.status == 200)
    ensures r.ok && r.fetched ==> p in r.fs && r.fs[p] == a.size
    ensures !r.ok ==> r.fs == fs
    ensures OnlyAt(fs, r.fs, p)
  {
    if Exists(fs, p) then Attempt(true, fs, false)
    else
      match a
      case HttpRaised => Attempt(false, fs, true)
      case HttpResponse(status, size) =>
        if status == 200 then Attempt(true, fs[p := size], true)
        else Attempt(false, fs, true)
  }

  /** The answers on which a download that goes to the network succeeds:
      curl exits with code 0 leaving a non-empty file, or the server answers
      with status 200. */
  predicate Succeeds(a: Answer) {
    match a
    case ViaCurl(c) => c.CurlRun? && c.exitCode == 0 && c.written.Some? && c.written.value > 0
    case ViaRequests(h) => h.HttpResponse? && h.status == 200
  }

  /** One download, by the variant the answer comes from. */
  function Fetch(fs: FileSystem, p: FilePath, a: Answer): (r: Attempt)
    ensures Exists(fs, p) ==> r == Attempt(true, fs, false)
    ensures !Exists(fs, p) ==> r.fetched && (r.ok <==> Succeeds(a))
    ensures !r.ok ==> r.fs == fs && !Exists(r.fs, p)
    ensures r.ok ==> Exists(r.fs, p)
    ensures OnlyAt(fs, r.fs, p)
    ensures KeepsFiles(fs, r.fs)
    ensures forall q :: q in r.fs ==> q in fs || q == p
  {
    match a
    case ViaCurl(c) => DownloadCurl(fs, p, c)
    case ViaRequests(h) => DownloadRequests(fs, p, h)
  }

  /** A link whose base name is empty, `.` or `..` (a URL ending in `/`,
      say) denotes the company directory itself, which was just created, so
      it counts as a success without a transfer and changes nothing. */
  lemma DirectoryLinkSucceeds(fs: FileSystem, company: string, url: string, a: Answer)
    requires NamesDirectory(BaseName(url))
    ensures Exists(fs, Destination(company, url, None))
    ensures Fetch(fs, Destination(company, url, None), a) == Attempt(true, fs, false)
  {
  }

  /** A link ending in `/` is such a link. */
  lemma SlashLinkSucceeds(fs: FileSystem, company: string, url: string, a: Answer)
    requires url != [] && url[|url| - 1] == '/'
    ensures Fetch(fs, Destination(company, url, None), a) == Attempt(true, fs, false)
  {
    DirectoryLinkSucceeds(fs, company, url, a);
  }

  /** Downloading the same destination again after a success goes to the
      network no more: the second call succeeds and changes nothing,
      whatever the network would have answered. */
  lemma DownloadTwiceFetchesOnce(fs: FileSystem, p: FilePath, a1: Answer, a2: Answer)
    requires Fetch(fs, p, a1).ok
    ensures Fetch(Fetch(fs, p, a1).fs, p, a2) == Attempt(true, Fetch(fs, p, a1).fs, false)
  {
  }

  /** A failed curl download leaves nothing behind, so the next call tries
      the network again. */
  lemma CurlFailureRetries(fs: FileSystem, p: FilePath, a1: CurlAnswer, a2: CurlAnswer)
    requires !NamesDirectory(p.name)
    requires !DownloadCurl(fs, p, a1).ok
    ensures DownloadCurl(DownloadCurl(fs, p, a1).fs, p, a2).fetched
  {
  }

  /** A failed `requests` download leaves the file system as it was. */
  lemma RequestsFailureUnchanged(fs: FileSystem, p: FilePath, a: HttpAnswer)
    requires !DownloadRequests(fs, p, a).ok
    ensures DownloadRequests(fs, p, a).fs == fs && !Exists(fs, p)
  {
  }

  /** The two variants disagree on an empty body: curl counts it as a
      failure and removes the file, `requests` counts it as a success and
      keeps the empty file. */
  lemma EmptyBodyVariants(fs: FileSystem, p: FilePath)
    requires !Exists(fs, p)
    ensures !DownloadCurl(fs, p, CurlRun(0, Some(0))).ok
    ensures p !in DownloadCurl(fs, p, CurlRun(0, Some(0))).fs
    ensures DownloadRequests(fs, p, HttpResponse(200, 0)).ok
    ensures DownloadRequests(fs, p, HttpResponse(200, 0)).fs[p] == 0
  {
  }
}
