# NSE annual-report scraper, modelled in Dafny

This project models the pure core of the two NSE annual-report scrapers,
`scrape_reports_curl.py` (downloads go through a `curl` subprocess) and
`scrape_annual_reports.py` (downloads go through a `requests` session). Most
of what they do is HTTP, subprocess and file-system plumbing. The core that
can be stated exactly is modelled and proved:

- `clean_company_name`: the regular expression
  `\s+(LIMITED|LTD\.?|PRIVATE|PVT\.?|COMPANY|CO\.?|CORPORATION|CORP\.?)$` with
  `re.IGNORECASE`, applied with `re.sub` and followed by `strip()`
  (`company_name.dfy`);
- `get_company_symbol`, which exists only in `scrape_annual_reports.py`
  (`company_name.dfy`);
- `sanitize_filename` (`sanitize.dfy`);
- `extract_download_links_from_response` and its inner
  `find_links_recursive`, over a JSON datatype (`links.dfy`);
- the existence check, success test and clean-up of `download_file_curl`,
  and the existence check and status test of `download_file`, over a file
  system `map<FilePath, nat>` of file sizes (`download.dfy`);
- the counting in `process_company`, the row filter of
  `load_companies_from_csv`, and the slicing and aggregation of
  `run_scraper` (`batch.dfy`).

The two scrapers share all of this except the download routine and
`get_company_symbol`. The shared logic is modelled once. The two download
routines are separate functions, and `Download.Fetch` picks one by the kind
of answer it is given.

`wrappers.dfy` holds `Option`, Python's `None` next to a value. `text.dfy`
holds the Python string operations the rest relies on. Whitespace
is exactly the set that Python's `str.isspace()` accepts, which is also what
`\s` matches in a `str` pattern. Upper-casing is ASCII only.

The network, the `curl` process, the search API and the per-company work of
the batch loop are parameters. The search result arrives as an
`Option<Json>`, where `None` stands for a failed search. Each download gets
an `Answer`: what `curl` reported and left on disk, or the HTTP status and
body size, or an exception. `run_scraper` gets an `Outcome` per company.

Python's `$` also matches just before a final newline, and the model keeps
that rule (`CompanyName.AtDollar`).

The extractor tests only strings that are values of a mapping. A string
that is a list element is handed back to `find_links_recursive`. That call
matches neither the mapping branch nor the list branch, so the string is
never collected, even when it is a valid archive link. Some descriptions
of the extractor say that list elements are examined too. The model follows
the code, and `Links.ListStringsIgnored` states this behaviour.

## Model

| member | source | states |
|---|---|---|
| `CompanyName.FindSuffix` | scrape_reports_curl.py:74 | The span `re.sub` removes is a match of the pattern: a non-empty whitespace run, then a suffix token in any ASCII case, then the end of the string or a final newline. It is the leftmost match. Every match shares its token and its end. When the result is `None`, the name has no match at all. |
| `CompanyName.MatchTail` | scrape_annual_reports.py:56 | Any two matches of the pattern in one name have the same token and the same end. So at most one suffix token can ever be removed. |
| `CompanyName.CleanName` | scrape_reports_curl.py:72-75 | The cleaned name is stripped and never longer than the input. A name with no match is only stripped. A name with a match loses at least three characters: whitespace plus a token of at least two characters. |
| `CompanyName.CleanNameDropsSuffix` | scrape_reports_curl.py:74-75 | For any text `s`, any non-empty whitespace run, any suffix token in any case, and an optional final newline, the cleaned name is exactly `strip(s)`. Only that one token and its whitespace go, even when `s` itself ends in another suffix token. |
| `CompanyName.BareTokenKept` | scrape_annual_reports.py:56-57 | A name that is just a suffix token has no whitespace before the token, so it comes back unchanged. |
| `CompanyName.CleanNameSample` | test_scraper.py:19 | `"Reliance Industries LIMITED"` cleans to `"Reliance Industries"`. |
| `CompanyName.CleanNameRemovesOnce` | scrape_reports_curl.py:74 | `"Foo LIMITED LIMITED"` cleans to `"Foo LIMITED"`: only one trailing token is removed. |
| `CompanyName.CompanySymbol` | scrape_annual_reports.py:59-67 | The guessed symbol has at most six characters and no ASCII lower-case letter. With two or more words it has at least two characters (three with three or more words) and starts with the upper-cased first letter of the first word. With fewer than two words it is the first `min(len(name), 6)` characters of the name, each upper-cased. |
| `CompanyName.SymbolOfTwoWords` | scrape_annual_reports.py:63-65 | A name of exactly two words, separated by any whitespace run and with any whitespace before the first or after the second, gives the two-character initials of each word, concatenated. |
| `CompanyName.SymbolOfManyWords` | scrape_annual_reports.py:63-65 | With three or more words, only the first three contribute their initials. Whitespace before the first word and anything after the third word are ignored. The third word may also end the name. |
| `CompanyName.SymbolIgnoresCase` | scrape_annual_reports.py:63-67 | Upper-casing the name first does not change the guessed symbol. |
| `Text.Words` | scrape_annual_reports.py:63 | `split()` gives non-empty words without whitespace. Their concatenation is exactly the non-whitespace characters of the input, in order. |
| `Text.Strip` | scrape_reports_curl.py:75 | `strip()` output is a contiguous piece of the input with only whitespace before and after it, and it has no whitespace at either end. It is never longer than its input, and it is empty exactly when the input is all whitespace. |
| `Text.StripIdempotent` | scrape_reports_curl.py:185 | Stripping twice is the same as stripping once. |
| `Sanitize.ReplaceEachPointwise` | scrape_reports_curl.py:183-184 | The sequential `str.replace` loop keeps the length. It turns a character into `_` exactly when that character is one of the replaced set, because `_` is never itself replaced. |
| `Sanitize.Replaced` | scrape_annual_reports.py:140-142 | Before the strip, the name keeps its length and contains none of `<>:"/\|?*`. |
| `Sanitize.ReplaceLoop` | scrape_annual_reports.py:140-142 | The loop of nine `str.replace` calls, in the source's order, gives the same string as replacing each forbidden character by `_` independently, every other character staying in its place. |
| `Sanitize.SanitizeFilename` | scrape_reports_curl.py:180-185 | A sanitized name contains none of `<>:"/\|?*`, is stripped, and is never longer than the input. |
| `Sanitize.SanitizeIdempotent` | scrape_annual_reports.py:137-143 | Sanitizing a sanitized name changes nothing. |
| `Sanitize.SanitizeCommutes` | scrape_reports_curl.py:180-185 | Replacing and then stripping gives the same name as stripping and then replacing. So whitespace and allowed characters keep their relative order. |
| `Links.ContainsInfix` | scrape_reports_curl.py:198 | Python `sub in s` holds whenever `s` is `a + sub + b`. |
| `Links.ContainsSplits` | scrape_reports_curl.py:198 | Conversely, `sub in s` holds only when `s` is `a + sub + b` for some `a` and `b`. |
| `Links.Walk` | scrape_reports_curl.py:194-204 | Everything the recursive walk appends ends in `.pdf` or `.zip` and contains `nsearchives.nseindia.com`. |
| `Links.ExtractLinks` | scrape_reports_curl.py:187-207 | A top-level value that is not a mapping, or an empty mapping, yields `[]`. Every returned link passes both tests. For a mapping, the result is exactly the mapping-value strings, depth first and duplicates kept, filtered by the two tests. |
| `Links.WalkIsFilter` | scrape_annual_reports.py:155-166 | The walk of any value equals the filter applied to the independently defined list of strings in mapping-value positions, in depth-first order. |
| `Links.ListStringsIgnored` | scrape_reports_curl.py:202-204 | A valid archive link that is a list element is not collected. |
| `Links.MemberLinkCollected` | scrape_annual_reports.py:157-160 | A valid archive link that is the value of a mapping entry is collected. |
| `Links.ExtractSplitsMembers` | scrape_annual_reports.py:157-162 | Mapping entries are searched in order: the links of `a + b` are the links of `a` followed by the links of `b`. |
| `Download.BaseName` | scrape_reports_curl.py:131-132 | The base name is a suffix of the path. It contains no `/`, and when it is shorter than the path the character before it is `/`. |
| `Download.BaseNameOfJoin` | scrape_reports_curl.py:132 | The base name of `dir + "/" + name` is `name` whenever `name` contains no `/`. |
| `Download.FileName` | scrape_annual_reports.py:103-104 | An explicit non-empty file name is used as given. Otherwise the name is the text after the last `/` of the URL: it ends the URL, has no `/`, and the character before it, if any, is `/`. |
| `Download.Destination` | scrape_reports_curl.py:131-138 | A download goes into the directory named by the sanitized company name, which holds no forbidden character, under the name `FileName` chooses. |
| `Download.DownloadCurl` | scrape_reports_curl.py:141-174 | An existing destination gives `True` with no transfer and no change. Otherwise the transfer happens, and it succeeds exactly when curl exits with code 0 and leaves a non-empty file, whose size is then what curl wrote. Failure leaves no file there, so the file system is as it was before the call. Nothing but the destination changes. |
| `Download.DownloadRequests` | scrape_annual_reports.py:113-131 | An existing destination gives `True` with no request and no change. Otherwise success holds exactly when the status is 200, and the body is written at the destination. Failure writes and removes nothing. Nothing but the destination changes. |
| `Download.Fetch` | scrape_reports_curl.py:141-174 | In both variants, a missing destination is fetched, and the fetch succeeds exactly when the answer `Succeeds`: curl exits with code 0 leaving a non-empty file, or the status is 200. Success means the destination exists afterwards. Failure leaves the file system as it was, with the destination still missing. Existing files keep their sizes, and only the destination can appear. |
| `Download.DirectoryLinkSucceeds` | scrape_reports_curl.py:135-143 | `file_path.exists()` holds for a name that is empty, `.` or `..`: pathlib drops the first two, and the company directory it then denotes was created just before. Such a link is a success without a transfer and changes nothing, whatever the network would answer. |
| `Download.SlashLinkSucceeds` | scrape_annual_reports.py:107-116 | A link whose URL ends in `/` has an empty base name, so it is a success without a transfer and changes nothing. |
| `Download.DownloadTwiceFetchesOnce` | scrape_annual_reports.py:113-115 | After a successful download, downloading the same destination again succeeds without going to the network and changes nothing, whatever the network would answer. |
| `Download.CurlFailureRetries` | scrape_reports_curl.py:170-174 | After a failed curl download, the next call for the same destination goes to the network again, because the partial file was removed. |
| `Download.RequestsFailureUnchanged` | scrape_annual_reports.py:129-131 | A failed `requests` download leaves the file system as it was, and the destination still does not exist. |
| `Download.EmptyBodyVariants` | scrape_reports_curl.py:167-174 | An empty download is a failure with the file removed in the curl variant. In the `requests` variant it is a success that keeps an empty file. |
| `Batch.Destinations` | scrape_reports_curl.py:234-235 | Each link of a company is stored in the sanitized company directory under the link's base name, since the loop passes no file name. |
| `Batch.DownloadLinks` | scrape_reports_curl.py:232-239 | The success count and the number of network calls are at most the number of links. Existing files are kept, and new files appear only at the links' destinations. When every link succeeds, every destination exists afterwards. Every link whose answer succeeds is counted: the count is at least the number of succeeding answers. |
| `Batch.ProcessCompany` | scrape_reports_curl.py:209-242 | A failed or falsy search result, or a result without links, gives 0 and changes nothing. Otherwise the count lies between the number of succeeding answers and the number of extracted links. Existing files are kept, and new files appear only in the company directory. |
| `Batch.DownloadLinksAllSucceed` | scrape_reports_curl.py:232-239 | When every answer succeeds, every link is counted. |
| `Batch.DownloadLinksAllFail` | scrape_reports_curl.py:232-239 | When no destination exists yet and every answer fails, every link goes to the network, none is counted and the file system is as before. |
| `Batch.DownloadLinksFresh` | scrape_reports_curl.py:232-239 | With distinct destinations, none of which exists yet, every link goes to the network and the count is exactly the number of succeeding answers. |
| `Batch.ProcessCompanyAllSucceed` | scrape_reports_curl.py:209-242 | After a truthy search result, when every download succeeds, the count is the number of extracted links. |
| `Batch.ProcessCompanyAllFail` | scrape_reports_curl.py:209-242 | After a truthy search result, when none of the company's files exists and every download fails, the count is 0, one network call is made per link and no file changes. |
| `Batch.AllPresentFetchesNothing` | scrape_annual_reports.py:193-198 | When every destination already exists, every link counts as a success, no file changes and the network is never used. |
| `Batch.ProcessCompanyRerun` | scrape_annual_reports.py:170-203 | Processing a company again after all its links were downloaded reports the same count, changes nothing and makes no network call, whatever the network answers. |
| `Batch.Cell` | scrape_reports_curl.py:252-253 | An absent column reads as the empty string, and a present cell reads as its text stripped. A `None` cell is exactly the case where `strip()` raises. |
| `Batch.RowCompany` | scrape_annual_reports.py:213-217 | A row contributes a company exactly when both cells read without raising and both stripped values are non-empty. The company holds those stripped values. |
| `Batch.LoadCompanies` | scrape_reports_curl.py:244-262 | A row whose cell makes `strip()` raise empties the whole result. Every loaded company has non-empty, stripped name and symbol. There are never more companies than rows. |
| `Batch.LoadAppend` | scrape_annual_reports.py:211-217 | Rows are read in order: loading `a + b` gives the companies of `a` followed by the companies of `b`. |
| `Batch.LoadedIffRow` | scrape_annual_reports.py:213-217 | A company is loaded exactly when some row has it, after stripping, in both its fields. |
| `Batch.SliceCompanies` | scrape_reports_curl.py:282-288 | The batch is a contiguous window of the list. It starts at `start_from` when that is positive, and at 0 otherwise. Without a limit or with a zero limit, it runs to the end. A positive limit `m` gives `min(m, rest)` companies, and a negative one drops `-m` companies from the end. |
| `Batch.FirstStop` | scrape_reports_curl.py:306-308 | The loop stops at the first interrupt: no earlier company was interrupted, and the company at the stop index was. |
| `Batch.WithDownloadsBounds` | scrape_annual_reports.py:258-262 | The number of companies with downloads is at most the total number of files, and at most the number of companies. |
| `Batch.TotalsAppend` | scrape_reports_curl.py:294-300 | Both tallies add up over consecutive runs of companies. |
| `Batch.Aggregate` | scrape_reports_curl.py:294-311 | The loop's file total is the sum of the per-company counts, and its company tally is the number of non-zero counts. Both cover the companies up to and including the first interrupt; a company that raised adds nothing. The tally never exceeds the total. |
| `Batch.RunScraper` | scrape_annual_reports.py:233-280 | No summary is given when no company loads. Otherwise the processed count is the size of the sliced batch, even after an interrupt. The two tallies are the sums the aggregation defines over the outcomes the loop saw. |

## Left out

- Cookie bootstrap (`get_initial_cookies`) and the search requests (`search_company_reports`, `search_company_reports_curl`) are left out. They are network and process I/O; their result enters `Batch.ProcessCompany` as an `Option<Json>`.
- JSON decoding is left out, because it is a library call. Numbers are integers, which is enough for truthiness. Duplicate keys are not modelled: a mapping is a list of entries in decoder order.
- Reading the CSV file is left out. The rows arrive already split, as `csv.DictReader` yields them. A failure to open the file is not modelled; it would also return `[]`.
- Paths are compared as exact strings, as on a POSIX file system: two names that differ only in case are different files, and `os.path.basename` splits only on `/`. Case-insensitive file systems and `\` separators are not modelled.
- `unquote` in the curl variant and `urlparse(url).path` in the `requests` variant are left out, because they are library calls. `Download.BaseName` takes the text after the last `/` of the URL as given, so percent-decoding, queries and fragments are not modelled.
- `mkdir`, `time.sleep`, every `print`, and `cleanup()` of the temporary directory are left out. They have no result the model could state. The company directory is assumed to exist once created.
- Download.DownloadRequests: an exception raised while the body is being written, which leaves a partial file behind, is not modelled. Only an exception from the request itself (`HttpRaised`) is.
- Batch.Aggregate: the per-company outcome comes from an oracle and is not tied to `Batch.ProcessCompany` with a threaded file system. An exception inside `process_company` after some files were written leaves those files on disk, but the model counts them nowhere.
- CompanyName.CleanName: case-insensitive matching is ASCII only. Python's `re.IGNORECASE` also lets `'İ'` (U+0130) and `'ı'` (U+0131) match `I`, which matters for `LIMITED`, `PRIVATE` and `CORPORATION`; that folding is not modelled.
- CompanyName.CompanySymbol: `upper()` is ASCII only. Python's full Unicode `upper()` can lengthen a string (`'ß'` becomes `'SS'`), and that would break the six-character bound; this is not modelled.
- `test_scraper.py` is a live-network driver with no assertions. Only its sample name is used, in `CompanyName.CleanNameSample`.
