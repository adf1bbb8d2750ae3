# Link checker model

A Dafny model of the core of `linkChecker.py`, a command-line tool that takes the links of one rendered web page and checks each of them over HTTP. The model covers three pieces:

- **The link filter and extractor** (`is_http_url`, `extract_links`). This decides which anchor `href` values are navigable. It resolves them against the page URL, removes duplicates and returns them sorted.
- **The link verdict policy** (`check_link`). A HEAD request is sent first. GET is sent only when HEAD fails in transit. An error verdict follows when GET fails as well.
- **The run** (`main`). First the page is obtained. When it cannot be obtained, the run exits with status 1. When it has no checkable links, the run exits with status 0. Otherwise every link is checked in sorted order and the broken ones are tallied for the summary.

Modules, in dependency order:

- `Text` (`text.dfy`) holds Python's `str.isspace`, `strip`, ASCII `lower` and `str(int)`. It also proves that `str(int)` can be parsed back to the same integer.
- `Sorting` (`sorting.dfy`) holds Python's string order and `sorted()` applied to a set. It proves that the sorted list is the only strictly ascending list with those elements.
- `Url` (`url.dfy`) holds the scheme that `urlparse` reports, as a simplified model of section 3.1 of RFC 3986.
- `Links` (`links.dfy`) holds `is_http_url` and `extract_links`. The latter is a method with a loop, proved against the set function `Checkable`.
- `Checker` (`checker.dfy`) holds `check_link` as a function of the HEAD outcome and the GET outcome. Its result also lists the requests actually sent, so "GET is never sent" can be stated and proved.
- `Pipeline` (`pipeline.dfy`) holds the tally loop of `main`, a method proved against `BrokenOf`. It also holds the page-loading choice, the run as a function (`RunResult`) and as a method (`Run`), and the exit status.

The external parts become inputs:

- The HTML parser's output is taken as the sequence of `href` values of the page's `<a href>` elements, in document order.
- `urljoin` is the function parameter `join`. The general lemmas assume nothing about it. The two end-to-end scenario lemmas (`Pipeline.ScenarioSingleReachableLink`, `Pipeline.ScenarioRelativeBrokenLink`) take its value on their one href as a hypothesis.
- The HEAD and GET requests are represented by their outcomes: `Status(code)` for a response after redirects, `Transport(msg)` for a `requests.RequestException`.
- The headless browser's result is a value: `Rendered(hrefs)` or `RenderError(msg)`.
- In the run, the per-link check is a function parameter. Any checker can be supplied. `Checker.LinkChecker` builds `check_link` itself from what HEAD and GET would produce for each URL, and the scenario lemmas use it.

Four behaviours of the code deserve a note, because they are easy to misread:

- **Whitespace-only hrefs are accepted.** The emptiness test at `linkChecker.py:29` comes before the `strip()` at line 31. So `"  "` passes the test, strips to `""`, has no scheme and is accepted (`Links.WhitespaceHrefAccepted`).
- **`urljoin` gets the href unstripped**, as at line 54.
- **There is no 403/405 fallback to GET.** The comment at line 81 ("fall back to GET if needed") and the message at line 88 ("HEAD not reliable") show that a HEAD answer of 403 or 405 was meant to be retried with GET. But the `>= 400` test at lines 85-86 already returns for those codes, so the branch at lines 87-88 never runs (see Findings).
- **Only a status from 400 to 599 is fatal** for the `--no-js` fetch, because `raise_for_status()` at line 123 raises only for those (`Pipeline.LoadPage`). Any other status goes on to link extraction.

## Model

| member | source | states |
|---|---|---|
| `Text.IsSpace` | linkChecker.py:31 | the characters `str.isspace()` holds true for, which `strip()` removes; see `Text.LStrip`, `Text.RStrip` and `Text.StripEmptyIffAllSpace` |
| `Text.LStrip` | linkChecker.py:31 | the result is the suffix of the input that starts at its first non-whitespace character; everything cut off is whitespace |
| `Text.RStrip` | linkChecker.py:31 | the result is the prefix of the input that ends at its last non-whitespace character; everything cut off is whitespace |
| `Text.Strip` | linkChecker.py:31 | `strip()` leaves a piece of the href with only whitespace before and after it, and that piece neither starts nor ends with whitespace |
| `Text.StripEmptyIffAllSpace` | linkChecker.py:31 | `strip()` gives `""` exactly when every character of the href is whitespace |
| `Text.StripKeepsPrefix` | linkChecker.py:31-35 | a prefix that begins and ends with non-whitespace is still a prefix after `strip()` |
| `Text.IntToString` | linkChecker.py:86 | the text of a status code is non-empty and starts with `-` exactly when the code is negative; see `Text.ParseIntToString` for its value |
| `Text.LowerAscii` | linkChecker.py:32 | the lower-cased scheme has the same length and no ASCII capital; every other character is kept, and each capital becomes its small letter |
| `Text.LowerAsciiIdempotent` | linkChecker.py:32 | lower-casing an already lower-cased scheme changes nothing |
| `Text.NatToString` | linkChecker.py:86 | the decimal text of a status code is non-empty, all digits, with no leading zero |
| `Text.ParseIntToString` | linkChecker.py:86 | the code written into `"HTTP <code> (...)"` can be read back exactly (decimal round trip) |
| `Sorting.Le` | linkChecker.py:59 | Python's `<=` on `str`, by code point with a proper prefix first; see `Sorting.LeReflexive`, `Sorting.LeAntisymmetric`, `Sorting.LeTransitive` and `Sorting.LeTotal` |
| `Sorting.Lt` | linkChecker.py:59 | Python's `<` on `str`, the order `sorted()` puts the links in; see `Sorting.SortSet` |
| `Sorting.LeReflexive` | linkChecker.py:59 | every string is at most itself |
| `Sorting.LeAntisymmetric` | linkChecker.py:59 | two strings that are each at most the other are equal |
| `Sorting.LeTransitive` | linkChecker.py:59 | Python's string order is transitive |
| `Sorting.LeTotal` | linkChecker.py:59 | any two strings are comparable |
| `Sorting.LeastExists` | linkChecker.py:59 | every non-empty set of URLs has a least element |
| `Sorting.SortSet` | linkChecker.py:59 | `sorted(links)` is strictly ascending, has exactly the set's elements, and has the set's size |
| `Sorting.AscendingUnique` | linkChecker.py:59 | two strictly ascending lists with the same elements are equal, so `sorted` has only one possible answer |
| `Url.IsAsciiLetter` | linkChecker.py:32 | urlsplit's `url[0].isascii() and url[0].isalpha()` test on the first character of a scheme; see `Url.NoSchemeWithoutLeadingLetter` |
| `Url.IsSchemeChar` | linkChecker.py:32 | urllib's `scheme_chars`: ASCII letters, digits, `+`, `-` and `.`; see `Url.NoSchemeWithForeignChar` |
| `Url.IsSchemeToken` | linkChecker.py:32 | a non-empty run of scheme characters that starts with an ASCII letter; see `Url.SchemeOfPrefix`, `Url.NoSchemeWithoutLeadingLetter` and `Url.SchemeIsLeadingToken` |
| `Url.FindColon` | linkChecker.py:32 | the index is that of the first `:` (or the length when there is none), and no earlier character is `:` |
| `Url.Scheme` | linkChecker.py:32 | `urlparse(href).scheme`; see `Url.SchemeOfPrefix`, `Url.NoSchemeWithoutLeadingLetter` and `Url.SchemeIsLeadingToken` |
| `Url.SchemeOfPrefix` | linkChecker.py:32-33 | a reference that opens with a scheme token and `:` has that token, lower-cased, as its scheme |
| `Url.NoSchemeWithForeignChar` | linkChecker.py:32 | a reference whose text before the first `:` holds a character no scheme may hold has no scheme |
| `Url.NoSchemeWithoutLeadingLetter` | linkChecker.py:32-35 | a reference that does not start with an ASCII letter has an empty scheme |
| `Url.SchemeIsLeadingToken` | linkChecker.py:32 | a non-empty scheme is a lower-case scheme token followed by `:` at the very start of the reference |
| `Links.NamedPrefixHasOtherScheme` | linkChecker.py:32-35 | an href starting with `mailto:`, `tel:`, `javascript:` or `data:` has a non-empty scheme that is not `http`/`https` |
| `Links.HasRejectedPrefix` | linkChecker.py:35 | the `startswith(("#", "mailto:", "tel:", "javascript:", "data:"))` test; see `Links.RejectedPrefixExcluded` and `Links.IsHttpUrlIff` |
| `Links.IsHttpScheme` | linkChecker.py:33 | the test `parsed.scheme in ("http", "https")`; see `Links.IsHttpUrlIff` and `Links.HttpSchemeAccepted` |
| `Links.IsHttpUrl` | linkChecker.py:28-38 | `is_http_url(href)`; see `Links.IsHttpUrlIff` |
| `Links.IsHttpUrlIff` | linkChecker.py:28-38 | an href is accepted iff it is non-empty and, after stripping, has scheme `http`/`https`, or has no scheme and does not start with `#`; of the five prefixes only `#` can decide |
| `Links.EmptyHrefRejected` | linkChecker.py:29-30 | the empty href is rejected |
| `Links.HttpSchemeAccepted` | linkChecker.py:33-34 | a non-empty href whose reported (lower-cased) scheme is `http` or `https` is accepted; see `Links.AnyCaseHttpsAccepted` for the letter case of the href itself |
| `Links.WhitespaceHrefAccepted` | linkChecker.py:29-37 | a non-empty whitespace-only href is accepted, because emptiness is tested before `strip()` |
| `Links.AnyCaseHttpsAccepted` | linkChecker.py:31-34 | an href that opens with `https:` in any mix of letter case (`HTTPS:`, `HtTpS:`, ...) is accepted |
| `Links.HttpsHrefAccepted` | linkChecker.py:31-34 | any href that starts with `https:` is accepted, trailing whitespace or not |
| `Links.HttpsPrefixScheme` | linkChecker.py:32-33 | a reference that starts with `https:` has the scheme `https` |
| `Links.RelativeHrefAccepted` | linkChecker.py:35-37 | an href without surrounding whitespace whose first character is neither an ASCII letter nor `#` is accepted as a relative reference |
| `Links.AbsoluteHttpsAccepted` | linkChecker.py:33-34 | `https://ok.example/x` passes the filter |
| `Links.RootRelativeAccepted` | linkChecker.py:35-37 | `/missing` passes the filter as a relative reference |
| `Links.CleanSchemelessAccepted` | linkChecker.py:35-37 | an href without surrounding whitespace, with no scheme and not starting with `#`, is accepted |
| `Links.ControlBeforeMailtoAccepted` | linkChecker.py:31-37 | `"\x01mailto:x"` is accepted, since the control character is neither stripped nor a scheme character |
| `Links.ForeignCharBeforeColonAccepted` | linkChecker.py:31-37 | a clean href whose text before the first `:` holds a non-scheme character, such as the tab in `"java\tscript:x"`, is accepted |
| `Links.SchemelessHref` | linkChecker.py:35-37 | a non-empty scheme-less href is accepted exactly when its stripped text does not start with `#` |
| `Links.FragmentHrefExcluded` | linkChecker.py:35-38 | an href starting with `#` is rejected |
| `Links.NamedPrefixHrefExcluded` | linkChecker.py:33-38 | an href starting with `mailto:`, `tel:`, `javascript:` or `data:` is rejected |
| `Links.RejectedPrefixExcluded` | linkChecker.py:35-38 | any href starting (before stripping) with one of the five rejected prefixes is rejected |
| `Links.Checkable` | linkChecker.py:46-55 | the set `links` built by the loop; see `Links.CheckableMembers` and `Links.CheckableBound` |
| `Links.CheckableMembers` | linkChecker.py:49-55 | a URL is collected iff it equals `join(base, h)` for some href `h` of the page that the filter accepts (unstripped `h`) |
| `Links.CheckableSingleton` | linkChecker.py:49-55 | a single accepted href yields exactly its resolution |
| `Links.CheckableBound` | linkChecker.py:47-58 | there are never more unique URLs than hrefs examined |
| `Links.ExtractLinks` | linkChecker.py:41-59 | `raw_count` is the number of hrefs, rejected ones included; the result is `sorted` of the collected set, strictly ascending (no duplicates), holds exactly the resolutions of accepted hrefs, and is no longer than `raw_count` |
| `Checker.GetFallback` | linkChecker.py:90-97 | the fallback sends HEAD and then GET |
| `Checker.CheckLink` | linkChecker.py:74-97 | only HEAD is sent exactly when HEAD returned a status; HEAD then GET exactly when HEAD failed in transit |
| `Checker.CheckLinkVerdict` | linkChecker.py:80-97 | broken iff the decisive request (HEAD if it answered, else GET) failed or answered >= 400; the info is `"HTTP <code> (<method>)"` of that request or `"Error: <msg>"` |
| `Checker.HeadStatusDecides` | linkChecker.py:83-89 | a HEAD status gives `(code >= 400, "HTTP <code> (HEAD)")` from HEAD alone, whatever GET would do |
| `Checker.ForbiddenAndNotAllowedNeverFallBack` | linkChecker.py:85-88 | HEAD 403 or 405 is reported broken from HEAD alone; GET is never sent |
| `Checker.TransportFallsBackToGet` | linkChecker.py:90-97 | after a HEAD transport failure the verdict is GET's `(code >= 400, "HTTP <code> (GET)")`, or `(true, "Error: <msg>")` when GET fails too |
| `Checker.HeadOk` | linkChecker.py:83-89 | HEAD 200 gives `(false, "HTTP 200 (HEAD)")` |
| `Checker.HeadNotFound` | linkChecker.py:83-86 | HEAD 404 gives `(true, "HTTP 404 (HEAD)")` |
| `Checker.Describe` | linkChecker.py:86-95 | the info text `"HTTP <code> (<method>)"`; see `Checker.DescribeExamples` and `Text.ParseIntToString` |
| `Checker.DescribeExamples` | linkChecker.py:86 | the info strings for 200, 404 and 405 read as the code prints them |
| `Checker.LinkChecker` | linkChecker.py:74-97 | `check_link(session, url)` for each URL, from what HEAD and GET produce for that URL; see `Checker.CheckLinkVerdict` |
| `Checker.CheckLinkIntended` | linkChecker.py:87-88 | the corrected policy sends GET exactly when HEAD failed in transit or answered 403 or 405 |
| `Checker.IntendedFallback` | linkChecker.py:81-95 | under the corrected policy HEAD 403/405 takes GET's verdict; every other HEAD outcome gives the same result as the code as written |
| `Checker.NotAllowedThenOk` | linkChecker.py:83-95 | for HEAD 405 and GET 200 the code as written gives `(true, "HTTP 405 (HEAD)")` after one request; the corrected policy gives `(false, "HTTP 200 (GET)")` |
| `Pipeline.BrokenOf` | linkChecker.py:144-153 | the list `broken_links`; see `Pipeline.BrokenOfMembers`, `Pipeline.BrokenOfAscending` and `Pipeline.BrokenOfBound` |
| `Pipeline.BrokenOfBound` | linkChecker.py:144-159 | the broken list never has more entries than links were checked |
| `Pipeline.BrokenOfMembers` | linkChecker.py:148-153 | an entry `(link, info)` is in the broken list iff the link was checked and its check returned `(True, info)` |
| `Pipeline.BrokenOfAscending` | linkChecker.py:148-153 | from strictly ascending links, broken entries are strictly ascending by link (checking order, no link twice) |
| `Pipeline.Tally` | linkChecker.py:144-159 | each link is checked once, in order; `broken_links` is `BrokenOf(links)`, holds exactly the links reported broken with their info, and is no longer than `total` |
| `Pipeline.IsErrorStatus` | linkChecker.py:123 | the statuses `raise_for_status()` raises for, 400 to 599; see `Pipeline.LoadPage` |
| `Pipeline.LoadPage` | linkChecker.py:118-135 | with `--no-js` the page loads iff the GET answered with a status outside 400-599; otherwise iff the browser rendered it; the hrefs are those of the page obtained |
| `Pipeline.RunResult` | linkChecker.py:137-164 | the run given the page; see `Pipeline.NoLinksIffNothingAccepted` and `Pipeline.SummaryInvariant` |
| `Pipeline.Run` | linkChecker.py:137-164 | the run's outcome is `RunResult`; links are handed to the checker (sorted) only when the run reaches the tally, so an empty link list ends it before any check |
| `Pipeline.ExitCode` | linkChecker.py:125-142 | the exit status; see `Pipeline.ExitCodeNonZeroIffUnavailable` |
| `Pipeline.ExitCodeNonZeroIffUnavailable` | linkChecker.py:125-142 | the exit status is non-zero exactly when the page could not be obtained |
| `Pipeline.NoLinksIffNothingAccepted` | linkChecker.py:138-142 | the run stops with the warning (exit 0) iff the page loaded and none of its hrefs passes the filter |
| `Pipeline.SummaryInvariant` | linkChecker.py:144-164 | in the summary, `0 < total <= raw_count`, `len(broken_links) <= total`, the broken entries are ascending by link, and they are exactly the collected links whose check returned broken |
| `Pipeline.SortSingleton` | linkChecker.py:59 | `sorted` of a one-element set is that element |
| `Pipeline.BrokenOfSingleton` | linkChecker.py:148-153 | the tally over one link lists it exactly when its check returned broken |
| `Pipeline.SingleLinkRun` | linkChecker.py:138-164 | a page with one accepted href gives a summary of one link, broken or not as its check says |
| `Pipeline.ScenarioSingleReachableLink` | linkChecker.py:137-164 | one absolute link whose HEAD answers 200 is reported as `"HTTP 200 (HEAD)"` by `check_link`, and the run gives `total = 1`, nothing broken |
| `Pipeline.ScenarioRelativeBrokenLink` | linkChecker.py:137-164 | `/missing` on `https://site.test` whose HEAD answers 404 is checked through `check_link` and listed as broken with `"HTTP 404 (HEAD)"` |
| `Pipeline.ScenarioFragmentOnly` | linkChecker.py:138-142 | a page whose only anchor is `#top` has nothing to check and exits with 0 |

## Left out

- `get_rendered_html` (launching Chromium, waiting for network idle, reading the DOM) is browser automation. Its result is an input value, `Rendered(hrefs)` or `RenderError(msg)`.
- `create_session`, the real `session.head`/`session.get` calls, redirects and timeouts are network I/O. Each request is represented by its outcome, `Status(code)` or `Transport(msg)`.
- The HTML parse (`BeautifulSoup(...).find_all("a", href=True)`) is a foreign library. Its output, the href values in document order, is the input to `Links.ExtractLinks`.
- `urljoin` is a foreign library function and stays uninterpreted: `join` is a parameter, so resolution per section 5.2 of RFC 3986 (for example `../c` against `https://ex.com/a/b`) is not derived.
- `Url.Scheme` keeps the scheme rule of Python 3.9.16, 3.10.9, 3.11.1 and later releases, and every release from 3.12: the text before the first `:` is a scheme only when it starts with an ASCII letter. Earlier releases also take text that starts with a digit, `+`, `-` or `.` as a scheme, so there `"1a:b"` and `"+x:y"` have a non-empty scheme and are rejected, while the model accepts them.
- `Url.Scheme` leaves out two clean-ups that `urlsplit` makes before it looks for the scheme. Every release named above deletes each tab, CR and LF; this has been so since 3.9.5 and 3.10.0. Releases from 3.9.17, 3.10.12, 3.11.4 and 3.12 also drop leading C0 control characters and spaces. So no release computes the scheme exactly as `Url.Scheme` does, and on hrefs that hold such characters the verdict flips. The model accepts `"java\tscript:x"` (`Links.ForeignCharBeforeColonAccepted`), which every modelled release rejects for its scheme `javascript`. It also accepts `"\x01mailto:x"` (`Links.ControlBeforeMailtoAccepted`), which releases that drop leading control characters reject for its scheme `mailto`.
- `urlsplit` raising `ValueError` is not modelled: for an unbalanced `[` or `]` in the host, for a bracketed host that is not a valid IPv6 or IPvFuture address, and, in `_checknetloc`, for a non-ASCII host that NFKC normalisation turns into one holding `/`, `?`, `#`, `@` or `:`. In the code that exception would end the run inside `extract_links`; in the model `Url.Scheme` is total.
- `Links.IsHttpUrl` takes a `string`, so the `None` case of `if not href` does not arise. `find_all("a", href=True)` never yields `None`.
- `check_link` catches only `requests.RequestException`. An exception outside that hierarchy would propagate, and the model has no outcome for it.
- `argparse`, every `print` line and its formatting, and `sys.exit` are console plumbing. The exit status is the value `Pipeline.ExitCode`, and the counts printed at lines 57-58 are the results `rawCount` and the length of `links`.
- `Text.LowerAscii` lower-cases ASCII letters only. That is enough for a scheme, which holds only ASCII characters.

## Findings

| source | as written | input that shows it | evidently intended | confidence | as-written member | corrected member |
|---|---|---|---|---|---|---|
| linkChecker.py:85-88 | any HEAD status >= 400 returns broken before the test for 403/405, so the "HEAD not reliable" fallback to GET never runs | HEAD answers 405 and GET would answer 200: reported `(True, "HTTP 405 (HEAD)")` and GET is never sent | HEAD 403/405 is not trusted; GET is sent and decides, giving `(False, "HTTP 200 (GET)")` | high (by reading and proof; not executed) | `Checker.CheckLink`, with `Checker.NotAllowedThenOk` and `Checker.ForbiddenAndNotAllowedNeverFallBack` | `Checker.CheckLinkIntended`, with `Checker.IntendedFallback` |

The run (`Pipeline.Run`, `Pipeline.RunResult`) takes the checker as a parameter, so either definition can be used in it. The lemmas about the run hold for both.
