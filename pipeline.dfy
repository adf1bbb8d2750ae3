/** The run that `main` drives: obtain the page, extract its links, stop early
    when there are none, otherwise check each link in sorted order and tally the
    broken ones for the summary. The link check is passed in as a function from
    a URL to `check_link`'s pair `(is_broken, info)`; the exit status is a value
    of the result rather than a process effect. */
module Pipeline {
  import opened Text
  import opened Url
  import opened Sorting
  import opened Links
  import opened Checker

  /** `broken_links` once the loop has gone over `links`: every link whose check
      said broken, with its info, in the order of `links`. */
  function BrokenOf(links: seq<string>, check: string -> (bool, string)): seq<(string, string)>
  {
    if links == [] then []
    else
      var link := links[|links| - 1];
      BrokenOf(links[..|links| - 1], check) + (if check(link).0 then [(link, check(link).1)] else [])
  }

  /** The broken list never holds more entries than links were checked. */
  lemma {:induction false} BrokenOfBound(links: seq<string>, check: string -> (bool, string))
    ensures |BrokenOf(links, check)| <= |links|
  {
    if links != [] {
      BrokenOfBound(links[..|links| - 1], check);
    }
  }

  /** An entry is in the broken list exactly when its link was checked and the
      check reported it broken with that info. */
  lemma {:induction false} BrokenOfMembers(links: seq<string>, check: string -> (bool, string), p: (string, string))
    ensures p in BrokenOf(links, check) <==> p.0 in links && check(p.0) == (true, p.1)
  {
    if links != [] {
      var init := links[..|links| - 1];
      assert links == init + [links[|links| - 1]];
      BrokenOfMembers(init, check, p);
    }
  }

  /** Entries strictly ascending by their link. */
  predicate AscendingByLink(b: seq<(string, string)>) {
    forall i, j :: 0 <= i < j < |b| ==> Lt(b[i].0, b[j].0)
  }

  /** Taken from an ascending list of links, the broken entries are ascending by
      link too: they keep the checking order and name no link twice. */
  lemma {:induction false} BrokenOfAscending(links: seq<string>, check: string -> (bool, string))
    requires StrictlyAscending(links)
    ensures AscendingByLink(BrokenOf(links, check))
  {
    if links != [] {
      var init, link := links[..|links| - 1], links[|links| - 1];
      BrokenOfAscending(init, check);
      var b0 := BrokenOf(init, check);
      forall i | 0 <= i < |b0| ensures Lt(b0[i].0, link) {
        assert b0[i] in b0;
        BrokenOfMembers(init, check, b0[i]);
        var k :| 0 <= k < |init| && init[k] == b0[i].0;
        assert init[k] == links[k];
      }
      var b := BrokenOf(links, check);
      assert b == b0 + (if check(link).0 then [(link, check(link).1)] else []);
      forall i, j | 0 <= i < j < |b| ensures Lt(b[i].0, b[j].0) {
        if j < |b0| {
          assert b[i] == b0[i] && b[j] == b0[j];
          assert Lt(b0[i].0, b0[j].0);
        } else {
          assert b[i] == b0[i] && b[j].0 == link;
          assert Lt(b0[i].0, link);
        }
      }
    }
  }

  /** The tally loop of `main` over the sorted links: checks each link once, in
      order, and appends each broken one to `broken_links`. */
  method Tally(links: seq<string>, check: string -> (bool, string))
    returns (checked: seq<string>, broken: seq<(string, string)>)
    ensures checked == links
    ensures broken == BrokenOf(links, check)
    ensures |broken| <= |links|
    ensures forall p :: p in broken <==> p.0 in links && check(p.0) == (true, p.1)
  {
    checked, broken := [], [];
    for i := 0 to |links|
      invariant checked == links[..i]
      invariant broken == BrokenOf(links[..i], check)
    {
      var link := links[i];
      assert links[..i + 1][..i] == links[..i];
      checked := checked + [link];
      var (isBroken, info) := check(link);
      if isBroken {
        broken := broken + [(link, info)];
      }
    }
    assert links[..|links|] == links;
    BrokenOfBound(links, check);
    forall p ensures p in broken <==> p.0 in links && check(p.0) == (true, p.1) {
      BrokenOfMembers(links, check, p);
    }
  }

  /** Why the page could not be obtained. */
  datatype PageError =
    | HttpError(code: int)        // `raise_for_status` on the raw fetch
    | FetchFailed(msg: string)    // transport failure of the raw fetch
    | RenderFailed(msg: string)   // the headless browser raised

  /** The page as handed to the extractor: the `href` values of its anchors, or
      the reason it is unavailable. */
  datatype Page = Loaded(hrefs: seq<string>) | Unavailable(error: PageError)

  /** What the headless browser produced: the page's anchor hrefs, or the
      message of the exception it raised. */
  datatype Render = Rendered(hrefs: seq<string>) | RenderError(msg: string)

  /** `raise_for_status()`: raises for a client or server error status. */
  predicate IsErrorStatus(code: int) {
    400 <= code < 600
  }

  /** How `main` obtains the page: with `--no-js` a plain GET whose error
      statuses are fatal, otherwise the rendered DOM. */
  function LoadPage(noJs: bool, rawGet: Outcome, rawHrefs: seq<string>, render: Render): (p: Page)
    ensures noJs ==> (p.Loaded? <==> rawGet.Status? && !IsErrorStatus(rawGet.code))
    ensures noJs && p.Loaded? ==> p.hrefs == rawHrefs
    ensures !noJs ==> (p.Loaded? <==> render.Rendered?)
    ensures !noJs && p.Loaded? ==> p.hrefs == render.hrefs
  {
    if noJs then
      match rawGet
      case Status(code) => if IsErrorStatus(code) then Unavailable(HttpError(code)) else Loaded(rawHrefs)
      case Transport(msg) => Unavailable(FetchFailed(msg))
    else
      match render
      case Rendered(hrefs) => Loaded(hrefs)
      case RenderError(msg) => Unavailable(RenderFailed(msg))
  }

  /** How a run ends. */
  datatype RunOutcome =
    | Aborted(error: PageError)     // `sys.exit(1)` after the page could not be obtained
    | NoLinks(rawCount: nat)        // `sys.exit(0)` after the "0 checkable links" warning
    | Finished(rawCount: nat, total: nat, broken: seq<(string, string)>)  // the summary

  function ExitCode(o: RunOutcome): int {
    if o.Aborted? then 1 else 0
  }

  /** The whole run as a function of its inputs. */
  function RunResult(page: Page, url: string, join: (string, string) -> string,
                     check: string -> (bool, string)): RunOutcome
  {
    match page
    case Unavailable(e) => Aborted(e)
    case Loaded(hrefs) =>
      var links := SortSet(Checkable(hrefs, url, join));
      if links == [] then NoLinks(|hrefs|) else Finished(|hrefs|, |links|, BrokenOf(links, check))
  }

  /** `main` from line 137 on, given the page: extract, stop when there is
      nothing to check, otherwise tally. `checked` lists the links handed to the
      checker, in order. */
  method Run(page: Page, url: string, join: (string, string) -> string, check: string -> (bool, string))
    returns (outcome: RunOutcome, checked: seq<string>)
    ensures outcome == RunResult(page, url, join, check)
    ensures checked == if outcome.Finished? then SortSet(Checkable(page.hrefs, url, join)) else []
  {
    if page.Unavailable? {
      return Aborted(page.error), [];
    }
    var links, rawCount := ExtractLinks(page.hrefs, url, join);
    if links == [] {
      return NoLinks(rawCount), [];
    }
    var total := |links|;
    var broken;
    checked, broken := Tally(links, check);
    outcome := Finished(rawCount, total, broken);
  }

  /** Only a page that cannot be obtained makes the exit status non-zero. */
  lemma ExitCodeNonZeroIffUnavailable(page: Page, url: string, join: (string, string) -> string,
                                      check: string -> (bool, string))
    ensures ExitCode(RunResult(page, url, join, check)) != 0 <==> page.Unavailable?
  {
  }

  /** The run stops with no check made exactly when the page loaded but none of
      its hrefs passes the filter. */
  lemma NoLinksIffNothingAccepted(page: Page, url: string, join: (string, string) -> string,
                                  check: string -> (bool, string))
    ensures RunResult(page, url, join, check).NoLinks? <==>
      page.Loaded? && forall h :: h in page.hrefs ==> !IsHttpUrl(h)
  {
    if page.Loaded? {
      var links := SortSet(Checkable(page.hrefs, url, join));
      if links == [] {
        forall h | h in page.hrefs ensures !IsHttpUrl(h) {
          CheckableMembers(page.hrefs, url, join, join(url, h));
        }
      } else {
        var u := links[0];
        CheckableMembers(page.hrefs, url, join, u);
      }
    }
  }

  /** The summary's invariants: at least one link was checked, no more links
      than hrefs, no more broken entries than links, and the broken list names
      exactly the links reported broken, in ascending order and once each. */
  lemma SummaryInvariant(page: Page, url: string, join: (string, string) -> string,
                         check: string -> (bool, string))
    ensures var o := RunResult(page, url, join, check);
      o.Finished? ==>
        && 0 < o.total <= o.rawCount
        && |o.broken| <= o.total
        && AscendingByLink(o.broken)
        && (forall p :: p in o.broken <==>
              (exists h :: h in page.hrefs && IsHttpUrl(h) && p.0 == join(url, h))
              && check(p.0) == (true, p.1))
  {
    var o := RunResult(page, url, join, check);
    if o.Finished? {
      var links := SortSet(Checkable(page.hrefs, url, join));
      CheckableBound(page.hrefs, url, join);
      BrokenOfBound(links, check);
      BrokenOfAscending(links, check);
      forall p ensures p in o.broken <==>
              (exists h :: h in page.hrefs && IsHttpUrl(h) && p.0 == join(url, h))
              && check(p.0) == (true, p.1) {
        BrokenOfMembers(links, check, p);
        CheckableMembers(page.hrefs, url, join, p.0);
      }
    }
  }

  /** The list `sorted` makes of a single URL. */
  lemma SortSingleton(u: string)
    ensures SortSet({u}) == [u]
  {
    var r := SortSet({u});
    assert u in r;
  }

  lemma BrokenOfSingleton(u: string, check: string -> (bool, string))
    ensures BrokenOf([u], check) == if check(u).0 then [(u, check(u).1)] else []
  {
    assert [u][..0] == [];
  }

  /** The run over a page with a single accepted href. */
  lemma SingleLinkRun(h: string, url: string, join: (string, string) -> string, check: string -> (bool, string))
    requires IsHttpUrl(h)
    ensures RunResult(Loaded([h]), url, join, check)
            == Finished(1, 1, if check(join(url, h)).0 then [(join(url, h), check(join(url, h)).1)] else [])
  {
    var u := join(url, h);
    CheckableSingleton(h, url, join);
    SortSingleton(u);
    BrokenOfSingleton(u, check);
  }

  /** One absolute link whose HEAD answers 200: one link checked, none broken. */
  lemma ScenarioSingleReachableLink(url: string, join: (string, string) -> string,
                                    head: string -> Outcome, get: string -> Outcome)
    requires join(url, "https://ok.example/x") == "https://ok.example/x"
    requires head("https://ok.example/x") == Status(200)
    ensures LinkChecker(head, get)("https://ok.example/x") == (false, "HTTP 200 (HEAD)")
    ensures RunResult(Loaded(["https://ok.example/x"]), url, join, LinkChecker(head, get)) == Finished(1, 1, [])
  {
    HeadOk(get("https://ok.example/x"));
    AbsoluteHttpsAccepted();
    SingleLinkRun("https://ok.example/x", url, join, LinkChecker(head, get));
  }

  /** A root-relative link on `https://site.test` whose HEAD answers 404: it is
      resolved, reported broken, and listed. */
  lemma ScenarioRelativeBrokenLink(join: (string, string) -> string,
                                   head: string -> Outcome, get: string -> Outcome)
    requires join("https://site.test", "/missing") == "https://site.test/missing"
    requires head("https://site.test/missing") == Status(404)
    ensures RunResult(Loaded(["/missing"]), "https://site.test", join, LinkChecker(head, get))
            == Finished(1, 1, [("https://site.test/missing", "HTTP 404 (HEAD)")])
  {
    HeadNotFound(get("https://site.test/missing"));
    RootRelativeAccepted();
    SingleLinkRun("/missing", "https://site.test", join, LinkChecker(head, get));
  }

  /** A page whose only anchor is `#top` has nothing to check and exits with 0. */
  lemma ScenarioFragmentOnly(url: string, join: (string, string) -> string, check: string -> (bool, string))
    ensures RunResult(Loaded(["#top"]), url, join, check) == NoLinks(1)
    ensures ExitCode(RunResult(Loaded(["#top"]), url, join, check)) == 0
  {
    FragmentHrefExcluded("#top");
    assert ["#top"][..0] == [];
    assert Checkable(["#top"], url, join) == {};
  }
}
