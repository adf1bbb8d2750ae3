/** The link filter and extractor: which anchor `href` values are worth checking
    (`is_http_url`) and how the list of absolute URLs to check is built from the
    hrefs of a page's anchors (`extract_links`).
    The HTML parser is outside the model: its output, the `href` values of the
    page's `<a href>` elements in document order, is the input here. URL
    resolution (`urljoin`) is passed in as the function `join`. */
module Links {
  import opened Text
  import opened Url
  import opened Sorting

  /** `s.startswith(("#", "mailto:", "tel:", "javascript:", "data:"))`. */
  predicate HasRejectedPrefix(s: string) {
    "#" <= s || "mailto:" <= s || "tel:" <= s || "javascript:" <= s || "data:" <= s
  }

  predicate IsHttpScheme(scheme: string) {
    scheme == "http" || scheme == "https"
  }

  /** `is_http_url(href)`. The emptiness test looks at the href as given; the
      scheme and prefix tests look at it after `strip()`. */
  predicate IsHttpUrl(href: string) {
    if href == "" then false
    else
      var s := Strip(href);
      var scheme := Scheme(s);
      if IsHttpScheme(scheme) then true
      else scheme == "" && !HasRejectedPrefix(s)
  }

  /** A lower-case scheme token followed by a colon at the start of `s` is
      exactly the scheme of `s`. */
  lemma LowerSchemeOfPrefix(s: string, t: string)
    requires IsSchemeToken(t) && t + ":" <= s
    requires forall k :: 0 <= k < |t| ==> !('A' <= t[k] <= 'Z')
    ensures Scheme(s) == t
  {
    SchemeOfPrefix(s, t);
    assert LowerAscii(t) == t;
  }

  /** Each of the four named rejected prefixes carries a scheme other than
      `http` and `https`. */
  lemma NamedPrefixHasOtherScheme(s: string)
    requires "mailto:" <= s || "tel:" <= s || "javascript:" <= s || "data:" <= s
    ensures Scheme(s) != "" && !IsHttpScheme(Scheme(s))
  {
    if "mailto:" <= s {
      LowerSchemeOfPrefix(s, "mailto");
    } else if "tel:" <= s {
      LowerSchemeOfPrefix(s, "tel");
    } else if "javascript:" <= s {
      LowerSchemeOfPrefix(s, "javascript");
    } else {
      LowerSchemeOfPrefix(s, "data");
    }
  }

  /** An independent reading of the filter: of the five rejected prefixes only
      `#` ever decides anything, because the other four each carry a scheme and
      are already turned away for not being `http` or `https`. */
  lemma IsHttpUrlIff(href: string)
    ensures IsHttpUrl(href) <==>
      href != "" &&
      (IsHttpScheme(Scheme(Strip(href))) || (Scheme(Strip(href)) == "" && !("#" <= Strip(href))))
  {
    var s := Strip(href);
    if "mailto:" <= s || "tel:" <= s || "javascript:" <= s || "data:" <= s {
      NamedPrefixHasOtherScheme(s);
    }
  }

  /** An empty href is never checked. */
  lemma EmptyHrefRejected()
    ensures !IsHttpUrl("")
  {
  }

  /** An `http` or `https` scheme, in any letter case, is always accepted. */
  lemma HttpSchemeAccepted(href: string)
    requires href != "" && IsHttpScheme(Scheme(Strip(href)))
    ensures IsHttpUrl(href)
  {
  }

  /** A non-empty href made only of whitespace passes: the emptiness test runs
      before `strip()`, and the stripped text `""` has no scheme and no rejected
      prefix. */
  lemma WhitespaceHrefAccepted(href: string)
    requires href != "" && AllSpace(href)
    ensures IsHttpUrl(href)
  {
    StripEmptyIffAllSpace(href);
  }

  /** An href that opens with `https:` in any mix of letter case is accepted:
      the scheme is compared after lower-casing. */
  lemma AnyCaseHttpsAccepted(href: string)
    requires |href| > 5 && href[5] == ':'
    requires forall k :: 0 <= k < 5 ==> href[k] == "https"[k] || href[k] == "HTTPS"[k]
    ensures IsHttpUrl(href)
  {
    var t := href[..5];
    assert t + ":" <= href by { assert t + ":" == href[..6]; }
    assert IsSchemeToken(t);
    assert LowerAscii(t) == "https";
    StripKeepsPrefix(href, t + ":");
    SchemeOfPrefix(Strip(href), t);
  }

  /** An href that starts with `https:` is accepted, whatever whitespace
      follows it. */
  lemma HttpsHrefAccepted(href: string)
    requires "https:" <= href
    ensures IsHttpUrl(href)
  {
    var s := Strip(href);
    StripKeepsPrefix(href, "https:");
    HttpsPrefixScheme(s);
    HttpSchemeAccepted(href);
  }

  /** A reference that starts with `https:` has the scheme `https`. */
  lemma HttpsPrefixScheme(s: string)
    requires "https:" <= s
    ensures Scheme(s) == "https"
  {
    assert "https" + ":" == "https:";
    LowerSchemeOfPrefix(s, "https");
  }

  /** An href with no surrounding whitespace whose first character is neither
      an ASCII letter nor `#` is a relative reference and is accepted. */
  lemma RelativeHrefAccepted(href: string)
    requires href != "" && !IsSpace(href[0]) && !IsSpace(href[|href| - 1])
    requires !IsAsciiLetter(href[0]) && href[0] != '#'
    ensures IsHttpUrl(href)
  {
    assert LStrip(href) == href;
    assert RStrip(href) == href;
    NoSchemeWithoutLeadingLetter(href);
  }

  /** The absolute href `https://ok.example/x` passes the filter. */
  lemma AbsoluteHttpsAccepted()
    ensures IsHttpUrl("https://ok.example/x")
  {
    var h := "https://ok.example/x";
    assert h[..6] == "https:";
    HttpsHrefAccepted(h);
  }

  /** The root-relative href `/missing` passes the filter. */
  lemma RootRelativeAccepted()
    ensures IsHttpUrl("/missing")
  {
    var h := "/missing";
    assert h[0] == '/' && h[|h| - 1] == 'g';
    RelativeHrefAccepted(h);
  }

  /** A C0 control character before `mailto:` leaves no scheme here, so the
      href is accepted as a relative reference; `urlsplit` removes the control
      character first and finds the scheme `mailto`. */
  lemma ControlBeforeMailtoAccepted()
    ensures IsHttpUrl("\U{1}mailto:x")
  {
    RelativeHrefAccepted("\U{1}mailto:x");
  }

  /** A clean href whose text before the first colon holds a character that no
      scheme may hold is accepted as a relative reference. This covers a tab
      inside `javascript:` (`"java\tscript:x"`, with the tab at position 4),
      which `urlsplit` removes before finding the scheme `javascript`. */
  lemma ForeignCharBeforeColonAccepted(href: string, p: string, k: nat)
    requires p + ":" <= href && forall j :: 0 <= j < |p| ==> p[j] != ':'
    requires k < |p| && !IsSchemeChar(p[k])
    requires !IsSpace(href[0]) && !IsSpace(href[|href| - 1]) && href[0] != '#'
    ensures IsHttpUrl(href)
  {
    NoSchemeWithForeignChar(href, p, k);
    CleanSchemelessAccepted(href);
  }

  /** An href without surrounding whitespace, with no scheme and not starting
      with `#`, is accepted. */
  lemma CleanSchemelessAccepted(href: string)
    requires href != "" && !IsSpace(href[0]) && !IsSpace(href[|href| - 1])
    requires Scheme(href) == "" && href[0] != '#'
    ensures IsHttpUrl(href)
  {
    assert LStrip(href) == href;
    assert RStrip(href) == href;
    if "mailto:" <= href || "tel:" <= href || "javascript:" <= href || "data:" <= href {
      NamedPrefixHasOtherScheme(href);
    }
  }

  /** A scheme-less href whose stripped text starts with `#` is rejected; every
      other non-empty scheme-less href is accepted as a relative reference. */
  lemma SchemelessHref(href: string)
    requires href != "" && Scheme(Strip(href)) == ""
    ensures IsHttpUrl(href) <==> !("#" <= Strip(href))
  {
    IsHttpUrlIff(href);
  }

  /** An href that starts with `#` is rejected, stripped or not. */
  lemma FragmentHrefExcluded(href: string)
    requires "#" <= href
    ensures !IsHttpUrl(href)
  {
    StripKeepsPrefix(href, "#");
    NoSchemeWithoutLeadingLetter(Strip(href));
  }

  /** An href that starts with `mailto:`, `tel:`, `javascript:` or `data:` is
      rejected for its scheme. */
  lemma NamedPrefixHrefExcluded(href: string, p: string)
    requires p in ["mailto:", "tel:", "javascript:", "data:"] && p <= href
    ensures !IsHttpUrl(href)
  {
    StripKeepsPrefix(href, p);
    NamedPrefixHasOtherScheme(Strip(href));
  }

  /** An href that starts (before stripping) with `#`, `mailto:`, `tel:`,
      `javascript:` or `data:` is never checked. */
  lemma RejectedPrefixExcluded(href: string)
    requires HasRejectedPrefix(href)
    ensures !IsHttpUrl(href)
  {
    if "#" <= href {
      FragmentHrefExcluded(href);
    } else if "mailto:" <= href {
      NamedPrefixHrefExcluded(href, "mailto:");
    } else if "tel:" <= href {
      NamedPrefixHrefExcluded(href, "tel:");
    } else if "javascript:" <= href {
      NamedPrefixHrefExcluded(href, "javascript:");
    } else {
      NamedPrefixHrefExcluded(href, "data:");
    }
  }

  /** The set of absolute URLs `extract_links` collects from `hrefs`: each
      accepted href, unstripped, resolved against `base`. */
  function Checkable(hrefs: seq<string>, base: string, join: (string, string) -> string): set<string>
  {
    if hrefs == [] then {}
    else
      var last := hrefs[|hrefs| - 1];
      Checkable(hrefs[..|hrefs| - 1], base, join) + (if IsHttpUrl(last) then {join(base, last)} else {})
  }

  /** A URL is collected exactly when it is the resolution of some accepted href. */
  lemma {:induction false} CheckableMembers(hrefs: seq<string>, base: string, join: (string, string) -> string, u: string)
    ensures u in Checkable(hrefs, base, join) <==> exists h :: h in hrefs && IsHttpUrl(h) && u == join(base, h)
  {
    if hrefs != [] {
      var init, last := hrefs[..|hrefs| - 1], hrefs[|hrefs| - 1];
      assert hrefs == init + [last];
      CheckableMembers(init, base, join, u);
      if u in Checkable(init, base, join) {
        var h :| h in init && IsHttpUrl(h) && u == join(base, h);
        assert h in hrefs;
      }
    }
  }

  /** A single accepted href yields its resolution and nothing else. */
  lemma CheckableSingleton(h: string, base: string, join: (string, string) -> string)
    requires IsHttpUrl(h)
    ensures Checkable([h], base, join) == {join(base, h)}
  {
    assert [h][..0] == [];
  }

  /** There are never more collected URLs than hrefs examined. */
  lemma {:induction false} CheckableBound(hrefs: seq<string>, base: string, join: (string, string) -> string)
    ensures |Checkable(hrefs, base, join)| <= |hrefs|
  {
    if hrefs != [] {
      CheckableBound(hrefs[..|hrefs| - 1], base, join);
    }
  }

  /** `extract_links` once the page is parsed: counts every href (`raw_count`),
      resolves the accepted ones against `baseUrl` into a set and returns that
      set sorted. */
  method ExtractLinks(hrefs: seq<string>, baseUrl: string, join: (string, string) -> string)
    returns (links: seq<string>, rawCount: nat)
    ensures rawCount == |hrefs|
    ensures links == SortSet(Checkable(hrefs, baseUrl, join))
    ensures StrictlyAscending(links)
    ensures forall u :: u in links <==> exists h :: h in hrefs && IsHttpUrl(h) && u == join(baseUrl, h)
    ensures |links| <= rawCount
  {
    var found: set<string> := {};
    rawCount := 0;
    for i := 0 to |hrefs|
      invariant rawCount == i
      invariant found == Checkable(hrefs[..i], baseUrl, join)
    {
      var rawHref := hrefs[i];
      assert hrefs[..i + 1][..i] == hrefs[..i];
      rawCount := rawCount + 1;
      if !IsHttpUrl(rawHref) {
        continue;
      }
      var absUrl := join(baseUrl, rawHref);
      found := found + {absUrl};
    }
    assert hrefs[..|hrefs|] == hrefs;
    forall u ensures u in found <==> exists h :: h in hrefs && IsHttpUrl(h) && u == join(baseUrl, h) {
      CheckableMembers(hrefs, baseUrl, join, u);
    }
    CheckableBound(hrefs, baseUrl, join);
    links := SortSet(found);
  }
}
