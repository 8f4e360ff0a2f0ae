/** Bunkr album search on bunkr-albums.io: the links of one result page
    (`get_album_links_from_search`), the walk along the result pages while
    each names the next (`get_all_album_links_from_search`), and the fixed
    ten-page listing of links and titles (`parse_links_and_titles` with
    `fetch_all_pages`). */
module Bunkr {
  import opened Seqs
  import opened Strings
  import opened Site

  const SearchBase := "https://bunkr-albums.io/?search="
  const AlbumPrefix := "https://bunkr.cr/a/"
  const FilePrefix := "https://bunkr.cr/f/"
  const DefaultMaxPages := 10

  /** A `<span>` with its classes and its text. */
  datatype Span = Span(classes: set<string>, text: string)

  /** What is read from a Bunkr page. A search result page has anchors, a
      pager and title spans; an album page has download anchors; a file page
      has its cover image. */
  datatype Page = Page(
    anchorHrefs: seq<Url>,      // href of every <a href=...>, in document order
    pager: set<nat>,            // the n for which some <a class="btn btn-sm btn-main"> has an href in which
                                // "?search=<name>&page=n" is found anywhere (a link to page 23 counts for 2)
    spans: seq<Span>,           // every <span>, in document order
    downloadHrefs: seq<Url>,    // href of every <a aria-label="download" href=...>
    coverSrc: Option<Url>)      // src of the first <img> whose class contains "object-cover", when it has one

  /** The URL of result page `page` for `query`, the query percent-encoded. */
  function SearchUrl(query: string, page: nat): Url {
    SearchBase + Quote(query) + "&page=" + NatToString(page)
  }

  /** Distinct page numbers give distinct result-page URLs. */
  lemma SearchUrlInjective(query: string, a: nat, b: nat)
    requires SearchUrl(query, a) == SearchUrl(query, b)
    ensures a == b
  {
    var prefix := SearchBase + Quote(query) + "&page=";
    assert SearchUrl(query, a)[|prefix|..] == NatToString(a);
    assert SearchUrl(query, b)[|prefix|..] == NatToString(b);
    NatToStringInjective(a, b);
  }

  predicate IsAlbumLink(href: Url) {
    href != "" && StartsWith(href, AlbumPrefix)
  }

  /** The album links of result page `page`: none when the request fails or
      is not answered with 200, otherwise every anchor linking to an album,
      in page order, duplicates kept. */
  function SearchPageLinks(site: Site<Page>, query: string, page: nat): (r: seq<Url>)
    ensures r != [] ==> Served(site, SearchUrl(query, page))
    ensures forall x :: x in r <==>
      Served(site, SearchUrl(query, page)) && x in site[SearchUrl(query, page)].body.anchorHrefs && IsAlbumLink(x)
  {
    var url := SearchUrl(query, page);
    if Served(site, url) then Filter(IsAlbumLink, site[url].body.anchorHrefs) else []
  }

  /** The loop of `get_album_links_from_search` over the page's anchors. */
  method CollectAlbumLinks(hrefs: seq<Url>) returns (r: seq<Url>)
    ensures r == Filter(IsAlbumLink, hrefs)
  {
    r := [];
    for i := 0 to |hrefs|
      invariant r == Filter(IsAlbumLink, hrefs[..i])
    {
      FilterConcat(IsAlbumLink, hrefs[..i], [hrefs[i]]);
      assert hrefs[..i + 1] == hrefs[..i] + [hrefs[i]];
      if hrefs[i] != "" && StartsWith(hrefs[i], AlbumPrefix) {
        r := r + [hrefs[i]];
      }
    }
    assert hrefs[..|hrefs|] == hrefs;
  }

  /** `get_album_links_from_search`. */
  method AlbumLinksFromSearch(site: Site<Page>, username: string, page: nat) returns (r: seq<Url>)
    ensures r == SearchPageLinks(site, username, page)
  {
    var url := SearchUrl(username, page);
    if !Served(site, url) {
      return [];
    }
    r := CollectAlbumLinks(site[url].body.anchorHrefs);
  }

  /** The result-page URLs before page `page`. */
  function SeenPages(query: string, page: nat): set<Url> {
    set k: nat | k < page :: SearchUrl(query, k)
  }

  /** A result page that answered is one the walk had not requested before,
      so moving past it leaves fewer of the site's pages to request. */
  lemma SeenPagesGrow(site: Site<Page>, query: string, page: nat)
    requires SearchUrl(query, page) in site
    ensures site.Keys - SeenPages(query, page + 1) < site.Keys - SeenPages(query, page)
  {
    var url := SearchUrl(query, page);
    assert url in SeenPages(query, page + 1);
    if url in SeenPages(query, page) {
      var k: nat :| k < page && SearchUrl(query, k) == url;
      SearchUrlInjective(query, k, page);
    }
    assert url in site.Keys - SeenPages(query, page);
  }

  /** The walk goes on past `page` exactly when the page gave links and its
      pager links to the following page. */
  predicate Continues(site: Site<Page>, query: string, page: nat) {
    SearchPageLinks(site, query, page) != [] && page + 1 in site[SearchUrl(query, page)].body.pager
  }

  /** Where the search walk ends: the links collected and the last page requested. */
  datatype Search = Search(links: seq<Url>, lastPage: nat)

  /** The search walk from `page` with `links` collected: stop on a page that
      gives no links; otherwise keep its links and go on when its pager names
      the next page. The site being finite, the walk ends. */
  function SearchWalk(site: Site<Page>, query: string, page: nat, links: seq<Url>): Search
    decreases site.Keys - SeenPages(query, page)
  {
    var found := SearchPageLinks(site, query, page);
    if found == [] then Search(links, page)
    else if page + 1 !in site[SearchUrl(query, page)].body.pager then Search(links + found, page)
    else
      SeenPagesGrow(site, query, page);
      SearchWalk(site, query, page + 1, links + found)
  }

  /** The links of result pages `from` to `to - 1`, in page order. */
  function LinksOfPages(site: Site<Page>, query: string, from: nat, to: nat): seq<Url>
    decreases to - from
  {
    if to <= from then [] else SearchPageLinks(site, query, from) + LinksOfPages(site, query, from + 1, to)
  }

  /** The walk requests pages `page`, `page + 1`, ... up to the first one that
      does not continue it. */
  lemma {:induction false} SearchWalkStops(site: Site<Page>, query: string, page: nat, links: seq<Url>)
    ensures var s := SearchWalk(site, query, page, links);
      page <= s.lastPage &&
      (forall p :: page <= p < s.lastPage ==> Continues(site, query, p)) &&
      !Continues(site, query, s.lastPage)
    decreases site.Keys - SeenPages(query, page)
  {
    if Continues(site, query, page) {
      SeenPagesGrow(site, query, page);
      SearchWalkStops(site, query, page + 1, links + SearchPageLinks(site, query, page));
    }
  }

  /** The walk appends the links of the pages it requests in page order,
      duplicates kept. */
  lemma {:induction false} SearchWalkLinks(site: Site<Page>, query: string, page: nat, links: seq<Url>)
    ensures AppendsLinks(site, query, page, links, SearchWalk(site, query, page, links))
    decreases site.Keys - SeenPages(query, page)
  {
    if Continues(site, query, page) {
      var found := SearchPageLinks(site, query, page);
      SeenPagesGrow(site, query, page);
      SearchWalkLinks(site, query, page + 1, links + found);
      SearchWalkContinues(site, query, page, links);
      AppendsPageLinks(site, query, page, links, SearchWalk(site, query, page + 1, links + found));
    } else {
      StoppedWalkAppendsLinks(site, query, page, links);
    }
  }

  /** `s` holds `links` followed by the links of pages `page` to `s.lastPage`. */
  predicate AppendsLinks(site: Site<Page>, query: string, page: nat, links: seq<Url>, s: Search) {
    page <= s.lastPage && s.links == links + LinksOfPages(site, query, page, s.lastPage + 1)
  }

  /** Links appended from page `page + 1` on, after the links of page `page`,
      are links appended from page `page` on. */
  lemma AppendsPageLinks(site: Site<Page>, query: string, page: nat, links: seq<Url>, s: Search)
    requires AppendsLinks(site, query, page + 1, links + SearchPageLinks(site, query, page), s)
    ensures AppendsLinks(site, query, page, links, s)
  {
    var found := SearchPageLinks(site, query, page);
    var rest := LinksOfPages(site, query, page + 1, s.lastPage + 1);
    var all := LinksOfPages(site, query, page, s.lastPage + 1);
    LinksOfPagesCons(site, query, page, s.lastPage + 1);
    ConcatAssoc(links, found, rest);
    assert s.links == links + all;
  }

  lemma StoppedWalkAppendsLinks(site: Site<Page>, query: string, page: nat, links: seq<Url>)
    requires !Continues(site, query, page)
    ensures AppendsLinks(site, query, page, links, SearchWalk(site, query, page, links))
  {
    var found := SearchPageLinks(site, query, page);
    assert SearchWalk(site, query, page, links).lastPage == page;
    assert LinksOfPages(site, query, page + 1, page + 1) == [];
    assert LinksOfPages(site, query, page, page + 1) == found;
    if found == [] {
      assert links + [] == links;
    }
  }

  /** One step of a walk that goes on. */
  lemma SearchWalkContinues(site: Site<Page>, query: string, page: nat, links: seq<Url>)
    requires Continues(site, query, page)
    ensures SearchWalk(site, query, page, links) ==
      SearchWalk(site, query, page + 1, links + SearchPageLinks(site, query, page))
  {
  }

  /** The pages `from` to `to - 1` are the first of them and the rest. */
  lemma LinksOfPagesCons(site: Site<Page>, query: string, from: nat, to: nat)
    requires from < to
    ensures LinksOfPages(site, query, from, to) ==
      SearchPageLinks(site, query, from) + LinksOfPages(site, query, from + 1, to)
  {
  }

  /** `get_all_album_links_from_search`: the walk from page 1. `lastPage` is
      the last page requested. */
  method AllAlbumLinksFromSearch(site: Site<Page>, username: string)
    returns (r: seq<Url>, ghost lastPage: nat)
    ensures r == SearchWalk(site, username, 1, []).links
    ensures lastPage == SearchWalk(site, username, 1, []).lastPage
  {
    r := [];
    var page: nat := 1;
    var done := false;
    while !done
      invariant !done ==> SearchWalk(site, username, page, r) == SearchWalk(site, username, 1, [])
      invariant done ==> Search(r, page) == SearchWalk(site, username, 1, [])
      decreases site.Keys - SeenPages(username, page), if done then 0 else 1
    {
      var links := AlbumLinksFromSearch(site, username, page);
      if links == [] {
        done := true;
      } else {
        r := r + links;
        // the page is requested a second time for its pager; the host gives the same page
        var next := site[SearchUrl(username, page)].body.pager;
        if page + 1 !in next {
          done := true;
        } else {
          SeenPagesGrow(site, username, page);
          page := page + 1;
        }
      }
    }
    lastPage := page;
  }

  /** What the search walk promises: it requests pages 1, 2, ... and stops at
      the first page that gives no links or does not name the next page; the
      result is the links of those pages in page order, all album links. */
  lemma AllAlbumLinksProperties(site: Site<Page>, username: string)
    ensures var s := SearchWalk(site, username, 1, []);
      1 <= s.lastPage &&
      s.links == LinksOfPages(site, username, 1, s.lastPage + 1) &&
      (forall p :: 1 <= p < s.lastPage ==> Continues(site, username, p)) &&
      !Continues(site, username, s.lastPage) &&
      forall x :: x in s.links ==> StartsWith(x, AlbumPrefix)
  {
    var s := SearchWalk(site, username, 1, []);
    SearchWalkStops(site, username, 1, []);
    SearchWalkLinks(site, username, 1, []);
    assert AppendsLinks(site, username, 1, [], SearchWalk(site, username, 1, []));
    assert [] + LinksOfPages(site, username, 1, s.lastPage + 1) == LinksOfPages(site, username, 1, s.lastPage + 1);
    LinksOfPagesAreAlbums(site, username, 1, s.lastPage + 1);
  }

  lemma {:induction false} LinksOfPagesAreAlbums(site: Site<Page>, query: string, from: nat, to: nat)
    ensures forall x :: x in LinksOfPages(site, query, from, to) ==> StartsWith(x, AlbumPrefix)
    decreases if from < to then to - from else 0
  {
    if from < to {
      LinksOfPagesAreAlbums(site, query, from + 1, to);
    }
  }

  /** The album pattern the search listing is used with: the album prefix
      followed by at least one word character or `-`, matched at the start. */
  predicate AlbumPattern(href: Url) {
    StartsWith(href, AlbumPrefix) && |href| > |AlbumPrefix|
      && var c := href[|AlbumPrefix|]; IsAsciiLetter(c) || '0' <= c <= '9' || c == '_' || c == '-'
  }

  /** Links matching the pattern are album links, and an album whose name
      starts with a word character or `-` matches it. */
  lemma AlbumPatternProperties(href: Url, name: string)
    requires name != [] && (IsAsciiLetter(name[0]) || '0' <= name[0] <= '9' || name[0] == '_' || name[0] == '-')
    ensures AlbumPattern(href) ==> IsAlbumLink(href)
    ensures AlbumPattern(AlbumPrefix + name)
  {
    StartsWithConcat(AlbumPrefix, name);
    assert (AlbumPrefix + name)[|AlbumPrefix|] == name[0];
  }

  /** The links and titles read from one result page. */
  datatype Listing = Listing(links: seq<Url>, titles: seq<string>)

  /** The texts of the spans that carry `titleClass`, in page order. */
  function TitlesOf(spans: seq<Span>, titleClass: string): (r: seq<string>)
    ensures |r| <= |spans|
    ensures forall t :: t in r <==> exists s :: s in spans && titleClass in s.classes && t == s.text
  {
    if spans == [] then []
    else
      var rest := TitlesOf(spans[1..], titleClass);
      assert forall s :: s in spans <==> s == spans[0] || s in spans[1..];
      (if titleClass in spans[0].classes then [spans[0].text] else []) + rest
  }

  /** `parse_links_and_titles`: every anchor whose href matches the pattern
      and the text of every span of the title class, each in page order. */
  function ParseLinksAndTitles(page: Page, matches: Url -> bool, titleClass: string): (r: Listing)
    ensures forall x :: x in r.links <==> x in page.anchorHrefs && matches(x)
    ensures forall t :: t in r.titles <==> exists s :: s in page.spans && titleClass in s.classes && t == s.text
  {
    Listing(Filter(matches, page.anchorHrefs), TitlesOf(page.spans, titleClass))
  }

  function Join(a: Listing, b: Listing): Listing {
    Listing(a.links + b.links, a.titles + b.titles)
  }

  /** What one result page adds to the listing: nothing unless it was
      answered with 200. */
  function PageListing(site: Site<Page>, query: string, matches: Url -> bool, titleClass: string, page: nat): Listing {
    var url := SearchUrl(query, page);
    if Served(site, url) then ParseLinksAndTitles(site[url].body, matches, titleClass) else Listing([], [])
  }

  /** The listings of result pages 1 to `to - 1`, in page order. */
  function Listings(site: Site<Page>, query: string, matches: Url -> bool, titleClass: string, to: nat): Listing {
    if to <= 1 then Listing([], [])
    else Join(Listings(site, query, matches, titleClass, to - 1), PageListing(site, query, matches, titleClass, to - 1))
  }

  /** `fetch_all_pages`: all result pages 1 to `maxPages` are requested
      together; when any request raises, the call raises; otherwise the links
      and titles of the pages answered with 200, in page order. */
  function AllPages(site: Site<Page>, query: string, matches: Url -> bool, titleClass: string, maxPages: int): Result<Listing> {
    if exists p: nat :: 1 <= p <= maxPages && SearchUrl(query, p) !in site then Raised
    else Ok(Listings(site, query, matches, titleClass, if maxPages < 1 then 1 else maxPages + 1))
  }

  /** `fetch_all_pages` as the program runs it: gather the pages, then join
      the listings of those that came back with content. */
  method FetchAllPages(site: Site<Page>, query: string, matches: Url -> bool, titleClass: string, maxPages: int)
    returns (r: Result<Listing>)
    ensures r == AllPages(site, query, matches, titleClass, maxPages)
  {
    var page: nat := 1;
    while page <= maxPages
      invariant 1 <= page <= if maxPages < 1 then 1 else maxPages + 1
      invariant forall p: nat :: 1 <= p < page ==> SearchUrl(query, p) in site
    {
      if SearchUrl(query, page) !in site {
        return Raised;
      }
      page := page + 1;
    }
    var links: seq<Url> := [];
    var titles: seq<string> := [];
    page := 1;
    while page <= maxPages
      invariant 1 <= page <= if maxPages < 1 then 1 else maxPages + 1
      invariant Listing(links, titles) == Listings(site, query, matches, titleClass, page)
    {
      var url := SearchUrl(query, page);
      if site[url].status == 200 {
        var listing := ParseLinksAndTitles(site[url].body, matches, titleClass);
        links := links + listing.links;
        titles := titles + listing.titles;
      }
      page := page + 1;
    }
    r := Ok(Listing(links, titles));
  }

  /** Page `page` was answered with 200 and has a matching anchor to `x`. */
  predicate LinkOnPage(site: Site<Page>, query: string, matches: Url -> bool, page: nat, x: Url) {
    Served(site, SearchUrl(query, page)) && x in site[SearchUrl(query, page)].body.anchorHrefs && matches(x)
  }

  /** Page `page` was answered with 200 and has a span of the title class reading `t`. */
  predicate TitleOnPage(site: Site<Page>, query: string, titleClass: string, page: nat, t: string) {
    Served(site, SearchUrl(query, page)) &&
    exists s :: s in site[SearchUrl(query, page)].body.spans && titleClass in s.classes && t == s.text
  }

  /** The listing holds a link exactly when some page from 1 to `to - 1`
      answered with 200 has a matching anchor with it, and a title exactly
      when such a page has a span of the title class with that text. */
  lemma {:induction false} ListingsContents(site: Site<Page>, query: string, matches: Url -> bool, titleClass: string, to: nat)
    ensures forall x :: x in Listings(site, query, matches, titleClass, to).links <==>
      (exists p: nat :: 1 <= p < to && LinkOnPage(site, query, matches, p, x))
    ensures forall t :: t in Listings(site, query, matches, titleClass, to).titles <==>
      (exists p: nat :: 1 <= p < to && TitleOnPage(site, query, titleClass, p, t))
  {
    if to > 1 {
      ListingsContents(site, query, matches, titleClass, to - 1);
      var prev := Listings(site, query, matches, titleClass, to - 1);
      var last := PageListing(site, query, matches, titleClass, to - 1);
      assert forall x :: x in last.links <==> LinkOnPage(site, query, matches, to - 1, x);
      assert forall t :: t in last.titles <==> TitleOnPage(site, query, titleClass, to - 1, t);
      forall x | exists p: nat :: 1 <= p < to && LinkOnPage(site, query, matches, p, x)
        ensures x in prev.links || x in last.links
      {
        var p: nat :| 1 <= p < to && LinkOnPage(site, query, matches, p, x);
        if p < to - 1 {
          assert x in prev.links;
        }
      }
      forall t | exists p: nat :: 1 <= p < to && TitleOnPage(site, query, titleClass, p, t)
        ensures t in prev.titles || t in last.titles
      {
        var p: nat :| 1 <= p < to && TitleOnPage(site, query, titleClass, p, t);
        if p < to - 1 {
          assert t in prev.titles;
        }
      }
    }
  }

  /** What `fetch_all_pages` promises: it raises exactly when one of pages 1
      to `maxPages` cannot be fetched; otherwise its links and titles are
      exactly those of the pages answered with 200. */
  lemma AllPagesProperties(site: Site<Page>, query: string, matches: Url -> bool, titleClass: string, maxPages: int)
    ensures AllPages(site, query, matches, titleClass, maxPages).Raised? <==>
      exists p: nat :: 1 <= p <= maxPages && SearchUrl(query, p) !in site
    ensures AllPages(site, query, matches, titleClass, maxPages).Ok? ==>
      (forall x :: x in AllPages(site, query, matches, titleClass, maxPages).value.links <==>
         (exists p: nat :: 1 <= p <= maxPages && LinkOnPage(site, query, matches, p, x))) &&
      (forall t :: t in AllPages(site, query, matches, titleClass, maxPages).value.titles <==>
         (exists p: nat :: 1 <= p <= maxPages && TitleOnPage(site, query, titleClass, p, t)))
  {
    ListingsContents(site, query, matches, titleClass, if maxPages < 1 then 1 else maxPages + 1);
  }

  /** The title class the interface lists titles of. */
  const TitleClass := "truncate"

  /** `search_bunkr_links`: the listing of the first `DefaultMaxPages` result
      pages with the album pattern and the title class. */
  function SearchLinks(site: Site<Page>, query: string): Result<Listing> {
    AllPages(site, query, AlbumPattern, TitleClass, DefaultMaxPages)
  }

  /** What the interface is shown: a raise when one of the ten result pages
      cannot be fetched; otherwise only album links, exactly the matching
      anchors of the pages answered with 200, and the titles of those pages. */
  lemma SearchLinksProperties(site: Site<Page>, query: string)
    ensures SearchLinks(site, query).Raised? <==>
      exists p: nat :: 1 <= p <= DefaultMaxPages && SearchUrl(query, p) !in site
    ensures SearchLinks(site, query).Ok? ==>
      (forall x :: x in SearchLinks(site, query).value.links ==> IsAlbumLink(x)) &&
      (forall x :: x in SearchLinks(site, query).value.links <==>
         (exists p: nat :: 1 <= p <= DefaultMaxPages && LinkOnPage(site, query, AlbumPattern, p, x))) &&
      (forall t :: t in SearchLinks(site, query).value.titles <==>
         (exists p: nat :: 1 <= p <= DefaultMaxPages && TitleOnPage(site, query, TitleClass, p, t)))
  {
    AllPagesProperties(site, query, AlbumPattern, TitleClass, DefaultMaxPages);
    if SearchLinks(site, query).Ok? {
      forall x | x in SearchLinks(site, query).value.links ensures IsAlbumLink(x) {
        AlbumPatternProperties(x, "a");
      }
    }
  }
}
