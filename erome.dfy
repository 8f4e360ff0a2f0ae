/** Erome: the album search over a fixed number of result pages
    (`fetch_all_album_pages` with `extract_album_links`), and the image URLs
    of a list of albums (`fetch_all_erome_image_urls` with `fetch_image_urls`).
    Both ignore the status of a response and read whatever page came back;
    a request that raises contributes nothing. */
module Erome {
  import opened Seqs
  import opened Strings
  import opened Site

  const AlbumPrefix := "https://www.erome.com/a/"

  /** What is read from an Erome page: a search page's album links and an
      album page's image placeholders. */
  datatype Page = Page(
    albumLinkHrefs: seq<Url>,     // href of every <a class="album-link"> that has one
    imageDataSrcs: seq<string>)   // data-src of every <div class="img"> that has one

  /** The URL of result page `page` of a search. The account name is put in
      the query unencoded. */
  function SearchUrl(username: string, page: nat): Url {
    "https://www.erome.com/search?q=" + username + "&page=" + NatToString(page)
  }

  predicate IsAlbumLink(href: Url) {
    href != "" && StartsWith(href, AlbumPrefix)
  }

  /** `extract_album_links`: the album links of a search page, each once. */
  method ExtractAlbumLinks(hrefs: seq<Url>) returns (r: seq<Url>)
    ensures NoDups(r)
    ensures forall x :: x in r <==> x in hrefs && StartsWith(x, AlbumPrefix)
  {
    var links: set<Url> := {};
    for i := 0 to |hrefs|
      invariant forall x :: x in links <==> x in hrefs[..i] && IsAlbumLink(x)
    {
      var href := hrefs[i];
      assert hrefs[..i + 1] == hrefs[..i] + [href];
      if href != "" && StartsWith(href, AlbumPrefix) {
        links := links + {href};
      }
    }
    assert hrefs[..|hrefs|] == hrefs;
    r := ListOf(links);
  }

  /** The album links found on the result pages 1 to `last` that answered. */
  function AlbumsFound(site: Site<Page>, username: string, last: int): set<Url> {
    set p: nat, x | 1 <= p <= last && SearchUrl(username, p) in site
      && x in site[SearchUrl(username, p)].body.albumLinkHrefs && IsAlbumLink(x) :: x
  }

  /** Extending the search by one page adds that page's album links. */
  lemma AlbumsFoundStep(site: Site<Page>, username: string, page: nat)
    requires 1 <= page
    ensures AlbumsFound(site, username, page) == AlbumsFound(site, username, page - 1) +
      (if SearchUrl(username, page) in site
       then set x | x in site[SearchUrl(username, page)].body.albumLinkHrefs && IsAlbumLink(x)
       else {})
  {
  }

  /** `fetch_all_album_pages`: request result pages 1 to `maxPages`, drop
      those whose request raised, and return every album link on the others,
      each once. `requested` is the list of pages asked for. */
  method FetchAllAlbumPages(site: Site<Page>, username: string, maxPages: int)
    returns (r: seq<Url>, ghost requested: seq<Url>)
    ensures NoDups(r)
    ensures forall x :: x in r <==> x in AlbumsFound(site, username, maxPages)
    ensures |requested| == if maxPages < 0 then 0 else maxPages
    ensures forall i :: 0 <= i < |requested| ==> requested[i] == SearchUrl(username, i + 1)
  {
    var allLinks: set<Url> := {};
    requested := [];
    var page := 1;
    while page <= maxPages
      invariant 1 <= page <= if maxPages < 0 then 1 else maxPages + 1
      invariant |requested| == page - 1
      invariant forall i :: 0 <= i < |requested| ==> requested[i] == SearchUrl(username, i + 1)
      invariant allLinks == AlbumsFound(site, username, page - 1)
    {
      var url := SearchUrl(username, page);
      requested := requested + [url];
      AlbumsFoundStep(site, username, page);
      if url in site {
        var links := ExtractAlbumLinks(site[url].body.albumLinkHrefs);
        allLinks := allLinks + (set x | x in links);
      }
      page := page + 1;
    }
    if maxPages < 0 {
      assert AlbumsFound(site, username, maxPages) == {};
      assert AlbumsFound(site, username, 0) == {};
    } else {
      assert page == maxPages + 1;
    }
    r := ListOf(allLinks);
  }

  /** The Erome search promises: only album links, exactly those of the
      pages 1 to `maxPages` that answered. */
  lemma AlbumsFoundProperties(site: Site<Page>, username: string, maxPages: int, x: Url)
    ensures x in AlbumsFound(site, username, maxPages) <==>
      StartsWith(x, AlbumPrefix) &&
      exists p: nat :: 1 <= p <= maxPages && SearchUrl(username, p) in site &&
        x in site[SearchUrl(username, p)].body.albumLinkHrefs
    ensures maxPages <= 0 ==> AlbumsFound(site, username, maxPages) == {}
  {
    if StartsWith(x, AlbumPrefix) &&
       exists p: nat :: 1 <= p <= maxPages && SearchUrl(username, p) in site &&
         x in site[SearchUrl(username, p)].body.albumLinkHrefs {
      var p: nat :| 1 <= p <= maxPages && SearchUrl(username, p) in site &&
        x in site[SearchUrl(username, p)].body.albumLinkHrefs;
      assert IsAlbumLink(x);
    }
  }

  /** `fetch_image_urls`: each non-empty `data-src` resolved against the URL
      the album page was answered from, in page order. */
  function ImageUrls(resolve: (Url, Url) -> Url, base: Url, dataSrcs: seq<string>): (r: seq<Url>)
    ensures |r| <= |dataSrcs|
    ensures forall x :: x in r <==> exists d :: d in dataSrcs && d != "" && x == resolve(base, d)
  {
    if dataSrcs == [] then []
    else
      var rest := ImageUrls(resolve, base, dataSrcs[1..]);
      assert forall d :: d in dataSrcs <==> d == dataSrcs[0] || d in dataSrcs[1..];
      (if dataSrcs[0] != "" then [resolve(base, dataSrcs[0])] else []) + rest
  }

  /** The image URLs of one album; none when its request raised. */
  function AlbumImageUrls(site: Site<Page>, resolve: (Url, Url) -> Url, albumUrl: Url): seq<Url> {
    if albumUrl in site then ImageUrls(resolve, site[albumUrl].finalUrl, site[albumUrl].body.imageDataSrcs)
    else []
  }

  /** `fetch_all_erome_image_urls`: every album's image URLs, album after
      album, duplicates kept. */
  function AllImageUrls(site: Site<Page>, resolve: (Url, Url) -> Url, albumUrls: seq<Url>): seq<Url> {
    if albumUrls == [] then []
    else AlbumImageUrls(site, resolve, albumUrls[0]) + AllImageUrls(site, resolve, albumUrls[1..])
  }

  /** The lists are joined in album order. */
  lemma {:induction false} AllImageUrlsConcat(site: Site<Page>, resolve: (Url, Url) -> Url, a: seq<Url>, b: seq<Url>)
    ensures AllImageUrls(site, resolve, a + b) == AllImageUrls(site, resolve, a) + AllImageUrls(site, resolve, b)
  {
    if a == [] {
      assert a + b == b;
    } else {
      assert (a + b)[1..] == a[1..] + b;
      AllImageUrlsConcat(site, resolve, a[1..], b);
    }
  }

  /** Nothing is dropped or merged: the length is the sum of the albums' lengths. */
  function TotalImages(site: Site<Page>, resolve: (Url, Url) -> Url, albumUrls: seq<Url>): nat {
    if albumUrls == [] then 0
    else |AlbumImageUrls(site, resolve, albumUrls[0])| + TotalImages(site, resolve, albumUrls[1..])
  }

  /** The combined list is as long as the albums' lists together, and an
      URL is in it exactly when one of the albums has it. */
  lemma {:induction false} AllImageUrlsProperties(site: Site<Page>, resolve: (Url, Url) -> Url, albumUrls: seq<Url>)
    ensures |AllImageUrls(site, resolve, albumUrls)| == TotalImages(site, resolve, albumUrls)
    ensures forall x :: x in AllImageUrls(site, resolve, albumUrls) <==>
      exists a :: a in albumUrls && x in AlbumImageUrls(site, resolve, a)
  {
    if albumUrls != [] {
      AllImageUrlsProperties(site, resolve, albumUrls[1..]);
      assert forall a :: a in albumUrls <==> a == albumUrls[0] || a in albumUrls[1..];
    }
  }
}
