/** Bunkr image gallery for one account (`fetch_bunkr_gallery_images`): the
    albums found by the search walk, the file-page links of each album
    (`get_image_links_from_album`), the cover image of each file page checked
    by a HEAD request (`get_image_url_from_linkk`), and the surviving image
    URLs without thumbnails, each once. */
module BunkrGallery {
  import opened Seqs
  import opened Strings
  import opened Site
  import opened Bunkr

  const Host := "https://bunkr.cr"

  /** A download link as the album page gives it, made absolute: a site-
      relative file link is put under the host, an absolute file link is kept,
      anything else is dropped. */
  function NormaliseLink(href: Url): Option<Url> {
    if StartsWith(href, "/f/") then Some(Host + href)
    else if StartsWith(href, FilePrefix) then Some(href)
    else None
  }

  /** Every link kept is an absolute file link, and normalising it again
      keeps it as it is. */
  lemma NormaliseLinkProperties(href: Url)
    ensures NormaliseLink(href).Some? <==> StartsWith(href, "/f/") || StartsWith(href, FilePrefix)
    ensures NormaliseLink(href).Some? ==>
      StartsWith(NormaliseLink(href).value, FilePrefix) &&
      NormaliseLink(NormaliseLink(href).value) == NormaliseLink(href)
  {
    if StartsWith(href, "/f/") {
      var r := Host + href;
      assert r[..|FilePrefix|] == Host + href[..3];
      assert !StartsWith(r, "/f/") by {
        assert r[0] == 'h';
      }
    } else if StartsWith(href, FilePrefix) {
      assert href[0] == 'h';
    }
  }

  /** The download links of an album page, normalised, in page order,
      duplicates kept. */
  function NormaliseDownloadLinks(hrefs: seq<Url>): (r: seq<Url>)
    ensures |r| <= |hrefs|
  {
    if hrefs == [] then []
    else
      match NormaliseLink(hrefs[0])
      case Some(link) => [link] + NormaliseDownloadLinks(hrefs[1..])
      case None => NormaliseDownloadLinks(hrefs[1..])
  }

  /** Normalising preserves order: the links of two runs of anchors are the
      links of the first followed by those of the second. */
  lemma {:induction false} NormaliseConcat(a: seq<Url>, b: seq<Url>)
    ensures NormaliseDownloadLinks(a + b) == NormaliseDownloadLinks(a) + NormaliseDownloadLinks(b)
  {
    if a == [] {
      assert a + b == b;
    } else {
      assert (a + b)[0] == a[0];
      assert (a + b)[1..] == a[1..] + b;
      NormaliseConcat(a[1..], b);
    }
  }

  /** A link is in the result exactly when some anchor normalises to it; all
      results are absolute file links, and normalising them again changes
      nothing. */
  lemma {:induction false} NormaliseDownloadLinksProperties(hrefs: seq<Url>)
    ensures forall x :: x in NormaliseDownloadLinks(hrefs) <==> exists h :: h in hrefs && NormaliseLink(h) == Some(x)
    ensures forall x :: x in NormaliseDownloadLinks(hrefs) ==> StartsWith(x, FilePrefix)
    ensures NormaliseDownloadLinks(NormaliseDownloadLinks(hrefs)) == NormaliseDownloadLinks(hrefs)
  {
    if hrefs != [] {
      NormaliseDownloadLinksProperties(hrefs[1..]);
      NormaliseLinkProperties(hrefs[0]);
      assert forall h :: h in hrefs <==> h == hrefs[0] || h in hrefs[1..];
      match NormaliseLink(hrefs[0])
      case Some(link) =>
        var rest := NormaliseDownloadLinks(hrefs[1..]);
        assert ([link] + rest)[0] == link && ([link] + rest)[1..] == rest;
      case None =>
    }
  }

  /** The file-page links of one album: none when the request fails or is not
      answered with 200. */
  function AlbumImageLinks(site: Site<Page>, albumUrl: Url): seq<Url> {
    if Served(site, albumUrl) then NormaliseDownloadLinks(site[albumUrl].body.downloadHrefs) else []
  }

  /** `get_image_links_from_album`. */
  method ImageLinksFromAlbum(site: Site<Page>, albumUrl: Url) returns (r: seq<Url>)
    ensures r == AlbumImageLinks(site, albumUrl)
  {
    if !Served(site, albumUrl) {
      return [];
    }
    var hrefs := site[albumUrl].body.downloadHrefs;
    r := [];
    for i := 0 to |hrefs|
      invariant r == NormaliseDownloadLinks(hrefs[..i])
    {
      NormaliseConcat(hrefs[..i], [hrefs[i]]);
      assert hrefs[..i + 1] == hrefs[..i] + [hrefs[i]];
      var href := hrefs[i];
      if StartsWith(href, "/f/") {
        r := r + [Host + href];
      } else if StartsWith(href, FilePrefix) {
        r := r + [href];
      }
    }
    assert hrefs[..|hrefs|] == hrefs;
  }

  /** `get_image_url_from_linkk`: the file page's cover image, provided the
      page was answered with 200 and a HEAD request for the image was
      answered with 200. `headOk` is the set of URLs whose HEAD request
      succeeds with 200. */
  function ImageUrlFromLink(site: Site<Page>, headOk: set<Url>, link: Url): (r: Option<Url>)
    ensures r.Some? ==> Served(site, link) && site[link].body.coverSrc == r && r.value in headOk
  {
    if !Served(site, link) then None
    else match site[link].body.coverSrc
      case None => None
      case Some(src) => if src in headOk then Some(src) else None
  }

  /** The probes of the file-page links, in order. */
  function Probes(site: Site<Page>, headOk: set<Url>, links: seq<Url>): (r: seq<Option<Url>>)
    ensures |r| == |links|
    ensures forall i :: 0 <= i < |links| ==> r[i] == ImageUrlFromLink(site, headOk, links[i])
  {
    seq(|links|, i requires 0 <= i < |links| => ImageUrlFromLink(site, headOk, links[i]))
  }

  /** The values among the probes' answers, in order. */
  function Somes(xs: seq<Option<Url>>): (r: seq<Url>)
    ensures forall x :: x in r <==> Some(x) in xs
  {
    if xs == [] then []
    else
      assert forall y :: y in xs <==> y == xs[0] || y in xs[1..];
      match xs[0]
      case Some(x) => [x] + Somes(xs[1..])
      case None => Somes(xs[1..])
  }

  predicate IsThumbnail(url: Url) {
    Contains(url, "/thumb/")
  }

  /** The gallery from the probes' answers: the URLs found, no thumbnail,
      each once. */
  function GalleryUrls(results: seq<Option<Url>>): set<Url> {
    set x | x in Somes(results) && !IsThumbnail(x)
  }

  /** The file-page links of the albums, album after album. */
  function LinksOfAlbums(site: Site<Page>, albums: seq<Url>): seq<Url> {
    if albums == [] then [] else AlbumImageLinks(site, albums[0]) + LinksOfAlbums(site, albums[1..])
  }

  lemma {:induction false} LinksOfAlbumsSnoc(site: Site<Page>, albums: seq<Url>, album: Url)
    ensures LinksOfAlbums(site, albums + [album]) == LinksOfAlbums(site, albums) + AlbumImageLinks(site, album)
  {
    if albums == [] {
      assert [] + [album] == [album];
    } else {
      assert (albums + [album])[1..] == albums[1..] + [album];
      LinksOfAlbumsSnoc(site, albums[1..], album);
    }
  }

  lemma {:induction false} LinksOfAlbumsContents(site: Site<Page>, albums: seq<Url>)
    ensures forall l :: l in LinksOfAlbums(site, albums) <==> exists a :: a in albums && l in AlbumImageLinks(site, a)
  {
    if albums != [] {
      LinksOfAlbumsContents(site, albums[1..]);
      assert forall a :: a in albums <==> a == albums[0] || a in albums[1..];
    }
  }

  /** The gallery of an account: the search walk from page 1, then its albums. */
  function Gallery(site: Site<Page>, headOk: set<Url>, username: string): set<Url> {
    GalleryUrls(Probes(site, headOk, LinksOfAlbums(site, SearchWalk(site, username, 1, []).links)))
  }

  /** The loop of `fetch_bunkr_gallery_images` over the albums: each
      album's file-page links, in album order. */
  method CollectImageLinks(site: Site<Page>, albums: seq<Url>) returns (links: seq<Url>)
    ensures links == LinksOfAlbums(site, albums)
  {
    links := [];
    for i := 0 to |albums|
      invariant links == LinksOfAlbums(site, albums[..i])
    {
      var imgPageLinks := ImageLinksFromAlbum(site, albums[i]);
      LinksOfAlbumsSnoc(site, albums[..i], albums[i]);
      assert albums[..i + 1] == albums[..i] + [albums[i]];
      links := links + imgPageLinks;
    }
    assert albums[..|albums|] == albums;
  }

  /** `fetch_bunkr_gallery_images`: the album links of the search, each
      album's file-page links in turn, all probes gathered, then the found
      URLs without thumbnails, each once. */
  method FetchGalleryImages(site: Site<Page>, headOk: set<Url>, username: string) returns (r: seq<Url>)
    ensures NoDups(r)
    ensures forall x :: x in r <==> x in Gallery(site, headOk, username)
  {
    var albumLinks, lastPage := AllAlbumLinksFromSearch(site, username);
    var links := CollectImageLinks(site, albumLinks);
    var results := Probes(site, headOk, links);
    r := ListOf(GalleryUrls(results));
  }

  /** The search found album `a`, which links to file page `l`, answered
      with 200 and showing `x` as its cover image. */
  predicate ShownBy(site: Site<Page>, username: string, a: Url, l: Url, x: Url) {
    a in SearchWalk(site, username, 1, []).links && l in AlbumImageLinks(site, a) &&
    Served(site, l) && site[l].body.coverSrc == Some(x)
  }

  lemma GalleryOrigin(site: Site<Page>, headOk: set<Url>, username: string, x: Url)
    requires x in Gallery(site, headOk, username)
    ensures !IsThumbnail(x) && x in headOk && exists a, l :: ShownBy(site, username, a, l, x)
  {
    var albums := SearchWalk(site, username, 1, []).links;
    var links := LinksOfAlbums(site, albums);
    var probes := Probes(site, headOk, links);
    LinksOfAlbumsContents(site, albums);
    assert Some(x) in probes;
    var i := IndexOf(probes, Some(x));
    var l := links[i];
    assert ImageUrlFromLink(site, headOk, l) == Some(x);
    assert l in links;
    var a :| a in albums && l in AlbumImageLinks(site, a);
    assert ShownBy(site, username, a, l, x);
  }

  lemma GalleryComplete(site: Site<Page>, headOk: set<Url>, username: string, a: Url, l: Url, x: Url)
    requires !IsThumbnail(x) && x in headOk && ShownBy(site, username, a, l, x)
    ensures x in Gallery(site, headOk, username)
  {
    var albums := SearchWalk(site, username, 1, []).links;
    var links := LinksOfAlbums(site, albums);
    var probes := Probes(site, headOk, links);
    LinksOfAlbumsContents(site, albums);
    assert l in links;
    var i := IndexOf(links, l);
    assert probes[i] == ImageUrlFromLink(site, headOk, l) == Some(x);
    assert Some(x) in probes;
  }

  /** What the gallery promises: an URL is in it exactly when some album the
      search found links to a file page that was answered with 200 and shows
      it as its cover image, the image's HEAD request succeeded, and it is
      not a thumbnail. A search that finds nothing gives an empty gallery. */
  lemma GalleryProperties(site: Site<Page>, headOk: set<Url>, username: string, x: Url)
    ensures x in Gallery(site, headOk, username) <==>
      !IsThumbnail(x) && x in headOk && exists a, l :: ShownBy(site, username, a, l, x)
    ensures SearchWalk(site, username, 1, []).links == [] ==> Gallery(site, headOk, username) == {}
  {
    if x in Gallery(site, headOk, username) {
      GalleryOrigin(site, headOk, username, x);
    }
    if !IsThumbnail(x) && x in headOk && exists a, l :: ShownBy(site, username, a, l, x) {
      var a, l :| ShownBy(site, username, a, l, x);
      GalleryComplete(site, headOk, username, a, l, x);
    }
    if SearchWalk(site, username, 1, []).links == [] {
      assert LinksOfAlbums(site, []) == [];
      assert Somes([]) == [];
    }
  }
}
