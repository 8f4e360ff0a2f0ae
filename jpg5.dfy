/** JPG5: an album walked along its "next" pagination link, collecting the
    image sources hosted on the site, until a page fails, shows nothing, shows
    nothing new, or has no next link (`extract_jpg5_album_media_urls`). */
module Jpg5 {
  import opened Seqs
  import opened Strings
  import opened Site

  const Domain := "jpg5.su"
  const Origin := "https://jpg5.su"

  /** What the walker reads from one album page. */
  datatype Page = Page(
    imgSrcs: seq<Url>,      // src of every <img src=...>
    nextHref: Option<Url>)  // href of <a data-pagination="next">, when both exist

  /** The media of one page: the image sources that mention the site's domain. */
  function PageMedia(srcs: seq<Url>): set<Url> {
    set x | x in srcs && Contains(x, Domain)
  }

  /** The URL of the next page: an absolute link as it is, anything else
      appended to the site's origin. */
  function NextPageUrl(href: Url): (r: Url)
    ensures StartsWith(r, "http") && EndsWith(r, href)
  {
    if StartsWith(href, "http") then href
    else
      var r := Origin + href;
      assert r[..4] == "http";
      assert r[|r| - |href|..] == href;
      r
  }

  /** An already absolute link is precisely the next page's URL, and
      prefixing is idempotent. */
  lemma NextPageUrlProperties(href: Url)
    ensures StartsWith(href, "http") <==> NextPageUrl(href) == href
    ensures NextPageUrl(NextPageUrl(href)) == NextPageUrl(href)
  {
    if !StartsWith(href, "http") {
      assert |NextPageUrl(href)| == |Origin| + |href|;
    }
  }

  /** Every source on every page of the site that mentions the domain. */
  function SiteMedia(site: Site<Page>): set<Url> {
    set k, x | k in site && x in site[k].body.imgSrcs && Contains(x, Domain) :: x
  }

  /** The walk's state: the media collected so far and the pages requested in order. */
  datatype Walk = Walk(media: set<Url>, fetched: seq<Url>)

  const Start := Walk({}, [])

  /** A page that adds media leaves less of the site's media to collect. */
  lemma NewMediaShrinks(site: Site<Page>, url: Url, media: set<Url>)
    requires url in site
    requires PageMedia(site[url].body.imgSrcs) - media != {}
    ensures SiteMedia(site) - (media + PageMedia(site[url].body.imgSrcs)) < SiteMedia(site) - media
  {
    var x :| x in PageMedia(site[url].body.imgSrcs) - media;
    assert x in SiteMedia(site);
  }

  /** The walk from `url` with `acc` collected: stop on an empty URL; request
      it; stop when the request fails or its status is not 200, when the page
      shows no media or none that is new; otherwise keep its new media and
      follow its next link, or stop when it has none. */
  function WalkFrom(site: Site<Page>, url: Url, acc: Walk): (r: Walk)
    ensures acc.media <= r.media && acc.fetched <= r.fetched
    decreases SiteMedia(site) - acc.media
  {
    if url == "" then acc
    else
      var stopped := Walk(acc.media, acc.fetched + [url]);
      if !Served(site, url) then stopped
      else
        var page := site[url].body;
        var current := PageMedia(page.imgSrcs);
        if current == {} || current - acc.media == {} then stopped
        else
          NewMediaShrinks(site, url, acc.media);
          var next := Walk(acc.media + current, acc.fetched + [url]);
          match page.nextHref
          case None => next
          case Some(href) => WalkFrom(site, NextPageUrl(href), next)
  }

  /** The media of an album: the walk from its URL without trailing `/`. */
  function AlbumMedia(site: Site<Page>, albumUrl: Url): set<Url> {
    WalkFrom(site, RStrip(albumUrl, '/'), Start).media
  }

  function AlbumFetches(site: Site<Page>, albumUrl: Url): seq<Url> {
    WalkFrom(site, RStrip(albumUrl, '/'), Start).fetched
  }

  /** The media the served pages among `urls` show. */
  function ServedMedia(site: Site<Page>, urls: seq<Url>): set<Url> {
    set u, x | u in urls && Served(site, u) && x in PageMedia(site[u].body.imgSrcs) :: x
  }

  /** The walk's media is exactly the media of the pages it requested and
      that were answered with 200: earlier results are kept, and a page that
      failed, showed nothing new or stopped the walk added only media already
      held. */
  lemma {:induction false} WalkCollectsServedMedia(site: Site<Page>, url: Url, acc: Walk)
    requires acc.media == ServedMedia(site, acc.fetched)
    ensures var w := WalkFrom(site, url, acc);
      w.media == ServedMedia(site, w.fetched)
    decreases SiteMedia(site) - acc.media
  {
    if url != "" {
      var f := acc.fetched + [url];
      ServedMediaAppend(site, acc.fetched, url);
      if Served(site, url) {
        var page := site[url].body;
        var current := PageMedia(page.imgSrcs);
        if current != {} && current - acc.media != {} {
          NewMediaShrinks(site, url, acc.media);
          var next := Walk(acc.media + current, f);
          match page.nextHref
          case None =>
          case Some(href) =>
            WalkCollectsServedMedia(site, NextPageUrl(href), next);
        } else {
          forall x | x in current ensures x in acc.media {
            assert x !in current - acc.media;
          }
        }
      }
    }
  }

  /** The media of the served pages among `urls` and one more page. */
  lemma ServedMediaAppend(site: Site<Page>, urls: seq<Url>, u: Url)
    ensures ServedMedia(site, urls + [u]) ==
      ServedMedia(site, urls) + (if Served(site, u) then PageMedia(site[u].body.imgSrcs) else {})
  {
    var whole := urls + [u];
    forall x | x in ServedMedia(site, whole)
      ensures x in ServedMedia(site, urls) || (Served(site, u) && x in PageMedia(site[u].body.imgSrcs))
    {
      var v :| v in whole && Served(site, v) && x in PageMedia(site[v].body.imgSrcs);
      if v != u {
        assert v in urls;
      }
    }
    forall x | x in ServedMedia(site, urls) ensures x in ServedMedia(site, whole) {
      var v :| v in urls && Served(site, v) && x in PageMedia(site[v].body.imgSrcs);
      assert v in whole;
    }
    assert u in whole;
  }

  /** The walk requests at most one page more than there are media left on
      the site to collect. */
  lemma {:induction false} WalkRequestBound(site: Site<Page>, url: Url, acc: Walk)
    ensures |WalkFrom(site, url, acc).fetched| <= |acc.fetched| + |SiteMedia(site) - acc.media| + 1
    decreases SiteMedia(site) - acc.media
  {
    if url != "" && Served(site, url) {
      var page := site[url].body;
      var current := PageMedia(page.imgSrcs);
      if current != {} && current - acc.media != {} {
        NewMediaShrinks(site, url, acc.media);
        var next := Walk(acc.media + current, acc.fetched + [url]);
        match page.nextHref
        case None =>
        case Some(href) =>
          WalkRequestBound(site, NextPageUrl(href), next);
          SubsetCardinality(SiteMedia(site) - next.media, SiteMedia(site) - acc.media);
      }
    }
  }

  /** Request `i` was answered with 200 and showed media that none of the
      requests before it showed. */
  predicate AddsMedia(site: Site<Page>, fetched: seq<Url>, i: nat)
    requires i < |fetched|
  {
    Served(site, fetched[i]) && PageMedia(site[fetched[i]].body.imgSrcs) - ServedMedia(site, fetched[..i]) != {}
  }

  /** Every request from `from` on, except the last, adds media. */
  predicate AddMediaFrom(site: Site<Page>, fetched: seq<Url>, from: nat) {
    forall i :: from <= i < |fetched| - 1 ==> AddsMedia(site, fetched, i)
  }

  /** Every page before the last was answered with 200 and showed media that
      none of the pages requested before it showed: each completed step
      enlarges the media collected. */
  lemma {:induction false} WalkGrowsEachStep(site: Site<Page>, url: Url, acc: Walk)
    requires acc.media == ServedMedia(site, acc.fetched)
    ensures AddMediaFrom(site, WalkFrom(site, url, acc).fetched, |acc.fetched|)
    decreases SiteMedia(site) - acc.media
  {
    if url != "" && Served(site, url) {
      var page := site[url].body;
      var current := PageMedia(page.imgSrcs);
      if current != {} && current - acc.media != {} {
        NewMediaShrinks(site, url, acc.media);
        var f := acc.fetched + [url];
        var next := Walk(acc.media + current, f);
        match page.nextHref
        case None =>
        case Some(href) =>
          var w := WalkFrom(site, NextPageUrl(href), next);
          ServedMediaAppend(site, acc.fetched, url);
          assert WalkFrom(site, url, acc) == w;
          WalkGrowsEachStep(site, NextPageUrl(href), next);
          StepAddsMedia(site, acc, url, w.fetched);
      }
    }
  }

  /** The page a step requests, answered with 200 and showing media not held,
      adds media that none of the earlier requests showed. */
  lemma StepAddsMedia(site: Site<Page>, acc: Walk, url: Url, fetched: seq<Url>)
    requires acc.media == ServedMedia(site, acc.fetched)
    requires Served(site, url) && PageMedia(site[url].body.imgSrcs) - acc.media != {}
    requires acc.fetched + [url] <= fetched
    requires AddMediaFrom(site, fetched, |acc.fetched| + 1)
    ensures AddMediaFrom(site, fetched, |acc.fetched|)
  {
    var i := |acc.fetched|;
    assert fetched[i] == (acc.fetched + [url])[i] == url;
    assert fetched[..i] == acc.fetched;
    assert AddsMedia(site, fetched, i);
  }

  lemma SubsetCardinality<T>(a: set<T>, b: set<T>)
    requires a < b
    ensures |a| < |b|
  {
    assert b == a + (b - a);
    assert a * (b - a) == {};
    assert b - a != {};
  }

  /** A page whose media all appeared on an earlier page stops the walk, so
      only the last request can be for a page requested before: the
      new-media test is the walk's cycle guard. */
  lemma RequestsDistinctButLast(site: Site<Page>, fetched: seq<Url>)
    requires forall i :: 0 <= i < |fetched| - 1 ==> AddsMedia(site, fetched, i)
    ensures forall i, j :: 0 <= i < j < |fetched| - 1 ==> fetched[i] != fetched[j]
  {
    forall i, j | 0 <= i < j < |fetched| - 1 ensures fetched[i] != fetched[j] {
      var u := fetched[i];
      assert AddsMedia(site, fetched, i) && AddsMedia(site, fetched, j);
      assert u in fetched[..j];
      forall x | x in PageMedia(site[u].body.imgSrcs) ensures x in ServedMedia(site, fetched[..j]) {
      }
    }
  }

  /** What `extract_jpg5_album_media_urls` promises: every URL it returns
      mentions the domain; the answer is exactly the media of the pages
      requested, starting from the URL without trailing `/`, and answered with
      200; every page before the last was answered with 200 and showed media
      no earlier page showed, so no page but the last is requested twice and
      the walk ends after at most one request more than the site has media. */
  lemma AlbumMediaProperties(site: Site<Page>, albumUrl: Url)
    ensures forall x :: x in AlbumMedia(site, albumUrl) ==> Contains(x, Domain)
    ensures AlbumMedia(site, albumUrl) == ServedMedia(site, AlbumFetches(site, albumUrl))
    ensures RStrip(albumUrl, '/') == "" <==> AlbumFetches(site, albumUrl) == []
    ensures AlbumFetches(site, albumUrl) != [] ==> AlbumFetches(site, albumUrl)[0] == RStrip(albumUrl, '/')
    ensures var fetched := AlbumFetches(site, albumUrl);
      |fetched| <= |SiteMedia(site)| + 1 &&
      (forall i :: 0 <= i < |fetched| - 1 ==> AddsMedia(site, fetched, i)) &&
      forall i, j :: 0 <= i < j < |fetched| - 1 ==> fetched[i] != fetched[j]
  {
    var start := RStrip(albumUrl, '/');
    assert ServedMedia(site, []) == {};
    WalkCollectsServedMedia(site, start, Start);
    WalkRequestBound(site, start, Start);
    WalkGrowsEachStep(site, start, Start);
    RequestsDistinctButLast(site, AlbumFetches(site, albumUrl));
    if start != "" {
      StartOfWalk(site, start, Start);
    }
  }

  /** A last page linking back to the first is requested again: the walk
      from `a` requests `a`, `b` and `a`, and stops there because `a` shows
      nothing new. */
  lemma RevisitExample(site: Site<Page>, a: Url, b: Url, m1: Url, m2: Url)
    requires a == "https://jpg5.su/a" && b == "https://jpg5.su/b"
    requires m1 == "https://jpg5.su/m1" && m2 == "https://jpg5.su/m2"
    requires a in site && site[a] == Response(200, a, Page([m1], Some(b)))
    requires b in site && site[b] == Response(200, b, Page([m1, m2], Some(a)))
    ensures WalkFrom(site, a, Start).fetched == [a, b, a]
  {
    ExampleMedia(m1, m2);
    NextPageUrlProperties(a);
    NextPageUrlProperties(b);
    assert site[a].body.imgSrcs == [m1] && site[b].body.imgSrcs == [m1, m2];
    assert m1 in PageMedia(site[a].body.imgSrcs) - Start.media;
    WalkStep(site, a, Start, b);
    assert {} + {m1} == {m1} && [] + [a] == [a];
    assert m2 in PageMedia(site[b].body.imgSrcs) - {m1};
    WalkStep(site, b, Walk({m1}, [a]), a);
    assert {m1} + {m1, m2} == {m1, m2} && [a] + [b] == [a, b];
    WalkStops(site, a, Walk({m1, m2}, [a, b]));
  }

  lemma ExampleMedia(m1: Url, m2: Url)
    requires m1 == "https://jpg5.su/m1" && m2 == "https://jpg5.su/m2"
    ensures m1 != m2 && PageMedia([m1]) == {m1} && PageMedia([m1, m2]) == {m1, m2}
  {
    assert m1[17] != m2[17];
    assert OccursAt(m1, Domain, 8) && OccursAt(m2, Domain, 8);
  }

  /** A page answered with 200 that shows new media and links on continues
      the walk from its next link. */
  lemma WalkStep(site: Site<Page>, url: Url, acc: Walk, href: Url)
    requires url != "" && Served(site, url) && site[url].body.nextHref == Some(href)
    requires PageMedia(site[url].body.imgSrcs) - acc.media != {}
    ensures WalkFrom(site, url, acc) ==
      WalkFrom(site, NextPageUrl(href), Walk(acc.media + PageMedia(site[url].body.imgSrcs), acc.fetched + [url]))
  {
  }

  /** A page answered with 200 whose media are all held ends the walk. */
  lemma WalkStops(site: Site<Page>, url: Url, acc: Walk)
    requires url != "" && Served(site, url)
    requires PageMedia(site[url].body.imgSrcs) <= acc.media
    ensures WalkFrom(site, url, acc) == Walk(acc.media, acc.fetched + [url])
  {
    assert PageMedia(site[url].body.imgSrcs) - acc.media == {};
  }

  /** A walk from a non-empty URL requests that URL first. */
  lemma StartOfWalk(site: Site<Page>, url: Url, acc: Walk)
    requires url != ""
    ensures var w := WalkFrom(site, url, acc);
      |acc.fetched| < |w.fetched| && w.fetched[|acc.fetched|] == url
  {
    var f := acc.fetched + [url];
    assert f[|acc.fetched|] == url;
  }

  /** The `while` loop of `extract_jpg5_album_media_urls`. */
  method WalkAlbum(site: Site<Page>, start: Url) returns (w: Walk)
    ensures w == WalkFrom(site, start, Start)
  {
    var media: set<Url> := {};
    var fetched: seq<Url> := [];
    var url := start;
    var done := false;
    while url != "" && !done
      invariant !done ==> WalkFrom(site, url, Walk(media, fetched)) == WalkFrom(site, start, Start)
      invariant done ==> Walk(media, fetched) == WalkFrom(site, start, Start)
      decreases SiteMedia(site) - media, if done then 0 else 1
    {
      fetched := fetched + [url];
      if !Served(site, url) {
        done := true;
      } else {
        var page := site[url].body;
        var current := PageMedia(page.imgSrcs);
        if current == {} {
          done := true;
        } else {
          var newMedia := current - media;
          if newMedia == {} {
            done := true;
          } else {
            NewMediaShrinks(site, url, media);
            assert media + newMedia == media + current;
            media := media + newMedia;
            match page.nextHref {
              case None =>
                done := true;
              case Some(href) =>
                url := NextPageUrl(href);
            }
          }
        }
      }
    }
    w := Walk(media, fetched);
  }

  /** `extract_jpg5_album_media_urls`: the walk from the album URL without
      trailing `/`, its media as a list without duplicates. */
  method ExtractAlbumMediaUrls(site: Site<Page>, albumUrl: Url)
    returns (r: seq<Url>, ghost fetched: seq<Url>)
    ensures NoDups(r)
    ensures forall x :: x in r <==> x in AlbumMedia(site, albumUrl)
    ensures fetched == AlbumFetches(site, albumUrl)
  {
    var w := WalkAlbum(site, RStrip(albumUrl, '/'));
    r := ListOf(w.media);
    fetched := w.fetched;
  }
}
