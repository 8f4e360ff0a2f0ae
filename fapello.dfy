/** Fapello: one account's album, walked one page at a time along the
    infinite-scroll "next page" link, with a visited set as cycle guard
    (`fetch_fapello_album_media`). */
module Fapello {
  import opened Seqs
  import opened Strings
  import opened Site

  const ImagePrefix := "https://fapello.com/content/"
  const VideoPrefix := "https://cdn.fapello.com/content/"

  /** What the walker reads from one album page. */
  datatype Page = Page(
    imgSrcs: seq<Url>,      // src of every <img src=...>, in document order
    videoSrcs: seq<Url>,    // src of every <source type="video/mp4" src=...>
    nextHref: Option<Url>)  // href of the first <a href> inside <div id="next_page">, when both exist

  datatype Media = Media(images: seq<Url>, videos: seq<Url>)

  /** The image test as the program writes it: a content URL in which
      `/<username>/` occurs anywhere, the host and the `content` folder
      included. */
  predicate KeepImageAsWritten(src: Url, username: string) {
    StartsWith(src, ImagePrefix) && Contains(src, "/" + username + "/")
  }

  /** The image test the walk uses: a content URL in which `/<username>/`
      occurs below the `content` folder, that is in the part of the URL
      starting at the prefix's last `/`. */
  predicate KeepImage(src: Url, username: string) {
    StartsWith(src, ImagePrefix) && Contains(src[|ImagePrefix| - 1..], "/" + username + "/")
  }

  predicate KeepVideo(src: Url) {
    StartsWith(src, VideoPrefix) && (EndsWith(src, ".mp4") || EndsWith(src, ".m4v"))
  }

  /** The images of one page that belong to the account, in page order. */
  function PageImages(srcs: seq<Url>, username: string): (r: seq<Url>)
    ensures forall x :: x in r <==>
      x in srcs && StartsWith(x, ImagePrefix) && Contains(x[|ImagePrefix| - 1..], "/" + username + "/")
  {
    Filter(src => KeepImage(src, username), srcs)
  }

  /** The videos of one page: CDN content with an allowed extension. */
  function PageVideos(srcs: seq<Url>): (r: seq<Url>)
    ensures forall x :: x in r <==>
      x in srcs && StartsWith(x, VideoPrefix) && (EndsWith(x, ".mp4") || EndsWith(x, ".m4v"))
  {
    Filter(KeepVideo, srcs)
  }

  predicate NoSlash(s: string) {
    forall i :: 0 <= i < |s| ==> s[i] != '/'
  }

  /** An occurrence of `/<u>/` is a run of `u` between two `/`, and when `u`
      holds no `/` those two are consecutive `/` of the string. */
  lemma SlashedRun(s: string, u: string, i: int)
    requires OccursAt(s, "/" + u + "/", i)
    ensures s[i] == '/' && s[i + |u| + 1] == '/' && s[i + 1..i + |u| + 1] == u
    ensures NoSlash(u) ==> forall k :: i < k < i + |u| + 1 ==> s[k] != '/'
  {
    var w := "/" + u + "/";
    assert s[i..i + |w|] == w;
    assert w[0] == '/' && w[|u| + 1] == '/' && w[1..|u| + 1] == u;
    assert s[i] == w[0] && s[i + |u| + 1] == w[|u| + 1];
    assert forall m :: 0 <= m < |u| ==> s[i + 1 + m] == w[1 + m] == u[m];
    assert s[i + 1..i + |u| + 1] == u;
    if NoSlash(u) {
      forall k | i < k < i + |u| + 1 ensures s[k] != '/' {
        assert s[k] == w[k - i] == u[k - i - 1];
      }
    }
  }

  /** An occurrence in a suffix is an occurrence in the whole string. */
  lemma OccursInSuffix(s: string, sub: string, k: nat, j: int)
    requires k <= |s| && OccursAt(s[k..], sub, j)
    ensures OccursAt(s, sub, k + j)
  {
    assert s[k..][j..j + |sub|] == s[k + j..k + j + |sub|];
  }

  /** The `/` of the content prefix are at positions 6, 7, 19 and 27. */
  lemma PrefixSlashes(src: Url, k: int)
    requires StartsWith(src, ImagePrefix) && 0 <= k < |ImagePrefix| && src[k] == '/'
    ensures k == 6 || k == 7 || k == 19 || k == 27
  {
    assert src[k] == ImagePrefix[k];
  }

  /** An image in an account's own folder: the walk's test keeps it exactly
      for that account. */
  lemma OwnFolderImage(other: string, file: string, username: string)
    requires NoSlash(other) && NoSlash(file) && NoSlash(username)
    ensures KeepImage(ImagePrefix + other + "/" + file, username) <==> username == other
  {
    var src := ImagePrefix + other + "/" + file;
    StartsWithConcat(ImagePrefix, other + "/" + file);
    assert ImagePrefix + (other + "/" + file) == src;
    var tail := src[|ImagePrefix| - 1..];
    assert tail == "/" + other + "/" + file;
    var w := "/" + username + "/";
    if username == other {
      assert tail[0..|w|] == w;
      assert OccursAt(tail, w, 0);
    }
    if Contains(tail, w) {
      var j :| 0 <= j <= |tail| - |w| && OccursAt(tail, w, j);
      SlashedRun(tail, username, j);
      assert tail[1..|other| + 1] == other;
    }
  }

  /** An image in an account's own folder is kept for that account. */
  lemma OwnFolderImageKept(username: string, file: string)
    requires NoSlash(username) && NoSlash(file)
    ensures KeepImage(ImagePrefix + username + "/" + file, username)
  {
    OwnFolderImage(username, file, username);
  }

  /** An image in another account's folder is dropped, both by the walk's test
      and, except for the account names `fapello.com` and `content`, by the
      program's own test. */
  lemma OtherFolderImageDropped(other: string, file: string, username: string)
    requires NoSlash(other) && NoSlash(file) && NoSlash(username)
    requires username != "" && username != other
    ensures !KeepImage(ImagePrefix + other + "/" + file, username)
    ensures username != "fapello.com" && username != "content" ==>
      !KeepImageAsWritten(ImagePrefix + other + "/" + file, username)
  {
    OwnFolderImage(other, file, username);
    if username != "fapello.com" && username != "content" {
      KeepImageAgrees(ImagePrefix + other + "/" + file, username);
    }
  }

  /** An occurrence of `/<u>/` that starts inside the content prefix is one
      of its two runs between `/`: the host or the `content` folder. */
  lemma OccursInPrefix(src: Url, username: string, i: int)
    requires StartsWith(src, ImagePrefix) && username != "" && NoSlash(username)
    requires OccursAt(src, "/" + username + "/", i) && i < |ImagePrefix| - 1
    ensures username == "fapello.com" || username == "content"
  {
    SlashedRun(src, username, i);
    PrefixSlashes(src, i);
    assert src[i + 1] != '/';
    if i == 7 {
      RunBetween(src, username, 7, 19);
      PrefixRun(src, 8, 19);
      assert ImagePrefix[8..19] == "fapello.com";
    } else {
      RunBetween(src, username, 19, 27);
      PrefixRun(src, 20, 27);
      assert ImagePrefix[20..27] == "content";
    }
  }

  lemma PrefixRun(src: Url, i: int, j: int)
    requires StartsWith(src, ImagePrefix) && 0 <= i <= j <= |ImagePrefix|
    ensures src[i..j] == ImagePrefix[i..j]
  {
    assert src[i..j] == src[..|ImagePrefix|][i..j];
  }

  /** A run of `u` starting after the prefix's `/` at `i` ends at the
      prefix's next `/`, at `j`. */
  lemma RunBetween(src: Url, username: string, i: int, j: int)
    requires StartsWith(src, ImagePrefix) && NoSlash(username)
    requires (i == 7 && j == 19) || (i == 19 && j == 27)
    requires src[i] == '/' && i + |username| + 1 < |src| && src[i + |username| + 1] == '/'
    requires forall k :: i < k < i + |username| + 1 ==> src[k] != '/'
    ensures i + |username| + 1 == j
  {
    var e := i + |username| + 1;
    assert src[j] == '/';
    if e < j {
      PrefixSlashes(src, e);
    }
  }

  /** The two tests differ only for the account names `fapello.com` and
      `content`: an image the walk's test keeps passes the program's test,
      and for every other account name the program's test passes only there. */
  lemma KeepImageAgrees(src: Url, username: string)
    requires username != "" && NoSlash(username)
    ensures KeepImage(src, username) ==> KeepImageAsWritten(src, username)
    ensures username != "fapello.com" && username != "content" ==>
      (KeepImageAsWritten(src, username) ==> KeepImage(src, username))
  {
    var w := "/" + username + "/";
    var k := |ImagePrefix| - 1;
    if KeepImage(src, username) {
      var j :| 0 <= j <= |src[k..]| - |w| && OccursAt(src[k..], w, j);
      OccursInSuffix(src, w, k, j);
    }
    if username != "fapello.com" && username != "content" && KeepImageAsWritten(src, username) {
      var i :| 0 <= i <= |src| - |w| && OccursAt(src, w, i);
      if i < k {
        OccursInPrefix(src, username, i);
      } else {
        assert src[k..][i - k..i - k + |w|] == src[i..i + |w|];
        assert OccursAt(src[k..], w, i - k);
      }
    }
  }

  /** The program's test keeps another account's image for the account
      names `content` and `fapello.com`, which occur in every content URL;
      the walk's test drops it. */
  lemma AsWrittenKeepsOtherAccounts(other: string, file: string, username: string)
    requires NoSlash(other) && NoSlash(file)
    requires (username == "content" || username == "fapello.com") && username != other
    ensures KeepImageAsWritten(ImagePrefix + other + "/" + file, username)
    ensures !KeepImage(ImagePrefix + other + "/" + file, username)
  {
    assert ImagePrefix + other + "/" + file == ImagePrefix + (other + "/" + file);
    if username == "content" {
      FolderInEveryImage(other + "/" + file);
    } else {
      HostInEveryImage(other + "/" + file);
    }
    OwnFolderImage(other, file, username);
  }

  /** `/content/` occurs in every content URL. */
  lemma FolderInEveryImage(rest: string)
    ensures KeepImageAsWritten(ImagePrefix + rest, "content")
  {
    StartsWithConcat(ImagePrefix, rest);
    assert "/" + "content" + "/" == "/content/";
    assert ImagePrefix == "https://fapello.com" + "/content/";
    ContainsMiddle("https://fapello.com", "/content/", rest);
    assert ImagePrefix + rest == "https://fapello.com" + "/content/" + rest;
  }

  /** `/fapello.com/` occurs in every content URL. */
  lemma HostInEveryImage(rest: string)
    ensures KeepImageAsWritten(ImagePrefix + rest, "fapello.com")
  {
    StartsWithConcat(ImagePrefix, rest);
    assert "/" + "fapello.com" + "/" == "/fapello.com/";
    assert ImagePrefix == "https:/" + "/fapello.com/" + "content/";
    ContainsMiddle("https:/", "/fapello.com/", "content/" + rest);
    assert ImagePrefix + rest == "https:/" + "/fapello.com/" + ("content/" + rest);
  }

  /** The account name: the first segment of the album URL's path once the
      path's leading and trailing `/` are removed. */
  function Username(albumUrl: Url): (r: string)
    ensures forall i :: 0 <= i < |r| ==> r[i] != '/'
  {
    FirstSegment(Strip(PathOf(albumUrl), '/'))
  }

  /** `https:` is a scheme: what follows it is the rest of the URL. */
  lemma AfterHttpsScheme(tail: string)
    requires tail != [] && tail[0] == ':'
    ensures AfterScheme("https" + tail) == tail[1..]
  {
    TakeUntilConcat("https", tail, {':'});
    TakeUntilAtStop(tail, {':'});
    assert "https" + [] == "https";
  }

  /** A network location without `/`, `?` or `#` ends where the path starts. */
  lemma HostEndsAtPath(host: string, path: string)
    requires forall i :: 0 <= i < |host| ==> host[i] !in {'/', '?', '#'}
    requires path != [] && path[0] == '/'
    ensures DropUntil(host + path, {'/', '?', '#'}) == path
  {
    TakeUntilConcat(host, path, {'/', '?', '#'});
    TakeUntilAtStop(path, {'/', '?', '#'});
    assert host + [] == host;
  }

  lemma AfterHttps(host: string, path: string)
    ensures AfterScheme("https://" + host + path) == "//" + host + path
  {
    var tail := "://" + host + path;
    assert "https://" + host + path == "https" + tail;
    assert tail[1..] == "//" + host + path;
    AfterHttpsScheme(tail);
  }

  /** With a network location that holds no `/`, `?` or `#`, the path is what
      follows it, up to the first `?` or `#`. */
  lemma PathAfterHost(host: string, path: string)
    requires forall i :: 0 <= i < |host| ==> host[i] !in {'/', '?', '#'}
    requires path != [] && path[0] == '/'
    requires forall i :: 0 <= i < |path| ==> path[i] !in {'?', '#'}
    ensures PathOf("https://" + host + path) == path
  {
    var rest := "//" + host + path;
    AfterHttps(host, path);
    assert StartsWith(rest, "//") && rest[2..] == host + path;
    HostEndsAtPath(host, path);
    TakeUntilConcat(path, [], {'?', '#'});
    assert path + [] == path;
  }

  /** A profile URL of the form `https://fapello.com/<name>/` gives back `<name>`. */
  lemma UsernameOfProfileUrl(name: string)
    requires forall i :: 0 <= i < |name| ==> name[i] != '/' && name[i] != '?' && name[i] != '#'
    ensures Username("https://fapello.com/" + name + "/") == name
  {
    var path := "/" + name + "/";
    assert "https://fapello.com/" + name + "/" == "https://" + "fapello.com" + path;
    PathAfterHost("fapello.com", path);
    StripUntouched(name, '/');
    assert ['/'] + name + ['/'] == path;
    TakeUntilConcat(name, [], {'/'});
    assert name + [] == name;
  }

  /** The walk's state: the media collected so far, the pages requested in
      order, and whether the last request raised. */
  datatype Walk = Walk(images: seq<Url>, videos: seq<Url>, fetched: seq<Url>, raised: bool)

  const Start := Walk([], [], [], false)

  /** A page answered with 200 added to the walk: its kept media appended,
      its URL recorded. */
  function Step(acc: Walk, url: Url, page: Page, username: string): (r: Walk)
    ensures r.fetched == acc.fetched + [url] && r.raised == acc.raised
    ensures acc.images <= r.images && acc.videos <= r.videos
  {
    Walk(acc.images + PageImages(page.imgSrcs, username), acc.videos + PageVideos(page.videoSrcs),
         acc.fetched + [url], acc.raised)
  }

  /** The walk from `url`, with `visited` requested already and `acc`
      collected: stop on an empty URL or a visited one; otherwise request it;
      raise when the host cannot be reached; stop on a status other than 200;
      otherwise add the page's media and follow its next link, resolved
      against the URL after redirects, or stop when it has none. `resolve`
      stands for `urljoin`. */
  function WalkFrom(site: Site<Page>, resolve: (Url, Url) -> Url, username: string,
                    url: Url, visited: set<Url>, acc: Walk): (r: Walk)
    ensures acc.images <= r.images && acc.videos <= r.videos && acc.fetched <= r.fetched
    decreases site.Keys - visited
  {
    if url == "" || url in visited then acc
    else if url !in site then Walk(acc.images, acc.videos, acc.fetched + [url], true)
    else if site[url].status != 200 then Walk(acc.images, acc.videos, acc.fetched + [url], acc.raised)
    else
      var response := site[url];
      var next := Step(acc, url, response.body, username);
      match response.body.nextHref
      case None => next
      case Some(href) =>
        WalkFrom(site, resolve, username, resolve(response.finalUrl, href), visited + {url}, next)
  }

  /** The album's media: nothing at all when the URL names no account,
      otherwise the walk's media without duplicates, unless a request raised. */
  function AlbumMedia(site: Site<Page>, resolve: (Url, Url) -> Url, albumUrl: Url): (r: Result<Media>)
    ensures r.Ok? ==> NoDups(r.value.images) && NoDups(r.value.videos)
  {
    var username := Username(albumUrl);
    if username == "" then Ok(Media([], []))
    else
      var w := WalkFrom(site, resolve, username, albumUrl, {}, Start);
      if w.raised then Raised else Ok(Media(Dedup(w.images), Dedup(w.videos)))
  }

  /** The pages requested while collecting the album's media. */
  function AlbumFetches(site: Site<Page>, resolve: (Url, Url) -> Url, albumUrl: Url): seq<Url> {
    var username := Username(albumUrl);
    if username == "" then [] else WalkFrom(site, resolve, username, albumUrl, {}, Start).fetched
  }

  /** The cycle guard: a page is requested at most once, and a visited page
      never again. */
  lemma {:induction false} WalkFetchesOnce(site: Site<Page>, resolve: (Url, Url) -> Url,
                                           username: string, url: Url, visited: set<Url>, acc: Walk)
    requires NoDups(acc.fetched)
    requires forall u :: u in acc.fetched ==> u in visited
    ensures var w := WalkFrom(site, resolve, username, url, visited, acc);
      acc.fetched <= w.fetched && NoDups(w.fetched) &&
      forall i :: |acc.fetched| <= i < |w.fetched| ==> w.fetched[i] !in visited
    decreases site.Keys - visited
  {
    if url == "" || url in visited {
    } else {
      NoDupsAppend(acc.fetched, url);
      if url in site && site[url].status == 200 {
        var response := site[url];
        var next := Step(acc, url, response.body, username);
        match response.body.nextHref
        case None =>
        case Some(href) =>
          WalkFetchesOnce(site, resolve, username, resolve(response.finalUrl, href), visited + {url}, next);
      }
    }
  }

  /** A walk raises exactly when its last request found no host; every
      request before the last one was answered with 200. */
  lemma {:induction false} WalkRaisesOnlyAtEnd(site: Site<Page>, resolve: (Url, Url) -> Url,
                                               username: string, url: Url, visited: set<Url>, acc: Walk)
    requires !acc.raised
    requires forall u :: u in acc.fetched ==> Served(site, u)
    ensures var w := WalkFrom(site, resolve, username, url, visited, acc);
      (w.raised <==> w.fetched != [] && w.fetched[|w.fetched| - 1] !in site) &&
      forall i :: 0 <= i < |w.fetched| - 1 ==> Served(site, w.fetched[i])
    decreases site.Keys - visited
  {
    var f := acc.fetched + [url];
    assert f[|f| - 1] == url;
    assert forall i :: 0 <= i < |f| - 1 ==> f[i] == acc.fetched[i];
    if url == "" || url in visited {
      if acc.fetched != [] {
        assert acc.fetched[|acc.fetched| - 1] in acc.fetched;
      }
    } else if url in site && site[url].status == 200 {
      var response := site[url];
      var next := Step(acc, url, response.body, username);
      match response.body.nextHref
      case None =>
      case Some(href) =>
        WalkRaisesOnlyAtEnd(site, resolve, username, resolve(response.finalUrl, href), visited + {url}, next);
    }
  }

  /** The account's media on every requested page answered with 200 is in
      the walk's lists, whatever stopped the walk. */
  lemma {:induction false} WalkKeepsServedMedia(site: Site<Page>, resolve: (Url, Url) -> Url,
                                                username: string, url: Url, visited: set<Url>, acc: Walk)
    requires forall u :: u in acc.fetched && Served(site, u) ==>
      (forall x :: x in PageImages(site[u].body.imgSrcs, username) ==> x in acc.images) &&
      (forall x :: x in PageVideos(site[u].body.videoSrcs) ==> x in acc.videos)
    ensures var w := WalkFrom(site, resolve, username, url, visited, acc);
      forall u :: u in w.fetched && Served(site, u) ==>
        (forall x :: x in PageImages(site[u].body.imgSrcs, username) ==> x in w.images) &&
        (forall x :: x in PageVideos(site[u].body.videoSrcs) ==> x in w.videos)
    decreases site.Keys - visited
  {
    if url == "" || url in visited {
    } else if url in site && site[url].status == 200 {
      var response := site[url];
      var next := Step(acc, url, response.body, username);
      match response.body.nextHref
      case None =>
      case Some(href) =>
        WalkKeepsServedMedia(site, resolve, username, resolve(response.finalUrl, href), visited + {url}, next);
    } else {
      assert forall u :: u in acc.fetched + [url] && Served(site, u) ==> u in acc.fetched;
    }
  }

  /** Nothing else is collected: every image and video passes its filter and
      comes from a page that was requested and answered with 200. */
  lemma {:induction false} WalkMediaOrigin(site: Site<Page>, resolve: (Url, Url) -> Url,
                                           username: string, url: Url, visited: set<Url>, acc: Walk)
    requires forall x :: x in acc.images ==>
      (KeepImage(x, username) && exists u :: u in acc.fetched && Served(site, u) && x in site[u].body.imgSrcs)
    requires forall x :: x in acc.videos ==>
      (KeepVideo(x) && exists u :: u in acc.fetched && Served(site, u) && x in site[u].body.videoSrcs)
    ensures var w := WalkFrom(site, resolve, username, url, visited, acc);
      (forall x :: x in w.images ==>
         (KeepImage(x, username) && exists u :: u in w.fetched && Served(site, u) && x in site[u].body.imgSrcs)) &&
      (forall x :: x in w.videos ==>
         (KeepVideo(x) && exists u :: u in w.fetched && Served(site, u) && x in site[u].body.videoSrcs))
    decreases site.Keys - visited
  {
    if url == "" || url in visited {
    } else if url in site && site[url].status == 200 {
      var response := site[url];
      var f := acc.fetched + [url];
      var next := Step(acc, url, response.body, username);
      assert url in f;
      assert forall u :: u in acc.fetched ==> u in f;
      match response.body.nextHref
      case None =>
      case Some(href) =>
        WalkMediaOrigin(site, resolve, username, resolve(response.finalUrl, href), visited + {url}, next);
    } else {
      assert forall u :: u in acc.fetched ==> u in acc.fetched + [url];
    }
  }

  /** What `fetch_fapello_album_media` promises about its answer: no page is
      requested twice; a raise happens only at the last request; a returned
      answer holds each URL once, only the account's images and allowed
      videos, and all of those from every page answered with 200. */
  lemma AlbumMediaProperties(site: Site<Page>, resolve: (Url, Url) -> Url, albumUrl: Url)
    ensures var fetched := AlbumFetches(site, resolve, albumUrl);
      NoDups(fetched) &&
      (AlbumMedia(site, resolve, albumUrl).Raised? <==> fetched != [] && fetched[|fetched| - 1] !in site)
    ensures AlbumMedia(site, resolve, albumUrl).Ok? ==>
      var m := AlbumMedia(site, resolve, albumUrl).value;
      var username := Username(albumUrl);
      NoDups(m.images) && NoDups(m.videos) &&
      (forall x :: x in m.images ==> KeepImage(x, username)) &&
      (forall x :: x in m.videos ==> KeepVideo(x)) &&
      forall u :: u in AlbumFetches(site, resolve, albumUrl) && Served(site, u) ==>
        (forall x :: x in PageImages(site[u].body.imgSrcs, username) ==> x in m.images) &&
        (forall x :: x in PageVideos(site[u].body.videoSrcs) ==> x in m.videos)
  {
    var username := Username(albumUrl);
    if username != "" {
      WalkFetchesOnce(site, resolve, username, albumUrl, {}, Start);
      WalkRaisesOnlyAtEnd(site, resolve, username, albumUrl, {}, Start);
      WalkKeepsServedMedia(site, resolve, username, albumUrl, {}, Start);
      WalkMediaOrigin(site, resolve, username, albumUrl, {}, Start);
      var w := WalkFrom(site, resolve, username, albumUrl, {}, Start);
      assert AlbumFetches(site, resolve, albumUrl) == w.fetched;
      if !w.raised {
        var m := Media(Dedup(w.images), Dedup(w.videos));
        assert AlbumMedia(site, resolve, albumUrl) == Ok(m);
        assert forall x :: x in m.images ==> x in w.images;
        assert forall x :: x in m.videos ==> x in w.videos;
      }
    }
  }

  /** The `while` loop of `fetch_fapello_album_media`: request the current
      page unless it was visited, keep its media, follow its next link. */
  method WalkAlbum(site: Site<Page>, resolve: (Url, Url) -> Url, username: string, start: Url)
    returns (w: Walk)
    ensures w == WalkFrom(site, resolve, username, start, {}, Start)
  {
    var visited: set<Url> := {};
    var images: seq<Url> := [];
    var videos: seq<Url> := [];
    var fetched: seq<Url> := [];
    var current := start;
    var done := false;
    while current != "" && !done
      invariant !done ==> WalkFrom(site, resolve, username, current, visited, Walk(images, videos, fetched, false))
                          == WalkFrom(site, resolve, username, start, {}, Start)
      invariant done ==> Walk(images, videos, fetched, false) == WalkFrom(site, resolve, username, start, {}, Start)
      decreases site.Keys - visited, if done then 0 else 1
    {
      if current in visited {
        done := true;
      } else {
        visited := visited + {current};
        fetched := fetched + [current];
        if current !in site {
          return Walk(images, videos, fetched, true);
        }
        var response := site[current];
        if response.status != 200 {
          done := true;
        } else {
          var pageImages := PageImages(response.body.imgSrcs, username);
          var pageVideos := PageVideos(response.body.videoSrcs);
          images := images + pageImages;
          videos := videos + pageVideos;
          match response.body.nextHref {
            case None =>
              done := true;
            case Some(href) =>
              current := resolve(response.finalUrl, href);
          }
        }
      }
    }
    w := Walk(images, videos, fetched, false);
  }

  /** `fetch_fapello_album_media`: the account name from the URL; the walk;
      the walk's media without duplicates. When the URL names no account
      nothing is requested; a raise in the walk escapes to the caller. */
  method FetchAlbumMedia(site: Site<Page>, resolve: (Url, Url) -> Url, albumUrl: Url)
    returns (r: Result<Media>, ghost fetched: seq<Url>)
    ensures r == AlbumMedia(site, resolve, albumUrl)
    ensures fetched == AlbumFetches(site, resolve, albumUrl)
    ensures Username(albumUrl) == "" ==> r == Ok(Media([], [])) && fetched == []
  {
    var username := Username(albumUrl);
    if username == "" {
      return Ok(Media([], [])), [];
    }
    var w := WalkAlbum(site, resolve, username, albumUrl);
    fetched := w.fetched;
    if w.raised {
      r := Raised;
    } else {
      r := Ok(Media(Dedup(w.images), Dedup(w.videos)));
    }
  }
}
