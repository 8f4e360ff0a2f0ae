# after-dark crawler core in Dafny

This project models the site-independent logic of `ad.py`, the After Dark
media crawler. The crawler takes an account name or an album URL on one of
five hosts (Erome, Bunkr, bunkr-albums.io, Fapello, JPG5). It walks the
host's result or album pages and collects image and video URLs.

The network is replaced by a **site**: a finite map from URL to the response
the host gives. A response has a status, the URL after redirects, and a page
record (module `Site`). The page record holds the attribute values the HTML
parser would select, one record type per host. A URL missing from the map is
a request that raises. Each caller then does what the program does with that:

- Erome drops the page.
- Bunkr and JPG5 treat a raise as "no data".
- Fapello and `fetch_all_pages` let the exception escape. They return
  `Result.Raised`.

Functions the model cannot see are parameters:

- `resolve`: `urllib.parse.urljoin`.
- `matches`: the `re.match` pattern of `parse_links_and_titles`.
- `headOk`: the set of image URLs whose HEAD request answers 200.

Modules:

- `Seqs`: `Option` and `Result`, duplicate-freedom, `Filter`, and the two ways the program makes a list without duplicates.
- `Strings`: `startswith`/`endswith`/`in`, `rstrip` and `strip` of one character, ASCII `lower`, `str(n)`, `quote`, and the path of `urlparse`.
- `Site`: the site map.
- `Fapello`: `fetch_fapello_album_media`. A walk along the "next page" link, guarded by a visited set.
- `Jpg5`: `extract_jpg5_album_media_urls`. A walk along the pagination link that stops when a page adds nothing new.
- `Bunkr`: `get_album_links_from_search`, `get_all_album_links_from_search`, `parse_links_and_titles` and `fetch_all_pages`.
- `BunkrGallery`: `get_image_links_from_album`, `get_image_url_from_linkk` and `fetch_bunkr_gallery_images`.
- `Erome`: `extract_album_links`, `fetch_all_album_pages`, `fetch_image_urls` and `fetch_all_erome_image_urls`.
- `Downloads`: the file-name test of `list_downloaded_images`.

Each walker has two forms:

- A tail-recursive specification function over the site (`WalkFrom`, `SearchWalk`). It carries what has been collected so far.
- A method holding the program's `while` loop, proved equal to that function.

Lemmas about the function state the properties the program relies on:

- Fapello never requests a page twice: the visited set guards it.
- JPG5 can request a page again, but only as its last request. A page whose media were all shown before stops the walk, so the new-media test is the walk's cycle guard (`Jpg5.RequestsDistinctButLast`). `Jpg5.RevisitExample` shows a last page linking back to the first, which is requested a second time.
- Earlier results are kept.
- The answer is exactly the media of the pages answered with 200.
- Each step makes progress.

Only the Fapello walk guards against requesting a page twice. JPG5 may repeat its last request, as above. The Bunkr search requests each result page that gave links a second time (ad.py:82 and 88). A page that gave no links ends the walk before the second request (ad.py:83-85). The model follows the code.

Termination rests on the site being finite:

- Fapello: the decreasing measure is the site's URLs not yet visited.
- JPG5: the site's media not yet collected.
- Bunkr: the result pages not yet requested. Distinct page numbers print as distinct URLs (`NatToStringInjective`).

## Model

| member | source | states |
|---|---|---|
| `Seqs.Filter` | ad.py:300-305 | a list comprehension with a condition keeps exactly the elements that satisfy it, and never makes the list longer |
| `Seqs.FilterConcat` | ad.py:306-307 | filtering two runs one after the other gives the two filtered runs in order |
| `Seqs.Dedup` | ad.py:322-323 | `list(set(xs))` has every element of `xs` exactly once and nothing else |
| `Seqs.ListOf` | ad.py:181 | `list(s)` of a set has every element of `s` exactly once and nothing else |
| `Strings.RStrip` | ad.py:328 | `rstrip('/')` removes exactly the trailing run of `/`: what is left is a prefix not ending in `/`, and every removed character is `/` |
| `Strings.StripUntouched` | ad.py:280 | `strip('/')` of `/name/` gives back `name` when `name` holds no `/` |
| `Strings.TakeUntil` | ad.py:280-281 | `split('/')[0]` is the longest prefix holding no `/`, and it is followed by `/` when shorter than the input |
| `Strings.NatToStringInjective` | ad.py:57 | two different page numbers never give the same decimal text |
| `Strings.QuoteIsQuoted` | ad.py:57 | `quote` only produces unreserved characters, `/` and `%`, so a name cannot break out of its query parameter |
| `Strings.QuoteSafeIdentity` | ad.py:57 | `quote` leaves a name of letters, digits and `_.-~/` unchanged |
| `Fapello.KeepImageAsWritten` | ad.py:300-301 | the image test as the program writes it: a content-prefixed source in which `/{username}/` occurs anywhere, host and `content` folder included (the as-written half of the Findings row) |
| `Fapello.PageImages` | ad.py:300-301 | an image src is kept iff it starts with the content prefix and `/{username}/` occurs below the `content` folder (the corrected test, see Findings) |
| `Fapello.PageVideos` | ad.py:302-305 | a video src is kept iff it starts with the CDN content prefix and ends with `.mp4` or `.m4v` |
| `Fapello.OwnFolderImage` | ad.py:300-301 | an image in the folder of account `other` passes the walk's filter for account `username` iff `username == other` |
| `Fapello.OwnFolderImageKept` | ad.py:300-301 | an image in the account's own content folder passes the image filter |
| `Fapello.OtherFolderImageDropped` | ad.py:300-301 | an image in another account's folder is dropped by the walk's filter, and by the program's own filter unless the name is `content` or `fapello.com` |
| `Fapello.KeepImageAgrees` | ad.py:300-301 | every image the walk's filter keeps, the program's filter keeps; for every name but `content` and `fapello.com` the two filters agree exactly |
| `Fapello.AsWrittenKeepsOtherAccounts` | ad.py:300-301 | for the names `content` and `fapello.com` the program's filter keeps another account's image, which the walk's filter drops |
| `Fapello.Username` | ad.py:279-281 | the account name taken from the album URL holds no `/` |
| `Fapello.UsernameOfProfileUrl` | ad.py:278-281 | for `https://fapello.com/<name>/` the account name is `<name>` |
| `Fapello.WalkFetchesOnce` | ad.py:286-292 | the cycle guard: the walk never requests a URL twice, and never one already visited |
| `Fapello.WalkRaisesOnlyAtEnd` | ad.py:293-297 | the walk raises exactly when its last request found no host; every earlier request was answered with 200 |
| `Fapello.Step` | ad.py:300-307 | a page answered with 200 appends its URL to the requests and keeps what was collected at the front of the images and videos |
| `Fapello.WalkFrom` | ad.py:286-320 | the walk from a URL: stop on an empty or visited URL, raise on no host, stop on a non-200 status, otherwise keep the page's media and follow its next link; earlier results stay at the front of the images, videos and requests |
| `Fapello.WalkKeepsServedMedia` | ad.py:294-307 | the filtered media of every requested page answered with 200 are in the result, whatever stopped the walk (a non-200 page, a visited URL, no next link) |
| `Fapello.WalkMediaOrigin` | ad.py:298-307 | every collected image and video passes its filter and comes from a requested page that answered with 200 |
| `Fapello.AlbumMedia` | ad.py:277-325 | the album's media: empty lists when the URL names no account, a raise when the walk raised, otherwise the walk's media, each list without duplicates |
| `Fapello.AlbumMediaProperties` | ad.py:277-325 | no page is requested twice; the call raises iff the last request found no host; the answer has no duplicates, only kept media, and all media of every page answered with 200 |
| `Fapello.WalkAlbum` | ad.py:286-320 | the `while` loop computes the walk from the album URL with nothing visited |
| `Fapello.FetchAlbumMedia` | ad.py:277-325 | the result is the walk's media without duplicates, or a raise; an album URL without an account name gives empty lists and requests nothing |
| `Jpg5.PageMedia` | ad.py:344-345 | the media of one page: the set of its image sources that mention `jpg5.su` |
| `Jpg5.NextPageUrl` | ad.py:361-363 | the next page's URL always starts with `http` and ends with the href |
| `Jpg5.NextPageUrlProperties` | ad.py:361-363 | the next URL starts with `http` and ends with the href; an href is kept iff it already starts with `http`; prefixing twice is prefixing once |
| `Jpg5.NewMediaShrinks` | ad.py:351-356 | a page that adds new media strictly shrinks the set of the site's media still to collect |
| `Jpg5.WalkFrom` | ad.py:331-366 | the walk from a URL: request it; stop on a raise, a non-200 status, a page with no media or none new; otherwise keep the new media and follow the next link; the media and the requests held before are kept |
| `Jpg5.WalkCollectsServedMedia` | ad.py:331-366 | the walk's media is exactly the `jpg5.su` sources of the pages it requested that answered with 200 |
| `Jpg5.WalkRequestBound` | ad.py:347-356 | the walk makes at most one request more than there are media left on the site to collect |
| `Jpg5.WalkGrowsEachStep` | ad.py:347-356 | when the media held are those of the served pages requested so far, every later request but the last was answered with 200 and showed media that no earlier request showed |
| `Jpg5.StepAddsMedia` | ad.py:351-356 | a request answered with 200 that shows media not held shows media that no earlier request showed |
| `Jpg5.RequestsDistinctButLast` | ad.py:351-354 | when every request but the last shows media no earlier request showed, no page is requested twice among those requests |
| `Jpg5.RevisitExample` | ad.py:351-363 | a page `b` linking back to the first page `a` makes the walk request `a`, `b` and `a` again, and stop there |
| `Jpg5.StartOfWalk` | ad.py:328-334 | the first request is for the start URL |
| `Jpg5.AlbumMediaProperties` | ad.py:326-368 | every URL returned mentions `jpg5.su`; the answer is the union of the served pages' media; the walk starts at the album URL without trailing `/`, requests nothing iff that is empty, makes at most one request more than the site has media, and every request but the last was answered with 200, showed media no earlier one showed and is for a page not requested before |
| `Jpg5.WalkAlbum` | ad.py:331-366 | the `while` loop computes the walk from the start URL with nothing collected |
| `Jpg5.ExtractAlbumMediaUrls` | ad.py:326-368 | the list holds each media URL of the walk from the stripped album URL exactly once |
| `Erome.ExtractAlbumLinks` | ad.py:45-52 | the album links of a page are exactly its hrefs that start with `https://www.erome.com/a/`, each once |
| `Erome.AlbumsFound` | ad.py:169-181 | the album links of result pages 1 to `last` whose request did not raise |
| `Erome.AlbumsFoundStep` | ad.py:177-180 | searching one page more adds exactly that page's album links, and nothing when its request raised |
| `Erome.FetchAllAlbumPages` | ad.py:169-181 | pages 1 to `max_pages` are requested in order, for no other page than those; the answer holds exactly the album links of the pages whose request did not raise, each once |
| `Erome.AlbumsFoundProperties` | ad.py:169-181 | a URL is found iff it starts with the album prefix and is linked from a page 1..`max_pages` that answered; with no pages nothing is found |
| `Erome.ImageUrls` | ad.py:186-192 | the image URLs are exactly the non-empty `data-src` values resolved against the album page's final URL, at most one per placeholder |
| `Erome.AlbumImageUrls` | ad.py:183-195 | `fetch_image_urls` as a whole: the album page's image URLs, or none when its request raised (the `except` returning `[]`) |
| `Erome.AllImageUrls` | ad.py:198-203 | every album's image URLs, album after album, duplicates kept; an album whose request raised gives nothing |
| `Erome.AllImageUrlsConcat` | ad.py:201-202 | the albums' image lists are joined in album order |
| `Erome.AllImageUrlsProperties` | ad.py:198-203 | nothing is dropped or merged: the length is the sum of the albums' lengths, and an URL is present iff some album has it |
| `Bunkr.SearchUrlInjective` | ad.py:57 | different page numbers give different result-page URLs |
| `Bunkr.SearchPageLinks` | ad.py:56-76 | a result page gives links only when it answered with 200, and then exactly its anchors starting with `https://bunkr.cr/a/` |
| `Bunkr.CollectAlbumLinks` | ad.py:66-70 | the loop keeps the album anchors in page order, duplicates kept |
| `Bunkr.AlbumLinksFromSearch` | ad.py:56-76 | the method returns the page's album links, and none on a raise or a non-200 status |
| `Bunkr.SeenPagesGrow` | ad.py:86-95 | moving past a page that answered leaves fewer of the site's pages unrequested |
| `Bunkr.SearchWalk` | ad.py:78-97 | the search walk from a page: stop on a page that gives no links; otherwise keep its links and go on when its pager names the next page |
| `Bunkr.SearchWalkStops` | ad.py:81-95 | the walk goes on past a page iff that page gave links and its pager names the next page |
| `Bunkr.SearchWalkLinks` | ad.py:82-86 | the walk's links are the links of the pages it requested, in page order, duplicates kept |
| `Bunkr.AllAlbumLinksFromSearch` | ad.py:78-97 | the `while True` loop computes the search walk from page 1 |
| `Bunkr.LinksOfPagesAreAlbums` | ad.py:66 | every collected link starts with `https://bunkr.cr/a/` |
| `Bunkr.AllAlbumLinksProperties` | ad.py:78-97 | the walk requests pages 1, 2, ... up to the first that gives no links or lacks the `page+1` anchor, and returns those pages' album links in page order |
| `Bunkr.AlbumPatternProperties` | ad.py:243 | a link matching the album pattern is an album link, and an album whose name starts with a letter, a digit, `_` or `-` matches the pattern |
| `Bunkr.TitlesOf` | ad.py:217 | the titles are exactly the texts of the spans that carry the title class |
| `Bunkr.ParseLinksAndTitles` | ad.py:214-218 | the links are exactly the anchors whose href matches the pattern; the titles are exactly the texts of the spans of the title class |
| `Bunkr.FetchAllPages` | ad.py:229-239 | the method raises iff one of the pages raises, otherwise it joins the served pages' listings in page order |
| `Bunkr.ListingsContents` | ad.py:233-238 | the joined listing holds a link iff a page answered with 200 has a matching anchor with it, and a title iff such a page has a span of the class with that text |
| `Bunkr.AllPages` | ad.py:229-239 | requests pages 1 to `max_pages`; raises when one of them raises, otherwise joins the listings of the pages answered with 200 in page order |
| `Bunkr.AllPagesProperties` | ad.py:220-239 | the call raises iff one of pages 1..`max_pages` cannot be fetched; otherwise its links and titles are exactly those of the pages answered with 200 |
| `Bunkr.SearchLinks` | ad.py:241-245 | `search_bunkr_links`: `fetch_all_pages` with the album pattern, the title class `truncate` and the default of 10 pages |
| `Bunkr.SearchLinksProperties` | ad.py:241-245 | the search raises iff one of the 10 result pages cannot be fetched; otherwise it lists only album links, exactly the matching anchors of the pages answered with 200, and exactly the `truncate` titles of those pages |
| `BunkrGallery.NormaliseLink` | ad.py:110-117 | a download link made absolute: `/f/...` is put under the host, `https://bunkr.cr/f/...` is kept, anything else is dropped |
| `BunkrGallery.NormaliseLinkProperties` | ad.py:109-117 | an href is kept iff it starts with `/f/` or `https://bunkr.cr/f/`; a kept link is an absolute file link, and normalising it again leaves it unchanged |
| `BunkrGallery.NormaliseConcat` | ad.py:109-117 | normalisation preserves order: two runs of anchors give their links in order |
| `BunkrGallery.NormaliseDownloadLinks` | ad.py:108-117 | the normalised download links of an album page in page order, never more than the anchors |
| `BunkrGallery.NormaliseDownloadLinksProperties` | ad.py:108-119 | a link is in the result iff some anchor normalises to it; every result is an absolute file link; normalising the result again changes nothing |
| `BunkrGallery.ImageLinksFromAlbum` | ad.py:99-122 | the method returns the album's normalised download links, and none on a raise or a non-200 status |
| `BunkrGallery.ImageUrlFromLink` | ad.py:124-152 | an image URL is returned only for a file page answered with 200, and only its cover image whose HEAD request answered 200 |
| `BunkrGallery.Somes` | ad.py:164 | dropping `None` keeps exactly the found URLs |
| `BunkrGallery.LinksOfAlbumsSnoc` | ad.py:158-161 | one album more appends that album's file-page links |
| `BunkrGallery.LinksOfAlbumsContents` | ad.py:158-161 | a file-page link is collected iff one of the albums has it |
| `BunkrGallery.CollectImageLinks` | ad.py:157-161 | the loop collects the albums' file-page links, album after album |
| `BunkrGallery.FetchGalleryImages` | ad.py:154-167 | the result holds each gallery URL exactly once and nothing else |
| `BunkrGallery.Gallery` | ad.py:154-167 | the gallery of an account: the search walk from page 1, each found album's file pages, their cover images, no thumbnails, each once |
| `BunkrGallery.GalleryOrigin` | ad.py:162-166 | every gallery URL is HEAD-ok, not a thumbnail, and the cover image of a served file page of a found album |
| `BunkrGallery.GalleryComplete` | ad.py:162-166 | every HEAD-ok non-thumbnail cover image of a served file page of a found album is in the gallery |
| `BunkrGallery.GalleryProperties` | ad.py:154-167 | an URL is in the gallery iff it is the HEAD-ok, non-thumbnail cover image of a served file page linked from a found album; a search that finds nothing gives an empty gallery |
| `Downloads.IsImageFile` | ad.py:371-375 | a file name counts iff, lower-cased, it ends with `.png`, `.jpg`, `.jpeg` or `.gif` |
| `Downloads.AcceptsAnyCase` | ad.py:371-375 | a name ending with an image extension written in any case is accepted |
| `Downloads.IgnoresCase` | ad.py:375 | a name and its lower-case form are judged alike |
| `Downloads.RejectsWithoutDot` | ad.py:371-375 | a name without `.` is never accepted |
| `Downloads.AcceptsExamples` | ad.py:371-375 | `photo.JPG` and `a.jpeg` are accepted |
| `Downloads.RejectsExamples` | ad.py:371-375 | `clip.mp4` and `pics.png.zip` are rejected |

## Left out

- The Streamlit interface (`main`, the sidebar debug box, `search_bunkr_links`' rendering) and `debug_log`: presentation only.
- `fetch_fapello_page_media` (ad.py:256-275) is not called by the walker and is not modelled.
- `zip_images` and the `os.listdir`/`os.path.exists` part of `list_downloaded_images`: filesystem I/O. Only the file-name test is modelled.
- aiohttp: requests are lookups in the site map. Timeouts, headers, response decoding and the exception types are not modelled. A raise is a missing key.
- `asyncio.gather`: the tasks of one gather are independent, so the model runs them one after the other and combines the results in task order. Interleavings are not modelled.
- BeautifulSoup: each page record holds the attribute lists the selectors would give. This covers the Bunkr pager anchor that the regular expression at ad.py:91 looks for. The set `pager` holds the numbers n for which some `btn btn-sm btn-main` anchor has an href in which `?search=<name>&page=n` is found anywhere. The search is not anchored at the end, so a link to page 23 counts as a link to page 2. That pattern escapes the name with `re.escape` while the URL quotes it. The model does not decide when the two disagree for a given name.
- `urllib.parse.urljoin` is the parameter `resolve`. `urlparse` follows the rule of `urlsplit` for the scheme, the `//` network location and the `?`/`#` cut. It does not split `;params` or remove control characters. Python's `urlparse` raises `ValueError` on a network location with an unbalanced `[` or `]` (ad.py:279). `Fapello.Username` always returns a name, so the model does not describe that exception escaping `fetch_fapello_album_media`.
- `re.match(pattern, href)` in `parse_links_and_titles` is the parameter `matches`. For the pattern the interface uses, `Bunkr.AlbumPattern` reads `\w` as ASCII letters, digits and `_`; Python's `\w` is Unicode.
- `str.lower` is ASCII-only here. Python lower-cases the other Unicode letters too.
- The order of `list(set(...))` and `list(set)` is unspecified in Python. `Seqs.Dedup` and `Seqs.ListOf` promise only the elements, each once.
- Bunkr search walk: the program has no page ceiling and no cycle guard. The model's walk ends only because the site map is finite. A host that answers every page number with links and a next anchor makes the program loop forever, and the model does not describe that.
- The second request for the same result page (ad.py:87-90) is taken to give the same page as the first (ad.py:82). The model does not describe that request raising, or answering differently.
- `fetch_all_album_pages` has `max_pages=10` as its default, and the interface calls it without one (ad.py:169, 441, 458). `Erome.FetchAllAlbumPages` takes the number of pages as a parameter and does not fix the default.
- Fapello image filter: the walk uses the corrected test `Fapello.KeepImage`, which looks for `/<username>/` only below the `content` folder. The program searches the whole URL. The two differ only for the account names `content` and `fapello.com` (`Fapello.KeepImageAgrees`); see Findings.
- Erome reads a page whose status is not 200 like any other. It drops only pages whose request raised. `fetch_image_urls` likewise ignores the status.
- An empty response body (the `if page_content` tests at ad.py:178 and 235) gives a page record with no links and no titles. This is what such a page yields.

## Findings

| source | as written | input that shows it | evidently intended | confidence | as-written member | corrected member |
|---|---|---|---|---|---|---|
| ad.py:300-301 | `f"/{username}/" in img['src']` searches the whole image URL, host and `content` folder included | account name `content` with the image `https://fapello.com/content/otheruser/x.jpg`, which is kept although it is in another account's folder; the name `fapello.com` keeps such images too | keep only images in the account's own folder below `content` | not executed; follows from the string test | `Fapello.AsWrittenKeepsOtherAccounts` | `Fapello.KeepImage`, `Fapello.OtherFolderImageDropped` |
