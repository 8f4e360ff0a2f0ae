/** A hosting site as the crawler sees it. The network is replaced by a finite
    map from URL to the response the host gives for it. A URL with no entry is
    one whose request raises (connection error, timeout); what each caller does
    with that is modelled where the caller is. The page body is a record of the
    attribute values the HTML parser would have selected, one record type per
    host. */
module Site {
  import opened Strings

  /** The result of one GET that reached the host: the status, the URL after
      redirects, and the page's selected attributes. */
  datatype Response<P> = Response(status: int, finalUrl: Url, body: P)

  type Site<P> = map<Url, Response<P>>

  /** The host answered `url` with status 200. */
  predicate Served<P>(site: Site<P>, url: Url) {
    url in site && site[url].status == 200
  }
}
