/** How the two copies of the signed-URL endpoint relate, what each does
    not consult on its early-return paths, and how long a link issued by
    the admin page keeps resolving. */
module HandlerAgreement {
  import opened Rows
  import opened Gallery
  import Netlify = NetlifySignedUrls
  import Api = ApiSignedUrls
  import AdminLists

  /** The query value the API route sees for a serverless-function token. */
  function AsQuery(token: Option<string>): (q: Api.QueryValue)
    ensures Api.HasSingleToken(q) <==> Netlify.HasToken(token)
  {
    if token.Some? then Api.Single(token.value) else Api.Missing
  }

  /** The lookup found a live preview whose photo query returned neither an
      error nor a list. */
  predicate NullPhotoList(httpMethod: string, token: Option<string>, b: Backend, now: int)
  {
    httpMethod == "GET" && Netlify.HasToken(token) && Found(b.lookup(token.value))
    && !Expired(b.lookup(token.value).data.value.expiresAt, now)
    && var q := b.photosOf(b.lookup(token.value).data.value.feedId);
       q.Returned? && !q.failed && q.data.None?
  }

  /** On the same request with the token given at most once, and the same
      backend replies, the two copies give the same status and the same
      photos, with three exceptions: an expired preview is 410 in one and
      404 in the other; a photo query that returns no list is 500 in one and
      an empty gallery in the other; and only the serverless function adds
      `total`, equal to the number of photos. A repeated token is a fourth
      divergence, stated by `RepeatedTokenDiverges`. */
  lemma CopiesAgree(httpMethod: string, token: Option<string>, b: Backend, now: int)
    ensures var n := Netlify.Handle(httpMethod, token, b, now);
            var a := Api.Handle(httpMethod, AsQuery(token), b, now);
            if n.status == 410 then a.status == 404
            else if NullPhotoList(httpMethod, token, b, now) then
              n.status == 500 && a == Response(200, PhotoList([], None))
            else
              n.status == a.status
              && (httpMethod != "GET" ==> n == a)
              && (httpMethod == "GET" && n.status == 200 ==>
                    n.body.PhotoList? && a.body.PhotoList?
                    && n.body.photos == a.body.photos
                    && n.body.total == Some(|n.body.photos|) && a.body.total == None)
  {
  }

  /** A token given more than once: the API route refuses the array with
      400, while the serverless function receives the values joined into
      one string and looks that up, giving 404 when no preview matches. */
  lemma RepeatedTokenDiverges(values: seq<string>, joined: string, b: Backend, now: int)
    requires joined != "" && b.lookup(joined).Returned? && !Found(b.lookup(joined))
    ensures Api.Handle("GET", Api.Repeated(values), b, now).status == 400
    ensures Netlify.Handle("GET", Some(joined), b, now).status == 404
  {
  }

  /** The token check comes before the lookup: without a token the response
      does not depend on the backend at all. */
  lemma TokenCheckedBeforeLookup(httpMethod: string, token: Option<string>, b1: Backend, b2: Backend, now: int)
    requires !Netlify.HasToken(token)
    ensures Netlify.Handle(httpMethod, token, b1, now) == Netlify.Handle(httpMethod, token, b2, now)
    ensures Api.Handle(httpMethod, AsQuery(token), b1, now) == Api.Handle(httpMethod, AsQuery(token), b2, now)
    ensures httpMethod == "GET" ==>
              Netlify.Handle(httpMethod, token, b1, now).status == 400
              && Api.Handle(httpMethod, AsQuery(token), b1, now).status == 400
  {
  }

  /** A failed photo query is a 500 whatever signing would have done: no
      photo is signed. */
  lemma QueryErrorSkipsSigning(token: string, b: Backend, sign: (string, int) -> SignOutcome, now: int)
    requires token != "" && Found(b.lookup(token)) && !Expired(b.lookup(token).data.value.expiresAt, now)
    requires var q := b.photosOf(b.lookup(token).data.value.feedId); q.Returned? && q.failed
    ensures Netlify.Handle("GET", Some(token), b, now) == Netlify.Handle("GET", Some(token), b.(sign := sign), now)
    ensures Netlify.Handle("GET", Some(token), b, now) == Response(500, ErrorMessage(Netlify.FetchFailed))
    ensures Api.Handle("GET", Api.Single(token), b, now) == Api.Handle("GET", Api.Single(token), b.(sign := sign), now)
    ensures Api.Handle("GET", Api.Single(token), b, now) == Response(500, ErrorMessage(Api.FetchFailed))
  {
  }

  /** A lookup that finds no preview, or finds an expired one, ends the
      request: neither copy consults the photo query or signing. */
  lemma MissingOrExpiredSkipsPhotos(token: string, b: Backend, photosOf: string -> Fetch<seq<PhotoRow>>,
                                    sign: (string, int) -> SignOutcome, now: int)
    requires token != "" && b.lookup(token).Returned?
    requires !Found(b.lookup(token)) || Expired(b.lookup(token).data.value.expiresAt, now)
    ensures Netlify.Handle("GET", Some(token), b, now)
            == Netlify.Handle("GET", Some(token), b.(photosOf := photosOf, sign := sign), now)
    ensures Api.Handle("GET", Api.Single(token), b, now)
            == Api.Handle("GET", Api.Single(token), b.(photosOf := photosOf, sign := sign), now)
    ensures Netlify.Handle("GET", Some(token), b, now).status in {404, 410}
    ensures Api.Handle("GET", Api.Single(token), b, now).status == 404
  {
  }

  /** A preview issued at `issuedAt` by the admin page resolves up to and
      including one hour later and is refused (410, resp. 404) strictly
      after; before that point the gallery served is that of its feed. */
  lemma IssuedPreviewLifetime(issuedAt: int, now: int, token: string, b: Backend)
    requires token != "" && Found(b.lookup(token))
    requires b.lookup(token).data.value.expiresAt == Some(AdminLists.PreviewExpiry(issuedAt))
    ensures Netlify.Handle("GET", Some(token), b, now).status == 410 <==> now > issuedAt + AdminLists.PreviewTtlMs
    ensures Api.Handle("GET", Api.Single(token), b, now).status == 404 <==> now > issuedAt + AdminLists.PreviewTtlMs
    ensures now <= issuedAt + AdminLists.PreviewTtlMs ==>
              var q := b.photosOf(b.lookup(token).data.value.feedId);
              q.Returned? && !q.failed && q.data.Some? ==>
                Netlify.Handle("GET", Some(token), b, now).body.photos == SignedPhotos(q.data.value, b)
  {
  }

  /** A backend call that rejects, the lookup or the photo query, lands in
      the outer catch of either copy and gives 500. */
  lemma RejectedCallsAre500(token: string, b: Backend, now: int)
    requires token != ""
    requires b.lookup(token).Threw?
             || (Found(b.lookup(token)) && !Expired(b.lookup(token).data.value.expiresAt, now)
                 && b.photosOf(b.lookup(token).data.value.feedId).Threw?)
    ensures Netlify.Handle("GET", Some(token), b, now) == Response(500, ErrorMessage(Netlify.InternalError))
    ensures Api.Handle("GET", Api.Single(token), b, now) == Response(500, ErrorMessage(Api.InternalError))
  {
  }
}
