/** The signed-URL endpoint as a serverless function: a chain of early
    returns from the request method and token to a status and a body. */
module NetlifySignedUrls {
  import opened Rows
  import opened Gallery

  /** A present, non-empty `token` query parameter (`!token` is false). */
  predicate HasToken(token: Option<string>)
  {
    token.Some? && token.value != ""
  }

  /** One photo after signing: its entry with the signed URL, or with an
      empty URL when the signing returned an error, returned no data or threw. */
  function SignOrBlank(p: PhotoRow, o: SignOutcome): (d: PhotoData)
    ensures d.id == p.id && d.caption == p.caption && d.tags == p.tags
    ensures d.signedUrl != "" <==> SignedOk(o)
  {
    match o
    case SignThrew => Entry(p, "")
    case SignReturned(failed, url) =>
      if failed || url.None? then Entry(p, "") else Entry(p, url.value)
  }

  /** `photos.map(...)` awaited through `Promise.all`: one entry per photo, in order. */
  function SignAll(ps: seq<PhotoRow>, b: Backend): (ds: seq<PhotoData>)
    ensures |ds| == |ps|
    ensures forall i :: 0 <= i < |ps| ==> ds[i] == SignOrBlank(ps[i], SignFor(b, ps[i]))
  {
    if ps == [] then [] else [SignOrBlank(ps[0], SignFor(b, ps[0]))] + SignAll(ps[1..], b)
  }

  /** `.filter(photo => photo.signedUrl)`: the entries with a non-empty URL, in order. */
  function NonEmptyUrls(ds: seq<PhotoData>): (r: seq<PhotoData>)
    ensures |r| <= |ds|
    ensures forall d :: d in r ==> d in ds && d.signedUrl != ""
  {
    if ds == [] then []
    else (if ds[0].signedUrl != "" then [ds[0]] else []) + NonEmptyUrls(ds[1..])
  }

  /** The filter keeps exactly the entries with a non-empty URL. */
  lemma {:induction false} NonEmptyUrlsExact(ds: seq<PhotoData>)
    ensures forall d :: d in NonEmptyUrls(ds) <==> d in ds && d.signedUrl != ""
  {
    if ds != [] {
      NonEmptyUrlsExact(ds[1..]);
      assert ds == [ds[0]] + ds[1..];
    }
  }

  /** Mapping with blank URLs and then dropping the blanks yields exactly
      the reference gallery of successfully signed photos. */
  lemma {:induction false} PipelineIsSignedPhotos(ps: seq<PhotoRow>, b: Backend)
    ensures NonEmptyUrls(SignAll(ps, b)) == SignedPhotos(ps, b)
  {
    if ps != [] {
      var ds := SignAll(ps, b);
      assert ds[1..] == SignAll(ps[1..], b);
      PipelineIsSignedPhotos(ps[1..], b);
      var o := SignFor(b, ps[0]);
      if SignedOk(o) {
        assert ds[0] == Entry(ps[0], UrlOf(o));
      }
    }
  }

  const MethodNotAllowed := "Method not allowed"
  const TokenRequired := "Token is required"
  const InvalidToken := "Invalid or expired preview token"
  const TokenExpired := "Preview token has expired"
  const FetchFailed := "Failed to fetch photos"
  const InternalError := "Internal server error"

  /** The handler. `now` is the time at which the expiry check runs. */
  function Handle(httpMethod: string, token: Option<string>, b: Backend, now: int): (r: Response)
    ensures r.status in {200, 400, 404, 405, 410, 500}
    ensures httpMethod == "OPTIONS" ==> r == Response(200, Empty)
    ensures r.status == 405 <==> httpMethod != "OPTIONS" && httpMethod != "GET"
    ensures r.status == 400 <==> httpMethod == "GET" && !HasToken(token)
    ensures r.status == 404 <==> httpMethod == "GET" && HasToken(token) && !Found(b.lookup(token.value))
                                 && !b.lookup(token.value).Threw?
    ensures r.status == 410 <==> httpMethod == "GET" && HasToken(token) && Found(b.lookup(token.value))
                                 && Expired(b.lookup(token.value).data.value.expiresAt, now)
    ensures httpMethod == "GET" && r.status == 200 <==>
              httpMethod == "GET" && HasToken(token) && Found(b.lookup(token.value))
              && !Expired(b.lookup(token.value).data.value.expiresAt, now)
              && var q := b.photosOf(b.lookup(token.value).data.value.feedId);
                 q.Returned? && !q.failed && q.data.Some?
    ensures httpMethod == "GET" && r.status == 200 ==>
              var ps := b.photosOf(b.lookup(token.value).data.value.feedId).data.value;
              r.body == PhotoList(SignedPhotos(ps, b), Some(|SignedPhotos(ps, b)|))
  {
    if httpMethod == "OPTIONS" then Response(200, Empty)
    else if httpMethod != "GET" then Response(405, ErrorMessage(MethodNotAllowed))
    else if !HasToken(token) then Response(400, ErrorMessage(TokenRequired))
    else
      match b.lookup(token.value)
      case Threw => Response(500, ErrorMessage(InternalError))
      case Returned(previewError, preview) =>
        if previewError || preview.None? then Response(404, ErrorMessage(InvalidToken))
        else if Expired(preview.value.expiresAt, now) then Response(410, ErrorMessage(TokenExpired))
        else
          match b.photosOf(preview.value.feedId)
          case Threw => Response(500, ErrorMessage(InternalError))
          case Returned(photosError, photos) =>
            if photosError then Response(500, ErrorMessage(FetchFailed))
            // `photos.map` on a null result throws and lands in the outer catch
            else if photos.None? then Response(500, ErrorMessage(InternalError))
            else
              var valid := NonEmptyUrls(SignAll(photos.value, b));
              PipelineIsSignedPhotos(photos.value, b);
              Response(200, PhotoList(valid, Some(|valid|)))
  }
}
