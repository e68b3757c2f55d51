/** The signed-URL endpoint as an API route of the web framework: the same
    chain as the serverless function, except that an expired preview is a
    404, a null photo list counts as empty and the body has no `total`. */
module ApiSignedUrls {
  import opened Rows
  import opened Gallery

  /** The `token` entry of the parsed query string: missing, given once,
      or repeated (then the framework hands over an array). */
  datatype QueryValue = Missing | Single(value: string) | Repeated(values: seq<string>)

  /** `!token || typeof token !== 'string'` is false. */
  predicate HasSingleToken(token: QueryValue)
  {
    token.Single? && token.value != ""
  }

  /** One photo after signing: its entry, or null when the signing returned
      an error, no URL, an empty URL, or threw. */
  function SignOrNull(p: PhotoRow, o: SignOutcome): (d: Option<PhotoData>)
    ensures d.Some? <==> SignedOk(o)
    ensures d.Some? ==> d.value.id == p.id && d.value.caption == p.caption && d.value.tags == p.tags
                        && d.value.signedUrl == o.url.value
  {
    match o
    case SignThrew => None
    case SignReturned(failed, url) =>
      if failed || url.None? || url.value == "" then None else Some(Entry(p, url.value))
  }

  /** `(photos || []).map(...)` awaited through `Promise.all`. */
  function SignAll(ps: seq<PhotoRow>, b: Backend): (ds: seq<Option<PhotoData>>)
    ensures |ds| == |ps|
    ensures forall i :: 0 <= i < |ps| ==> ds[i] == SignOrNull(ps[i], SignFor(b, ps[i]))
  {
    if ps == [] then [] else [SignOrNull(ps[0], SignFor(b, ps[0]))] + SignAll(ps[1..], b)
  }

  /** `.filter(photo => photo !== null)`: the non-null entries, in order. */
  function NonNull(ds: seq<Option<PhotoData>>): (r: seq<PhotoData>)
    ensures |r| <= |ds|
    ensures forall d :: d in r ==> Some(d) in ds
  {
    if ds == [] then []
    else (if ds[0].Some? then [ds[0].value] else []) + NonNull(ds[1..])
  }

  /** The filter keeps exactly the entries that are not null. */
  lemma {:induction false} NonNullExact(ds: seq<Option<PhotoData>>)
    ensures forall d :: d in NonNull(ds) <==> Some(d) in ds
  {
    if ds != [] {
      NonNullExact(ds[1..]);
      assert ds == [ds[0]] + ds[1..];
    }
  }

  /** Mapping failures to null and then dropping the nulls yields exactly the
      reference gallery of successfully signed photos. */
  lemma {:induction false} PipelineIsSignedPhotos(ps: seq<PhotoRow>, b: Backend)
    ensures NonNull(SignAll(ps, b)) == SignedPhotos(ps, b)
  {
    if ps != [] {
      var ds := SignAll(ps, b);
      assert ds[1..] == SignAll(ps[1..], b);
      PipelineIsSignedPhotos(ps[1..], b);
      var o := SignFor(b, ps[0]);
      if SignedOk(o) {
        assert ds[0] == Some(Entry(ps[0], UrlOf(o)));
      }
    }
  }

  /** `photos || []`. */
  function OrEmpty(photos: Option<seq<PhotoRow>>): seq<PhotoRow>
  {
    if photos.Some? then photos.value else []
  }

  const MethodNotAllowed := "Method not allowed"
  const TokenRequired := "Token is required"
  const InvalidLink := "Invalid or expired preview link"
  const LinkExpired := "Preview link has expired"
  const FetchFailed := "Failed to fetch photos"
  const InternalError := "Internal server error"

  /** The handler. `now` is the time at which the expiry check runs. */
  function Handle(httpMethod: string, token: QueryValue, b: Backend, now: int): (r: Response)
    ensures r.status in {200, 400, 404, 405, 500}
    ensures httpMethod == "OPTIONS" ==> r == Response(200, Empty)
    ensures r.status == 405 <==> httpMethod != "OPTIONS" && httpMethod != "GET"
    ensures r.status == 400 <==> httpMethod == "GET" && !HasSingleToken(token)
    ensures r.status == 404 <==>
              httpMethod == "GET" && HasSingleToken(token) && !b.lookup(token.value).Threw?
              && (!Found(b.lookup(token.value)) || Expired(b.lookup(token.value).data.value.expiresAt, now))
    ensures httpMethod == "GET" && r.status == 200 <==>
              httpMethod == "GET" && HasSingleToken(token) && Found(b.lookup(token.value))
              && !Expired(b.lookup(token.value).data.value.expiresAt, now)
              && var q := b.photosOf(b.lookup(token.value).data.value.feedId);
                 q.Returned? && !q.failed
    ensures httpMethod == "GET" && r.status == 200 ==>
              var ps := OrEmpty(b.photosOf(b.lookup(token.value).data.value.feedId).data);
              r.body == PhotoList(SignedPhotos(ps, b), None)
  {
    if httpMethod == "OPTIONS" then Response(200, Empty)
    else if httpMethod != "GET" then Response(405, ErrorMessage(MethodNotAllowed))
    else if !HasSingleToken(token) then Response(400, ErrorMessage(TokenRequired))
    else
      match b.lookup(token.value)
      case Threw => Response(500, ErrorMessage(InternalError))
      case Returned(previewError, preview) =>
        if previewError || preview.None? then Response(404, ErrorMessage(InvalidLink))
        else if Expired(preview.value.expiresAt, now) then Response(404, ErrorMessage(LinkExpired))
        else
          match b.photosOf(preview.value.feedId)
          case Threw => Response(500, ErrorMessage(InternalError))
          case Returned(photosError, photos) =>
            if photosError then Response(500, ErrorMessage(FetchFailed))
            else
              var valid := NonNull(SignAll(OrEmpty(photos), b));
              PipelineIsSignedPhotos(OrEmpty(photos), b);
              Response(200, PhotoList(valid, None))
  }

  /** A repeated `token` parameter reaches the handler as an array and is
      refused like a missing one, before any lookup. */
  lemma RepeatedTokenRejected(values: seq<string>, b: Backend, now: int)
    ensures Handle("GET", Repeated(values), b, now) == Response(400, ErrorMessage(TokenRequired))
  {
  }
}
