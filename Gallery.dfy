/** What the two signed-URL endpoints share: the shape of their inputs
    (every backend call is an input), the response they build, the expiry
    rule and the reference definition of the gallery they return. */
module Gallery {
  import opened Rows

  /** The result of one awaited backend query: either the call itself
      rejected (`Threw`), or it returned an error flag and a payload. */
  datatype Fetch<T> = Threw | Returned(failed: bool, data: Option<T>)

  /** The result of asking the object store for one signed URL. */
  datatype SignOutcome = SignThrew | SignReturned(failed: bool, url: Option<string>)

  /** The backend as seen by a handler: the preview lookup by token, the
      photo query by feed id, and URL signing by (storage path, lifetime). */
  datatype Backend = Backend(
    lookup: string -> Fetch<PreviewRow>,
    photosOf: string -> Fetch<seq<PhotoRow>>,
    sign: (string, int) -> SignOutcome)

  /** Lifetime, in seconds, requested for every signed URL. */
  const SignedUrlTtlSeconds := 3600

  /** One entry of the gallery sent to the browser. */
  datatype PhotoData = PhotoData(
    id: string,
    caption: Option<string>,
    tags: Option<seq<string>>,
    signedUrl: string)

  /** A response body: nothing, an `{ error }` object, or `{ photos, total? }`. */
  datatype Body = Empty | ErrorMessage(message: string) | PhotoList(photos: seq<PhotoData>, total: Option<int>)

  datatype Response = Response(status: int, body: Body)

  /** The lookup gave back a preview row without an error. */
  predicate Found(f: Fetch<PreviewRow>)
  {
    f.Returned? && !f.failed && f.data.Some?
  }

  /** A preview is expired when it has an expiry strictly before `now`. */
  predicate Expired(expiresAt: Option<int>, now: int)
  {
    expiresAt.Some? && expiresAt.value < now
  }

  /** The expiry boundary: a null expiry never expires, and an expiry equal
      to the current time still admits the request. */
  lemma ExpiryBoundary(e: int, now: int)
    ensures !Expired(None, now)
    ensures Expired(Some(e), now) <==> e < now
    ensures !Expired(Some(now), now)
  {
  }

  /** The signing request a handler makes for photo `p`. */
  function SignFor(b: Backend, p: PhotoRow): SignOutcome
  {
    b.sign(p.storagePath, SignedUrlTtlSeconds)
  }

  /** Signing succeeded: no error and a non-empty URL came back. */
  predicate SignedOk(o: SignOutcome)
  {
    o.SignReturned? && !o.failed && o.url.Some? && o.url.value != ""
  }

  /** The gallery entry for photo `p` with URL `url`. */
  function Entry(p: PhotoRow, url: string): PhotoData
  {
    PhotoData(p.id, p.caption, p.tags, url)
  }

  /** Reference gallery: the successfully signed photos, in query order. */
  function SignedPhotos(ps: seq<PhotoRow>, b: Backend): seq<PhotoData>
  {
    if ps == [] then []
    else
      var o := SignFor(b, ps[0]);
      (if SignedOk(o) then [Entry(ps[0], UrlOf(o))] else []) + SignedPhotos(ps[1..], b)
  }

  /** How many photos of the list are signed successfully. */
  function CountSigned(ps: seq<PhotoRow>, b: Backend): nat
  {
    if ps == [] then 0
    else (if SignedOk(SignFor(b, ps[0])) then 1 else 0) + CountSigned(ps[1..], b)
  }

  function Shift(s: seq<nat>): (r: seq<nat>)
    ensures |r| == |s|
    ensures forall k :: 0 <= k < |s| ==> r[k] == s[k] + 1
  {
    seq(|s|, k requires 0 <= k < |s| => s[k] + 1)
  }

  /** Positions, in the query result, of the photos that are signed successfully. */
  function KeptIndices(ps: seq<PhotoRow>, b: Backend): seq<nat>
  {
    if ps == [] then []
    else (if SignedOk(SignFor(b, ps[0])) then [0] else []) + Shift(KeptIndices(ps[1..], b))
  }

  /** The URL a successful signing returned. */
  function UrlOf(o: SignOutcome): string
  {
    if SignedOk(o) then o.url.value else ""
  }

  lemma {:induction false} SelectionLength(ps: seq<PhotoRow>, b: Backend)
    ensures |SignedPhotos(ps, b)| == |KeptIndices(ps, b)| == CountSigned(ps, b)
  {
    if ps != [] {
      SelectionLength(ps[1..], b);
    }
  }

  lemma {:induction false} KeptAt(ps: seq<PhotoRow>, b: Backend, k: nat)
    requires k < |KeptIndices(ps, b)|
    ensures KeptIndices(ps, b)[k] < |ps|
    ensures SignedOk(SignFor(b, ps[KeptIndices(ps, b)[k]]))
  {
    var rest := ps[1..];
    if !SignedOk(SignFor(b, ps[0])) || k != 0 {
      var head := if SignedOk(SignFor(b, ps[0])) then 1 else 0;
      KeptAt(rest, b, k - head);
      var i' := KeptIndices(rest, b)[k - head];
      assert KeptIndices(ps, b)[k] == i' + 1;
      assert rest[i'] == ps[i' + 1];
    }
  }

  lemma {:induction false} SelectionEntries(ps: seq<PhotoRow>, b: Backend, k: nat)
    requires k < |KeptIndices(ps, b)|
    ensures |SignedPhotos(ps, b)| == |KeptIndices(ps, b)|
    ensures KeptIndices(ps, b)[k] < |ps|
    ensures SignedPhotos(ps, b)[k] == Entry(ps[KeptIndices(ps, b)[k]], UrlOf(SignFor(b, ps[KeptIndices(ps, b)[k]])))
  {
    SelectionLength(ps, b);
    KeptAt(ps, b, k);
    var rest := ps[1..];
    if !SignedOk(SignFor(b, ps[0])) || k != 0 {
      var head := if SignedOk(SignFor(b, ps[0])) then 1 else 0;
      SelectionEntries(rest, b, k - head);
      var i' := KeptIndices(rest, b)[k - head];
      assert KeptIndices(ps, b)[k] == i' + 1;
      assert SignedPhotos(ps, b)[k] == SignedPhotos(rest, b)[k - head];
      assert rest[i'] == ps[i' + 1];
    }
  }

  lemma {:induction false} SelectionAscending(ps: seq<PhotoRow>, b: Backend)
    ensures forall k1, k2 :: 0 <= k1 < k2 < |KeptIndices(ps, b)| ==>
              KeptIndices(ps, b)[k1] < KeptIndices(ps, b)[k2]
  {
    if ps != [] {
      SelectionAscending(ps[1..], b);
    }
  }

  lemma {:induction false} SelectionComplete(ps: seq<PhotoRow>, b: Backend)
    ensures forall i :: 0 <= i < |ps| && SignedOk(SignFor(b, ps[i])) ==> i in KeptIndices(ps, b)
  {
    if ps != [] {
      var rest := ps[1..];
      SelectionComplete(rest, b);
      var idx, idx' := KeptIndices(ps, b), KeptIndices(rest, b);
      var head := if SignedOk(SignFor(b, ps[0])) then 1 else 0;
      forall i | 1 <= i < |ps| && SignedOk(SignFor(b, ps[i]))
        ensures i in idx
      {
        assert ps[i] == rest[i - 1];
        var k :| 0 <= k < |idx'| && idx'[k] == i - 1;
        assert idx[k + head] == i;
      }
    }
  }

  /** The gallery is the order-preserving selection of the successfully
      signed photos: entry k comes from query position KeptIndices[k], the
      positions ascend, every successfully signed photo is selected, and
      each entry keeps its photo's id, caption and tags and carries the
      URL its signing returned. Its length is the number of successes. */
  lemma SignedPhotosSelection(ps: seq<PhotoRow>, b: Backend)
    ensures |SignedPhotos(ps, b)| == |KeptIndices(ps, b)| == CountSigned(ps, b)
    ensures forall k :: 0 <= k < |KeptIndices(ps, b)| ==>
              KeptIndices(ps, b)[k] < |ps| && SignedOk(SignFor(b, ps[KeptIndices(ps, b)[k]]))
              && SignedPhotos(ps, b)[k] == Entry(ps[KeptIndices(ps, b)[k]], UrlOf(SignFor(b, ps[KeptIndices(ps, b)[k]])))
    ensures forall k1, k2 :: 0 <= k1 < k2 < |KeptIndices(ps, b)| ==>
              KeptIndices(ps, b)[k1] < KeptIndices(ps, b)[k2]
    ensures forall i :: 0 <= i < |ps| && SignedOk(SignFor(b, ps[i])) ==> i in KeptIndices(ps, b)
  {
    SelectionLength(ps, b);
    forall k | 0 <= k < |KeptIndices(ps, b)|
      ensures KeptIndices(ps, b)[k] < |ps| && SignedOk(SignFor(b, ps[KeptIndices(ps, b)[k]]))
              && SignedPhotos(ps, b)[k] == Entry(ps[KeptIndices(ps, b)[k]], UrlOf(SignFor(b, ps[KeptIndices(ps, b)[k]])))
    {
      KeptAt(ps, b, k);
      SelectionEntries(ps, b, k);
    }
    SelectionAscending(ps, b);
    SelectionComplete(ps, b);
  }

  /** If every photo but one is signed, the gallery holds all the others. */
  lemma {:induction false} OneFailureDropsOne(ps: seq<PhotoRow>, b: Backend, j: nat)
    requires j < |ps|
    requires !SignedOk(SignFor(b, ps[j]))
    requires forall i :: 0 <= i < |ps| && i != j ==> SignedOk(SignFor(b, ps[i]))
    ensures |SignedPhotos(ps, b)| == |ps| - 1
  {
    SignedPhotosSelection(ps, b);
    if j == 0 {
      AllSignedKeepsAll(ps[1..], b);
    } else {
      forall i | 0 <= i < |ps[1..]| && i != j - 1
        ensures SignedOk(SignFor(b, ps[1..][i]))
      {
        assert ps[1..][i] == ps[i + 1];
      }
      OneFailureDropsOne(ps[1..], b, j - 1);
      SignedPhotosSelection(ps[1..], b);
    }
  }

  /** When every signing succeeds, the gallery has one entry per photo, in order. */
  lemma {:induction false} AllSignedKeepsAll(ps: seq<PhotoRow>, b: Backend)
    requires forall i :: 0 <= i < |ps| ==> SignedOk(SignFor(b, ps[i]))
    ensures |SignedPhotos(ps, b)| == |ps|
    ensures forall i :: 0 <= i < |ps| ==> SignedPhotos(ps, b)[i] == Entry(ps[i], UrlOf(SignFor(b, ps[i])))
  {
    if ps != [] {
      forall i | 0 <= i < |ps[1..]|
        ensures SignedOk(SignFor(b, ps[1..][i]))
      {
        assert ps[1..][i] == ps[i + 1];
      }
      AllSignedKeepsAll(ps[1..], b);
    }
  }

  /** The query result is sorted by ascending `order_index`. */
  predicate SortedByOrderIndex(ps: seq<PhotoRow>)
  {
    forall i, j :: 0 <= i < j < |ps| ==> ps[i].orderIndex <= ps[j].orderIndex
  }

  /** When the query result is sorted by `order_index`, so is the gallery:
      entry k1 before entry k2 comes from a photo with no larger index. */
  lemma GalleryFollowsOrderIndex(ps: seq<PhotoRow>, b: Backend, k1: nat, k2: nat)
    requires SortedByOrderIndex(ps)
    requires k1 < k2 < |SignedPhotos(ps, b)|
    ensures var idx := KeptIndices(ps, b);
            k2 < |idx| && idx[k1] < idx[k2] < |ps|
            && ps[idx[k1]].orderIndex <= ps[idx[k2]].orderIndex
            && SignedPhotos(ps, b)[k1].id == ps[idx[k1]].id
            && SignedPhotos(ps, b)[k2].id == ps[idx[k2]].id
  {
    SignedPhotosSelection(ps, b);
  }
}
