/** Row shapes of the three tables (feeds, photos, previews) and the
    Option type used for the nullable columns. Timestamps are integer
    milliseconds since the epoch instead of ISO-8601 strings. */
module Rows {

  datatype Option<+T> = None | Some(value: T)

  /** A row of the `feeds` table. */
  datatype Feed = Feed(id: string, title: Option<string>, createdAt: int)

  /** A row of the `photos` table. `orderIndex` orders the photos of one feed. */
  datatype PhotoRow = PhotoRow(
    id: string,
    feedId: string,
    storagePath: string,
    caption: Option<string>,
    tags: Option<seq<string>>,
    orderIndex: int,
    createdAt: int)

  /** A row of the `previews` table; `expiresAt == None` never expires. */
  datatype PreviewRow = PreviewRow(
    id: string,
    feedId: string,
    token: string,
    expiresAt: Option<int>,
    createdAt: int)

  /** No two photos of the list share an id (the table's primary key). */
  predicate UniqueIds(ps: seq<PhotoRow>)
  {
    forall i, j :: 0 <= i < j < |ps| ==> ps[i].id != ps[j].id
  }

  /** The ids of a list of photos, in list order. */
  function Ids(ps: seq<PhotoRow>): (r: seq<string>)
    ensures |r| == |ps|
    ensures forall i :: 0 <= i < |ps| ==> r[i] == ps[i].id
  {
    if ps == [] then [] else [ps[0].id] + Ids(ps[1..])
  }
}
