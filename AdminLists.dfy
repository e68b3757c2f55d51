/** The value-level logic of the admin page: moving a photo in the list,
    the renumbering updates and how they land in the photos table, the
    delete filter, upload paths and rows, preview links and the choice
    between an existing and a new feed. */
module AdminLists {
  import opened Rows

  // ---------------------------------------------------------------------
  // Reorder

  /** `findIndex` by id: the first position holding `id`, or -1. */
  function FindIndex(ps: seq<PhotoRow>, id: string): (i: int)
    ensures -1 <= i < |ps|
    ensures 0 <= i ==> ps[i].id == id && forall j :: 0 <= j < i ==> ps[j].id != id
    ensures i == -1 <==> forall j :: 0 <= j < |ps| ==> ps[j].id != id
  {
    if ps == [] then -1
    else if ps[0].id == id then 0
    else
      var k := FindIndex(ps[1..], id);
      if k == -1 then -1 else k + 1
  }

  /** The search finds a position exactly when the id is among the list's ids. */
  lemma FoundIffListed(ps: seq<PhotoRow>, id: string)
    ensures 0 <= FindIndex(ps, id) <==> id in Ids(ps)
  {
    if id in Ids(ps) {
      var j :| 0 <= j < |Ids(ps)| && Ids(ps)[j] == id;
      assert ps[j].id == id;
    }
  }

  /** Take the element at `from` out and put it back so that it lands at `to`. */
  function Move<T>(s: seq<T>, from: nat, to: nat): (r: seq<T>)
    requires from < |s| && to < |s|
    ensures |r| == |s|
  {
    var rest := s[..from] + s[from + 1..];
    rest[..to] + [s[from]] + rest[to..]
  }

  /** The moved element lands at `to`, and taking it out again leaves the
      others in their old order. */
  lemma MoveShape<T>(s: seq<T>, from: nat, to: nat)
    requires from < |s| && to < |s|
    ensures Move(s, from, to)[to] == s[from]
    ensures Move(s, from, to)[..to] + Move(s, from, to)[to + 1..] == s[..from] + s[from + 1..]
  {
    var rest := s[..from] + s[from + 1..];
    assert rest[..to] + rest[to..] == rest;
  }

  /** Moving is a permutation: the same elements, as often as before. */
  lemma MovePermutes<T>(s: seq<T>, from: nat, to: nat)
    requires from < |s| && to < |s|
    ensures multiset(Move(s, from, to)) == multiset(s)
  {
    var r := Move(s, from, to);
    MoveShape(s, from, to);
    calc {
      multiset(r);
      { assert r == r[..to] + [r[to]] + r[to + 1..]; }
      multiset(r[..to] + r[to + 1..]) + multiset{s[from]};
      { assert s == s[..from] + [s[from]] + s[from + 1..]; }
      multiset(s);
    }
  }

  /** Moving back undoes a move. */
  lemma MoveUndo<T>(s: seq<T>, from: nat, to: nat)
    requires from < |s| && to < |s|
    ensures Move(Move(s, from, to), to, from) == s
  {
    var r := Move(s, from, to);
    var u := Move(r, to, from);
    MoveShape(s, from, to);
    MoveShape(r, to, from);
    assert u[..from] + u[from + 1..] == s[..from] + s[from + 1..];
    assert u[from] == s[from];
    assert u == u[..from] + [u[from]] + u[from + 1..];
    assert s == s[..from] + [s[from]] + s[from + 1..];
    var a, c := u[..from] + u[from + 1..], s[..from] + s[from + 1..];
    assert u[..from] == a[..from] && s[..from] == c[..from];
    assert u[from + 1..] == a[from..] && s[from + 1..] == c[from..];
  }

  /** The position in the original list of the element a move puts at `k`. */
  function MovedFrom(from: nat, to: nat, k: nat): nat
  {
    if k == to then from
    else
      var m := if k < to then k else k - 1;
      if m < from then m else m + 1
  }

  lemma MoveAt<T>(s: seq<T>, from: nat, to: nat, k: nat)
    requires from < |s| && to < |s| && k < |s|
    ensures MovedFrom(from, to, k) < |s|
    ensures Move(s, from, to)[k] == s[MovedFrom(from, to, k)]
  {
    var rest := s[..from] + s[from + 1..];
    assert Move(s, from, to) == rest[..to] + [s[from]] + rest[to..];
  }

  /** A move keeps the ids of a list distinct. */
  lemma MoveKeepsUniqueIds(s: seq<PhotoRow>, from: nat, to: nat)
    requires from < |s| && to < |s| && UniqueIds(s)
    ensures UniqueIds(Move(s, from, to))
  {
    var r := Move(s, from, to);
    forall a, c | 0 <= a < c < |r|
      ensures r[a].id != r[c].id
    {
      MoveAt(s, from, to, a);
      MoveAt(s, from, to, c);
      assert MovedFrom(from, to, a) != MovedFrom(from, to, c);
    }
  }

  /** One write of `{ order_index }` for the photo with id `id`. */
  datatype Update = Update(id: string, orderIndex: int)

  /** `newPhotos.map((photo, index) => ({ id, order_index: index }))`. */
  function OrderUpdates(ps: seq<PhotoRow>): (us: seq<Update>)
    ensures |us| == |ps|
    ensures forall i :: 0 <= i < |ps| ==> us[i] == Update(ps[i].id, i)
  {
    seq(|ps|, i requires 0 <= i < |ps| => Update(ps[i].id, i))
  }

  /** What one awaited write did: it was applied, it returned an error
      (which the caller does not look at), or it threw. */
  datatype WriteOutcome = Applied | Refused | Threw

  /** `update({ order_index: k }).eq('id', id)` on the photos table. */
  function SetOrderIndex(table: seq<PhotoRow>, id: string, k: int): (t: seq<PhotoRow>)
    ensures |t| == |table|
    ensures forall j :: 0 <= j < |table| ==>
              t[j] == if table[j].id == id then table[j].(orderIndex := k) else table[j]
  {
    seq(|table|, j requires 0 <= j < |table| =>
      if table[j].id == id then table[j].(orderIndex := k) else table[j])
  }

  /** The table after issuing the updates one at a time, stopping at the first one that throws. */
  function ApplyUpdates(table: seq<PhotoRow>, us: seq<Update>, os: seq<WriteOutcome>): (t: seq<PhotoRow>)
    requires |os| == |us|
    decreases |us|
    ensures |t| == |table|
  {
    if us == [] then table
    else match os[0]
      case Threw => table
      case Applied => ApplyUpdates(SetOrderIndex(table, us[0].id, us[0].orderIndex), us[1..], os[1..])
      case Refused => ApplyUpdates(table, us[1..], os[1..])
  }

  /** Issuing the writes from position i on: the write at i is issued first,
      and a write that throws leaves the table as it is. */
  lemma ApplyUpdatesFrom(table: seq<PhotoRow>, us: seq<Update>, os: seq<WriteOutcome>, i: nat)
    requires |os| == |us| && i < |us|
    ensures ApplyUpdates(table, us[i..], os[i..]) ==
              match os[i]
              case Threw => table
              case Applied => ApplyUpdates(SetOrderIndex(table, us[i].id, us[i].orderIndex), us[i + 1..], os[i + 1..])
              case Refused => ApplyUpdates(table, us[i + 1..], os[i + 1..])
  {
    assert us[i..][1..] == us[i + 1..] && os[i..][1..] == os[i + 1..];
  }

  /** Position of the first write that throws, or the number of writes. */
  function FirstThrow(os: seq<WriteOutcome>): (k: nat)
    ensures k <= |os|
    ensures k < |os| ==> os[k] == Threw
    ensures forall i :: 0 <= i < k ==> os[i] != Threw
  {
    if os == [] then 0 else if os[0] == Threw then 0 else 1 + FirstThrow(os[1..])
  }

  /** The `order_index` the last applied write before the first throw gives `id`, if any. */
  function WrittenIndex(id: string, us: seq<Update>, os: seq<WriteOutcome>): Option<int>
    requires |os| == |us|
    decreases |us|
  {
    if us == [] || os[0] == Threw then None
    else
      var later := WrittenIndex(id, us[1..], os[1..]);
      if later.Some? then later
      else if os[0] == Applied && us[0].id == id then Some(us[0].orderIndex)
      else None
  }

  /** Issuing the writes changes only `order_index`, and each row ends with
      the index last written for its id before the first throw. */
  lemma {:induction false} ApplyUpdatesRow(table: seq<PhotoRow>, us: seq<Update>, os: seq<WriteOutcome>, j: nat)
    requires |os| == |us| && j < |table|
    decreases |us|
    ensures |ApplyUpdates(table, us, os)| == |table|
    ensures ApplyUpdates(table, us, os)[j] ==
              match WrittenIndex(table[j].id, us, os)
              case None => table[j]
              case Some(k) => table[j].(orderIndex := k)
  {
    if us != [] && os[0] != Threw {
      var t' := if os[0] == Applied then SetOrderIndex(table, us[0].id, us[0].orderIndex) else table;
      ApplyUpdatesRow(t', us[1..], os[1..], j);
      assert t'[j].id == table[j].id;
    }
  }

  /** Writes whose ids are all different: the write for `us[i]` lands exactly
      when it is applied and no earlier write threw, and an id that no write
      names is never written. */
  lemma {:induction false} WrittenIndexOfDistinct(us: seq<Update>, os: seq<WriteOutcome>, id: string)
    requires |os| == |us|
    requires forall i, j :: 0 <= i < j < |us| ==> us[i].id != us[j].id
    ensures forall i :: 0 <= i < |us| && us[i].id == id ==>
              WrittenIndex(id, us, os) ==
                if i < FirstThrow(os) && os[i] == Applied then Some(us[i].orderIndex) else None
    ensures (forall i :: 0 <= i < |us| ==> us[i].id != id) ==> WrittenIndex(id, us, os) == None
  {
    if us != [] && os[0] != Threw {
      WrittenIndexOfDistinct(us[1..], os[1..], id);
      forall i | 1 <= i < |us| && us[i].id == id
        ensures WrittenIndex(id, us, os) ==
                  if i < FirstThrow(os) && os[i] == Applied then Some(us[i].orderIndex) else None
      {
        assert us[1..][i - 1] == us[i];
        assert FirstThrow(os) == 1 + FirstThrow(os[1..]);
      }
      if us[0].id == id {
        forall i | 0 <= i < |us[1..]|
          ensures us[1..][i].id != id
        {
          assert us[1..][i] == us[i + 1];
        }
      }
    }
  }

  /** After a reorder whose writes were issued in list order: the row of the
      photo now at position i holds i when its write was applied before any
      write threw, and otherwise keeps its old index; rows of photos not in
      the list are untouched. With every write applied, the indices of the
      listed photos are exactly their positions 0..n-1. */
  lemma ReorderWritesPositions(table: seq<PhotoRow>, ps: seq<PhotoRow>, os: seq<WriteOutcome>, j: nat)
    requires UniqueIds(ps) && |os| == |ps| && j < |table|
    ensures |ApplyUpdates(table, OrderUpdates(ps), os)| == |table|
    ensures forall i :: 0 <= i < |ps| && ps[i].id == table[j].id ==>
              ApplyUpdates(table, OrderUpdates(ps), os)[j] ==
                if i < FirstThrow(os) && os[i] == Applied then table[j].(orderIndex := i) else table[j]
    ensures (forall i :: 0 <= i < |ps| ==> ps[i].id != table[j].id) ==>
              ApplyUpdates(table, OrderUpdates(ps), os)[j] == table[j]
  {
    var us := OrderUpdates(ps);
    ApplyUpdatesRow(table, us, os, j);
    WrittenIndexOfDistinct(us, os, table[j].id);
  }

  /** The writes a drag issues after moving the photo at `from` to `to` in
      a list with distinct ids: the row of the photo that ends at position i
      holds i when its write landed before any write threw, and otherwise
      keeps its old index; rows of photos not in the list are untouched. */
  lemma DragWritesPositions(table: seq<PhotoRow>, photos: seq<PhotoRow>, from: nat, to: nat,
                            os: seq<WriteOutcome>, j: nat)
    requires UniqueIds(photos) && from < |photos| && to < |photos|
    requires |os| == |photos| && j < |table|
    ensures UniqueIds(Move(photos, from, to))
    ensures forall i :: 0 <= i < |photos| && Move(photos, from, to)[i].id == table[j].id ==>
              ApplyUpdates(table, OrderUpdates(Move(photos, from, to)), os)[j] ==
                if i < FirstThrow(os) && os[i] == Applied then table[j].(orderIndex := i) else table[j]
    ensures (forall i :: 0 <= i < |photos| ==> photos[i].id != table[j].id) ==>
              ApplyUpdates(table, OrderUpdates(Move(photos, from, to)), os)[j] == table[j]
  {
    var moved := Move(photos, from, to);
    MoveKeepsUniqueIds(photos, from, to);
    ReorderWritesPositions(table, moved, os, j);
    if forall i :: 0 <= i < |photos| ==> photos[i].id != table[j].id {
      forall i | 0 <= i < |moved|
        ensures moved[i].id != table[j].id
      {
        MoveAt(photos, from, to, i);
      }
    }
  }


  // ---------------------------------------------------------------------
  // Delete

  /** `photos.filter(p => p.id !== photoId)`; also the rows left by `delete().eq('id', photoId)`. */
  function WithoutPhoto(ps: seq<PhotoRow>, id: string): (r: seq<PhotoRow>)
    ensures |r| <= |ps|
  {
    if ps == [] then []
    else (if ps[0].id == id then [] else [ps[0]]) + WithoutPhoto(ps[1..], id)
  }

  /** The filter keeps exactly the entries whose id differs. */
  lemma {:induction false} WithoutPhotoMembers(ps: seq<PhotoRow>, id: string)
    ensures forall p :: p in WithoutPhoto(ps, id) <==> p in ps && p.id != id
  {
    if ps != [] {
      WithoutPhotoMembers(ps[1..], id);
      assert ps == [ps[0]] + ps[1..];
    }
  }

  /** Deleting an id that is not in the list leaves the list as it is. */
  lemma {:induction false} WithoutAbsentPhoto(ps: seq<PhotoRow>, id: string)
    requires forall i :: 0 <= i < |ps| ==> ps[i].id != id
    ensures WithoutPhoto(ps, id) == ps
  {
    if ps != [] {
      assert forall i :: 0 <= i < |ps[1..]| ==> ps[1..][i] == ps[i + 1];
      WithoutAbsentPhoto(ps[1..], id);
    }
  }

  /** The tail of a list with distinct ids has distinct ids. */
  lemma UniqueTail(ps: seq<PhotoRow>)
    requires UniqueIds(ps) && ps != []
    ensures UniqueIds(ps[1..])
    ensures forall k :: 0 <= k < |ps[1..]| ==> ps[1..][k].id != ps[0].id
  {
    forall a, c | 0 <= a < c < |ps[1..]|
      ensures ps[1..][a].id != ps[1..][c].id
    {
      assert ps[1..][a] == ps[a + 1] && ps[1..][c] == ps[c + 1];
    }
    forall k | 0 <= k < |ps[1..]|
      ensures ps[1..][k].id != ps[0].id
    {
      assert ps[1..][k] == ps[k + 1];
    }
  }

  /** Deleting the photo at position i of a list with distinct ids removes
      exactly that entry: the others stay, in order, with their
      `order_index` as it was (no renumbering). */
  lemma {:induction false} WithoutPresentPhoto(ps: seq<PhotoRow>, i: nat)
    requires UniqueIds(ps) && i < |ps|
    ensures WithoutPhoto(ps, ps[i].id) == ps[..i] + ps[i + 1..]
  {
    var id := ps[i].id;
    UniqueTail(ps);
    if i == 0 {
      WithoutAbsentPhoto(ps[1..], id);
    } else {
      assert ps[1..][i - 1] == ps[i];
      WithoutPresentPhoto(ps[1..], i - 1);
      assert WithoutPhoto(ps, id) == [ps[0]] + WithoutPhoto(ps[1..], id);
      assert ps[..i] == [ps[0]] + ps[1..][..i - 1];
      assert ps[i + 1..] == ps[1..][i..];
    }
  }

  // ---------------------------------------------------------------------
  // Upload

  /** `name.split('.').pop()`: the text after the last '.', or the whole
      name when it has no '.'. */
  function Extension(name: string): (ext: string)
    ensures |ext| <= |name|
  {
    if name == [] then []
    else if name[|name| - 1] == '.' then []
    else Extension(name[..|name| - 1]) + [name[|name| - 1]]
  }

  /** The extension is the dot-free suffix after the last '.', or the whole
      name when it has no '.'. */
  lemma {:induction false} ExtensionIsLastSegment(name: string)
    ensures var ext := Extension(name);
            && '.' !in ext
            && ext == name[|name| - |ext|..]
            && ('.' in name ==> |ext| < |name| && name[|name| - |ext| - 1] == '.')
            && ('.' !in name ==> ext == name)
  {
    if name != [] && name[|name| - 1] != '.' {
      var init, c := name[..|name| - 1], name[|name| - 1];
      var e0 := Extension(init);
      ExtensionIsLastSegment(init);
      assert name == init + [c];
      assert Extension(name) == e0 + [c];
      assert name[|name| - |e0| - 1..] == init[|init| - |e0|..] + [c];
      if '.' in name {
        assert '.' in init;
        assert name[|name| - |e0| - 2] == init[|init| - |e0| - 1];
      }
    }
  }

  /** A dot followed by a dot-free text determines the extension. */
  lemma {:induction false} ExtensionAfterDot(prefix: string, ext: string)
    requires '.' !in ext
    ensures Extension(prefix + "." + ext) == ext
  {
    var s := prefix + "." + ext;
    if ext != [] {
      var init := ext[..|ext| - 1];
      assert s[..|s| - 1] == prefix + "." + init;
      ExtensionAfterDot(prefix, init);
      assert ext == init + [ext[|ext| - 1]];
    }
  }

  /** `${feed.id}/${nanoid()}.${fileExt}`. */
  function StoragePath(feedId: string, randomId: string, name: string): string
  {
    feedId + "/" + randomId + "." + Extension(name)
  }

  /** A stored object sits under its feed's folder. */
  lemma StoragePathPrefix(feedId: string, randomId: string, name: string)
    ensures StoragePath(feedId, randomId, name)[..|feedId| + 1] == feedId + "/"
  {
    var head, tail := feedId + "/", randomId + "." + Extension(name);
    assert StoragePath(feedId, randomId, name) == head + tail;
    assert (head + tail)[..|head|] == head;
  }

  /** A stored object keeps the extension of the uploaded file's name. */
  lemma StoragePathExtension(feedId: string, randomId: string, name: string)
    ensures Extension(StoragePath(feedId, randomId, name)) == Extension(name)
  {
    ExtensionIsLastSegment(name);
    ExtensionAfterDot(feedId + "/" + randomId, Extension(name));
  }

  /** What happened to one file of a batch: the random name chosen, whether
      the storage upload succeeded, and the id, creation time and success
      of the row insert. */
  datatype FileOutcome = FileOutcome(randomId: string, stored: bool, rowId: string, createdAt: int, inserted: bool)

  predicate FileDone(o: FileOutcome)
  {
    o.stored && o.inserted
  }

  /** Position of the first file that fails, or the number of files. */
  function FirstFailedFile(os: seq<FileOutcome>): (k: nat)
    ensures k <= |os|
    ensures k < |os| ==> !FileDone(os[k])
  {
    if os == [] then 0 else if !FileDone(os[0]) then 0 else 1 + FirstFailedFile(os[1..])
  }

  /** Every file before the first failing one went through. */
  lemma {:induction false} FirstFailedFileIsFirst(os: seq<FileOutcome>)
    ensures forall i :: 0 <= i < FirstFailedFile(os) ==> FileDone(os[i])
  {
    if os != [] && FileDone(os[0]) {
      FirstFailedFileIsFirst(os[1..]);
      forall i | 1 <= i < FirstFailedFile(os)
        ensures FileDone(os[i])
      {
        assert os[1..][i - 1] == os[i];
      }
    }
  }

  /** Up to the first failing file, a file goes through exactly when the
      first failure lies further on. */
  lemma FirstFailedFileAt(os: seq<FileOutcome>, i: nat)
    requires i < |os| && i <= FirstFailedFile(os)
    ensures FileDone(os[i]) <==> i < FirstFailedFile(os)
  {
    FirstFailedFileIsFirst(os);
  }

  /** The row inserted for file `name`: no caption, no tags, index `base`. */
  function UploadedRow(feedId: string, base: int, name: string, o: FileOutcome): PhotoRow
  {
    PhotoRow(o.rowId, feedId, StoragePath(feedId, o.randomId, name), None, None, base, o.createdAt)
  }

  /** The rows a batch inserts: one per file, up to the first failing file. */
  function BatchRows(feedId: string, base: int, names: seq<string>, os: seq<FileOutcome>): seq<PhotoRow>
  {
    if names == [] || os == [] || !FileDone(os[0]) then []
    else [UploadedRow(feedId, base, names[0], os[0])] + BatchRows(feedId, base, names[1..], os[1..])
  }

  /** The objects a batch writes to storage: those of the inserted rows, and
      that of the first failing file when its upload went through but its
      insert did not (left behind without a row). */
  function BatchObjects(feedId: string, names: seq<string>, os: seq<FileOutcome>): set<string>
  {
    if names == [] || os == [] || !os[0].stored then {}
    else {StoragePath(feedId, os[0].randomId, names[0])}
         + (if os[0].inserted then BatchObjects(feedId, names[1..], os[1..]) else {})
  }

  /** The objects the batch writes from file i on, by position. */
  function ObjectsFrom(feedId: string, names: seq<string>, os: seq<FileOutcome>, i: nat): set<string>
    requires |os| == |names| && i <= |names|
    decreases |names| - i
  {
    if i == |names| || !os[i].stored then {}
    else {StoragePath(feedId, os[i].randomId, names[i])}
         + (if os[i].inserted then ObjectsFrom(feedId, names, os, i + 1) else {})
  }

  /** Counting by position gives the objects of the rest of the batch. */
  lemma {:induction false} ObjectsFromRest(feedId: string, names: seq<string>, os: seq<FileOutcome>, i: nat)
    requires |os| == |names| && i <= |names|
    decreases |names| - i
    ensures ObjectsFrom(feedId, names, os, i) == BatchObjects(feedId, names[i..], os[i..])
  {
    if i < |names| && os[i].stored && os[i].inserted {
      ObjectsFromRest(feedId, names, os, i + 1);
      assert names[i..][1..] == names[i + 1..] && os[i..][1..] == os[i + 1..];
    }
  }

  /** Every file of a batch is inserted with the same `order_index`, the
      list length before the batch; the files after the first failure are
      not inserted; each row points at its file's storage path. */
  lemma {:induction false} BatchRowsShape(feedId: string, base: int, names: seq<string>, os: seq<FileOutcome>)
    requires |os| == |names|
    ensures |BatchRows(feedId, base, names, os)| == FirstFailedFile(os)
    ensures forall i :: 0 <= i < |BatchRows(feedId, base, names, os)| ==>
              var r := BatchRows(feedId, base, names, os)[i];
              && r == UploadedRow(feedId, base, names[i], os[i])
              && r.orderIndex == base && r.feedId == feedId && r.id == os[i].rowId
              && r.storagePath == StoragePath(feedId, os[i].randomId, names[i])
  {
    if names != [] && FileDone(os[0]) {
      BatchRowsShape(feedId, base, names[1..], os[1..]);
      var rows := BatchRows(feedId, base, names, os);
      forall i | 1 <= i < |rows|
        ensures rows[i] == UploadedRow(feedId, base, names[i], os[i])
      {
        assert rows[i] == BatchRows(feedId, base, names[1..], os[1..])[i - 1];
        assert os[1..][i - 1] == os[i] && names[1..][i - 1] == names[i];
      }
    }
  }

  /** The storage paths the rows point at. */
  function RowPaths(rows: seq<PhotoRow>): (paths: set<string>)
    ensures forall i :: 0 <= i < |rows| ==> rows[i].storagePath in paths
  {
    if rows == [] then {} else {rows[0].storagePath} + RowPaths(rows[1..])
  }

  /** The objects written are the paths of the inserted rows plus, when the
      failing file was stored but not inserted, its orphaned path. */
  lemma {:induction false} BatchObjectsAreRowsAndOrphan(feedId: string, base: int, names: seq<string>, os: seq<FileOutcome>)
    requires |os| == |names|
    ensures var k := FirstFailedFile(os);
            BatchObjects(feedId, names, os) ==
              RowPaths(BatchRows(feedId, base, names, os))
              + (if k < |names| && os[k].stored then {StoragePath(feedId, os[k].randomId, names[k])} else {})
  {
    if names != [] && FileDone(os[0]) {
      BatchObjectsAreRowsAndOrphan(feedId, base, names[1..], os[1..]);
      var rows := BatchRows(feedId, base, names, os);
      var rest := BatchRows(feedId, base, names[1..], os[1..]);
      assert rows[1..] == rest;
      var k := FirstFailedFile(os);
      assert k == 1 + FirstFailedFile(os[1..]);
      if k < |names| {
        assert os[1..][k - 1] == os[k] && names[1..][k - 1] == names[k];
      }
    }
  }

  // ---------------------------------------------------------------------
  // Preview links

  /** Lifetime of a preview link in milliseconds (one hour). */
  const PreviewTtlMs := 3_600_000

  /** The expiry stored with a preview created at `now`. */
  function PreviewExpiry(now: int): (e: int)
    ensures e - now == PreviewTtlMs
  {
    now + PreviewTtlMs
  }

  const PreviewRoute := "/preview/"

  /** The shareable URL of a preview. */
  function PreviewLink(origin: string, token: string): string
  {
    origin + PreviewRoute + token
  }

  /** The link starts with the site's origin and the preview route, and the
      token can be read back from what follows. */
  lemma PreviewLinkParts(origin: string, token: string)
    ensures var url := PreviewLink(origin, token);
            |url| == |origin| + |PreviewRoute| + |token|
            && url[..|origin|] == origin
            && url[|origin|..|origin| + |PreviewRoute|] == PreviewRoute
            && url[|origin| + |PreviewRoute|..] == token
  {
    var url := PreviewLink(origin, token);
    assert url == origin + (PreviewRoute + token);
    assert url[|origin|..] == PreviewRoute + token;
  }

  // ---------------------------------------------------------------------
  // Loading the feed

  /** The error code of a `.single()` query that matched no row. */
  const NoRowsCode := "PGRST116"

  /** The title given to a feed created on first visit. */
  const DraftTitle := "Draft IG Grid"

  /** What the "first feed" query gave back. */
  datatype FeedSelect = FeedFound(feed: Feed) | SelectFailed(code: string) | SelectThrew

  /** The query found no feed, so one is created. */
  predicate CreatesFeed(select: FeedSelect)
  {
    select == SelectFailed(NoRowsCode)
  }

  /** The feed the page ends up with: the existing one, or the created one
      when there was none and the insert succeeded; none on any other error. */
  function ResolveFeed(select: FeedSelect, created: Option<Feed>): (r: Option<Feed>)
    ensures select.FeedFound? ==> r == Some(select.feed)
    ensures !select.FeedFound? && !CreatesFeed(select) ==> r == None
    ensures CreatesFeed(select) ==> r == created
  {
    match select
    case FeedFound(f) => Some(f)
    case SelectFailed(code) => if code == NoRowsCode then created else None
    case SelectThrew => None
  }
}
