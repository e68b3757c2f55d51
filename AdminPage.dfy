/** The admin page's state and its event handlers. The page holds the
    loaded feed, its local photo list and the last preview URL; the rows of
    the photos table, the keys in the photo bucket and the inserted preview
    records stand for the backend the handlers write to. Every backend
    reply is a parameter. */
module AdminPageState {
  import opened Rows
  import opened AdminLists

  /** The fields a preview insert sends. */
  datatype PreviewInsert = PreviewInsert(feedId: string, token: string, expiresAt: int)

  class AdminPage {
    var feed: Option<Feed>
    var photos: seq<PhotoRow>
    var previewUrl: string
    var loading: bool

    var table: seq<PhotoRow>
    var storage: set<string>
    var previews: seq<PreviewInsert>

    /** A freshly mounted page over a backend holding `rows` and `objects`. */
    constructor (rows: seq<PhotoRow>, objects: set<string>)
      ensures feed == None && photos == [] && previewUrl == "" && loading
      ensures table == rows && storage == objects && previews == []
    {
      feed, photos, previewUrl, loading := None, [], "", true;
      table, storage, previews := rows, objects, [];
    }

    /** `loadPhotos`: the list becomes the query result, or stays as it was
        when the query fails (`reload == None`). */
    method LoadPhotos(reload: Option<seq<PhotoRow>>)
      modifies this`photos
      ensures photos == if reload.Some? then reload.value else old(photos)
    {
      if reload.Some? {
        photos := reload.value;
      }
    }

    /** `loadOrCreateFeed`: use the existing feed, or create one when the
        query matched no row; then load its photos. Loading ends either way. */
    method LoadOrCreateFeed(select: FeedSelect, created: Option<Feed>, reload: Option<seq<PhotoRow>>)
      modifies this`feed, this`photos, this`loading
      ensures feed == if ResolveFeed(select, created).Some? then ResolveFeed(select, created) else old(feed)
      ensures photos == if ResolveFeed(select, created).Some? && reload.Some? then reload.value else old(photos)
      ensures !loading
    {
      var resolved := ResolveFeed(select, created);
      if resolved.Some? {
        feed := resolved;
        LoadPhotos(reload);
      }
      loading := false;
    }

    /** `handleFileUpload`: for each file in turn, upload it under a fresh
        name in the feed's folder and insert its row with `order_index` set
        to the list length before the batch; the first failure ends the
        batch. When every file went through, the list is reloaded. */
    method HandleFileUpload(files: Option<seq<string>>, outcomes: seq<FileOutcome>, reload: Option<seq<PhotoRow>>)
      requires files.Some? ==> |outcomes| == |files.value|
      modifies this`table, this`storage, this`photos
      ensures files.None? || feed.None? ==>
                table == old(table) && storage == old(storage) && photos == old(photos)
      ensures files.Some? && feed.Some? ==>
                var base := |old(photos)|;
                && table == old(table) + BatchRows(feed.value.id, base, files.value, outcomes)
                && storage == old(storage) + BatchObjects(feed.value.id, files.value, outcomes)
                && photos == if FirstFailedFile(outcomes) == |outcomes| && reload.Some? then reload.value
                             else old(photos)
    {
      if files.None? || feed.None? {
        return;
      }
      var allDone := UploadBatch(feed.value.id, |photos|, files.value, outcomes);
      ObjectsFromRest(feed.value.id, files.value, outcomes, 0);
      assert files.value[0..] == files.value && outcomes[0..] == outcomes;
      if allDone {
        LoadPhotos(reload);
      }
    }

    /** The loop of `handleFileUpload`: the files one at a time, each row
        with `order_index` `base`; the first failure ends the loop. Reports
        whether every file went through. */
    method UploadBatch(feedId: string, base: int, names: seq<string>, outcomes: seq<FileOutcome>)
      returns (allDone: bool)
      requires |outcomes| == |names|
      modifies this`table, this`storage
      ensures allDone <==> FirstFailedFile(outcomes) == |outcomes|
      ensures table == old(table) + BatchRows(feedId, base, names, outcomes)
      ensures storage == old(storage) + ObjectsFrom(feedId, names, outcomes, 0)
    {
      ghost var rows := BatchRows(feedId, base, names, outcomes);
      BatchRowsShape(feedId, base, names, outcomes);
      var i := 0;
      while i < |names|
        invariant 0 <= i <= |names|
        invariant i <= FirstFailedFile(outcomes)
        invariant table == old(table) + rows[..i]
        invariant storage + ObjectsFrom(feedId, names, outcomes, i)
                  == old(storage) + ObjectsFrom(feedId, names, outcomes, 0)
      {
        FirstFailedFileAt(outcomes, i);
        var storage0 := storage;
        var done := UploadFile(feedId, base, names[i], outcomes[i]);
        if !done {
          assert rows[..i] == rows;
          assert storage == storage0 + ObjectsFrom(feedId, names, outcomes, i);
          return false;
        }
        assert rows[..i + 1] == rows[..i] + [rows[i]];
        assert storage + ObjectsFrom(feedId, names, outcomes, i + 1)
               == storage0 + ObjectsFrom(feedId, names, outcomes, i);
        i := i + 1;
      }
      assert rows[..i] == rows;
      return true;
    }

    /** One file of `handleFileUpload`'s loop: upload the object under
        `<feed id>/<random id>.<extension>`, then insert its row; an upload
        error skips the insert, and either error ends the batch. */
    method UploadFile(feedId: string, base: int, name: string, o: FileOutcome) returns (done: bool)
      modifies this`table, this`storage
      ensures done == FileDone(o)
      ensures storage == if o.stored then old(storage) + {StoragePath(feedId, o.randomId, name)} else old(storage)
      ensures table == if done then old(table) + [UploadedRow(feedId, base, name, o)] else old(table)
    {
      if !o.stored {
        return false;
      }
      storage := storage + {StoragePath(feedId, o.randomId, name)};
      if !o.inserted {
        return false;
      }
      table := table + [UploadedRow(feedId, base, name, o)];
      return true;
    }

    /** `handleDragEnd`: unless the photo is dropped on itself, move it to
        the drop position in the list, then write each photo's position as
        its `order_index`, one write at a time; a write that throws ends the
        loop, and the list keeps its new order. */
    method HandleDragEnd(activeId: string, overId: string, outcomes: seq<WriteOutcome>)
      requires activeId in Ids(photos) && overId in Ids(photos)
      requires |outcomes| == |photos|
      modifies this`photos, this`table
      ensures activeId == overId ==> photos == old(photos) && table == old(table)
      ensures activeId != overId ==>
                var moved := Move(old(photos), FindIndex(old(photos), activeId), FindIndex(old(photos), overId));
                && photos == moved
                && table == ApplyUpdates(old(table), OrderUpdates(moved), outcomes)
    {
      if activeId == overId {
        return;
      }
      FoundIffListed(photos, activeId);
      FoundIffListed(photos, overId);
      var oldIndex, newIndex := FindIndex(photos, activeId), FindIndex(photos, overId);
      var newPhotos := Move(photos, oldIndex, newIndex);
      photos := newPhotos;
      WriteOrder(OrderUpdates(newPhotos), outcomes);
    }

    /** The write loop of `handleDragEnd`: each update is awaited in turn,
        an error it returns is ignored, and one that throws ends the loop. */
    method WriteOrder(updates: seq<Update>, outcomes: seq<WriteOutcome>)
      requires |outcomes| == |updates|
      modifies this`table
      ensures table == ApplyUpdates(old(table), updates, outcomes)
    {
      var i := 0;
      while i < |updates|
        invariant 0 <= i <= |updates|
        invariant ApplyUpdates(table, updates[i..], outcomes[i..]) == ApplyUpdates(old(table), updates, outcomes)
      {
        ApplyUpdatesFrom(table, updates, outcomes, i);
        if outcomes[i] == Threw {
          break;
        }
        if outcomes[i] == Applied {
          table := SetOrderIndex(table, updates[i].id, updates[i].orderIndex);
        }
        i := i + 1;
      }
      assert i == |updates| ==> updates[i..] == [];
    }

    /** `deletePhoto`: an id not in the list does nothing. Otherwise remove
        the object, then the row, then drop the photo from the list; a call
        that throws ends the handler with the list unchanged, while an error
        a call returns is not looked at. */
    method DeletePhoto(photoId: string, removal: WriteOutcome, deletion: WriteOutcome)
      modifies this`storage, this`table, this`photos
      ensures photoId !in Ids(old(photos)) ==>
                storage == old(storage) && table == old(table) && photos == old(photos)
      ensures photoId in Ids(old(photos)) ==>
                var path := old(photos)[FindIndex(old(photos), photoId)].storagePath;
                && storage == (if removal == Applied then old(storage) - {path} else old(storage))
                && table == (if removal != Threw && deletion == Applied then WithoutPhoto(old(table), photoId)
                             else old(table))
                && photos == (if removal != Threw && deletion != Threw then WithoutPhoto(old(photos), photoId)
                              else old(photos))
    {
      var k := FindIndex(photos, photoId);
      if k == -1 {
        return;
      }
      var photo := photos[k];
      if removal == Threw {
        return;
      }
      if removal == Applied {
        storage := storage - {photo.storagePath};
      }
      if deletion == Threw {
        return;
      }
      if deletion == Applied {
        table := WithoutPhoto(table, photoId);
      }
      photos := WithoutPhoto(photos, photoId);
    }

    /** `generatePreviewLink`: with a feed loaded, insert a preview for
        `token` expiring one hour after `now`, and on success show its link. */
    method GeneratePreviewLink(token: string, now: int, origin: string, insert: WriteOutcome)
      modifies this`previews, this`previewUrl
      ensures feed.None? || insert != Applied ==> previews == old(previews) && previewUrl == old(previewUrl)
      ensures feed.Some? && insert == Applied ==>
                previews == old(previews) + [PreviewInsert(feed.value.id, token, PreviewExpiry(now))]
                && previewUrl == PreviewLink(origin, token)
    {
      if feed.None? {
        return;
      }
      if insert != Applied {
        return;
      }
      previews := previews + [PreviewInsert(feed.value.id, token, PreviewExpiry(now))];
      previewUrl := PreviewLink(origin, token);
    }
  }
}
