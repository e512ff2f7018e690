/**
 * The playback queue of src/context/QueueContext.tsx as values: the ordered
 * queue, the id of the active item and the shared play flag. Every action is a
 * function from the state before the event to the state after it; the React
 * updater closures of one action all read that same pre-state. `firstId` is
 * the next unused id of the fresh-id supply that replaces `crypto.randomUUID`.
 */
module Queue {
  import opened Maybe
  import opened Catalog
  import opened QueueHelpers

  datatype QueueState = QueueState(queue: seq<QueueItem>, activeId: Option<ItemId>, isPlaying: bool)

  /** Some item of `q` has id `id`. */
  predicate Queued(q: seq<QueueItem>, id: ItemId) {
    exists i :: 0 <= i < |q| && q[i].id == id
  }

  predicate DistinctIds(q: seq<QueueItem>) {
    forall i, j :: 0 <= i < j < |q| ==> q[i].id != q[j].id
  }

  /** Every id in `q` is below `bound`, so ids drawn from `bound` on are fresh. */
  predicate IdsBelow(q: seq<QueueItem>, bound: nat) {
    forall i :: 0 <= i < |q| ==> q[i].id < bound
  }

  /** The engine's invariant: the active id is absent or names a queued item. */
  predicate ActiveValid(s: QueueState) {
    s.activeId.None? || Queued(s.queue, s.activeId.value)
  }

  /** `queue.findIndex(item => item.id === id)`. */
  function FindItemIndex(q: seq<QueueItem>, id: ItemId): (r: int)
    ensures -1 <= r < |q|
    ensures r == -1 <==> !Queued(q, id)
    ensures r >= 0 ==> q[r].id == id && forall j :: 0 <= j < r ==> q[j].id != id
  {
    if |q| == 0 then -1
    else if q[0].id == id then 0
    else
      var k := FindItemIndex(q[1..], id);
      assert Queued(q, id) ==> Queued(q[1..], id) by {
        if Queued(q, id) {
          var i :| 0 <= i < |q| && q[i].id == id;
          assert q[1..][i - 1] == q[i];
        }
      }
      assert Queued(q[1..], id) ==> Queued(q, id) by {
        if Queued(q[1..], id) {
          var j :| 0 <= j < |q[1..]| && q[1..][j].id == id;
          assert q[j + 1] == q[1..][j];
        }
      }
      if k == -1 then -1 else k + 1
  }

  /**
   * The derived `queueIndex`: -1 when nothing is active or the active id
   * matches no item, else the first position holding the active id.
   */
  function QueueIndex(q: seq<QueueItem>, activeId: Option<ItemId>): (r: int)
    ensures -1 <= r < |q|
    ensures r == -1 <==> activeId.None? || !Queued(q, activeId.value)
    ensures r >= 0 ==> activeId == Some(q[r].id) && forall j :: 0 <= j < r ==> q[j].id != q[r].id
  {
    if activeId.None? then -1 else FindItemIndex(q, activeId.value)
  }

  function Index(s: QueueState): int {
    QueueIndex(s.queue, s.activeId)
  }

  /** The derived `currentQueueItem`: absent exactly when `queueIndex` is -1. */
  function CurrentQueueItem(s: QueueState): (r: Option<QueueItem>)
    ensures r.None? <==> Index(s) == -1
    ensures r.Some? ==> r.value == s.queue[Index(s)] && s.activeId == Some(r.value.id)
  {
    var k := Index(s);
    if k == -1 then None else Some(s.queue[k])
  }

  /** The position of an item whose id occurs first at `k` is `k`. */
  lemma QueueIndexIs(q: seq<QueueItem>, activeId: Option<ItemId>, k: int)
    requires 0 <= k < |q| && activeId == Some(q[k].id)
    requires forall j :: 0 <= j < k ==> q[j].id != q[k].id
    ensures QueueIndex(q, activeId) == k
  {
    var r := QueueIndex(q, activeId);
    assert Queued(q, q[k].id);
    if r < k {
      assert q[r].id == q[k].id;
    } else if r > k {
      assert q[k].id == q[r].id;
    }
  }

  /** With distinct ids, the active item's position is where its id sits. */
  lemma QueueIndexOfDistinct(q: seq<QueueItem>, k: int)
    requires DistinctIds(q) && 0 <= k < |q|
    ensures QueueIndex(q, Some(q[k].id)) == k
  {
    QueueIndexIs(q, Some(q[k].id), k);
  }

  /** `insertAt(array, index, items)`: `items` placed before position `index`, the rest shifted. */
  function InsertAt<T>(a: seq<T>, index: int, items: seq<T>): (r: seq<T>)
    requires 0 <= index <= |a|
    ensures |r| == |a| + |items|
    ensures forall i :: 0 <= i < |r| ==>
              r[i] == if i < index then a[i] else if i < index + |items| then items[i - index] else a[i - |items|]
  {
    a[..index] + items + a[index..]
  }

  /** Removing the block inserted at `index` gives back the original sequence. */
  lemma InsertAtRemovable<T>(a: seq<T>, index: int, items: seq<T>)
    requires 0 <= index <= |a|
    ensures var r := InsertAt(a, index, items);
            r[index..index + |items|] == items && r[..index] + r[index + |items|..] == a
  {
    var r := InsertAt(a, index, items);
    assert r[index..index + |items|] == items;
    assert r[..index] + r[index + |items|..] == a;
  }

  /** `queue.filter((_, i) => i !== index)`. */
  function Without<T>(a: seq<T>, index: int): (r: seq<T>)
    ensures 0 <= index < |a| ==> |r| == |a| - 1
    ensures !(0 <= index < |a|) ==> r == a
    ensures 0 <= index < |a| ==>
              (forall j :: 0 <= j < index ==> r[j] == a[j])
              && (forall j :: index <= j < |r| ==> r[j] == a[j + 1])
  {
    if 0 <= index < |a| then a[..index] + a[index + 1..] else a
  }

  // ---------------------------------------------------------------- actions

  /** `playNow(items)`: inserted right after the current item (at the front if none), first one playing. */
  function PlayNow(s: QueueState, items: seq<QueueItem>): (r: QueueState)
    ensures |items| == 0 ==> r == s
    ensures |items| > 0 ==>
              r.queue == InsertAt(s.queue, Index(s) + 1, items)
              && r.activeId == Some(items[0].id) && r.isPlaying
  {
    if |items| == 0 then s
    else if |s.queue| == 0 then
      assert InsertAt(s.queue, 0, items) == items;
      QueueState(items, Some(items[0].id), true)
    else QueueState(InsertAt(s.queue, Index(s) + 1, items), Some(items[0].id), true)
  }

  /** `addToQueue(items)`: appended at the end; active item and play flag untouched. */
  function AddToQueue(s: QueueState, items: seq<QueueItem>): (r: QueueState)
    ensures r.queue == InsertAt(s.queue, |s.queue|, items)
    ensures r.activeId == s.activeId && r.isPlaying == s.isPlaying
  {
    assert s.queue + items == InsertAt(s.queue, |s.queue|, items);
    s.(queue := s.queue + items)
  }

  /** The insertion of `playAlbumNext`: right after the active item, or at the front if none. */
  function InsertAfterActive(s: QueueState, items: seq<QueueItem>): (r: QueueState)
    ensures r.activeId == s.activeId && r.isPlaying == s.isPlaying
    ensures r.queue == InsertAt(s.queue, Index(s) + 1, items)
  {
    if |items| == 0 then
      assert InsertAt(s.queue, Index(s) + 1, items) == s.queue;
      s
    else s.(queue := InsertAt(s.queue, Index(s) + 1, items))
  }

  /** `jumpToQueueIndex(index)`: out-of-range indices are ignored. */
  function JumpToQueueIndex(s: QueueState, index: int): (r: QueueState)
    ensures !(0 <= index < |s.queue|) ==> r == s
    ensures 0 <= index < |s.queue| ==> r == s.(activeId := Some(s.queue[index].id), isPlaying := true)
  {
    if index < 0 || index >= |s.queue| then s
    else s.(activeId := Some(s.queue[index].id), isPlaying := true)
  }

  /**
   * What `nextTrack` appends at the tail: the items of the album that follows,
   * in the catalog order, the album of the last queued item; none when that
   * album is not in the catalog or is the catalog's last.
   */
  function AutoAdvanceItems(q: seq<QueueItem>, albums: seq<Album>, firstId: ItemId): (r: seq<QueueItem>)
    requires |q| > 0
    ensures (forall k :: 0 <= k < |albums| ==> albums[k].id != q[|q| - 1].albumId) ==> r == []
  {
    var last := q[|q| - 1];
    var k := FindAlbumIndex(albums, last.albumId);
    if k != -1 && k + 1 < |albums| then AlbumItems(albums[k + 1], firstId) else []
  }

  /**
   * When `albums[k]` is the first album of the last queued item, the tail is
   * the next album's items, and it is empty exactly when `k` is the last
   * album or the next album has no videos.
   */
  lemma AutoAdvanceAfterFirst(q: seq<QueueItem>, albums: seq<Album>, firstId: ItemId, k: int)
    requires |q| > 0 && FirstWithId(albums, q[|q| - 1].albumId, k)
    ensures AutoAdvanceItems(q, albums, firstId)
            == if k + 1 < |albums| then AlbumItems(albums[k + 1], firstId) else []
    ensures |AutoAdvanceItems(q, albums, firstId)| > 0 <==> k + 1 < |albums| && |albums[k + 1].youtubeVideos| > 0
  {
    assert FindAlbumIndex(albums, q[|q| - 1].albumId) == k;
  }

  /** `nextTrack()`. */
  function NextTrack(s: QueueState, albums: seq<Album>, firstId: ItemId): QueueState {
    if |s.queue| == 0 then s
    else if Index(s) + 1 < |s.queue| then
      s.(activeId := Some(s.queue[Index(s) + 1].id), isPlaying := true)
    else
      var items := AutoAdvanceItems(s.queue, albums, firstId);
      if |items| > 0 then QueueState(s.queue + items, Some(items[0].id), true)
      else s.(isPlaying := false)
  }

  /** At the last item (or with nothing active past it), `nextTrack` appends the auto-advance items and plays the first, or stops. */
  lemma NextPastEnd(s: QueueState, albums: seq<Album>, firstId: ItemId)
    requires |s.queue| > 0 && Index(s) + 1 >= |s.queue|
    ensures var items := AutoAdvanceItems(s.queue, albums, firstId);
            && IdsDrawn(s, NextAction(albums)) == |items|
            && NextTrack(s, albums, firstId)
               == if |items| > 0 then QueueState(s.queue + items, Some(items[0].id), true) else s.(isPlaying := false)
  {
    NextDrawsAutoAdvance(s, albums, firstId);
  }

  /** At the last item, `nextTrack` draws one id per auto-advance item. */
  lemma NextDrawsAutoAdvance(s: QueueState, albums: seq<Album>, firstId: ItemId)
    requires |s.queue| > 0 && Index(s) + 1 >= |s.queue|
    ensures IdsDrawn(s, NextAction(albums)) == |AutoAdvanceItems(s.queue, albums, firstId)|
  {
    var k := FindAlbumIndex(albums, s.queue[|s.queue| - 1].albumId);
    var items := AutoAdvanceItems(s.queue, albums, firstId);
    var n := IdsDrawn(s, NextAction(albums));
    if k != -1 && k + 1 < |albums| {
      assert n == |albums[k + 1].youtubeVideos|;
      assert items == AlbumItems(albums[k + 1], firstId);
    } else {
      assert n == 0;
      assert items == [];
    }
  }

  /** `prevTrack()`: one step back, or only "keep playing" at the front. */
  function PrevTrack(s: QueueState): QueueState {
    if |s.queue| == 0 then s
    else if Index(s) > 0 then s.(activeId := Some(s.queue[Index(s) - 1].id), isPlaying := true)
    else s.(isPlaying := true)
  }

  /**
   * `removeFromQueue(index)`. The active item is repaired when `index` equals
   * `queueIndex`, which compares positions even when `index` is -1.
   */
  function RemoveFromQueue(s: QueueState, index: int): QueueState {
    var k := Index(s);
    var q := Without(s.queue, index);
    if index == k then
      if index + 1 < |s.queue| then QueueState(q, Some(s.queue[index + 1].id), s.isPlaying)
      else QueueState(q, None, false)
    else QueueState(q, s.activeId, s.isPlaying)
  }

  /** `clearQueue()`. */
  function ClearQueue(s: QueueState): (r: QueueState)
    ensures r.queue == [] && r.activeId == None && !r.isPlaying
  {
    QueueState([], None, false)
  }

  /** `updateQueueItemTitle(index, title)`: a corrected display title. */
  function UpdateQueueItemTitle(s: QueueState, index: int, title: string): (r: QueueState)
    ensures |r.queue| == |s.queue| && r.activeId == s.activeId && r.isPlaying == s.isPlaying
    ensures forall i :: 0 <= i < |s.queue| ==>
              r.queue[i] == if i == index then s.queue[i].(title := title) else s.queue[i]
  {
    if 0 <= index < |s.queue| then s.(queue := s.queue[index := s.queue[index].(title := title)])
    else s
  }

  /** `playTrack(album, trackIndex)`. */
  function PlayTrack(s: QueueState, album: Album, trackIndex: int, firstId: ItemId): QueueState {
    var item := ConvertTrackToQueueItem(album, trackIndex, firstId);
    if item.None? then s else PlayNow(s, [item.value])
  }

  /** `playAlbum(album)`. */
  function PlayAlbum(s: QueueState, album: Album, firstId: ItemId): QueueState {
    PlayNow(s, AlbumItems(album, firstId))
  }

  /** `playAlbumNext(album)`. */
  function PlayAlbumNext(s: QueueState, album: Album, firstId: ItemId): QueueState {
    InsertAfterActive(s, AlbumItems(album, firstId))
  }

  /** `addAlbumToQueue(album)`. */
  function AddAlbumToQueue(s: QueueState, album: Album, firstId: ItemId): QueueState {
    AddToQueue(s, AlbumItems(album, firstId))
  }

  /** The actions of the queue context. */
  datatype Action =
    | PlayNowAction(items: seq<QueueItem>)
    | AddToQueueAction(items: seq<QueueItem>)
    | PlayTrackAction(album: Album, trackIndex: int)
    | PlayAlbumAction(album: Album)
    | PlayAlbumNextAction(album: Album)
    | AddAlbumToQueueAction(album: Album)
    | JumpAction(index: int)
    | NextAction(albums: seq<Album>)
    | PrevAction
    | RemoveAction(index: int)
    | ClearAction
    | UpdateTitleAction(index: int, title: string)

  function Apply(s: QueueState, a: Action, firstId: ItemId): QueueState {
    match a
    case PlayNowAction(items) => PlayNow(s, items)
    case AddToQueueAction(items) => AddToQueue(s, items)
    case PlayTrackAction(album, t) => PlayTrack(s, album, t, firstId)
    case PlayAlbumAction(album) => PlayAlbum(s, album, firstId)
    case PlayAlbumNextAction(album) => PlayAlbumNext(s, album, firstId)
    case AddAlbumToQueueAction(album) => AddAlbumToQueue(s, album, firstId)
    case JumpAction(i) => JumpToQueueIndex(s, i)
    case NextAction(albums) => NextTrack(s, albums, firstId)
    case PrevAction => PrevTrack(s)
    case RemoveAction(i) => RemoveFromQueue(s, i)
    case ClearAction => ClearQueue(s)
    case UpdateTitleAction(i, t) => UpdateQueueItemTitle(s, i, t)
  }

  /** How many fresh ids the action draws (one per `crypto.randomUUID` call). */
  function IdsDrawn(s: QueueState, a: Action): nat {
    match a
    case PlayTrackAction(album, t) => if 0 <= t < |album.youtubeVideos| then 1 else 0
    case PlayAlbumAction(album) => |album.youtubeVideos|
    case PlayAlbumNextAction(album) => |album.youtubeVideos|
    case AddAlbumToQueueAction(album) => |album.youtubeVideos|
    case NextAction(albums) =>
      if |s.queue| == 0 || Index(s) + 1 < |s.queue| then 0
      else
        var k := FindAlbumIndex(albums, s.queue[|s.queue| - 1].albumId);
        if k != -1 && k + 1 < |albums| then |albums[k + 1].youtubeVideos| else 0
    case _ => 0
  }

  /** Items the action inserts that were built by the caller rather than drawn from the supply. */
  function ExternalItems(a: Action): seq<QueueItem> {
    match a
    case PlayNowAction(items) => items
    case AddToQueueAction(items) => items
    case _ => []
  }

  /** `items` have distinct ids, none of them queued, all below `bound`. */
  predicate FreshItems(items: seq<QueueItem>, q: seq<QueueItem>, bound: nat) {
    DistinctIds(items) && IdsBelow(items, bound)
    && forall i, j :: 0 <= i < |items| && 0 <= j < |q| ==> items[i].id != q[j].id
  }

  // ------------------------------------------------------------ the invariant

  /** The queue after any insertion keeps every old item and adds only the new ones. */
  lemma InsertedQueued(q: seq<QueueItem>, k: int, items: seq<QueueItem>, id: ItemId)
    requires 0 <= k <= |q|
    ensures Queued(InsertAt(q, k, items), id) <==>
            Queued(q, id) || exists i :: 0 <= i < |items| && items[i].id == id
  {
    if Queued(q, id) {
      var i :| 0 <= i < |q| && q[i].id == id;
      InsertedKeepsOld(q, k, items, i);
    }
    if exists i :: 0 <= i < |items| && items[i].id == id {
      var i :| 0 <= i < |items| && items[i].id == id;
      assert InsertAt(q, k, items)[k + i] == items[i];
    }
    if Queued(InsertAt(q, k, items), id) {
      var j :| 0 <= j < |InsertAt(q, k, items)| && InsertAt(q, k, items)[j].id == id;
      InsertedFrom(q, k, items, j);
    }
  }

  /** An old item is still queued after an insertion. */
  lemma InsertedKeepsOld(q: seq<QueueItem>, k: int, items: seq<QueueItem>, i: int)
    requires 0 <= k <= |q| && 0 <= i < |q|
    ensures Queued(InsertAt(q, k, items), q[i].id)
  {
    var r := InsertAt(q, k, items);
    if i < k { assert r[i] == q[i]; } else { assert r[i + |items|] == q[i]; }
  }

  /** Every position after an insertion holds an old item or an inserted one. */
  lemma InsertedFrom(q: seq<QueueItem>, k: int, items: seq<QueueItem>, j: int)
    requires 0 <= k <= |q| && 0 <= j < |q| + |items|
    ensures var x := InsertAt(q, k, items)[j];
            Queued(q, x.id) || exists i :: 0 <= i < |items| && items[i].id == x.id
  {
    var r := InsertAt(q, k, items);
    if j < k { assert r[j] == q[j]; }
    else if j < k + |items| { assert r[j] == items[j - k]; }
    else { assert r[j] == q[j - |items|]; }
  }

  /** Removing one position keeps every other item queued. */
  lemma WithoutKeeps(q: seq<QueueItem>, index: int, j: int)
    requires 0 <= j < |q| && j != index
    ensures Queued(Without(q, index), q[j].id)
  {
    var r := Without(q, index);
    if 0 <= index < |q| {
      if j < index { assert r[j] == q[j]; } else { assert r[j - 1] == q[j]; }
    }
  }

  /** Every action keeps "the active id is absent or names a queued item". */
  lemma ApplyKeepsActiveValid(s: QueueState, a: Action, firstId: ItemId)
    requires ActiveValid(s)
    ensures ActiveValid(Apply(s, a, firstId))
  {
    var r := Apply(s, a, firstId);
    match a
    case PlayNowAction(items) =>
      assert r == PlayNow(s, items);
      PlayNowActive(s, items);
    case AddToQueueAction(items) =>
      assert r == AddToQueue(s, items);
      AddToQueueActive(s, items);
    case PlayTrackAction(album, t) =>
      assert r == PlayTrack(s, album, t, firstId);
      PlayTrackActive(s, album, t, firstId);
    case PlayAlbumAction(album) =>
      assert r == PlayNow(s, AlbumItems(album, firstId));
      PlayNowActive(s, AlbumItems(album, firstId));
    case PlayAlbumNextAction(album) =>
      assert r == InsertAfterActive(s, AlbumItems(album, firstId));
      InsertAfterActiveActive(s, AlbumItems(album, firstId));
    case AddAlbumToQueueAction(album) =>
      assert r == AddToQueue(s, AlbumItems(album, firstId));
      AddToQueueActive(s, AlbumItems(album, firstId));
    case JumpAction(i) =>
      assert r == JumpToQueueIndex(s, i);
      JumpActive(s, i);
    case NextAction(albums) =>
      assert r == NextTrack(s, albums, firstId);
      NextActive(s, albums, firstId);
    case PrevAction =>
      assert r == PrevTrack(s);
      PrevActive(s);
    case RemoveAction(i) =>
      assert r == RemoveFromQueue(s, i);
      RemoveActive(s, i);
    case ClearAction =>
    case UpdateTitleAction(i, t) =>
      assert r == UpdateQueueItemTitle(s, i, t);
      RetitleActive(s, i, t);
  }

  /** `playTrack` either changes nothing or plays a new item now. */
  lemma PlayTrackActive(s: QueueState, album: Album, t: int, firstId: ItemId)
    requires ActiveValid(s)
    ensures ActiveValid(PlayTrack(s, album, t, firstId))
  {
    var item := ConvertTrackToQueueItem(album, t, firstId);
    if item.Some? {
      assert PlayTrack(s, album, t, firstId) == PlayNow(s, [item.value]);
      PlayNowActive(s, [item.value]);
    }
  }

  /** A jump activates a queued item or changes nothing. */
  lemma JumpActive(s: QueueState, index: int)
    requires ActiveValid(s)
    ensures ActiveValid(JumpToQueueIndex(s, index))
  {
    if 0 <= index < |s.queue| {
      assert Queued(s.queue, s.queue[index].id);
    }
  }

  /** A step back activates the queued item before the active one, or keeps the active id. */
  lemma PrevActive(s: QueueState)
    requires ActiveValid(s)
    ensures ActiveValid(PrevTrack(s))
  {
    if |s.queue| > 0 && Index(s) > 0 {
      assert Queued(s.queue, s.queue[Index(s) - 1].id);
    }
  }

  /** Appending keeps every queued item, so the active one stays queued. */
  lemma AddToQueueActive(s: QueueState, items: seq<QueueItem>)
    requires ActiveValid(s)
    ensures ActiveValid(AddToQueue(s, items))
  {
    var r := AddToQueue(s, items);
    if s.activeId.Some? {
      InsertedQueued(s.queue, |s.queue|, items, s.activeId.value);
      assert r.queue == InsertAt(s.queue, |s.queue|, items);
    }
  }

  /** Inserting after the active item keeps it queued. */
  lemma InsertAfterActiveActive(s: QueueState, items: seq<QueueItem>)
    requires ActiveValid(s)
    ensures ActiveValid(InsertAfterActive(s, items))
  {
    var r := InsertAfterActive(s, items);
    if s.activeId.Some? {
      InsertedQueued(s.queue, Index(s) + 1, items, s.activeId.value);
      assert r.queue == InsertAt(s.queue, Index(s) + 1, items);
    }
  }

  /** A new title keeps every id in place. */
  lemma RetitleActive(s: QueueState, index: int, title: string)
    requires ActiveValid(s)
    ensures ActiveValid(UpdateQueueItemTitle(s, index, title))
  {
    var r := UpdateQueueItemTitle(s, index, title);
    if s.activeId.Some? {
      var j :| 0 <= j < |s.queue| && s.queue[j].id == s.activeId.value;
      assert r.queue[j].id == s.queue[j].id;
    }
  }

  /** A non-empty `playNow` always activates a queued item. */
  lemma PlayNowActive(s: QueueState, items: seq<QueueItem>)
    requires ActiveValid(s)
    ensures ActiveValid(PlayNow(s, items))
  {
    if |items| > 0 {
      var r := PlayNow(s, items);
      var k := Index(s) + 1;
      assert r.queue[k] == items[0];
    }
  }

  lemma NextActive(s: QueueState, albums: seq<Album>, firstId: ItemId)
    requires ActiveValid(s)
    ensures ActiveValid(NextTrack(s, albums, firstId))
  {
    var r := NextTrack(s, albums, firstId);
    if |s.queue| > 0 {
      if Index(s) + 1 < |s.queue| {
        assert Queued(s.queue, s.queue[Index(s) + 1].id);
      } else {
        var items := AutoAdvanceItems(s.queue, albums, firstId);
        if |items| > 0 {
          assert r.queue[|s.queue|] == items[0];
        } else if s.activeId.Some? {
          var j :| 0 <= j < |s.queue| && s.queue[j].id == s.activeId.value;
          assert r.queue[j] == s.queue[j];
        }
      }
    }
  }

  lemma RemoveActive(s: QueueState, index: int)
    requires ActiveValid(s)
    ensures ActiveValid(RemoveFromQueue(s, index))
  {
    var r := RemoveFromQueue(s, index);
    var k := Index(s);
    if index == k {
      if index + 1 < |s.queue| { WithoutKeeps(s.queue, index, index + 1); }
    } else if s.activeId.Some? {
      WithoutKeeps(s.queue, index, k);
    }
  }

  // ------------------------------------------------------------ distinct ids

  lemma InsertKeepsDistinct(q: seq<QueueItem>, k: int, items: seq<QueueItem>, bound: nat)
    requires 0 <= k <= |q|
    requires DistinctIds(q) && IdsBelow(q, bound)
    requires FreshItems(items, q, bound)
    ensures DistinctIds(InsertAt(q, k, items)) && IdsBelow(InsertAt(q, k, items), bound)
  {
    var r := InsertAt(q, k, items);
    forall i | 0 <= i < |r| ensures r[i] == if i < k then q[i] else if i < k + |items| then items[i - k] else q[i - |items|] {
      if i < k { assert r[i] == r[..k][i]; }
      else if i < k + |items| { assert r[i] == r[k..k + |items|][i - k]; }
      else { assert r[i] == r[k + |items|..][i - k - |items|]; }
    }
  }

  /** Supply-drawn items from `bound` on are fresh for a queue whose ids are all below `bound`. */
  lemma AlbumItemsFresh(album: Album, q: seq<QueueItem>, bound: nat)
    requires IdsBelow(q, bound)
    ensures FreshItems(AlbumItems(album, bound), q, bound + |album.youtubeVideos|)
  {
    ConvertedIdsFresh(album, 0, None, bound);
  }

  lemma WithoutKeepsDistinct(q: seq<QueueItem>, index: int, bound: nat)
    requires DistinctIds(q)
    ensures DistinctIds(Without(q, index))
    ensures IdsBelow(q, bound) ==> IdsBelow(Without(q, index), bound)
  {
    var r := Without(q, index);
    if 0 <= index < |q| {
      forall i | 0 <= i < |r| ensures r[i] == q[if i < index then i else i + 1] { }
    }
  }

  /** Fresh items placed anywhere keep the ids distinct and below the advanced supply. */
  lemma PlacedKeepsDistinct(q: seq<QueueItem>, k: int, items: seq<QueueItem>, firstId: nat, n: nat)
    requires 0 <= k <= |q| && firstId <= n
    requires DistinctIds(q) && IdsBelow(q, firstId)
    requires FreshItems(items, q, n)
    ensures DistinctIds(InsertAt(q, k, items)) && IdsBelow(InsertAt(q, k, items), n)
  {
    InsertKeepsDistinct(q, k, items, n);
  }

  lemma PlayTrackKeepsDistinct(s: QueueState, album: Album, t: int, firstId: ItemId)
    requires DistinctIds(s.queue) && IdsBelow(s.queue, firstId)
    ensures var r := PlayTrack(s, album, t, firstId);
            DistinctIds(r.queue) && IdsBelow(r.queue, firstId + IdsDrawn(s, PlayTrackAction(album, t)))
  {
    var item := ConvertTrackToQueueItem(album, t, firstId);
    if item.Some? {
      var items := [item.value];
      assert IdsDrawn(s, PlayTrackAction(album, t)) == 1;
      ActiveNotFreshIds(s.queue, items, firstId);
      assert FreshItems(items, s.queue, firstId + 1);
      PlacedKeepsDistinct(s.queue, Index(s) + 1, items, firstId, firstId + 1);
      assert PlayTrack(s, album, t, firstId).queue == InsertAt(s.queue, Index(s) + 1, items);
    } else {
      assert PlayTrack(s, album, t, firstId) == s;
    }
  }

  /** Queued ids are below the supply, so items drawn from it are fresh for the queue. */
  lemma ActiveNotFreshIds(q: seq<QueueItem>, items: seq<QueueItem>, firstId: nat)
    requires IdsBelow(q, firstId)
    requires forall i :: 0 <= i < |items| ==> items[i].id >= firstId
    ensures forall i, j :: 0 <= i < |items| && 0 <= j < |q| ==> items[i].id != q[j].id
  {
  }

  /** `playNow` with fresh items keeps the ids distinct and below the supply. */
  lemma PlayNowKeepsDistinct(s: QueueState, items: seq<QueueItem>, firstId: nat, n: nat)
    requires firstId <= n && DistinctIds(s.queue) && IdsBelow(s.queue, firstId)
    requires FreshItems(items, s.queue, n)
    ensures var r := PlayNow(s, items);
            DistinctIds(r.queue) && IdsBelow(r.queue, n)
  {
    if |items| > 0 {
      var k := Index(s) + 1;
      var q := PlayNow(s, items).queue;
      assert q == InsertAt(s.queue, k, items);
      PlacedKeepsDistinct(s.queue, k, items, firstId, n);
    } else {
      assert IdsBelow(s.queue, n);
    }
  }

  /** `addToQueue` with fresh items keeps the ids distinct and below the supply. */
  lemma AddToQueueKeepsDistinct(s: QueueState, items: seq<QueueItem>, firstId: nat, n: nat)
    requires firstId <= n && DistinctIds(s.queue) && IdsBelow(s.queue, firstId)
    requires FreshItems(items, s.queue, n)
    ensures var r := AddToQueue(s, items);
            DistinctIds(r.queue) && IdsBelow(r.queue, n)
  {
    var q := AddToQueue(s, items).queue;
    assert q == InsertAt(s.queue, |s.queue|, items);
    PlacedKeepsDistinct(s.queue, |s.queue|, items, firstId, n);
  }

  /** Fresh items placed after the active one keep the ids distinct and below the supply. */
  lemma InsertAfterActiveKeepsDistinct(s: QueueState, items: seq<QueueItem>, firstId: nat, n: nat)
    requires firstId <= n && DistinctIds(s.queue) && IdsBelow(s.queue, firstId)
    requires FreshItems(items, s.queue, n)
    ensures var r := InsertAfterActive(s, items);
            DistinctIds(r.queue) && IdsBelow(r.queue, n)
  {
    var k := Index(s) + 1;
    var q := InsertAfterActive(s, items).queue;
    assert q == InsertAt(s.queue, k, items);
    PlacedKeepsDistinct(s.queue, k, items, firstId, n);
  }

  /** `playAlbum` draws one id per video and keeps the ids distinct. */
  lemma PlayAlbumKeepsDistinct(s: QueueState, album: Album, firstId: ItemId)
    requires DistinctIds(s.queue) && IdsBelow(s.queue, firstId)
    ensures var r := PlayAlbum(s, album, firstId);
            DistinctIds(r.queue) && IdsBelow(r.queue, firstId + |album.youtubeVideos|)
  {
    AlbumItemsFresh(album, s.queue, firstId);
    PlayNowKeepsDistinct(s, AlbumItems(album, firstId), firstId, firstId + |album.youtubeVideos|);
  }

  /** `playAlbumNext` draws one id per video and keeps the ids distinct. */
  lemma PlayAlbumNextKeepsDistinct(s: QueueState, album: Album, firstId: ItemId)
    requires DistinctIds(s.queue) && IdsBelow(s.queue, firstId)
    ensures var r := PlayAlbumNext(s, album, firstId);
            DistinctIds(r.queue) && IdsBelow(r.queue, firstId + |album.youtubeVideos|)
  {
    AlbumItemsFresh(album, s.queue, firstId);
    InsertAfterActiveKeepsDistinct(s, AlbumItems(album, firstId), firstId, firstId + |album.youtubeVideos|);
  }

  /** `addAlbumToQueue` draws one id per video and keeps the ids distinct. */
  lemma AddAlbumKeepsDistinct(s: QueueState, album: Album, firstId: ItemId)
    requires DistinctIds(s.queue) && IdsBelow(s.queue, firstId)
    ensures var r := AddAlbumToQueue(s, album, firstId);
            DistinctIds(r.queue) && IdsBelow(r.queue, firstId + |album.youtubeVideos|)
  {
    AlbumItemsFresh(album, s.queue, firstId);
    AddToQueueKeepsDistinct(s, AlbumItems(album, firstId), firstId, firstId + |album.youtubeVideos|);
  }

  /** Removing an item keeps the remaining ids distinct and below the supply. */
  lemma RemoveKeepsDistinct(s: QueueState, index: int, firstId: ItemId)
    requires DistinctIds(s.queue) && IdsBelow(s.queue, firstId)
    ensures var r := RemoveFromQueue(s, index);
            DistinctIds(r.queue) && IdsBelow(r.queue, firstId)
  {
    WithoutKeepsDistinct(s.queue, index, firstId);
    assert RemoveFromQueue(s, index).queue == Without(s.queue, index);
  }

  /** Appending fresh items keeps the ids distinct and below the advanced supply. */
  lemma AppendKeepsDistinct(q: seq<QueueItem>, items: seq<QueueItem>, firstId: nat, n: nat)
    requires firstId <= n && DistinctIds(q) && IdsBelow(q, firstId)
    requires FreshItems(items, q, n)
    ensures DistinctIds(q + items) && IdsBelow(q + items, n)
  {
    PlacedKeepsDistinct(q, |q|, items, firstId, n);
    assert q + items == InsertAt(q, |q|, items);
  }

  /** `nextTrack`, with or without extending the queue, keeps ids distinct and below the advanced supply. */
  lemma NextKeepsDistinct(s: QueueState, albums: seq<Album>, firstId: ItemId)
    requires DistinctIds(s.queue) && IdsBelow(s.queue, firstId)
    ensures var r := NextTrack(s, albums, firstId);
            DistinctIds(r.queue) && IdsBelow(r.queue, firstId + IdsDrawn(s, NextAction(albums)))
  {
    if |s.queue| > 0 && Index(s) + 1 >= |s.queue| {
      NextPastEnd(s, albums, firstId);
      var k := FindAlbumIndex(albums, s.queue[|s.queue| - 1].albumId);
      if k != -1 && k + 1 < |albums| {
        AppendAlbumKeepsDistinct(s.queue, albums[k + 1], firstId);
        AppendIdsBelow(s.queue, albums[k + 1], firstId);
      }
    }
  }

  /** A new title changes no id. */
  lemma RetitleKeepsDistinct(s: QueueState, index: int, title: string, firstId: ItemId)
    requires DistinctIds(s.queue) && IdsBelow(s.queue, firstId)
    ensures var r := UpdateQueueItemTitle(s, index, title);
            DistinctIds(r.queue) && IdsBelow(r.queue, firstId)
  {
    var r := UpdateQueueItemTitle(s, index, title);
    assert forall j :: 0 <= j < |s.queue| ==> r.queue[j].id == s.queue[j].id;
  }

  /**
   * Given a distinct-id queue whose ids lie below the supply's next id, and
   * caller-built items that are fresh, every action leaves the ids distinct
   * and below the advanced supply.
   */
  lemma ApplyKeepsDistinct(s: QueueState, a: Action, firstId: ItemId)
    requires DistinctIds(s.queue) && IdsBelow(s.queue, firstId)
    requires FreshItems(ExternalItems(a), s.queue, firstId)
    ensures var r := Apply(s, a, firstId);
            DistinctIds(r.queue) && IdsBelow(r.queue, firstId + IdsDrawn(s, a))
  {
    var r := Apply(s, a, firstId);
    match a
    case PlayNowAction(items) =>
      assert r == PlayNow(s, items) && IdsDrawn(s, a) == 0;
      PlayNowKeepsDistinct(s, items, firstId, firstId);
    case AddToQueueAction(items) =>
      assert r == AddToQueue(s, items) && IdsDrawn(s, a) == 0;
      AddToQueueKeepsDistinct(s, items, firstId, firstId);
    case PlayTrackAction(album, t) =>
      assert r == PlayTrack(s, album, t, firstId);
      PlayTrackKeepsDistinct(s, album, t, firstId);
    case PlayAlbumAction(album) =>
      assert r == PlayAlbum(s, album, firstId) && IdsDrawn(s, a) == |album.youtubeVideos|;
      PlayAlbumKeepsDistinct(s, album, firstId);
    case PlayAlbumNextAction(album) =>
      assert r == PlayAlbumNext(s, album, firstId) && IdsDrawn(s, a) == |album.youtubeVideos|;
      PlayAlbumNextKeepsDistinct(s, album, firstId);
    case AddAlbumToQueueAction(album) =>
      assert r == AddAlbumToQueue(s, album, firstId) && IdsDrawn(s, a) == |album.youtubeVideos|;
      AddAlbumKeepsDistinct(s, album, firstId);
    case JumpAction(i) =>
      assert r.queue == s.queue && IdsDrawn(s, a) == 0;
    case NextAction(albums) =>
      assert r == NextTrack(s, albums, firstId);
      NextKeepsDistinct(s, albums, firstId);
    case PrevAction =>
      assert r.queue == s.queue && IdsDrawn(s, a) == 0;
    case RemoveAction(i) =>
      assert r == RemoveFromQueue(s, i) && IdsDrawn(s, a) == 0;
      RemoveKeepsDistinct(s, i, firstId);
    case ClearAction =>
      assert r.queue == [];
    case UpdateTitleAction(i, t) =>
      assert r == UpdateQueueItemTitle(s, i, t) && IdsDrawn(s, a) == 0;
      RetitleKeepsDistinct(s, i, t, firstId);
  }

  // ------------------------------------------------- where the active item is

  /** Inserting fresh items after the active position leaves `queueIndex` where it was. */
  lemma QueueIndexAfterInsert(q: seq<QueueItem>, activeId: Option<ItemId>, k: int, items: seq<QueueItem>)
    requires 0 <= k <= |q| && QueueIndex(q, activeId) < k
    requires forall i :: 0 <= i < |items| ==> activeId != Some(items[i].id)
    ensures QueueIndex(InsertAt(q, k, items), activeId) == QueueIndex(q, activeId)
  {
    var r := InsertAt(q, k, items);
    var qi := QueueIndex(q, activeId);
    if activeId.Some? {
      InsertedQueued(q, k, items, activeId.value);
      if qi >= 0 {
        assert r[qi] == q[qi];
        forall j | 0 <= j < qi ensures r[j].id != r[qi].id { assert r[j] == q[j]; }
        QueueIndexIs(r, activeId, qi);
      }
    }
  }

  /** Inserting next (`playAlbumNext`) or appending fresh items never relocates the active item. */
  lemma InsertKeepsCurrent(s: QueueState, album: Album, firstId: ItemId)
    requires IdsBelow(s.queue, firstId) && ActiveValid(s)
    ensures CurrentQueueItem(PlayAlbumNext(s, album, firstId)) == CurrentQueueItem(s)
    ensures CurrentQueueItem(AddAlbumToQueue(s, album, firstId)) == CurrentQueueItem(s)
  {
    var items := AlbumItems(album, firstId);
    assert forall i :: 0 <= i < |items| ==> items[i].id >= firstId;
    ActiveNotFresh(s, items, firstId);
    var r := PlayAlbumNext(s, album, firstId);
    assert r == s.(queue := InsertAt(s.queue, Index(s) + 1, items));
    InsertBehindKeepsCurrent(s, Index(s) + 1, items);
    var r2 := AddAlbumToQueue(s, album, firstId);
    assert r2 == s.(queue := InsertAt(s.queue, |s.queue|, items));
    InsertBehindKeepsCurrent(s, |s.queue|, items);
  }

  /** Items that do not carry the active id, inserted behind the active item, leave the current item as it was. */
  lemma InsertBehindKeepsCurrent(s: QueueState, k: int, items: seq<QueueItem>)
    requires 0 <= k <= |s.queue| && Index(s) < k
    requires forall i :: 0 <= i < |items| ==> s.activeId != Some(items[i].id)
    ensures CurrentQueueItem(s.(queue := InsertAt(s.queue, k, items))) == CurrentQueueItem(s)
  {
    QueueIndexAfterInsert(s.queue, s.activeId, k, items);
    var r := s.(queue := InsertAt(s.queue, k, items));
    if Index(s) >= 0 {
      assert r.queue[Index(s)] == s.queue[Index(s)];
    }
  }

  /** A valid active id is below the supply, so no fresh item carries it. */
  lemma ActiveNotFresh(s: QueueState, items: seq<QueueItem>, firstId: ItemId)
    requires IdsBelow(s.queue, firstId) && ActiveValid(s)
    requires forall i :: 0 <= i < |items| ==> items[i].id >= firstId
    ensures forall i :: 0 <= i < |items| ==> s.activeId != Some(items[i].id)
  {
    if s.activeId.Some? {
      var j :| 0 <= j < |s.queue| && s.queue[j].id == s.activeId.value;
    }
  }

  /**
   * `playAlbumNext(album)` followed by `nextTrack()` plays the album's first
   * track, whatever the queue held before.
   */
  lemma PlayNextThenAdvance(s: QueueState, album: Album, firstId: ItemId, albums: seq<Album>, laterId: ItemId)
    requires IdsBelow(s.queue, firstId) && ActiveValid(s)
    requires |album.youtubeVideos| > 0
    ensures var t := NextTrack(PlayAlbumNext(s, album, firstId), albums, laterId);
            t.activeId == Some(AlbumItems(album, firstId)[0].id) && t.isPlaying
  {
    var items := AlbumItems(album, firstId);
    assert forall i :: 0 <= i < |items| ==> items[i].id >= firstId;
    ActiveNotFresh(s, items, firstId);
    var k := Index(s) + 1;
    QueueIndexAfterInsert(s.queue, s.activeId, k, items);
    var m := PlayAlbumNext(s, album, firstId);
    assert m == s.(queue := InsertAt(s.queue, k, items));
    assert Index(m) + 1 == k < |m.queue|;
    assert m.queue[k] == items[0];
    assert NextTrack(m, albums, laterId) == m.(activeId := Some(items[0].id), isPlaying := true);
  }

  /** Removing any position but the active one moves the active position down by one when it lay after the removed one. */
  lemma QueueIndexAfterRemove(q: seq<QueueItem>, activeId: Option<ItemId>, index: int)
    requires index != QueueIndex(q, activeId)
    ensures var qi := QueueIndex(q, activeId);
            QueueIndex(Without(q, index), activeId)
              == if qi >= 0 && 0 <= index < qi then qi - 1 else qi
  {
    var r := Without(q, index);
    var qi := QueueIndex(q, activeId);
    if activeId.Some? {
      if qi == -1 {
      } else if 0 <= index < qi {
        assert r[qi - 1] == q[qi];
        forall j | 0 <= j < qi - 1 ensures r[j].id != r[qi - 1].id {
          if j < index { assert r[j] == q[j]; } else { assert r[j] == q[j + 1]; }
        }
        QueueIndexIs(r, activeId, qi - 1);
      } else {
        assert r[qi] == q[qi];
        forall j | 0 <= j < qi ensures r[j].id != r[qi].id { assert r[j] == q[j]; }
        QueueIndexIs(r, activeId, qi);
      }
    }
  }

  /**
   * `removeFromQueue(index)`: exactly position `index` goes (nothing when out
   * of range); removing the active item activates its old successor, or clears
   * the active id and stops when it was last; removing any other item leaves the
   * active id, the play flag and the current item as they were.
   */
  lemma RemoveEffect(s: QueueState, index: int)
    ensures var r := RemoveFromQueue(s, index);
            r.queue == Without(s.queue, index)
            && (index == Index(s) && index + 1 < |s.queue| ==>
                  r.activeId == Some(s.queue[index + 1].id) && r.isPlaying == s.isPlaying)
            && (index == Index(s) && index + 1 >= |s.queue| ==> r.activeId == None && !r.isPlaying)
            && (index != Index(s) ==>
                  r.activeId == s.activeId && r.isPlaying == s.isPlaying
                  && CurrentQueueItem(r) == CurrentQueueItem(s))
  {
    var q := Without(s.queue, index);
    if index != Index(s) {
      assert RemoveFromQueue(s, index) == s.(queue := q);
      RemoveKeepsCurrent(s, index);
    }
  }

  /** Removing any position but the active one leaves the current item as it was. */
  lemma RemoveKeepsCurrent(s: QueueState, index: int)
    requires index != Index(s)
    ensures CurrentQueueItem(s.(queue := Without(s.queue, index))) == CurrentQueueItem(s)
  {
    var r := s.(queue := Without(s.queue, index));
    QueueIndexAfterRemove(s.queue, s.activeId, index);
    var qi := Index(s);
    if qi >= 0 {
      if 0 <= index < qi { assert r.queue[qi - 1] == s.queue[qi]; }
      else { assert r.queue[qi] == s.queue[qi]; }
    }
  }

  /** With distinct ids, removing the active item puts its successor at the same position. */
  lemma RemoveActiveSuccessorTakesPlace(s: QueueState, index: int)
    requires DistinctIds(s.queue)
    requires index == Index(s) && 0 <= index && index + 1 < |s.queue|
    ensures Index(RemoveFromQueue(s, index)) == index
  {
    var r := RemoveFromQueue(s, index);
    WithoutKeepsDistinct(s.queue, index, 0);
    assert r.queue[index] == s.queue[index + 1];
    QueueIndexOfDistinct(r.queue, index);
  }

  /** Appending an album's freshly drawn items keeps a queue's ids distinct. */
  lemma AppendAlbumKeepsDistinct(q: seq<QueueItem>, album: Album, firstId: ItemId)
    requires DistinctIds(q) && IdsBelow(q, firstId)
    ensures DistinctIds(q + AlbumItems(album, firstId))
  {
    var items := AlbumItems(album, firstId);
    AlbumItemsFresh(album, q, firstId);
    assert q + items == InsertAt(q, |q|, items);
    InsertKeepsDistinct(q, |q|, items, firstId + |album.youtubeVideos|);
  }

  /** Appending an album's freshly drawn items keeps every id below the supply's new position. */
  lemma AppendIdsBelow(q: seq<QueueItem>, album: Album, firstId: ItemId)
    requires IdsBelow(q, firstId)
    ensures IdsBelow(q + AlbumItems(album, firstId), firstId + |album.youtubeVideos|)
  {
    var items := AlbumItems(album, firstId);
    AlbumItemsFresh(album, q, firstId);
    var r := q + items;
    forall i | 0 <= i < |r| ensures r[i].id < firstId + |album.youtubeVideos| {
      if i >= |q| { assert r[i] == items[i - |q|]; }
    }
  }

  /** The tail extension: when the next album's items are appended, the first of them becomes active. */
  lemma NextOntoAppended(s: QueueState, albums: seq<Album>, firstId: ItemId)
    requires DistinctIds(s.queue) && IdsBelow(s.queue, firstId) && |s.queue| > 0
    requires Index(s) + 1 >= |s.queue| && |AutoAdvanceItems(s.queue, albums, firstId)| > 0
    ensures var r := NextTrack(s, albums, firstId);
            Index(r) == |s.queue| && r.isPlaying && r.queue[..|s.queue|] == s.queue
  {
    var items := AutoAdvanceItems(s.queue, albums, firstId);
    var q := s.queue + items;
    assert NextTrack(s, albums, firstId) == QueueState(q, Some(items[0].id), true);
    var k := FindAlbumIndex(albums, s.queue[|s.queue| - 1].albumId);
    assert items == AlbumItems(albums[k + 1], firstId);
    AppendAlbumKeepsDistinct(s.queue, albums[k + 1], firstId);
    assert q[|s.queue|] == items[0];
    QueueIndexOfDistinct(q, |s.queue|);
    assert q[..|s.queue|] == s.queue;
  }

  /**
   * With distinct ids, `nextTrack` moves exactly one position forward, also
   * onto appended items; at the end of the catalog it stops and stays put.
   */
  lemma NextMovesOneForward(s: QueueState, albums: seq<Album>, firstId: ItemId)
    requires DistinctIds(s.queue) && IdsBelow(s.queue, firstId) && |s.queue| > 0
    ensures var r := NextTrack(s, albums, firstId);
            var items := AutoAdvanceItems(s.queue, albums, firstId);
            (Index(s) + 1 < |s.queue| || |items| > 0 ==> Index(r) == Index(s) + 1 && r.isPlaying)
            && (Index(s) + 1 >= |s.queue| && |items| == 0 ==> r == s.(isPlaying := false))
            && r.queue[..|s.queue|] == s.queue
  {
    if Index(s) + 1 < |s.queue| {
      QueueIndexOfDistinct(s.queue, Index(s) + 1);
    } else if |AutoAdvanceItems(s.queue, albums, firstId)| > 0 {
      NextOntoAppended(s, albums, firstId);
    }
  }

  /** `prevTrack` moves one position back, and at the front only re-asserts playing: never below 0. */
  lemma PrevNeverNegative(s: QueueState)
    requires DistinctIds(s.queue) && |s.queue| > 0
    ensures var r := PrevTrack(s);
            r.isPlaying && r.queue == s.queue
            && (Index(s) > 0 ==> Index(r) == Index(s) - 1)
            && (Index(s) <= 0 ==> r.activeId == s.activeId)
  {
    if Index(s) > 0 { QueueIndexOfDistinct(s.queue, Index(s) - 1); }
  }

  /** On an empty queue `nextTrack` changes nothing, not even the play flag. */
  lemma NextOnEmpty(s: QueueState, albums: seq<Album>, firstId: ItemId)
    requires |s.queue| == 0
    ensures NextTrack(s, albums, firstId) == s
  {
  }

  /** On an empty queue `prevTrack` changes nothing, not even the play flag. */
  lemma PrevOnEmpty(s: QueueState)
    requires |s.queue| == 0
    ensures PrevTrack(s) == s
  {
  }

  /** `jumpToQueueIndex` lands on the requested position when it is in range. */
  lemma JumpLands(s: QueueState, index: int)
    requires DistinctIds(s.queue) && 0 <= index < |s.queue|
    ensures Index(JumpToQueueIndex(s, index)) == index && JumpToQueueIndex(s, index).isPlaying
  {
    QueueIndexOfDistinct(s.queue, index);
  }

  /** `removeFromQueue(-1)` with nothing active and a non-empty queue activates the first item. */
  lemma RemoveMinusOneActivatesFirst(s: QueueState)
    requires s.activeId == None && |s.queue| > 0
    ensures RemoveFromQueue(s, -1) == s.(activeId := Some(s.queue[0].id))
  {
  }

  // ------------------------------------------------------ current album/video

  datatype Media = Media(video: Option<Video>, album: Option<Album>, trackIndex: int)

  /** First index of a video with id `videoId`, or -1. */
  function FindVideoIndex(videos: seq<Video>, videoId: string): (r: int)
    ensures -1 <= r < |videos|
    ensures r == -1 <==> forall i :: 0 <= i < |videos| ==> videos[i].youtubeVideoId != videoId
    ensures r >= 0 ==> videos[r].youtubeVideoId == videoId
                       && forall j :: 0 <= j < r ==> videos[j].youtubeVideoId != videoId
  {
    if |videos| == 0 then -1
    else if videos[0].youtubeVideoId == videoId then 0
    else
      var k := FindVideoIndex(videos[1..], videoId);
      if k == -1 then -1 else k + 1
  }

  /** `videos.find(v => v.youtube_video_id === videoId)`: the first match, if any. */
  function FindVideo(videos: seq<Video>, videoId: string): (r: Option<Video>)
    ensures r.None? <==> forall i :: 0 <= i < |videos| ==> videos[i].youtubeVideoId != videoId
    ensures r.Some? ==> exists i :: 0 <= i < |videos| && videos[i] == r.value && r.value.youtubeVideoId == videoId
                                    && forall j :: 0 <= j < i ==> videos[j].youtubeVideoId != videoId
  {
    var k := FindVideoIndex(videos, videoId);
    if k == -1 then None else Some(videos[k])
  }

  /**
   * The current album/video projection: nothing without a current item or
   * when its album is not in the catalog; else the album, the first of its
   * videos with the item's video id, and the item's track index.
   */
  function CurrentMedia(s: QueueState, albums: seq<Album>): (m: Media)
    ensures CurrentQueueItem(s).None? ==> m == Media(None, None, 0)
    ensures CurrentQueueItem(s).Some? ==>
              var item := CurrentQueueItem(s).value;
              var k := FindAlbumIndex(albums, item.albumId);
              (k == -1 ==> m == Media(None, None, 0))
              && (k >= 0 ==> m == Media(FindVideo(albums[k].youtubeVideos, item.videoId), Some(albums[k]), item.trackIndex))
  {
    var item := CurrentQueueItem(s);
    if item.None? then Media(None, None, 0)
    else
      var k := FindAlbumIndex(albums, item.value.albumId);
      if k == -1 then Media(None, None, 0)
      else Media(FindVideo(albums[k].youtubeVideos, item.value.videoId), Some(albums[k]), item.value.trackIndex)
  }
}
