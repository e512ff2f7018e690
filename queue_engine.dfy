/**
 * The queue provider of src/context/QueueContext.tsx as an object: the queue
 * and the active id are its fields, the play flag lives in the shared audio
 * transport it holds, and `nextId` is the fresh-id supply standing in for
 * `crypto.randomUUID`. Each action updates the fields step by step and is
 * proved to land on the state that the matching `Queue` function describes.
 */
module QueueEngine {
  import opened Maybe
  import opened Catalog
  import opened QueueHelpers
  import Queue
  import Audio

  class Engine {
    var queue: seq<QueueItem>
    var activeId: Option<ItemId>
    var nextId: nat
    const audio: Audio.Transport

    function State(): Queue.QueueState
      reads this, audio
    {
      Queue.QueueState(queue, activeId, audio.isPlaying)
    }

    /**
     * A provider over a restored queue and active id. The restored id need not
     * name a queued item. The supply starts above every restored id.
     */
    constructor (restored: seq<QueueItem>, restoredActive: Option<ItemId>, transport: Audio.Transport)
      ensures queue == restored && activeId == restoredActive && audio == transport
      ensures Queue.IdsBelow(queue, nextId)
    {
      var bound: nat := 0;
      var i := 0;
      while i < |restored|
        invariant 0 <= i <= |restored|
        invariant forall j :: 0 <= j < i ==> restored[j].id < bound
      {
        if restored[i].id >= bound {
          bound := restored[i].id + 1;
        }
        i := i + 1;
      }
      queue := restored;
      activeId := restoredActive;
      audio := transport;
      nextId := bound;
    }

    /** The derived `queueIndex`, computed by scanning the queue for the active id. */
    method QueueIndex() returns (k: int)
      ensures k == Queue.Index(State())
    {
      if activeId.None? {
        return -1;
      }
      var id := activeId.value;
      k := 0;
      while k < |queue|
        invariant 0 <= k <= |queue|
        invariant forall j :: 0 <= j < k ==> queue[j].id != id
      {
        if queue[k].id == id {
          Queue.QueueIndexIs(queue, activeId, k);
          return;
        }
        k := k + 1;
      }
      k := -1;
    }

    method PlayNow(items: seq<QueueItem>)
      modifies this, audio
      ensures State() == Queue.PlayNow(old(State()), items)
      ensures nextId == old(nextId) && audio.OnlyPlayFlagChanged()
    {
      if |items| == 0 {
        return;
      }
      ghost var target := Queue.PlayNow(State(), items);
      if |queue| == 0 {
        assert target == Queue.QueueState(items, Some(items[0].id), true);
        queue := items;
        activeId := Some(items[0].id);
      } else {
        var k := QueueIndex();
        assert target == Queue.QueueState(Queue.InsertAt(queue, k + 1, items), Some(items[0].id), true);
        queue := Queue.InsertAt(queue, k + 1, items);
        activeId := Some(items[0].id);
      }
      audio.SetIsPlaying(true);
    }

    method AddToQueue(items: seq<QueueItem>)
      modifies this
      ensures State() == Queue.AddToQueue(old(State()), items)
      ensures nextId == old(nextId)
    {
      queue := queue + items;
    }

    method PlayTrack(album: Album, trackIndex: int)
      modifies this, audio
      ensures State() == Queue.PlayTrack(old(State()), album, trackIndex, old(nextId))
      ensures nextId == old(nextId) + Queue.IdsDrawn(old(State()), Queue.PlayTrackAction(album, trackIndex))
      ensures audio.OnlyPlayFlagChanged()
    {
      var item := ConvertTrackToQueueItem(album, trackIndex, nextId);
      if item.None? {
        return;
      }
      nextId := nextId + 1;
      PlayNow([item.value]);
    }

    method PlayAlbum(album: Album)
      modifies this, audio
      ensures State() == Queue.PlayAlbum(old(State()), album, old(nextId))
      ensures nextId == old(nextId) + Queue.IdsDrawn(old(State()), Queue.PlayAlbumAction(album))
      ensures audio.OnlyPlayFlagChanged()
    {
      var items := AlbumItems(album, nextId);
      nextId := nextId + |items|;
      PlayNow(items);
    }

    method PlayAlbumNext(album: Album)
      modifies this
      ensures State() == Queue.PlayAlbumNext(old(State()), album, old(nextId))
      ensures nextId == old(nextId) + Queue.IdsDrawn(old(State()), Queue.PlayAlbumNextAction(album))
    {
      var items := AlbumItems(album, nextId);
      InsertAfterActive(items);
      nextId := nextId + |items|;
    }

    /** The insertion of `playAlbumNext`: right after the active item, or at the front if none; nothing when empty. */
    method InsertAfterActive(items: seq<QueueItem>)
      modifies this
      ensures State() == Queue.InsertAfterActive(old(State()), items)
      ensures nextId == old(nextId)
    {
      ghost var target := Queue.InsertAfterActive(State(), items);
      if |items| == 0 {
        return;
      }
      var k := QueueIndex();
      assert target.queue == Queue.InsertAt(queue, k + 1, items);
      queue := Queue.InsertAt(queue, k + 1, items);
    }

    method AddAlbumToQueue(album: Album)
      modifies this
      ensures State() == Queue.AddAlbumToQueue(old(State()), album, old(nextId))
      ensures nextId == old(nextId) + Queue.IdsDrawn(old(State()), Queue.AddAlbumToQueueAction(album))
    {
      var items := AlbumItems(album, nextId);
      nextId := nextId + |items|;
      AddToQueue(items);
    }

    method JumpToQueueIndex(index: int)
      modifies this, audio
      ensures State() == Queue.JumpToQueueIndex(old(State()), index)
      ensures nextId == old(nextId) && audio.OnlyPlayFlagChanged()
    {
      if index < 0 || index >= |queue| {
        return;
      }
      activeId := Some(queue[index].id);
      audio.SetIsPlaying(true);
    }

    /** `nextTrack()`, with the catalog albums of the data context as a parameter. */
    method NextTrack(albums: seq<Album>)
      modifies this, audio
      ensures State() == Queue.NextTrack(old(State()), albums, old(nextId))
      ensures nextId == old(nextId) + Queue.IdsDrawn(old(State()), Queue.NextAction(albums))
      ensures audio.OnlyPlayFlagChanged()
    {
      if |queue| == 0 {
        return;
      }
      var k := QueueIndex();
      if k + 1 < |queue| {
        activeId := Some(queue[k + 1].id);
        audio.SetIsPlaying(true);
        return;
      }
      Queue.NextPastEnd(State(), albums, nextId);
      AdvancePastEnd(albums);
    }

    /**
     * The end-of-queue step of `nextTrack`: the album after the last item's
     * album is appended and its first item played; with no such album, or one
     * without videos, playback stops.
     */
    method AdvancePastEnd(albums: seq<Album>)
      requires |queue| > 0
      modifies this, audio
      ensures var items := Queue.AutoAdvanceItems(old(queue), albums, old(nextId));
              && nextId == old(nextId) + |items|
              && (|items| > 0 ==> State() == Queue.QueueState(old(queue) + items, Some(items[0].id), true))
              && (|items| == 0 ==> State() == old(State()).(isPlaying := false))
      ensures audio.OnlyPlayFlagChanged()
    {
      var last := queue[|queue| - 1];
      var a := FindAlbumIndex(albums, last.albumId);
      if a != -1 && a + 1 < |albums| {
        var nextItems := AlbumItems(albums[a + 1], nextId);
        nextId := nextId + |nextItems|;
        if |nextItems| > 0 {
          queue := queue + nextItems;
          activeId := Some(nextItems[0].id);
          audio.SetIsPlaying(true);
          return;
        }
      }
      audio.SetIsPlaying(false);
    }

    method PrevTrack()
      modifies this, audio
      ensures State() == Queue.PrevTrack(old(State()))
      ensures nextId == old(nextId) && audio.OnlyPlayFlagChanged()
    {
      if |queue| == 0 {
        return;
      }
      var k := QueueIndex();
      if k > 0 {
        activeId := Some(queue[k - 1].id);
      }
      audio.SetIsPlaying(true);
    }

    method RemoveFromQueue(index: int)
      modifies this, audio
      ensures State() == Queue.RemoveFromQueue(old(State()), index)
      ensures nextId == old(nextId) && audio.OnlyPlayFlagChanged()
    {
      ghost var s0 := State();
      var k := QueueIndex();
      var before := queue;
      var rest := Queue.Without(queue, index);
      queue := rest;
      if index == k {
        if index + 1 < |before| {
          assert Queue.RemoveFromQueue(s0, index) == Queue.QueueState(rest, Some(before[index + 1].id), s0.isPlaying);
          activeId := Some(before[index + 1].id);
        } else {
          assert Queue.RemoveFromQueue(s0, index) == Queue.QueueState(rest, None, false);
          audio.SetIsPlaying(false);
          activeId := None;
        }
      } else {
        assert Queue.RemoveFromQueue(s0, index) == Queue.QueueState(rest, s0.activeId, s0.isPlaying);
      }
    }

    method ClearQueue()
      modifies this, audio
      ensures State() == Queue.ClearQueue(old(State()))
      ensures nextId == old(nextId) && audio.OnlyPlayFlagChanged()
    {
      queue := [];
      activeId := None;
      audio.SetIsPlaying(false);
    }

    method UpdateQueueItemTitle(index: int, title: string)
      modifies this
      ensures State() == Queue.UpdateQueueItemTitle(old(State()), index, title)
      ensures nextId == old(nextId)
    {
      if 0 <= index < |queue| {
        queue := queue[index := queue[index].(title := title)];
      }
    }
  }

  /** From an empty queue, `playNow([a, b, c])` queues exactly those and plays `a`. */
  method PlayNowOnEmptyQueue(a: QueueItem, b: QueueItem, c: QueueItem)
    returns (queue: seq<QueueItem>, active: Option<ItemId>, playing: bool)
    ensures queue == [a, b, c] && active == Some(a.id) && playing
  {
    var t := new Audio.Transport();
    var e := new Engine([], None, t);
    e.PlayNow([a, b, c]);
    queue, active, playing := e.queue, e.activeId, e.audio.isPlaying;
  }

  /**
   * With `[a, b]` and `a` active, `playAlbumNext` of a one-video album puts
   * its item between them and leaves `a` active.
   */
  method PlayNextBetween(a: QueueItem, b: QueueItem, album: Album)
    returns (queue: seq<QueueItem>, active: Option<ItemId>)
    requires |album.youtubeVideos| == 1
    ensures |queue| == 3 && queue[0] == a && queue[2] == b
    ensures queue[1].videoId == album.youtubeVideos[0].youtubeVideoId && queue[1].albumId == album.id
    ensures active == Some(a.id)
  {
    var t := new Audio.Transport();
    var e := new Engine([a, b], Some(a.id), t);
    assert Queue.Index(e.State()) == 0 by {
      Queue.QueueIndexIs([a, b], Some(a.id), 0);
    }
    e.PlayAlbumNext(album);
    queue, active := e.queue, e.activeId;
  }

  /** With `[a, b, c]` and `b` active, removing position 1 leaves `[a, c]` with `c` active. */
  method RemoveActiveMiddle(a: QueueItem, b: QueueItem, c: QueueItem)
    returns (queue: seq<QueueItem>, active: Option<ItemId>)
    requires a.id != b.id
    ensures queue == [a, c] && active == Some(c.id)
  {
    var t := new Audio.Transport();
    var e := new Engine([a, b, c], Some(b.id), t);
    assert Queue.Index(e.State()) == 1 by {
      Queue.QueueIndexIs([a, b, c], Some(b.id), 1);
    }
    e.RemoveFromQueue(1);
    queue, active := e.queue, e.activeId;
    assert queue == [a, b, c][..1] + [a, b, c][2..];
  }

  /**
   * A lone playing item whose album is the catalog's last (or not in it):
   * `nextTrack` keeps it active and stops playback.
   */
  method EndOfCatalogStops(a: QueueItem, albums: seq<Album>)
    returns (queue: seq<QueueItem>, active: Option<ItemId>, playing: bool)
    requires forall i :: 0 <= i < |albums| - 1 ==> albums[i].id != a.albumId
    ensures queue == [a] && active == Some(a.id) && !playing
  {
    var t := new Audio.Transport();
    t.SetIsPlaying(true);
    var e := new Engine([a], Some(a.id), t);
    e.NextTrack(albums);
    queue, active, playing := e.queue, e.activeId, e.audio.isPlaying;
  }

  /** `removeFromQueue(-1)` with nothing active removes nothing and activates the first item. */
  method RemoveMinusOne(a: QueueItem, b: QueueItem)
    returns (queue: seq<QueueItem>, active: Option<ItemId>)
    ensures queue == [a, b] && active == Some(a.id)
  {
    var t := new Audio.Transport();
    var e := new Engine([a, b], None, t);
    e.RemoveFromQueue(-1);
    queue, active := e.queue, e.activeId;
  }
}
