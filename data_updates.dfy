/**
 * The album list of src/context/DataContext.tsx and its optimistic updates:
 * album-level likes, per-video like/dislike votes and video title
 * corrections. Each update maps over the albums; inside the target album the
 * interaction list is copied, one entry is spliced out and one may be pushed.
 */
module DataUpdates {
  import opened Maybe
  import opened Catalog
  import MockApi

  // ------------------------------------------------------- list primitives

  /** `findIndex`: the first position whose element satisfies `p`, or -1. */
  function FirstWhere<T>(s: seq<T>, p: T -> bool): (r: int)
    ensures -1 <= r < |s|
    ensures r == -1 <==> forall i :: 0 <= i < |s| ==> !p(s[i])
    ensures r >= 0 ==> p(s[r]) && forall j :: 0 <= j < r ==> !p(s[j])
  {
    if s == [] then -1
    else if p(s[0]) then 0
    else
      var k := FirstWhere(s[1..], p);
      if k == -1 then -1 else k + 1
  }

  /** The list without its first element satisfying `p`. */
  function RemoveFirstWhere<T>(s: seq<T>, p: T -> bool): seq<T> {
    if s == [] then []
    else if p(s[0]) then s[1..]
    else [s[0]] + RemoveFirstWhere(s[1..], p)
  }

  /** Removing the first match is splicing out the index `findIndex` reports. */
  lemma {:induction false} RemoveFirstIsSplice<T>(s: seq<T>, p: T -> bool)
    ensures FirstWhere(s, p) == -1 ==> RemoveFirstWhere(s, p) == s
    ensures FirstWhere(s, p) >= 0 ==>
              RemoveFirstWhere(s, p) == s[..FirstWhere(s, p)] + s[FirstWhere(s, p) + 1..]
    decreases |s|
  {
    if s != [] && !p(s[0]) {
      var t := s[1..];
      var k := FirstWhere(t, p);
      RemoveFirstIsSplice(t, p);
      assert RemoveFirstWhere(s, p) == [s[0]] + RemoveFirstWhere(t, p);
      if k >= 0 {
        assert FirstWhere(s, p) == k + 1;
        ConsSplice(s, k);
      } else {
        assert FirstWhere(s, p) == -1;
        assert [s[0]] + t == s;
      }
    }
  }

  /** Splicing position `k` out of the tail is splicing `k + 1` out of the whole. */
  lemma ConsSplice<T>(s: seq<T>, k: int)
    requires 0 <= k < |s| - 1
    ensures [s[0]] + (s[1..][..k] + s[1..][k + 1..]) == s[..k + 1] + s[k + 2..]
  {
    assert s[..k + 1] == [s[0]] + s[1..][..k];
    assert s[k + 2..] == s[1..][k + 1..];
  }

  // ------------------------------------------------------- per-video votes

  /** What the vote call answers: "liked", "disliked", or nothing when the vote was withdrawn. */
  datatype Vote = LikeVote | DislikeVote

  function VoteKind(v: Vote): InteractionType {
    if v == LikeVote then Liked else Disliked
  }

  /** A like or dislike of the video at `videoIndex`. */
  predicate IsVideoVote(x: Interaction, videoIndex: int) {
    x.videoIndex == Some(videoIndex) && (x.kind == Liked || x.kind == Disliked)
  }

  /** The interaction list after a vote on `videoIndex`: the first earlier vote goes, the new one is appended. */
  function AfterVideoVote(s: seq<Interaction>, videoIndex: int, result: Option<Vote>): seq<Interaction> {
    RemoveFirstWhere(s, x => IsVideoVote(x, videoIndex))
    + (if result.Some? then [Interaction(VoteKind(result.value), None, Some(videoIndex))] else [])
  }

  /** The closure's copy, `splice` and `push` on the interaction list. */
  method EditVideoVote(interactions: seq<Interaction>, videoIndex: int, result: Option<Vote>)
    returns (list: seq<Interaction>)
    ensures list == AfterVideoVote(interactions, videoIndex, result)
  {
    list := interactions;
    var existing := FirstWhere(list, x => IsVideoVote(x, videoIndex));
    RemoveFirstIsSplice(list, x => IsVideoVote(x, videoIndex));
    if existing > -1 {
      list := list[..existing] + list[existing + 1..];
    }
    if result.Some? {
      list := list + [Interaction(VoteKind(result.value), None, Some(videoIndex))];
    }
  }

  /** Number of votes on the video at `videoIndex`. */
  function VoteCount(s: seq<Interaction>, videoIndex: int): nat {
    if s == [] then 0
    else (if IsVideoVote(s[0], videoIndex) then 1 else 0) + VoteCount(s[1..], videoIndex)
  }

  lemma {:induction false} VoteCountAppend(a: seq<Interaction>, b: seq<Interaction>, videoIndex: int)
    ensures VoteCount(a + b, videoIndex) == VoteCount(a, videoIndex) + VoteCount(b, videoIndex)
    decreases |a|
  {
    if a == [] {
      assert a + b == b;
    } else {
      assert (a + b)[1..] == a[1..] + b;
      VoteCountAppend(a[1..], b, videoIndex);
    }
  }

  /** Removing the first vote on `v` lowers the count on `v` by one if there was one, and no other count. */
  lemma {:induction false} RemoveVoteCount(s: seq<Interaction>, v: int, w: int)
    ensures VoteCount(RemoveFirstWhere(s, x => IsVideoVote(x, v)), w)
            == if v == w && VoteCount(s, v) > 0 then VoteCount(s, v) - 1 else VoteCount(s, w)
    decreases |s|
  {
    if s != [] {
      RemoveVoteCount(s[1..], v, w);
      if !IsVideoVote(s[0], v) {
        VoteCountAppend([s[0]], RemoveFirstWhere(s[1..], x => IsVideoVote(x, v)), w);
        assert VoteCount([s[0]], w) == (if IsVideoVote(s[0], w) then 1 else 0) by {
          assert [s[0]][1..] == [];
        }
      } else {
        assert VoteCount(s[1..], v) == VoteCount(s, v) - 1;
      }
    }
  }

  /**
   * After a vote on `v` the list holds one vote on `v` if the call answered
   * one and none otherwise, as long as it held at most one before; votes on
   * other videos are not touched.
   */
  lemma VoteCountAfter(s: seq<Interaction>, v: int, w: int, result: Option<Vote>)
    requires VoteCount(s, v) <= 1
    ensures VoteCount(AfterVideoVote(s, v, result), v) == if result.Some? then 1 else 0
    ensures w != v ==> VoteCount(AfterVideoVote(s, v, result), w) == VoteCount(s, w)
  {
    var removed := RemoveFirstWhere(s, x => IsVideoVote(x, v));
    var pushed: seq<Interaction> := if result.Some? then [Interaction(VoteKind(result.value), None, Some(v))] else [];
    RemoveVoteCount(s, v, v);
    RemoveVoteCount(s, v, w);
    VoteCountAppend(removed, pushed, v);
    VoteCountAppend(removed, pushed, w);
    if result.Some? {
      assert pushed[1..] == [];
    }
  }

  // ----------------------------------------------------- album-level likes

  /** The album-level "liked" entry: no video index. */
  predicate IsAlbumLike(x: Interaction) {
    x.kind == Liked && x.videoIndex.None?
  }

  /** A like appends an album-level "liked"; an unlike removes the first one. */
  function AfterAlbumToggle(s: seq<Interaction>, isNowLiked: bool): seq<Interaction> {
    if isNowLiked then s + [Interaction(Liked, None, None)] else RemoveFirstWhere(s, IsAlbumLike)
  }

  method EditAlbumLike(interactions: seq<Interaction>, isNowLiked: bool) returns (list: seq<Interaction>)
    ensures list == AfterAlbumToggle(interactions, isNowLiked)
  {
    list := interactions;
    if isNowLiked {
      list := list + [Interaction(Liked, None, None)];
    } else {
      var idx := FirstWhere(list, IsAlbumLike);
      RemoveFirstIsSplice(list, IsAlbumLike);
      if idx > -1 {
        list := list[..idx] + list[idx + 1..];
      }
    }
  }

  /** A like followed by an unlike restores the list when it held no album-level like. */
  lemma LikeThenUnlike(s: seq<Interaction>)
    requires forall i :: 0 <= i < |s| ==> !IsAlbumLike(s[i])
    ensures AfterAlbumToggle(AfterAlbumToggle(s, true), false) == s
  {
    var t := s + [Interaction(Liked, None, None)];
    RemoveFirstIsSplice(t, IsAlbumLike);
    var k := FirstWhere(t, IsAlbumLike);
    assert IsAlbumLike(t[|s|]);
    assert forall j :: 0 <= j < |s| ==> t[j] == s[j];
    assert k == |s|;
    assert t[..k] == s && t[k + 1..] == [];
  }

  // ------------------------------------------------------ album-list maps

  /** `prev.map(album => album.id === id ? f(album) : album)`. */
  function MapMatching(albums: seq<Album>, id: AlbumId, f: Album -> Album): (r: seq<Album>)
    ensures |r| == |albums|
    ensures forall i :: 0 <= i < |r| ==> r[i] == if albums[i].id == id then f(albums[i]) else albums[i]
  {
    seq(|albums|, i requires 0 <= i < |albums| => if albums[i].id == id then f(albums[i]) else albums[i])
  }

  /** A like toggle keeps the album count and changes only the interaction lists of the albums with that id. */
  function ToggleLikeAlbums(albums: seq<Album>, id: AlbumId, isNowLiked: bool): (r: seq<Album>)
    ensures |r| == |albums|
    ensures forall i :: 0 <= i < |r| && albums[i].id != id ==> r[i] == albums[i]
    ensures forall i :: 0 <= i < |r| ==> r[i].(userInteractions := albums[i].userInteractions) == albums[i]
    ensures forall i :: 0 <= i < |r| && albums[i].id == id ==>
              r[i].userInteractions == AfterAlbumToggle(albums[i].userInteractions, isNowLiked)
  {
    MapMatching(albums, id, (a: Album) => a.(userInteractions := AfterAlbumToggle(a.userInteractions, isNowLiked)))
  }

  /** A vote keeps the album count and changes only the interaction lists of the albums with that id. */
  function VideoVoteAlbums(albums: seq<Album>, albumId: AlbumId, videoIndex: int, result: Option<Vote>): (r: seq<Album>)
    ensures |r| == |albums|
    ensures forall i :: 0 <= i < |r| && albums[i].id != albumId ==> r[i] == albums[i]
    ensures forall i :: 0 <= i < |r| ==> r[i].(userInteractions := albums[i].userInteractions) == albums[i]
    ensures forall i :: 0 <= i < |r| && albums[i].id == albumId ==>
              r[i].userInteractions == AfterVideoVote(albums[i].userInteractions, videoIndex, result)
  {
    MapMatching(albums, albumId, (a: Album) => a.(userInteractions := AfterVideoVote(a.userInteractions, videoIndex, result)))
  }

  /** The video ids of a list, in order. */
  function VideoIds(videos: seq<Video>): seq<string> {
    seq(|videos|, i requires 0 <= i < |videos| => videos[i].youtubeVideoId)
  }

  /** Every video with id `videoId` gets the new title; nothing else changes. */
  function RetitleVideos(videos: seq<Video>, videoId: string, title: string): (r: seq<Video>)
    ensures |r| == |videos| && VideoIds(r) == VideoIds(videos)
    ensures forall i :: 0 <= i < |r| ==> r[i].(title := videos[i].title) == videos[i]
    ensures forall i :: 0 <= i < |r| ==> r[i].title == if videos[i].youtubeVideoId == videoId then Some(title) else videos[i].title
  {
    seq(|videos|, i requires 0 <= i < |videos| =>
      if videos[i].youtubeVideoId == videoId then videos[i].(title := Some(title)) else videos[i])
  }

  /**
   * A title correction keeps the albums, their video counts and video order;
   * in the albums with that id every video with that id gets the new title,
   * and nothing else changes, so albums without videos stay as they are.
   */
  function UpdateVideoTitleAlbums(albums: seq<Album>, albumId: AlbumId, videoId: string, title: string): (r: seq<Album>)
    ensures |r| == |albums|
    ensures forall i :: 0 <= i < |r| ==> r[i].(youtubeVideos := albums[i].youtubeVideos) == albums[i]
    ensures forall i :: 0 <= i < |r| ==> VideoIds(r[i].youtubeVideos) == VideoIds(albums[i].youtubeVideos)
    ensures forall i :: 0 <= i < |r| && (albums[i].id != albumId || albums[i].youtubeVideos == []) ==> r[i] == albums[i]
    ensures forall i :: 0 <= i < |r| && albums[i].id == albumId ==>
              r[i].youtubeVideos == RetitleVideos(albums[i].youtubeVideos, videoId, title)
  {
    MapMatching(albums, albumId, (a: Album) => a.(youtubeVideos := RetitleVideos(a.youtubeVideos, videoId, title)))
  }

  /** Applying the same title correction twice is the same as once. */
  lemma UpdateVideoTitleIdempotent(albums: seq<Album>, albumId: AlbumId, videoId: string, title: string)
    ensures var once := UpdateVideoTitleAlbums(albums, albumId, videoId, title);
            UpdateVideoTitleAlbums(once, albumId, videoId, title) == once
  {
    var once := UpdateVideoTitleAlbums(albums, albumId, videoId, title);
    var twice := UpdateVideoTitleAlbums(once, albumId, videoId, title);
    forall i | 0 <= i < |once| ensures twice[i] == once[i] {
      if once[i].id == albumId {
        var v1 := once[i].youtubeVideos;
        var v2 := twice[i].youtubeVideos;
        assert |v2| == |v1|;
        forall j | 0 <= j < |v1| ensures v2[j] == v1[j] {
          assert VideoIds(v2)[j] == VideoIds(v1)[j];
        }
      }
    }
  }

  // ------------------------------------------------------------- freshness

  /** The loaded list must be refilled: it is empty, or its first album has no statistics yet. */
  function NeedsUpdate(data: seq<Album>): (r: bool)
    ensures r <==> data == [] || (data[0].haveCount == 0 && data[0].wantCount == 0 && data[0].avgRating == 0.0)
  {
    |data| == 0 || (|data| > 0 && data[0].haveCount == 0 && data[0].wantCount == 0 && data[0].avgRating == 0.0)
  }

  // -------------------------------------------------------------- provider

  /** The provider's album list and its three update callbacks. */
  class DataProvider {
    var albums: seq<Album>

    /** The list as `refresh` loaded it. */
    constructor (loaded: seq<Album>)
      ensures albums == loaded
    {
      albums := loaded;
    }

    /**
     * `toggleLike(id)`: returns early, leaving the store alone, when no album
     * has the id; otherwise flips the store's liked flag and, when the
     * database write that follows succeeds (`dbOk`), applies what the store
     * answered. A failed write lands in the catch: the store stays flipped
     * and the list unchanged.
     */
    method ToggleLike(id: AlbumId, api: MockApi.MockApiService, dbOk: bool)
      modifies this, api
      ensures (forall i :: 0 <= i < |old(albums)| ==> old(albums)[i].id != id) ==>
                albums == old(albums) && api.likedAlbumIds == old(api.likedAlbumIds)
      ensures (exists i :: 0 <= i < |old(albums)| && old(albums)[i].id == id) ==>
                api.likedAlbumIds == MockApi.Flipped(old(api.likedAlbumIds), id)
                && albums == (if dbOk then ToggleLikeAlbums(old(albums), id, id !in old(api.likedAlbumIds))
                              else old(albums))
    {
      var k := FindAlbumIndex(albums, id);
      if k == -1 {
        return;
      }
      var isNowLiked := api.ToggleLike(id);
      if !dbOk {
        return;
      }
      albums := ToggleLikeAlbums(albums, id, isNowLiked);
    }

    /**
     * `toggleVideoLike`, given the outcome of the vote call: `None` when it
     * rejects (the catch leaves the list alone), else `Some` of its answer.
     */
    method ToggleVideoLike(albumId: AlbumId, videoIndex: int, answer: Option<Option<Vote>>)
      modifies this
      ensures answer.None? ==> albums == old(albums)
      ensures answer.Some? ==> albums == VideoVoteAlbums(old(albums), albumId, videoIndex, answer.value)
    {
      if answer.Some? {
        albums := VideoVoteAlbums(albums, albumId, videoIndex, answer.value);
      }
    }

    method UpdateVideoTitle(albumId: AlbumId, videoId: string, title: string)
      modifies this
      ensures albums == UpdateVideoTitleAlbums(old(albums), albumId, videoId, title)
    {
      albums := UpdateVideoTitleAlbums(albums, albumId, videoId, title);
    }
  }
}
