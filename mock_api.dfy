/**
 * The in-memory album service of src/services/api.ts: a fixed album list and
 * a set of liked album ids that `toggleLike` flips. Reads project the liked
 * set onto the albums' interaction lists. The artificial delays are left out.
 */
module MockApi {
  import opened Maybe
  import opened Catalog
  import opened Text

  /** The album carries some "liked" interaction, album-level or per video. */
  predicate HasLike(album: Album) {
    exists i :: 0 <= i < |album.userInteractions| && album.userInteractions[i].kind == Liked
  }

  /** Ids of the albums the store starts out liking. */
  ghost function InitialLiked(albums: seq<Album>): set<AlbumId> {
    set i | 0 <= i < |albums| && HasLike(albums[i]) :: albums[i].id
  }

  /** The album-level "liked" marker a read appends (its timestamp is not modelled). */
  function LikeMark(): Interaction {
    Interaction(Liked, None, None)
  }

  /** The interactions with every "liked" entry filtered out. */
  function WithoutLikes(s: seq<Interaction>): (r: seq<Interaction>)
    ensures |r| <= |s|
    ensures forall x :: x in r <==> x in s && x.kind != Liked
  {
    if s == [] then []
    else if s[0].kind == Liked then WithoutLikes(s[1..])
    else [s[0]] + WithoutLikes(s[1..])
  }

  /** Filtering distributes over concatenation: the kept entries keep their order. */
  lemma {:induction false} WithoutLikesAppend(a: seq<Interaction>, b: seq<Interaction>)
    ensures WithoutLikes(a + b) == WithoutLikes(a) + WithoutLikes(b)
    decreases |a|
  {
    if a != [] {
      assert (a + b)[1..] == a[1..] + b;
      WithoutLikesAppend(a[1..], b);
    } else {
      assert a + b == b;
    }
  }

  /** A list with no "liked" entry is left as it is. */
  lemma {:induction false} WithoutLikesKeepsOthers(s: seq<Interaction>)
    requires forall i :: 0 <= i < |s| ==> s[i].kind != Liked
    ensures WithoutLikes(s) == s
    decreases |s|
  {
    if s != [] {
      WithoutLikesKeepsOthers(s[1..]);
    }
  }

  /** How a read shows one album: only its interaction list depends on the liked set. */
  function Projected(album: Album, liked: set<AlbumId>): (r: Album)
    ensures r.(userInteractions := album.userInteractions) == album
    ensures album.id in liked ==> r.userInteractions == album.userInteractions + [LikeMark()]
    ensures album.id !in liked ==> forall x :: x in r.userInteractions <==> x in album.userInteractions && x.kind != Liked
  {
    album.(userInteractions :=
      if album.id in liked then album.userInteractions + [LikeMark()]
      else WithoutLikes(album.userInteractions))
  }

  /** Flipping one id's membership in a set. */
  function Flipped(s: set<AlbumId>, id: AlbumId): (r: set<AlbumId>)
    ensures id in r <==> id !in s
    ensures forall x :: x != id ==> (x in r <==> x in s)
  {
    if id in s then s - {id} else s + {id}
  }

  lemma FlippedTwice(s: set<AlbumId>, id: AlbumId)
    ensures Flipped(Flipped(s, id), id) == s
  {
  }

  class MockApiService {
    const albums: seq<Album>
    var likedAlbumIds: set<AlbumId>

    /** Starts from the mock catalog, liking every album that has a "liked" interaction. */
    constructor (mockAlbums: seq<Album>)
      ensures albums == mockAlbums
      ensures likedAlbumIds == InitialLiked(mockAlbums)
    {
      var liked: set<AlbumId> := {};
      var i := 0;
      while i < |mockAlbums|
        invariant 0 <= i <= |mockAlbums|
        invariant liked == InitialLiked(mockAlbums[..i])
      {
        assert forall j :: 0 <= j < i ==> mockAlbums[..i + 1][j] == mockAlbums[..i][j];
        if HasLike(mockAlbums[i]) {
          liked := liked + {mockAlbums[i].id};
        }
        i := i + 1;
      }
      assert mockAlbums[..i] == mockAlbums;
      albums := mockAlbums;
      likedAlbumIds := liked;
    }

    /** `getAlbums`: every album, in order, with its liked status applied. */
    function GetAlbums(): (r: seq<Album>)
      reads this
      ensures |r| == |albums|
      ensures forall i :: 0 <= i < |r| ==> r[i] == Projected(albums[i], likedAlbumIds)
    {
      seq(|albums|, i requires 0 <= i < |albums| reads this => Projected(albums[i], likedAlbumIds))
    }

    /** `getAlbum`: nothing when no album has the id, else the first such album as `getAlbums` shows it. */
    function GetAlbum(id: AlbumId): (r: Option<Album>)
      reads this
      ensures r.None? <==> forall i :: 0 <= i < |albums| ==> albums[i].id != id
      ensures r.Some? ==> exists i :: 0 <= i < |albums| && albums[i].id == id && r.value == GetAlbums()[i]
                                      && forall j :: 0 <= j < i ==> albums[j].id != id
    {
      var k := FindAlbumIndex(albums, id);
      if k == -1 then None else Some(Projected(albums[k], likedAlbumIds))
    }

    /** `toggleLike`: reports whether the album is liked now, having flipped only its id. */
    method ToggleLike(albumId: AlbumId) returns (liked: bool)
      modifies this
      ensures liked <==> albumId !in old(likedAlbumIds)
      ensures likedAlbumIds == Flipped(old(likedAlbumIds), albumId)
    {
      if albumId in likedAlbumIds {
        likedAlbumIds := likedAlbumIds - {albumId};
        liked := false;
      } else {
        likedAlbumIds := likedAlbumIds + {albumId};
        liked := true;
      }
    }
  }

  /** A freshly built service reports a liked album with exactly one extra marker. */
  method LikedAfterToggle(album: Album) returns (shown: Option<Album>)
    requires album.userInteractions == []
    ensures shown == Some(album.(userInteractions := [LikeMark()]))
  {
    var api := new MockApiService([album]);
    assert !HasLike(album);
    assert api.likedAlbumIds == {};
    var liked := api.ToggleLike(album.id);
    assert api.likedAlbumIds == {album.id};
    assert FindAlbumIndex(api.albums, album.id) == 0;
    assert album.userInteractions + [LikeMark()] == [LikeMark()];
    shown := api.GetAlbum(album.id);
  }

  /** Toggling the same album twice restores the liked set and reports "liked" then "not liked". */
  method ToggleTwiceRestores(mockAlbums: seq<Album>, id: AlbumId)
    returns (first: bool, second: bool, restored: bool)
    ensures first != second && restored
  {
    var api := new MockApiService(mockAlbums);
    var before := api.likedAlbumIds;
    first := api.ToggleLike(id);
    second := api.ToggleLike(id);
    FlippedTwice(before, id);
    restored := api.likedAlbumIds == before;
  }

  /** What `scrapeUrl` answers; the job id carries the clock reading it is built from. */
  datatype ScrapeResponse = ScrapeResponse(success: bool, message: string, jobId: Option<int>)

  /** `scrapeUrl`: accepted exactly when the URL mentions "discogs.com". */
  function ScrapeUrl(url: string, now: int): (r: ScrapeResponse)
    ensures r.success <==> exists i :: OccursAt(url, "discogs.com", i)
    ensures r.success ==> r.message == "Scraping started" && r.jobId == Some(now)
    ensures !r.success ==> r.message == "Invalid Discogs URL" && r.jobId == None
  {
    if Contains(url, "discogs.com") then ScrapeResponse(true, "Scraping started", Some(now))
    else ScrapeResponse(false, "Invalid Discogs URL", None)
  }

  lemma ScrapeUrlExamples(now: int)
    ensures ScrapeUrl("https://www.discogs.com/seller/x", now).success
    ensures !ScrapeUrl("https://example.org/x", now).success
  {
    assert OccursAt("https://www.discogs.com/seller/x", "discogs.com", 12);
    var u := "https://example.org/x";
    forall i ensures !OccursAt(u, "discogs.com", i) {
      if 0 <= i && i + 11 <= |u| {
        assert u[i..i + 11] != "discogs.com" by {
          assert u[i..i + 11][0] == u[i];
        }
      }
    }
  }
}
