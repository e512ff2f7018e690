/**
 * The records the front end works on (src/types.ts) and the queue item built
 * from them. Fields that no modelled operation reads are left out; dates are
 * abstract timestamps, prices and ratings are reals.
 */
module Catalog {
  import opened Maybe

  type AlbumId = int

  /** A queue item's identifier; the source draws it from `crypto.randomUUID`. */
  type ItemId = nat

  datatype InteractionType = Played | Liked | Disliked

  /** A user interaction; absent indices are `undefined` in the source. */
  datatype Interaction = Interaction(kind: InteractionType, trackIndex: Option<int>, videoIndex: Option<int>)

  datatype Video = Video(youtubeUrl: string, youtubeVideoId: string, orderIndex: int, title: Option<string>)

  datatype CollectionItem = CollectionItem(itemUrl: string, sellerPrice: real, sellerCondition: Option<string>)

  datatype Album = Album(
    id: AlbumId,
    discogsReleaseId: string,
    artist: string,
    title: string,
    recordLabel: string,
    catalogNumber: string,
    country: string,
    releasedYear: Option<int>,
    genres: seq<string>,
    styles: Option<seq<string>>,
    haveCount: int,
    wantCount: int,
    avgRating: real,
    priceMedian: Option<real>,
    imageUrl: string,
    createdAt: int,
    youtubeVideos: seq<Video>,
    collectionItems: seq<CollectionItem>,
    userInteractions: seq<Interaction>)

  /** One playable unit of the queue: a snapshot of one video of one album. */
  datatype QueueItem = QueueItem(
    id: ItemId,
    videoId: string,
    title: string,
    artist: string,
    albumId: AlbumId,
    albumTitle: string,
    albumImageUrl: string,
    trackIndex: int,
    totalTracksInAlbum: nat)

  /** `albums[k]` is the first album whose id is `id`. */
  predicate FirstWithId(albums: seq<Album>, id: AlbumId, k: int) {
    0 <= k < |albums| && albums[k].id == id && forall j :: 0 <= j < k ==> albums[j].id != id
  }

  /** First index of an album with id `id`, or -1 (`albums.findIndex(a => a.id === id)`). */
  function FindAlbumIndex(albums: seq<Album>, id: AlbumId): (r: int)
    ensures -1 <= r < |albums|
    ensures r == -1 <==> forall i :: 0 <= i < |albums| ==> albums[i].id != id
    ensures r >= 0 ==> albums[r].id == id && forall j :: 0 <= j < r ==> albums[j].id != id
  {
    if |albums| == 0 then -1
    else if albums[0].id == id then 0
    else
      var k := FindAlbumIndex(albums[1..], id);
      if k == -1 then -1 else k + 1
  }
}
