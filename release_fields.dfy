/**
 * The values src-tauri/src/scraper/db.rs derives from a Discogs release
 * before writing it: artist, label, catalog number, format string, cover
 * image, year, each track's side, each video's id and order index, and a
 * listing's availability. The SQL statements themselves are not modelled:
 * the save loops produce the rows they would insert.
 */
module ReleaseFields {
  import opened Maybe
  import opened Text

  datatype Artist = Artist(name: string)
  datatype Label = Label(name: string, catno: Option<string>)
  datatype Format = Format(name: string, descriptions: Option<seq<string>>)
  datatype Image = Image(uri: Option<string>, resourceUrl: Option<string>, imageType: Option<string>)
  datatype Track = Track(position: string, title: string, duration: Option<string>)
  datatype VideoRef = VideoRef(uri: string, title: Option<string>)

  /** The release fields the derivations read; `year` is a `u32`. */
  datatype Release = Release(
    artists: seq<Artist>,
    labels: seq<Label>,
    released: Option<string>,
    year: Option<nat>,
    format: Option<string>,
    formats: Option<seq<Format>>,
    catalogNumber: Option<string>,
    images: Option<seq<Image>>,
    tracklist: seq<Track>,
    videos: seq<VideoRef>)

  const U32Limit: nat := 0x1_0000_0000

  // ------------------------------------------------------- album columns

  /** The first artist's name, or the empty string. */
  function ArtistName(r: Release): (a: string)
    ensures r.artists == [] ==> a == ""
    ensures r.artists != [] ==> a == r.artists[0].name
  {
    if r.artists == [] then "" else r.artists[0].name
  }

  /** The first label's name, if any label is listed. */
  function LabelName(r: Release): (l: Option<string>)
    ensures l.Some? <==> r.labels != []
    ensures l.Some? ==> l.value == r.labels[0].name
  {
    if r.labels == [] then None else Some(r.labels[0].name)
  }

  /** The first label's catalog number; when that is missing, the release-level one. */
  function CatalogNumber(r: Release): (c: Option<string>)
    ensures r.labels != [] && r.labels[0].catno.Some? ==> c == r.labels[0].catno
    ensures (r.labels == [] || r.labels[0].catno.None?) ==> c == r.catalogNumber
  {
    (if r.labels == [] then None else r.labels[0].catno).Or(r.catalogNumber)
  }

  /** The first format's name followed by its descriptions, joined with ", "; else the plain format. */
  function FormatString(r: Release): (f: Option<string>)
    ensures r.formats.Some? && r.formats.value != [] ==>
              var first := r.formats.value[0];
              f == Some(Join([first.name] + first.descriptions.GetOr([]), ", "))
              && StartsWith(f.value, first.name)
    ensures (r.formats.None? || r.formats.value == []) ==> f == r.format
  {
    if r.formats.Some? && r.formats.value != [] then
      var first := r.formats.value[0];
      var parts := [first.name] + first.descriptions.GetOr([]);
      JoinStartsWithFirst(parts, ", ");
      Some(Join(parts, ", "))
    else r.format
  }

  lemma FormatExample()
    ensures Join(["Vinyl", "LP", "Album"], ", ") == "Vinyl, LP, Album"
  {
    assert ["Vinyl", "LP", "Album"][1..] == ["LP", "Album"];
    assert ["LP", "Album"][1..] == ["Album"];
  }

  predicate IsPrimary(img: Image) {
    img.imageType == Some("primary")
  }

  /** Index of the first image of type "primary", or -1. */
  function FirstPrimary(images: seq<Image>): (k: int)
    ensures -1 <= k < |images|
    ensures k == -1 <==> forall i :: 0 <= i < |images| ==> !IsPrimary(images[i])
    ensures k >= 0 ==> IsPrimary(images[k]) && forall j :: 0 <= j < k ==> !IsPrimary(images[j])
  {
    if images == [] then -1
    else if IsPrimary(images[0]) then 0
    else
      var k := FirstPrimary(images[1..]);
      if k == -1 then -1 else k + 1
  }

  /** The first primary image, else the first image. */
  function CoverImage(images: seq<Image>): (c: Option<Image>)
    ensures c.None? <==> images == []
    ensures FirstPrimary(images) >= 0 ==> c == Some(images[FirstPrimary(images)])
    ensures FirstPrimary(images) == -1 && images != [] ==> c == Some(images[0])
  {
    var k := FirstPrimary(images);
    if k >= 0 then Some(images[k]) else if images == [] then None else Some(images[0])
  }

  /** The cover image's `uri`, or its `resource_url` when it has none. */
  function CoverImageUrl(r: Release): (u: Option<string>)
    ensures r.images.None? ==> u.None?
    ensures r.images.Some? && CoverImage(r.images.value).Some? ==>
              var img := CoverImage(r.images.value).value;
              u == (if img.uri.Some? then img.uri else img.resourceUrl)
  {
    if r.images.None? then None
    else
      var img := CoverImage(r.images.value);
      if img.None? then None else img.value.uri.Or(img.value.resourceUrl)
  }

  // ----------------------------------------------------------------- year

  predicate AllDigits(s: string) {
    forall i :: 0 <= i < |s| ==> IsAsciiDigit(s[i])
  }

  function DigitValue(c: char): nat
    requires IsAsciiDigit(c)
  {
    (c as int - '0' as int) as nat
  }

  /** The number a string of decimal digits denotes. */
  function DigitsValue(s: string): nat
    requires AllDigits(s)
  {
    if s == [] then 0 else DigitsValue(s[..|s| - 1]) * 10 + DigitValue(s[|s| - 1])
  }

  /** Rust's `str::parse::<u32>`: an optional '+', then one or more digits, below 2^32. */
  function ParseU32(s: string): (r: Option<nat>)
    ensures r.Some? ==> r.value < U32Limit
    ensures s == "" || s == "+" ==> r.None?
  {
    var digits := if |s| > 0 && s[0] == '+' then s[1..] else s;
    if digits == [] || !AllDigits(digits) then None
    else
      var v := DigitsValue(digits);
      if v < U32Limit then Some(v) else None
  }

  /** The decimal digits of `n`, without leading zeros. */
  function ToDecimal(n: nat): (s: string)
    ensures |s| > 0 && AllDigits(s)
  {
    var d := ['0' + ((n % 10) as char)];
    assert IsAsciiDigit(d[0]);
    if n < 10 then d else ToDecimal(n / 10) + d
  }

  lemma {:induction false} DecimalValue(n: nat)
    ensures DigitsValue(ToDecimal(n)) == n
  {
    var s := ToDecimal(n);
    if n >= 10 {
      DecimalValue(n / 10);
      assert s[..|s| - 1] == ToDecimal(n / 10);
    }
  }

  /** Parsing the decimal form of any `u32` gives it back. */
  lemma ParseDecimal(n: nat)
    requires n < U32Limit
    ensures ParseU32(ToDecimal(n)) == Some(n)
  {
    DecimalValue(n);
    assert IsAsciiDigit(ToDecimal(n)[0]);
  }

  /** The first piece of a split is everything before the first separator. */
  lemma FirstPiece(s: string, sep: string)
    requires |sep| > 0
    ensures Split(s, sep)[0] == if IndexOf(s, sep) == -1 then s else s[..IndexOf(s, sep)]
  {
  }

  /** `release.year`, else the part of `released` before the first '-' read as a `u32`. */
  function Year(r: Release): (y: Option<nat>)
    ensures r.year.Some? ==> y == r.year
    ensures r.year.None? && r.released.None? ==> y.None?
    ensures r.year.None? && r.released.Some? ==> y == ParseU32(Split(r.released.value, "-")[0])
  {
    if r.year.Some? then r.year
    else if r.released.None? then None
    else ParseU32(Split(r.released.value, "-")[0])
  }

  /** A release date "YYYY-…" without a `year` field gives YYYY. */
  lemma YearFromReleaseDate(r: Release, y: nat, rest: string)
    requires r.year == None && y < U32Limit
    requires r.released == Some(ToDecimal(y) + "-" + rest)
    ensures Year(r) == Some(y)
  {
    var d := ToDecimal(y);
    var s := d + "-" + rest;
    assert OccursAt(s, "-", |d|) by {
      assert s[|d|..|d| + 1] == "-";
    }
    forall i | 0 <= i < |d| ensures !OccursAt(s, "-", i) {
      assert s[i..i + 1] == [d[i]];
      assert IsAsciiDigit(d[i]);
    }
    FirstPiece(s, "-");
    assert s[..|d|] == d;
    ParseDecimal(y);
  }

  // ------------------------------------------------------------- tracks

  /** The vinyl side: the first character of the position, nothing for an empty position. */
  function Side(t: Track): (s: Option<string>)
    ensures s.None? <==> t.position == ""
    ensures s.Some? ==> |s.value| == 1 && StartsWith(t.position, s.value)
  {
    if t.position == "" then None else Some([t.position[0]])
  }

  datatype TrackRow = TrackRow(position: string, title: string, duration: Option<string>, side: Option<string>)

  function TrackRowOf(t: Track): TrackRow {
    TrackRow(t.position, t.title, t.duration, Side(t))
  }

  /** `save_tracks`: one row per track, in tracklist order. */
  method SaveTracks(tracks: seq<Track>) returns (rows: seq<TrackRow>)
    ensures |rows| == |tracks|
    ensures forall i :: 0 <= i < |tracks| ==> rows[i] == TrackRowOf(tracks[i])
  {
    rows := [];
    for i := 0 to |tracks|
      invariant |rows| == i
      invariant forall j :: 0 <= j < i ==> rows[j] == TrackRowOf(tracks[j])
    {
      rows := rows + [TrackRowOf(tracks[i])];
    }
  }

  // ------------------------------------------------------------- videos

  const WatchKey: string := "watch?v="

  /** `id` is the text of `uri` from `a` on, cut at the end, at a '&' or where another "watch?v=" starts. */
  predicate CutFrom(uri: string, a: int, id: string) {
    0 <= a && a + |id| <= |uri| && id == uri[a..a + |id|]
    && (a + |id| == |uri| || uri[a + |id|] == '&' || OccursAt(uri, WatchKey, a + |id|))
  }

  /**
   * The text after the first "watch?v=", cut at the next "watch?v=" and then
   * at the first '&': it starts right after the key and runs to the end, a
   * '&' or another key, whichever comes first.
   */
  function VideoId(uri: string): (id: string)
    ensures !Contains(id, "&") && !Contains(id, WatchKey)
    ensures !Contains(uri, WatchKey) ==> id == ""
  {
    var pieces := Split(uri, WatchKey);
    if |pieces| < 2 then ""
    else
      var id := Split(pieces[1], "&")[0];
      assert StartsWith(pieces[1], id) by {
        FirstPiece(pieces[1], "&");
      }
      NoOccurrenceInPrefix(pieces[1], id, WatchKey);
      if !Contains(uri, WatchKey) then
        NoKeyOnePiece(uri);
        id
      else id
  }

  /**
   * With a key in `uri`, the id starts right after the first key and runs to
   * the end, a '&' or another key, whichever comes first.
   */
  lemma VideoIdMeaning(uri: string)
    requires Contains(uri, WatchKey)
    ensures CutFrom(uri, IndexOf(uri, WatchKey) + |WatchKey|, VideoId(uri))
  {
    var a := IndexOf(uri, WatchKey) + |WatchKey|;
    var pieces := Split(uri, WatchKey);
    SecondPart(uri, WatchKey, pieces);
    var piece := Before(uri[a..], WatchKey);
    BeforeWithin(uri, WatchKey, a, piece);
    var id := Split(piece, "&")[0];
    assert VideoId(uri) == id;
    CutAtAmpersand(piece, id);
    CutWithin(uri, a, piece, id);
  }

  /** The first piece at '&' is a prefix of the text, ending at its end or at a '&'. */
  lemma CutAtAmpersand(piece: string, id: string)
    requires id == Split(piece, "&")[0]
    ensures |id| <= |piece| && id == piece[..|id|] && (|id| == |piece| || piece[|id|] == '&')
  {
    FirstPiece(piece, "&");
    var m := IndexOf(piece, "&");
    if m != -1 {
      assert piece[m..m + 1] == "&";
    }
  }

  /** A prefix of the second piece, ended by its end or a '&', is cut from the text after the key. */
  lemma CutWithin(uri: string, a: int, piece: string, id: string)
    requires 0 <= a && a + |piece| <= |uri| && piece == uri[a..a + |piece|]
    requires a + |piece| == |uri| || OccursAt(uri, WatchKey, a + |piece|)
    requires |id| <= |piece| && id == piece[..|id|] && (|id| == |piece| || piece[|id|] == '&')
    ensures CutFrom(uri, a, id)
  {
    if |id| < |piece| {
      assert uri[a + |id|] == piece[|id|];
    }
  }

  /** A prefix of a string without `pat` has no `pat` either. */
  lemma NoOccurrenceInPrefix(s: string, p: string, pat: string)
    requires StartsWith(s, p) && !Contains(s, pat)
    ensures !Contains(p, pat)
  {
    forall i ensures !OccursAt(p, pat, i) {
      if 0 <= i && i + |pat| <= |p| {
        assert p[i..i + |pat|] == s[..|p|][i..i + |pat|] == s[i..i + |pat|];
        assert !OccursAt(s, pat, i);
      }
    }
  }

  lemma NoKeyOnePiece(uri: string)
    requires !Contains(uri, WatchKey)
    ensures |Split(uri, WatchKey)| == 1
  {
  }

  /** The key cannot start at `i` when some character under it differs from the key's. */
  lemma NotKeyAt(s: string, i: int, j: int)
    requires 0 <= i <= j < |s| && j < i + |WatchKey| && s[j] != WatchKey[j - i]
    ensures !OccursAt(s, WatchKey, i)
  {
    if i + |WatchKey| <= |s| {
      assert s[i..i + |WatchKey|][j - i] == s[j];
    }
  }

  /** The first '&' in `id + "&" + rest` ends `id` when `id` holds none. */
  lemma FirstAmpersand(id: string, rest: string)
    requires forall i :: 0 <= i < |id| ==> id[i] != '&'
    ensures Split(id + "&" + rest, "&")[0] == id
  {
    var t := id + "&" + rest;
    assert OccursAt(t, "&", |id|) by {
      assert t[|id|..|id| + 1] == "&";
    }
    forall i | 0 <= i < |id| ensures !OccursAt(t, "&", i) {
      assert t[i..i + 1] == [id[i]];
    }
    FirstPiece(t, "&");
    assert t[..|id|] == id;
  }

  /** With no '?' before it, the key right after `prefix` is the first one. */
  lemma KeyFirstAfterPrefix(prefix: string, after: string)
    requires forall i :: 0 <= i < |prefix| ==> prefix[i] != '?'
    ensures IndexOf(prefix + WatchKey + after, WatchKey) == |prefix|
  {
    var uri := prefix + WatchKey + after;
    forall i | 0 <= i < |prefix| ensures !OccursAt(uri, WatchKey, i) {
      assert uri[i + 5] != '?' by {
        if i + 5 < |prefix| {
          assert uri[i + 5] == prefix[i + 5];
        } else {
          assert uri[i + 5] == WatchKey[i + 5 - |prefix|];
        }
      }
      NotKeyAt(uri, i, i + 5);
    }
    assert OccursAt(uri, WatchKey, |prefix|) by {
      assert uri[|prefix|..|prefix| + |WatchKey|] == WatchKey;
    }
  }

  /** Up to its first '&', the text after the key is cut neither by another key nor earlier. */
  lemma IdBeforeAmpersand(id: string, rest: string)
    requires forall i :: 0 <= i < |id| ==> id[i] != '&' && id[i] != '?'
    ensures Split(Split(id + "&" + rest, WatchKey)[0], "&")[0] == id
  {
    var after := id + "&" + rest;
    NoKeyBeforeAmpersand(id, rest);
    var k := IndexOf(after, WatchKey);
    FirstPiece(after, WatchKey);
    var tail := if k == -1 then rest else after[|id| + 1..k];
    assert Split(after, WatchKey)[0] == id + "&" + tail by {
      if k != -1 {
        assert after[..k] == id + "&" + after[|id| + 1..k];
      }
    }
    FirstAmpersand(id, tail);
  }

  /** No key starts at or before the '&' that ends `id`. */
  lemma NoKeyBeforeAmpersand(id: string, rest: string)
    requires forall i :: 0 <= i < |id| ==> id[i] != '&' && id[i] != '?'
    ensures IndexOf(id + "&" + rest, WatchKey) == -1 || IndexOf(id + "&" + rest, WatchKey) > |id|
  {
    var after := id + "&" + rest;
    forall i | 0 <= i <= |id| ensures !OccursAt(after, WatchKey, i) {
      if i + 5 < |id| {
        assert after[i + 5] == id[i + 5];
        NotKeyAt(after, i, i + 5);
      } else {
        assert after[|id|] == '&';
        NotKeyAt(after, i, |id|);
      }
    }
  }

  /**
   * A URL `<prefix>watch?v=<id>&<rest>` gives `<id>` when neither the prefix
   * nor the id contains '?' and the id contains no '&'.
   */
  lemma VideoIdOfWatchUrl(prefix: string, id: string, rest: string)
    requires forall i :: 0 <= i < |prefix| ==> prefix[i] != '?'
    requires forall i :: 0 <= i < |id| ==> id[i] != '&' && id[i] != '?'
    ensures VideoId(prefix + WatchKey + id + "&" + rest) == id
  {
    var after := id + "&" + rest;
    var uri := prefix + WatchKey + after;
    assert uri == prefix + WatchKey + id + "&" + rest;
    KeyFirstAfterPrefix(prefix, after);
    assert uri[|prefix| + |WatchKey|..] == after;
    assert Split(uri, WatchKey)[1] == Split(after, WatchKey)[0];
    IdBeforeAmpersand(id, rest);
  }

  /** A link that ends with the id, "…/watch?v=ID" with no '?' before the key, gives back ID. */
  lemma VideoIdOfPlainWatchUrl(prefix: string, id: string)
    requires forall i :: 0 <= i < |prefix| ==> prefix[i] != '?'
    requires forall i :: 0 <= i < |id| ==> id[i] != '&' && id[i] != '?'
    ensures VideoId(prefix + WatchKey + id) == id
  {
    var uri := prefix + WatchKey + id;
    KeyFirstAfterPrefix(prefix, id);
    VideoIdMeaning(uri);
    assert uri[|prefix| + |WatchKey|..] == id;
    CutOfPlainTail(uri, |prefix| + |WatchKey|, id, VideoId(uri));
  }

  /** A cut from where a tail free of '&' and '?' starts runs to the end: it is the whole tail. */
  lemma CutOfPlainTail(uri: string, a: int, tail: string, r: string)
    requires 0 <= a <= |uri| && uri[a..] == tail
    requires forall i :: 0 <= i < |tail| ==> tail[i] != '&' && tail[i] != '?'
    requires CutFrom(uri, a, r)
    ensures r == tail
  {
    if a + |r| < |uri| {
      var e := a + |r|;
      assert uri[e] == tail[|r|];
      if e + 5 < |uri| {
        assert uri[e + 5] == tail[|r| + 5];
        NotKeyAt(uri, e, e + 5);
      }
    }
    assert r == uri[a..a + |r|] == tail[..|r|];
  }

  /** A stored video link: the extracted id and the video's position in the release's list. */
  datatype VideoRow = VideoRow(videoId: string, title: Option<string>, orderIndex: nat)

  /** The rows for `videos[k..]`: videos without an id are skipped but keep their index. */
  function VideoRowsFrom(videos: seq<VideoRef>, k: nat): seq<VideoRow>
    requires k <= |videos|
    decreases |videos| - k
  {
    if k == |videos| then []
    else
      var id := VideoId(videos[k].uri);
      (if id == "" then [] else [VideoRow(id, videos[k].title, k)]) + VideoRowsFrom(videos, k + 1)
  }

  /** The row stands for the video at its order index, whose id it carries. */
  predicate RowFor(videos: seq<VideoRef>, row: VideoRow) {
    0 <= row.orderIndex < |videos| && row.videoId == VideoId(videos[row.orderIndex].uri)
    && row.videoId != "" && row.title == videos[row.orderIndex].title
  }

  /** Each row names a video at or after `k` by its position, with a non-empty id. */
  lemma {:induction false} VideoRowsSound(videos: seq<VideoRef>, k: nat)
    requires k <= |videos|
    ensures forall r :: r in VideoRowsFrom(videos, k) ==> k <= r.orderIndex && RowFor(videos, r)
    decreases |videos| - k
  {
    if k < |videos| {
      VideoRowsSound(videos, k + 1);
      var id := VideoId(videos[k].uri);
      var head: seq<VideoRow> := if id == "" then [] else [VideoRow(id, videos[k].title, k)];
      assert VideoRowsFrom(videos, k) == head + VideoRowsFrom(videos, k + 1);
      assert forall r :: r in head ==> r.orderIndex == k && RowFor(videos, r);
    }
  }

  /** Every row's order index is at least `k`. */
  lemma {:induction false} VideoRowsAbove(videos: seq<VideoRef>, k: nat)
    requires k <= |videos|
    ensures forall i :: 0 <= i < |VideoRowsFrom(videos, k)| ==> k <= VideoRowsFrom(videos, k)[i].orderIndex
    decreases |videos| - k
  {
    if k < |videos| {
      VideoRowsAbove(videos, k + 1);
      var id := VideoId(videos[k].uri);
      var head: seq<VideoRow> := if id == "" then [] else [VideoRow(id, videos[k].title, k)];
      var tail := VideoRowsFrom(videos, k + 1);
      assert VideoRowsFrom(videos, k) == head + tail;
      ConsAbove(k, head, tail);
    }
  }

  /** Rows at index `k` followed by rows at `k + 1` or later are all at `k` or later. */
  lemma ConsAbove(k: nat, head: seq<VideoRow>, tail: seq<VideoRow>)
    requires forall i :: 0 <= i < |head| ==> head[i].orderIndex == k
    requires forall i :: 0 <= i < |tail| ==> k + 1 <= tail[i].orderIndex
    ensures forall i :: 0 <= i < |head + tail| ==> k <= (head + tail)[i].orderIndex
  {
    forall i | 0 <= i < |head + tail| ensures k <= (head + tail)[i].orderIndex {
      if i >= |head| {
        assert (head + tail)[i] == tail[i - |head|];
      }
    }
  }

  /** The rows follow the videos' order: order indices strictly increase. */
  lemma {:induction false} VideoRowsOrdered(videos: seq<VideoRef>, k: nat)
    requires k <= |videos|
    ensures forall i, j :: 0 <= i < j < |VideoRowsFrom(videos, k)| ==>
              VideoRowsFrom(videos, k)[i].orderIndex < VideoRowsFrom(videos, k)[j].orderIndex
    decreases |videos| - k
  {
    if k < |videos| {
      VideoRowsOrdered(videos, k + 1);
      VideoRowsAbove(videos, k + 1);
      var id := VideoId(videos[k].uri);
      var head: seq<VideoRow> := if id == "" then [] else [VideoRow(id, videos[k].title, k)];
      var tail := VideoRowsFrom(videos, k + 1);
      assert VideoRowsFrom(videos, k) == head + tail;
      ConsOrdered(head, tail, k);
    }
  }

  /** A row at `k` (or none) before increasing rows that all lie above `k` gives increasing rows. */
  lemma ConsOrdered(head: seq<VideoRow>, tail: seq<VideoRow>, k: nat)
    requires |head| <= 1 && forall i :: 0 <= i < |head| ==> head[i].orderIndex == k
    requires forall i :: 0 <= i < |tail| ==> k + 1 <= tail[i].orderIndex
    requires forall i, j :: 0 <= i < j < |tail| ==> tail[i].orderIndex < tail[j].orderIndex
    ensures forall i, j :: 0 <= i < j < |head + tail| ==> (head + tail)[i].orderIndex < (head + tail)[j].orderIndex
  {
    var rows := head + tail;
    forall i, j | 0 <= i < j < |rows| ensures rows[i].orderIndex < rows[j].orderIndex {
      assert rows[j] == tail[j - |head|];
      if i >= |head| {
        assert rows[i] == tail[i - |head|];
      } else {
        assert rows[i] == head[i];
      }
    }
  }

  /** Every video with an id gets exactly one row. */
  lemma {:induction false} VideoRowsComplete(videos: seq<VideoRef>, k: nat, n: nat)
    requires k <= n < |videos| && VideoId(videos[n].uri) != ""
    ensures VideoRow(VideoId(videos[n].uri), videos[n].title, n) in VideoRowsFrom(videos, k)
    decreases n - k
  {
    var id := VideoId(videos[k].uri);
    var head: seq<VideoRow> := if id == "" then [] else [VideoRow(id, videos[k].title, k)];
    assert VideoRowsFrom(videos, k) == head + VideoRowsFrom(videos, k + 1);
    if n > k {
      VideoRowsComplete(videos, k + 1, n);
    }
  }

  /** `save_videos`: walks the list with its index, skipping videos without an id. */
  method SaveVideos(videos: seq<VideoRef>) returns (rows: seq<VideoRow>)
    ensures rows == VideoRowsFrom(videos, 0)
  {
    rows := [];
    var index := 0;
    while index < |videos|
      invariant 0 <= index <= |videos|
      invariant rows + VideoRowsFrom(videos, index) == VideoRowsFrom(videos, 0)
    {
      var id := VideoId(videos[index].uri);
      if id != "" {
        rows := rows + [VideoRow(id, videos[index].title, index)];
      }
      index := index + 1;
    }
  }

  // ------------------------------------------------------------ listings

  /** A listing is available exactly when its status reads "For Sale". */
  function IsAvailable(status: string): (b: bool)
    ensures b <==> status == "For Sale"
  {
    status == "For Sale"
  }

  /** The comparison is exact: other statuses and other spellings are unavailable. */
  lemma AvailabilityExamples()
    ensures IsAvailable("For Sale") && !IsAvailable("Sold") && !IsAvailable("for sale")
  {
    assert "for sale"[0] != "For Sale"[0];
  }
}
