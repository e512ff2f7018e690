/**
 * The collection filters of src/hooks/useAlbumFilters.ts: the filter record
 * and its defaults, the predicate every shown album satisfies, the sort
 * comparator and its direction, the option lists offered to the user, and
 * the active-filter counter. The clock enters as `weekAgo` (the instant seven
 * days before now) and `currentYear`.
 */
module AlbumFilters {
  import opened Maybe
  import opened Catalog
  import opened Text
  import Sorting

  datatype SortField = Added | Year | Price | Rating | Artist | Title | Want
  datatype SortDirection = Asc | Desc

  datatype FilterState = FilterState(
    search: string,
    genres: seq<string>,
    styles: seq<string>,
    yearRange: (Option<int>, Option<int>),
    priceRange: (Option<real>, Option<real>),
    minRating: Option<real>,
    countries: seq<string>,
    conditions: seq<string>,
    hasAudio: Option<bool>,
    hasBeenPlayed: Option<bool>,
    hasLikedTracks: Option<bool>,
    isNew: Option<bool>,
    sortField: SortField,
    sortDirection: SortDirection)

  /** `defaultFilters`: nothing selected, newest first. */
  function DefaultFilters(): (f: FilterState)
    ensures f.search == "" && f.genres == [] && f.styles == [] && f.countries == [] && f.conditions == []
    ensures f.yearRange == (None, None) && f.priceRange == (None, None) && f.minRating == None
    ensures f.hasAudio == None && f.hasBeenPlayed == None && f.hasLikedTracks == None && f.isNew == None
    ensures f.sortField == Added && f.sortDirection == Desc
  {
    FilterState("", [], [], (None, None), (None, None), None, [], [], None, None, None, None, Added, Desc)
  }

  /** `resetFilters`. */
  function ResetFilters(f: FilterState): (r: FilterState)
    ensures r == DefaultFilters()
  {
    DefaultFilters()
  }

  /** `toggleSortDirection`: flips the direction and nothing else. */
  function ToggleSortDirection(f: FilterState): (r: FilterState)
    ensures r.sortDirection != f.sortDirection
    ensures r.(sortDirection := f.sortDirection) == f
  {
    f.(sortDirection := if f.sortDirection == Asc then Desc else Asc)
  }

  lemma ToggleTwice(f: FilterState)
    ensures ToggleSortDirection(ToggleSortDirection(f)) == f
  {
  }

  // ------------------------------------------------------- condition codes

  /** First index at or after `k` holding `c`, or -1. */
  function FindChar(s: string, c: char, k: nat): (r: int)
    requires k <= |s|
    ensures r == -1 <==> forall i :: k <= i < |s| ==> s[i] != c
    ensures r != -1 ==> k <= r < |s| && s[r] == c && forall i :: k <= i < r ==> s[i] != c
    decreases |s| - k
  {
    if k == |s| then -1 else if s[k] == c then k else FindChar(s, c, k + 1)
  }

  /**
   * `/\(([^)]+)\)/` matches at `p` with its closing ')' at `q`: a '(' at `p`,
   * the first ')' after it at `q`, and at least one character in between.
   */
  predicate Enclosed(s: string, p: int, q: int) {
    0 <= p && p + 1 < q < |s| && s[p] == '(' && s[q] == ')' && forall i :: p < i < q ==> s[i] != ')'
  }

  /** No match of `/\(([^)]+)\)/` starts at or after `k`. */
  ghost predicate NoCodeFrom(s: string, k: int) {
    forall p, q :: k <= p ==> !Enclosed(s, p, q)
  }

  /** `v` is the capture of the leftmost match at or after `k`, which starts at `p`. */
  ghost predicate LeftmostCode(s: string, k: int, p: int, v: string) {
    k <= p && Enclosed(s, p, p + 1 + |v|) && v == s[p + 1..p + 1 + |v|]
    && forall p', q :: k <= p' < p ==> !Enclosed(s, p', q)
  }

  /**
   * The capture of `/\(([^)]+)\)/` searched from position `k`: at the leftmost
   * '(' whose first following ')' leaves at least one character in between.
   */
  function CodeFrom(s: string, k: nat): (r: Option<string>)
    requires k <= |s|
    ensures r.Some? ==> r.value != "" && forall i :: 0 <= i < |r.value| ==> r.value[i] != ')'
    ensures r.Some? ==> exists p :: k <= p && p + |r.value| + 1 < |s| && s[p] == '('
                                    && s[p + 1..p + 1 + |r.value|] == r.value && s[p + 1 + |r.value|] == ')'
    decreases |s| - k
  {
    if k == |s| then None
    else if s[k] != '(' then CodeFrom(s, k + 1)
    else
      var q := FindChar(s, ')', k + 1);
      if q == -1 then None
      else if q > k + 1 then
        assert s[k + 1..k + 1 + |s[k + 1..q]|] == s[k + 1..q];
        Some(s[k + 1..q])
      else CodeFrom(s, k + 1)
  }

  /**
   * The search finds a code exactly when the regular expression matches at or
   * after `k`, and then it is the capture of the leftmost match.
   */
  lemma {:induction false} CodeFromMeaning(s: string, k: nat)
    requires k <= |s|
    ensures CodeFrom(s, k).None? <==> NoCodeFrom(s, k)
    ensures CodeFrom(s, k).Some? ==> exists p :: LeftmostCode(s, k, p, CodeFrom(s, k).value)
    decreases |s| - k
  {
    if k < |s| {
      var q := FindChar(s, ')', k + 1);
      if s[k] != '(' || (q != -1 && q <= k + 1) {
        assert CodeFrom(s, k) == CodeFrom(s, k + 1);
        NoMatchAt(s, k);
        CodeFromMeaning(s, k + 1);
        SkipPosition(s, k);
        if CodeFrom(s, k + 1).Some? {
          var p :| LeftmostCode(s, k + 1, p, CodeFrom(s, k + 1).value);
          assert LeftmostCode(s, k, p, CodeFrom(s, k).value);
        }
      } else if q == -1 {
        assert CodeFrom(s, k) == None;
        NoCloseNoCode(s, k);
      } else {
        assert CodeFrom(s, k) == Some(s[k + 1..q]);
        MatchAt(s, k, q);
        assert !NoCodeFrom(s, k) by { assert Enclosed(s, k, q); }
      }
    }
  }

  /** No match starts at `k` when `k` holds no '(' or a ')' follows it directly. */
  lemma NoMatchAt(s: string, k: nat)
    requires k < |s| && (s[k] != '(' || (k + 1 < |s| && s[k + 1] == ')'))
    ensures forall q :: !Enclosed(s, k, q)
  {
  }

  /** Where no match starts at `k`, searching from `k` is searching from `k + 1`. */
  lemma SkipPosition(s: string, k: nat)
    requires forall q :: !Enclosed(s, k, q)
    ensures NoCodeFrom(s, k) <==> NoCodeFrom(s, k + 1)
    ensures forall p, v :: LeftmostCode(s, k + 1, p, v) ==> LeftmostCode(s, k, p, v)
  {
  }

  /** Without a ')' after `k`, no match starts at or after `k`. */
  lemma NoCloseNoCode(s: string, k: nat)
    requires k < |s| && FindChar(s, ')', k + 1) == -1
    ensures NoCodeFrom(s, k)
  {
    forall p, q | k <= p ensures !Enclosed(s, p, q) {
    }
  }

  /** A '(' at `k` whose first following ')' is at `q > k + 1` is the leftmost match from `k`. */
  lemma MatchAt(s: string, k: nat, q: int)
    requires k < |s| && s[k] == '(' && q == FindChar(s, ')', k + 1) && q > k + 1
    ensures LeftmostCode(s, k, k, s[k + 1..q])
  {
    var v := s[k + 1..q];
    assert k + 1 + |v| == q;
  }

  /** The short condition code of a seller condition, "Very Good Plus (VG+)" giving "VG+". */
  function ConditionCode(s: string): (r: Option<string>)
    ensures r.None? <==> NoCodeFrom(s, 0)
    ensures r.Some? ==> exists p :: LeftmostCode(s, 0, p, r.value)
  {
    CodeFromMeaning(s, 0);
    CodeFrom(s, 0)
  }

  /** "(VG)" gives "VG"; empty parentheses are passed over; no parentheses, no code. */
  lemma ConditionCodeExamples()
    ensures ConditionCode("(VG)") == Some("VG")
    ensures ConditionCode("()(M)") == Some("M")
    ensures ConditionCode("VG") == None
  {
    assert FindChar("(VG)", ')', 1) == 3;
    assert "(VG)"[1..3] == "VG";
    assert CodeFrom("(VG)", 0) == Some("VG");
    assert FindChar("()(M)", ')', 1) == 1;
    assert FindChar("()(M)", ')', 3) == 4;
    assert "()(M)"[3..4] == "M";
    assert CodeFrom("()(M)", 2) == Some("M");
    assert CodeFrom("()(M)", 1) == CodeFrom("()(M)", 2);
    assert CodeFrom("VG", 2) == None;
    assert CodeFrom("VG", 1) == None;
    assert CodeFrom("VG", 0) == None;
  }

  /** The condition codes of an album's listings, in listing order, absent ones dropped. */
  function ConditionValues(items: seq<CollectionItem>): (r: seq<string>)
    ensures forall x :: x in r <==> exists i :: 0 <= i < |items| && items[i].sellerCondition.Some?
                                              && ConditionCode(items[i].sellerCondition.value) == Some(x)
  {
    if items == [] then []
    else
      var rest := ConditionValues(items[1..]);
      var c := items[0].sellerCondition;
      assert forall i :: 1 <= i < |items| ==> items[i] == items[1..][i - 1];
      if c.Some? && ConditionCode(c.value).Some? then [ConditionCode(c.value).value] + rest else rest
  }

  // ------------------------------------------------------------- criteria

  /** Some wanted value is among `have`. */
  predicate AnyShared(wanted: seq<string>, have: seq<string>) {
    exists i :: 0 <= i < |wanted| && wanted[i] in have
  }

  predicate HasPlayed(album: Album) {
    exists i :: 0 <= i < |album.userInteractions| && album.userInteractions[i].kind == Played
  }

  /** A liked interaction that names a track (`video_index` present). */
  predicate HasLikedTrack(album: Album) {
    exists i :: 0 <= i < |album.userInteractions|
                && album.userInteractions[i].kind == Liked && album.userInteractions[i].videoIndex.Some?
  }

  /** A tri-state filter: off, or the property must match. */
  predicate TriState(flag: Option<bool>, holds: bool) {
    flag.None? || flag.value == holds
  }

  predicate SearchMatches(album: Album, f: FilterState) {
    var q := Lower(f.search);
    f.search == ""
    || Contains(Lower(album.artist), q) || Contains(Lower(album.title), q)
    || Contains(Lower(album.recordLabel), q) || Contains(Lower(album.catalogNumber), q)
  }

  predicate GenresMatch(album: Album, f: FilterState) {
    f.genres == [] || AnyShared(f.genres, album.genres)
  }

  /** An album without styles fails an active style filter. */
  predicate StylesMatch(album: Album, f: FilterState) {
    f.styles == [] || (album.styles.Some? && AnyShared(f.styles, album.styles.value))
  }

  /** A bound is applied only when both it and the album's year are present. */
  predicate YearInRange(album: Album, f: FilterState) {
    (f.yearRange.0.Some? && album.releasedYear.Some? ==> album.releasedYear.value >= f.yearRange.0.value)
    && (f.yearRange.1.Some? && album.releasedYear.Some? ==> album.releasedYear.value <= f.yearRange.1.value)
  }

  predicate PriceInRange(album: Album, f: FilterState) {
    (f.priceRange.0.Some? && album.priceMedian.Some? ==> album.priceMedian.value >= f.priceRange.0.value)
    && (f.priceRange.1.Some? && album.priceMedian.Some? ==> album.priceMedian.value <= f.priceRange.1.value)
  }

  predicate RatingAtLeast(album: Album, f: FilterState) {
    f.minRating.Some? ==> album.avgRating >= f.minRating.value
  }

  predicate CountryMatches(album: Album, f: FilterState) {
    f.countries == [] || album.country in f.countries
  }

  predicate ConditionMatches(album: Album, f: FilterState) {
    f.conditions == [] || AnyShared(f.conditions, ConditionValues(album.collectionItems))
  }

  /** "New" keeps albums added at or after `weekAgo`; `false` does not filter. */
  predicate NewMatches(album: Album, f: FilterState, weekAgo: int) {
    f.isNew == Some(true) ==> album.createdAt >= weekAgo
  }

  /** The filter callback of `filteredAlbums`: every criterion holds. */
  predicate Passes(album: Album, f: FilterState, weekAgo: int) {
    SearchMatches(album, f) && GenresMatch(album, f) && StylesMatch(album, f)
    && YearInRange(album, f) && PriceInRange(album, f) && RatingAtLeast(album, f)
    && CountryMatches(album, f) && ConditionMatches(album, f)
    && TriState(f.hasAudio, |album.youtubeVideos| > 0)
    && TriState(f.hasBeenPlayed, HasPlayed(album))
    && TriState(f.hasLikedTracks, HasLikedTrack(album))
    && NewMatches(album, f, weekAgo)
  }

  /** `Array.prototype.filter`: the elements `keep` accepts, in their order. */
  function Keep<T(!new)>(s: seq<T>, keep: T -> bool): (r: seq<T>)
    ensures |r| <= |s|
    ensures forall x :: x in r <==> x in s && keep(x)
    ensures (forall i :: 0 <= i < |s| ==> keep(s[i])) ==> r == s
    ensures multiset(r) <= multiset(s)
  {
    if s == [] then []
    else
      var rest := Keep(s[1..], keep);
      assert s == [s[0]] + s[1..];
      if keep(s[0]) then [s[0]] + rest else rest
  }

  /** Filtering a concatenation filters each part and keeps them in order. */
  lemma {:induction false} KeepAppend<T(!new)>(a: seq<T>, b: seq<T>, keep: T -> bool)
    ensures Keep(a + b, keep) == Keep(a, keep) + Keep(b, keep)
    decreases |a|
  {
    if a != [] {
      var ab := a + b;
      var head := if keep(a[0]) then [a[0]] else [];
      assert ab[0] == a[0] && ab[1..] == a[1..] + b;
      KeepAppend(a[1..], b, keep);
      assert Keep(ab, keep) == head + Keep(a[1..] + b, keep);
      assert Keep(a, keep) == head + Keep(a[1..], keep);
    } else {
      assert a + b == b;
    }
  }

  /** `albums.filter(...)`: exactly the passing albums, in their order. */
  function Filtered(albums: seq<Album>, f: FilterState, weekAgo: int): (r: seq<Album>)
    ensures |r| <= |albums|
    ensures forall a :: a in r <==> a in albums && Passes(a, f, weekAgo)
    ensures (forall i :: 0 <= i < |albums| ==> Passes(albums[i], f, weekAgo)) ==> r == albums
    ensures multiset(r) <= multiset(albums)
  {
    Keep(albums, a => Passes(a, f, weekAgo))
  }

  /**
   * The filter keeps input order: filtering a concatenation is filtering each
   * part, so a passing album is kept where it stood and a failing one dropped.
   */
  lemma FilteredAppend(a: seq<Album>, b: seq<Album>, f: FilterState, weekAgo: int)
    ensures Filtered(a + b, f, weekAgo) == Filtered(a, f, weekAgo) + Filtered(b, f, weekAgo)
    ensures Filtered([], f, weekAgo) == []
    ensures forall x :: Filtered([x], f, weekAgo) == if Passes(x, f, weekAgo) then [x] else []
  {
    KeepAppend(a, b, x => Passes(x, f, weekAgo));
  }

  // ----------------------------------------------------------- comparator

  function OrZero(x: Option<int>): int { if x.Some? then x.value else 0 }
  function RealOrZero(x: Option<real>): real { if x.Some? then x.value else 0.0 }

  /**
   * The ascending comparison for a sort field: numeric differences with
   * absent values as 0, and an ordinal string comparison for artist and title.
   */
  function Comparison(field: SortField, a: Album, b: Album): real {
    match field
    case Added => (a.createdAt - b.createdAt) as real
    case Year => (OrZero(a.releasedYear) - OrZero(b.releasedYear)) as real
    case Price => RealOrZero(a.priceMedian) - RealOrZero(b.priceMedian)
    case Rating => a.avgRating - b.avgRating
    case Artist => Compare(a.artist, b.artist) as real
    case Title => Compare(a.title, b.title) as real
    case Want => (a.wantCount - b.wantCount) as real
  }

  /** The sort callback: the field's comparison, negated for descending order. */
  function AlbumCmp(f: FilterState): (Album, Album) -> real {
    (a: Album, b: Album) => if f.sortDirection == Asc then Comparison(f.sortField, a, b)
                            else -Comparison(f.sortField, a, b)
  }

  lemma ComparisonAntisymmetric(field: SortField, a: Album, b: Album)
    ensures Comparison(field, a, b) == -Comparison(field, b, a)
  {
    CompareAntisymmetric(a.artist, b.artist);
    CompareAntisymmetric(a.title, b.title);
  }

  lemma AlbumCmpAntisymmetric(f: FilterState)
    ensures Sorting.Antisymmetric(AlbumCmp(f))
  {
    forall a: Album, b: Album ensures AlbumCmp(f)(a, b) == -AlbumCmp(f)(b, a) {
      ComparisonAntisymmetric(f.sortField, a, b);
    }
  }

  /** The two directions of one field differ exactly in the comparison's sign. */
  lemma DirectionFlipsSign(f: FilterState, a: Album, b: Album)
    ensures AlbumCmp(f.(sortDirection := Desc))(a, b) == -AlbumCmp(f.(sortDirection := Asc))(a, b)
    ensures AlbumCmp(ToggleSortDirection(f))(a, b) == -AlbumCmp(f)(a, b)
  {
  }

  /** `filteredAlbums`: the passing albums, sorted by the comparator. */
  function FilteredAlbums(albums: seq<Album>, f: FilterState, weekAgo: int): seq<Album> {
    Sorting.Sort(Filtered(albums, f, weekAgo), AlbumCmp(f))
  }

  /**
   * Every shown album is one of `albums` and satisfies every criterion; no
   * more albums are shown than exist; each is shown in comparator order.
   */
  lemma FilteredAlbumsSound(albums: seq<Album>, f: FilterState, weekAgo: int)
    ensures var r := FilteredAlbums(albums, f, weekAgo);
            |r| <= |albums|
            && (forall a :: a in r <==> a in albums && Passes(a, f, weekAgo))
            && Sorting.Ordered(r, AlbumCmp(f))
  {
    var r := FilteredAlbums(albums, f, weekAgo);
    forall a ensures a in r <==> a in albums && Passes(a, f, weekAgo) {
      Sorting.SortSameMembers(Filtered(albums, f, weekAgo), AlbumCmp(f), a);
    }
    AlbumCmpAntisymmetric(f);
    Sorting.SortOrdered(Filtered(albums, f, weekAgo), AlbumCmp(f));
  }

  /** Under the default filters every album passes, so the result is a permutation of `albums`. */
  lemma DefaultFiltersKeepAll(albums: seq<Album>, weekAgo: int)
    ensures multiset(FilteredAlbums(albums, DefaultFilters(), weekAgo)) == multiset(albums)
  {
    NoActiveFilterPasses(albums, DefaultFilters(), weekAgo);
  }

  /** Albums without a year or without a median price are never cut by the range bounds. */
  lemma AbsentValuesInRange(album: Album, f: FilterState)
    ensures album.releasedYear.None? ==> YearInRange(album, f)
    ensures album.priceMedian.None? ==> PriceInRange(album, f)
  {
  }

  /** A tri-state filter set to true keeps only albums with the property, false only those without. */
  lemma TriStateMeaning(album: Album, f: FilterState, weekAgo: int)
    requires Passes(album, f, weekAgo)
    ensures f.hasAudio == Some(true) ==> |album.youtubeVideos| > 0
    ensures f.hasAudio == Some(false) ==> album.youtubeVideos == []
    ensures f.hasBeenPlayed == Some(true) ==> HasPlayed(album)
    ensures f.hasBeenPlayed == Some(false) ==> forall i :: 0 <= i < |album.userInteractions| ==> album.userInteractions[i].kind != Played
    ensures f.hasLikedTracks == Some(false) ==>
              forall i :: 0 <= i < |album.userInteractions| && album.userInteractions[i].kind == Liked ==>
                            album.userInteractions[i].videoIndex.None?
  {
  }

  // --------------------------------------------------------- active count

  datatype Criterion =
    | SearchCriterion | GenresCriterion | StylesCriterion | YearCriterion | PriceCriterion | RatingCriterion
    | CountriesCriterion | ConditionsCriterion | AudioCriterion | PlayedCriterion | LikedCriterion | NewCriterion

  /** The criterion is switched on in the record. */
  predicate IsActive(f: FilterState, c: Criterion) {
    match c
    case SearchCriterion => f.search != ""
    case GenresCriterion => |f.genres| > 0
    case StylesCriterion => |f.styles| > 0
    case YearCriterion => f.yearRange.0.Some? || f.yearRange.1.Some?
    case PriceCriterion => f.priceRange.0.Some? || f.priceRange.1.Some?
    case RatingCriterion => f.minRating.Some?
    case CountriesCriterion => |f.countries| > 0
    case ConditionsCriterion => |f.conditions| > 0
    case AudioCriterion => f.hasAudio.Some?
    case PlayedCriterion => f.hasBeenPlayed.Some?
    case LikedCriterion => f.hasLikedTracks.Some?
    case NewCriterion => f.isNew.Some?
  }

  function IfActive(f: FilterState, c: Criterion): seq<Criterion> {
    if IsActive(f, c) then [c] else []
  }

  /** The position of a criterion in the counter's order. */
  function Rank(c: Criterion): nat {
    match c
    case SearchCriterion => 0
    case GenresCriterion => 1
    case StylesCriterion => 2
    case YearCriterion => 3
    case PriceCriterion => 4
    case RatingCriterion => 5
    case CountriesCriterion => 6
    case ConditionsCriterion => 7
    case AudioCriterion => 8
    case PlayedCriterion => 9
    case LikedCriterion => 10
    case NewCriterion => 11
  }

  /** The number of criteria the counter tests. */
  const CriteriaCount: nat := 12

  /** The criterion the counter tests at position `i`. */
  function CriterionAt(i: nat): (c: Criterion)
    requires i < CriteriaCount
    ensures Rank(c) == i
  {
    if i == 0 then SearchCriterion else if i == 1 then GenresCriterion
    else if i == 2 then StylesCriterion else if i == 3 then YearCriterion
    else if i == 4 then PriceCriterion else if i == 5 then RatingCriterion
    else if i == 6 then CountriesCriterion else if i == 7 then ConditionsCriterion
    else if i == 8 then AudioCriterion else if i == 9 then PlayedCriterion
    else if i == 10 then LikedCriterion else NewCriterion
  }

  /** The switched-on criteria from position `i` on, in the order the counter tests them. */
  function ActiveFrom(f: FilterState, i: nat): seq<Criterion>
    decreases CriteriaCount - i
  {
    if i >= CriteriaCount then [] else IfActive(f, CriterionAt(i)) + ActiveFrom(f, i + 1)
  }

  /** The switched-on criteria, in the order the counter tests them. */
  function ActiveCriteria(f: FilterState): seq<Criterion> {
    ActiveFrom(f, 0)
  }

  /** From position `i` on, a criterion is listed exactly when it comes at or after `i` and is switched on. */
  lemma {:induction false} ActiveFromMeaning(f: FilterState, i: nat, c: Criterion)
    ensures c in ActiveFrom(f, i) <==> i <= Rank(c) && IsActive(f, c)
    decreases CriteriaCount - i
  {
    if i < CriteriaCount {
      ActiveFromMeaning(f, i + 1, c);
      var at := CriterionAt(i);
      assert ActiveFrom(f, i) == IfActive(f, at) + ActiveFrom(f, i + 1);
      if Rank(c) == i {
        CriterionAtRank(c);
      }
      IfActiveHas(f, at, c);
    }
  }

  /** The one-line test lists `c` exactly when it tests `c` and `c` is switched on. */
  lemma IfActiveHas(f: FilterState, at: Criterion, c: Criterion)
    ensures c in IfActive(f, at) <==> at == c && IsActive(f, c)
  {
  }

  /** Each criterion is the one tested at its own position. */
  lemma CriterionAtRank(c: Criterion)
    ensures CriterionAt(Rank(c)) == c
  {
    match c
    case SearchCriterion =>
    case GenresCriterion =>
    case StylesCriterion =>
    case YearCriterion =>
    case PriceCriterion =>
    case RatingCriterion =>
    case CountriesCriterion =>
    case ConditionsCriterion =>
    case AudioCriterion =>
    case PlayedCriterion =>
    case LikedCriterion =>
    case NewCriterion =>
  }

  /** A criterion is listed exactly when it is switched on. */
  lemma ActiveCriteriaMeaning(f: FilterState, c: Criterion)
    ensures c in ActiveCriteria(f) <==> IsActive(f, c)
  {
    ActiveFromMeaning(f, 0, c);
  }

  /** From position `i` on, at most one criterion per remaining position. */
  lemma {:induction false} ActiveFromBound(f: FilterState, i: nat)
    requires i <= CriteriaCount
    ensures |ActiveFrom(f, i)| <= CriteriaCount - i
    decreases CriteriaCount - i
  {
    if i < CriteriaCount {
      ActiveFromBound(f, i + 1);
    }
  }

  /** One `if (<criterion switched on>) count++` line of the counter, testing the criterion at position `i`. */
  method CountIf(count: nat, f: FilterState, i: nat) returns (r: nat)
    requires i < CriteriaCount
    ensures r == count + |IfActive(f, CriterionAt(i))|
  {
    r := count;
    if IsActive(f, CriterionAt(i)) {
      r := r + 1;
    }
  }

  /** `activeFilterCount`: one increment per switched-on criterion. */
  method ActiveFilterCount(f: FilterState) returns (count: nat)
    ensures count == |ActiveCriteria(f)|
  {
    count := 0;
    count := CountIf(count, f, 0);
    count := CountIf(count, f, 1);
    count := CountIf(count, f, 2);
    count := CountIf(count, f, 3);
    count := CountIf(count, f, 4);
    count := CountIf(count, f, 5);
    count := CountIf(count, f, 6);
    count := CountIf(count, f, 7);
    count := CountIf(count, f, 8);
    count := CountIf(count, f, 9);
    count := CountIf(count, f, 10);
    count := CountIf(count, f, 11);
  }

  /** The count lies in 0..12 and is 0 after a reset. */
  lemma ActiveCountBounds(f: FilterState)
    ensures |ActiveCriteria(f)| <= 12
    ensures ActiveCriteria(ResetFilters(f)) == []
  {
    ActiveFromBound(f, 0);
  }

  /** With no criterion switched on, an album passes every test. */
  lemma InactivePasses(a: Album, f: FilterState, weekAgo: int)
    requires forall c :: !IsActive(f, c)
    ensures Passes(a, f, weekAgo)
  {
    assert !IsActive(f, SearchCriterion) && !IsActive(f, GenresCriterion) && !IsActive(f, StylesCriterion);
    assert !IsActive(f, YearCriterion) && !IsActive(f, PriceCriterion) && !IsActive(f, RatingCriterion);
    assert !IsActive(f, CountriesCriterion) && !IsActive(f, ConditionsCriterion) && !IsActive(f, AudioCriterion);
    assert !IsActive(f, PlayedCriterion) && !IsActive(f, LikedCriterion) && !IsActive(f, NewCriterion);
  }

  /** With no criterion active, every album passes. */
  lemma NoActiveFilterPasses(albums: seq<Album>, f: FilterState, weekAgo: int)
    requires ActiveCriteria(f) == []
    ensures Filtered(albums, f, weekAgo) == albums
    ensures multiset(FilteredAlbums(albums, f, weekAgo)) == multiset(albums)
  {
    forall c ensures !IsActive(f, c) {
      ActiveCriteriaMeaning(f, c);
    }
    forall i | 0 <= i < |albums| ensures Passes(albums[i], f, weekAgo) {
      InactivePasses(albums[i], f, weekAgo);
    }
  }

  // -------------------------------------------------------------- options

  datatype FilterOptions = FilterOptions(
    genres: seq<string>,
    styles: seq<string>,
    countries: seq<string>,
    conditions: seq<string>,
    yearMin: int,
    yearMax: int,
    priceMin: int,
    priceMax: int)

  /** `set.add(x)` on an insertion-ordered set. */
  function AddUnique(acc: seq<string>, x: string): seq<string> {
    if x in acc then acc else acc + [x]
  }

  /** `xs.forEach(x => set.add(x))`. */
  function AddAll(acc: seq<string>, xs: seq<string>): seq<string> {
    if xs == [] then acc else AddUnique(AddAll(acc, xs[..|xs| - 1]), xs[|xs| - 1])
  }

  /** Adding to a set holds the old members and the added ones, each once. */
  lemma {:induction false} AddAllMeaning(acc: seq<string>, xs: seq<string>)
    ensures forall y :: y in AddAll(acc, xs) <==> y in acc || y in xs
    ensures Distinct(acc) ==> Distinct(AddAll(acc, xs))
    decreases |xs|
  {
    if xs != [] {
      AddAllMeaning(acc, xs[..|xs| - 1]);
      assert xs == xs[..|xs| - 1] + [xs[|xs| - 1]];
    }
  }

  predicate Distinct(s: seq<string>) {
    forall i, j :: 0 <= i < j < |s| ==> s[i] != s[j]
  }

  /** The values of every album, de-duplicated in first-seen order. */
  function Collect(albums: seq<Album>, values: Album -> seq<string>): seq<string> {
    if albums == [] then [] else AddAll(Collect(albums[..|albums| - 1], values), values(albums[|albums| - 1]))
  }

  /** The collected values are exactly those of some album, each once. */
  lemma {:induction false} CollectMeaning(albums: seq<Album>, values: Album -> seq<string>)
    ensures Distinct(Collect(albums, values))
    ensures forall y :: y in Collect(albums, values) <==> exists i :: 0 <= i < |albums| && y in values(albums[i])
    decreases |albums|
  {
    if albums != [] {
      var n := |albums| - 1;
      CollectMeaning(albums[..n], values);
      AddAllMeaning(Collect(albums[..n], values), values(albums[n]));
      assert forall i :: 0 <= i < n ==> albums[..n][i] == albums[i];
    }
  }

  function GenresOf(album: Album): seq<string> { album.genres }
  function StylesOf(album: Album): seq<string> { if album.styles.Some? then album.styles.value else [] }
  function CountriesOf(album: Album): seq<string> { if album.country != "" then [album.country] else [] }
  function ConditionsOf(album: Album): seq<string> { ConditionValues(album.collectionItems) }

  /** `if (album.released_year)`: present and non-zero. */
  predicate HasYear(album: Album) {
    album.releasedYear.Some? && album.releasedYear.value != 0
  }

  /** The least non-zero year (absent where the source keeps its `Infinity` start). */
  function YearLow(albums: seq<Album>): Option<int> {
    if albums == [] then None
    else
      var lo := YearLow(albums[..|albums| - 1]);
      var a := albums[|albums| - 1];
      if !HasYear(a) then lo
      else Some(if lo.None? || a.releasedYear.value < lo.value then a.releasedYear.value else lo.value)
  }

  /** The greatest non-zero year. */
  function YearHigh(albums: seq<Album>): Option<int> {
    if albums == [] then None
    else
      var hi := YearHigh(albums[..|albums| - 1]);
      var a := albums[|albums| - 1];
      if !HasYear(a) then hi
      else Some(if hi.None? || a.releasedYear.value > hi.value then a.releasedYear.value else hi.value)
  }

  /** The least median price. */
  function PriceLow(albums: seq<Album>): Option<real> {
    if albums == [] then None
    else
      var lo := PriceLow(albums[..|albums| - 1]);
      var a := albums[|albums| - 1];
      if a.priceMedian.None? then lo
      else Some(if lo.None? || a.priceMedian.value < lo.value then a.priceMedian.value else lo.value)
  }

  /** The greatest median price. */
  function PriceHigh(albums: seq<Album>): Option<real> {
    if albums == [] then None
    else
      var hi := PriceHigh(albums[..|albums| - 1]);
      var a := albums[|albums| - 1];
      if a.priceMedian.None? then hi
      else Some(if hi.None? || a.priceMedian.value > hi.value then a.priceMedian.value else hi.value)
  }

  /** The least year is absent exactly when no album has one, else some album's year below all others. */
  lemma {:induction false} YearLowMeaning(albums: seq<Album>)
    ensures YearLow(albums).None? <==> forall i :: 0 <= i < |albums| ==> !HasYear(albums[i])
    ensures YearLow(albums).Some? ==>
              (exists i :: 0 <= i < |albums| && albums[i].releasedYear == YearLow(albums))
              && forall i :: 0 <= i < |albums| && HasYear(albums[i]) ==> YearLow(albums).value <= albums[i].releasedYear.value
    decreases |albums|
  {
    if albums != [] {
      var n := |albums| - 1;
      YearLowMeaning(albums[..n]);
      assert forall i :: 0 <= i < n ==> albums[..n][i] == albums[i];
      if YearLow(albums[..n]).Some? {
        var i :| 0 <= i < n && albums[..n][i].releasedYear == YearLow(albums[..n]);
      }
    }
  }

  lemma {:induction false} YearHighMeaning(albums: seq<Album>)
    ensures YearHigh(albums).None? <==> forall i :: 0 <= i < |albums| ==> !HasYear(albums[i])
    ensures YearHigh(albums).Some? ==>
              (exists i :: 0 <= i < |albums| && albums[i].releasedYear == YearHigh(albums))
              && forall i :: 0 <= i < |albums| && HasYear(albums[i]) ==> YearHigh(albums).value >= albums[i].releasedYear.value
    decreases |albums|
  {
    if albums != [] {
      var n := |albums| - 1;
      YearHighMeaning(albums[..n]);
      assert forall i :: 0 <= i < n ==> albums[..n][i] == albums[i];
      if YearHigh(albums[..n]).Some? {
        var i :| 0 <= i < n && albums[..n][i].releasedYear == YearHigh(albums[..n]);
      }
    }
  }

  lemma {:induction false} PriceLowMeaning(albums: seq<Album>)
    ensures PriceLow(albums).None? <==> forall i :: 0 <= i < |albums| ==> albums[i].priceMedian.None?
    ensures PriceLow(albums).Some? ==>
              (exists i :: 0 <= i < |albums| && albums[i].priceMedian == PriceLow(albums))
              && forall i :: 0 <= i < |albums| && albums[i].priceMedian.Some? ==> PriceLow(albums).value <= albums[i].priceMedian.value
    decreases |albums|
  {
    if albums != [] {
      var n := |albums| - 1;
      PriceLowMeaning(albums[..n]);
      assert forall i :: 0 <= i < n ==> albums[..n][i] == albums[i];
      if PriceLow(albums[..n]).Some? {
        var i :| 0 <= i < n && albums[..n][i].priceMedian == PriceLow(albums[..n]);
      }
    }
  }

  lemma {:induction false} PriceHighMeaning(albums: seq<Album>)
    ensures PriceHigh(albums).None? <==> forall i :: 0 <= i < |albums| ==> albums[i].priceMedian.None?
    ensures PriceHigh(albums).Some? ==>
              (exists i :: 0 <= i < |albums| && albums[i].priceMedian == PriceHigh(albums))
              && forall i :: 0 <= i < |albums| && albums[i].priceMedian.Some? ==> PriceHigh(albums).value >= albums[i].priceMedian.value
    decreases |albums|
  {
    if albums != [] {
      var n := |albums| - 1;
      PriceHighMeaning(albums[..n]);
      assert forall i :: 0 <= i < n ==> albums[..n][i] == albums[i];
      if PriceHigh(albums[..n]).Some? {
        var i :| 0 <= i < n && albums[..n][i].priceMedian == PriceHigh(albums[..n]);
      }
    }
  }

  function StringCmp(a: string, b: string): real {
    Compare(a, b) as real
  }

  /** `Array.from(set).sort()`: the default sort compares strings by code unit. */
  function SortedStrings(s: seq<string>): seq<string> {
    Sorting.Sort(s, StringCmp)
  }

  function Ceil(x: real): int {
    -((-x).Floor)
  }

  /** What `filterOptions` evaluates to. */
  function FilterOptionsOf(albums: seq<Album>, currentYear: int): FilterOptions {
    var yl := YearLow(albums);
    var yh := YearHigh(albums);
    var pl := PriceLow(albums);
    var ph := PriceHigh(albums);
    FilterOptions(
      SortedStrings(Collect(albums, GenresOf)),
      SortedStrings(Collect(albums, StylesOf)),
      SortedStrings(Collect(albums, CountriesOf)),
      SortedStrings(Collect(albums, ConditionsOf)),
      if yl.None? then 1950 else yl.value,
      if yh.None? then currentYear else yh.value,
      if pl.None? then 0 else pl.value.Floor,
      if ph.None? then 100 else Ceil(ph.value))
  }

  /** How every accumulated value grows by one more album. */
  lemma PrefixStep(albums: seq<Album>, i: int)
    requires 0 <= i < |albums|
    ensures var p, q, a := albums[..i], albums[..i + 1], albums[i];
            Collect(q, GenresOf) == AddAll(Collect(p, GenresOf), GenresOf(a))
            && Collect(q, StylesOf) == AddAll(Collect(p, StylesOf), StylesOf(a))
            && Collect(q, CountriesOf) == AddAll(Collect(p, CountriesOf), CountriesOf(a))
            && Collect(q, ConditionsOf) == AddAll(Collect(p, ConditionsOf), ConditionsOf(a))
            && YearLow(q) == (if !HasYear(a) then YearLow(p) else
                 Some(if YearLow(p).None? || a.releasedYear.value < YearLow(p).value then a.releasedYear.value else YearLow(p).value))
            && YearHigh(q) == (if !HasYear(a) then YearHigh(p) else
                 Some(if YearHigh(p).None? || a.releasedYear.value > YearHigh(p).value then a.releasedYear.value else YearHigh(p).value))
            && PriceLow(q) == (if a.priceMedian.None? then PriceLow(p) else
                 Some(if PriceLow(p).None? || a.priceMedian.value < PriceLow(p).value then a.priceMedian.value else PriceLow(p).value))
            && PriceHigh(q) == (if a.priceMedian.None? then PriceHigh(p) else
                 Some(if PriceHigh(p).None? || a.priceMedian.value > PriceHigh(p).value then a.priceMedian.value else PriceHigh(p).value))
  {
    assert albums[..i + 1][..i] == albums[..i];
  }

  /** One `forEach(v => set.add(v))` pass. */
  method AddEach(acc: seq<string>, xs: seq<string>) returns (r: seq<string>)
    ensures r == AddAll(acc, xs)
  {
    r := acc;
    var j := 0;
    while j < |xs|
      invariant 0 <= j <= |xs|
      invariant r == AddAll(acc, xs[..j])
    {
      if xs[j] !in r {
        r := r + [xs[j]];
      }
      assert xs[..j + 1][..j] == xs[..j];
      j := j + 1;
    }
    assert xs[..|xs|] == xs;
  }

  /**
   * `filterOptions`: one pass over the albums adding to four sets and
   * keeping running extremes (absent where the source starts from ±Infinity).
   */
  method ComputeFilterOptions(albums: seq<Album>, currentYear: int) returns (o: FilterOptions)
    ensures o == FilterOptionsOf(albums, currentYear)
  {
    var genres: seq<string> := [];
    var styles: seq<string> := [];
    var countries: seq<string> := [];
    var conditions: seq<string> := [];
    var yearLo: Option<int> := None;
    var yearHi: Option<int> := None;
    var priceLo: Option<real> := None;
    var priceHi: Option<real> := None;
    var i := 0;
    while i < |albums|
      invariant 0 <= i <= |albums|
      invariant genres == Collect(albums[..i], GenresOf)
      invariant styles == Collect(albums[..i], StylesOf)
      invariant countries == Collect(albums[..i], CountriesOf)
      invariant conditions == Collect(albums[..i], ConditionsOf)
      invariant yearLo == YearLow(albums[..i]) && yearHi == YearHigh(albums[..i])
      invariant priceLo == PriceLow(albums[..i]) && priceHi == PriceHigh(albums[..i])
    {
      var album := albums[i];
      PrefixStep(albums, i);
      genres := AddEach(genres, album.genres);
      styles := AddEach(styles, StylesOf(album));
      if album.country != "" {
        if album.country !in countries {
          countries := countries + [album.country];
        }
        assert AddAll(Collect(albums[..i], CountriesOf), [album.country])
               == AddUnique(Collect(albums[..i], CountriesOf), album.country);
      }
      conditions := AddEach(conditions, ConditionValues(album.collectionItems));
      if HasYear(album) {
        var y := album.releasedYear.value;
        yearLo := Some(if yearLo.None? || y < yearLo.value then y else yearLo.value);
        yearHi := Some(if yearHi.None? || y > yearHi.value then y else yearHi.value);
      }
      if album.priceMedian.Some? {
        var p := album.priceMedian.value;
        priceLo := Some(if priceLo.None? || p < priceLo.value then p else priceLo.value);
        priceHi := Some(if priceHi.None? || p > priceHi.value then p else priceHi.value);
      }
      i := i + 1;
    }
    assert albums[..|albums|] == albums;
    o := FilterOptions(
      SortedStrings(genres), SortedStrings(styles), SortedStrings(countries), SortedStrings(conditions),
      if yearLo.None? then 1950 else yearLo.value,
      if yearHi.None? then currentYear else yearHi.value,
      if priceLo.None? then 0 else priceLo.value.Floor,
      if priceHi.None? then 100 else Ceil(priceHi.value));
  }

  /** Each element of a distinct sequence occurs once in its multiset. */
  lemma DistinctOnce(s: seq<string>, x: string)
    requires Distinct(s) && x in s
    ensures multiset(s)[x] == 1
    decreases |s|
  {
    var n := |s| - 1;
    assert s == s[..n] + [s[n]];
    assert Distinct(s[..n]);
    if s[n] == x {
      assert x !in s[..n];
    } else {
      assert x in s[..n];
      DistinctOnce(s[..n], x);
    }
  }

  /** Two equal elements at different positions count twice in the multiset. */
  lemma RepeatCountsTwice(s: seq<string>, i: int, j: int)
    requires 0 <= i < j < |s|
    ensures s[i] == s[j] ==> multiset(s)[s[i]] >= 2
  {
    assert s == s[..j] + s[j..];
    assert s[i] in multiset(s[..j]) && s[j] in multiset(s[j..]);
    assert multiset(s) == multiset(s[..j]) + multiset(s[j..]);
  }

  /** A sequence whose elements each occur once in its multiset is distinct. */
  lemma OnceDistinct(s: seq<string>)
    requires forall x :: x in s ==> multiset(s)[x] == 1
    ensures Distinct(s)
  {
    forall i, j | 0 <= i < j < |s| ensures s[i] != s[j] {
      RepeatCountsTwice(s, i, j);
    }
  }

  lemma StringCmpAntisymmetric()
    ensures Sorting.Antisymmetric(StringCmp)
  {
    forall a: string, b: string ensures StringCmp(a, b) == -StringCmp(b, a) {
      CompareAntisymmetric(a, b);
    }
  }

  /** A sorted option list holds the same values, each once, in strictly increasing order. */
  lemma SortedOptions(s: seq<string>)
    requires Distinct(s)
    ensures var r := SortedStrings(s);
            (forall y :: y in r <==> y in s)
            && forall i :: 0 <= i < |r| - 1 ==> Compare(r[i], r[i + 1]) < 0
  {
    var r := SortedStrings(s);
    forall y ensures y in r <==> y in s {
      Sorting.SortSameMembers(s, StringCmp, y);
    }
    forall y | y in r ensures multiset(r)[y] == 1 {
      DistinctOnce(s, y);
    }
    OnceDistinct(r);
    StringCmpAntisymmetric();
    Sorting.SortOrdered(s, StringCmp);
    forall i | 0 <= i < |r| - 1 ensures Compare(r[i], r[i + 1]) < 0 {
      assert StringCmp(r[i], r[i + 1]) <= 0.0;
      assert r[i] != r[i + 1];
    }
  }

  /** The genre options: every genre of some album, each once, in increasing order. */
  lemma GenreOptions(albums: seq<Album>, currentYear: int)
    ensures var o := FilterOptionsOf(albums, currentYear);
            (forall g :: g in o.genres <==> exists i :: 0 <= i < |albums| && g in albums[i].genres)
            && (forall i :: 0 <= i < |o.genres| - 1 ==> Compare(o.genres[i], o.genres[i + 1]) < 0)
  {
    CollectMeaning(albums, GenresOf);
    SortedOptions(Collect(albums, GenresOf));
  }

  /** The style options: every style of some album that lists styles, each once, in increasing order. */
  lemma StyleOptions(albums: seq<Album>, currentYear: int)
    ensures var o := FilterOptionsOf(albums, currentYear);
            (forall s :: s in o.styles <==> exists i :: 0 <= i < |albums| && albums[i].styles.Some? && s in albums[i].styles.value)
            && (forall i :: 0 <= i < |o.styles| - 1 ==> Compare(o.styles[i], o.styles[i + 1]) < 0)
  {
    CollectMeaning(albums, StylesOf);
    SortedOptions(Collect(albums, StylesOf));
    var o := FilterOptionsOf(albums, currentYear);
    forall s ensures s in o.styles <==> exists i :: 0 <= i < |albums| && albums[i].styles.Some? && s in albums[i].styles.value {
      if s in o.styles {
        var i :| 0 <= i < |albums| && s in StylesOf(albums[i]);
      }
      if exists i :: 0 <= i < |albums| && albums[i].styles.Some? && s in albums[i].styles.value {
        var i :| 0 <= i < |albums| && albums[i].styles.Some? && s in albums[i].styles.value;
        assert s in StylesOf(albums[i]);
      }
    }
  }

  /** The collected countries are the non-empty countries of the albums. */
  lemma CountriesCollected(albums: seq<Album>)
    ensures forall c :: c in Collect(albums, CountriesOf) <==> c != "" && exists i :: 0 <= i < |albums| && albums[i].country == c
  {
    CollectMeaning(albums, CountriesOf);
    forall c ensures c in Collect(albums, CountriesOf) <==> c != "" && exists i :: 0 <= i < |albums| && albums[i].country == c {
      if c in Collect(albums, CountriesOf) {
        var i :| 0 <= i < |albums| && c in CountriesOf(albums[i]);
      }
      if c != "" && exists i :: 0 <= i < |albums| && albums[i].country == c {
        var i :| 0 <= i < |albums| && albums[i].country == c;
        assert c in CountriesOf(albums[i]);
      }
    }
  }

  /** The country options: every non-empty country of some album, each once, in increasing order. */
  lemma CountryOptions(albums: seq<Album>, currentYear: int)
    ensures var o := FilterOptionsOf(albums, currentYear);
            (forall c :: c in o.countries <==> c != "" && exists i :: 0 <= i < |albums| && albums[i].country == c)
            && (forall i :: 0 <= i < |o.countries| - 1 ==> Compare(o.countries[i], o.countries[i + 1]) < 0)
  {
    var all := Collect(albums, CountriesOf);
    CountriesCollected(albums);
    CollectMeaning(albums, CountriesOf);
    SortedOptions(all);
  }

  /** The condition options: every condition code of some album's listings, each once, in increasing order. */
  lemma ConditionOptions(albums: seq<Album>, currentYear: int)
    ensures var o := FilterOptionsOf(albums, currentYear);
            (forall c :: c in o.conditions <==> exists i :: 0 <= i < |albums| && c in ConditionValues(albums[i].collectionItems))
            && (forall i :: 0 <= i < |o.conditions| - 1 ==> Compare(o.conditions[i], o.conditions[i + 1]) < 0)
  {
    CollectMeaning(albums, ConditionsOf);
    SortedOptions(Collect(albums, ConditionsOf));
  }

  /** The year and price bounds cover every album's value, with the defaults when no album has one. */
  lemma RangeOptions(albums: seq<Album>, currentYear: int)
    ensures var o := FilterOptionsOf(albums, currentYear);
            && ((forall i :: 0 <= i < |albums| ==> !HasYear(albums[i])) ==> o.yearMin == 1950 && o.yearMax == currentYear)
            && (forall i :: 0 <= i < |albums| && HasYear(albums[i]) ==>
                  o.yearMin <= albums[i].releasedYear.value <= o.yearMax)
            && ((forall i :: 0 <= i < |albums| ==> albums[i].priceMedian.None?) ==> o.priceMin == 0 && o.priceMax == 100)
            && (forall i :: 0 <= i < |albums| && albums[i].priceMedian.Some? ==>
                  o.priceMin as real <= albums[i].priceMedian.value <= o.priceMax as real)
  {
    YearLowMeaning(albums);
    YearHighMeaning(albums);
    PriceLowMeaning(albums);
    PriceHighMeaning(albums);
  }

  /**
   * The offered genres are exactly the genres of some album, each once and in
   * increasing order (likewise styles, countries and condition codes); the
   * year bounds are the least and greatest non-zero years, 1950 and the
   * current year when there are none; the price bounds enclose every median
   * price, 0 and 100 when there are none.
   */
  lemma FilterOptionsMeaning(albums: seq<Album>, currentYear: int)
    ensures var o := FilterOptionsOf(albums, currentYear);
            (forall g :: g in o.genres <==> exists i :: 0 <= i < |albums| && g in albums[i].genres)
            && (forall i :: 0 <= i < |o.genres| - 1 ==> Compare(o.genres[i], o.genres[i + 1]) < 0)
            && (forall s :: s in o.styles <==> exists i :: 0 <= i < |albums| && albums[i].styles.Some? && s in albums[i].styles.value)
            && (forall i :: 0 <= i < |o.styles| - 1 ==> Compare(o.styles[i], o.styles[i + 1]) < 0)
            && (forall c :: c in o.countries <==> c != "" && exists i :: 0 <= i < |albums| && albums[i].country == c)
            && (forall i :: 0 <= i < |o.countries| - 1 ==> Compare(o.countries[i], o.countries[i + 1]) < 0)
            && (forall c :: c in o.conditions <==> exists i :: 0 <= i < |albums| && c in ConditionValues(albums[i].collectionItems))
            && (forall i :: 0 <= i < |o.conditions| - 1 ==> Compare(o.conditions[i], o.conditions[i + 1]) < 0)
            && ((forall i :: 0 <= i < |albums| ==> !HasYear(albums[i])) ==> o.yearMin == 1950 && o.yearMax == currentYear)
            && (forall i :: 0 <= i < |albums| && HasYear(albums[i]) ==>
                  o.yearMin <= albums[i].releasedYear.value <= o.yearMax)
            && ((forall i :: 0 <= i < |albums| ==> albums[i].priceMedian.None?) ==> o.priceMin == 0 && o.priceMax == 100)
            && (forall i :: 0 <= i < |albums| && albums[i].priceMedian.Some? ==>
                  o.priceMin as real <= albums[i].priceMedian.value <= o.priceMax as real)
  {
    GenreOptions(albums, currentYear);
    StyleOptions(albums, currentYear);
    CountryOptions(albums, currentYear);
    ConditionOptions(albums, currentYear);
    RangeOptions(albums, currentYear);
  }
}
