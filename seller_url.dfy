/**
 * `extractSellerFromUrl` of src/services/scraper.ts: the seller name in a
 * Discogs URL path such as /seller/{name}/profile or /user/{name}/collection.
 * URL parsing itself belongs to the platform: the function receives the
 * parsed pathname, or nothing when the URL does not parse.
 */
module SellerUrl {
  import opened Maybe
  import opened Text

  /** `filter(Boolean)`: the non-empty strings, in order. */
  function NonEmpty(parts: seq<string>): (r: seq<string>)
    ensures |r| <= |parts|
    ensures forall i :: 0 <= i < |r| ==> |r[i]| > 0
    ensures forall x :: x in r <==> x in parts && |x| > 0
    ensures (forall i :: 0 <= i < |parts| ==> |parts[i]| > 0) ==> r == parts
  {
    if parts == [] then []
    else if parts[0] == "" then NonEmpty(parts[1..])
    else [parts[0]] + NonEmpty(parts[1..])
  }

  /** The path's segments: split at '/', empty pieces (from "//" or the ends) dropped. */
  function Segments(path: string): (r: seq<string>)
    ensures forall i :: 0 <= i < |r| ==> |r[i]| > 0 && !Contains(r[i], "/")
  {
    var pieces := Split(path, "/");
    assert forall x :: x in NonEmpty(pieces) ==> x in pieces;
    NonEmpty(pieces)
  }

  /** Segments that are non-empty and free of '/' come back from the path that joins them. */
  lemma SegmentsOfJoin(parts: seq<string>)
    requires |parts| >= 1
    requires forall i :: 0 <= i < |parts| ==> |parts[i]| > 0 && !Contains(parts[i], "/")
    ensures Segments(Join(parts, "/")) == parts
  {
    SplitJoin(parts, "/");
  }

  /** The same with the leading '/' a URL's `pathname` always has. */
  lemma SegmentsOfPathname(parts: seq<string>)
    requires |parts| >= 1
    requires forall i :: 0 <= i < |parts| ==> |parts[i]| > 0 && !Contains(parts[i], "/")
    ensures Segments("/" + Join(parts, "/")) == parts
  {
    var all := [""] + parts;
    assert all[1..] == parts;
    assert Join(all, "/") == "/" + Join(parts, "/");
    assert !Contains("", "/");
    SplitJoin(all, "/");
  }

  /** `indexOf` on a list of strings: the first position holding `x`, or -1. */
  function IndexOfSegment(parts: seq<string>, x: string): (r: int)
    ensures -1 <= r < |parts|
    ensures r == -1 <==> x !in parts
    ensures r >= 0 ==> parts[r] == x && forall j :: 0 <= j < r ==> parts[j] != x
  {
    if parts == [] then -1
    else if parts[0] == x then 0
    else
      var k := IndexOfSegment(parts[1..], x);
      if k == -1 then -1 else k + 1
  }

  /** Position `k` holds the first occurrence of `keyword`. */
  predicate FirstAt(parts: seq<string>, keyword: string, k: int) {
    0 <= k < |parts| && parts[k] == keyword && forall j :: 0 <= j < k ==> parts[j] != keyword
  }

  /**
   * The segment right after the first `keyword`, when there is one and it is
   * non-empty (the truthiness test on `pathParts[i + 1]`).
   */
  function AfterKeyword(parts: seq<string>, keyword: string): (r: Option<string>)
    ensures r.Some? <==> exists k :: FirstAt(parts, keyword, k) && k + 1 < |parts| && |parts[k + 1]| > 0
    ensures r.Some? ==> |r.value| > 0 && exists k :: FirstAt(parts, keyword, k) && k + 1 < |parts| && r.value == parts[k + 1]
  {
    var k := IndexOfSegment(parts, keyword);
    if k != -1 && k + 1 < |parts| && |parts[k + 1]| > 0 then
      assert FirstAt(parts, keyword, k);
      Some(parts[k + 1])
    else
      assert forall k' :: FirstAt(parts, keyword, k') ==> k' == k;
      None
  }

  /** The seller after "seller", failing that the user after "user", else nothing. */
  function SellerFromSegments(parts: seq<string>): (r: Option<string>)
    ensures AfterKeyword(parts, "seller").Some? ==> r == AfterKeyword(parts, "seller")
    ensures AfterKeyword(parts, "seller").None? ==> r == AfterKeyword(parts, "user")
    ensures r.Some? ==> r.value in parts
  {
    var seller := AfterKeyword(parts, "seller");
    if seller.Some? then seller else AfterKeyword(parts, "user")
  }

  /** `extractSellerFromUrl`; an unparseable URL gives nothing. */
  function ExtractSellerFromUrl(pathname: Option<string>): (r: Option<string>)
    ensures pathname.None? ==> r.None?
    ensures r.Some? ==> |r.value| > 0 && !Contains(r.value, "/") && r.value in Segments(pathname.value)
    ensures pathname.Some? && AfterKeyword(Segments(pathname.value), "seller").Some? ==>
              r == AfterKeyword(Segments(pathname.value), "seller")
    ensures pathname.Some? && AfterKeyword(Segments(pathname.value), "seller").None? ==>
              r == AfterKeyword(Segments(pathname.value), "user")
  {
    if pathname.None? then None else SellerFromSegments(Segments(pathname.value))
  }

  /** With neither keyword in the path there is no seller. */
  lemma NoKeywordNoSeller(path: string)
    requires "seller" !in Segments(path) && "user" !in Segments(path)
    ensures ExtractSellerFromUrl(Some(path)) == None
  {
  }

  /** A keyword that ends the path names nobody. */
  lemma KeywordLastNoMatch(parts: seq<string>, keyword: string)
    requires keyword !in parts
    ensures AfterKeyword(parts + [keyword], keyword) == None
  {
    var s := parts + [keyword];
    assert forall j :: 0 <= j < |parts| ==> s[j] == parts[j];
    assert IndexOfSegment(s, keyword) == |parts|;
  }

  /** An empty piece between two others is dropped without disturbing them. */
  lemma {:induction false} EmptyPieceIgnored(a: seq<string>, b: seq<string>)
    ensures NonEmpty(a + [""] + b) == NonEmpty(a) + NonEmpty(b)
    decreases |a|
  {
    if a == [] {
      assert a + [""] + b == [""] + b;
      assert ([""] + b)[1..] == b;
    } else {
      assert (a + [""] + b)[1..] == a[1..] + [""] + b;
      EmptyPieceIgnored(a[1..], b);
    }
  }

  /** The two supported layouts, the precedence of "seller", and a trailing keyword. */
  lemma SellerExamples()
    ensures SellerFromSegments(["seller", "hardwax", "profile"]) == Some("hardwax")
    ensures SellerFromSegments(["user", "digger", "collection"]) == Some("digger")
    ensures SellerFromSegments(["user", "digger", "seller", "hardwax"]) == Some("hardwax")
    ensures SellerFromSegments(["seller"]) == None
  {
    assert IndexOfSegment(["user", "digger", "seller", "hardwax"], "seller") == 2;
    assert IndexOfSegment(["seller"], "seller") == 0;
  }
}
