/**
 * String operations shared by the TypeScript, Rust and Python parts of the
 * repository: substring search, splitting on a separator and joining back,
 * stripping characters from both ends, ASCII case folding and the ordinal
 * (code-unit) string comparison used by JavaScript's default sort.
 */
module Text {

  /** `pat` occurs in `s` starting at index `i`. */
  predicate OccursAt(s: string, pat: string, i: int) {
    0 <= i && i + |pat| <= |s| && s[i..i + |pat|] == pat
  }

  /** First index at or after `k` where `pat` occurs in `s`, or -1. */
  function IndexOfFrom(s: string, pat: string, k: nat): (r: int)
    requires k <= |s|
    ensures r == -1 || (k <= r && OccursAt(s, pat, r))
    ensures r == -1 ==> forall i :: k <= i ==> !OccursAt(s, pat, i)
    ensures r >= 0 ==> forall i :: k <= i < r ==> !OccursAt(s, pat, i)
    decreases |s| - k
  {
    if k + |pat| > |s| then -1
    else if s[k..k + |pat|] == pat then k
    else IndexOfFrom(s, pat, k + 1)
  }

  /** JavaScript `indexOf` / Rust `find`: the first occurrence of `pat`, or -1. */
  function IndexOf(s: string, pat: string): (r: int)
    ensures r == -1 <==> forall i :: !OccursAt(s, pat, i)
    ensures r >= 0 ==> OccursAt(s, pat, r) && forall i :: 0 <= i < r ==> !OccursAt(s, pat, i)
  {
    IndexOfFrom(s, pat, 0)
  }

  /** JavaScript `includes`, Python `in`. */
  predicate Contains(s: string, pat: string) {
    IndexOf(s, pat) >= 0
  }

  predicate StartsWith(s: string, p: string) {
    |p| <= |s| && s[..|p|] == p
  }

  predicate EndsWith(s: string, p: string) {
    |p| <= |s| && s[|s| - |p|..] == p
  }

  /** Joins `parts` with `sep` between consecutive parts (JavaScript/Python `join`). */
  function Join(parts: seq<string>, sep: string): string {
    if |parts| == 0 then ""
    else if |parts| == 1 then parts[0]
    else parts[0] + sep + Join(parts[1..], sep)
  }

  /** A join begins with its first part. */
  lemma JoinStartsWithFirst(parts: seq<string>, sep: string)
    requires parts != []
    ensures StartsWith(Join(parts, sep), parts[0])
  {
    if |parts| > 1 {
      assert Join(parts, sep) == parts[0] + (sep + Join(parts[1..], sep));
      assert Join(parts, sep)[..|parts[0]|] == parts[0];
    }
  }

  /** A join holds every character of every part: a part with text gives the join text. */
  lemma {:induction false} JoinKeepsText(parts: seq<string>, sep: string, k: nat)
    requires k < |parts| && !IsBlank(parts[k])
    ensures !IsBlank(Join(parts, sep))
  {
    var i :| 0 <= i < |parts[k]| && !IsSpace(parts[k][i]);
    if k == 0 {
      JoinStartsWithFirst(parts, sep);
      assert Join(parts, sep)[i] == parts[0][i];
    } else {
      JoinKeepsText(parts[1..], sep, k - 1);
      var rest := Join(parts[1..], sep);
      var j :| 0 <= j < |rest| && !IsSpace(rest[j]);
      var prefix := parts[0] + sep;
      assert Join(parts, sep) == prefix + rest;
      assert Join(parts, sep)[|prefix| + j] == rest[j];
    }
  }

  /**
   * Splits `s` at every non-overlapping occurrence of `sep`, left to right
   * (JavaScript `split`, Python `str.split(sep)`, Rust `str::split`).
   * Joining the parts back gives `s`, and no part contains `sep`.
   */
  function Split(s: string, sep: string): (parts: seq<string>)
    requires |sep| > 0
    ensures |parts| >= 1
    ensures Join(parts, sep) == s
    ensures forall k :: 0 <= k < |parts| ==> !Contains(parts[k], sep)
    decreases |s|
  {
    var i := IndexOf(s, sep);
    if i == -1 then [s]
    else
      var rest := Split(s[i + |sep|..], sep);
      assert s[..i] + sep + s[i + |sep|..] == s by {
        assert s[i..i + |sep|] == sep;
        assert s == s[..i] + s[i..i + |sep|] + s[i + |sep|..];
      }
      assert !Contains(s[..i], sep) by {
        forall j | OccursAt(s[..i], sep, j) ensures false {
          assert s[..i][j..j + |sep|] == s[j..j + |sep|];
          assert OccursAt(s, sep, j);
        }
      }
      assert ([s[..i]] + rest)[1..] == rest;
      [s[..i]] + rest
  }

  /** The text of `s` before the first `sep`, or all of it when there is none. */
  function Before(s: string, sep: string): string
    requires |sep| > 0
  {
    if IndexOf(s, sep) == -1 then s else s[..IndexOf(s, sep)]
  }

  /** At the first occurrence of `sep`, the split is the text before it followed by the split of the rest. */
  lemma SplitAt(s: string, sep: string, i: int, parts: seq<string>, rest: seq<string>)
    requires |sep| > 0 && i == IndexOf(s, sep) && i >= 0
    requires parts == Split(s, sep) && rest == Split(s[i + |sep|..], sep)
    ensures parts == [s[..i]] + rest
  {
  }

  /** Past the first `sep`, the second part of the split is what comes before the next `sep`. */
  lemma SecondPart(s: string, sep: string, parts: seq<string>)
    requires |sep| > 0 && IndexOf(s, sep) >= 0 && parts == Split(s, sep)
    ensures |parts| >= 2 && parts[1] == Before(s[IndexOf(s, sep) + |sep|..], sep)
  {
    var i := IndexOf(s, sep);
    SplitAt(s, sep, i, parts, Split(s[i + |sep|..], sep));
  }

  /** What comes before `sep` in `s[a..]` sits in `s` at `a` and ends at the end of `s` or at a `sep`. */
  lemma BeforeWithin(s: string, sep: string, a: int, p: string)
    requires |sep| > 0 && 0 <= a <= |s| && p == Before(s[a..], sep)
    ensures a + |p| <= |s| && p == s[a..a + |p|]
    ensures a + |p| == |s| || OccursAt(s, sep, a + |p|)
  {
    var t := s[a..];
    if IndexOf(t, sep) != -1 {
      assert t[|p|..|p| + |sep|] == s[a + |p|..a + |p| + |sep|];
    }
  }

  /** A one-character separator after a part free of it is the first occurrence in the joined text. */
  lemma FirstSeparator(p: string, sep: string, rest: string)
    requires |sep| == 1 && !Contains(p, sep)
    ensures IndexOf(p + sep + rest, sep) == |p|
    ensures (p + sep + rest)[..|p|] == p && (p + sep + rest)[|p| + 1..] == rest
  {
    var s := p + sep + rest;
    forall i | 0 <= i < |p| ensures !OccursAt(s, sep, i) {
      assert s[i..i + 1] == p[i..i + 1];
      assert !OccursAt(p, sep, i);
    }
    assert s[|p|..|p| + 1] == sep;
    assert OccursAt(s, sep, |p|);
    assert s[..|p|] == p;
    assert s[|p| + 1..] == rest;
  }

  /** Splitting at a one-character separator undoes joining parts that do not contain it. */
  lemma {:induction false} SplitJoin(parts: seq<string>, sep: string)
    requires |sep| == 1 && |parts| >= 1
    requires forall k :: 0 <= k < |parts| ==> !Contains(parts[k], sep)
    ensures Split(Join(parts, sep), sep) == parts
    decreases |parts|
  {
    if |parts| == 1 {
      assert Join(parts, sep) == parts[0];
    } else {
      var p := parts[0];
      var rest := Join(parts[1..], sep);
      var s := p + sep + rest;
      assert Join(parts, sep) == s;
      FirstSeparator(p, sep, rest);
      SplitJoin(parts[1..], sep);
      SplitAt(s, sep, |p|, Split(s, sep), Split(rest, sep));
      assert [p] + parts[1..] == parts;
    }
  }

  /** Python whitespace, restricted to ASCII (what `str.strip()` and `\s` treat as space). */
  predicate IsSpace(c: char) {
    c == ' ' || c == '\t' || c == '\n' || c == '\r' || c == '\U{B}' || c == '\U{C}'
    || ('\U{1C}' <= c <= '\U{1F}')
  }

  /** True when `s` holds only whitespace (Python: `not s.strip()`). */
  predicate IsBlank(s: string) {
    forall i :: 0 <= i < |s| ==> IsSpace(s[i])
  }

  /** ASCII word character: what `\w` matches for ASCII input. */
  predicate IsWordChar(c: char) {
    ('a' <= c <= 'z') || ('A' <= c <= 'Z') || ('0' <= c <= '9') || c == '_'
  }

  predicate IsAsciiDigit(c: char) {
    '0' <= c <= '9'
  }

  function LowerChar(c: char): (d: char)
    ensures 'A' <= c <= 'Z' ==> 'a' <= d <= 'z' && d as int == c as int + 32
    ensures !('A' <= c <= 'Z') ==> d == c
  {
    if 'A' <= c <= 'Z' then (c as int + 32) as char else c
  }

  /** ASCII `toLowerCase()` / `lower()`. */
  function Lower(s: string): (r: string)
    ensures |r| == |s|
    ensures forall i :: 0 <= i < |s| ==> r[i] == LowerChar(s[i])
  {
    if s == [] then [] else [LowerChar(s[0])] + Lower(s[1..])
  }

  /** Removes leading characters that satisfy `drop`. */
  function TrimStart(s: string, drop: char -> bool): string {
    if s != [] && drop(s[0]) then TrimStart(s[1..], drop) else s
  }

  /** Removes trailing characters that satisfy `drop`. */
  function TrimEnd(s: string, drop: char -> bool): string {
    if s != [] && drop(s[|s| - 1]) then TrimEnd(s[..|s| - 1], drop) else s
  }

  /** Python `strip`: removes characters satisfying `drop` from both ends. */
  function Strip(s: string, drop: char -> bool): string {
    TrimEnd(TrimStart(s, drop), drop)
  }

  /** Python `str.strip()` with no argument. */
  function StripSpace(s: string): string {
    Strip(s, IsSpace)
  }

  /** `TrimStart` removes exactly the longest prefix of dropped characters. */
  lemma {:induction false} TrimStartSpec(s: string, drop: char -> bool)
    ensures var r := TrimStart(s, drop);
            |r| <= |s| && r == s[|s| - |r|..]
            && (forall i :: 0 <= i < |s| - |r| ==> drop(s[i]))
            && (r != [] ==> !drop(r[0]))
  {
    if s != [] && drop(s[0]) {
      var t := s[1..];
      TrimStartSpec(t, drop);
      var r := TrimStart(t, drop);
      assert TrimStart(s, drop) == r;
      assert t[|t| - |r|..] == s[|s| - |r|..];
      assert forall i :: 0 < i < |s| - |r| ==> s[i] == t[i - 1];
    }
  }

  /** `TrimEnd` removes exactly the longest suffix of dropped characters. */
  lemma {:induction false} TrimEndSpec(s: string, drop: char -> bool)
    ensures var r := TrimEnd(s, drop);
            |r| <= |s| && r == s[..|r|]
            && (forall i :: |r| <= i < |s| ==> drop(s[i]))
            && (r != [] ==> !drop(r[|r| - 1]))
  {
    if s != [] && drop(s[|s| - 1]) {
      var t := s[..|s| - 1];
      TrimEndSpec(t, drop);
      var r := TrimEnd(t, drop);
      assert TrimEnd(s, drop) == r;
      assert t[..|r|] == s[..|r|];
    }
  }

  /** A stripped string neither starts nor ends with a dropped character. */
  lemma StripSpec(s: string, drop: char -> bool)
    ensures var r := Strip(s, drop);
            r != [] ==> !drop(r[0]) && !drop(r[|r| - 1])
  {
    TrimStartSpec(s, drop);
    TrimEndSpec(TrimStart(s, drop), drop);
  }

  /** A stripped string is the slice of the original that starts after the dropped prefix. */
  lemma StripSlice(s: string, drop: char -> bool)
    ensures var r := Strip(s, drop);
            var a := |s| - |TrimStart(s, drop)|;
            0 <= a && a + |r| <= |s| && r == s[a..a + |r|]
  {
    var t := TrimStart(s, drop);
    TrimStartSpec(s, drop);
    var r := TrimEnd(t, drop);
    TrimEndSpec(t, drop);
    var a := |s| - |t|;
    assert t[..|r|] == s[a..a + |r|];
  }

  /**
   * Ordinal comparison of two strings, character by character, a proper
   * prefix first: -1, 0 or 1.
   */
  function Compare(a: string, b: string): (r: int)
    ensures r == -1 || r == 0 || r == 1
    ensures r == 0 <==> a == b
  {
    if a == [] && b == [] then 0
    else if a == [] then -1
    else if b == [] then 1
    else if a[0] < b[0] then -1
    else if a[0] > b[0] then 1
    else
      var r := Compare(a[1..], b[1..]);
      assert r == 0 <==> a == b by {
        if a[1..] == b[1..] { assert a == [a[0]] + a[1..] && b == [b[0]] + b[1..]; }
      }
      r
  }

  /** Swapping the arguments of `Compare` negates the result. */
  lemma {:induction false} CompareAntisymmetric(a: string, b: string)
    ensures Compare(b, a) == -Compare(a, b)
  {
    if a != [] && b != [] && a[0] == b[0] {
      CompareAntisymmetric(a[1..], b[1..]);
    }
  }
}
