/**
 * The pure parts of docs/discogs-api/scrape_discogs_docs.py: the mapping
 * from a documentation URL's path to a local file (`url_to_filepath`) and
 * the Markdown fallback splitter (`split_markdown_file`), which runs the
 * heading splitter of `MarkdownSections` with "Source:" lines dropped before
 * the first heading. Fetching, HTML parsing and conversion are not modelled.
 */
module ScrapeDocs {
  import opened Text
  import opened MarkdownSections

  /** The path prefix that `url_to_filepath` removes (11 characters). */
  const DevelopersPrefix: string := "/developers"

  predicate IsSlash(c: char) {
    c == '/'
  }

  /** The name with ".md" appended, unless it already ends in ".md". */
  function WithMd(name: string): string {
    if EndsWith(name, ".md") then name else name + ".md"
  }

  /**
   * `url_to_filepath`, given the URL's path: drop a leading "/developers",
   * answer "index.md" for what is then empty or "/", otherwise strip the
   * slashes at both ends and give the last segment a ".md" extension.
   */
  function UrlToFilepath(path: string): string {
    var p := if StartsWith(path, DevelopersPrefix) then path[|DevelopersPrefix|..] else path;
    if p == "" || p == "/" then "index.md"
    else
      var q := Strip(p, IsSlash);
      if Contains(q, "/") then
        var parts := Split(q, "/");
        Join(parts[..|parts| - 1] + [WithMd(parts[|parts| - 1])], "/")
      else WithMd(q)
  }

  /** Joining one more part adds the separator and that part. */
  lemma {:induction false} JoinSnoc(init: seq<string>, last: string, sep: string)
    requires init != []
    ensures Join(init + [last], sep) == Join(init, sep) + sep + last
    decreases |init|
  {
    if |init| > 1 {
      var xs := init + [last];
      assert xs[0] == init[0] && xs[1..] == init[1..] + [last];
      JoinSnoc(init[1..], last, sep);
    } else {
      assert init + [last] == [init[0], last];
    }
  }

  /** A path ends in ".md" exactly when its last segment does. */
  lemma LastSegmentExtension(dir: string, last: string)
    ensures EndsWith(dir + "/" + last, ".md") <==> EndsWith(last, ".md")
  {
    var q := dir + "/" + last;
    if |last| >= 3 {
      assert q[|q| - 3..] == last[|last| - 3..];
    } else {
      assert q[|q| - |last| - 1] == '/';
    }
  }

  /** A string holding the separator splits into at least two parts. */
  lemma SplitAtSeparator(q: string, sep: string)
    requires |sep| > 0 && Contains(q, sep)
    ensures |Split(q, sep)| >= 2
  {
  }

  /** The segment-wise branch of `url_to_filepath` gives the same as appending ".md" to the whole path when missing. */
  lemma SegmentsWithMd(parts: seq<string>, q: string)
    requires |parts| >= 2 && parts == Split(q, "/")
    ensures Join(parts[..|parts| - 1] + [WithMd(parts[|parts| - 1])], "/") == WithMd(q)
  {
    LastPartWithMd(parts, q);
  }

  /** Giving the last of two or more parts a ".md" extension gives their join one. */
  lemma LastPartWithMd(parts: seq<string>, q: string)
    requires |parts| >= 2 && Join(parts, "/") == q
    ensures Join(parts[..|parts| - 1] + [WithMd(parts[|parts| - 1])], "/") == WithMd(q)
  {
    var init, last := parts[..|parts| - 1], parts[|parts| - 1];
    JoinSnoc(init, WithMd(last), "/");
    JoinLast(parts, "/");
    WithMdAfterDir(Join(init, "/"), last);
  }

  /** Extending the last segment of a path is extending the path. */
  lemma WithMdAfterDir(dir: string, last: string)
    ensures dir + "/" + WithMd(last) == WithMd(dir + "/" + last)
  {
    LastSegmentExtension(dir, last);
    if !EndsWith(last, ".md") {
      assert dir + "/" + (last + ".md") == (dir + "/" + last) + ".md";
    }
  }

  /** A join of two or more parts is the join of all but the last, the separator, and the last. */
  lemma JoinLast(parts: seq<string>, sep: string)
    requires |parts| >= 2
    ensures Join(parts, sep) == Join(parts[..|parts| - 1], sep) + sep + parts[|parts| - 1]
  {
    var init, last := parts[..|parts| - 1], parts[|parts| - 1];
    assert init + [last] == parts;
    JoinSnoc(init, last, sep);
  }

  /**
   * `url_to_filepath` in one line: after the prefix is dropped, "" and "/"
   * map to "index.md", and any other path to itself without its outer
   * slashes, with ".md" appended unless it already ends in ".md". Directory
   * segments are kept as they are.
   */
  lemma UrlToFilepathSpec(path: string)
    ensures var p := if StartsWith(path, DevelopersPrefix) then path[|DevelopersPrefix|..] else path;
            UrlToFilepath(path) == if p == "" || p == "/" then "index.md" else WithMd(Strip(p, IsSlash))
  {
    var p := if StartsWith(path, DevelopersPrefix) then path[|DevelopersPrefix|..] else path;
    if p != "" && p != "/" {
      var q := Strip(p, IsSlash);
      if Contains(q, "/") {
        SplitAtSeparator(q, "/");
        SegmentsWithMd(Split(q, "/"), q);
      }
    }
  }

  /** Every file path `url_to_filepath` produces ends in ".md". */
  lemma UrlEndsWithMd(path: string)
    ensures EndsWith(UrlToFilepath(path), ".md")
  {
    UrlToFilepathSpec(path);
    var p := if StartsWith(path, DevelopersPrefix) then path[|DevelopersPrefix|..] else path;
    if p != "" && p != "/" {
      var q := Strip(p, IsSlash);
      if !EndsWith(q, ".md") {
        assert (q + ".md")[|q|..] == ".md";
      }
    } else {
      assert "index.md"[5..] == ".md";
    }
  }

  /** An existing ".md" is never doubled: a path that already ends in ".md" maps to itself, slashes stripped. */
  lemma UrlKeepsExtension(path: string)
    requires !StartsWith(path, DevelopersPrefix) && path != "" && path != "/"
    requires EndsWith(Strip(path, IsSlash), ".md")
    ensures UrlToFilepath(path) == Strip(path, IsSlash)
  {
    UrlToFilepathSpec(path);
  }

  /** The documentation root, with or without its trailing slash, maps to "index.md". */
  lemma UrlIndex()
    ensures UrlToFilepath("/developers") == "index.md"
    ensures UrlToFilepath("/developers/") == "index.md"
  {
    assert StartsWith("/developers", DevelopersPrefix);
    assert "/developers"[11..] == "";
    assert StartsWith("/developers/", DevelopersPrefix);
    assert "/developers/"[11..] == "/";
  }

  /**
   * The prefix test is on characters, not on path segments: "/developersfoo"
   * loses "/developers" and maps to "foo.md".
   */
  lemma UrlPrefixNotSegment()
    ensures UrlToFilepath("/developersfoo") == "foo.md"
  {
    UrlToFilepathSpec("/developersfoo");
    assert StartsWith("/developersfoo", DevelopersPrefix);
    assert "/developersfoo"[11..] == "foo";
    assert TrimStart("foo", IsSlash) == "foo";
    assert TrimEnd("foo", IsSlash) == "foo";
  }

  /** `split_markdown_file`: split the text at '\n' and run the heading splitter, dropping pre-heading "Source:" lines. */
  method SplitMarkdownFile(content: string) returns (sections: seq<Section>)
    ensures sections == Sections(Split(content, "\n"), true)
  {
    var lines := Split(content, "\n");
    sections := SplitLines(lines, true);
  }
}
