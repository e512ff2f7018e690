/**
 * docs/discogs-api/split_existing_docs.py: `split_markdown_by_h1` splits one
 * Markdown file into sections with the heading splitter of
 * `MarkdownSections` (pre-heading "Source:" lines kept) and writes each
 * section to `<output_dir>/<sanitized title>.md`, counting saved and failed
 * writes. Reading the input, creating the directory and the console output
 * are not modelled; whether each write succeeds is the oracle `writeOk`,
 * indexed by the section's position, and the files this run leaves behind
 * are the map `disk` from path to content.
 */
module SplitDocs {
  import opened Text
  import opened MarkdownSections

  /** The directory part `os.path.join` puts in front of a relative name: none, or the directory with one separator. */
  function DirPrefix(dir: string): string {
    if dir == "" || EndsWith(dir, "/") then dir else dir + "/"
  }

  /** `os.path.join(dir, name)` on POSIX paths: an absolute name replaces the directory. */
  function PathJoin(dir: string, name: string): (p: string)
    ensures StartsWith(name, "/") ==> p == name
    ensures !StartsWith(name, "/") ==> p == DirPrefix(dir) + name
  {
    if StartsWith(name, "/") then name
    else if dir == "" || EndsWith(dir, "/") then dir + name
    else dir + "/" + name
  }

  /** The path a section titled `title` is written to. */
  function OutputPath(dir: string, title: string): string {
    PathJoin(dir, OutputName(title) + ".md")
  }

  /**
   * Every output file lands directly inside the output directory: its path is
   * the directory (with one separator) followed by a file name that holds no
   * '/' and ends in ".md".
   */
  lemma OutputPathInDir(dir: string, title: string)
    ensures var name := OutputName(title) + ".md";
            && OutputPath(dir, title) == DirPrefix(dir) + name
            && EndsWith(name, ".md")
            && forall i :: 0 <= i < |name| ==> name[i] != '/'
  {
    OutputNameSafe(title);
    var base := OutputName(title);
    var name := base + ".md";
    assert name[0] == base[0];
    assert forall i :: 0 <= i < |base| ==> name[i] == base[i];
    assert name[|base|..] == ".md";
  }

  /** Two sections are written to the same file exactly when their titles sanitize to the same name. */
  lemma SameFileIffSameName(dir: string, a: string, b: string)
    ensures OutputPath(dir, a) == OutputPath(dir, b) <==> OutputName(a) == OutputName(b)
  {
    OutputPathInDir(dir, a);
    OutputPathInDir(dir, b);
    var p := DirPrefix(dir);
    if OutputPath(dir, a) == OutputPath(dir, b) {
      var na, nb := OutputName(a) + ".md", OutputName(b) + ".md";
      assert (p + na)[|p|..] == na;
      assert (p + nb)[|p|..] == nb;
      assert na[..|na| - 3] == OutputName(a);
      assert nb[..|nb| - 3] == OutputName(b);
    }
  }

  /** Number of writes among the first `k` that succeed: `scraped_count`. */
  function SavedCount(writeOk: nat -> bool, k: nat): (c: nat)
    ensures c <= k
  {
    if k == 0 then 0 else SavedCount(writeOk, k - 1) + (if writeOk(k - 1) then 1 else 0)
  }

  /** One file write the script attempts: where, and what. */
  datatype FileWrite = FileWrite(path: string, content: string)

  /** The writes the script attempts, one per section, in order. */
  function PlannedWrites(sections: seq<Section>, dir: string): (w: seq<FileWrite>)
    ensures |w| == |sections|
    ensures forall i :: 0 <= i < |sections| ==> w[i] == FileWrite(OutputPath(dir, sections[i].title), sections[i].content)
  {
    if sections == [] then []
    else [FileWrite(OutputPath(dir, sections[0].title), sections[0].content)] + PlannedWrites(sections[1..], dir)
  }

  /** The files left by the first `k` writes: each successful write replaces what its path held. */
  function Disk(writes: seq<FileWrite>, writeOk: nat -> bool, k: nat): map<string, string>
    requires k <= |writes|
  {
    if k == 0 then map[]
    else
      var d := Disk(writes, writeOk, k - 1);
      if writeOk(k - 1) then d[writes[k - 1].path := writes[k - 1].content] else d
  }

  /** One more write: the files so far, with the write's path set to its content when it succeeds. */
  lemma DiskStep(writes: seq<FileWrite>, writeOk: nat -> bool, i: nat)
    requires i < |writes|
    ensures Disk(writes, writeOk, i + 1) ==
              if writeOk(i) then Disk(writes, writeOk, i)[writes[i].path := writes[i].content]
              else Disk(writes, writeOk, i)
  {
  }

  /** Write `i` succeeded and went to `path`. */
  predicate WroteTo(writes: seq<FileWrite>, writeOk: nat -> bool, i: int, path: string) {
    0 <= i < |writes| && writeOk(i) && writes[i].path == path
  }

  /** A path is on disk exactly when some successful write went to it. */
  lemma {:induction false} DiskKeys(writes: seq<FileWrite>, writeOk: nat -> bool, k: nat, path: string)
    requires k <= |writes|
    ensures path in Disk(writes, writeOk, k) <==> exists i :: 0 <= i < k && WroteTo(writes, writeOk, i, path)
  {
    if k > 0 {
      DiskKeys(writes, writeOk, k - 1, path);
      if !WroteTo(writes, writeOk, k - 1, path) {
        assert path in Disk(writes, writeOk, k) <==> path in Disk(writes, writeOk, k - 1);
      }
    }
  }

  /**
   * A file on disk holds the content of the LAST successful write to its
   * path: a later section whose title sanitizes to the same name overwrites
   * an earlier one.
   */
  lemma {:induction false} DiskHoldsLastWrite(writes: seq<FileWrite>, writeOk: nat -> bool, k: nat, path: string)
    requires k <= |writes|
    requires path in Disk(writes, writeOk, k)
    ensures exists i :: 0 <= i < k && WroteTo(writes, writeOk, i, path)
                        && Disk(writes, writeOk, k)[path] == writes[i].content
                        && forall j :: i < j < k ==> !WroteTo(writes, writeOk, j, path)
  {
    var d := Disk(writes, writeOk, k - 1);
    if WroteTo(writes, writeOk, k - 1, path) {
      assert Disk(writes, writeOk, k)[path] == writes[k - 1].content;
    } else {
      assert Disk(writes, writeOk, k)[path] == d[path];
      DiskHoldsLastWrite(writes, writeOk, k - 1, path);
      var i :| 0 <= i < k - 1 && WroteTo(writes, writeOk, i, path)
               && d[path] == writes[i].content
               && forall j :: i < j < k - 1 ==> !WroteTo(writes, writeOk, j, path);
      assert forall j :: i < j < k ==> !WroteTo(writes, writeOk, j, path);
    }
  }

  /** The run leaves at most as many files as it saved sections (fewer when names collide). */
  lemma {:induction false} DiskSize(writes: seq<FileWrite>, writeOk: nat -> bool, k: nat)
    requires k <= |writes|
    ensures |Disk(writes, writeOk, k).Keys| <= SavedCount(writeOk, k)
  {
    if k > 0 {
      DiskSize(writes, writeOk, k - 1);
      var d := Disk(writes, writeOk, k - 1);
      if writeOk(k - 1) {
        assert d[writes[k - 1].path := writes[k - 1].content].Keys == d.Keys + {writes[k - 1].path};
      }
    }
  }

  /** The write loop of `split_markdown_by_h1`: each section in order to its output path, counting successes and failures. */
  method WriteSections(sections: seq<Section>, outputDir: string, writeOk: nat -> bool)
    returns (disk: map<string, string>, scraped: nat, failed: nat)
    ensures disk == Disk(PlannedWrites(sections, outputDir), writeOk, |sections|)
    ensures scraped == SavedCount(writeOk, |sections|)
    ensures scraped + failed == |sections|
  {
    ghost var writes := PlannedWrites(sections, outputDir);
    disk := map[];
    scraped := 0;
    failed := 0;
    for i := 0 to |sections|
      invariant disk == Disk(writes, writeOk, i)
      invariant scraped == SavedCount(writeOk, i)
      invariant scraped + failed == i
    {
      var path := OutputPath(outputDir, sections[i].title);
      assert writes[i] == FileWrite(path, sections[i].content);
      DiskStep(writes, writeOk, i);
      if writeOk(i) {
        disk := disk[path := sections[i].content];
        scraped := scraped + 1;
      } else {
        failed := failed + 1;
      }
    }
  }

  /**
   * `split_markdown_by_h1`: split the input at '\n', run the heading splitter
   * (pre-heading "Source:" lines kept), then write the sections.
   */
  method SplitMarkdownByH1(content: string, outputDir: string, writeOk: nat -> bool)
    returns (sections: seq<Section>, disk: map<string, string>, scraped: nat, failed: nat)
    ensures sections == Sections(Split(content, "\n"), false)
    ensures disk == Disk(PlannedWrites(sections, outputDir), writeOk, |sections|)
    ensures scraped == SavedCount(writeOk, |sections|)
    ensures scraped + failed == |sections|
  {
    var lines := Split(content, "\n");
    sections := SplitLines(lines, false);
    disk, scraped, failed := WriteSections(sections, outputDir, writeOk);
  }

  /** Every file the run leaves lies directly inside the output directory and ends in ".md". */
  lemma DiskInsideOutputDir(sections: seq<Section>, dir: string, writeOk: nat -> bool, path: string)
    requires path in Disk(PlannedWrites(sections, dir), writeOk, |sections|)
    ensures StartsWith(path, DirPrefix(dir)) && EndsWith(path, ".md")
    ensures forall i :: |DirPrefix(dir)| <= i < |path| ==> path[i] != '/'
  {
    var writes := PlannedWrites(sections, dir);
    DiskKeys(writes, writeOk, |sections|, path);
    var i :| 0 <= i < |sections| && WroteTo(writes, writeOk, i, path);
    OutputPathInDir(dir, sections[i].title);
    ConcatShape(DirPrefix(dir), OutputName(sections[i].title) + ".md");
  }

  /** A directory prefix followed by a '/'-free ".md" name is a path of that shape. */
  lemma ConcatShape(p: string, name: string)
    requires EndsWith(name, ".md") && forall i :: 0 <= i < |name| ==> name[i] != '/'
    ensures StartsWith(p + name, p) && EndsWith(p + name, ".md")
    ensures forall i :: |p| <= i < |p + name| ==> (p + name)[i] != '/'
  {
    var path := p + name;
    assert path[..|p|] == p;
    assert path[|path| - 3..] == name[|name| - 3..];
    assert forall j :: |p| <= j < |path| ==> path[j] == name[j - |p|];
  }

}
