/** The pipe-delimited region-statistics text the three report scripts read
    (one header line, then one `region | mean | ...` line per region), and the
    paths the scripts derive from a segmentation name. */
module StatsFile {
  import opened Wrappers
  import opened PyText

  /** What the scripts can see of the disk: each existing file's path mapped
      to its text. A path that is not a key does not exist. */
  type Files = map<string, string>

  /** `content.strip().split('\n')`: one more line than the stripped text has
      newlines, so never empty. */
  function Lines(content: string): (r: seq<string>)
    ensures |r| == multiset(Strip(content))['\n'] + 1
  {
    Split(Strip(content), '\n')
  }

  /** `content[1:]`: every line but the header. */
  function DataLines(content: string): (r: seq<string>)
    ensures |r| == |Lines(content)| - 1
  {
    Lines(content)[1..]
  }

  /** `[p.strip() for p in line.split('|')]`: one field more than the line has
      `|` characters (`FieldsOfJoinedLine` says what each field is). */
  function Fields(line: string): (r: seq<string>)
    ensures |r| == multiset(line)['|'] + 1
  {
    var parts := Split(line, '|');
    seq(|parts|, k requires 0 <= k < |parts| => Strip(parts[k]))
  }

  /** A file that is empty or holds only whitespace has no data line. */
  lemma {:induction false} BlankFileHasNoDataLines(content: string)
    requires AllSpace(content)
    ensures DataLines(content) == []
  {
    assert content == [] + [] + content;
    StripExact([], [], content);
  }

  /** Only a newline in the stripped text starts a second line: a file whose
      text is a header line alone has no data line, whatever the header holds. */
  lemma {:induction false} HeaderOnlyHasNoDataLines(content: string)
    requires '\n' !in Strip(content)
    ensures DataLines(content) == []
  {
    assert multiset(Strip(content))['\n'] == 0;
  }

  /** A trailing newline, or any trailing whitespace, adds no line. */
  lemma {:induction false} TrailingSpaceAddsNoLine(content: string, ws: string)
    requires AllSpace(ws)
    ensures Lines(content + ws) == Lines(content)
  {
    StripIgnoresTrailingSpace(content, ws);
  }

  /** Fields are the `|`-separated pieces with their surrounding whitespace
      removed: a line built from pieces without `|`, such as
      `region | mean | std`, gives each piece stripped, in order. */
  lemma {:induction false} FieldsOfJoinedLine(pieces: seq<string>)
    requires |pieces| >= 1
    requires forall k :: 0 <= k < |pieces| ==> '|' !in pieces[k]
    ensures Fields(Join(pieces, '|')) == seq(|pieces|, k requires 0 <= k < |pieces| => Strip(pieces[k]))
  {
    SplitJoin(pieces, '|');
  }

  /** Nothing else changes: pieces that are already trimmed come back as they
      are. */
  lemma {:induction false} FieldsOfTrimmedLine(pieces: seq<string>)
    requires |pieces| >= 1
    requires forall k :: 0 <= k < |pieces| ==> '|' !in pieces[k] && Trimmed(pieces[k])
    ensures Fields(Join(pieces, '|')) == pieces
  {
    FieldsOfJoinedLine(pieces);
    forall k | 0 <= k < |pieces| ensures Strip(pieces[k]) == pieces[k] {
      assert [] + pieces[k] + [] == pieces[k];
      StripExact([], pieces[k], []);
    }
  }

  /** `os.path.join(stats_path, f"formatted_cbf_{name}.txt")`: the statistics
      directory, then the file name of the segmentation's statistics. */
  function StatsPath(statsDir: string, name: string): (r: string)
    ensures |statsDir| <= |r| && r[..|statsDir|] == statsDir
    ensures var file := "formatted_cbf_" + name + ".txt"; |file| <= |r| && r[|r| - |file|..] == file
  {
    PathJoin(statsDir, "formatted_cbf_" + name + ".txt")
  }

  /** `os.path.join(viz_path, f"w_{name}_meanCBF_80_mosaic_prism.png")`: the
      visualisation directory, then the file name of the segmentation's
      mosaic. */
  function ImagePath(vizDir: string, name: string): (r: string)
    ensures |vizDir| <= |r| && r[..|vizDir|] == vizDir
    ensures var file := "w_" + name + "_meanCBF_80_mosaic_prism.png"; |file| <= |r| && r[|r| - |file|..] == file
  {
    PathJoin(vizDir, "w_" + name + "_meanCBF_80_mosaic_prism.png")
  }

  /** `os.path.exists` on a segmentation's statistics file. */
  predicate HasStats(files: Files, statsDir: string, name: string) {
    StatsPath(statsDir, name) in files
  }

  /** The dictionary a selection loop over `names` builds: an entry for each
      name that `pick` gives a value to (a repeated name gets the same entry
      again). */
  function Selected<V>(names: seq<string>, pick: string -> Option<V>): (m: map<string, V>)
    ensures forall n :: n in m <==> n in names && pick(n).Some?
  {
    map n | n in names && pick(n).Some? :: pick(n).value
  }

  /** Looking at one more name adds that name's entry, if it gets one. */
  lemma SelectedSnoc<V>(names: seq<string>, name: string, pick: string -> Option<V>)
    ensures Selected(names + [name], pick) ==
            if pick(name).Some? then Selected(names, pick)[name := pick(name).value] else Selected(names, pick)
  {
    assert forall x :: x in names + [name] <==> x in names || x == name;
  }

  /** What the loop records for a name as its image: the image path when the
      name's statistics file exists. */
  function ImagePick(files: Files, statsDir: string, vizDir: string): string -> Option<string> {
    n => if HasStats(files, statsDir, n) then Some(ImagePath(vizDir, n)) else None
  }

  /** The image paths every script records, for exactly the names of
      `segList` whose statistics file exists. */
  function SelectedImages(files: Files, statsDir: string, vizDir: string, segList: seq<string>): map<string, string> {
    Selected(segList, ImagePick(files, statsDir, vizDir))
  }
}
