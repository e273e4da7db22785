/** The statistics reader and the segmentation selection of the PDF report
    script: a data line with four fields is an rCBF row, one with five fields a
    volume row, and every other line is skipped. */
module Pdf {
  import opened Wrappers
  import opened PyText
  import opened StatsFile
  import opened Seqs

  /** The tuples `read_formatted_file` appends, by field count. */
  datatype PdfRow =
    | RcbfRow(region: string, meanCbf: string, rcbf: string, vox: string)
    | VolumeRow(region: string, meanCbf: string, stdDev: string, vox: string, vol: string)
  {
    /** The tuple's items in order. */
    function Items(): seq<string> {
      match this
      case RcbfRow(region, meanCbf, rcbf, vox) => [region, meanCbf, rcbf, vox]
      case VolumeRow(region, meanCbf, stdDev, vox, vol) => [region, meanCbf, stdDev, vox, vol]
    }
  }

  /** The arity dispatch on one line's fields: a row exactly when there are
      four or five fields, and the row's items are the fields in order. */
  function RowOf(parts: seq<string>): (r: Option<PdfRow>)
    ensures r.Some? <==> |parts| == 4 || |parts| == 5
    ensures r.Some? ==> r.value.Items() == parts
  {
    if |parts| == 4 then Some(RcbfRow(parts[0], parts[1], parts[2], parts[3]))
    else if |parts| == 5 then Some(VolumeRow(parts[0], parts[1], parts[2], parts[3], parts[4]))
    else None
  }

  /** What one line contributes: one row, whose items are the line's fields,
      when the line has 4 or 5 fields, and nothing otherwise. */
  function LineRows(line: string): (r: seq<PdfRow>)
    ensures |r| <= 1
    ensures r != [] <==> |Fields(line)| == 4 || |Fields(line)| == 5
    ensures r != [] ==> r[0].Items() == Fields(line)
  {
    match RowOf(Fields(line))
    case Some(row) => [row]
    case None => []
  }

  /** The rows of a run of data lines, in line order; never more rows than
      lines. */
  function ParseLines(lines: seq<string>): (rows: seq<PdfRow>)
    ensures |rows| <= |lines|
  {
    if lines == [] then [] else LineRows(lines[0]) + ParseLines(lines[1..])
  }

  /** Parsing distributes over concatenation: each line is parsed on its own
      and the rows keep the order of their lines. */
  lemma {:induction false} ParseLinesAppend(a: seq<string>, b: seq<string>)
    ensures ParseLines(a + b) == ParseLines(a) + ParseLines(b)
    decreases |a|
  {
    if a != [] {
      assert (a + b)[0] == a[0] && (a + b)[1..] == a[1..] + b;
      ParseLinesAppend(a[1..], b);
      assert ParseLines(a + b) == LineRows(a[0]) + ParseLines(a[1..] + b);
      AppendAssoc(LineRows(a[0]), ParseLines(a[1..]), ParseLines(b));
    } else {
      assert a + b == b;
    }
  }

  /** Appending a line appends that line's row, if it has one. */
  lemma {:induction false} ParseLinesSnoc(lines: seq<string>, line: string)
    ensures ParseLines(lines + [line]) == ParseLines(lines) + LineRows(line)
  {
    ParseLinesAppend(lines, [line]);
    assert ParseLines([line]) == LineRows(line) by {
      assert [line][1..] == [];
    }
  }

  /** A blank line, or any line without exactly three or four `|`, is dropped
      without disturbing the lines around it. */
  lemma {:induction false} OtherArityDropped(a: seq<string>, line: string, b: seq<string>)
    requires |Fields(line)| != 4 && |Fields(line)| != 5
    ensures ParseLines(a + [line] + b) == ParseLines(a) + ParseLines(b)
  {
    assert LineRows(line) == [];
    ParseLinesSnoc(a, line);
    ParseLinesAppend(a + [line], b);
  }

  /** The rows of a statistics file's text: its data lines parsed. */
  function Rows(content: string): (rows: seq<PdfRow>)
    ensures |rows| <= |Lines(content)| - 1
  {
    ParseLines(DataLines(content))
  }

  /** The header line never produces a row, even when it has four or five
      fields; an empty or blank file gives no row either.
      The blank case is already inside the first condition, since a blank
      text strips to nothing; it is named for the reader. */
  lemma HeaderOnlyNoRows(content: string)
    requires '\n' !in Strip(content) || AllSpace(content)
    ensures Rows(content) == []
  {
    if AllSpace(content) {
      BlankFileHasNoDataLines(content);
    } else {
      HeaderOnlyHasNoDataLines(content);
    }
  }

  /** `read_formatted_file`: a missing file gives the empty list; otherwise
      the header is skipped and every later line is split, stripped and kept
      by its field count. */
  method ReadFormattedFile(files: Files, path: string) returns (data: seq<PdfRow>)
    ensures path !in files ==> data == []
    ensures path in files ==> data == Rows(files[path])
  {
    if path !in files {
      return [];
    }
    var content := Lines(files[path]);
    var lines := content[1..];
    data := [];
    for i := 0 to |lines|
      invariant data == ParseLines(lines[..i])
    {
      PrefixSnoc(lines, i);
      ghost var before := data;
      var parts := Fields(lines[i]);
      if |parts| == 4 {
        data := data + [RcbfRow(parts[0], parts[1], parts[2], parts[3])];
      } else if |parts| == 5 {
        data := data + [VolumeRow(parts[0], parts[1], parts[2], parts[3], parts[4])];
      }
      assert data == before + LineRows(lines[i]);
      ParseLinesSnoc(lines[..i], lines[i]);
    }
    assert lines[..|lines|] == lines;
  }

  /** What the loop records for a name as its table: the rows of its
      statistics file when the file exists and yields at least one row. */
  function RowsPick(files: Files, statsDir: string): string -> Option<seq<PdfRow>> {
    n => if HasStats(files, statsDir, n) && Rows(files[StatsPath(statsDir, n)]) != []
         then Some(Rows(files[StatsPath(statsDir, n)])) else None
  }

  /** The table data `main` keeps: the rows of every name of `segList` whose
      statistics file exists and parses to at least one row. */
  function SelectedRows(files: Files, statsDir: string, segList: seq<string>): map<string, seq<PdfRow>> {
    Selected(segList, RowsPick(files, statsDir))
  }

  /** Every name with table data also has an image path. */
  lemma RowsHaveImages(files: Files, statsDir: string, vizDir: string, segList: seq<string>)
    ensures SelectedRows(files, statsDir, segList).Keys <= SelectedImages(files, statsDir, vizDir, segList).Keys
  {
  }

  /** `main`'s loop over the segmentation names: every name whose statistics
      file exists gets its image path; only those whose file parses to at
      least one row get table data, so every table has an image entry. */
  method CollectSegmentations(files: Files, statsDir: string, vizDir: string, segList: seq<string>)
    returns (formattedData: map<string, seq<PdfRow>>, segmentationImages: map<string, string>)
    ensures segmentationImages == SelectedImages(files, statsDir, vizDir, segList)
    ensures formattedData == SelectedRows(files, statsDir, segList)
    ensures formattedData.Keys <= segmentationImages.Keys
  {
    formattedData, segmentationImages := map[], map[];
    for i := 0 to |segList|
      invariant segmentationImages == SelectedImages(files, statsDir, vizDir, segList[..i])
      invariant formattedData == SelectedRows(files, statsDir, segList[..i])
    {
      var name := segList[i];
      PrefixSnoc(segList, i);
      SelectedSnoc(segList[..i], name, ImagePick(files, statsDir, vizDir));
      SelectedSnoc(segList[..i], name, RowsPick(files, statsDir));
      var filePath := StatsPath(statsDir, name);
      var segImg := ImagePath(vizDir, name);
      if filePath in files {
        var data := ReadFormattedFile(files, filePath);
        if data != [] {
          formattedData := formattedData[name := data];
        }
        segmentationImages := segmentationImages[name := segImg];
      }
    }
    assert segList[..|segList|] == segList;
    RowsHaveImages(files, statsDir, vizDir, segList);
  }
}
