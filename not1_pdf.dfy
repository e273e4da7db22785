/** The statistics reader and the segmentation selection of the second PDF
    report script: a data line with six fields is a full row (with rCBF), one
    with five fields a volume row, and every other line, four-field lines
    included, is skipped. */
module Not1Pdf {
  import opened Wrappers
  import opened PyText
  import opened StatsFile
  import opened Seqs
  import Pdf

  /** The tuples `read_formatted_file` appends, by field count. */
  datatype PdfRow =
    | FullRow(region: string, meanCbf: string, stdDev: string, rcbf: string, vox: string, vol: string)
    | VolumeRow(region: string, meanCbf: string, stdDev: string, vox: string, vol: string)
  {
    /** The tuple's items in order. */
    function Items(): seq<string> {
      match this
      case FullRow(region, meanCbf, stdDev, rcbf, vox, vol) => [region, meanCbf, stdDev, rcbf, vox, vol]
      case VolumeRow(region, meanCbf, stdDev, vox, vol) => [region, meanCbf, stdDev, vox, vol]
    }
  }

  /** The arity dispatch on one line's fields: a row exactly when there are
      five or six fields, and the row's items are the fields in order. */
  function RowOf(parts: seq<string>): (r: Option<PdfRow>)
    ensures r.Some? <==> |parts| == 5 || |parts| == 6
    ensures r.Some? ==> r.value.Items() == parts
  {
    if |parts| == 6 then Some(FullRow(parts[0], parts[1], parts[2], parts[3], parts[4], parts[5]))
    else if |parts| == 5 then Some(VolumeRow(parts[0], parts[1], parts[2], parts[3], parts[4]))
    else None
  }

  /** What one line contributes: one row, whose items are the line's fields,
      when the line has 5 or 6 fields, and nothing otherwise. */
  function LineRows(line: string): (r: seq<PdfRow>)
    ensures |r| <= 1
    ensures r != [] <==> |Fields(line)| == 5 || |Fields(line)| == 6
    ensures r != [] ==> r[0].Items() == Fields(line)
  {
    match RowOf(Fields(line))
    case Some(row) => [row]
    case None => []
  }

  /** The rows of a run of data lines, in line order; never more rows than
      lines. */
  function ParseLines(lines: seq<string>): (rows: seq<PdfRow>)
    ensures |rows| <= |lines|
  {
    if lines == [] then [] else LineRows(lines[0]) + ParseLines(lines[1..])
  }

  /** Parsing distributes over concatenation: each line is parsed on its own
      and the rows keep the order of their lines. */
  lemma {:induction false} ParseLinesAppend(a: seq<string>, b: seq<string>)
    ensures ParseLines(a + b) == ParseLines(a) + ParseLines(b)
    decreases |a|
  {
    if a != [] {
      assert (a + b)[0] == a[0] && (a + b)[1..] == a[1..] + b;
      ParseLinesAppend(a[1..], b);
      assert ParseLines(a + b) == LineRows(a[0]) + ParseLines(a[1..] + b);
      AppendAssoc(LineRows(a[0]), ParseLines(a[1..]), ParseLines(b));
    } else {
      assert a + b == b;
    }
  }

  /** Appending a line appends that line's row, if it has one. */
  lemma {:induction false} ParseLinesSnoc(lines: seq<string>, line: string)
    ensures ParseLines(lines + [line]) == ParseLines(lines) + LineRows(line)
  {
    ParseLinesAppend(lines, [line]);
    assert ParseLines([line]) == LineRows(line) by {
      assert [line][1..] == [];
    }
  }

  /** A blank line, a four-field line, or any line without exactly four or
      five `|`, is dropped without disturbing the lines around it. */
  lemma {:induction false} OtherArityDropped(a: seq<string>, line: string, b: seq<string>)
    requires |Fields(line)| != 5 && |Fields(line)| != 6
    ensures ParseLines(a + [line] + b) == ParseLines(a) + ParseLines(b)
  {
    assert LineRows(line) == [];
    ParseLinesSnoc(a, line);
    ParseLinesAppend(a + [line], b);
  }

  /** Where the two PDF readers part ways on one line: a four-field line is a
      row for the first script only, a six-field line for this one only, and a
      five-field line is the same volume row for both. */
  lemma ArityAgainstFirstReader(line: string)
    ensures |Fields(line)| == 4 ==> LineRows(line) == [] && |Pdf.LineRows(line)| == 1
    ensures |Fields(line)| == 6 ==> |LineRows(line)| == 1 && Pdf.LineRows(line) == []
    ensures |Fields(line)| == 5 ==>
              |LineRows(line)| == |Pdf.LineRows(line)| == 1 && LineRows(line)[0].Items() == Pdf.LineRows(line)[0].Items()
    ensures |Fields(line)| !in {4, 5, 6} ==> LineRows(line) == [] && Pdf.LineRows(line) == []
  {
  }

  /** The rows of a statistics file's text: its data lines parsed. */
  function Rows(content: string): (rows: seq<PdfRow>)
    ensures |rows| <= |Lines(content)| - 1
  {
    ParseLines(DataLines(content))
  }

  /** The header line never produces a row, even when it has five or six
      fields; an empty or blank file gives no row either.
      The blank case is already inside the first condition, since a blank
      text strips to nothing; it is named for the reader. */
  lemma HeaderOnlyNoRows(content: string)
    requires '\n' !in Strip(content) || AllSpace(content)
    ensures Rows(content) == []
  {
    if AllSpace(content) {
      BlankFileHasNoDataLines(content);
    } else {
      HeaderOnlyHasNoDataLines(content);
    }
  }

  /** `read_formatted_file`: a missing file gives the empty list; otherwise
      the header is skipped and every later line is split, stripped and kept
      by its field count. */
  method ReadFormattedFile(files: Files, path: string) returns (data: seq<PdfRow>)
    ensures path !in files ==> data == []
    ensures path in files ==> data == Rows(files[path])
  {
    if path !in files {
      return [];
    }
    var content := Lines(files[path]);
    var lines := content[1..];
    data := [];
    for i := 0 to |lines|
      invariant data == ParseLines(lines[..i])
    {
      PrefixSnoc(lines, i);
      ghost var before := data;
      var parts := Fields(lines[i]);
      if |parts| == 6 {
        data := data + [FullRow(parts[0], parts[1], parts[2], parts[3], parts[4], parts[5])];
      } else if |parts| == 5 {
        data := data + [VolumeRow(parts[0], parts[1], parts[2], parts[3], parts[4])];
      }
      assert data == before + LineRows(lines[i]);
      ParseLinesSnoc(lines[..i], lines[i]);
    }
    assert lines[..|lines|] == lines;
  }

  /** What the loop records for a name as its table: the rows of its
      statistics file when the file exists and yields at least one row. */
  function RowsPick(files: Files, statsDir: string): string -> Option<seq<PdfRow>> {
    n => if HasStats(files, statsDir, n) && Rows(files[StatsPath(statsDir, n)]) != []
         then Some(Rows(files[StatsPath(statsDir, n)])) else None
  }

  /** The table data `main` keeps: the rows of every name of `segList` whose
      statistics file exists and parses to at least one row. */
  function SelectedRows(files: Files, statsDir: string, segList: seq<string>): map<string, seq<PdfRow>> {
    Selected(segList, RowsPick(files, statsDir))
  }

  /** Every name with table data also has an image path. */
  lemma RowsHaveImages(files: Files, statsDir: string, vizDir: string, segList: seq<string>)
    ensures SelectedRows(files, statsDir, segList).Keys <= SelectedImages(files, statsDir, vizDir, segList).Keys
  {
  }

  /** `main`'s loop over the segmentation names: every name whose statistics
      file exists gets its image path; only those whose file parses to at
      least one row get table data, so every table has an image entry. */
  method CollectSegmentations(files: Files, statsDir: string, vizDir: string, segList: seq<string>)
    returns (formattedData: map<string, seq<PdfRow>>, segmentationImages: map<string, string>)
    ensures segmentationImages == SelectedImages(files, statsDir, vizDir, segList)
    ensures formattedData == SelectedRows(files, statsDir, segList)
    ensures formattedData.Keys <= segmentationImages.Keys
  {
    formattedData, segmentationImages := map[], map[];
    for i := 0 to |segList|
      invariant segmentationImages == SelectedImages(files, statsDir, vizDir, segList[..i])
      invariant formattedData == SelectedRows(files, statsDir, segList[..i])
    {
      var name := segList[i];
      PrefixSnoc(segList, i);
      SelectedSnoc(segList[..i], name, ImagePick(files, statsDir, vizDir));
      SelectedSnoc(segList[..i], name, RowsPick(files, statsDir));
      var filePath := StatsPath(statsDir, name);
      var segImg := ImagePath(vizDir, name);
      if filePath in files {
        var data := ReadFormattedFile(files, filePath);
        if data != [] {
          formattedData := formattedData[name := data];
        }
        segmentationImages := segmentationImages[name := segImg];
      }
    }
    assert segList[..|segList|] == segList;
    RowsHaveImages(files, statsDir, vizDir, segList);
  }
}
