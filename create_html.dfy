/** The HTML report script: its statistics reader (first three fields of
    every data line, failing on a shorter line), the loop that pairs each
    segmentation name with its table and image, and the assembly of the HTML
    text, one section per requested name. */
module CreateHtml {
  import opened Wrappers
  import opened PyText
  import opened StatsFile
  import opened Seqs

  /** The `(region, mean_cbf, std_dev)` tuple of one data line. */
  datatype StatRow = StatRow(region: string, meanCbf: string, stdDev: string)

  /** How `read_formatted_file` ends. */
  datatype ReadOutcome =
    | NotFound                  // FileNotFoundError, caught: the function returns None
    | IndexError                // a data line with fewer than three fields: raised, not caught
    | Read(rows: seq<StatRow>)  // the rows, one per data line

  /** One data line: its first three `|`-separated pieces, stripped, and
      nothing when the line has fewer than two `|` (where the source indexes
      past the end of the pieces). Pieces after the third are ignored. */
  function RowOf(line: string): (r: Option<StatRow>)
    ensures r.Some? <==> multiset(line)['|'] >= 2
  {
    var parts := Split(line, '|');
    if |parts| < 3 then None
    else Some(StatRow(Strip(parts[0]), Strip(parts[1]), Strip(parts[2])))
  }

  /** A row holds the first three fields of its line, in order. */
  lemma RowOfFields(line: string)
    requires RowOf(line).Some?
    ensures RowOf(line).value.region == Fields(line)[0]
    ensures RowOf(line).value.meanCbf == Fields(line)[1]
    ensures RowOf(line).value.stdDev == Fields(line)[2]
  {
  }

  /** The rows of a run of data lines: one row per line, in line order, or
      nothing at all as soon as one line is too short (`ParseLinesMeaning`). */
  function ParseLines(lines: seq<string>): (r: Option<seq<StatRow>>)
    ensures r.Some? ==> |r.value| == |lines|
  {
    if lines == [] then Some([])
    else
      match (RowOf(lines[0]), ParseLines(lines[1..]))
      case (Some(row), Some(rest)) => Some([row] + rest)
      case _ => None
  }

  /** The lines parse exactly when every one of them gives a row, and then
      the `k`-th row is the `k`-th line's. */
  lemma {:induction false} ParseLinesMeaning(lines: seq<string>)
    ensures ParseLines(lines).Some? <==> forall k :: 0 <= k < |lines| ==> RowOf(lines[k]).Some?
    ensures ParseLines(lines).Some? ==> forall k :: 0 <= k < |lines| ==> RowOf(lines[k]) == Some(ParseLines(lines).value[k])
  {
    if lines != [] {
      var tail := lines[1..];
      ParseLinesMeaning(tail);
      assert forall k :: 1 <= k < |lines| ==> lines[k] == tail[k - 1];
      if ParseLines(lines).Some? {
        var rows := ParseLines(lines).value;
        assert rows == [RowOf(lines[0]).value] + ParseLines(tail).value;
        forall k | 0 <= k < |lines| ensures RowOf(lines[k]) == Some(rows[k]) {
          if k > 0 {
            assert rows[k] == ParseLines(tail).value[k - 1];
          }
        }
      } else if RowOf(lines[0]).Some? {
        var k :| 0 <= k < |tail| && RowOf(tail[k]).None?;
        assert RowOf(lines[k + 1]).None?;
      }
    }
  }

  /** Rows that match the data lines one for one are the parse of those
      lines. */
  lemma ParsedRows(lines: seq<string>, rows: seq<StatRow>)
    requires |rows| == |lines|
    requires forall k :: 0 <= k < |lines| ==> RowOf(lines[k]) == Some(rows[k])
    ensures ParseLines(lines) == Some(rows)
  {
    ParseLinesMeaning(lines);
    var parsed := ParseLines(lines);
    assert parsed.Some?;
    assert parsed.value == rows;
  }

  /** One line without three fields makes the whole parse fail. */
  lemma ShortLineFails(lines: seq<string>, i: nat)
    requires i < |lines| && RowOf(lines[i]).None?
    ensures ParseLines(lines) == None
  {
    ParseLinesMeaning(lines);
  }

  /** What reading a statistics file's text comes to: its data lines parsed. */
  function FileOutcome(content: string): (r: ReadOutcome)
    ensures r != NotFound
    ensures r.Read? ==> |r.rows| == |Lines(content)| - 1
  {
    match ParseLines(DataLines(content))
    case Some(rows) => Read(rows)
    case None => IndexError
  }

  /** The header line never produces a row and is never checked for three
      fields; an empty or blank file reads as no rows. The blank case is
      already inside the first condition, since a blank text strips to
      nothing; it is named for the reader. */
  lemma HeaderOnlyReadsEmpty(content: string)
    requires '\n' !in Strip(content) || AllSpace(content)
    ensures FileOutcome(content) == Read([])
  {
    if AllSpace(content) {
      BlankFileHasNoDataLines(content);
    } else {
      HeaderOnlyHasNoDataLines(content);
    }
  }

  /** `read_formatted_file`: `None` for a missing file; otherwise one row per
      data line, or the `IndexError` of the first line with fewer than three
      fields. */
  method ReadFormattedFile(files: Files, path: string) returns (result: ReadOutcome)
    ensures result == NotFound <==> path !in files
    ensures path in files ==> result == FileOutcome(files[path])
  {
    if path !in files {
      return NotFound;
    }
    var content := Lines(files[path]);
    var lines := content[1..];
    var data := [];
    for i := 0 to |lines|
      invariant |data| == i
      invariant forall k :: 0 <= k < i ==> RowOf(lines[k]) == Some(data[k])
    {
      var parts := Split(lines[i], '|');
      if |parts| < 3 {
        // `parts[1]` or `parts[2]` is out of range
        ShortLineFails(lines, i);
        return IndexError;
      }
      var row := StatRow(Strip(parts[0]), Strip(parts[1]), Strip(parts[2]));
      assert RowOf(lines[i]) == Some(row);
      data := data + [row];
    }
    ParsedRows(lines, data);
    result := Read(data);
  }

  /** A name's table as the loop stores it: the list of rows of its
      statistics file, or `None` when a data line is too short (the read then
      raises, and `AllReadable` fails, so such a value is never stored). */
  function TableOf(files: Files, statsDir: string, name: string): Option<seq<StatRow>>
    requires HasStats(files, statsDir, name)
  {
    ParseLines(DataLines(files[StatsPath(statsDir, name)]))
  }

  /** What the loop records for a name as its table: the read outcome, when
      the name's statistics file exists. */
  function TablePick(files: Files, statsDir: string): string -> Option<Option<seq<StatRow>>> {
    n => if HasStats(files, statsDir, n) then Some(TableOf(files, statsDir, n)) else None
  }

  /** A name's read outcome is its table: the rows when every data line has
      three fields, the `IndexError` otherwise. */
  lemma OutcomeIsTable(files: Files, statsDir: string, name: string)
    requires HasStats(files, statsDir, name)
    ensures FileOutcome(files[StatsPath(statsDir, name)]) ==
            if TableOf(files, statsDir, name).Some? then Read(TableOf(files, statsDir, name).value) else IndexError
  {
  }

  /** The tables the loop stores, for exactly the names of `segList` whose
      statistics file exists. */
  function SelectedTables(files: Files, statsDir: string, segList: seq<string>): map<string, Option<seq<StatRow>>> {
    Selected(segList, TablePick(files, statsDir))
  }

  /** No statistics file of a requested name has a data line that is too
      short, so the loop runs to the end. */
  predicate AllReadable(files: Files, statsDir: string, segList: seq<string>) {
    forall n :: n in segList && HasStats(files, statsDir, n) ==> TableOf(files, statsDir, n).Some?
  }

  /** The module-level loop over the segmentation names: an entry in both
      dictionaries for exactly the names whose statistics file exists, unless
      one of those files holds a short data line, which ends the script. */
  method CollectSegmentations(files: Files, statsDir: string, vizDir: string, segList: seq<string>)
    returns (ok: bool, formattedData: map<string, Option<seq<StatRow>>>, segmentationImages: map<string, string>)
    ensures ok <==> AllReadable(files, statsDir, segList)
    ensures ok ==> segmentationImages == SelectedImages(files, statsDir, vizDir, segList)
    ensures ok ==> formattedData == SelectedTables(files, statsDir, segList)
    ensures ok ==> formattedData.Keys == segmentationImages.Keys
  {
    formattedData, segmentationImages := map[], map[];
    for i := 0 to |segList|
      invariant AllReadable(files, statsDir, segList[..i])
      invariant segmentationImages == SelectedImages(files, statsDir, vizDir, segList[..i])
      invariant formattedData == SelectedTables(files, statsDir, segList[..i])
    {
      var name := segList[i];
      PrefixSnoc(segList, i);
      SelectedSnoc(segList[..i], name, ImagePick(files, statsDir, vizDir));
      SelectedSnoc(segList[..i], name, TablePick(files, statsDir));
      var filePath := StatsPath(statsDir, name);
      var segImg := ImagePath(vizDir, name);
      if filePath in files {
        var outcome := ReadFormattedFile(files, filePath);
        OutcomeIsTable(files, statsDir, name);
        if outcome == IndexError {
          assert name in segList && TableOf(files, statsDir, name) == None;
          return false, formattedData, segmentationImages;
        }
        // `outcome` is `Read` here: the file exists, so the `None` of a caught
        // `FileNotFoundError` is only the source's type, never its value.
        formattedData := formattedData[name := if outcome.Read? then Some(outcome.rows) else None];
        segmentationImages := segmentationImages[name := segImg];
      }
    }
    assert segList[..|segList|] == segList;
    ok := true;
  }

  /** The opening block of the document, up to the page heading. */
  const Head: string :=
    "\n<!DOCTYPE html>\n<html>\n<head>\n<title>Pipeline Evaluation</title>\n<style>\n"
    + "table, th, td {\n  border: 1px solid black;\n  border-collapse: collapse;\n  padding: 5px;\n  text-align: center;\n}\n"
    + "img {\n  max-width: 800px; /* Adjust as needed */\n  height: auto;\n}\n"
    + "</style>\n</head>\n<body>\n\n<h1>Pipeline Evaluation</h1>\n\n"

  /** The closing fragment of the document. */
  const Tail: string := "\n</body>\n</html>\n"

  /** The row shown in place of a table's rows when there are none. */
  const NoDataRow: string := "<tr><td colspan='3'>No data found for this segmentation.</td></tr>"

  /** The end of every section's table. */
  const TableClose: string := "\n    </table>\n    <br>\n    "

  /** A section's heading, image and table header. */
  function SectionOpen(prefix: string, imageSrc: string): string {
    "\n    <h2>" + Capitalize(prefix) + " CBF values extracted from segmentations</h2>\n"
    + "    <img src=\"" + imageSrc + "\" alt=\"" + Capitalize(prefix) + " Segmentation\">\n"
    + "    <table>\n    <tr>\n        <th>Region</th>\n        <th>Mean CBF</th>\n"
    + "        <th>Standard Deviation</th>\n    </tr>\n    "
  }

  /** One table row: the cells region, mean and standard deviation, in order. */
  function RowHtml(row: StatRow): string {
    "\n            <tr>\n                <td>" + row.region + "</td>\n"
    + "                <td>" + row.meanCbf + "</td>\n"
    + "                <td>" + row.stdDev + "</td>\n            </tr>\n            "
  }

  /** The rows of a table, one `RowHtml` per row, in row order. */
  function RowsHtml(rows: seq<StatRow>): string {
    ConcatMap(rows, RowHtml)
  }

  /** `segmentation_images.get(prefix, '')` */
  function ImageSrc(images: map<string, string>, prefix: string): string {
    if prefix in images then images[prefix] else ""
  }

  /** `formatted_data.get(prefix)` is truthy: an entry that is a non-empty
      list. */
  predicate HasRows(data: map<string, Option<seq<StatRow>>>, prefix: string) {
    prefix in data && data[prefix].Some? && data[prefix].value != []
  }

  /** The section of one name: heading and image, then its rows or the single
      no-data row, then the end of the table. */
  function SectionHtml(prefix: string, data: map<string, Option<seq<StatRow>>>, images: map<string, string>): string {
    SectionOpen(prefix, ImageSrc(images, prefix))
    + (if HasRows(data, prefix) then RowsHtml(data[prefix].value) else NoDataRow)
    + TableClose
  }

  function SectionFor(data: map<string, Option<seq<StatRow>>>, images: map<string, string>): string -> string {
    prefix => SectionHtml(prefix, data, images)
  }

  /** The sections of a list of names, one per name, in list order. */
  function SectionsHtml(names: seq<string>, data: map<string, Option<seq<StatRow>>>, images: map<string, string>): string {
    ConcatMap(names, SectionFor(data, images))
  }

  /** The `k`-th section of the document is the `k`-th name's: everything
      before it belongs to the names before, everything after it to the
      names after. */
  lemma SectionAt(names: seq<string>, k: nat, data: map<string, Option<seq<StatRow>>>, images: map<string, string>)
    requires k < |names|
    ensures SectionsHtml(names, data, images) ==
            SectionsHtml(names[..k], data, images) + SectionHtml(names[k], data, images) + SectionsHtml(names[k + 1..], data, images)
  {
    ConcatMapAt(names, k, SectionFor(data, images));
  }

  /** The `k`-th row of a table is shown by the `k`-th `<tr>` block, after
      the blocks of the rows before it and before those of the rows after. */
  lemma RowAt(rows: seq<StatRow>, k: nat)
    requires k < |rows|
    ensures RowsHtml(rows) == RowsHtml(rows[..k]) + RowHtml(rows[k]) + RowsHtml(rows[k + 1..])
  {
    ConcatMapAt(rows, k, RowHtml);
  }

  /** A requested name whose statistics file does not exist still gets its
      section, with an empty image source and the no-data row. */
  lemma MissingStatsSection(files: Files, statsDir: string, vizDir: string, segList: seq<string>, name: string)
    requires !HasStats(files, statsDir, name)
    ensures SectionHtml(name, SelectedTables(files, statsDir, segList), SelectedImages(files, statsDir, vizDir, segList))
            == SectionOpen(name, "") + NoDataRow + TableClose
  {
  }

  /** The whole document: the fixed head, the sections, the closing
      fragment. */
  function Document(segList: seq<string>, data: map<string, Option<seq<StatRow>>>, images: map<string, string>): string {
    Head + SectionsHtml(segList, data, images) + Tail
  }

  /** The document opens with the fixed head and closes with the closing
      fragment, whatever names, tables and images it is given. */
  lemma DocumentFrame(segList: seq<string>, data: map<string, Option<seq<StatRow>>>, images: map<string, string>)
    ensures var doc := Document(segList, data, images);
            |Head| + |Tail| <= |doc| && doc[..|Head|] == Head && doc[|doc| - |Tail|..] == Tail
  {
    var body := SectionsHtml(segList, data, images);
    AppendAssoc(Head, body, Tail);
  }

  /** The loop over one table's rows: `html_content` grows by one row's
      markup per row, in row order. */
  method AppendRows(htmlContent: string, rows: seq<StatRow>) returns (out: string)
    ensures out == htmlContent + RowsHtml(rows)
  {
    out := htmlContent;
    for j := 0 to |rows|
      invariant out == htmlContent + RowsHtml(rows[..j])
    {
      ConcatMapSnoc(rows, j, RowHtml);
      AppendAssoc(htmlContent, RowsHtml(rows[..j]), RowHtml(rows[j]));
      out := out + RowHtml(rows[j]);
    }
    assert rows[..|rows|] == rows;
  }

  /** One pass of the loop over the names: `html_content` grows by the
      section of `prefix`. */
  method AppendSection(htmlContent: string, prefix: string,
                       formattedData: map<string, Option<seq<StatRow>>>, segmentationImages: map<string, string>)
    returns (out: string)
    ensures out == htmlContent + SectionHtml(prefix, formattedData, segmentationImages)
  {
    var imageSrc := if prefix in segmentationImages then segmentationImages[prefix] else "";
    ghost var opening := SectionOpen(prefix, imageSrc);
    ghost var body := if HasRows(formattedData, prefix) then RowsHtml(formattedData[prefix].value) else NoDataRow;
    out := htmlContent + SectionOpen(prefix, imageSrc);
    var entry := if prefix in formattedData then formattedData[prefix] else None;
    if entry.Some? && entry.value != [] {
      out := AppendRows(out, entry.value);
    } else {
      out := out + NoDataRow;
    }
    out := out + TableClose;
    AppendAssoc(htmlContent, opening, body);
    AppendAssoc(htmlContent, opening + body, TableClose);
  }

  /** The HTML assembly: `html_content` starts as the head, grows by the
      section of each name of `segList` in order (every row of a non-empty
      table, or the no-data row), and ends with the closing fragment. */
  method RenderHtml(segList: seq<string>, formattedData: map<string, Option<seq<StatRow>>>, segmentationImages: map<string, string>)
    returns (htmlContent: string)
    ensures htmlContent == Document(segList, formattedData, segmentationImages)
  {
    htmlContent := Head;
    for i := 0 to |segList|
      invariant htmlContent == Head + SectionsHtml(segList[..i], formattedData, segmentationImages)
    {
      ConcatMapSnoc(segList, i, SectionFor(formattedData, segmentationImages));
      AppendAssoc(Head, SectionsHtml(segList[..i], formattedData, segmentationImages),
                  SectionHtml(segList[i], formattedData, segmentationImages));
      htmlContent := AppendSection(htmlContent, segList[i], formattedData, segmentationImages);
    }
    assert segList[..|segList|] == segList;
    htmlContent := htmlContent + Tail;
  }

  /** The script from the collection loop to the finished text: no document
      when some requested statistics file has a short data line, otherwise
      the document of the selected tables and images. */
  method GenerateReport(files: Files, statsDir: string, vizDir: string, segList: seq<string>) returns (html: Option<string>)
    ensures html.Some? <==> AllReadable(files, statsDir, segList)
    ensures html.Some? ==> html.value == Document(segList, SelectedTables(files, statsDir, segList),
                                                  SelectedImages(files, statsDir, vizDir, segList))
  {
    var ok, formattedData, segmentationImages := CollectSegmentations(files, statsDir, vizDir, segList);
    if !ok {
      return None;
    }
    var htmlContent := RenderHtml(segList, formattedData, segmentationImages);
    html := Some(htmlContent);
  }
}
