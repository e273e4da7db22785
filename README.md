# ASLscp report readers and report assembly

This project models the part of the ASLscp report scripts that is not numerics or plotting. It covers:

- the three `read_formatted_file` readers, which turn a pipe-delimited region-statistics text file into a list of tuples;
- the loops in the report scripts that decide, for each requested segmentation name, which table and which image path go into the report;
- the HTML assembly of `workflows/create_html.py`.

Modules:

- `PyText` models the Python string builtins the readers rely on:
  - `str.strip()` with Python's whitespace set;
  - `str.split` on one character, with `Join` as its inverse;
  - `str.capitalize()`;
  - `os.path.join` on POSIX.
- `StatsFile` holds what all three scripts share:
  - the disk, modelled as a map from path to text;
  - the split of a file's text into lines and of a line into fields;
  - the statistics and image paths of a name;
  - the dictionary a selection loop builds.
- `Pdf` and `Not1Pdf` model the two PDF scripts:
  - their readers keep a line by its field count (4 or 5 for `Pdf`, 5 or 6 for `Not1Pdf`);
  - their selection loops keep a table only when it has rows, so every table has an image.
- `CreateHtml` models the HTML script:
  - its reader takes the first three fields of every data line and fails on a shorter one;
  - its selection loop stores the reader's outcome for every existing file;
  - its HTML assembly emits one section per requested name, in order.
- `Seqs` holds small facts about sequences.
- `Wrappers` holds `Option`, used for Python's `None`.

Each reader and each loop is a method with a loop, proved against a function on values:

- `ReadFormattedFile` against `Rows` or `FileOutcome`;
- `CollectSegmentations` against `Selected`;
- `RenderHtml` against `Document`.

The properties of those functions are proved as lemmas.

## Model

| member | source | states |
|---|---|---|
| PyText.Strip | workflows/pdf.py:11 | `str.strip()`: the text with leading and then trailing whitespace removed, never longer than the text (its meaning is stated by `StripShape` and `StripExact`) |
| PyText.IsSpace | workflows/pdf.py:11 | the characters Python's `str.isspace()` accepts, which `str.strip()` removes: space, tab through carriage return, the separators U+001C to U+001F, U+0085, U+00A0, U+1680, U+2000 to U+200A, U+2028, U+2029, U+202F, U+205F and U+3000 |
| PyText.LStripShape | workflows/pdf.py:11 | the left strip keeps a suffix of the text and removes only whitespace before it |
| PyText.RStripShape | workflows/pdf.py:11 | the right strip keeps a prefix of the text and removes only whitespace after it |
| PyText.StripShape | workflows/pdf.py:11 | a text is leading whitespace, then its stripped form, then trailing whitespace, and the stripped form has no whitespace at either end |
| PyText.StripExact | workflows/pdf.py:15 | text that is itself trimmed, wrapped in whitespace on both sides, strips to exactly that text |
| PyText.StripIgnoresTrailingSpace | workflows/pdf.py:11 | appending whitespace does not change the stripped text |
| PyText.Split | workflows/pdf.py:14 | splitting on one character gives one more piece than the text has separators |
| PyText.SplitPiecesHaveNoSep | workflows/pdf.py:14 | no piece of a split holds the separator |
| PyText.JoinSplit | workflows/pdf.py:14 | joining the pieces of a split with the separator gives back the text |
| PyText.SplitJoin | workflows/pdf.py:14 | splitting pieces that were joined gives back the pieces, when no piece holds the separator |
| PyText.Capitalize | workflows/create_html.py:74 | same length; the first character is upper-cased and every later one lower-cased |
| PyText.CapitalizeIdempotent | workflows/create_html.py:74 | capitalising twice is capitalising once |
| PyText.PathJoin | workflows/pdf.py:122-123 | the joined path ends with the second part; an absolute second part is the whole result; otherwise the result starts with the first part, and unless the first part is empty or ends in `/` the character after it is a `/` and the result is one longer than the two parts |
| StatsFile.Lines | workflows/pdf.py:11 | the text is cut into one more line than its stripped form has newlines |
| StatsFile.DataLines | workflows/pdf.py:13 | the header line is dropped: one line fewer |
| StatsFile.Fields | workflows/pdf.py:14-15 | a line has one more field than it has pipe characters |
| StatsFile.FieldsOfJoinedLine | workflows/pdf.py:14-15 | a line made of pieces without pipes, joined by pipes, gives exactly those pieces, each stripped, in order, so the spaces around each pipe are removed |
| StatsFile.FieldsOfTrimmedLine | workflows/pdf.py:14-15 | pieces that are already trimmed come back unchanged |
| StatsFile.BlankFileHasNoDataLines | workflows/pdf.py:11-13 | an empty or all-whitespace file has no data line |
| StatsFile.HeaderOnlyHasNoDataLines | workflows/pdf.py:11-13 | a text whose stripped form has no newline has no data line, whatever its header holds |
| StatsFile.TrailingSpaceAddsNoLine | workflows/pdf.py:11 | a trailing newline or other trailing whitespace adds no line |
| StatsFile.StatsPath | workflows/pdf.py:122 | the statistics directory, then `formatted_cbf_<name>.txt` |
| StatsFile.ImagePath | workflows/pdf.py:123 | the visualisation directory, then `w_<name>_meanCBF_80_mosaic_prism.png` |
| StatsFile.HasStats | workflows/pdf.py:124 | `os.path.exists` on the statistics path: the path is a key of the file map |
| StatsFile.Selected | workflows/pdf.py:118-128 | a loop over the names has an entry for exactly the names that get a value |
| StatsFile.SelectedSnoc | workflows/pdf.py:121-128 | one more loop pass adds that name's entry, if it gets one, and changes nothing else |
| Pdf.RowOf | workflows/pdf.py:16-21 | a line gives a row exactly when it has 4 or 5 fields, and the row's items are the fields in order |
| Pdf.LineRows | workflows/pdf.py:14-21 | a line contributes at most one row; one exactly when it has 4 or 5 fields, with the fields as its items |
| Pdf.ParseLines | workflows/pdf.py:12-21 | never more rows than data lines |
| Pdf.ParseLinesAppend | workflows/pdf.py:13-21 | each line is parsed on its own, and rows keep the order of their lines |
| Pdf.OtherArityDropped | workflows/pdf.py:16-21 | a line with any other field count, a blank line included, is dropped and the lines around it are unaffected |
| Pdf.Rows | workflows/pdf.py:11-22 | never more rows than lines minus the header |
| Pdf.HeaderOnlyNoRows | workflows/pdf.py:11-13 | the header line never gives a row, even with 4 or 5 fields; an empty file gives no row |
| Pdf.ReadFormattedFile | workflows/pdf.py:8-24 | a missing file gives the empty list; otherwise the result is the rows of the file's data lines |
| Pdf.RowsHaveImages | workflows/pdf.py:124-128 | every name with table data also has an image path |
| Pdf.CollectSegmentations | workflows/pdf.py:118-128 | the image map holds exactly the names whose statistics file exists; the table map holds exactly those whose file gives rows; its keys are a subset of the image map's keys |
| Not1Pdf.RowOf | workflows/not1_pdf.py:16-21 | a line gives a row exactly when it has 5 or 6 fields, and the row's items are the fields in order |
| Not1Pdf.LineRows | workflows/not1_pdf.py:14-21 | a line contributes at most one row; one exactly when it has 5 or 6 fields, with the fields as its items |
| Not1Pdf.ParseLines | workflows/not1_pdf.py:12-21 | never more rows than data lines |
| Not1Pdf.ParseLinesAppend | workflows/not1_pdf.py:13-21 | each line is parsed on its own, and rows keep the order of their lines |
| Not1Pdf.OtherArityDropped | workflows/not1_pdf.py:16-21 | a line with any other field count, 4 included, is dropped and the lines around it are unaffected |
| Not1Pdf.ArityAgainstFirstReader | workflows/not1_pdf.py:16-21 | compared with the first PDF reader, a 4-field line is dropped, a 6-field line is kept, and 5-field lines give the same volume row |
| Not1Pdf.Rows | workflows/not1_pdf.py:11-22 | never more rows than lines minus the header |
| Not1Pdf.HeaderOnlyNoRows | workflows/not1_pdf.py:11-13 | the header line never gives a row; an empty file gives no row |
| Not1Pdf.ReadFormattedFile | workflows/not1_pdf.py:8-24 | a missing file gives the empty list; otherwise the result is the rows of the file's data lines |
| Not1Pdf.RowsHaveImages | workflows/not1_pdf.py:118-122 | every name with table data also has an image path |
| Not1Pdf.CollectSegmentations | workflows/not1_pdf.py:112-122 | the image map holds exactly the names whose statistics file exists; the table map holds exactly those whose file gives rows; its keys are a subset of the image map's keys |
| CreateHtml.RowOf | workflows/create_html.py:27-31 | a line gives a row exactly when it has at least two pipe characters |
| CreateHtml.RowOfFields | workflows/create_html.py:27-31 | the row is the first three fields in order; later fields are ignored |
| CreateHtml.ParseLines | workflows/create_html.py:25-31 | parsed lines give exactly one row per line |
| CreateHtml.ParseLinesMeaning | workflows/create_html.py:26-31 | the lines parse exactly when every line gives a row, and then the k-th row is the k-th line's |
| CreateHtml.ParsedRows | workflows/create_html.py:26-31 | rows that match the lines one for one are the parse of those lines |
| CreateHtml.ShortLineFails | workflows/create_html.py:28-30 | one data line with fewer than three fields makes the whole read fail |
| CreateHtml.FileOutcome | workflows/create_html.py:24-32 | reading existing text never gives the not-found outcome; a successful read has one row per line after the header |
| CreateHtml.HeaderOnlyReadsEmpty | workflows/create_html.py:24-26 | a header-only or blank file reads as the empty list, and its header is never checked for three fields |
| CreateHtml.ReadFormattedFile | workflows/create_html.py:21-34 | `None` exactly for a missing file; otherwise the rows of the data lines, or the `IndexError` of a short line |
| CreateHtml.OutcomeIsTable | workflows/create_html.py:43-44 | the read outcome of an existing file is its stored table, or the error when a line is short |
| CreateHtml.CollectSegmentations | workflows/create_html.py:37-45 | the loop finishes exactly when no existing requested file has a short line; then both maps hold exactly the names whose statistics file exists, with the read rows and the image path |
| CreateHtml.SectionOpen | workflows/create_html.py:73-82 | the section heading with the capitalised name, the image tag with its source and alt text, and the table header row, as the exact text |
| CreateHtml.RowHtml | workflows/create_html.py:85-91 | one `<tr>` block with the cells region, mean and standard deviation, in order, as the exact text |
| CreateHtml.RowsHtml | workflows/create_html.py:84-91 | the row blocks of a table, one per row, in row order |
| CreateHtml.ImageSrc | workflows/create_html.py:75 | `segmentation_images.get(prefix, '')`: the recorded image path, or the empty text for a name without one |
| CreateHtml.HasRows | workflows/create_html.py:83 | `formatted_data.get(prefix)` is truthy: the name has an entry that is a non-empty list |
| CreateHtml.SectionHtml | workflows/create_html.py:72-98 | the section of a name: `SectionOpen` with the image path or `''`, then the rows of a non-empty table or the single `NoDataRow` (line 93), then `TableClose` (lines 95-98) |
| CreateHtml.SectionsHtml | workflows/create_html.py:72-98 | one section per name, in list order |
| CreateHtml.Document | workflows/create_html.py:47-103 | the constant `Head` (lines 48-70), then the sections, then the constant `Tail` (lines 100-103) |
| CreateHtml.DocumentFrame | workflows/create_html.py:48-103 | every document begins with the fixed head and ends with the closing fragment |
| CreateHtml.RowAt | workflows/create_html.py:84-91 | the k-th row's block sits between the blocks of the rows before and after it |
| CreateHtml.SectionAt | workflows/create_html.py:72-98 | the k-th section of the document belongs to the k-th requested name, between the sections of the names before and after it |
| CreateHtml.MissingStatsSection | workflows/create_html.py:72-98 | a name without a statistics file still gets a section, with an empty image source and the no-data row |
| CreateHtml.AppendRows | workflows/create_html.py:84-91 | the inner loop appends one row block per row, in row order |
| CreateHtml.AppendSection | workflows/create_html.py:73-98 | one outer pass appends the name's heading and image, then its rows or the single no-data row, then the end of the table |
| CreateHtml.RenderHtml | workflows/create_html.py:47-103 | the text is the fixed head, then one section per requested name in order, then the closing fragment |
| CreateHtml.GenerateReport | workflows/create_html.py:37-103 | no document when some requested file has a short line; otherwise the document of exactly the selected tables and images |

## Left out

- `workflows/cbf_calc.py` and `workflows/t1fit.py` are not part of this model. They are floating-point numerics with `exp`, NaN replacement and scipy interpolation, plus nibabel image I/O, none of which Dafny can represent faithfully.
- `workflows/viz.py` is not part of this model: it is plotting through nilearn and matplotlib.
- `generate_pdf` in both PDF scripts is not modelled: it is reportlab page layout. This includes the reference to the undefined `mean_cbf_bw_img` at workflows/not1_pdf.py:43, which fails only on the rendering path.
- Command-line parsing is not modelled: the directories and the name list are parameters. A missing argument, which makes Python raise a `TypeError`, is not modelled.
- Writing the PDF or HTML file and the final `print` are not modelled: the model ends with the data maps or the HTML text.
- The disk is a map from path to text that does not change while a script runs. The following are therefore not modelled:
  - byte decoding and its errors;
  - universal-newline translation, since the text is taken as already translated;
  - a directory at a statistics path, which passes `os.path.exists` but fails `open`;
  - an existing file the script may not read, where `open` raises a `PermissionError` that no script catches;
  - a file that disappears between `os.path.exists` and `open`.
- CreateHtml.CollectSegmentations: after the existence check the read never reports a missing file, so the `None` a table entry could hold in the source never arises in the model. Rendering still handles an absent or empty entry.
- PyText.Capitalize: only ASCII letters change case, whereas Python's `str.capitalize` also maps non-ASCII letters, including title-case first characters.
- Dictionary insertion order is not modelled; dictionaries are maps. Only `generate_pdf` iterates over them.
- An `IndexError` in the HTML script's reader is not caught. The script then ends with no output, which CreateHtml.GenerateReport models as no document.
- The HTML text, including the CSS block, is modelled character for character as constant strings. No property is proved about what the CSS means.
