# Page, rotation and clip-grouping logic of a set of media scripts

This project models the pure logic inside three command-line scripts and their shared helper, and proves properties of it in Dafny:

- **extract_pdf_pages.py**: `get_range` turns a page specification such as `"4-6"` or `"8"` into zero-based page indices for a document with a given page count. `main` then appends the pages of every specification to the output document, in the order the specifications were given. The document is abstract: a page count goes in, and the sequence of page indices handed to the writer comes out (`ExtractPdfPages`).
- **merge_gopro_clips.py**: `get_subclips_from_dir` groups the enumerated camera files by clip number, using characters 5..7 of the name. Each entry keeps the subclip number (characters 2..3) and the file. `main` then writes one `<clip>_merged.mp4` per group (`MergeGoproClips`).
- **rotate_pdf.py**: the `--dir` option selects a signed rotation, and `open_and_rotate_pdf` rotates every page by it, in index order. A page is abstract: its content and the clockwise rotation it has accumulated (`RotatePdf`).
- **util.py**: `check_positive`, the positive-integer argument validator (`Util`). merge_gopro_clips.py:9-13 is an identical copy, so it is modelled once.

Shared pieces:
- `Cli` holds the outcomes: a value, a Python `ValueError`, an `argparse.ArgumentTypeError` with its message, or a `sys.exit`.
- `PyInt` models Python's `int()` on ASCII text. It also proves that `int(str(n)) == n`.

Two behaviours of the code differ from its own docstrings, and the model follows the code:
- `get_range` accepts a span whose start equals its end, although its docstring asks for start < end (extract_pdf_pages.py:13, 24).
- The clip number is three characters (`fname[5:8]`, merge_gopro_clips.py:44), although the docstring calls it the last four digits (merge_gopro_clips.py:29). So `GX010533.mp4` and `GX011533.mp4` both have clip number `533`, and their files are merged into one `533_merged.mp4`.

Other facts about the code that the model keeps:
- `get_range` has no lower-bound check, so `"0"` selects index -1.
- `get_range` checks the page count before it checks the shape of the specification.
- `sorted(subclips)` discards its result, so each group stays in enumeration order.
- There is no singleton skip, no clip allow-list and no dry run.

## Model

| member | source | states |
|---|---|---|
| `Util.CheckPositive` | util.py:49-53 | accepts exactly the texts int() converts to a value above zero, and returns that value; a conversion failure is a ValueError; a value of zero or below is an ArgumentTypeError whose message quotes the original text |
| `Util.PositiveAccepted` | util.py:50-53 | the numeral of any positive n is returned as n |
| `Util.ZeroRejected` | util.py:51-52 | "0" is rejected with the "must be positive integer." message quoting "0" |
| `Util.NegativeRejected` | util.py:50-52 | "-n" is rejected, and the message quotes "-n" as given |
| `Util.NonNumericRejected` | util.py:50 | text with a character int() refuses fails at conversion, before the sign test |
| `PyInt.ParseInt` | extract_pdf_pages.py:17 | a successful int() has a non-empty text whose characters after the first are digits; with no '-' in the text the value is not negative |
| `PyInt.ParseNumeral` | util.py:50 | int(str(n)) == n for every natural n |
| `PyInt.ParseNegativeNumeral` | util.py:50 | int("-" + str(n)) == -n |
| `PyInt.RejectsNonDigit` | extract_pdf_pages.py:17 | a character that is neither a digit nor a leading sign makes int() fail |
| `ExtractPdfPages.Split` | extract_pdf_pages.py:17 | split('-') yields at least one piece, and no piece contains '-' |
| `ExtractPdfPages.JoinSplit` | extract_pdf_pages.py:17 | joining the pieces with '-' gives back the specification |
| `ExtractPdfPages.ParsePieces` | extract_pdf_pages.py:17 | the conversion succeeds exactly when every piece is an integer, giving their values in order; otherwise it is a ValueError for the first piece int() refuses, every piece before it converting |
| `ExtractPdfPages.Range` | extract_pdf_pages.py:29 | range(lo, hi) has hi - lo elements lo, lo+1, ... (none when hi <= lo) |
| `ExtractPdfPages.AnyAbove` | extract_pdf_pages.py:20 | definition of the test any(i > pagecount for i in parts) used by RangeOfParts: false exactly when every number is at most the page count |
| `ExtractPdfPages.RangeOfParts` | extract_pdf_pages.py:19-37 | after conversion, success holds exactly when no number is above the page count and there is one number, or two in non-decreasing order; one number p gives [p - 1]; two numbers s, e give the e - s + 1 indices s - 1, ..., e - 1; a number above the count is "Page is outside of range."; a backwards pair is the start-after-end error; any other count of numbers is the format error quoting the specification |
| `ExtractPdfPages.GetRange` | extract_pdf_pages.py:7-37 | success needs a specification with one or two pieces and yields a non-empty list of indices between -1 and page count - 1; the error is a ValueError exactly when some piece is not an integer |
| `ExtractPdfPages.SinglePage` | extract_pdf_pages.py:17-32 | any text without '-' that int() reads as x, with x <= page count, yields exactly [x - 1] |
| `ExtractPdfPages.PageZeroGivesMinusOne` | extract_pdf_pages.py:20-32 | with no lower-bound check, "0" yields [-1] |
| `ExtractPdfPages.OtherSpellingsAccepted` | extract_pdf_pages.py:17-32 | "03" and "+3" select page 3 like "3", since int() accepts a leading zero and a plus sign |
| `ExtractPdfPages.SpanPieces` | extract_pdf_pages.py:17 | a + "-" + b, with a and b free of '-' and read by int() as s and e, converts to exactly [s, e] |
| `ExtractPdfPages.PageSpan` | extract_pdf_pages.py:17-29 | for any texts a, b without '-' that int() reads as s <= e <= page count, a + "-" + b yields s-1, ..., e-1, which is e-s+1 indices; s == e is accepted |
| `ExtractPdfPages.SpanBackwardsRejected` | extract_pdf_pages.py:17-25 | for any texts a, b without '-' that int() reads as e < s <= page count, a + "-" + b is rejected as start after end |
| `ExtractPdfPages.AboveCountRejectedFirst` | extract_pdf_pages.py:20-21 | once every piece converts, any number above the page count is reported as out of range, whatever the number of pieces |
| `ExtractPdfPages.TooManyNumbersRejected` | extract_pdf_pages.py:33-35 | three or more numbers within the page count are a format error that quotes the specification |
| `ExtractPdfPages.OutOfRangeBeatsMalformed` | extract_pdf_pages.py:20-35 | "1-2-99" against ten pages fails as out of range, not as malformed |
| `ExtractPdfPages.NonNumericPieceRejected` | extract_pdf_pages.py:17 | a piece that is not an integer makes get_range fail with a ValueError before any other check |
| `ExtractPdfPages.LeadingDashRejected` | extract_pdf_pages.py:17 | "-n" fails at conversion of its empty first piece |
| `ExtractPdfPages.TrailingDashRejected` | extract_pdf_pages.py:17 | "n-" fails at conversion of its empty last piece |
| `ExtractPdfPages.RangesOf` | extract_pdf_pages.py:47-48 | definition of the per-specification results the loop of AssemblePages and ExtractPages consumes: get_range of each specification, in order |
| `ExtractPdfPages.ConcatResults` | extract_pdf_pages.py:47-50 | joining the per-specification results succeeds exactly when every one of them succeeds |
| `ExtractPdfPages.ConcatFirstError` | extract_pdf_pages.py:47-48 | a failed join carries the error of the earliest failing result, and every result before it succeeded |
| `ExtractPdfPages.AssemblePages` | extract_pdf_pages.py:47-50 | a run succeeds exactly when get_range accepts every specification |
| `ExtractPdfPages.AssembleFirstError` | extract_pdf_pages.py:47-48 | a failed run reports the error of the first specification get_range rejects, and every specification before it was accepted |
| `ExtractPdfPages.AssembledIndicesInRange` | extract_pdf_pages.py:20-50 | every index a successful run hands the writer lies between -1 and page count - 1 |
| `ExtractPdfPages.ConcatAppend` | extract_pdf_pages.py:47-50 | concatenating the results of two lists of specifications is concatenating their joined results, with the earliest error winning |
| `ExtractPdfPages.AssembleAppend` | extract_pdf_pages.py:47-50 | the page list of two runs of specifications, one after the other, is the first run's pages followed by the second's |
| `ExtractPdfPages.RepeatsKept` | extract_pdf_pages.py:47-50 | "1 1 2" yields [0, 0, 1]: repeated pages are kept, in the order given |
| `ExtractPdfPages.ExtractPages` | extract_pdf_pages.py:47-50 | the nested loop hands the writer exactly the concatenation of every specification's pages in order, or stops with the first rejected specification's error |
| `MergeGoproClips.Slice` | merge_gopro_clips.py:44-45 | Python slicing clamps both bounds to the length of the name |
| `MergeGoproClips.ClipKey` | merge_gopro_clips.py:43-44 | the clip number is characters 5, 6 and 7 of the file name, as many of them as the name has: three when the name has at least eight characters, length - 5 for five to seven, none below five |
| `MergeGoproClips.SubclipOf` | merge_gopro_clips.py:43-45 | the subclip number is characters 2 and 3 of the file name, as many of them as the name has: two when the name has at least four characters, length - 2 for two or three, none below two |
| `MergeGoproClips.ExampleFields` | merge_gopro_clips.py:26-31 | GX010533.mp4 has clip number "533" and subclip "01" |
| `MergeGoproClips.RecordingsSharingLastThreeDigitsCollide` | merge_gopro_clips.py:44 | GX010533.mp4 and GX011533.mp4 get the same clip number "533", so they land in one group |
| `MergeGoproClips.FirstSeenKeys` | merge_gopro_clips.py:47-50 | the dictionary's keys are distinct and number at most the enumerated files |
| `MergeGoproClips.MembersWithKey` | merge_gopro_clips.py:41-50 | a clip's list has no more entries than there are files, and each entry is (subclip, path) of an enumerated file with that clip number |
| `MergeGoproClips.AtMostOneEntryPerFile` | merge_gopro_clips.py:41-50 | each enumerated file contributes at most one entry to a clip's list: the list's paths, as a multiset, are contained in the enumerated files |
| `MergeGoproClips.KeysInFirstSeenOrder` | merge_gopro_clips.py:47-50 | if clip j comes after clip i in the dictionary, then every file with clip j is preceded by some file with clip i |
| `MergeGoproClips.Grouped` | merge_gopro_clips.py:40-52 | the dictionary's key list has no repeats, holds exactly the keys of its map, and every list in it is non-empty |
| `MergeGoproClips.GetSubclipsFromDir` | merge_gopro_clips.py:22-52 | an empty listing exits with the "no GoPro files" message; otherwise the dictionary lists each clip number once, in order of first appearance, and holds under it the entries of exactly the files with that number, in enumeration order |
| `MergeGoproClips.KeysAreNonEmptyGroups` | merge_gopro_clips.py:47-50 | a clip number is a key exactly when some file carries it, and its list is then non-empty |
| `MergeGoproClips.FileInItsGroup` | merge_gopro_clips.py:41-50 | every entry of a group is an enumerated file with that clip number, and every enumerated file is an entry of its own clip's group |
| `MergeGoproClips.MembersAppend` | merge_gopro_clips.py:41-48 | grouping a listing split in two gives each group the first part's entries followed by the second part's, which is enumeration order |
| `MergeGoproClips.GroupSizesSum` | merge_gopro_clips.py:41-50 | the group sizes add up to the number of enumerated files |
| `MergeGoproClips.EnumerationOrderKept` | merge_gopro_clips.py:76 | since sorted(...) discards its result, subclip 02 enumerated before subclip 01 stays first in the group |
| `MergeGoproClips.OutputDir` | merge_gopro_clips.py:60-64 | merged files go to --dest when it is given, otherwise to the input directory; MergeMain uses it for every merge |
| `MergeGoproClips.OutputName` | merge_gopro_clips.py:81 | the output name is the clip number followed by "_merged.mp4" |
| `MergeGoproClips.OutputNameInjective` | merge_gopro_clips.py:81 | two clips share an output name only if they are the same clip |
| `MergeGoproClips.Paths` | merge_gopro_clips.py:79 | the merge inputs are the group's files, one per entry, in list order |
| `MergeGoproClips.MergeJobs` | merge_gopro_clips.py:70-82 | there are at most as many merges as keys; each writes into the chosen output directory and has at least one input |
| `MergeGoproClips.PlanMerges` | merge_gopro_clips.py:70-82 | the merge loop produces one merge per key with a non-empty list, in key order, from that list's files into "<clip>_merged.mp4" |
| `MergeGoproClips.OneMergePerClip` | merge_gopro_clips.py:71-81 | for a grouped listing no clip is skipped: the i-th merge writes the i-th clip's output from that clip's files in enumeration order |
| `MergeGoproClips.MergeMain` | merge_gopro_clips.py:55-82 | an empty listing exits with status 1 and the "no GoPro files" message; otherwise there is one merge per clip number, in first-seen order, each writing "<clip>_merged.mp4" into --dest or the input directory from that clip's files in enumeration order |
| `RotatePdf.SelectRotation` | rotate_pdf.py:33-39 | no direction or "cw" keeps the angle; "ccw" negates it; any other direction exits with status 1 |
| `RotatePdf.DirectionsOpposite` | rotate_pdf.py:33-36 | cw and ccw with the same angle give opposite rotations |
| `RotatePdf.DirectionIsCaseSensitive` | rotate_pdf.py:37-39 | "CW" is rejected |
| `RotatePdf.RotatePage` | rotate_pdf.py:13 | rotating a page keeps its content and adds the angle to its accumulated rotation |
| `RotatePdf.Rotated` | rotate_pdf.py:11-14 | the output has as many pages as the input, in the same order, each with the same content and rotated by the same amount |
| `RotatePdf.RotatedTwice` | rotate_pdf.py:13 | rotating by a and then by b is rotating by a + b |
| `RotatePdf.CwThenCcwRestores` | rotate_pdf.py:33-36 | a cw run followed by a ccw run with the same angle restores the original pages |
| `RotatePdf.OpenAndRotatePdf` | rotate_pdf.py:11-14 | the page loop writes every input page once, in index order, each rotated by the same amount |
| `RotatePdf.RotateMain` | rotate_pdf.py:33-39 | with a valid direction the written pages are the input rotated by the selected amount; otherwise the run exits with status 1 and nothing is written |

## Left out

- PyPDF2 (`PdfFileReader`, `getPage`, `addPage`, `write`, `rotateClockwise`) is an external library. Pages are abstract sequence elements. Its check that the angle is a multiple of 90 is not modelled. Neither is Python's negative indexing, through which index -1 would fetch the last page.
- moviepy (`VideoFileClip`, `concatenate_videoclips`, `write_videofile`, codec, threads) is external video processing. A merge is modelled as a record of output directory, output name and ordered inputs.
- File-system work is I/O with no logic beyond the calls themselves. This covers the glob at merge_gopro_clips.py:35, `mkdir`, `isdir`/`exists`, `check_isdir`, and util.py's `check_input_dir`, `check_input_path`, `check_output_dir` and `check_output_path`. The glob's result is the input sequence of files, and file names are not restricted to the `GX*.mp4` pattern.
- The delete step at merge_gopro_clips.py:85-87 uses `files`, a local of `get_subclips_from_dir`, so it raises NameError in `main` and is not modelled as a deletion.
- `wakepy.keepawake`, argparse wiring and defaults, and progress `print`s are process glue.
- An omitted `--angle` is not modelled: `-None` would raise on the ccw path. The angle is always an integer.
- `pathlib` joining of the output directory and name is kept as the pair (directory, name).
- PyInt.ParseInt: accepts only an optional sign followed by ASCII digits. It leaves out Python's tolerance of surrounding whitespace, underscores between digits and non-ASCII digits.
