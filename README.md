# pdfs — a verified model of its join and rotate orchestration

`pdfs` is a small command-line tool with two jobs. `join` combines images and
PDFs into one PDF. `rotate` turns chosen pages of a PDF clockwise and rewrites
the file in place. The PDF parsing, page rotation and image-to-PDF conversion
all happen inside third-party libraries. What the program does itself is the
orchestration, and that is what this project models and proves things about:

- `_make_reader` turns any reference without a `read` attribute into a str
  path. It then opens the PDF reader on the converter's output, or on the
  reference itself when the converter raises `ImageOpenError`.
- `join` opens every input first. A nested loop then appends each page of
  each reader to a fresh writer, and the writer is written to the new file.
- `rotate` enumerates a document's pages. It rotates page `num` when
  `str(num) in pages or num in pages`, appends every page to a fresh writer,
  and writes that writer over the original file. Its `angle` defaults to 90
  (`PDFS/pdfs.py:62`, `pdfs.py:35`): a call without an angle is
  `Rotate(file, sel, 90, parse)`.
- `main` runs `join` as given. For `rotate` it picks the angle: 90 by default,
  180 with `--180`, and 270 with `--270`, which also overrides `--180`.

The repository holds two versions of the program. `PDFS/pdfs.py` is the
current one (module `Pdfs`). `pdfs.py` at the top level is an older copy
(module `LegacyPdfs`). Its `join` sends every input straight to the PDF
reader, with no image branch and no str coercion.

Files:

- `wrappers.dfy`: `Option`.
- `decimals.dfy`: Python's `str` on integers (`Decimal`) and a reader that
  accepts only the numerals `str` can produce (`ParseDecimal`). Proved: the
  round trip, and that `str` has exactly one spelling for each number.
- `pdf_model.dfy`: what the program sees of the libraries:
  - `Page`: an opaque content identity, the `/Rotate` value the page was read
    with, and the list of angles `page.rotate` applied since.
  - `FileRef`: the reference forms (a str path, a path-like object, a stream
    with `read`, a bare integer).
  - the converter's answer (`Conversion`) and the reader oracle (`ReadPages`).
  - `Writer`: a class whose `pages` field `AddPage` grows.
  - `OpenAll`: the list comprehension that opens the inputs; the first failure
    aborts it.
  - `Flatten`: the concatenation of all readers' pages, with lemmas on its
    length and on where each page lands.
- `pdfs.dfy`: the current program.
- `legacy_pdfs.dfy`: the older copy. Its `rotate` and its angle selection are
  the same as the current program's, so it reuses those methods.

The libraries are parameters. `convert: FileRef -> Conversion` stands for
`img2pdf.convert`, and `parse: ReaderInput -> Option<seq<Page>>` stands for
`PdfReader(...).pages`. Writing a file is modelled as a returned `Effect`:
either `WriteFile(target, pages)` or `Abort(error)`, where `Abort` means
nothing was written.

Where the program's own documentation and its code differ, the model follows
the code:

- The docstring of `join` (`PDFS/pdfs.py:45-48`) speaks of "filenames or file
  descriptors". What the program's test of that name passes
  (`PDFS/tests/tests.py:44-47`) is an open file object, and `_make_reader`
  keeps it as a stream (`Pdfs.Coerce`). A bare int, which the annotation of
  `files` (`PDFS/pdfs.py:42`) does not admit, is not taken as a descriptor:
  `_make_reader` (`PDFS/pdfs.py:31-32`) turns it into the str path `str(fd)`
  (`Pdfs.DescriptorReadsAsDigits`).
- The docstring of `rotate` (`PDFS/pdfs.py:70`) names 90, 180 or 270 as the
  angle. The code does not check the angle, and the model accepts any integer.
  PyPDF2's own refusal of angles that are not multiples of 90 is left out (see
  below).
- `rotate` tests both forms of every page number, `str(num)` and `num`, against
  the selection. `Pdfs.SelectionByIndices` proves this the same as membership
  in the selection normalised once to integers.
- The `--90` flag is accepted but has no effect of its own. When neither
  `--180` nor `--270` is given the angle is 90 anyway.
- `join` with no inputs writes an empty document (`Pdfs.JoinNothing`).

## Model

| member | source | states |
|---|---|---|
| `Decimals.Decimal` | PDFS/pdfs.py:77 | `str(num)`: a non-empty string, led by `-` exactly for negative numbers, digits otherwise |
| `Decimals.DecimalRoundTrip` | PDFS/pdfs.py:77 | reading back `str(num)` gives `num`, for every integer |
| `Decimals.DecimalCanonical` | PDFS/pdfs.py:77 | a numeral that reads as `i` is exactly `str(i)`, so "01" and "-0" name no number |
| `Decimals.DecimalInjective` | PDFS/pdfs.py:77 | `str(i) == str(j)` exactly when `i == j` |
| `PdfModel.Page.Rotate` | PDFS/pdfs.py:78 | `page.rotate(angle)` keeps the content and the initial `/Rotate`, and records `angle` after the earlier rotations |
| `PdfModel.Orientation` | PDFS/pdfs.py:78 | a page's orientation is a clockwise angle from 0 up to 360 |
| `PdfModel.Saved` | PDFS/pdfs.py:81-82 | a page written out and read back keeps its content and orientation, with its rotations folded into `/Rotate` and none recorded since |
| `PdfModel.SavedAll` | PDFS/pdfs.py:81-82 | a written document reads back page for page, in order |
| `PdfModel.HasRead` | PDFS/pdfs.py:31 | `hasattr(file, "read")` holds only for a stream; a str path, a path object and an int have no `read` |
| `PdfModel.PyStr` | PDFS/pdfs.py:32 | `str(file)` of a path is the path itself, and of an int its decimal numeral, which reads back as the int |
| `PdfModel.RotateTurnsClockwise` | PDFS/pdfs.py:78 | `page.rotate(angle)` keeps the page's content and adds `angle` clockwise to its orientation, modulo 360 |
| `PdfModel.ReadPages` | PDFS/pdfs.py:39 | the reader gives the parsed pages when the input parses, and fails with a malformed-PDF error otherwise |
| `PdfModel.OpenAll` | PDFS/pdfs.py:51 | the readers exist exactly when every input opens; the i-th reader holds input i's pages; on failure the error is that of the first input that fails, and every input before it opened |
| `PdfModel.OpenAllAgree` | PDFS/pdfs.py:51 | two ways of opening that agree on every input give the same readers or the same error |
| `PdfModel.FlattenAppend` | PDFS/pdfs.py:53-55 | appending one more reader's pages extends the concatenation by exactly those pages |
| `PdfModel.FlattenLength` | PDFS/pdfs.py:53-55 | the concatenation has as many pages as all readers together |
| `PdfModel.FlattenAt` | PDFS/pdfs.py:53-55 | page j of reader i comes right after all pages of readers 0..i-1 |
| `PdfModel.PrefixPages` | PDFS/pdfs.py:53-55 | reader i's pages fit after those of readers 0..i-1 within the total |
| `PdfModel.FlattenPlaces` | PDFS/pdfs.py:53-55 | every page of every reader lies within the concatenation, right after the pages of the earlier readers |
| `PdfModel.Writer.constructor` | PDFS/pdfs.py:50 | a new writer holds no pages |
| `PdfModel.Writer.AddPage` | PDFS/pdfs.py:55 | `add_page` appends the page and changes nothing else |
| `Pdfs.Coerce` | PDFS/pdfs.py:31-32 | a stream (it has `read`) is kept as it is; any other reference becomes the str path `str(file)` |
| `Pdfs.MakeReader` | PDFS/pdfs.py:30-39 | the reader is opened on the converted PDF exactly when the converter made one, and on the coerced reference exactly when it raised `ImageOpenError`; any other converter failure propagates |
| `Pdfs.Open` | PDFS/pdfs.py:30-39 | an input's pages are those of the converted image, or of the coerced reference when the converter raises `ImageOpenError`; it fails with a conversion error exactly when the converter fails otherwise |
| `Pdfs.PathObjectReadsAsText` | PDFS/pdfs.py:31-32 | a path-like object is read exactly as the same path given as a str |
| `Pdfs.DescriptorReadsAsDigits` | PDFS/pdfs.py:31-32 | an int reference is read as the file named by its decimal digits |
| `Pdfs.JoinOutcome` | PDFS/pdfs.py:50-58 | `join` writes to `newfile` when it writes; it aborts only when some input does not open |
| `Pdfs.CollectPages` | PDFS/pdfs.py:53-55 | the nested loop leaves in the writer the concatenation of all readers' pages, readers in order, pages in order |
| `Pdfs.Join` | PDFS/pdfs.py:50-58 | opens all inputs first, aborts on the first failure, and otherwise writes the concatenated pages to `newfile` |
| `Pdfs.JoinWritesIffAllOpen` | PDFS/pdfs.py:51 | `join` writes its output exactly when every input opens |
| `Pdfs.JoinWritesEveryPageInOrder` | PDFS/pdfs.py:50-55 | the output goes to `newfile` and has as many pages as the inputs together; page j of input i sits right after all pages of the earlier inputs |
| `Pdfs.JoinWritesOpened` | PDFS/pdfs.py:50-58 | when every input opens, `join` writes the concatenated readers' pages to `newfile` |
| `Pdfs.JoinAbortsAtFirstFailure` | PDFS/pdfs.py:51 | when `join` aborts, its error is that of the first input that does not open |
| `Pdfs.JoinPdfThenImage` | PDFS/pdfs.py:30-55 | a one-page PDF followed by an image gives the PDF's page and then the image's page, in that order |
| `Pdfs.JoinNothing` | PDFS/pdfs.py:50-58 | with no inputs, `join` writes an empty document |
| `Pdfs.DecimalEntry` | PDFS/pdfs.py:77 | `str(num)` is among the entries exactly when some str entry reads back as `num` |
| `Pdfs.Selected` | PDFS/pdfs.py:77 | page `num` is selected exactly when the int `num` is an entry, or some str entry reads back as `num` |
| `Pdfs.Turned` | PDFS/pdfs.py:77-78 | the loop body keeps a page's content and `/Rotate`; a selected page records one more rotation by `angle`, any other page is left as it is |
| `Pdfs.RotatePages` | PDFS/pdfs.py:76-79 | `rotate` writes as many pages as the document has |
| `Pdfs.RotateDocument` | PDFS/pdfs.py:73-79 | the enumerate loop hands the writer exactly the rotated document (`RotatePages`) |
| `Pdfs.RotateOutcome` | PDFS/pdfs.py:73-82 | `rotate` writes exactly when the file parses, over the same file and with as many pages; otherwise it aborts with a parse error |
| `Pdfs.Rotate` | PDFS/pdfs.py:73-82 | if the file parses, the rotated document is written back over the same file; otherwise it aborts with a parse error and writes nothing |
| `Pdfs.RotatePagesAt` | PDFS/pdfs.py:76-79 | every page is written once, in its place; page `num` is rotated by `angle` exactly when `str(num)` or `num` is selected, and is otherwise unchanged |
| `Pdfs.TurnedAt` | PDFS/pdfs.py:77-79 | page `num` keeps its content, and its orientation advances by `angle` exactly when it is selected |
| `Pdfs.SelectionByIndices` | PDFS/pdfs.py:77 | the two-form membership test accepts exactly the indices the selection names, once each str entry is read as a number |
| `Pdfs.KeyFormsAgree` | PDFS/pdfs.py:77-78 | adding index n as an int or as `str(n)` to a selection gives the same output |
| `Pdfs.ZeroAsIntOrString` | PDFS/tests/tests.py:83-89 | selecting `0` or `"0"` rotates the same page |
| `Pdfs.BothFormsRotateOnce` | PDFS/pdfs.py:77-78 | with both `num` and `str(num)` selected, the page gets exactly one more rotation |
| `Pdfs.EmptySelectionKeepsDocument` | PDFS/pdfs.py:76-79 | with an empty selection, the output is the input document unchanged |
| `Pdfs.UnmatchedKeyIgnored` | PDFS/pdfs.py:76-77 | a selection entry that names no page of the document changes nothing |
| `Pdfs.StrayKeysIgnored` | PDFS/pdfs.py:76-77 | these entries change nothing: the page count, past it, -1, "01" and "-0" |
| `Pdfs.SecondOfTwo` | PDFS/tests/tests.py:112-114 | selecting page 1 of a two-page document leaves page 0 as it was, rotates page 1, and keeps the order |
| `Pdfs.RotateBackAndForth` | PDFS/tests/tests.py:91-96 | `rotate` by 90 and then by 270 on the same file, the second call reading what the first wrote, gives back every page's content and orientation; a selected page then records only the 270 |
| `Pdfs.RotateBackAndForthAt` | PDFS/pdfs.py:74-82 | page `num` after the two calls has its content and orientation back |
| `Pdfs.SavedThenTurned` | PDFS/pdfs.py:78-82 | one page turned by 90, written and read back, then turned by 270 shows its original orientation |
| `Pdfs.QuarterThenThreeQuarters` | PDFS/pdfs.py:77-78 | two passes of the loop over the same pages, by 90 and then by 270, restore every page's content and orientation; a selected page records both rotations, an unselected one none |
| `Pdfs.QuarterThenThreeQuartersAt` | PDFS/pdfs.py:77-78 | after a quarter turn and then three quarter turns, page `num` has its original content and orientation, and records 90 and 270 when selected |
| `Pdfs.QuarterTurnsPage` | PDFS/pdfs.py:78 | one page turned by 90 then 270, or four times by 90, shows its original orientation |
| `Pdfs.FourQuarterTurnsAt` | PDFS/pdfs.py:77-78 | after four quarter turns, page `num` has its original content and orientation |
| `Pdfs.FourQuarterTurns` | PDFS/pdfs.py:77-78 | four quarter turns of the same selection restore every page's orientation |
| `Pdfs.SelectAngle` | PDFS/pdfs.py:96-100 | the angle is 270 with `--270`, else 180 with `--180`, else 90 |
| `Pdfs.Paths` | PDFS/pdfs.py:94 | the file names on the command line become str paths, one per name, in order |
| `Pdfs.CliSelection` | PDFS/pdfs.py:101 | the command-line selection holds exactly the given page strings, as str entries |
| `Pdfs.CliSelectionByDecimal` | PDFS/pdfs.py:101 | on the command line, a page is rotated exactly when one of the given strings is `str` of its index |
| `Pdfs.Dispatch` | PDFS/pdfs.py:90-101 | `join` is forwarded as given; `rotate` gets the page strings and the angle chosen from the flags |
| `LegacyPdfs.Opener` | pdfs.py:26 | an input opens exactly when its reference parses as given, with the parsed pages; a failure is a parse failure |
| `LegacyPdfs.JoinOutcome` | pdfs.py:22-33 | the old `join` writes to `newfile` when it writes; it aborts only when some reference does not parse |
| `LegacyPdfs.Join` | pdfs.py:22-33 | opens every input directly, aborts on the first failure, and otherwise writes all pages in order to `newfile` |
| `LegacyPdfs.JoinReadsInputsDirectly` | pdfs.py:26 | the old `join` writes exactly when every reference parses as given, and a failure is always a parse failure: there is no image branch |
| `LegacyPdfs.JoinWritesEveryPageInOrder` | pdfs.py:25-30 | the output has as many pages as the inputs together; page j of input i comes right after the earlier inputs' pages |
| `LegacyPdfs.JoinAgreesWithoutImages` | pdfs.py:26 | on str paths and streams that are not images, the old and new `join` give the same result |
| `LegacyPdfs.Rotate` | pdfs.py:35-47 | the old `rotate` has the same effect as the current one |
| `LegacyPdfs.Dispatch` | pdfs.py:55-66 | the old entry point forwards `join` and gives `rotate` the angle 90, 180 with `--180`, or 270 with `--270` over both |

## Left out

- PDF parsing and serialisation (`PdfReader`, `PdfWriter.write`) belong to PyPDF2. Reading is the `parse` oracle. Writing the output file, including opening it for writing and any write failure, is replaced by the returned `Effect`.
- The rotation transform itself and PyPDF2's refusal of angles that are not multiples of 90 are not modelled. A page only records the angle applied. `Orientation` assumes the library adds each angle to `/Rotate`.
- Image detection and conversion inside img2pdf are the `convert` oracle.
- PdfModel.OpenAll: opening an input and loading its pages are one step, so every reader failure happens during the comprehension of `PDFS/pdfs.py:51` (`pdfs.py:26`). In the program, `reader.pages` is read only later, by the loop at `PDFS/pdfs.py:54` (`pdfs.py:29`), after every reader has been made. When input 0's reader is made but its pages fail to load and input 1's converter raises, the program reports input 1's error; the model reports input 0's.
- Pdfs.Open: `parse` is a function of what the reader is opened on. It cannot see that `img2pdf.convert` at `PDFS/pdfs.py:35` has already read from a stream before `PdfReader(file)` at `PDFS/pdfs.py:39` reads the same stream.
- PdfModel.ReadPages: `Error` has no filesystem case. A missing or unreadable file, in `join` or in `rotate`, is reported as `MalformedPdf`, not as the `OSError` Python raises.
- docopt's argument parsing is not modelled. `Command` holds what it returns: file names and pages as strings, and the flags as booleans. Usage errors are not modelled.
- Page objects are values, not shared mutable objects. `page.rotate` changes the page object in place, and the writer then holds that same object. The reader is discarded afterwards, so no other reference can observe the change, and the model does not capture aliasing between reader and writer.
- `PathObject` stands for a `pathlib` path, whose `str` is its path (`PdfModel.PyStr`). An `os.PathLike` whose `__str__` differs from its `__fspath__` is not modelled.
- Bytes paths and `PathLike[bytes]` are not among the `FileRef` forms. Only the annotation of `join`'s `files` (`PDFS/pdfs.py:42`) leaves out the `bytes` type, and its bare `PathLike` still admits `PathLike[bytes]`. `newfile` (`PathType`, `PDFS/pdfs.py:21`) admits `bytes` and `PathLike[bytes]`, and `rotate`'s file (`Reader_and_open`, `PDFS/pdfs.py:22`) names `PathLike[bytes]`. None of these can be expressed as a `FileRef`. For an input to `join`, `str(b"...")` would also give the `b'...'` spelling.
- A selection is a set of int and str entries. Three things are not modelled: a selection given as one str (where `in` tests substrings), a one-shot iterator (which the old `rotate` would consume while testing membership), and entries of other types that compare equal to an int (such as `True` or `0.0`).
- Both test suites compare output bytes against reference PDFs. The skipped 90-plus-270 test is stated for content and orientation (`Pdfs.RotateBackAndForth`), not for bytes, because the author notes that the bytes differ.
- PdfModel.Saved: how `PdfWriter.write` and a later `PdfReader` represent rotations is PyPDF2's. The model takes it that a written page reads back with its content, with the sum of its rotations in `/Rotate`, and with nothing applied since.
- Pdfs.QuarterThenThreeQuarters and Pdfs.FourQuarterTurns: these are repeated passes of the loop over the same page values, with no write and no re-read between them. Two successive `rotate` calls on a file are `Pdfs.RotateBackAndForth`.
- `setup.py` is packaging metadata, and the `if __name__ == "__main__"` guard is script plumbing.
