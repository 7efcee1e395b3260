/** The older copy of the program at the top of the repository: `join`
    without image conversion, the same `rotate`, and the same angle flags. */
module LegacyPdfs {
  import opened Wrappers
  import opened PdfModel
  import Pdfs

  /** The pages of one input: the reference goes straight to the PDF reader. */
  function Opener(parse: ReaderInput -> Option<seq<Page>>): (open: FileRef -> Result<seq<Page>>)
    ensures forall file :: open(file).Ok? <==> parse(Reference(file)).Some?
    ensures forall file :: open(file).Ok? ==> open(file).value == parse(Reference(file)).value
    ensures forall file :: open(file).Err? ==> open(file).error == MalformedPdf
  {
    file => ReadPages(Reference(file), parse)
  }

  /** What the old `join` leaves behind: an abort when some input does not
      parse, else the pages of all inputs written to `newfile`. */
  function JoinOutcome(newfile: FileRef, files: seq<FileRef>, parse: ReaderInput -> Option<seq<Page>>): (e: Effect)
    ensures e.WriteFile? ==> e.target == newfile
    ensures e.Abort? ==> exists k | 0 <= k < |files| :: parse(Reference(files[k])).None?
  {
    match OpenAll(files, Opener(parse))
    case Err(e) => Abort(e)
    case Ok(readers) => WriteFile(newfile, Flatten(readers))
  }

  /** `join(newfile, files)`: a reader for every input as given, then the
      same nested loop over their pages. */
  method Join(newfile: FileRef, files: seq<FileRef>, parse: ReaderInput -> Option<seq<Page>>) returns (effect: Effect)
    ensures effect == JoinOutcome(newfile, files, parse)
  {
    var readers := OpenAll(files, Opener(parse));
    if readers.Err? {
      return Abort(readers.error);
    }
    var pages := Pdfs.CollectPages(readers.value);
    effect := WriteFile(newfile, pages);
  }

  /** Every input is handed to the reader as it is: it writes exactly when
      each reference parses, and a failure is always a parse failure. */
  lemma JoinReadsInputsDirectly(newfile: FileRef, files: seq<FileRef>, parse: ReaderInput -> Option<seq<Page>>)
    ensures JoinOutcome(newfile, files, parse).WriteFile?
        <==> forall i | 0 <= i < |files| :: parse(Reference(files[i])).Some?
    ensures JoinOutcome(newfile, files, parse).Abort? ==> JoinOutcome(newfile, files, parse).error == MalformedPdf
  {
  }

  /** When every input parses, the output is the pages of all inputs in
      order: as many as they have together, page `j` of input `i` right
      after all pages of the inputs before it. */
  lemma JoinWritesEveryPageInOrder(newfile: FileRef, files: seq<FileRef>, parse: ReaderInput -> Option<seq<Page>>,
                                   readers: seq<seq<Page>>)
    requires OpenAll(files, Opener(parse)) == Ok(readers)
    ensures |readers| == |files|
    ensures forall i | 0 <= i < |files| :: Some(readers[i]) == parse(Reference(files[i]))
    ensures JoinOutcome(newfile, files, parse).WriteFile?
    ensures JoinOutcome(newfile, files, parse).target == newfile
    ensures |JoinOutcome(newfile, files, parse).pages| == TotalPages(readers)
    ensures forall i | 0 <= i < |readers| ::
      TotalPages(readers[..i]) + |readers[i]| <= |JoinOutcome(newfile, files, parse).pages|
    ensures forall i, j | 0 <= i < |readers| && 0 <= j < |readers[i]| ::
      JoinOutcome(newfile, files, parse).pages[TotalPages(readers[..i]) + j] == readers[i][j]
  {
    assert JoinOutcome(newfile, files, parse) == WriteFile(newfile, Flatten(readers));
    FlattenPlaces(readers);
  }

  /** The two `join`s agree on inputs that are str paths or streams, none of
      which the converter takes for an image. */
  lemma JoinAgreesWithoutImages(newfile: FileRef, files: seq<FileRef>, convert: FileRef -> Conversion,
                                parse: ReaderInput -> Option<seq<Page>>)
    requires forall i | 0 <= i < |files| :: (files[i].TextPath? || files[i].Stream?) && convert(files[i]) == ImageOpenError
    ensures JoinOutcome(newfile, files, parse) == Pdfs.JoinOutcome(newfile, files, convert, parse)
  {
    var f := Opener(parse);
    var g := Pdfs.Opener(convert, parse);
    forall i | 0 <= i < |files|
      ensures f(files[i]) == g(files[i])
    {
      assert Pdfs.Coerce(files[i]) == files[i];
    }
    OpenAllAgree(files, f, g);
  }

  /** `rotate(filename, pages, angle)`: the same loop as the current program. */
  method Rotate(file: FileRef, sel: set<Pdfs.Key>, angle: int, parse: ReaderInput -> Option<seq<Page>>) returns (effect: Effect)
    ensures effect == Pdfs.RotateOutcome(file, sel, angle, parse)
  {
    var doc := ReadPages(Reference(file), parse);
    if doc.Err? {
      return Abort(doc.error);
    }
    var pages := Pdfs.RotateDocument(doc.value, sel, angle);
    effect := WriteFile(file, pages);
  }

  /** The `__main__` block: `join` without conversion; for `rotate`, 90
      unless `--180`, and `--270` over both. */
  method Dispatch(cmd: Pdfs.Command, parse: ReaderInput -> Option<seq<Page>>) returns (effect: Effect)
    ensures cmd.JoinCommand? ==> effect == JoinOutcome(TextPath(cmd.newfile), Pdfs.Paths(cmd.files), parse)
    ensures cmd.RotateCommand? ==>
      effect == Pdfs.RotateOutcome(TextPath(cmd.file), Pdfs.CliSelection(cmd.pages),
                                   if cmd.twoSeventy then 270 else if cmd.oneEighty then 180 else 90, parse)
  {
    match cmd
    case JoinCommand(newfile, files) =>
      effect := Join(TextPath(newfile), Pdfs.Paths(files), parse);
    case RotateCommand(file, pages, _, oneEighty, twoSeventy) =>
      var angle := Pdfs.SelectAngle(oneEighty, twoSeventy);
      effect := Rotate(TextPath(file), Pdfs.CliSelection(pages), angle, parse);
  }
}
