/** The current program: input normalisation, `join`, `rotate` and the
    command-line entry point. */
module Pdfs {
  import opened Wrappers
  import opened Decimals
  import opened PdfModel

  // ---------------------------------------------------------------------
  // Input normalisation (`_make_reader`)
  // ---------------------------------------------------------------------

  /** A reference with `read` is kept; any other becomes the text path `str(file)`. */
  function Coerce(file: FileRef): (c: FileRef)
    ensures HasRead(file) ==> c == file
    ensures !HasRead(file) ==> c.TextPath? && c.path == PyStr(file)
  {
    if HasRead(file) then file else TextPath(PyStr(file))
  }

  /** What the PDF reader is opened on: the converter's PDF when it made one,
      the coerced reference when it raised `ImageOpenError`; any other
      converter failure escapes. */
  function MakeReader(file: FileRef, convert: FileRef -> Conversion): (r: Result<ReaderInput>)
    ensures r == Ok(Reference(Coerce(file))) <==> convert(Coerce(file)) == ImageOpenError
    ensures (r.Ok? && r.value.ConvertedImage?) <==> convert(Coerce(file)).Converted?
    ensures r.Ok? && r.value.ConvertedImage? ==> r.value.pdf == convert(Coerce(file)).pdf
    ensures r.Err? <==> convert(Coerce(file)) == OtherFailure
    ensures r.Err? ==> r.error == ConversionFailed
  {
    var f := Coerce(file);
    match convert(f)
    case Converted(pdf) => Ok(ConvertedImage(pdf))
    case ImageOpenError => Ok(Reference(f))
    case OtherFailure => Err(ConversionFailed)
  }

  /** The pages of one input to `join`: those of the converted image, or of
      the coerced reference when it is not an image; a converter failure
      other than `ImageOpenError` is the input's error. */
  function Open(file: FileRef, convert: FileRef -> Conversion, parse: ReaderInput -> Option<seq<Page>>): (r: Result<seq<Page>>)
    ensures convert(Coerce(file)).Converted? ==> r == ReadPages(ConvertedImage(convert(Coerce(file)).pdf), parse)
    ensures convert(Coerce(file)) == ImageOpenError ==> r == ReadPages(Reference(Coerce(file)), parse)
    ensures r == Err(ConversionFailed) <==> convert(Coerce(file)) == OtherFailure
  {
    match MakeReader(file, convert)
    case Err(e) => Err(e)
    case Ok(input) => ReadPages(input, parse)
  }

  /** `_make_reader` with the reader's pages, as the comprehension of `join` applies it. */
  function Opener(convert: FileRef -> Conversion, parse: ReaderInput -> Option<seq<Page>>): (open: FileRef -> Result<seq<Page>>)
    ensures forall file :: open(file) == Open(file, convert, parse)
  {
    file => Open(file, convert, parse)
  }

  /** A path given as a path-like object is read exactly as the same path given as a str. */
  lemma PathObjectReadsAsText(path: string, convert: FileRef -> Conversion, parse: ReaderInput -> Option<seq<Page>>)
    ensures MakeReader(PathObject(path), convert) == MakeReader(TextPath(path), convert)
    ensures Open(PathObject(path), convert, parse) == Open(TextPath(path), convert, parse)
  {
  }

  /** A bare integer is not taken as a file descriptor: it names the file
      spelled by its decimal digits. */
  lemma DescriptorReadsAsDigits(fd: int, convert: FileRef -> Conversion)
    ensures MakeReader(Descriptor(fd), convert) == MakeReader(TextPath(Decimal(fd)), convert)
  {
  }

  // ---------------------------------------------------------------------
  // join
  // ---------------------------------------------------------------------

  /** The nested loop of `join`: every page of every reader, appended in turn
      to a fresh writer; the result is what the writer holds at the end. */
  method CollectPages(readers: seq<seq<Page>>) returns (written: seq<Page>)
    ensures written == Flatten(readers)
  {
    var writer := new Writer();
    for r := 0 to |readers|
      invariant writer.pages == Flatten(readers[..r])
    {
      var reader := readers[r];
      for p := 0 to |reader|
        invariant writer.pages == Flatten(readers[..r]) + reader[..p]
      {
        writer.AddPage(reader[p]);
        assert reader[..p + 1] == reader[..p] + [reader[p]];
      }
      assert reader[..|reader|] == reader;
      assert readers[..r + 1] == readers[..r] + [reader];
      FlattenAppend(readers[..r], reader);
    }
    assert readers[..|readers|] == readers;
    written := writer.pages;
  }

  /** What `join` leaves behind: an abort when some input does not open,
      else the pages of all inputs written to `newfile`. */
  function JoinOutcome(newfile: FileRef, files: seq<FileRef>, convert: FileRef -> Conversion, parse: ReaderInput -> Option<seq<Page>>): (e: Effect)
    ensures e.WriteFile? ==> e.target == newfile
    ensures e.Abort? ==> exists k | 0 <= k < |files| :: Open(files[k], convert, parse).Err?
  {
    match OpenAll(files, Opener(convert, parse))
    case Err(e) => Abort(e)
    case Ok(readers) => WriteFile(newfile, Flatten(readers))
  }

  /** `join(newfile, files)`: all readers are made first, then their pages
      are collected and written to `newfile`. */
  method Join(newfile: FileRef, files: seq<FileRef>, convert: FileRef -> Conversion, parse: ReaderInput -> Option<seq<Page>>)
    returns (effect: Effect)
    ensures effect == JoinOutcome(newfile, files, convert, parse)
  {
    var readers := OpenAll(files, Opener(convert, parse));
    if readers.Err? {
      return Abort(readers.error);
    }
    var pages := CollectPages(readers.value);
    effect := WriteFile(newfile, pages);
  }

  /** `join` writes exactly when every input opens. */
  lemma JoinWritesIffAllOpen(newfile: FileRef, files: seq<FileRef>, convert: FileRef -> Conversion, parse: ReaderInput -> Option<seq<Page>>)
    ensures JoinOutcome(newfile, files, convert, parse).WriteFile?
        <==> forall i | 0 <= i < |files| :: Open(files[i], convert, parse).Ok?
  {
  }

  /** When the inputs open to `readers`, `join` writes to `newfile` exactly
      their pages: as many as they have together, page `j` of input `i`
      right after all pages of the inputs before it. */
  lemma JoinWritesEveryPageInOrder(newfile: FileRef, files: seq<FileRef>, convert: FileRef -> Conversion,
                                   parse: ReaderInput -> Option<seq<Page>>, readers: seq<seq<Page>>)
    requires OpenAll(files, Opener(convert, parse)) == Ok(readers)
    ensures |readers| == |files|
    ensures forall i | 0 <= i < |files| :: readers[i] == Open(files[i], convert, parse).value
    ensures JoinOutcome(newfile, files, convert, parse).WriteFile?
    ensures JoinOutcome(newfile, files, convert, parse).target == newfile
    ensures |JoinOutcome(newfile, files, convert, parse).pages| == TotalPages(readers)
    ensures forall i | 0 <= i < |readers| ::
      TotalPages(readers[..i]) + |readers[i]| <= |JoinOutcome(newfile, files, convert, parse).pages|
    ensures forall i, j | 0 <= i < |readers| && 0 <= j < |readers[i]| ::
      JoinOutcome(newfile, files, convert, parse).pages[TotalPages(readers[..i]) + j] == readers[i][j]
  {
    JoinWritesOpened(newfile, files, convert, parse, readers);
    FlattenPlaces(readers);
  }

  lemma JoinWritesOpened(newfile: FileRef, files: seq<FileRef>, convert: FileRef -> Conversion,
                         parse: ReaderInput -> Option<seq<Page>>, readers: seq<seq<Page>>)
    requires OpenAll(files, Opener(convert, parse)) == Ok(readers)
    ensures JoinOutcome(newfile, files, convert, parse) == WriteFile(newfile, Flatten(readers))
  {
  }

  /** When an input cannot be opened nothing is written, and the error is
      that of the first input that fails. */
  lemma JoinAbortsAtFirstFailure(newfile: FileRef, files: seq<FileRef>, convert: FileRef -> Conversion, parse: ReaderInput -> Option<seq<Page>>)
    ensures var e := JoinOutcome(newfile, files, convert, parse);
      e.Abort? ==>
        exists k | 0 <= k < |files| ::
          && Open(files[k], convert, parse) == Err(e.error)
          && forall i | 0 <= i < k :: Open(files[i], convert, parse).Ok?
  {
  }

  /** A PDF followed by an image: the output is the PDF's page, then the
      page made from the image. */
  lemma JoinPdfThenImage(newfile: FileRef, a: FileRef, b: FileRef, pa: Page, pb: Page, image: seq<bv8>,
                         convert: FileRef -> Conversion, parse: ReaderInput -> Option<seq<Page>>)
    requires convert(Coerce(a)) == ImageOpenError && parse(Reference(Coerce(a))) == Some([pa])
    requires convert(Coerce(b)) == Converted(image) && parse(ConvertedImage(image)) == Some([pb])
    ensures JoinOutcome(newfile, [a, b], convert, parse) == WriteFile(newfile, [pa, pb])
  {
    var g := Opener(convert, parse);
    assert g(a) == Open(a, convert, parse) == Ok([pa]);
    assert g(b) == Open(b, convert, parse) == Ok([pb]);
    assert [a, b][0] == a && [a, b][1] == b;
    var r := OpenAll([a, b], g);
    assert |r.value| == 2 && r.value[0] == [pa] && r.value[1] == [pb];
    assert r.value == [[pa], [pb]];
    assert [[pa], [pb]][1..] == [[pb]] && [[pb]][1..] == [];
    assert Flatten([[pb]]) == [pb];
    assert Flatten([[pa], [pb]]) == [pa, pb];
  }

  /** With no inputs, `join` writes an empty document. */
  lemma JoinNothing(newfile: FileRef, convert: FileRef -> Conversion, parse: ReaderInput -> Option<seq<Page>>)
    ensures JoinOutcome(newfile, [], convert, parse) == WriteFile(newfile, [])
  {
  }

  // ---------------------------------------------------------------------
  // rotate
  // ---------------------------------------------------------------------

  /** An entry of the page selection: an int or a str. */
  datatype Key = I(n: int) | S(s: string)

  /** A str entry names page `num` exactly when it reads back as `num`. */
  lemma DecimalEntry(sel: set<Key>, num: nat)
    ensures S(Decimal(num)) in sel <==> exists k | k in sel && k.S? :: ParseDecimal(k.s) == Some(num as int)
  {
    DecimalRoundTrip(num);
    if exists k | k in sel && k.S? :: ParseDecimal(k.s) == Some(num as int) {
      var k :| k in sel && k.S? && ParseDecimal(k.s) == Some(num as int);
      DecimalCanonical(k.s, num);
    }
  }

  /** `str(num) in pages or num in pages`: page `num` is selected by the int
      `num`, or by any str entry that reads back as `num`. */
  predicate Selected(sel: set<Key>, num: nat): (b: bool)
    ensures b <==> I(num) in sel || exists k | k in sel && k.S? :: ParseDecimal(k.s) == Some(num as int)
  {
    DecimalEntry(sel, num);
    S(Decimal(num)) in sel || I(num) in sel
  }

  /** Page `num` after the body of the loop in `rotate`. */
  function Turned(page: Page, num: nat, sel: set<Key>, angle: int): (q: Page)
    ensures q.content == page.content && q.initial == page.initial
    ensures Selected(sel, num) ==> q.applied == page.applied + [angle]
    ensures !Selected(sel, num) ==> q == page
  {
    if Selected(sel, num) then page.Rotate(angle) else page
  }

  /** The pages `rotate` hands to the writer, for the document `doc`. */
  function RotatePages(doc: seq<Page>, sel: set<Key>, angle: int): (out: seq<Page>)
    ensures |out| == |doc|
  {
    if doc == [] then []
    else RotatePages(doc[..|doc| - 1], sel, angle) + [Turned(doc[|doc| - 1], |doc| - 1, sel, angle)]
  }

  /** The loop of `rotate`: enumerate the pages, rotate the selected ones,
      append every page to a fresh writer. */
  method RotateDocument(doc: seq<Page>, sel: set<Key>, angle: int) returns (written: seq<Page>)
    ensures written == RotatePages(doc, sel, angle)
  {
    var writer := new Writer();
    for num := 0 to |doc|
      invariant writer.pages == RotatePages(doc[..num], sel, angle)
    {
      var page := doc[num];
      if Selected(sel, num) {
        page := page.Rotate(angle);
      }
      writer.AddPage(page);
      assert doc[..num + 1][..num] == doc[..num];
    }
    assert doc[..|doc|] == doc;
    written := writer.pages;
  }

  /** What `rotate` leaves behind: the rotated document written back over
      the same file when it parses, an abort otherwise. */
  function RotateOutcome(file: FileRef, sel: set<Key>, angle: int, parse: ReaderInput -> Option<seq<Page>>): (e: Effect)
    ensures e.WriteFile? <==> parse(Reference(file)).Some?
    ensures e.WriteFile? ==> e.target == file && |e.pages| == |parse(Reference(file)).value|
    ensures e.Abort? ==> e.error == MalformedPdf
  {
    match ReadPages(Reference(file), parse)
    case Err(e) => Abort(e)
    case Ok(doc) => WriteFile(file, RotatePages(doc, sel, angle))
  }

  /** `rotate(filename, pages, angle)`: read the document, rotate, and write
      the result back over `filename`. */
  method Rotate(file: FileRef, sel: set<Key>, angle: int, parse: ReaderInput -> Option<seq<Page>>) returns (effect: Effect)
    ensures effect == RotateOutcome(file, sel, angle, parse)
  {
    var doc := ReadPages(Reference(file), parse);
    if doc.Err? {
      return Abort(doc.error);
    }
    var pages := RotateDocument(doc.value, sel, angle);
    effect := WriteFile(file, pages);
  }

  /** `rotate` keeps the number and order of pages, appends each page once,
      rotates a page by `angle` exactly when its index is selected (once, even
      if both forms of the index are selected), and leaves the others as they
      were. */
  lemma {:induction false} RotatePagesAt(doc: seq<Page>, sel: set<Key>, angle: int)
    ensures |RotatePages(doc, sel, angle)| == |doc|
    ensures forall num | 0 <= num < |doc| ::
      RotatePages(doc, sel, angle)[num] == if Selected(sel, num) then doc[num].Rotate(angle) else doc[num]
  {
    if doc != [] {
      var init := doc[..|doc| - 1];
      RotatePagesAt(init, sel, angle);
      var out := RotatePages(doc, sel, angle);
      assert out == RotatePages(init, sel, angle) + [Turned(doc[|doc| - 1], |doc| - 1, sel, angle)];
      forall num | 0 <= num < |doc|
        ensures out[num] == if Selected(sel, num) then doc[num].Rotate(angle) else doc[num]
      {
        if num < |doc| - 1 {
          assert out[num] == RotatePages(init, sel, angle)[num];
          assert init[num] == doc[num];
        }
      }
    }
  }

  /** The set of indices a selection names, with each str entry read back as
      the number `str` would have printed for it: the selection normalised
      once, instead of tested in both forms page by page. */
  function SelectedIndices(sel: set<Key>): set<nat> {
    (set k | k in sel && k.I? && k.n >= 0 :: k.n as nat)
    + (set k | k in sel && k.S? && ParseDecimal(k.s).Some? && ParseDecimal(k.s).value >= 0
         :: ParseDecimal(k.s).value as nat)
  }

  /** The membership test of `rotate` accepts exactly the indices the
      selection names, in either form. */
  lemma SelectionByIndices(sel: set<Key>, num: nat)
    ensures Selected(sel, num) <==> num in SelectedIndices(sel)
  {
    DecimalRoundTrip(num);
    if num in SelectedIndices(sel) && I(num) !in sel {
      var k :| k in sel && k.S? && ParseDecimal(k.s) == Some(num as int);
      DecimalCanonical(k.s, num);
      assert k == S(Decimal(num));
    }
  }

  /** Selecting an index as an int or as its decimal string rotates the same pages. */
  lemma KeyFormsAgree(doc: seq<Page>, sel: set<Key>, n: int, angle: int)
    ensures RotatePages(doc, sel + {I(n)}, angle) == RotatePages(doc, sel + {S(Decimal(n))}, angle)
  {
    RotatePagesAt(doc, sel + {I(n)}, angle);
    RotatePagesAt(doc, sel + {S(Decimal(n))}, angle);
    forall num: nat
      ensures Selected(sel + {I(n)}, num) == Selected(sel + {S(Decimal(n))}, num)
    {
      DecimalInjective(num, n);
    }
  }

  /** Selecting page 0 as `0` or as `"0"` gives the same document. */
  lemma ZeroAsIntOrString(doc: seq<Page>, angle: int)
    ensures RotatePages(doc, {I(0)}, angle) == RotatePages(doc, {S("0")}, angle)
  {
    KeyFormsAgree(doc, {}, 0, angle);
    assert Decimal(0) == "0";
    assert {} + {I(0)} == {I(0)};
    assert {} + {S("0")} == {S("0")};
  }

  /** With both `0` and `"0"` selected, page 0 is still rotated only once. */
  lemma BothFormsRotateOnce(doc: seq<Page>, sel: set<Key>, num: nat, angle: int)
    requires num < |doc|
    requires I(num) in sel && S(Decimal(num)) in sel
    ensures |RotatePages(doc, sel, angle)| == |doc|
    ensures RotatePages(doc, sel, angle)[num] == doc[num].Rotate(angle)
    ensures |RotatePages(doc, sel, angle)[num].applied| == |doc[num].applied| + 1
  {
    RotatePagesAt(doc, sel, angle);
  }

  /** An empty selection gives back the document unchanged. */
  lemma EmptySelectionKeepsDocument(doc: seq<Page>, angle: int)
    ensures RotatePages(doc, {}, angle) == doc
  {
    RotatePagesAt(doc, {}, angle);
  }

  /** An entry that names no page of the document changes nothing. */
  lemma UnmatchedKeyIgnored(doc: seq<Page>, sel: set<Key>, k: Key, angle: int)
    requires forall num | num in SelectedIndices({k}) :: num >= |doc|
    ensures RotatePages(doc, sel + {k}, angle) == RotatePages(doc, sel, angle)
  {
    RotatePagesAt(doc, sel + {k}, angle);
    RotatePagesAt(doc, sel, angle);
    forall num | 0 <= num < |doc|
      ensures Selected(sel + {k}, num) == Selected(sel, num)
    {
      SelectionByIndices({k}, num);
    }
  }

  /** Indices at or past the page count, negative indices, and strings that
      are not how `str` prints a number are ignored without error. */
  lemma StrayKeysIgnored(doc: seq<Page>, sel: set<Key>, angle: int)
    ensures RotatePages(doc, sel + {I(|doc|)}, angle) == RotatePages(doc, sel, angle)
    ensures RotatePages(doc, sel + {I(-1)}, angle) == RotatePages(doc, sel, angle)
    ensures RotatePages(doc, sel + {S(Decimal(|doc| + 3))}, angle) == RotatePages(doc, sel, angle)
    ensures RotatePages(doc, sel + {S("01")}, angle) == RotatePages(doc, sel, angle)
    ensures RotatePages(doc, sel + {S("-0")}, angle) == RotatePages(doc, sel, angle)
  {
    assert RotatePages(doc, sel + {I(|doc|)}, angle) == RotatePages(doc, sel, angle) by {
      UnmatchedKeyIgnored(doc, sel, I(|doc|), angle);
    }
    assert RotatePages(doc, sel + {I(-1)}, angle) == RotatePages(doc, sel, angle) by {
      UnmatchedKeyIgnored(doc, sel, I(-1), angle);
    }
    assert RotatePages(doc, sel + {S(Decimal(|doc| + 3))}, angle) == RotatePages(doc, sel, angle) by {
      DecimalRoundTrip(|doc| + 3);
      UnmatchedKeyIgnored(doc, sel, S(Decimal(|doc| + 3)), angle);
    }
    assert RotatePages(doc, sel + {S("01")}, angle) == RotatePages(doc, sel, angle) by {
      assert ParseDecimal("01") == None;
      UnmatchedKeyIgnored(doc, sel, S("01"), angle);
    }
    assert ParseDecimal("-0") == None by {
      assert "-0"[1..] == "0";
    }
    UnmatchedKeyIgnored(doc, sel, S("-0"), angle);
  }

  /** Page 1 of a two-page document selected: page 0 untouched, page 1
      rotated, order unchanged. */
  lemma SecondOfTwo(p0: Page, p1: Page, angle: int)
    ensures RotatePages([p0, p1], {I(1)}, angle) == [p0, p1.Rotate(angle)]
  {
    RotatePagesAt([p0, p1], {I(1)}, angle);
    assert Decimal(0) == "0" && Decimal(1) == "1";
  }

  /** Page `num` after `rotate` keeps its content and is turned clockwise by
      `angle` exactly when it is selected. */
  lemma TurnedAt(doc: seq<Page>, sel: set<Key>, angle: int, num: nat)
    requires num < |doc|
    ensures |RotatePages(doc, sel, angle)| == |doc|
    ensures RotatePages(doc, sel, angle)[num].content == doc[num].content
    ensures Orientation(RotatePages(doc, sel, angle)[num])
         == if Selected(sel, num) then (Orientation(doc[num]) + angle) % 360 else Orientation(doc[num])
  {
    RotatePagesAt(doc, sel, angle);
    RotateTurnsClockwise(doc[num], angle);
  }

  /** Page `num` after a quarter turn and then three quarter turns: its
      content and orientation are back, and it records both rotations when
      selected. */
  lemma QuarterThenThreeQuartersAt(doc: seq<Page>, sel: set<Key>, num: nat)
    requires num < |doc|
    ensures var twice := RotatePages(RotatePages(doc, sel, 90), sel, 270);
      && |twice| == |doc|
      && twice[num].content == doc[num].content
      && twice[num].initial == doc[num].initial
      && Orientation(twice[num]) == Orientation(doc[num])
      && twice[num].applied == if Selected(sel, num) then doc[num].applied + [90, 270] else doc[num].applied
  {
    var once := RotatePages(doc, sel, 90);
    RotatePagesAt(doc, sel, 90);
    RotatePagesAt(once, sel, 270);
    if Selected(sel, num) {
      assert RotatePages(once, sel, 270)[num] == doc[num].Rotate(90).Rotate(270);
      QuarterTurnsPage(doc[num]);
    }
  }

  /** Two `rotate` calls on the same file, 90 and then 270: the second call
      reads back what the first one wrote, and every page comes back with its
      content and orientation. */
  lemma RotateBackAndForth(file: FileRef, sel: set<Key>, doc: seq<Page>,
                           parse1: ReaderInput -> Option<seq<Page>>, parse2: ReaderInput -> Option<seq<Page>>)
    requires parse1(Reference(file)) == Some(doc)
    requires parse2(Reference(file)) == Some(SavedAll(RotatePages(doc, sel, 90)))
    ensures RotateOutcome(file, sel, 90, parse1) == WriteFile(file, RotatePages(doc, sel, 90))
    ensures var second := RotateOutcome(file, sel, 270, parse2);
      && second.WriteFile? && second.target == file && |second.pages| == |doc|
      && forall num | 0 <= num < |doc| ::
           && second.pages[num].content == doc[num].content
           && Orientation(second.pages[num]) == Orientation(doc[num])
           && second.pages[num].applied == if Selected(sel, num) then [270] else []
  {
    var reread := SavedAll(RotatePages(doc, sel, 90));
    var second := RotatePages(reread, sel, 270);
    assert RotateOutcome(file, sel, 270, parse2) == WriteFile(file, second);
    forall num | 0 <= num < |doc|
      ensures second[num].content == doc[num].content
      ensures Orientation(second[num]) == Orientation(doc[num])
      ensures second[num].applied == if Selected(sel, num) then [270] else []
    {
      RotateBackAndForthAt(doc, sel, num);
    }
  }

  /** Page `num` after the two calls of `RotateBackAndForth`. */
  lemma RotateBackAndForthAt(doc: seq<Page>, sel: set<Key>, num: nat)
    requires num < |doc|
    ensures var second := RotatePages(SavedAll(RotatePages(doc, sel, 90)), sel, 270);
      && second[num].content == doc[num].content
      && Orientation(second[num]) == Orientation(doc[num])
      && second[num].applied == if Selected(sel, num) then [270] else []
  {
    var first := RotatePages(doc, sel, 90);
    var reread := SavedAll(first);
    RotatePagesAt(doc, sel, 90);
    RotatePagesAt(reread, sel, 270);
    if Selected(sel, num) {
      SavedThenTurned(doc[num]);
    }
  }

  /** One page turned by 90, written and read back, then turned by 270. */
  lemma SavedThenTurned(p: Page)
    ensures Saved(p.Rotate(90)).Rotate(270).content == p.content
    ensures Orientation(Saved(p.Rotate(90)).Rotate(270)) == Orientation(p)
    ensures Saved(p.Rotate(90)).Rotate(270).applied == [270]
  {
    RotateTurnsClockwise(p, 90);
    RotateTurnsClockwise(Saved(p.Rotate(90)), 270);
    QuarterTurnsAdd(Orientation(p));
  }

  /** A quarter turn and then three quarter turns of the same pages bring
      every page back to its content and orientation; a selected page differs
      only in its recorded rotations, 90 and then 270. */
  lemma QuarterThenThreeQuarters(doc: seq<Page>, sel: set<Key>)
    ensures var twice := RotatePages(RotatePages(doc, sel, 90), sel, 270);
      |twice| == |doc| &&
      forall num | 0 <= num < |doc| ::
        && twice[num].content == doc[num].content
        && twice[num].initial == doc[num].initial
        && Orientation(twice[num]) == Orientation(doc[num])
        && twice[num].applied == if Selected(sel, num) then doc[num].applied + [90, 270] else doc[num].applied
  {
    forall num | 0 <= num < |doc| {
      QuarterThenThreeQuartersAt(doc, sel, num);
    }
  }

  lemma QuarterTurnsAdd(o: int)
    requires 0 <= o < 360
    ensures (((o + 90) % 360 + 90) % 360 + 90) % 360 == (o + 270) % 360
    ensures ((o + 270) % 360 + 90) % 360 == o
    ensures ((o + 90) % 360 + 270) % 360 == o
  {
    if o < 90 {
      assert (o + 90) % 360 == o + 90 && (o + 180) % 360 == o + 180 && (o + 270) % 360 == o + 270;
    } else if o < 180 {
      assert (o + 90) % 360 == o + 90 && (o + 180) % 360 == o + 180 && (o + 270) % 360 == o - 90;
    } else if o < 270 {
      assert (o + 90) % 360 == o + 90 && (o + 180) % 360 == o - 180 && (o + 270) % 360 == o - 90;
    } else {
      assert (o + 90) % 360 == o - 270 && (o + 180) % 360 == o - 180 && (o + 270) % 360 == o - 90;
    }
  }

  /** One page turned by 90 and then 270, or four times by 90, shows its
      original orientation again. */
  lemma QuarterTurnsPage(p: Page)
    ensures Orientation(p.Rotate(90).Rotate(270)) == Orientation(p)
    ensures p.Rotate(90).Rotate(270).applied == p.applied + [90, 270]
    ensures Orientation(p.Rotate(90).Rotate(90).Rotate(90).Rotate(90)) == Orientation(p)
  {
    var o := Orientation(p);
    RotateTurnsClockwise(p, 90);
    RotateTurnsClockwise(p.Rotate(90), 270);
    RotateTurnsClockwise(p.Rotate(90), 90);
    RotateTurnsClockwise(p.Rotate(90).Rotate(90), 90);
    RotateTurnsClockwise(p.Rotate(90).Rotate(90).Rotate(90), 90);
    QuarterTurnsAdd(o);
  }

  lemma FourQuarterTurnsAt(doc: seq<Page>, sel: set<Key>, num: nat)
    requires num < |doc|
    ensures var r4 := RotatePages(RotatePages(RotatePages(RotatePages(doc, sel, 90), sel, 90), sel, 90), sel, 90);
      |r4| == |doc| && r4[num].content == doc[num].content && Orientation(r4[num]) == Orientation(doc[num])
  {
    var r1 := RotatePages(doc, sel, 90);
    var r2 := RotatePages(r1, sel, 90);
    var r3 := RotatePages(r2, sel, 90);
    RotatePagesAt(doc, sel, 90);
    RotatePagesAt(r1, sel, 90);
    RotatePagesAt(r2, sel, 90);
    RotatePagesAt(r3, sel, 90);
    if Selected(sel, num) {
      QuarterTurnsPage(doc[num]);
    }
  }

  /** Four quarter turns of the same pages bring every page back to its orientation. */
  lemma FourQuarterTurns(doc: seq<Page>, sel: set<Key>)
    ensures var r4 := RotatePages(RotatePages(RotatePages(RotatePages(doc, sel, 90), sel, 90), sel, 90), sel, 90);
      |r4| == |doc| &&
      forall num | 0 <= num < |doc| ::
        r4[num].content == doc[num].content && Orientation(r4[num]) == Orientation(doc[num])
  {
    forall num | 0 <= num < |doc| {
      FourQuarterTurnsAt(doc, sel, num);
    }
  }

  // ---------------------------------------------------------------------
  // Command line (`main`)
  // ---------------------------------------------------------------------

  /** The angle chosen from the flags: 90 unless `--180` sets 180, and
      `--270` sets 270 whatever `--180` says. */
  method SelectAngle(oneEighty: bool, twoSeventy: bool) returns (angle: int)
    ensures twoSeventy ==> angle == 270
    ensures !twoSeventy && oneEighty ==> angle == 180
    ensures !twoSeventy && !oneEighty ==> angle == 90
  {
    angle := 90;
    if oneEighty {
      angle := 180;
    }
    if twoSeventy {
      angle := 270;
    }
  }

  /** The parsed command line: file names and page numbers arrive as strings. */
  datatype Command =
    | JoinCommand(newfile: string, files: seq<string>)
    | RotateCommand(file: string, pages: seq<string>, ninety: bool, oneEighty: bool, twoSeventy: bool)

  function Paths(names: seq<string>): (refs: seq<FileRef>)
    ensures |refs| == |names|
    ensures forall i | 0 <= i < |names| :: refs[i] == TextPath(names[i])
  {
    if names == [] then [] else [TextPath(names[0])] + Paths(names[1..])
  }

  /** The page selection of the command line: its strings, as they were given. */
  function CliSelection(pages: seq<string>): (sel: set<Key>)
    ensures forall p | p in pages :: S(p) in sel
    ensures forall k | k in sel :: k.S? && k.s in pages
  {
    set p | p in pages :: S(p)
  }

  /** On the command line a page is rotated exactly when one of the given
      strings is how `str` prints its index. */
  lemma CliSelectionByDecimal(pages: seq<string>, num: nat)
    ensures Selected(CliSelection(pages), num) <==> Decimal(num) in pages
  {
  }

  /** `main`: forward `join` as it is; for `rotate`, pick the angle from the
      flags first (`--90` has no effect of its own). */
  method Dispatch(cmd: Command, convert: FileRef -> Conversion, parse: ReaderInput -> Option<seq<Page>>) returns (effect: Effect)
    ensures cmd.JoinCommand? ==> effect == JoinOutcome(TextPath(cmd.newfile), Paths(cmd.files), convert, parse)
    ensures cmd.RotateCommand? ==>
      effect == RotateOutcome(TextPath(cmd.file), CliSelection(cmd.pages),
                              if cmd.twoSeventy then 270 else if cmd.oneEighty then 180 else 90, parse)
  {
    match cmd
    case JoinCommand(newfile, files) =>
      effect := Join(TextPath(newfile), Paths(files), convert, parse);
    case RotateCommand(file, pages, _, oneEighty, twoSeventy) =>
      var angle := SelectAngle(oneEighty, twoSeventy);
      effect := Rotate(TextPath(file), CliSelection(pages), angle, parse);
  }
}
