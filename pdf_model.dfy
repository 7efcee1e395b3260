/** What the program sees of its collaborators: pages handed out by the PDF
    library, the references Python accepts for a file, the image converter's
    answer, the PDF reader as an oracle, and the PDF writer's page list. */
module PdfModel {
  import opened Wrappers
  import opened Decimals

  /** A page as the PDF library hands it out: an opaque identity for its
      content, the /Rotate value it was read with, and the clockwise
      rotations `page.rotate` has applied to it since, oldest first. */
  datatype Page = Page(content: nat, initial: int, applied: seq<int>)
  {
    /** `page.rotate(angle)`: one more clockwise rotation; nothing else changes. */
    function Rotate(angle: int): (p: Page)
      ensures p.content == content && p.initial == initial
      ensures |p.applied| == |applied| + 1 && p.applied[..|applied|] == applied && p.applied[|applied|] == angle
    {
      this.(applied := applied + [angle])
    }
  }

  function Sum(s: seq<int>): int {
    if s == [] then 0 else s[0] + Sum(s[1..])
  }

  /** The library adds every applied angle to /Rotate; the page is shown
      turned clockwise by that total, taken modulo a full turn. */
  function Orientation(p: Page): (degrees: int)
    ensures 0 <= degrees < 360
  {
    (p.initial + Sum(p.applied)) % 360
  }

  /** A page as a reader sees it after the library wrote it out: the
      applied rotations are folded into its /Rotate value. */
  function Saved(p: Page): (q: Page)
    ensures q.content == p.content && q.applied == []
    ensures Orientation(q) == Orientation(p)
  {
    Page(p.content, p.initial + Sum(p.applied), [])
  }

  /** Every page of a written document, as it is read back. */
  function SavedAll(doc: seq<Page>): (out: seq<Page>)
    ensures |out| == |doc|
    ensures forall i | 0 <= i < |doc| :: out[i] == Saved(doc[i])
  {
    seq(|doc|, i requires 0 <= i < |doc| => Saved(doc[i]))
  }

  lemma {:induction false} SumAppend(s: seq<int>, a: int)
    ensures Sum(s + [a]) == Sum(s) + a
  {
    if s != [] {
      assert (s + [a])[1..] == s[1..] + [a];
      SumAppend(s[1..], a);
    }
  }

  /** Rotating a page turns it clockwise by the angle and keeps its content. */
  lemma RotateTurnsClockwise(p: Page, angle: int)
    ensures p.Rotate(angle).content == p.content
    ensures Orientation(p.Rotate(angle)) == (Orientation(p) + angle) % 360
  {
    SumAppend(p.applied, angle);
  }

  /** The forms in which Python code hands over a file: a str path, a
      path-like object, an open binary stream, or a bare integer. */
  datatype FileRef =
    | TextPath(path: string)
    | PathObject(path: string)
    | Stream(handle: nat)
    | Descriptor(fd: int)

  /** `hasattr(file, "read")`: only an open stream has one. */
  predicate HasRead(file: FileRef): (b: bool)
    ensures b ==> file.Stream?
    ensures !b ==> file.TextPath? || file.PathObject? || file.Descriptor?
  {
    file.Stream?
  }

  /** `str(file)` for a reference without `read`. */
  function PyStr(file: FileRef): (s: string)
    requires !HasRead(file)
    ensures (file.TextPath? || file.PathObject?) ==> s == file.path
    ensures file.Descriptor? ==> ParseDecimal(s) == Some(file.fd)
  {
    match file
    case TextPath(p) => p
    case PathObject(p) => p
    case Descriptor(fd) => DecimalRoundTrip(fd); Decimal(fd)
  }

  /** What the PDF reader is opened on: a PDF made from an image, or the
      reference itself. */
  datatype ReaderInput = ConvertedImage(pdf: seq<bv8>) | Reference(file: FileRef)

  /** The image converter's answer for one reference: a one-page PDF, the
      `ImageOpenError` that says the input is not an image, or any other
      failure (which nothing catches). */
  datatype Conversion = Converted(pdf: seq<bv8>) | ImageOpenError | OtherFailure

  datatype Error = ConversionFailed | MalformedPdf

  datatype Result<T> = Ok(value: T) | Err(error: Error)

  /** What an operation leaves behind: the pages written to a target, or an
      error that ended it before anything was written. */
  datatype Effect = WriteFile(target: FileRef, pages: seq<Page>) | Abort(error: Error)

  /** `PdfReader(input).pages`, with the library's parser as the oracle
      `parse`; a parse failure is fatal. */
  function ReadPages(input: ReaderInput, parse: ReaderInput -> Option<seq<Page>>): (r: Result<seq<Page>>)
    ensures r.Ok? <==> parse(input).Some?
    ensures r.Ok? ==> r.value == parse(input).value
    ensures r.Err? ==> r.error == MalformedPdf
  {
    match parse(input)
    case None => Err(MalformedPdf)
    case Some(pages) => Ok(pages)
  }

  /** The list comprehension that opens every input in order: the first
      input that fails ends it with that input's error. */
  function OpenAll(files: seq<FileRef>, open: FileRef -> Result<seq<Page>>): (r: Result<seq<seq<Page>>>)
    ensures r.Ok? <==> forall i | 0 <= i < |files| :: open(files[i]).Ok?
    ensures r.Ok? ==> |r.value| == |files| && forall i | 0 <= i < |files| :: r.value[i] == open(files[i]).value
    ensures r.Err? ==> exists k | 0 <= k < |files| :: open(files[k]) == Err(r.error) && forall i | 0 <= i < k :: open(files[i]).Ok?
  {
    if files == [] then Ok([])
    else match open(files[0])
      case Err(e) => Err(e)
      case Ok(doc) =>
        var rest := OpenAll(files[1..], open);
        if rest.Err? then
          assert forall i | 1 <= i < |files| :: files[i] == files[1..][i - 1];
          Err(rest.error)
        else
          assert forall i | 1 <= i < |files| :: files[i] == files[1..][i - 1];
          Ok([doc] + rest.value)
  }

  /** Opening with two openers that agree on every input gives the same result. */
  lemma {:induction false} OpenAllAgree(files: seq<FileRef>, f: FileRef -> Result<seq<Page>>, g: FileRef -> Result<seq<Page>>)
    requires forall i | 0 <= i < |files| :: f(files[i]) == g(files[i])
    ensures OpenAll(files, f) == OpenAll(files, g)
  {
    if files != [] {
      assert forall i | 0 <= i < |files| - 1 :: files[1..][i] == files[i + 1];
      OpenAllAgree(files[1..], f, g);
    }
  }

  /** All pages of all documents, documents in order, pages in order. */
  function Flatten(docs: seq<seq<Page>>): seq<Page> {
    if docs == [] then [] else docs[0] + Flatten(docs[1..])
  }

  function TotalPages(docs: seq<seq<Page>>): nat {
    if docs == [] then 0 else |docs[0]| + TotalPages(docs[1..])
  }

  lemma {:induction false} FlattenAppend(docs: seq<seq<Page>>, doc: seq<Page>)
    ensures Flatten(docs + [doc]) == Flatten(docs) + doc
  {
    if docs != [] {
      assert (docs + [doc])[1..] == docs[1..] + [doc];
      FlattenAppend(docs[1..], doc);
    } else {
      assert [] + [doc] == [doc];
    }
  }

  /** The concatenation has as many pages as all documents together. */
  lemma {:induction false} FlattenLength(docs: seq<seq<Page>>)
    ensures |Flatten(docs)| == TotalPages(docs)
  {
    if docs != [] {
      FlattenLength(docs[1..]);
    }
  }

  /** Page `j` of document `i` sits right after the pages of the documents
      before it. */
  lemma {:induction false} FlattenAt(docs: seq<seq<Page>>, i: nat, j: nat)
    requires i < |docs| && j < |docs[i]|
    ensures TotalPages(docs[..i]) + j < |Flatten(docs)|
    ensures Flatten(docs)[TotalPages(docs[..i]) + j] == docs[i][j]
  {
    FlattenLength(docs);
    if i == 0 {
      assert docs[..0] == [];
    } else {
      FlattenAt(docs[1..], i - 1, j);
      assert docs[..i][1..] == docs[1..][..i - 1];
      FlattenLength(docs[1..]);
    }
  }

  /** The documents before `i`, with `i` itself, hold no more pages than all together. */
  lemma {:induction false} PrefixPages(docs: seq<seq<Page>>, i: nat)
    requires i < |docs|
    ensures TotalPages(docs[..i]) + |docs[i]| <= TotalPages(docs)
  {
    if i == 0 {
      assert docs[..0] == [];
    } else {
      PrefixPages(docs[1..], i - 1);
      assert docs[..i][1..] == docs[1..][..i - 1];
    }
  }

  /** Every page of every document, placed after the documents before it. */
  lemma {:induction false} FlattenPlaces(docs: seq<seq<Page>>)
    ensures |Flatten(docs)| == TotalPages(docs)
    ensures forall i | 0 <= i < |docs| :: TotalPages(docs[..i]) + |docs[i]| <= |Flatten(docs)|
    ensures forall i, j | 0 <= i < |docs| && 0 <= j < |docs[i]| ::
      Flatten(docs)[TotalPages(docs[..i]) + j] == docs[i][j]
  {
    FlattenLength(docs);
    forall i | 0 <= i < |docs|
      ensures TotalPages(docs[..i]) + |docs[i]| <= |Flatten(docs)|
    {
      PrefixPages(docs, i);
    }
    forall i, j | 0 <= i < |docs| && 0 <= j < |docs[i]|
      ensures Flatten(docs)[TotalPages(docs[..i]) + j] == docs[i][j]
    {
      FlattenAt(docs, i, j);
    }
  }

  /** The library's PdfWriter, reduced to the pages added to it so far. */
  class Writer {
    var pages: seq<Page>

    constructor ()
      ensures pages == []
    {
      pages := [];
    }

    /** `writer.add_page(page)`. */
    method AddPage(page: Page)
      modifies this
      ensures pages == old(pages) + [page]
    {
      pages := pages + [page];
    }
  }
}
