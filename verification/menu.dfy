/**
 * The logic inside the File menu: the file-extension helper, the format a
 * save writes and how New File resets it, and where Insert Image places the
 * overlay picture on the canvas. File dialogs and image I/O are parameters:
 * the outcome of a save dialog and write is passed in as a `SaveOutcome`.
 */
module Menu {
  import opened Wrappers
  import opened Numeric
  import opened Geometry

  /** The format written when none has been recorded yet. */
  const DEFAULT_FORMAT: string := "png"

  // ------------------------------------------------------------ file extension

  /** `String.lastIndexOf(".")`, with `None` for Java's -1. */
  function LastDot(name: string): (r: Option<nat>)
    ensures r.None? <==> '.' !in name
    ensures r.Some? ==> r.value < |name| && name[r.value] == '.' && '.' !in name[r.value + 1..]
  {
    if |name| == 0 then None
    else if name[|name| - 1] == '.' then Some(|name| - 1)
    else
      var r := LastDot(name[..|name| - 1]);
      assert name == name[..|name| - 1] + [name[|name| - 1]];
      if r.Some? then
        assert name[r.value + 1..] == name[..|name| - 1][r.value + 1..] + [name[|name| - 1]];
        r
      else
        r
  }

  /** ASCII lower-casing of one character. */
  function LowerChar(c: char): (d: char)
    ensures !('A' <= d <= 'Z')
    ensures d == '.' <==> c == '.'
  {
    if 'A' <= c <= 'Z' then (c as int - 'A' as int + 'a' as int) as char else c
  }

  /** `String.toLowerCase`, restricted to ASCII letters. */
  function Lower(s: string): (r: string)
    ensures |r| == |s|
    ensures forall i :: 0 <= i < |s| ==> r[i] == LowerChar(s[i])
  {
    seq(|s|, i requires 0 <= i < |s| => LowerChar(s[i]))
  }

  /** No upper-case ASCII letter occurs in `s`. */
  predicate IsLowerCase(s: string) {
    forall i :: 0 <= i < |s| ==> !('A' <= s[i] <= 'Z')
  }

  /**
   * `getFileExtension`: the lower-cased text after the last dot of the name,
   * or "png" when the name has no dot.
   */
  function FileExtension(name: string): (ext: string)
    ensures '.' !in name ==> ext == DEFAULT_FORMAT
    ensures '.' in name ==>
              exists i :: 0 <= i < |name| && name[i] == '.' && '.' !in name[i + 1..] && ext == Lower(name[i + 1..])
    ensures '.' in name ==> '.' !in ext && IsLowerCase(ext)
    ensures |name| > 0 && name[|name| - 1] == '.' ==> ext == ""
  {
    match LastDot(name)
    case None => DEFAULT_FORMAT
    case Some(i) =>
      var ext := Lower(name[i + 1..]);
      assert '.' !in ext by {
        forall k | 0 <= k < |ext| ensures ext[k] != '.' {
          assert name[i + 1..][k] in name[i + 1..];
        }
      }
      ext
  }

  /** A name built from a base, a dot and a dot-free suffix has that suffix, lower-cased, as its extension. */
  lemma {:induction false} ExtensionOfJoinedName(base: string, suffix: string)
    requires '.' !in suffix
    ensures FileExtension(base + "." + suffix) == Lower(suffix)
  {
    var name := base + "." + suffix;
    assert name[|base|] == '.';
    var i := LastDot(name).value;
    assert i == |base|;
    assert name[i + 1..] == suffix;
  }

  /** Lower-casing twice changes nothing more, so an extension is its own lower case. */
  lemma LowerIsIdempotent(s: string)
    ensures Lower(Lower(s)) == Lower(s)
    ensures IsLowerCase(s) ==> Lower(s) == s
  {
  }

  // --------------------------------------------------------------- save format

  /** The menu controller's state: the format recorded by the last successful save. */
  datatype Document = Document(currentFileFormat: Option<string>)

  /** A freshly created controller has no recorded format. */
  const STARTUP: Document := Document(None)

  /** How a save ends: the dialog was cancelled, the write failed, or the image was written. */
  datatype SaveOutcome = Cancelled | WriteFailed | Written

  /** The format a save uses: the recorded one, or "png" when none is recorded. */
  function SaveFormat(d: Document): (f: string)
    ensures d.currentFileFormat.Some? ==> f == d.currentFileFormat.value
    ensures d.currentFileFormat.None? ==> f == DEFAULT_FORMAT
  {
    match d.currentFileFormat
    case Some(f) => f
    case None => DEFAULT_FORMAT
  }

  /**
   * `FileSave`: the new state and the format handed to the image writer
   * (`None` when the dialog was cancelled and nothing was written).
   */
  function FileSave(d: Document, outcome: SaveOutcome): (res: (Document, Option<string>))
    ensures res.1.None? <==> outcome == Cancelled
    ensures res.1.Some? ==> res.1.value == SaveFormat(d)
    ensures outcome == Written ==> res.0.currentFileFormat == Some(SaveFormat(d))
    ensures outcome != Written ==> res.0 == d
  {
    match outcome
    case Cancelled => (d, None)
    case WriteFailed => (d, Some(SaveFormat(d)))
    case Written => (Document(Some(SaveFormat(d))), Some(SaveFormat(d)))
  }

  /** `NewFile`: forgets the recorded format, so the next save writes "png". */
  function NewFile(d: Document): (d': Document)
    ensures d'.currentFileFormat.None?
    ensures SaveFormat(d') == DEFAULT_FORMAT
  {
    Document(None)
  }

  /** A successful save records its format, so saving again writes the same format and changes nothing. */
  lemma SaveIsIdempotent(d: Document, outcome: SaveOutcome)
    ensures var d1 := FileSave(d, Written).0;
      && FileSave(d1, outcome).1 == (if outcome == Cancelled then None else Some(SaveFormat(d)))
      && FileSave(d1, outcome).0 == d1
  {
  }

  /** The menu actions that touch the recorded format. */
  datatype MenuAction = NewFileChosen | SaveChosen(outcome: SaveOutcome)

  function Act(d: Document, a: MenuAction): Document {
    match a
    case NewFileChosen => NewFile(d)
    case SaveChosen(outcome) => FileSave(d, outcome).0
  }

  function ActAll(d: Document, actions: seq<MenuAction>): Document
    decreases |actions|
  {
    if |actions| == 0 then d else ActAll(Act(d, actions[0]), actions[1..])
  }

  /** The recorded format is either absent or "png". */
  predicate RecordsOnlyDefault(d: Document) {
    d.currentFileFormat.None? || d.currentFileFormat.value == DEFAULT_FORMAT
  }

  /**
   * Nothing but a save ever records a format, and a save records the format
   * it used, so starting from a fresh controller every save writes "png",
   * whatever actions came before.
   */
  lemma {:induction false} EverySaveWritesDefault(actions: seq<MenuAction>, outcome: SaveOutcome)
    ensures RecordsOnlyDefault(ActAll(STARTUP, actions))
    ensures outcome != Cancelled ==> FileSave(ActAll(STARTUP, actions), outcome).1 == Some(DEFAULT_FORMAT)
  {
    ActAllKeepsDefault(STARTUP, actions);
  }

  lemma {:induction false} ActAllKeepsDefault(d: Document, actions: seq<MenuAction>)
    requires RecordsOnlyDefault(d)
    ensures RecordsOnlyDefault(ActAll(d, actions))
    decreases |actions|
  {
    if |actions| > 0 {
      ActAllKeepsDefault(Act(d, actions[0]), actions[1..]);
    }
  }

  /**
   * The save ignores the name the user typed: from a fresh controller, saving
   * to "picture.jpeg" hands "png" to the image writer, although the name's
   * extension is "jpeg".
   */
  lemma SaveIgnoresChosenName()
    ensures FileSave(STARTUP, Written).1 == Some("png")
    ensures FileExtension("picture.jpeg") == "jpeg"
  {
    assert "picture.jpeg" == "picture" + "." + "jpeg";
    assert '.' !in "jpeg" && IsLowerCase("jpeg");
    ExtensionOfJoinedName("picture", "jpeg");
    LowerIsIdempotent("jpeg");
  }

  /**
   * A save that takes its format from the chosen file's name, which is what
   * the unused extension helper and the per-format dialog filters are for:
   * the format is the name's extension, recorded on success.
   */
  function FileSaveAs(d: Document, name: string, outcome: SaveOutcome): (res: (Document, Option<string>))
    ensures res.1.None? <==> outcome == Cancelled
    ensures res.1.Some? ==> res.1.value == FileExtension(name)
    ensures outcome == Written ==> res.0.currentFileFormat == Some(FileExtension(name))
    ensures outcome != Written ==> res.0 == d
  {
    match outcome
    case Cancelled => (d, None)
    case WriteFailed => (d, Some(FileExtension(name)))
    case Written => (Document(Some(FileExtension(name))), Some(FileExtension(name)))
  }

  /** Saving to `base.ext` writes the lower-cased `ext`, and to a dot-free name writes "png". */
  lemma SaveAsWritesChosenFormat(d: Document, base: string, ext: string, outcome: SaveOutcome)
    requires '.' !in ext && outcome != Cancelled
    ensures FileSaveAs(d, base + "." + ext, outcome).1 == Some(Lower(ext))
    ensures '.' !in base ==> FileSaveAs(d, base, outcome).1 == Some(DEFAULT_FORMAT)
  {
    ExtensionOfJoinedName(base, ext);
  }

  // ---------------------------------------------------------- overlay placement

  /**
   * Insert Image: the rectangle the chosen picture is drawn into. Each side is
   * the smaller of the canvas side and the picture side, and the rectangle is
   * centred on the canvas.
   */
  function OverlayPlacement(canvasWidth: real, canvasHeight: real, imageWidth: real, imageHeight: real): (r: Rect)
    ensures r.width <= canvasWidth && r.width <= imageWidth
    ensures r.width == canvasWidth || r.width == imageWidth
    ensures r.height <= canvasHeight && r.height <= imageHeight
    ensures r.height == canvasHeight || r.height == imageHeight
    // Centred: equal margins on both sides, and neither margin is negative.
    ensures r.x >= 0.0 && r.x + r.width + r.x == canvasWidth
    ensures r.y >= 0.0 && r.y + r.height + r.y == canvasHeight
  {
    var scaledWidth := Min(canvasWidth, imageWidth);
    var scaledHeight := Min(canvasHeight, imageHeight);
    Rect((canvasWidth - scaledWidth) / 2.0, (canvasHeight - scaledHeight) / 2.0, scaledWidth, scaledHeight)
  }

  /**
   * The overlay lies on the canvas, shares its centre, and keeps the
   * picture's own size along every axis where the picture fits.
   */
  lemma OverlayFitsAndIsCentred(canvasWidth: real, canvasHeight: real, imageWidth: real, imageHeight: real)
    ensures var r := OverlayPlacement(canvasWidth, canvasHeight, imageWidth, imageHeight);
      && Rect(0.0, 0.0, canvasWidth, canvasHeight).Encloses(r)
      && r.x + r.width / 2.0 == canvasWidth / 2.0
      && r.y + r.height / 2.0 == canvasHeight / 2.0
      && (imageWidth <= canvasWidth ==> r.width == imageWidth)
      && (imageHeight <= canvasHeight ==> r.height == imageHeight)
  {
  }

  /** Placing a picture of the placed size again lands on the same rectangle. */
  lemma OverlayPlacementIsStable(canvasWidth: real, canvasHeight: real, imageWidth: real, imageHeight: real)
    ensures var r := OverlayPlacement(canvasWidth, canvasHeight, imageWidth, imageHeight);
      OverlayPlacement(canvasWidth, canvasHeight, r.width, r.height) == r
  {
  }
}
