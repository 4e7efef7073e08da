/**
 The Worker's document preparation: a text file becomes pages of drawn lines, and an
 ordered list of files becomes one merged PDF with the page range of each file.
 */
module Documents {
  import opened Basics

  /** One UTF-16 code unit of a decoded text. */
  type Unit = n: int | 0 <= n < 0x1_0000 witness 32

  const NEWLINE: Unit := 10
  const RETURN: Unit := 13
  const TAB: Unit := 9
  const SPACE: Unit := 32
  const QUESTION: Unit := 63
  const BYTE_ORDER_MARK: Unit := 0xFEFF

  type Line = seq<Unit>

  // ---- normalizing the text ---------------------------------------------------

  function StripMark(text: Line): Line {
    if text != [] && text[0] == BYTE_ORDER_MARK then text[1..] else text
  }

  /** A carriage return, with the newline right after it if there is one, becomes one newline. */
  function UnixBreaks(text: Line): Line {
    if text == [] then []
    else if text[0] == RETURN then
      [NEWLINE] + UnixBreaks(if |text| > 1 && text[1] == NEWLINE then text[2..] else text[1..])
    else [text[0]] + UnixBreaks(text[1..])
  }

  function ExpandTabs(text: Line): Line {
    if text == [] then []
    else (if text[0] == TAB then [SPACE, SPACE, SPACE, SPACE] else [text[0]]) + ExpandTabs(text[1..])
  }

  /** What the page font can draw. */
  predicate Drawable(u: Unit) { 0x20 <= u <= 0x7E }

  function Visible(text: Line): Line {
    seq(|text|, i requires 0 <= i < |text| => if Drawable(text[i]) || text[i] == NEWLINE then text[i] else QUESTION)
  }

  function Normalized(text: Line): Line {
    Visible(ExpandTabs(UnixBreaks(StripMark(text))))
  }

  predicate Normal(text: Line) {
    forall i :: 0 <= i < |text| ==> Drawable(text[i]) || text[i] == NEWLINE
  }

  lemma {:induction false} UnixBreaksLeavesNormal(text: Line)
    requires Normal(text)
    ensures UnixBreaks(text) == text && ExpandTabs(text) == text
  {
    if text != [] {
      UnixBreaksLeavesNormal(text[1..]);
      assert text[0] != RETURN && text[0] != TAB;
      assert text == [text[0]] + text[1..];
    }
  }

  /** Normalizing makes every unit drawable or a line break, and changes no text that already is so. */
  lemma NormalizedIffNormal(text: Line)
    ensures Normal(Normalized(text))
    ensures Normal(text) <==> Normalized(text) == text
  {
    if Normal(text) {
      assert StripMark(text) == text;
      UnixBreaksLeavesNormal(text);
      assert Visible(text) == text;
    }
  }

  lemma {:induction false} TabsExpandApart(a: Line, b: Line)
    ensures ExpandTabs(a + b) == ExpandTabs(a) + ExpandTabs(b)
  {
    if a == [] {
      assert a + b == b;
    } else {
      var head := if a[0] == TAB then [SPACE, SPACE, SPACE, SPACE] else [a[0]];
      calc {
        ExpandTabs(a + b);
        { assert (a + b)[0] == a[0] && (a + b)[1..] == a[1..] + b; }
        head + ExpandTabs(a[1..] + b);
        { TabsExpandApart(a[1..], b); }
        head + (ExpandTabs(a[1..]) + ExpandTabs(b));
        (head + ExpandTabs(a[1..])) + ExpandTabs(b);
      }
    }
  }

  /** A tab is four spaces, wherever it stands. */
  lemma TabsBecomeSpaces(before: Line, after: Line)
    ensures ExpandTabs(before + [9] + after) == ExpandTabs(before) + [32, 32, 32, 32] + ExpandTabs(after)
  {
    TabsExpandApart(before + [9], after);
    TabsExpandApart(before, [9]);
    assert [9][1..] == [] && ExpandTabs([9]) == [32, 32, 32, 32];
  }

  lemma {:induction false} PlainTextStays(text: Line)
    requires 13 !in text && 9 !in text
    ensures UnixBreaks(text) == text && ExpandTabs(text) == text
  {
    if text != [] {
      PlainTextStays(text[1..]);
      assert text[0] != RETURN && text[0] != TAB;
      assert text == [text[0]] + text[1..];
    }
  }

  /** Without tabs and returns, each unit stays in place, a question mark standing for what cannot be drawn; a
      leading byte-order mark is dropped. */
  lemma NormalizedUnits(text: Line)
    requires 13 !in text && 9 !in text && (text != [] ==> text[0] != 0xFEFF)
    ensures |Normalized(text)| == |text| && Normalized([0xFEFF] + text) == Normalized(text)
    ensures forall i :: 0 <= i < |text| ==>
              Normalized(text)[i] == if 0x20 <= text[i] <= 0x7E || text[i] == 10 then text[i] else 63
  {
    PlainTextStays(text);
    assert ([0xFEFF] + text)[1..] == text;
  }

  // ---- source lines -----------------------------------------------------------

  function Split(text: Line): (lines: seq<Line>)
    ensures |lines| > 0
  {
    if text == [] then [[]]
    else
      var rest := Split(text[1..]);
      if text[0] == NEWLINE then [[]] + rest else [[text[0]] + rest[0]] + rest[1..]
  }

  function Join(lines: seq<Line>): Line
    requires lines != []
  {
    if |lines| == 1 then lines[0] else lines[0] + [NEWLINE] + Join(lines[1..])
  }

  /** Splitting loses nothing, and no source line holds a line break. */
  lemma {:induction false} JoinUndoesSplit(text: Line)
    ensures Join(Split(text)) == text
    ensures forall i :: 0 <= i < |Split(text)| ==> NEWLINE !in Split(text)[i]
  {
    if text != [] {
      JoinUndoesSplit(text[1..]);
      var rest := Split(text[1..]);
      if text[0] == NEWLINE {
        assert ([[]] + rest)[1..] == rest;
      } else {
        var lines := [[text[0]] + rest[0]] + rest[1..];
        assert lines[1..] == rest[1..];
        assert Join(lines) == [text[0]] + Join(rest);
      }
    }
  }

  /** The lines written with one of the three conventions for a line break. */
  function Written(lines: seq<Line>, mark: Line): Line
    requires lines != []
  {
    if |lines| == 1 then lines[0] else lines[0] + mark + Written(lines[1..], mark)
  }

  predicate OneLine(line: Line) { RETURN !in line && NEWLINE !in line }

  lemma {:induction false} PlainPartStays(line: Line, rest: Line)
    requires RETURN !in line
    ensures UnixBreaks(line + rest) == line + UnixBreaks(rest)
  {
    if line == [] {
      assert line + rest == rest;
    } else {
      PlainPartStays(line[1..], rest);
      assert line[0] != RETURN && (line + rest)[1..] == line[1..] + rest;
      assert [line[0]] + (line[1..] + UnixBreaks(rest)) == line + UnixBreaks(rest);
    }
  }

  predicate BreakMark(mark: Line) {
    mark == [NEWLINE] || mark == [RETURN] || mark == [RETURN, NEWLINE]
  }

  /** A mark is recognized unless what follows it would extend a bare return. */
  lemma MarkBecomesNewline(mark: Line, rest: Line)
    requires BreakMark(mark) && (mark == [RETURN] && rest != [] ==> rest[0] != NEWLINE)
    ensures UnixBreaks(mark + rest) == [NEWLINE] + UnixBreaks(rest)
  {
    if mark == [RETURN, NEWLINE] {
      assert (mark + rest)[2..] == rest;
    } else {
      assert (mark + rest)[1..] == rest;
    }
  }

  lemma LineThenMark(line: Line, mark: Line, rest: Line)
    requires RETURN !in line && BreakMark(mark) && (mark == [RETURN] && rest != [] ==> rest[0] != NEWLINE)
    ensures UnixBreaks(line + mark + rest) == line + [NEWLINE] + UnixBreaks(rest)
  {
    var tail := UnixBreaks(rest);
    calc {
      UnixBreaks(line + mark + rest);
      { assert line + mark + rest == line + (mark + rest); }
      UnixBreaks(line + (mark + rest));
      { PlainPartStays(line, mark + rest); }
      line + UnixBreaks(mark + rest);
      { MarkBecomesNewline(mark, rest); }
      line + ([NEWLINE] + tail);
      line + [NEWLINE] + tail;
    }
  }

  /** Whichever convention a text is written with, the same source lines come out. */
  lemma {:induction false} BreaksAreRecognized(lines: seq<Line>, mark: Line)
    requires lines != [] && (forall i :: 0 <= i < |lines| ==> OneLine(lines[i])) && BreakMark(mark)
    ensures UnixBreaks(Written(lines, mark)) == Join(lines)
  {
    assert OneLine(lines[0]);
    if |lines| == 1 {
      PlainPartStays(lines[0], []);
      assert lines[0] + [] == lines[0];
    } else {
      BreaksAreRecognized(lines[1..], mark);
      StartsOutsideNewline(lines[1..], mark);
      LineThenMark(lines[0], mark, Written(lines[1..], mark));
    }
  }

  lemma StartsOutsideNewline(lines: seq<Line>, mark: Line)
    requires lines != [] && OneLine(lines[0])
    ensures mark == [RETURN] && Written(lines, mark) != [] ==> Written(lines, mark)[0] != NEWLINE
  {
    if mark == [RETURN] && lines[0] == [] && |lines| > 1 {
      assert Written(lines, mark)[0] == RETURN;
    }
  }

  // ---- wrapping ---------------------------------------------------------------

  /** The pieces of one source line; an empty line keeps one empty piece. */
  function Chunks(line: Line, columns: nat): (pieces: seq<Line>)
    requires columns > 0
    decreases |line|
  {
    if |line| <= columns then [line] else [line[..columns]] + Chunks(line[columns..], columns)
  }

  function Flat(pieces: seq<Line>): Line {
    if pieces == [] then [] else pieces[0] + Flat(pieces[1..])
  }

  function Wrapped(source: seq<Line>, columns: nat): seq<Line>
    requires columns > 0
  {
    if source == [] then []
    else Wrapped(source[..|source| - 1], columns) + Chunks(source[|source| - 1], columns)
  }

  /** The wrapping loop: an empty source line is pushed as it is, any other in slices of `columns`. */
  method Wrap(source: seq<Line>, columns: nat) returns (lines: seq<Line>)
    requires columns > 0
    ensures lines == Wrapped(source, columns)
  {
    lines := [];
    for i := 0 to |source|
      invariant lines == Wrapped(source[..i], columns)
    {
      var line := source[i];
      ghost var before := lines;
      if |line| == 0 {
        lines := lines + [[]];
      } else {
        var offset := 0;
        while offset < |line|
          invariant 0 <= offset
          invariant offset < |line| ==> lines + Chunks(line[offset..], columns) == before + Chunks(line, columns)
          invariant offset >= |line| ==> lines == before + Chunks(line, columns)
          decreases |line| - offset
        {
          var end := if offset + columns <= |line| then offset + columns else |line|;
          assert offset + columns < |line| ==> line[offset..][columns..] == line[offset + columns..];
          assert offset + columns >= |line| ==> line[offset..] == line[offset..end];
          assert line[offset..][..end - offset] == line[offset..end];
          lines := lines + [line[offset..end]];
          offset := offset + columns;
        }
      }
      assert source[..i + 1][..i] == source[..i];
    }
    assert source[..|source|] == source;
  }

  lemma {:induction false} ChunksRejoin(line: Line, columns: nat)
    requires columns > 0
    ensures Flat(Chunks(line, columns)) == line
    ensures forall i :: 0 <= i < |Chunks(line, columns)| ==> |Chunks(line, columns)[i]| <= columns
    ensures line != [] ==> [] !in Chunks(line, columns)
    ensures forall i :: 0 <= i < |Chunks(line, columns)| - 1 ==> |Chunks(line, columns)[i]| == columns
    decreases |line|
  {
    if |line| <= columns {
      assert line + [] == line && [line][1..] == [];
    } else {
      ChunksRejoin(line[columns..], columns);
      var rest := Chunks(line[columns..], columns);
      assert ([line[..columns]] + rest)[1..] == rest;
      assert line[..columns] + line[columns..] == line;
    }
  }

  /** Cuts says where each source line's pieces start: piece numbers, first 0, last the number of pieces. */
  predicate Cuts(cuts: seq<nat>, pieces: nat) {
    && cuts != [] && cuts[0] == 0 && cuts[|cuts| - 1] == pieces
    && forall i, j :: 0 <= i < j < |cuts| ==> cuts[i] < cuts[j]
  }

  /** The wrapped lines between two cuts rejoin to one source line, and only the last of them may be short. */
  predicate Rejoins(lines: seq<Line>, cuts: seq<nat>, source: seq<Line>, columns: nat) {
    && |cuts| == |source| + 1 && Cuts(cuts, |lines|)
    && forall i :: 0 <= i < |source| ==> Group(lines, cuts, i, source[i], columns)
  }

  predicate Group(lines: seq<Line>, cuts: seq<nat>, i: nat, line: Line, columns: nat) {
    && i + 1 < |cuts| && cuts[i] < cuts[i + 1] <= |lines| && Flat(lines[cuts[i]..cuts[i + 1]]) == line
    && Wide(lines[cuts[i]..cuts[i + 1]], columns) && (line != [] ==> [] !in lines[cuts[i]..cuts[i + 1]])
  }

  /** All pieces but the last have the full width, and the last no more. */
  predicate Wide(pieces: seq<Line>, columns: nat) {
    && (forall k :: 0 <= k < |pieces| - 1 ==> |pieces[k]| == columns)
    && (pieces != [] ==> |pieces[|pieces| - 1]| <= columns)
  }

  predicate Narrow(lines: seq<Line>, columns: nat) {
    forall i :: 0 <= i < |lines| ==> |lines[i]| <= columns
  }

  /** Wrapping loses nothing: the wrapped lines fall into consecutive groups, one for each source line, that
      rejoin to it, and none is wider than the page allows. */
  lemma {:induction false} WrappedRejoins(source: seq<Line>, columns: nat) returns (cuts: seq<nat>)
    requires columns > 0
    ensures Rejoins(Wrapped(source, columns), cuts, source, columns)
    ensures Narrow(Wrapped(source, columns), columns)
  {
    if source == [] {
      return [0];
    }
    var n := |source| - 1;
    var front, pieces := Wrapped(source[..n], columns), Chunks(source[n], columns);
    cuts := WrappedRejoins(source[..n], columns);
    ChunksRejoin(source[n], columns);
    OneMoreGroup(front, cuts, source[..n], pieces, source[n], columns);
    assert source[..n] + [source[n]] == source;
    cuts := cuts + [|front + pieces|];
  }

  lemma OneMoreGroup(front: seq<Line>, cuts: seq<nat>, source: seq<Line>, pieces: seq<Line>, line: Line,
                     columns: nat)
    requires Rejoins(front, cuts, source, columns) && pieces != [] && Flat(pieces) == line
    requires Wide(pieces, columns) && (line != [] ==> [] !in pieces)
    ensures Rejoins(front + pieces, cuts + [|front + pieces|], source + [line], columns)
  {
    var lines, all := front + pieces, cuts + [|front + pieces|];
    forall i | 0 <= i <= |source|
      ensures Group(lines, all, i, (source + [line])[i], columns)
    {
      if i < |source| {
        assert Group(front, cuts, i, source[i], columns);
        assert lines[cuts[i]..cuts[i + 1]] == front[cuts[i]..cuts[i + 1]];
      } else {
        assert lines[|front|..|lines|] == pieces;
      }
    }
  }

  // ---- pages ------------------------------------------------------------------

  const LINES_PER_PAGE := 58
  const LINE_HEIGHT := 12

  datatype Drawn = Drawn(text: Line, x: int, y: int)

  /** A page: lines this program drew, or a page that came with the file. */
  datatype Sheet = TextSheet(lines: seq<Drawn>) | Foreign(id: nat)

  function DrawnLines(lines: seq<Line>): seq<Drawn> {
    seq(|lines|, i requires 0 <= i < |lines| => Drawn(lines[i], 36, 756 - i * LINE_HEIGHT))
  }

  function SheetsOf(lines: seq<Line>): seq<Sheet>
    decreases |lines|
  {
    if |lines| <= LINES_PER_PAGE then [TextSheet(DrawnLines(lines))]
    else [TextSheet(DrawnLines(lines[..LINES_PER_PAGE]))] + SheetsOf(lines[LINES_PER_PAGE..])
  }

  method DrawPage(slice: seq<Line>) returns (page: seq<Drawn>)
    ensures page == DrawnLines(slice)
  {
    page := [];
    for index := 0 to |slice|
      invariant page == DrawnLines(slice[..index])
    {
      page := page + [Drawn(slice[index], 36, 756 - index * LINE_HEIGHT)];
    }
    assert slice[..|slice|] == slice;
  }

  /** The page loop: at least one page, each page its slice of the lines from the top down. */
  method Paginate(lines: seq<Line>) returns (pages: seq<Sheet>)
    ensures pages == SheetsOf(lines)
  {
    pages := [];
    var offset := 0;
    while offset < (if |lines| > 1 then |lines| else 1)
      invariant 0 <= offset
      invariant (offset < |lines| || offset == 0) ==> pages + SheetsOf(lines[offset..]) == SheetsOf(lines)
      invariant offset >= |lines| && offset > 0 ==> pages == SheetsOf(lines)
      decreases |lines| + 1 - offset
    {
      var end := if offset + LINES_PER_PAGE <= |lines| then offset + LINES_PER_PAGE else |lines|;
      var slice := lines[offset..end];
      var page := DrawPage(slice);
      assert lines[offset..][..end - offset] == slice;
      assert offset + LINES_PER_PAGE >= |lines| ==> lines[offset..] == slice;
      assert offset + LINES_PER_PAGE < |lines| ==>
          lines[offset..][LINES_PER_PAGE..] == lines[offset + LINES_PER_PAGE..];
      pages := pages + [TextSheet(page)];
      offset := offset + LINES_PER_PAGE;
    }
  }

  function Texts(page: seq<Drawn>): seq<Line> {
    seq(|page|, i requires 0 <= i < |page| => page[i].text)
  }

  /** Everything drawn, page after page, top to bottom. */
  function AllTexts(pages: seq<Sheet>): seq<Line> {
    if pages == [] then []
    else (if pages[0].TextSheet? then Texts(pages[0].lines) else []) + AllTexts(pages[1..])
  }

  predicate WellSet(page: Sheet) {
    && page.TextSheet? && |page.lines| <= 58
    && forall i :: 0 <= i < |page.lines| ==>
         page.lines[i].x == 36 && page.lines[i].y == 756 - 12 * i && 72 <= page.lines[i].y
  }

  predicate Full(page: Sheet) { page.TextSheet? && |page.lines| == 58 }

  lemma DrawnLinesAreSet(lines: seq<Line>)
    requires |lines| <= LINES_PER_PAGE
    ensures Texts(DrawnLines(lines)) == lines
    ensures WellSet(TextSheet(DrawnLines(lines)))
  {
    assert Texts(DrawnLines(lines)) == lines;
  }

  lemma {:induction false} SheetsLoseNothing(lines: seq<Line>)
    ensures AllTexts(SheetsOf(lines)) == lines
    ensures |SheetsOf(lines)| == if lines == [] then 1 else (|lines| + 57) / 58
    ensures forall p :: 0 <= p < |SheetsOf(lines)| ==> WellSet(SheetsOf(lines)[p])
    ensures forall p :: 0 <= p < |SheetsOf(lines)| - 1 ==> Full(SheetsOf(lines)[p])
    decreases |lines|
  {
    if |lines| <= LINES_PER_PAGE {
      DrawnLinesAreSet(lines);
      assert [TextSheet(DrawnLines(lines))][1..] == [] && lines + [] == lines;
    } else {
      var rest := SheetsOf(lines[LINES_PER_PAGE..]);
      SheetsLoseNothing(lines[LINES_PER_PAGE..]);
      DrawnLinesAreSet(lines[..LINES_PER_PAGE]);
      assert ([TextSheet(DrawnLines(lines[..LINES_PER_PAGE]))] + rest)[1..] == rest;
      assert lines[..LINES_PER_PAGE] + lines[LINES_PER_PAGE..] == lines;
    }
  }

  // ---- one text file, end to end ----------------------------------------------

  datatype TextKind = Txt | Csv

  function Columns(kind: TextKind): nat { if kind == Csv then 105 else 95 }

  function TextSheets(text: Line, kind: TextKind): seq<Sheet> {
    SheetsOf(Wrapped(Split(Normalized(text)), Columns(kind)))
  }

  method RenderText(text: Line, kind: TextKind) returns (pages: seq<Sheet>)
    ensures pages == TextSheets(text, kind)
  {
    var lines := Wrap(Split(Normalized(text)), Columns(kind));
    pages := Paginate(lines);
  }

  /** The source lines read back from drawn lines and their cuts. */
  function Regrouped(lines: seq<Line>, cuts: seq<nat>): (source: seq<Line>)
    requires Cuts(cuts, |lines|)
    ensures |source| == |cuts| - 1
  {
    seq(|cuts| - 1, i requires 0 <= i < |cuts| - 1 =>
      assert cuts[i] < cuts[i + 1];
      assert i + 1 < |cuts| - 1 ==> cuts[i + 1] < cuts[|cuts| - 1];
      Flat(lines[cuts[i]..cuts[i + 1]]))
  }

  /** Rendering a text keeps it whole: the lines drawn on the pages, in reading order and regrouped at the
      source's line breaks, are the normalized text, and each fits the page in both directions. */
  lemma TextSurvivesRendering(text: Line, kind: TextKind) returns (cuts: seq<nat>)
    ensures var (drawn, columns) := (AllTexts(TextSheets(text, kind)), if kind.Csv? then 105 else 95);
            && Cuts(cuts, |drawn|) && |cuts| > 1 && Join(Regrouped(drawn, cuts)) == Normalized(text)
            && Narrow(drawn, columns)
            && forall i :: 0 <= i < |cuts| - 1 ==> Group(drawn, cuts, i, Regrouped(drawn, cuts)[i], columns)
    ensures forall p :: 0 <= p < |TextSheets(text, kind)| ==> WellSet(TextSheets(text, kind)[p])
  {
    var source := Split(Normalized(text));
    var drawn := Wrapped(source, Columns(kind));
    JoinUndoesSplit(Normalized(text));
    cuts := WrappedRejoins(source, Columns(kind));
    SheetsLoseNothing(drawn);
    RegroupedIsSource(drawn, cuts, source, Columns(kind));
  }

  lemma RegroupedIsSource(lines: seq<Line>, cuts: seq<nat>, source: seq<Line>, columns: nat)
    requires Rejoins(lines, cuts, source, columns)
    ensures Regrouped(lines, cuts) == source
  {
    forall i | 0 <= i < |source|
      ensures Regrouped(lines, cuts)[i] == source[i]
    {
      assert Group(lines, cuts, i, source[i], columns);
    }
  }

  // ---- one upload -------------------------------------------------------------

  const MAX_DOCUMENT_PAGES := 500

  /** A PDF: its size in bytes and, when it can be parsed, its pages. */
  datatype Pdf = Pdf(size: nat, pages: Option<seq<Sheet>>)

  /** What a file turns out to be.  An image that cannot be embedded (None) throws. */
  datatype Content =
    | PdfFile(pdf: Pdf)
    | Image(embedded: Option<Pdf>)
    | TextFile(text: Line, kind: TextKind)
    | Office(configured: bool, converted: Option<Pdf>)
    | Other

  datatype File = File(name: string, size: nat, content: Content)

  datatype UploadError =
    | SourceTooLarge | OfficeNotConfigured | NotConverted | Unsupported | RenditionTooLarge | Unreadable | TooManyPages
    | Thrown

  /** A storage limit and the size `save` gives a document with these pages. */
  datatype Config = Config(maxBytes: nat, saved: seq<Sheet> -> nat)

  datatype Upload = Upload(pdf: Pdf, sheets: seq<Sheet>)

  function Checked(pdf: Pdf, config: Config): Result<Upload, UploadError> {
    if pdf.size > config.maxBytes then Err(RenditionTooLarge)
    else if pdf.pages.None? || pdf.pages.value == [] then Err(Unreadable)
    else if |pdf.pages.value| > MAX_DOCUMENT_PAGES then Err(TooManyPages)
    else Ok(Upload(pdf, pdf.pages.value))
  }

  function Uploaded(file: File, config: Config): Result<Upload, UploadError> {
    if file.size > config.maxBytes then Err(SourceTooLarge)
    else match file.content
      case PdfFile(pdf) => Checked(pdf, config)
      case Image(None) => Err(Thrown)
      case Image(Some(pdf)) => Checked(pdf, config)
      case TextFile(text, kind) =>
        var pages := TextSheets(text, kind);
        Checked(Pdf(config.saved(pages), Some(pages)), config)
      case Office(configured, converted) =>
        if !configured then Err(OfficeNotConfigured)
        else if converted.None? then Err(NotConverted)
        else Checked(converted.value, config)
      case Other => Err(Unsupported)
  }

  /** A rendition small enough, readable, of 1 to 500 pages. */
  predicate Usable(pdf: Pdf, config: Config) {
    pdf.size <= config.maxBytes && pdf.pages.Some? && 0 < |pdf.pages.value| <= 500
  }

  method UploadAsPdf(file: File, config: Config) returns (result: Result<Upload, UploadError>)
    ensures result == Uploaded(file, config)
    ensures result.Ok? ==>
              && file.size <= config.maxBytes && result.value.pdf.size <= config.maxBytes
              && result.value.pdf.pages == Some(result.value.sheets) && 0 < |result.value.sheets| <= 500
    ensures result.Ok? <==>
              && file.size <= config.maxBytes
              && match file.content
                 case PdfFile(pdf) => Usable(pdf, config)
                 case Image(embedded) => embedded.Some? && Usable(embedded.value, config)
                 case TextFile(text, kind) =>
                   Usable(Pdf(config.saved(TextSheets(text, kind)), Some(TextSheets(text, kind))), config)
                 case Office(configured, converted) =>
                   configured && converted.Some? && Usable(converted.value, config)
                 case Other => false
  {
    if file.size > config.maxBytes {
      return Err(SourceTooLarge);
    }
    var pdf: Pdf;
    match file.content {
      case PdfFile(own) => pdf := own;
      case Image(None) => return Err(Thrown);
      case Image(Some(embedded)) => pdf := embedded;
      case TextFile(text, kind) =>
        var pages := RenderText(text, kind);
        pdf := Pdf(config.saved(pages), Some(pages));
      case Office(false, _) => return Err(OfficeNotConfigured);
      case Office(true, None) => return Err(NotConverted);
      case Office(true, Some(converted)) => pdf := converted;
      case Other => return Err(Unsupported);
    }
    result := Checked(pdf, config);
  }

  // ---- the ordered list of files ----------------------------------------------

  datatype Document = Document(filename: string, position: nat, pageCount: nat, pageStart: nat, sheets: seq<Sheet>)

  datatype Prepared = Prepared(documents: seq<Document>, merged: seq<Sheet>)

  datatype PrepareError =
    | CombinedSourceTooLarge
    | InFile(position: nat, error: UploadError)
    | CombinedTooManyPages
    | CombinedTooLarge

  function TotalSize(files: seq<File>): nat {
    if files == [] then 0 else TotalSize(files[..|files| - 1]) + files[|files| - 1].size
  }

  predicate Accepted(file: File, config: Config) { Uploaded(file, config).Ok? }

  /** The pages of the files in order. */
  function Pages(files: seq<File>, config: Config): seq<Sheet> {
    if files == [] then []
    else
      var last := Uploaded(files[|files| - 1], config);
      Pages(files[..|files| - 1], config) + (if last.Ok? then last.value.sheets else [])
  }

  /** Each document is its file, in order, and its page range is where its pages lie in the merged document. */
  predicate Describes(documents: seq<Document>, merged: seq<Sheet>, files: seq<File>, config: Config) {
    Match(documents, files, config) && forall i :: 0 <= i < |documents| ==> LiesIn(documents[i], merged)
  }

  predicate Match(documents: seq<Document>, files: seq<File>, config: Config) {
    |documents| == |files| && forall i :: 0 <= i < |files| ==> Holds(documents[i], i, files[i], config)
  }

  predicate Holds(d: Document, position: nat, file: File, config: Config) {
    && Accepted(file, config) && d.sheets == Uploaded(file, config).value.sheets
    && d.position == position && d.pageCount == |d.sheets| > 0
    && d.filename == if |file.name| <= 255 then file.name else file.name[..255]
  }

  predicate LiesIn(d: Document, merged: seq<Sheet>) {
    d.pageStart + d.pageCount <= |merged| && merged[d.pageStart..d.pageStart + d.pageCount] == d.sheets
  }

  /** The ranges follow one another from page 0 without gap or overlap. */
  predicate Partitions(documents: seq<Document>, pages: nat) {
    && (if documents == [] then pages == 0 else documents[0].pageStart == 0)
    && forall i :: 0 <= i < |documents| ==> EndsAtNext(documents, pages, i)
  }

  predicate EndsAtNext(documents: seq<Document>, pages: nat, i: nat)
    requires i < |documents|
  {
    documents[i].pageStart + documents[i].pageCount
      == if i + 1 < |documents| then documents[i + 1].pageStart else pages
  }

  predicate AllAccepted(files: seq<File>, config: Config) {
    forall i :: 0 <= i < |files| ==> Accepted(files[i], config)
  }

  /** The loop got through the first n files: each was accepted and no running total passed the limit. */
  predicate Reached(files: seq<File>, n: nat, config: Config)
    requires n <= |files|
  {
    AllAccepted(files[..n], config) && |Pages(files[..n], config)| <= MAX_DOCUMENT_PAGES
  }

  /** Which answer the files call for. */
  predicate Answer(files: seq<File>, config: Config, result: Result<Prepared, PrepareError>) {
    var fits := TotalSize(files) <= config.maxBytes;
    match result
    case Ok(Prepared(documents, merged)) =>
      && fits && merged == Pages(files, config) && |merged| <= MAX_DOCUMENT_PAGES
      && config.saved(merged) <= config.maxBytes
      && Describes(documents, merged, files, config) && Partitions(documents, |merged|)
    case Err(CombinedSourceTooLarge) => !fits
    case Err(InFile(i, error)) =>
      fits && i < |files| && Reached(files, i, config) && Uploaded(files[i], config) == Err(error)
    case Err(CombinedTooManyPages) =>
      fits && exists i :: 0 <= i < |files| && Reached(files, i, config) && TooMany(files, i, config)
    case Err(CombinedTooLarge) =>
      fits && Reached(files, |files|, config) && config.saved(Pages(files, config)) > config.maxBytes
  }

  predicate TooMany(files: seq<File>, i: nat, config: Config)
    requires i < |files|
  {
    Accepted(files[i], config) && |Pages(files[..i + 1], config)| > MAX_DOCUMENT_PAGES
  }

  method SumSizes(files: seq<File>) returns (sum: nat)
    ensures sum == TotalSize(files)
  {
    sum := 0;
    for i := 0 to |files|
      invariant sum == TotalSize(files[..i])
    {
      assert files[..i + 1][..i] == files[..i];
      sum := sum + files[i].size;
    }
    assert files[..|files|] == files;
  }

  method AddPages(merged: seq<Sheet>, pages: seq<Sheet>) returns (all: seq<Sheet>)
    ensures all == merged + pages
  {
    all := merged;
    for i := 0 to |pages|
      invariant all == merged + pages[..i]
    {
      all := all + [pages[i]];
    }
    assert pages[..|pages|] == pages;
  }

  /** Where the loop stands after the first n files. */
  predicate Progress(files: seq<File>, n: nat, config: Config, documents: seq<Document>, merged: seq<Sheet>) {
    && n <= |files| && AllAccepted(files[..n], config) && merged == Pages(files[..n], config)
    && Describes(documents, merged, files[..n], config) && Partitions(documents, |merged|)
  }

  /** Both routes that prepare documents refuse an empty list first. */
  method PrepareDocuments(files: seq<File>, config: Config) returns (result: Result<Prepared, PrepareError>)
    requires files != []
    ensures Answer(files, config, result)
  {
    var sourceBytes := SumSizes(files);
    if sourceBytes > config.maxBytes {
      return Err(CombinedSourceTooLarge);
    }
    var documents: seq<Document> := [];
    var merged: seq<Sheet> := [];
    var pageStart := 0;
    for position := 0 to |files|
      invariant pageStart == |merged| <= MAX_DOCUMENT_PAGES
      invariant Progress(files, position, config, documents, merged)
    {
      var file := files[position];
      var normalized := UploadAsPdf(file, config);
      if normalized.Err? {
        return Err(InFile(position, normalized.error));
      }
      var sheets := normalized.value.sheets;
      ghost var before := merged;
      merged := AddPages(merged, sheets);
      var name := if |file.name| <= 255 then file.name else file.name[..255];
      var document := Document(name, position, |sheets|, pageStart, sheets);
      ProgressOneMore(files, position, config, documents, before, document);
      documents := documents + [document];
      pageStart := pageStart + |sheets|;
      if pageStart > MAX_DOCUMENT_PAGES {
        assert TooMany(files, position, config);
        return Err(CombinedTooManyPages);
      }
    }
    assert files[..|files|] == files;
    if config.saved(merged) > config.maxBytes {
      return Err(CombinedTooLarge);
    }
    result := Ok(Prepared(documents, merged));
  }

  lemma ProgressOneMore(files: seq<File>, n: nat, config: Config, documents: seq<Document>, merged: seq<Sheet>,
                        document: Document)
    requires Progress(files, n, config, documents, merged) && n < |files|
    requires Holds(document, n, files[n], config) && document.pageStart == |merged|
    ensures Progress(files, n + 1, config, documents + [document], merged + document.sheets)
  {
    DescribesOneMore(documents, merged, files[..n], config, document, files[n]);
    assert files[..n] + [files[n]] == files[..n + 1] && files[..n + 1][..n] == files[..n];
  }

  lemma DescribesOneMore(documents: seq<Document>, merged: seq<Sheet>, files: seq<File>, config: Config,
                         document: Document, file: File)
    requires Describes(documents, merged, files, config) && Partitions(documents, |merged|)
    requires Holds(document, |files|, file, config) && document.pageStart == |merged|
    ensures Describes(documents + [document], merged + document.sheets, files + [file], config)
    ensures Partitions(documents + [document], |merged + document.sheets|)
  {
    var all, pages := documents + [document], merged + document.sheets;
    forall i | 0 <= i < |all|
      ensures EndsAtNext(all, |pages|, i)
    {
      if i < |documents| {
        assert EndsAtNext(documents, |merged|, i);
      }
    }
    forall i | 0 <= i < |all|
      ensures Holds(all[i], i, (files + [file])[i], config) && LiesIn(all[i], pages)
    {
      if i < |documents| {
        assert LiesIn(documents[i], merged);
        assert pages[all[i].pageStart..all[i].pageStart + all[i].pageCount]
            == merged[all[i].pageStart..all[i].pageStart + all[i].pageCount];
      }
    }
  }

  /** A list is accepted exactly when it fits, every file is accepted, the pages together are at most 500 and
      the merged file fits. */
  lemma AcceptedIff(files: seq<File>, config: Config, result: Result<Prepared, PrepareError>)
    requires files != [] && Answer(files, config, result)
    ensures result.Ok? <==>
              && TotalSize(files) <= config.maxBytes && AllAccepted(files, config)
              && |Pages(files, config)| <= 500 && config.saved(Pages(files, config)) <= config.maxBytes
  {
    assert files[..|files|] == files;
    match result
    case Ok(prepared) =>
    case Err(CombinedTooManyPages) =>
      var i :| 0 <= i < |files| && Reached(files, i, config) && TooMany(files, i, config);
      PagesGrow(files, i + 1, config);
    case Err(InFile(i, error)) =>
      assert !Accepted(files[i], config);
    case Err(CombinedSourceTooLarge) =>
    case Err(CombinedTooLarge) =>
  }

  /** Sizes add up and pages line up over any way to divide the list. */
  lemma {:induction false} ListsAddUp(a: seq<File>, b: seq<File>, config: Config)
    ensures TotalSize(a + b) == TotalSize(a) + TotalSize(b)
    ensures Pages(a + b, config) == Pages(a, config) + Pages(b, config)
    ensures |b| == 1 ==> TotalSize(b) == b[0].size
    ensures |b| == 1 && Uploaded(b[0], config).Ok? ==> Pages(b, config) == Uploaded(b[0], config).value.sheets
  {
    if b == [] {
      assert a + b == a;
    } else {
      var n := |b| - 1;
      ListsAddUp(a, b[..n], config);
      assert (a + b)[..|a + b| - 1] == a + b[..n];
      assert |b| == 1 ==> b[..n] == [];
    }
  }

  lemma {:induction false} PagesGrow(files: seq<File>, n: nat, config: Config)
    requires n <= |files|
    ensures |Pages(files[..n], config)| <= |Pages(files, config)|
    decreases |files|
  {
    if n < |files| {
      PagesGrow(files[..|files| - 1], n, config);
      assert files[..|files| - 1][..n] == files[..n];
    } else {
      assert files[..n] == files;
    }
  }

  /** The files determine the answer, the error and the file it names included. */
  lemma AnswerIsUnique(files: seq<File>, config: Config, a: Result<Prepared, PrepareError>,
                       b: Result<Prepared, PrepareError>)
    requires files != [] && Answer(files, config, a) && Answer(files, config, b)
    ensures a == b
  {
    AcceptedIff(files, config, a);
    AcceptedIff(files, config, b);
    if a.Ok? {
      forall i | 0 <= i < |files|
        ensures a.value.documents[i] == b.value.documents[i]
      {
        RangesAreDetermined(files, config, |a.value.merged|, a.value.documents, b.value.documents, i);
      }
      assert a.value.documents == b.value.documents;
    } else {
      ErrorIsUnique(files, config, a.error, b.error);
    }
  }

  /** Where an error stops the loop; past the last file for the final check. */
  predicate StopsAt(files: seq<File>, config: Config, error: PrepareError, i: nat) {
    match error
    case CombinedSourceTooLarge => false
    case InFile(k, e) => i == k && i < |files| && Reached(files, i, config) && Uploaded(files[i], config) == Err(e)
    case CombinedTooManyPages => i < |files| && Reached(files, i, config) && TooMany(files, i, config)
    case CombinedTooLarge => i == |files| && Reached(files, i, config)
  }

  lemma StopPoint(files: seq<File>, config: Config, error: PrepareError) returns (i: nat)
    requires Answer(files, config, Err(error)) && !error.CombinedSourceTooLarge?
    ensures i <= |files| && StopsAt(files, config, error, i)
  {
    match error
    case InFile(k, _) => i := k;
    case CombinedTooManyPages =>
      i :| 0 <= i < |files| && Reached(files, i, config) && TooMany(files, i, config);
    case CombinedTooLarge => i := |files|;
  }

  /** What stops the loop at i keeps it from reaching any j after i. */
  lemma StopsNoLater(files: seq<File>, config: Config, a: PrepareError, b: PrepareError, i: nat, j: nat)
    requires i <= |files| && j <= |files| && StopsAt(files, config, a, i) && StopsAt(files, config, b, j)
    ensures j <= i
  {
    if i < j {
      assert files[..j][i] == files[i];
      assert files[..j][..i + 1] == files[..i + 1];
      PagesGrow(files[..j], i + 1, config);
      assert false;
    }
  }

  lemma ErrorIsUnique(files: seq<File>, config: Config, a: PrepareError, b: PrepareError)
    requires Answer(files, config, Err(a)) && Answer(files, config, Err(b))
    ensures a == b
  {
    if !a.CombinedSourceTooLarge? && !b.CombinedSourceTooLarge? {
      var i := StopPoint(files, config, a);
      var j := StopPoint(files, config, b);
      StopsNoLater(files, config, a, b, i, j);
      StopsNoLater(files, config, b, a, j, i);
    }
  }

  lemma SameDocument(file: File, config: Config, a: Document, b: Document, position: nat)
    requires Holds(a, position, file, config) && Holds(b, position, file, config)
    ensures a.pageStart == b.pageStart <==> a == b
  {
  }

  lemma {:induction false} RangesAreDetermined(files: seq<File>, config: Config, pages: nat, a: seq<Document>,
                                               b: seq<Document>, i: nat)
    requires Match(a, files, config) && Partitions(a, pages) && Match(b, files, config) && Partitions(b, pages)
    requires i < |files|
    ensures a[i] == b[i]
  {
    if i > 0 {
      RangesAreDetermined(files, config, pages, a, b, i - 1);
      FollowsOn(a, pages, i);
      FollowsOn(b, pages, i);
    }
    SameDocument(files[i], config, a[i], b[i], i);
  }

  lemma FollowsOn(documents: seq<Document>, pages: nat, i: nat)
    requires Partitions(documents, pages) && 0 < i < |documents|
    ensures documents[i].pageStart == documents[i - 1].pageStart + documents[i - 1].pageCount
  {
    assert EndsAtNext(documents, pages, i - 1);
  }

  /** Every page of the merged document belongs to exactly one file's range. */
  lemma EachPageHasOneFile(documents: seq<Document>, pages: nat, page: nat) returns (owner: nat)
    requires Partitions(documents, pages) && page < pages
    requires forall i :: 0 <= i < |documents| ==> documents[i].pageCount > 0
    ensures owner < |documents|
    ensures forall i :: 0 <= i < |documents| ==>
              (documents[i].pageStart <= page < documents[i].pageStart + documents[i].pageCount <==> i == owner)
  {
    owner := 0;
    while documents[owner].pageStart + documents[owner].pageCount <= page
      invariant owner < |documents| && documents[owner].pageStart <= page
      decreases |documents| - owner
    {
      assert EndsAtNext(documents, pages, owner);
      owner := owner + 1;
    }
    forall i | 0 <= i < |documents|
      ensures documents[i].pageStart <= page < documents[i].pageStart + documents[i].pageCount <==> i == owner
    {
      if i != owner {
        OthersLieElsewhere(documents, pages, page, owner, i);
      }
    }
  }

  lemma OthersLieElsewhere(documents: seq<Document>, pages: nat, page: nat, owner: nat, i: nat)
    requires Partitions(documents, pages) && owner < |documents| && i < |documents| && i != owner
    requires documents[owner].pageStart <= page < documents[owner].pageStart + documents[owner].pageCount
    ensures !(documents[i].pageStart <= page < documents[i].pageStart + documents[i].pageCount)
  {
    if i < owner {
      StartsIncrease(documents, pages, i + 1, owner);
      assert EndsAtNext(documents, pages, i);
    } else {
      StartsIncrease(documents, pages, owner + 1, i);
      assert EndsAtNext(documents, pages, owner);
    }
  }

  lemma {:induction false} StartsIncrease(documents: seq<Document>, pages: nat, i: nat, j: nat)
    requires Partitions(documents, pages) && i <= j < |documents|
    ensures documents[i].pageStart <= documents[j].pageStart
    decreases j - i
  {
    if i < j {
      assert EndsAtNext(documents, pages, i);
      StartsIncrease(documents, pages, i + 1, j);
    }
  }
}
