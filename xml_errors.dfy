/** `format_lxml_syntax_error`: the report of an XML syntax error, showing
    the lines around the error with a line-number gutter and a caret under
    the offending character. Styling is the identity, and the document comes
    already split into lines. The function is modelled as written and with
    the line window corrected (`FormatLxmlSyntaxErrorCorrected`), which is
    the one the window lemmas are about. */
module XmlErrors {
  import opened Wrappers
  import opened Strings

  /** `lines[err_line]` or `error_line[err_offset]` is out of range. */
  datatype FormatError = IndexError

  const MarginWidth: nat := 2

  /** A slice bound as Python normalises it: negative counts from the end,
      and the result is clamped to the sequence. */
  function SliceBound(i: int, len: nat): (b: nat)
    ensures b <= len
    ensures 0 <= i <= len ==> b == i
    ensures i < 0 && len + i >= 0 ==> b == len + i
  {
    if i < 0 then (if len + i < 0 then 0 else len + i)
    else if i > len then len
    else i
  }

  /** The positions `s[start:stop]` covers in a sequence of length `len`,
      with `None` for an omitted stop: `lo..hi`, empty when the bounds cross. */
  function SliceRange(len: nat, start: int, stop: Option<int>): (r: (nat, nat))
    ensures r.0 <= r.1 <= len
  {
    var lo := SliceBound(start, len);
    var hi := match stop case None => len case Some(e) => SliceBound(e, len);
    if lo <= hi then (lo, hi) else (lo, lo)
  }

  /** `s[i]`'s position, negative indices counting from the end; `None` is an
      `IndexError`. */
  function PyIndex(len: nat, i: int): (r: Option<nat>)
    ensures r.Some? ==> r.value < len
    ensures 0 <= i < len ==> r == Some(i)
  {
    if 0 <= i < len then Some(i)
    else if i < 0 && len + i >= 0 then Some(len + i)
    else None
  }

  /** A line of the report before it is turned into text. */
  datatype ReportLine =
      /** The first line, naming where the document comes from. */
    | Title(context: string)
    | Plain(text: string)
    | Numbered(n: int, width: nat, text: string)
    | CaretLine(indent: int)

  /** `'%Ni' % n` with `N` the gutter width, the margin, then the text. */
  function ShowNumbered(n: int, width: nat, text: string): string
  {
    PadLeft(IntToString(n), width) + Spaces(MarginWidth) + text
  }

  /** `indent` spaces, none when it is negative (as `' ' * n` gives), then
      `^`. */
  function ShowCaret(indent: int): string
  {
    Spaces(if indent < 0 then 0 else indent) + "^"
  }

  function Show(l: ReportLine): string
  {
    match l
    case Title(context) => "XML syntax error in " + context + ":"
    case Plain(t) => t
    case Numbered(n, width, t) => ShowNumbered(n, width, t)
    case CaretLine(indent) => ShowCaret(indent)
  }

  function ShowAll(report: seq<ReportLine>): seq<string>
  {
    seq(|report|, i requires 0 <= i < |report| => Show(report[i]))
  }

  function Header(context: string, message: string): seq<ReportLine>
  {
    [Title(context), Plain(""), Plain(message), Plain("")]
  }

  /** Each line prefixed by its number, counting from `first`, in a gutter
      of `width` characters. */
  function NumberLines(xmlLines: seq<string>, first: int, width: nat): (r: seq<ReportLine>)
    ensures |r| == |xmlLines|
  {
    seq(|xmlLines|, i requires 0 <= i < |xmlLines| => Numbered(first + i, width, xmlLines[i]))
  }

  /** The error line as the report shows it: the part before the offending
      character, that character, the part after it. */
  function Marked(errorLine: string, errOffset: int, o: nat): string
    requires o < |errorLine|
  {
    var head := SliceRange(|errorLine|, 0, Some(errOffset));
    var tail := SliceRange(|errorLine|, errOffset + 1, None);
    errorLine[head.0..head.1] + [errorLine[o]] + errorLine[tail.0..tail.1]
  }

  /** The report once the shown lines `xmlLines` are known: the header,
      every shown line numbered from `startLine + 1` in a gutter of
      `gutterWidth` characters, and the caret line inserted after the error
      line, the `errorIndex`-th shown line. */
  function Report(xmlLines: seq<string>, errorIndex: nat, startLine: int, errOffset: int, gutterWidth: nat,
                  context: string, message: string): seq<ReportLine>
    requires errorIndex <= |xmlLines|
  {
    var numbered := NumberLines(xmlLines, startLine + 1, gutterWidth);
    Header(context, message) + numbered[..errorIndex] + [CaretLine(errOffset + MarginWidth + gutterWidth)]
    + numbered[errorIndex..]
  }

  /** `lines[err]` and `lines[err][off]` raise no `IndexError`: both
      positions exist, negative ones counting from the end. */
  predicate InDocument(lines: seq<string>, err: int, off: int)
  {
    PyIndex(|lines|, err).Some? && PyIndex(|lines[PyIndex(|lines|, err).value]|, off).Some?
  }

  /** The report for a window `lines[startLine:endLine]` around the error:
      an `IndexError` iff the error position is outside the document, and
      otherwise the header, at least the error line, and the caret line. */
  function Render(lines: seq<string>, errLine: int, errOffset: int, startLine: int, endLine: Option<int>,
                  context: string, message: string): (r: Result<seq<ReportLine>, FormatError>)
    ensures r.Ok? <==> InDocument(lines, errLine, errOffset)
    ensures r.Ok? ==> |r.value| >= 6 && r.value[..4] == Header(context, message)
  {
    var b := SliceRange(|lines|, startLine, Some(errLine));
    var before := lines[b.0..b.1];
    match PyIndex(|lines|, errLine)
    case None => Err(IndexError)
    case Some(e) =>
      var errorLine := lines[e];
      match PyIndex(|errorLine|, errOffset)
      case None => Err(IndexError)
      case Some(o) =>
        var a := SliceRange(|lines|, errLine + 1, endLine);
        var xmlLines := before + [Marked(errorLine, errOffset, o)] + lines[a.0..a.1];
        var gutterWidth := IntWidth(|xmlLines| + startLine + 1);
        Ok(Report(xmlLines, |before| + 1, startLine, errOffset, gutterWidth, context, message))
  }

  /** `format_lxml_syntax_error` as written: the window starts
      `context_lines` before the error line even when that is before the
      first line, and stops `context_lines` after it, exclusive. */
  function FormatLinesAsWritten(lines: seq<string>, lineno: int, offset: int, contextLines: nat, fullXml: bool,
                                context: string, message: string): (r: Result<seq<ReportLine>, FormatError>)
    ensures r.Ok? <==> InDocument(lines, lineno - 1, offset - 1)
    ensures r.Ok? ==> |r.value| >= 6 && r.value[..4] == Header(context, message)
  {
    var errLine := lineno - 1;
    var errOffset := offset - 1;
    if fullXml then Render(lines, errLine, errOffset, 0, None, context, message)
    else Render(lines, errLine, errOffset, errLine - contextLines, Some(errLine + contextLines), context, message)
  }

  /** The window corrected: it starts no earlier than the first line, and
      shows as many lines after the error as before it. */
  function FormatLines(lines: seq<string>, lineno: int, offset: int, contextLines: nat, fullXml: bool,
                       context: string, message: string): (r: Result<seq<ReportLine>, FormatError>)
    ensures r.Ok? <==> InDocument(lines, lineno - 1, offset - 1)
    ensures r.Ok? ==> |r.value| >= 6 && r.value[..4] == Header(context, message)
  {
    var errLine := lineno - 1;
    var errOffset := offset - 1;
    if fullXml then Render(lines, errLine, errOffset, 0, None, context, message)
    else
      var startLine := if errLine - contextLines < 0 then 0 else errLine - contextLines;
      Render(lines, errLine, errOffset, startLine, Some(errLine + contextLines + 1), context, message)
  }

  /** The text the report starts with: the title line, a blank line, the
      message and another blank line. */
  function HeaderText(context: string, message: string): string
  {
    "XML syntax error in " + context + ":\n\n" + message + "\n\n"
  }

  /** A report opening with the header, joined by newlines, starts with the
      header's text. */
  lemma JoinedHeader(report: seq<ReportLine>, context: string, message: string)
    requires |report| >= 5 && report[..4] == Header(context, message)
    ensures var h := HeaderText(context, message);
      var t := Join(ShowAll(report), "\n");
      |h| <= |t| && t[..|h|] == h
  {
    var parts := ShowAll(report);
    assert parts[0] == "XML syntax error in " + context + ":" by { assert report[0] == Title(context); }
    assert parts[1] == "" && parts[3] == "" by { assert report[1] == Plain("") && report[3] == Plain(""); }
    assert parts[2] == message by { assert report[2] == Plain(message); }
    var p1, p2, p3 := parts[1..], parts[2..], parts[3..];
    assert p1[1..] == p2 && p2[1..] == p3 && p3[1..] == parts[4..];
    var rest := Join(parts[4..], "\n");
    calc {
      Join(parts, "\n");
      parts[0] + "\n" + Join(p1, "\n");
      parts[0] + "\n" + ("" + "\n" + Join(p2, "\n"));
      parts[0] + "\n" + ("" + "\n" + (message + "\n" + Join(p3, "\n")));
      parts[0] + "\n" + ("" + "\n" + (message + "\n" + ("" + "\n" + rest)));
      HeaderText(context, message) + rest;
    }
  }

  /** `format_lxml_syntax_error` as written, as one string: an `IndexError`
      iff the error position is outside the document, and otherwise text
      starting with the header. */
  function FormatLxmlSyntaxError(lines: seq<string>, lineno: int, offset: int, contextLines: nat, fullXml: bool,
                                 context: string, message: string): (r: Result<string, FormatError>)
    ensures r.Err? <==> !InDocument(lines, lineno - 1, offset - 1)
    ensures r.Ok? ==>
      (|HeaderText(context, message)| <= |r.value| && r.value[..|HeaderText(context, message)|] == HeaderText(context, message))
  {
    match FormatLinesAsWritten(lines, lineno, offset, contextLines, fullXml, context, message)
    case Ok(out) =>
      JoinedHeader(out, context, message);
      Ok(Join(ShowAll(out), "\n"))
    case Err(e) => Err(e)
  }

  /** The same with the corrected window. */
  function FormatLxmlSyntaxErrorCorrected(lines: seq<string>, lineno: int, offset: int, contextLines: nat, fullXml: bool,
                                          context: string, message: string): (r: Result<string, FormatError>)
    ensures r.Err? <==> !InDocument(lines, lineno - 1, offset - 1)
    ensures r.Ok? ==>
      (|HeaderText(context, message)| <= |r.value| && r.value[..|HeaderText(context, message)|] == HeaderText(context, message))
  {
    match FormatLines(lines, lineno, offset, contextLines, fullXml, context, message)
    case Ok(out) =>
      JoinedHeader(out, context, message);
      Ok(Join(ShowAll(out), "\n"))
    case Err(e) => Err(e)
  }

  /** Cutting a line at a character and putting it back together gives the
      line. */
  lemma MarkedLineIsLine(l: string, o: nat)
    requires o < |l|
    ensures Marked(l, o, o) == l
  {
    assert l[..o] + [l[o]] + l[o + 1..] == l;
  }

  /** For an error position inside the document (non-negative indices),
      the report shows the slices before and after the error line around
      the line itself, in a gutter as wide as the number one past the last
      shown line counted from `startLine`. */
  lemma RenderOk(lines: seq<string>, err: nat, off: nat, startLine: int, endLine: Option<int>,
                 context: string, message: string)
    requires err < |lines| && off < |lines[err]|
    ensures var b := SliceRange(|lines|, startLine, Some(err));
      var a := SliceRange(|lines|, err + 1, endLine);
      var xmlLines := lines[b.0..b.1] + [lines[err]] + lines[a.0..a.1];
      Render(lines, err, off, startLine, endLine, context, message)
        == Ok(Report(xmlLines, b.1 - b.0 + 1, startLine, off, IntWidth(|xmlLines| + startLine + 1), context, message))
  {
    assert PyIndex(|lines|, err) == Some(err);
    assert PyIndex(|lines[err]|, off) == Some(off);
    MarkedLineIsLine(lines[err], off);
  }

  /** The report for an error inside the document and a window
      `lines[s:e]` around it that lies inside the document. */
  lemma RenderWindow(lines: seq<string>, err: nat, off: nat, s: nat, endLine: Option<int>, e: nat,
                     context: string, message: string)
    requires s <= err < e <= |lines| && off < |lines[err]|
    requires SliceRange(|lines|, err + 1, endLine) == (err + 1, e)
    ensures Render(lines, err, off, s, endLine, context, message)
      == Ok(Report(lines[s..e], err - s + 1, s, off, DigitCount(e + 1), context, message))
  {
    assert SliceRange(|lines|, s, Some(err)) == (s, err);
    var before := lines[s..err];
    assert PyIndex(|lines|, err) == Some(err);
    assert PyIndex(|lines[err]|, off) == Some(off);
    MarkedLineIsLine(lines[err], off);
    assert before + [Marked(lines[err], off, off)] + lines[err + 1..e] == lines[s..e];
  }

  /** The report has the header, one line per shown line and the caret line,
      which comes right after the error line. */
  lemma ReportShape(xmlLines: seq<string>, errorIndex: nat, startLine: int, errOffset: int, gw: nat,
                    context: string, message: string)
    requires errorIndex <= |xmlLines|
    ensures var r := Report(xmlLines, errorIndex, startLine, errOffset, gw, context, message);
      |r| == 4 + |xmlLines| + 1 && r[..4] == Header(context, message)
      && r[4 + errorIndex] == CaretLine(errOffset + MarginWidth + gw)
  {
  }

  /** Shown line `i` is numbered `startLine + 1 + i`; it sits above the caret
      line up to the error line and below it after. */
  lemma ReportNumbering(xmlLines: seq<string>, errorIndex: nat, startLine: int, errOffset: int, gw: nat,
                        context: string, message: string, i: nat)
    requires errorIndex <= |xmlLines| && i < |xmlLines|
    ensures var r := Report(xmlLines, errorIndex, startLine, errOffset, gw, context, message);
      var line := Numbered(startLine + 1 + i, gw, xmlLines[i]);
      |r| == 4 + |xmlLines| + 1
      && (i < errorIndex ==> r[4 + i] == line)
      && (errorIndex <= i ==> r[5 + i] == line)
  {
  }

  /** The first line shown by the corrected window. */
  function WindowStart(errLine: nat, contextLines: nat, fullXml: bool): nat
  {
    if fullXml || errLine < contextLines then 0 else errLine - contextLines
  }

  /** One past the last line shown by the corrected window. */
  function WindowEnd(n: nat, errLine: nat, contextLines: nat, fullXml: bool): nat
  {
    if fullXml || n < errLine + contextLines + 1 then n else errLine + contextLines + 1
  }

  /** The gutter holds the number one past the last line shown. */
  function GutterWidth(n: nat, errLine: nat, contextLines: nat, fullXml: bool): nat
  {
    DigitCount(WindowEnd(n, errLine, contextLines, fullXml) + 1)
  }

  /** Line `k` (1-based) of the document as the report numbers it. */
  function NumberedLine(lines: seq<string>, k: nat, width: nat): ReportLine
    requires 1 <= k <= |lines|
  {
    Numbered(k, width, lines[k - 1])
  }

  /** The window of the corrected report for an error inside the document,
      as `Render` receives it. */
  lemma FormatLinesRender(lines: seq<string>, lineno: int, offset: int, contextLines: nat,
                          fullXml: bool, context: string, message: string)
    requires 1 <= lineno <= |lines|
    ensures var err := lineno - 1;
      FormatLines(lines, lineno, offset, contextLines, fullXml, context, message)
      == Render(lines, err, offset - 1, WindowStart(err, contextLines, fullXml),
                if fullXml then None else Some(err + contextLines + 1), context, message)
  {
  }

  /** The lines after the error line that the corrected window shows. */
  lemma AfterContext(lines: seq<string>, err: nat, contextLines: nat, fullXml: bool)
    requires err < |lines|
    ensures var e := WindowEnd(|lines|, err, contextLines, fullXml);
      err < e <= |lines|
      && SliceRange(|lines|, err + 1, if fullXml then None else Some(err + contextLines + 1)) == (err + 1, e)
  {
  }

  /** With `full_xml` the window is the whole document; otherwise it holds
      `context_lines` lines before and after the error line, as far as the
      document goes. */
  lemma WindowBounds(n: nat, err: nat, contextLines: nat, fullXml: bool)
    requires err < n
    ensures var s := WindowStart(err, contextLines, fullXml);
      var e := WindowEnd(n, err, contextLines, fullXml);
      s <= err < e <= n
      && (!fullXml ==> err - s == (if err < contextLines then err else contextLines))
      && (!fullXml ==> e - err - 1 == (if n - err - 1 < contextLines then n - err - 1 else contextLines))
      && (fullXml ==> s == 0 && e == n)
  {
  }

  /** The corrected report for an error inside the document is the report
      of the window `lines[WindowStart:WindowEnd]`, numbered in a gutter as
      wide as the number one past its last line. */
  lemma FormatLinesWindow(lines: seq<string>, lineno: int, offset: int, contextLines: nat,
                          fullXml: bool, context: string, message: string)
    requires 1 <= lineno <= |lines| && 1 <= offset <= |lines[lineno - 1]|
    ensures var err := lineno - 1;
      var s := WindowStart(err, contextLines, fullXml);
      var e := WindowEnd(|lines|, err, contextLines, fullXml);
      s <= err < e <= |lines|
      && FormatLines(lines, lineno, offset, contextLines, fullXml, context, message)
        == Ok(Report(lines[s..e], lineno - s, s, offset - 1, GutterWidth(|lines|, err, contextLines, fullXml),
                     context, message))
  {
    var err := lineno - 1;
    var s := WindowStart(err, contextLines, fullXml);
    var e := WindowEnd(|lines|, err, contextLines, fullXml);
    var endLine := if fullXml then None else Some(err + contextLines + 1);
    FormatLinesRender(lines, lineno, offset, contextLines, fullXml, context, message);
    AfterContext(lines, err, contextLines, fullXml);
    RenderWindow(lines, err, offset - 1, s, endLine, e, context, message);
  }

  /** The report of a window `lines[s:e]` holding the error line `lineno`
      (1-based): the header; then each shown line `k` numbered `k`; the caret
      line right after the error line. */
  lemma WindowLayout(lines: seq<string>, lineno: nat, off: int, s: nat, e: nat, gw: nat,
                     context: string, message: string)
    requires s < lineno <= e <= |lines|
    ensures var r := Report(lines[s..e], lineno - s, s, off, gw, context, message);
      |r| == 4 + (e - s) + 1
      && r[..4] == Header(context, message)
      && (forall k :: s < k <= lineno ==> r[4 + (k - s - 1)] == NumberedLine(lines, k, gw))
      && r[4 + (lineno - s)] == CaretLine(off + MarginWidth + gw)
      && (forall k :: lineno < k <= e ==> r[4 + (k - s)] == NumberedLine(lines, k, gw))
  {
    var xmlLines := lines[s..e];
    ReportShape(xmlLines, lineno - s, s, off, gw, context, message);
    forall k | s < k <= e
      ensures var r := Report(xmlLines, lineno - s, s, off, gw, context, message);
        (k <= lineno ==> r[4 + (k - s - 1)] == NumberedLine(lines, k, gw))
        && (lineno < k ==> r[4 + (k - s)] == NumberedLine(lines, k, gw))
    {
      ReportNumbering(xmlLines, lineno - s, s, off, gw, context, message, k - s - 1);
      assert xmlLines[k - s - 1] == lines[k - 1];
    }
  }

  /** A numbered line shows the number right-justified in the gutter, the
      margin, then the text. */
  lemma NumberedColumns(k: nat, width: nat, text: string, j: nat)
    requires DigitCount(k) <= width
    ensures var t := ShowNumbered(k, width, text);
      |t| == width + MarginWidth + |text| && (j < |text| ==> t[width + MarginWidth + j] == text[j])
  {
    var t := ShowNumbered(k, width, text);
    DigitCountIsLength(k);
    PadLeftShape(NatToString(k), width);
    var g := PadLeft(NatToString(k), width) + Spaces(MarginWidth);
    assert |g| == width + MarginWidth;
    assert t == g + text;
  }

  /** The caret line has the caret after `indent` spaces. */
  lemma CaretColumn(indent: nat)
    ensures var c := ShowCaret(indent); |c| == indent + 1 && c[indent] == '^'
  {
  }

  /** In a gutter as wide as the number one past the last shown line,
      every numbered line of the window `lines[s:e]` has the gutter's width,
      so the shown lines are aligned. */
  lemma GutterAligned(lines: seq<string>, s: nat, e: nat)
    requires s <= e <= |lines|
    ensures var gw := DigitCount(e + 1); var w := lines[s..e];
      forall i :: 0 <= i < |w| ==> |ShowNumbered(s + 1 + i, gw, w[i])| == gw + MarginWidth + |w[i]|
  {
    var gw := DigitCount(e + 1);
    var w := lines[s..e];
    forall i | 0 <= i < |w|
      ensures |ShowNumbered(s + 1 + i, gw, w[i])| == gw + MarginWidth + |w[i]|
    {
      DigitCountMonotone(s + 1 + i, e + 1);
      NumberedColumns(s + 1 + i, gw, w[i], 0);
    }
  }

  /** In a window `lines[s:e]` whose gutter is as wide as the number one
      past its last line, the caret line that follows the error line (see
      `WindowLayout`) has its caret in the column of the offending
      character of the error line. */
  lemma CaretUnderError(lines: seq<string>, lineno: nat, offset: nat, s: nat, e: nat)
    requires s < lineno <= e <= |lines| && 1 <= offset <= |lines[lineno - 1]|
    ensures var gw := DigitCount(e + 1);
      var column := gw + MarginWidth + (offset - 1);
      var errorLine := ShowNumbered(lineno, gw, lines[lineno - 1]);
      var caretLine := ShowCaret(offset - 1 + MarginWidth + gw);
      |errorLine| > column && errorLine[column] == lines[lineno - 1][offset - 1]
      && |caretLine| == column + 1 && caretLine[column] == '^'
  {
    var gw := DigitCount(e + 1);
    DigitCountMonotone(lineno, e + 1);
    NumberedColumns(lineno, gw, lines[lineno - 1], offset - 1);
    CaretColumn(gw + MarginWidth + (offset - 1));
  }

  /** Full-document reports do not depend on the window, so the written and
      the corrected function agree on them. */
  lemma FullXmlUnaffected(lines: seq<string>, lineno: int, offset: int, contextLines: nat,
                          context: string, message: string)
    ensures FormatLinesAsWritten(lines, lineno, offset, contextLines, true, context, message)
      == FormatLines(lines, lineno, offset, contextLines, true, context, message)
  {
  }

  /** As written, an error within the first `context_lines` lines of a
      document of at least `context_lines` lines is reported with no line
      before it and numbered `lineno - context_lines`, zero or less, instead
      of `lineno`: the negative start of the window counts from the end of
      the document. */
  lemma AsWrittenMisnumbersEarlyErrors(lines: seq<string>, lineno: int, offset: int, contextLines: nat,
                                       context: string, message: string)
    requires 1 <= lineno <= contextLines <= |lines| && 1 <= offset <= |lines[lineno - 1]|
    ensures var r := FormatLinesAsWritten(lines, lineno, offset, contextLines, false, context, message);
      var m := if lineno - 1 + contextLines < |lines| then lineno - 1 + contextLines else |lines|;
      var gw := IntWidth(m + 1 - contextLines);
      r.Ok? && |r.value| >= 6
      && r.value[4] == Numbered(lineno - contextLines, gw, lines[lineno - 1])
      && r.value[5] == CaretLine(offset - 1 + MarginWidth + gw)
  {
    var err := lineno - 1;
    var m := if err + contextLines < |lines| then err + contextLines else |lines|;
    var gw := IntWidth(m + 1 - contextLines);
    AsWrittenEarlyWindow(lines, lineno, offset, contextLines, context, message);
    ReportShape(lines[err..m], 1, err - contextLines, offset - 1, gw, context, message);
    ReportNumbering(lines[err..m], 1, err - contextLines, offset - 1, gw, context, message, 0);
  }

  /** As written, the window of an error within the first `context_lines`
      lines starts at the error line itself. */
  lemma AsWrittenEarlyWindow(lines: seq<string>, lineno: int, offset: int, contextLines: nat,
                             context: string, message: string)
    requires 1 <= lineno <= contextLines <= |lines| && 1 <= offset <= |lines[lineno - 1]|
    ensures var err := lineno - 1;
      var m := if err + contextLines < |lines| then err + contextLines else |lines|;
      FormatLinesAsWritten(lines, lineno, offset, contextLines, false, context, message)
      == Ok(Report(lines[err..m], 1, err - contextLines, offset - 1, IntWidth(m + 1 - contextLines), context, message))
  {
    var err := lineno - 1;
    var m := if err + contextLines < |lines| then err + contextLines else |lines|;
    var start := err - contextLines;
    assert FormatLinesAsWritten(lines, lineno, offset, contextLines, false, context, message)
      == Render(lines, err, offset - 1, start, Some(err + contextLines), context, message);
    RenderOk(lines, err, offset - 1, start, Some(err + contextLines), context, message);
    var b := SliceRange(|lines|, start, Some(err));
    var a := SliceRange(|lines|, err + 1, Some(err + contextLines));
    assert b.0 == b.1 && a == (err + 1, m);
    var xmlLines := lines[b.0..b.1] + [lines[err]] + lines[a.0..a.1];
    assert xmlLines == lines[err..m];
  }

  /** As written, an error with at least `context_lines` lines on either
      side is shown with `context_lines` lines before it but one fewer
      after it; the corrected window shows as many after as before. */
  lemma AsWrittenShortAfterContext(lines: seq<string>, lineno: int, offset: int, contextLines: nat,
                                   context: string, message: string)
    requires 1 <= contextLines < lineno && lineno + contextLines <= |lines|
    requires 1 <= offset <= |lines[lineno - 1]|
    ensures var r := FormatLinesAsWritten(lines, lineno, offset, contextLines, false, context, message);
      r.Ok? && |r.value| == 4 + contextLines + 2 + (contextLines - 1)
    ensures var r := FormatLines(lines, lineno, offset, contextLines, false, context, message);
      r.Ok? && |r.value| == 4 + contextLines + 2 + contextLines
  {
    var err := lineno - 1;
    var s := err - contextLines;
    var e := err + contextLines;
    assert SliceRange(|lines|, err + 1, Some(e)) == (err + 1, e);
    RenderWindow(lines, err, offset - 1, s, Some(e), e, context, message);
    ReportShape(lines[s..e], err - s + 1, s, offset - 1, DigitCount(e + 1), context, message);
    FormatLinesWindow(lines, lineno, offset, contextLines, false, context, message);
    ReportShape(lines[s..e + 1], lineno - s, s, offset - 1, DigitCount(e + 2), context, message);
  }

  /** An error on the first line of six with five lines of context: the
      error line is numbered -4 and, as `-4` is wider than the one-character
      gutter, the caret lands one column left of the offending character. */
  lemma AsWrittenFirstLineExample()
    ensures FormatLinesAsWritten(["a", "b", "c", "d", "e", "f"], 1, 1, 5, false, "job", "bad")
      == Ok(Header("job", "bad")
            + [Numbered(-4, 1, "a"), CaretLine(3), Numbered(-3, 1, "b"), Numbered(-2, 1, "c"),
               Numbered(-1, 1, "d"), Numbered(0, 1, "e")])
  {
    var lines := ["a", "b", "c", "d", "e", "f"];
    RenderOk(lines, 0, 0, -5, Some(5), "job", "bad");
    assert SliceRange(6, -5, Some(0)) == (1, 1);
    assert SliceRange(6, 1, Some(5)) == (1, 5);
    var xmlLines := ["a", "b", "c", "d", "e"];
    assert lines[1..1] + ["a"] + lines[1..5] == xmlLines;
    assert NumberLines(xmlLines, -4, 1)
      == [Numbered(-4, 1, "a"), Numbered(-3, 1, "b"), Numbered(-2, 1, "c"), Numbered(-1, 1, "d"), Numbered(0, 1, "e")];
    var numbered := NumberLines(xmlLines, -4, 1);
    assert FormatLinesAsWritten(lines, 1, 1, 5, false, "job", "bad") == Ok(Report(xmlLines, 1, -5, 0, 1, "job", "bad"));
    assert Report(xmlLines, 1, -5, 0, 1, "job", "bad") == Header("job", "bad") + numbered[..1] + [CaretLine(3)] + numbered[1..];
    assert numbered[..1] + [CaretLine(3)] + numbered[1..]
      == [Numbered(-4, 1, "a"), CaretLine(3), Numbered(-3, 1, "b"), Numbered(-2, 1, "c"),
          Numbered(-1, 1, "d"), Numbered(0, 1, "e")];
    var h := Header("job", "bad");
    assert h + numbered[..1] + [CaretLine(3)] + numbered[1..] == h + (numbered[..1] + [CaretLine(3)] + numbered[1..]);
  }

  /** The first two report lines of that example as text: the offending
      `a` is in column 4, the caret in column 3. */
  lemma AsWrittenFirstLineShown()
    ensures ShowNumbered(-4, 1, "a") == "-4  a" && ShowCaret(3) == "   ^"
  {
    assert IntToString(-4) == "-4";
    assert Spaces(MarginWidth) == "  " && Spaces(3) == "   ";
    assert ShowNumbered(-4, 1, "a") == "-4" + "  " + "a";
  }

  /** An error on line 3 of five with one line of context: line 2 is shown
      before it but line 4 is not shown after it; the corrected window shows
      both. */
  lemma AsWrittenAfterContextExample()
    ensures FormatLinesAsWritten(["a", "b", "c", "d", "e"], 3, 1, 1, false, "job", "bad")
      == Ok(Header("job", "bad") + [Numbered(2, 1, "b"), Numbered(3, 1, "c"), CaretLine(3)])
    ensures FormatLines(["a", "b", "c", "d", "e"], 3, 1, 1, false, "job", "bad")
      == Ok(Header("job", "bad") + [Numbered(2, 1, "b"), Numbered(3, 1, "c"), CaretLine(3), Numbered(4, 1, "d")])
  {
    var lines := ["a", "b", "c", "d", "e"];
    RenderOk(lines, 2, 0, 1, Some(3), "job", "bad");
    RenderOk(lines, 2, 0, 1, Some(4), "job", "bad");
    assert SliceRange(5, 1, Some(2)) == (1, 2);
    assert SliceRange(5, 3, Some(3)) == (3, 3);
    assert SliceRange(5, 3, Some(4)) == (3, 4);
    assert lines[1..2] + ["c"] + lines[3..3] == ["b", "c"];
    assert lines[1..2] + ["c"] + lines[3..4] == ["b", "c", "d"];
    assert NumberLines(["b", "c"], 2, 1) == [Numbered(2, 1, "b"), Numbered(3, 1, "c")];
    assert NumberLines(["b", "c", "d"], 2, 1) == [Numbered(2, 1, "b"), Numbered(3, 1, "c"), Numbered(4, 1, "d")];
    assert FormatLinesAsWritten(lines, 3, 1, 1, false, "job", "bad") == Ok(Report(["b", "c"], 2, 1, 0, 1, "job", "bad"));
    assert FormatLines(lines, 3, 1, 1, false, "job", "bad") == Ok(Report(["b", "c", "d"], 2, 1, 0, 1, "job", "bad"));
    var n2 := NumberLines(["b", "c"], 2, 1);
    var n3 := NumberLines(["b", "c", "d"], 2, 1);
    var h := Header("job", "bad");
    assert h + n2[..2] + [CaretLine(3)] + n2[2..] == h + (n2[..2] + [CaretLine(3)] + n2[2..]);
    assert h + n3[..2] + [CaretLine(3)] + n3[2..] == h + (n3[..2] + [CaretLine(3)] + n3[2..]);
    assert n2[..2] + [CaretLine(3)] + n2[2..] == [Numbered(2, 1, "b"), Numbered(3, 1, "c"), CaretLine(3)];
    assert n3[..2] + [CaretLine(3)] + n3[2..] == [Numbered(2, 1, "b"), Numbered(3, 1, "c"), CaretLine(3), Numbered(4, 1, "d")];
  }
}
