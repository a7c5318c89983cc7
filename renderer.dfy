/**
 * `MarkdownRenderer`: a walk over the parsed Markdown tree that appends HTML to `result`,
 * collects an outline entry for every heading with a title, wraps text in spans that carry
 * its UTF-8 byte offsets in the file, and lets raw HTML through only when it is a comment
 * marker. The parser is outside the model: the tree is a value of `Node`.
 */
module Renderer {
  import opened Wrappers
  import opened T = Text
  import Utf8
  import opened Html
  import opened Outline
  import opened SourceMap
  import opened Slugs
  import CommentMarkers

  datatype SourceRange = SourceRange(lowerBound: SourceLocation, upperBound: SourceLocation)

  /** The node kinds the walk tells apart; `Other` is any other kind, walked through. */
  datatype Node =
    | Heading(level: int, children: seq<Node>)
    | Paragraph(children: seq<Node>)
    | Text(text: string, range: Option<SourceRange>)
    | Emphasis(children: seq<Node>)
    | Strong(children: seq<Node>)
    | InlineCode(code: string)
    | CodeBlock(language: Option<string>, code: string)
    | Link(destination: Option<string>, children: seq<Node>)
    | Image(source: Option<string>, children: seq<Node>)
    | UnorderedList(children: seq<Node>)
    | OrderedList(children: seq<Node>)
    | ListItem(children: seq<Node>)
    | BlockQuote(children: seq<Node>)
    | ThematicBreak
    | SoftBreak
    | LineBreak
    | Table(head: seq<Cell>, body: seq<Row>)
    | Strikethrough(children: seq<Node>)
    | HTMLBlock(rawHTML: string)
    | InlineHTML(rawHTML: string)
    | Other(children: seq<Node>)

  datatype Cell = Cell(children: seq<Node>)
  datatype Row = Row(cells: seq<Cell>)

  datatype RenderedMarkdown = RenderedMarkdown(html: string, outline: seq<OutlineItem>)

  // ---------------------------------------------------------------------------------
  // Sizes, for termination

  function Size(n: Node): nat
    decreases n, 1
  {
    match n
    case Heading(_, children) => 1 + SizeAll(children)
    case Paragraph(children) => 1 + SizeAll(children)
    case Emphasis(children) => 1 + SizeAll(children)
    case Strong(children) => 1 + SizeAll(children)
    case Link(_, children) => 1 + SizeAll(children)
    case Image(_, children) => 1 + SizeAll(children)
    case UnorderedList(children) => 1 + SizeAll(children)
    case OrderedList(children) => 1 + SizeAll(children)
    case ListItem(children) => 1 + SizeAll(children)
    case BlockQuote(children) => 1 + SizeAll(children)
    case Strikethrough(children) => 1 + SizeAll(children)
    case Other(children) => 1 + SizeAll(children)
    case Table(head, body) => 1 + SizeCells(head) + SizeRows(body)
    case _ => 1
  }

  function SizeAll(ns: seq<Node>): nat
    decreases ns, 0
  {
    if ns == [] then 0 else SizeAll(ns[..|ns| - 1]) + Size(ns[|ns| - 1])
  }

  function SizeCells(cells: seq<Cell>): nat
    decreases cells
  {
    if cells == [] then 0 else SizeCells(cells[..|cells| - 1]) + 1 + SizeAll(cells[|cells| - 1].children)
  }

  function SizeRows(rows: seq<Row>): nat
    decreases rows
  {
    if rows == [] then 0 else SizeRows(rows[..|rows| - 1]) + 1 + SizeCells(rows[|rows| - 1].cells)
  }

  // ---------------------------------------------------------------------------------
  // Plain text, as the parser library defines it for inline content

  /** `plainText` of an inline node; block nodes contribute nothing to a heading's text. */
  function PlainText(n: Node): string
    decreases Size(n), 0
  {
    match n
    case Text(text, _) => text
    case InlineCode(code) => "`" + code + "`"
    case SoftBreak => " "
    case LineBreak => "\n"
    case InlineHTML(rawHTML) => rawHTML
    case Emphasis(children) => PlainTextAll(children)
    case Strong(children) => PlainTextAll(children)
    case Strikethrough(children) => PlainTextAll(children)
    case Link(_, children) => PlainTextAll(children)
    case Image(_, children) => PlainTextAll(children)
    case Other(children) => PlainTextAll(children)
    case _ => ""
  }

  function PlainTextAll(ns: seq<Node>): string
    decreases SizeAll(ns), 1
  {
    if ns == [] then ""
    else
      var last := ns[|ns| - 1];
      assert Size(last) <= SizeAll(ns);
      PlainTextAll(ns[..|ns| - 1]) + PlainText(last)
  }

  // ---------------------------------------------------------------------------------
  // The walk as a function of the renderer's state

  /** The three things the walk changes: the HTML, the outline and the slug counts. */
  datatype RenderState = RenderState(result: string, outline: seq<OutlineItem>, counts: map<string, int>)

  /** What the walk reads and never changes: the source mapper and the offset base. */
  datatype Env = Env(sourceMapper: Option<SourceMapper>, sourceOffsetBase: int)

  function Emit(st: RenderState, html: string): RenderState {
    RenderState(st.result + html, st.outline, st.counts)
  }

  /** `shouldRenderHTML`: only raw HTML that carries a comment marker or the comment header. */
  predicate ShouldRenderHTML(html: string) {
    Contains(html, "MV-COMMENT-") || Contains(html, CommentMarkers.HeaderPrefix)
  }

  /** The file offsets of a text node's two ends, when the range and both ends resolve. */
  function SpanOffsets(env: Env, range: Option<SourceRange>): (r: Option<(int, int)>)
    ensures r.Some? <==>
      range.Some? && env.sourceMapper.Some?
      && Offset(env.sourceMapper.value, range.value.lowerBound).Some?
      && Offset(env.sourceMapper.value, range.value.upperBound).Some?
    ensures r.Some? ==>
      r.value.0 == Offset(env.sourceMapper.value, range.value.lowerBound).value + env.sourceOffsetBase
      && r.value.1 == Offset(env.sourceMapper.value, range.value.upperBound).value + env.sourceOffsetBase
  {
    if range.None? || env.sourceMapper.None? then None
    else match (Offset(env.sourceMapper.value, range.value.lowerBound), Offset(env.sourceMapper.value, range.value.upperBound))
      case (Some(start), Some(end)) => Some((start + env.sourceOffsetBase, end + env.sourceOffsetBase))
      case _ => None
  }

  function SpanOpen(start: int, end: int): string {
    "<span data-mv-text-start=\"" + Decimal(start) + "\" data-mv-text-end=\"" + Decimal(end) + "\">"
  }

  /** `appendText`. */
  function TextF(env: Env, st: RenderState, text: string, range: Option<SourceRange>): RenderState {
    var escaped := EscapeHTML(text);
    match SpanOffsets(env, range)
    case None => Emit(st, escaped)
    case Some((start, end)) => Emit(Emit(Emit(st, SpanOpen(start, end)), escaped), "</span>")
  }

  /** What a raw HTML node adds. */
  function RawF(st: RenderState, rawHTML: string): RenderState {
    if ShouldRenderHTML(rawHTML) then Emit(st, rawHTML) else st
  }

  /** The title of a heading: its plain text, trimmed. */
  function HeadingTitle(children: seq<Node>): string {
    Trim(PlainTextAll(children), WhitespacesAndNewlines)
  }

  /** A heading: the slug is taken first, then the outline entry, then the tags. */
  function HeadingF(env: Env, st: RenderState, level: int, title: string, children: seq<Node>): RenderState
    decreases SizeAll(children), 3
  {
    Emit(VisitAllF(env, HeadingStart(st, level, title), children), HeadingClose(level))
  }

  /** `<hN id="anchor">`. */
  function HeadingOpen(level: int, anchorID: string): string {
    "<h" + Decimal(level) + " id=\"" + anchorID + "\">"
  }

  /** `</hN>` and a newline. */
  function HeadingClose(level: int): string {
    "</h" + Decimal(level) + ">\n"
  }

  /** The state once a heading's slug is taken, its outline entry added and its tag opened. */
  function HeadingStart(st: RenderState, level: int, title: string): RenderState {
    var key := AnchorKey(title);
    var count := CountOf(st.counts, key);
    var anchorID := Numbered(key, count);
    var entry := if title != [] then [OutlineItem(title, level, anchorID)] else [];
    RenderState(st.result + HeadingOpen(level, anchorID),
                st.outline + entry, st.counts[key := count + 1])
  }

  /** An element whose children are walked between an opening and a closing text. */
  function WrappedF(env: Env, st: RenderState, openTag: string, children: seq<Node>, closeTag: string): RenderState
    decreases SizeAll(children), 3
  {
    Emit(VisitAllF(env, Emit(st, openTag), children), closeTag)
  }

  function TableF(env: Env, st: RenderState, head: seq<Cell>, body: seq<Row>): RenderState
    decreases SizeCells(head) + SizeRows(body), 3
  {
    var headed := CellsF(env, Emit(Emit(st, "<table>\n"), "<thead><tr>\n"), head, "<th>", "</th>\n");
    var rows := RowsF(env, Emit(Emit(headed, "</tr></thead>\n"), "<tbody>\n"), body);
    Emit(rows, "</tbody></table>\n")
  }

  /** The cells of a row, each between `openTag` and `closeTag`. */
  function CellsF(env: Env, st: RenderState, cells: seq<Cell>, openTag: string, closeTag: string): RenderState
    decreases SizeCells(cells), 2
  {
    if cells == [] then st
    else
      var before := CellsF(env, st, cells[..|cells| - 1], openTag, closeTag);
      Emit(VisitAllF(env, Emit(before, openTag), cells[|cells| - 1].children), closeTag)
  }

  function RowsF(env: Env, st: RenderState, rows: seq<Row>): RenderState
    decreases SizeRows(rows), 2
  {
    if rows == [] then st
    else
      var before := RowsF(env, st, rows[..|rows| - 1]);
      Emit(CellsF(env, Emit(before, "<tr>\n"), rows[|rows| - 1].cells, "<td>", "</td>\n"), "</tr>\n")
  }

  /** The kinds `visit` renders as an opening tag, the children, and a closing tag. */
  predicate Wraps(n: Node) {
    || n.Paragraph? || n.Emphasis? || n.Strong? || n.Link? || n.UnorderedList? || n.OrderedList?
    || n.ListItem? || n.BlockQuote? || n.Strikethrough?
  }

  function OpenTag(n: Node): string
    requires Wraps(n)
  {
    match n
    case Paragraph(_) => "<p>"
    case Emphasis(_) => "<em>"
    case Strong(_) => "<strong>"
    case Link(destination, _) => "<a href=\"" + destination.GetOr("") + "\">"
    case UnorderedList(_) => "<ul>\n"
    case OrderedList(_) => "<ol>\n"
    case ListItem(_) => "<li>"
    case BlockQuote(_) => "<blockquote>\n"
    case Strikethrough(_) => "<del>"
  }

  function CloseTag(n: Node): string
    requires Wraps(n)
  {
    match n
    case Paragraph(_) => "</p>\n"
    case Emphasis(_) => "</em>"
    case Strong(_) => "</strong>"
    case Link(_, _) => "</a>"
    case UnorderedList(_) => "</ul>\n"
    case OrderedList(_) => "</ol>\n"
    case ListItem(_) => "</li>\n"
    case BlockQuote(_) => "</blockquote>\n"
    case Strikethrough(_) => "</del>"
  }

  /**
   * What a node without children to walk adds: code is escaped, a link destination or an
   * image source is written as it is, and an image's alt text is its escaped plain text.
   */
  function LeafHtml(n: Node): string {
    match n
    case InlineCode(code) => "<code>" + EscapeHTML(code) + "</code>"
    case CodeBlock(language, code) =>
      "<pre><code class=\"language-" + language.GetOr("") + "\">" + EscapeHTML(code) + "</code></pre>\n"
    case Image(source, children) =>
      "<img src=\"" + source.GetOr("") + "\" alt=\"" + EscapeHTML(PlainTextAll(children)) + "\">"
    case ThematicBreak => "<hr>\n"
    case SoftBreak => " "
    case LineBreak => "<br>\n"
    case _ => ""
  }

  /** `visit`. */
  function VisitF(env: Env, st: RenderState, n: Node): RenderState
    decreases Size(n), 0
  {
    if Wraps(n) then WrappedF(env, st, OpenTag(n), n.children, CloseTag(n))
    else match n
      case Heading(level, children) => HeadingF(env, st, level, HeadingTitle(children), children)
      case Text(text, range) => TextF(env, st, text, range)
      case Table(head, body) => TableF(env, st, head, body)
      case HTMLBlock(rawHTML) => RawF(st, rawHTML)
      case InlineHTML(rawHTML) => RawF(st, rawHTML)
      case Other(children) => VisitAllF(env, st, children)
      case _ => Emit(st, LeafHtml(n))
  }

  /** The children, in order. */
  function VisitAllF(env: Env, st: RenderState, ns: seq<Node>): RenderState
    decreases SizeAll(ns), 1
  {
    if ns == [] then st
    else
      var last := ns[|ns| - 1];
      assert Size(last) <= SizeAll(ns);
      VisitF(env, VisitAllF(env, st, ns[..|ns| - 1]), last)
  }

  /** `render`: a walk from an empty result, an empty outline and fresh slug counts. */
  function RenderF(env: Env, document: seq<Node>): RenderedMarkdown {
    var st := VisitAllF(env, RenderState("", [], map[]), document);
    RenderedMarkdown(st.result, st.outline)
  }

  // ---------------------------------------------------------------------------------
  // The outline: every titled heading, in document order

  /** The title and level of each outline item. */
  function Titles(items: seq<OutlineItem>): seq<(string, int)> {
    if items == [] then []
    else Titles(items[..|items| - 1]) + [(items[|items| - 1].title, items[|items| - 1].level)]
  }

  /** The headings with a non-empty title in a subtree, in pre-order; image text is not walked. */
  function HeadingsOf(n: Node): seq<(string, int)>
    decreases Size(n), 0
  {
    if Wraps(n) then HeadingsAll(n.children)
    else match n
      case Heading(level, children) =>
        var title := HeadingTitle(children);
        (if title != [] then [(title, level)] else []) + HeadingsAll(children)
      case Table(head, body) => HeadingsCells(head) + HeadingsRows(body)
      case Other(children) => HeadingsAll(children)
      case _ => []
  }

  function HeadingsAll(ns: seq<Node>): seq<(string, int)>
    decreases SizeAll(ns), 1
  {
    if ns == [] then []
    else
      var last := ns[|ns| - 1];
      assert Size(last) <= SizeAll(ns);
      HeadingsAll(ns[..|ns| - 1]) + HeadingsOf(last)
  }

  function HeadingsCells(cells: seq<Cell>): seq<(string, int)>
    decreases SizeCells(cells), 2
  {
    if cells == [] then [] else HeadingsCells(cells[..|cells| - 1]) + HeadingsAll(cells[|cells| - 1].children)
  }

  function HeadingsRows(rows: seq<Row>): seq<(string, int)>
    decreases SizeRows(rows), 3
  {
    if rows == [] then [] else HeadingsRows(rows[..|rows| - 1]) + HeadingsCells(rows[|rows| - 1].cells)
  }

  /**
   * A later state of one walk: the HTML and the outline only grow at their ends, the
   * outline gains the headings `hs`, and no slug count goes down.
   */
  ghost predicate Grows(st: RenderState, next: RenderState, hs: seq<(string, int)>) {
    && st.result <= next.result
    && st.outline <= next.outline
    && Titles(next.outline) == Titles(st.outline) + hs
    && (forall k :: CountOf(st.counts, k) <= CountOf(next.counts, k))
  }

  lemma {:induction false} TitlesAppend(a: seq<OutlineItem>, b: seq<OutlineItem>)
    ensures Titles(a + b) == Titles(a) + Titles(b)
    decreases |b|
  {
    if b == [] {
      assert a + b == a;
    } else {
      var b0 := b[..|b| - 1];
      assert (a + b)[..|a + b| - 1] == a + b0;
      TitlesAppend(a, b0);
    }
  }

  lemma GrowsTrans(a: RenderState, b: RenderState, c: RenderState, h1: seq<(string, int)>, h2: seq<(string, int)>)
    requires Grows(a, b, h1) && Grows(b, c, h2)
    ensures Grows(a, c, h1 + h2)
  {
    assert Titles(a.outline) + h1 + h2 == Titles(a.outline) + (h1 + h2);
  }

  lemma EmitGrows(st: RenderState, html: string)
    ensures Grows(st, Emit(st, html), [])
  {
    assert Titles(st.outline) + [] == Titles(st.outline);
  }

  /** Opening a heading counts its slug and adds its entry when the title is not empty. */
  lemma HeadingStartGrows(st: RenderState, level: int, title: string)
    ensures Grows(st, HeadingStart(st, level, title), if title != [] then [(title, level)] else [])
  {
    var next := HeadingStart(st, level, title);
    var key := AnchorKey(title);
    var entry := if title != [] then [OutlineItem(title, level, Numbered(key, CountOf(st.counts, key)))] else [];
    TitlesAppend(st.outline, entry);
    if title != [] {
      assert Titles(entry) == Titles([]) + [(title, level)];
    }
    forall k
      ensures CountOf(st.counts, k) <= CountOf(next.counts, k)
    {
    }
  }

  lemma {:induction false} WalkNode(env: Env, st: RenderState, n: Node)
    ensures Grows(st, VisitF(env, st, n), HeadingsOf(n))
    decreases Size(n), 0
  {
    if Wraps(n) {
      WalkWrapped(env, st, OpenTag(n), n.children, CloseTag(n));
    } else {
      match n
      case Heading(level, children) => WalkHeading(env, st, level, children);
      case Table(head, body) => WalkTable(env, st, head, body);
      case Other(children) => WalkAll(env, st, children);
      case Text(_, _) | InlineCode(_) | CodeBlock(_, _) | Image(_, _) | ThematicBreak | SoftBreak | LineBreak
        | HTMLBlock(_) | InlineHTML(_) => WalkLeaf(env, st, n);
    }
  }

  /** The kinds whose rendering visits no children. */
  predicate Leaf(n: Node) {
    !Wraps(n) && !n.Heading? && !n.Table? && !n.Other?
  }

  lemma WalkLeaf(env: Env, st: RenderState, n: Node)
    requires Leaf(n)
    ensures Grows(st, VisitF(env, st, n), HeadingsOf(n))
  {
    match n
    case Text(text, range) => TextGrows(env, st, text, range);
    case HTMLBlock(rawHTML) => EmitGrows(st, rawHTML); EmitGrows(st, []);
    case InlineHTML(rawHTML) => EmitGrows(st, rawHTML); EmitGrows(st, []);
    case _ => EmitGrows(st, LeafHtml(n));
  }

  lemma {:induction false} WalkHeading(env: Env, st: RenderState, level: int, children: seq<Node>)
    ensures Grows(st, VisitF(env, st, Heading(level, children)), HeadingsOf(Heading(level, children)))
    decreases SizeAll(children), 3
  {
    var title := HeadingTitle(children);
    var entry := if title != [] then [(title, level)] else [];
    var started := HeadingStart(st, level, title);
    HeadingStartGrows(st, level, title);
    WalkAll(env, started, children);
    var walked := VisitAllF(env, started, children);
    EmitGrows(walked, HeadingClose(level));
    GrowsTrans(st, started, walked, entry, HeadingsAll(children));
    GrowsTrans(st, walked, Emit(walked, HeadingClose(level)), entry + HeadingsAll(children), []);
    assert entry + HeadingsAll(children) + [] == HeadingsOf(Heading(level, children));
  }

  lemma TextGrows(env: Env, st: RenderState, text: string, range: Option<SourceRange>)
    ensures Grows(st, TextF(env, st, text, range), [])
  {
    EmitGrows(st, EscapeHTML(text));
    match SpanOffsets(env, range)
    case None =>
    case Some((start, end)) =>
      var a := Emit(st, SpanOpen(start, end));
      var b := Emit(a, EscapeHTML(text));
      EmitGrows(st, SpanOpen(start, end));
      EmitGrows(a, EscapeHTML(text));
      EmitGrows(b, "</span>");
      GrowsTrans(st, a, b, [], []);
      GrowsTrans(st, b, Emit(b, "</span>"), [], []);
  }

  lemma {:induction false} WalkWrapped(env: Env, st: RenderState, openTag: string, children: seq<Node>, closeTag: string)
    ensures Grows(st, WrappedF(env, st, openTag, children, closeTag), HeadingsAll(children))
    decreases SizeAll(children), 3
  {
    var entered := Emit(st, openTag);
    var walked := VisitAllF(env, entered, children);
    EmitGrows(st, openTag);
    WalkAll(env, entered, children);
    EmitGrows(walked, closeTag);
    GrowsTrans(st, entered, walked, [], HeadingsAll(children));
    GrowsTrans(st, walked, Emit(walked, closeTag), [] + HeadingsAll(children), []);
    assert [] + HeadingsAll(children) + [] == HeadingsAll(children);
  }

  lemma {:induction false} WalkAll(env: Env, st: RenderState, ns: seq<Node>)
    ensures Grows(st, VisitAllF(env, st, ns), HeadingsAll(ns))
    decreases SizeAll(ns), 2, |ns|
  {
    if ns == [] {
      EmitGrows(st, []);
      assert Emit(st, []) == st;
    } else {
      var prefix, last := ns[..|ns| - 1], ns[|ns| - 1];
      WalkAll(env, st, prefix);
      var mid := VisitAllF(env, st, prefix);
      WalkNode(env, mid, last);
      GrowsTrans(st, mid, VisitF(env, mid, last), HeadingsAll(prefix), HeadingsOf(last));
    }
  }

  lemma {:induction false} WalkCells(env: Env, st: RenderState, cells: seq<Cell>, openTag: string, closeTag: string)
    ensures Grows(st, CellsF(env, st, cells, openTag, closeTag), HeadingsCells(cells))
    decreases SizeCells(cells), 3
  {
    if cells == [] {
      EmitGrows(st, []);
      assert Emit(st, []) == st;
    } else {
      var prefix := cells[..|cells| - 1];
      WalkCells(env, st, prefix, openTag, closeTag);
      var before := CellsF(env, st, prefix, openTag, closeTag);
      WalkWrapped(env, before, openTag, cells[|cells| - 1].children, closeTag);
      GrowsTrans(st, before, WrappedF(env, before, openTag, cells[|cells| - 1].children, closeTag),
                 HeadingsCells(prefix), HeadingsAll(cells[|cells| - 1].children));
    }
  }

  lemma {:induction false} WalkRows(env: Env, st: RenderState, rows: seq<Row>)
    ensures Grows(st, RowsF(env, st, rows), HeadingsRows(rows))
    decreases SizeRows(rows), 4
  {
    if rows == [] {
      EmitGrows(st, []);
      assert Emit(st, []) == st;
    } else {
      var prefix := rows[..|rows| - 1];
      WalkRows(env, st, prefix);
      var before := RowsF(env, st, prefix);
      var entered := Emit(before, "<tr>\n");
      var cells := rows[|rows| - 1].cells;
      var walked := CellsF(env, entered, cells, "<td>", "</td>\n");
      EmitGrows(before, "<tr>\n");
      WalkCells(env, entered, cells, "<td>", "</td>\n");
      EmitGrows(walked, "</tr>\n");
      GrowsTrans(before, entered, walked, [], HeadingsCells(cells));
      GrowsTrans(before, walked, Emit(walked, "</tr>\n"), [] + HeadingsCells(cells), []);
      assert [] + HeadingsCells(cells) + [] == HeadingsCells(cells);
      GrowsTrans(st, before, Emit(walked, "</tr>\n"), HeadingsRows(prefix), HeadingsCells(cells));
    }
  }

  lemma {:induction false} WalkTable(env: Env, st: RenderState, head: seq<Cell>, body: seq<Row>)
    ensures Grows(st, TableF(env, st, head, body), HeadingsCells(head) + HeadingsRows(body))
    decreases SizeCells(head) + SizeRows(body), 5
  {
    var s1 := Emit(Emit(st, "<table>\n"), "<thead><tr>\n");
    EmitGrows(st, "<table>\n");
    EmitGrows(Emit(st, "<table>\n"), "<thead><tr>\n");
    GrowsTrans(st, Emit(st, "<table>\n"), s1, [], []);
    var s2 := CellsF(env, s1, head, "<th>", "</th>\n");
    WalkCells(env, s1, head, "<th>", "</th>\n");
    GrowsTrans(st, s1, s2, [], HeadingsCells(head));
    var s3 := Emit(Emit(s2, "</tr></thead>\n"), "<tbody>\n");
    EmitGrows(s2, "</tr></thead>\n");
    EmitGrows(Emit(s2, "</tr></thead>\n"), "<tbody>\n");
    GrowsTrans(s2, Emit(s2, "</tr></thead>\n"), s3, [], []);
    GrowsTrans(st, s2, s3, [] + HeadingsCells(head), []);
    var s4 := RowsF(env, s3, body);
    WalkRows(env, s3, body);
    GrowsTrans(st, s3, s4, [] + HeadingsCells(head) + [], HeadingsRows(body));
    EmitGrows(s4, "</tbody></table>\n");
    GrowsTrans(st, s4, Emit(s4, "</tbody></table>\n"), [] + HeadingsCells(head) + [] + HeadingsRows(body), []);
    assert [] + HeadingsCells(head) + [] + HeadingsRows(body) + [] == HeadingsCells(head) + HeadingsRows(body);
  }

  /**
   * `render` lists, in its outline, every heading with a non-empty trimmed title, in
   * document order and with its level; nothing else enters the outline.
   */
  lemma RenderOutline(env: Env, document: seq<Node>)
    ensures Titles(RenderF(env, document).outline) == HeadingsAll(document)
  {
    WalkAll(env, RenderState("", [], map[]), document);
    assert Titles([]) + HeadingsAll(document) == HeadingsAll(document);
  }

  // ---------------------------------------------------------------------------------
  // Headings, text and raw HTML

  /**
   * A heading always takes a slug from the counts and opens with `<hN id="slug">`; when its
   * trimmed plain text is not empty, its outline item comes next in the outline.
   */
  lemma HeadingOpens(env: Env, st: RenderState, level: int, children: seq<Node>)
    ensures var r := VisitF(env, st, Heading(level, children));
      var title := HeadingTitle(children);
      var key := AnchorKey(title);
      var anchorID := Numbered(key, CountOf(st.counts, key));
      && st.result + HeadingOpen(level, anchorID) <= r.result
      && CountOf(st.counts, key) < CountOf(r.counts, key)
      && (title != [] ==> |st.outline| < |r.outline| && r.outline[|st.outline|] == OutlineItem(title, level, anchorID))
  {
    var title := HeadingTitle(children);
    var started := HeadingStart(st, level, title);
    WalkAll(env, started, children);
    var walked := VisitAllF(env, started, children);
    EmitGrows(walked, HeadingClose(level));
    assert started.outline <= walked.outline;
    var key := AnchorKey(title);
    assert CountOf(started.counts, key) <= CountOf(walked.counts, key);
  }

  /**
   * `appendText` writes the escaped text, which holds no markup and reads back as the text,
   * inside a span carrying both file offsets when both ends resolve, and bare otherwise.
   */
  lemma TextSpan(env: Env, st: RenderState, text: string, range: Option<SourceRange>)
    ensures var r := VisitF(env, st, Text(text, range));
      var escaped := EscapeHTML(text);
      && r.outline == st.outline && r.counts == st.counts
      && '<' !in escaped && Unescape(escaped) == text
      && (match SpanOffsets(env, range)
          case Some((start, end)) => r.result == st.result + SpanOpen(start, end) + escaped + "</span>"
          case None => r.result == st.result + escaped)
  {
    EscapeHasNoMarkup(text);
    UnescapeEscape(text);
  }

  /**
   * For a renderer made from a source text, a text node is wrapped exactly when both ends
   * of its range lie on lines of that text, and each offset is shifted by the base.
   */
  lemma SpanInSource(source: string, base: int, range: SourceRange)
    ensures var bytes := Utf8.Encode(source);
      var env := Env(Some(SourceMapper(LineStarts(bytes))), base);
      var lines := NewlineCount(bytes) + 1;
      && (SpanOffsets(env, Some(range)).Some? <==>
            1 <= range.lowerBound.line <= lines && 1 <= range.upperBound.line <= lines)
  {
    OffsetInText(source, range.lowerBound);
    OffsetInText(source, range.upperBound);
  }

  lemma OccursInside(a: string, b: string, c: string)
    ensures Contains(a + b + c, b)
  {
    assert OccursAt(a + b + c, b, |a|) by {
      assert (a + b + c)[|a|..|a| + |b|] == b;
    }
  }

  /** The start marker the comment engine writes passes the raw-HTML filter. */
  lemma StartMarkerRendered(payload: string)
    ensures ShouldRenderHTML(CommentMarkers.StartMarker(payload))
  {
    var rest := "START " + payload + CommentMarkers.Tail;
    assert CommentMarkers.StartLead == "<!-- " + "MV-COMMENT-" + "START ";
    assert CommentMarkers.StartMarker(payload) == "<!-- " + "MV-COMMENT-" + rest;
    OccursInside("<!-- ", "MV-COMMENT-", rest);
  }

  /** So does the end marker. */
  lemma EndMarkerRendered(id: string)
    ensures ShouldRenderHTML(CommentMarkers.EndMarker(id))
  {
    var rest := "END " + id + CommentMarkers.Tail;
    assert CommentMarkers.EndLead == "<!-- " + "MV-COMMENT-" + "END ";
    assert CommentMarkers.EndMarker(id) == "<!-- " + "MV-COMMENT-" + rest;
    OccursInside("<!-- ", "MV-COMMENT-", rest);
  }

  /** And so does the header the engine puts above the first comment. */
  lemma HeaderRendered()
    ensures ShouldRenderHTML(CommentMarkers.Header)
  {
    var rest := CommentMarkers.HeaderNote + "\n\n";
    assert CommentMarkers.Header == [] + CommentMarkers.HeaderPrefix + rest;
    OccursInside([], CommentMarkers.HeaderPrefix, rest);
  }

  /** Raw HTML without a marker or the header contributes nothing at all. */
  lemma RawDropped(env: Env, st: RenderState, rawHTML: string)
    requires !ShouldRenderHTML(rawHTML)
    ensures VisitF(env, st, HTMLBlock(rawHTML)) == st && VisitF(env, st, InlineHTML(rawHTML)) == st
  {
  }

  // ---------------------------------------------------------------------------------
  // Sizes of the parts of a tree

  lemma {:induction false} SizeAllElem(ns: seq<Node>, i: nat)
    requires i < |ns|
    ensures Size(ns[i]) <= SizeAll(ns)
    decreases |ns|
  {
    if i < |ns| - 1 {
      SizeAllElem(ns[..|ns| - 1], i);
    }
  }

  lemma {:induction false} SizeCellsElem(cells: seq<Cell>, i: nat)
    requires i < |cells|
    ensures SizeAll(cells[i].children) < SizeCells(cells)
    decreases |cells|
  {
    if i < |cells| - 1 {
      SizeCellsElem(cells[..|cells| - 1], i);
    }
  }

  lemma {:induction false} SizeRowsElem(rows: seq<Row>, i: nat)
    requires i < |rows|
    ensures SizeCells(rows[i].cells) < SizeRows(rows)
    decreases |rows|
  {
    if i < |rows| - 1 {
      SizeRowsElem(rows[..|rows| - 1], i);
    }
  }

  // ---------------------------------------------------------------------------------
  // The renderer

  /** `MarkdownRenderer`: the walk accumulates into `result` and `outline`. */
  class MarkdownRenderer {
    var result: string
    var outline: seq<OutlineItem>
    var slugger: HeadingSlugger
    const sourceMapper: Option<SourceMapper>
    const sourceOffsetBase: int

    /** `init(source:sourceOffsetBase:)`: text spans carry offsets into `source`. */
    constructor FromSource(source: string, base: int)
      ensures sourceMapper == Some(SourceMapper(LineStarts(Utf8.Encode(source))))
      ensures sourceOffsetBase == base
      ensures result == [] && outline == [] && fresh(slugger) && slugger.counts == map[]
    {
      var m := NewSourceMapper(source);
      sourceMapper := Some(m);
      sourceOffsetBase := base;
      result := "";
      outline := [];
      slugger := new HeadingSlugger();
    }

    /** `init()`: no source, so no text is wrapped in a span. */
    constructor ()
      ensures sourceMapper == None && sourceOffsetBase == 0
      ensures result == [] && outline == [] && fresh(slugger) && slugger.counts == map[]
    {
      sourceMapper := None;
      sourceOffsetBase := 0;
      result := "";
      outline := [];
      slugger := new HeadingSlugger();
    }

    function Environment(): Env {
      Env(sourceMapper, sourceOffsetBase)
    }

    function State(): RenderState
      reads this, slugger
    {
      RenderState(result, outline, slugger.counts)
    }

    /** `render(_:)`: the state is reset, so the outcome depends on the document alone. */
    method Render(document: seq<Node>) returns (rendered: RenderedMarkdown)
      modifies this
      ensures rendered == RenderF(Environment(), document)
      ensures result == rendered.html && outline == rendered.outline
    {
      result := "";
      outline := [];
      slugger := new HeadingSlugger();
      VisitChildren(document);
      rendered := RenderedMarkdown(result, outline);
    }

    /** The children of a node, in order. */
    method VisitChildren(ns: seq<Node>)
      modifies this, slugger
      ensures slugger == old(slugger)
      ensures State() == VisitAllF(Environment(), old(State()), ns)
      decreases SizeAll(ns), 1
    {
      ghost var start := State();
      var i := 0;
      while i < |ns|
        invariant i <= |ns| && slugger == old(slugger)
        invariant State() == VisitAllF(Environment(), start, ns[..i])
      {
        assert ns[..i + 1][..i] == ns[..i];
        SizeAllElem(ns, i);
        Visit(ns[i]);
        i := i + 1;
      }
      assert ns[..i] == ns;
    }

    /** The cells of a table row, each between `openTag` and `closeTag`. */
    method VisitCells(cells: seq<Cell>, openTag: string, closeTag: string)
      modifies this, slugger
      ensures slugger == old(slugger)
      ensures State() == CellsF(Environment(), old(State()), cells, openTag, closeTag)
      decreases SizeCells(cells), 2
    {
      ghost var start := State();
      var i := 0;
      while i < |cells|
        invariant i <= |cells| && slugger == old(slugger)
        invariant State() == CellsF(Environment(), start, cells[..i], openTag, closeTag)
      {
        assert cells[..i + 1][..i] == cells[..i];
        SizeCellsElem(cells, i);
        result := result + openTag;
        VisitChildren(cells[i].children);
        result := result + closeTag;
        i := i + 1;
      }
      assert cells[..i] == cells;
    }

    /** The body rows of a table. */
    method VisitRows(rows: seq<Row>)
      modifies this, slugger
      ensures slugger == old(slugger)
      ensures State() == RowsF(Environment(), old(State()), rows)
      decreases SizeRows(rows), 3
    {
      ghost var start := State();
      var i := 0;
      while i < |rows|
        invariant i <= |rows| && slugger == old(slugger)
        invariant State() == RowsF(Environment(), start, rows[..i])
      {
        assert rows[..i + 1][..i] == rows[..i];
        SizeRowsElem(rows, i);
        result := result + "<tr>\n";
        VisitCells(rows[i].cells, "<td>", "</td>\n");
        result := result + "</tr>\n";
        i := i + 1;
      }
      assert rows[..i] == rows;
    }

    /** An element whose children are walked between two tags. */
    method VisitWrapped(openTag: string, children: seq<Node>, closeTag: string)
      modifies this, slugger
      ensures slugger == old(slugger)
      ensures State() == WrappedF(Environment(), old(State()), openTag, children, closeTag)
      decreases SizeAll(children), 2
    {
      result := result + openTag;
      VisitChildren(children);
      result := result + closeTag;
    }

    /** `appendText`. */
    method AppendText(text: string, range: Option<SourceRange>)
      modifies this
      ensures slugger == old(slugger)
      ensures State() == TextF(Environment(), old(State()), text, range)
    {
      var escaped := EscapeHTML(text);
      if range.Some? && sourceMapper.Some? {
        var start := Offset(sourceMapper.value, range.value.lowerBound);
        var end := Offset(sourceMapper.value, range.value.upperBound);
        if start.Some? && end.Some? {
          result := result + SpanOpen(start.value + sourceOffsetBase, end.value + sourceOffsetBase);
          result := result + escaped;
          result := result + "</span>";
          return;
        }
      }
      result := result + escaped;
    }

    /** A heading: a slug is always taken, an outline entry only for a non-empty title. */
    method VisitHeading(level: int, title: string, children: seq<Node>)
      modifies this, slugger
      ensures slugger == old(slugger)
      ensures State() == HeadingF(Environment(), old(State()), level, title, children)
      decreases SizeAll(children), 2
    {
      OpenHeading(level, title);
      VisitChildren(children);
      result := result + HeadingClose(level);
    }

    /** The heading's slug, outline entry and opening tag. */
    method OpenHeading(level: int, title: string)
      modifies this, slugger
      ensures slugger == old(slugger)
      ensures State() == HeadingStart(old(State()), level, title)
    {
      var anchorID := slugger.Slug(title);
      var entry := if title != [] then [OutlineItem(title, level, anchorID)] else [];
      outline := outline + entry;
      result := result + HeadingOpen(level, anchorID);
    }

    method VisitTable(head: seq<Cell>, body: seq<Row>)
      modifies this, slugger
      ensures slugger == old(slugger)
      ensures State() == TableF(Environment(), old(State()), head, body)
      decreases SizeCells(head) + SizeRows(body), 4
    {
      result := result + "<table>\n";
      result := result + "<thead><tr>\n";
      VisitCells(head, "<th>", "</th>\n");
      result := result + "</tr></thead>\n";
      result := result + "<tbody>\n";
      VisitRows(body);
      result := result + "</tbody></table>\n";
    }

    /** `visit(_:)`. */
    method Visit(node: Node)
      modifies this, slugger
      ensures slugger == old(slugger)
      ensures State() == VisitF(Environment(), old(State()), node)
      decreases Size(node), 0
    {
      if Wraps(node) {
        VisitWrapped(OpenTag(node), node.children, CloseTag(node));
        return;
      }
      match node
      case Heading(level, children) =>
        var title := Trim(PlainTextAll(children), WhitespacesAndNewlines);
        VisitHeading(level, title, children);
      case Table(head, body) => VisitTable(head, body);
      case Other(children) => VisitChildren(children);
      case Text(_, _) | InlineCode(_) | CodeBlock(_, _) | Image(_, _) | ThematicBreak | SoftBreak | LineBreak
        | HTMLBlock(_) | InlineHTML(_) => VisitLeaf(node);
    }

    /** The kinds without children to visit: text, raw HTML and the self-contained leaves. */
    method VisitLeaf(node: Node)
      requires Leaf(node)
      modifies this
      ensures slugger == old(slugger)
      ensures State() == VisitF(Environment(), old(State()), node)
    {
      match node
      case Text(text, range) => AppendText(text, range);
      case InlineCode(_) | CodeBlock(_, _) | Image(_, _) | ThematicBreak | SoftBreak | LineBreak =>
        result := result + LeafHtml(node);
      case HTMLBlock(rawHTML) =>
        if ShouldRenderHTML(rawHTML) {
          result := result + rawHTML;
        }
      case InlineHTML(rawHTML) =>
        if ShouldRenderHTML(rawHTML) {
          result := result + rawHTML;
        }
    }
  }
}
