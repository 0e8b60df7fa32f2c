/**
 The line loop of the markdown preview of a note. Fences switch a code buffer on and off; every other line becomes one
 element. The loop is proved against a reading of the whole list of lines, block by block.
 */
module NotePreview {
  import opened Wrappers
  import opened Splitting
  import opened InlineMarkdown

  // ---------- Lines ----------

  /** What `String.prototype.trim` removes. */
  predicate Space(c: char) {
    || '\t' <= c <= '\r' || c == ' ' || c == '\U{a0}' || c == '\U{1680}' || '\U{2000}' <= c <= '\U{200a}'
    || c == '\U{2028}' || c == '\U{2029}' || c == '\U{202f}' || c == '\U{205f}' || c == '\U{3000}' || c == '\U{feff}'
  }

  predicate Blank(s: string) {
    forall i :: 0 <= i < |s| ==> Space(s[i])
  }

  predicate Fence(line: string) {
    "```" <= line
  }

  /** An element of the preview. `T` is what an item or a paragraph holds: its text, or the pieces the text is cut into. */
  datatype Block<T> = Heading(level: nat, title: string) | Item(body: T) | Gap | Paragraph(body: T) | Pre(code: string)

  /** What a line outside code shows. */
  function LineBlock(raw: string): Block<string> {
    if "### " <= raw then Heading(4, raw[4..])
    else if "## " <= raw then Heading(3, raw[3..])
    else if "# " <= raw then Heading(2, raw[2..])
    else if "- " <= raw || "* " <= raw then Item(raw[2..])
    else if Blank(raw) then Gap
    else Paragraph(raw)
  }

  /** Which lines show what: a heading stands behind one to three `#` and a space, an item behind `-` or `*` and a space. */
  lemma LineShows(raw: string, level: nat, text: string)
    ensures LineBlock(raw) == Heading(level, text) <==>
      (level == 2 && raw == "# " + text) || (level == 3 && raw == "## " + text) || (level == 4 && raw == "### " + text)
    ensures LineBlock(raw) == Item(text) <==> raw == "- " + text || raw == "* " + text
    ensures LineBlock(raw) == Gap <==> forall i :: 0 <= i < |raw| ==> Space(raw[i])
    ensures !LineBlock(raw).Heading? && !LineBlock(raw).Item? && !LineBlock(raw).Gap? ==> LineBlock(raw) == Paragraph(raw)
  {
    hide Space;
    if raw != "" { MarkerIsNoSpace(raw[0]); }
    assert "# " <= raw ==> raw[1] == ' ';
    assert "## " <= raw ==> raw[1] == '#' && raw[2] == ' ';
    assert "### " <= raw ==> raw[1] == '#' && raw[2] == '#';
    StartsWith("# ", raw, text);
    StartsWith("## ", raw, text);
    StartsWith("### ", raw, text);
    StartsWith("- ", raw, text);
    StartsWith("* ", raw, text);
  }

  lemma StartsWith(marker: string, raw: string, text: string)
    ensures raw == marker + text <==> marker <= raw && raw[|marker|..] == text
  {}

  lemma MarkerIsNoSpace(c: char)
    ensures c == '#' || c == '-' || c == '*' ==> !Space(c)
  {}

  // ---------- The document ----------

  function FirstFence(lines: seq<string>): (k: nat)
    ensures k <= |lines|
    ensures forall i :: 0 <= i < k ==> !Fence(lines[i])
    ensures k < |lines| ==> Fence(lines[k])
  {
    if lines == [] || Fence(lines[0]) then 0 else 1 + FirstFence(lines[1..])
  }

  function JoinLines(lines: seq<string>): string {
    if lines == [] then "" else Join('\n', lines)
  }

  function Shown(lines: seq<string>): seq<Block<string>> {
    seq(|lines|, i requires 0 <= i < |lines| => LineBlock(lines[i]))
  }

  /** The lines up to the first fence, the code up to the next one, and so on; code that is never closed ends with the
      document. */
  function Document(lines: seq<string>): seq<Block<string>>
    decreases |lines|, 1
  {
    var f := FirstFence(lines);
    if f == |lines| then Shown(lines) else Shown(lines[..f]) + Inside([], lines[f + 1..])
  }

  /** The document from within code, of which `buffer` was already read. */
  function Inside(buffer: seq<string>, lines: seq<string>): seq<Block<string>>
    decreases |lines|, 2
  {
    var f := FirstFence(lines);
    [Pre(JoinLines(buffer + lines[..f]))] + (if f == |lines| then [] else Document(lines[f + 1..]))
  }

  /** Items and paragraphs are shown as the pieces that the inline tokenizer cuts them into. */
  ghost predicate Renders(b: Block<string>, e: Block<seq<Piece>>) {
    match b
    case Heading(level, title) => e == Heading(level, title)
    case Item(text) => e.Item? && Cuts(text, 0, |text|, e.body)
    case Gap => e == Gap
    case Paragraph(text) => e.Paragraph? && Cuts(text, 0, |text|, e.body)
    case Pre(code) => e == Pre(code)
  }

  ghost predicate RendersAll(bs: seq<Block<string>>, es: seq<Block<seq<Piece>>>) {
    |es| == |bs| && forall i :: 0 <= i < |bs| ==> Renders(bs[i], es[i])
  }

  // ---------- The loop ----------

  /** `None` stands for the placeholder. */
  method MarkdownPreview(content: string) returns (out: Option<seq<Block<seq<Piece>>>>)
    ensures out.None? <==> Blank(content)
    ensures out.Some? ==> RendersAll(Document(Split('\n', content)), out.value)
  {
    hide Document, Inside, Split, Renders, RendersAll, JoinLines, LineBlock, Fence;
    if Blank(content) {
      return None;
    }
    var lines := Split('\n', content);
    var done: seq<Block<seq<Piece>>> := [];
    ghost var read: seq<Block<string>> := [];
    var inCode, codeBuffer := false, [];
    assert lines[0..] == lines;
    RendersNothing();
    for i := 0 to |lines|
      invariant RendersAll(read, done)
      invariant Document(lines) == read + if inCode then Inside(codeBuffer, lines[i..]) else Document(lines[i..])
    {
      var raw := lines[i];
      assert lines[i..][0] == raw && lines[i..][1..] == lines[i + 1..];
      if inCode {
        InsideStep(codeBuffer, lines[i..]);
      } else {
        DocumentStep(lines[i..]);
      }
      if Fence(raw) {
        if inCode {
          RendersCode(JoinLines(codeBuffer));
          RendersNext(read, done, Pre(JoinLines(codeBuffer)), Pre(JoinLines(codeBuffer)), Document(lines[i + 1..]));
          read := read + [Pre(JoinLines(codeBuffer))];
          done := done + [Pre(JoinLines(codeBuffer))];
          codeBuffer, inCode := [], false;
        } else {
          inCode := true;
          codeBuffer := [];
        }
      } else if inCode {
        codeBuffer := codeBuffer + [raw];
      } else {
        var e := RenderLine(raw);
        RendersNext(read, done, LineBlock(raw), e, Document(lines[i + 1..]));
        read := read + [LineBlock(raw)];
        done := done + [e];
      }
    }
    assert lines[|lines|..] == [];
    AtEnd(codeBuffer);
    if inCode {
      RendersCode(JoinLines(codeBuffer));
      RendersNext(read, done, Pre(JoinLines(codeBuffer)), Pre(JoinLines(codeBuffer)), []);
      read := read + [Pre(JoinLines(codeBuffer))];
      done := done + [Pre(JoinLines(codeBuffer))];
    }
    assert Document(lines) == read;
    return Some(done);
  }

  method RenderLine(raw: string) returns (e: Block<seq<Piece>>)
    ensures Renders(LineBlock(raw), e)
  {
    hide Cuts;
    if "### " <= raw {
      return Heading(4, raw[4..]);
    }
    if "## " <= raw {
      return Heading(3, raw[3..]);
    }
    if "# " <= raw {
      return Heading(2, raw[2..]);
    }
    if "- " <= raw || "* " <= raw {
      var nodes := RenderInline(raw[2..]);
      return Item(nodes);
    }
    if Blank(raw) {
      return Gap;
    }
    var nodes := RenderInline(raw);
    return Paragraph(nodes);
  }

  lemma RendersNothing()
    ensures RendersAll([], [])
  {}

  lemma RendersCode(code: string)
    ensures Renders(Pre(code), Pre(code))
  {}

  lemma RendersNext(bs: seq<Block<string>>, es: seq<Block<seq<Piece>>>, b: Block<string>, e: Block<seq<Piece>>,
                    rest: seq<Block<string>>)
    requires RendersAll(bs, es) && Renders(b, e)
    ensures RendersAll(bs + [b], es + [e])
    ensures bs + ([b] + rest) == bs + [b] + rest
    ensures bs + [b] + [] == bs + [b]
  {
    hide Renders;
  }

  lemma DocumentStep(lines: seq<string>)
    requires lines != []
    ensures Document(lines) == if Fence(lines[0]) then Inside([], lines[1..]) else [LineBlock(lines[0])] + Document(lines[1..])
  {
    hide Inside, LineBlock, Fence, Shown, FirstFence;
    FirstFenceStep(lines);
    var f := FirstFence(lines);
    ShownFirst(lines[..f]);
    if !Fence(lines[0]) {
      OneLineOn([], lines, f);
      assert lines[..f][1..] == lines[1..][..f - 1];
      assert f == |lines| ==> lines[..f] == lines && lines[1..][..f - 1] == lines[1..];
      assert (f - 1) + 1 == f;
    }
  }

  lemma ShownFirst(lines: seq<string>)
    ensures Shown(lines) == if lines == [] then [] else [LineBlock(lines[0])] + Shown(lines[1..])
  {}

  lemma InsideStep(buffer: seq<string>, lines: seq<string>)
    requires lines != []
    ensures Inside(buffer, lines)
      == if Fence(lines[0]) then [Pre(JoinLines(buffer))] + Document(lines[1..]) else Inside(buffer + [lines[0]], lines[1..])
  {
    hide Document, JoinLines, Fence, FirstFence;
    FirstFenceStep(lines);
    var f := FirstFence(lines);
    if Fence(lines[0]) {
      assert buffer + lines[..0] == buffer;
    } else {
      OneLineOn(buffer, lines, f);
      assert (f - 1) + 1 == f;
    }
  }

  lemma FirstFenceStep(lines: seq<string>)
    requires lines != []
    ensures FirstFence(lines) == if Fence(lines[0]) then 0 else 1 + FirstFence(lines[1..])
  {
    hide Fence;
  }

  lemma OneLineOn(buffer: seq<string>, lines: seq<string>, f: nat)
    requires 0 < f <= |lines|
    ensures buffer + [lines[0]] + lines[1..][..f - 1] == buffer + lines[..f]
    ensures f < |lines| ==> lines[1..][f..] == lines[f + 1..]
  {}

  lemma AtEnd(buffer: seq<string>)
    ensures Document([]) == [] && Inside(buffer, []) == [Pre(JoinLines(buffer))]
  {
    assert buffer + [][..0] == buffer;
  }

  /** The elements are determined by the text. */
  lemma PreviewIsDetermined(bs: seq<Block<string>>, es: seq<Block<seq<Piece>>>, fs: seq<Block<seq<Piece>>>)
    requires RendersAll(bs, es) && RendersAll(bs, fs)
    ensures es == fs
  {
    hide Cuts;
    forall i | 0 <= i < |bs|
      ensures es[i] == fs[i]
    {
      var b := bs[i];
      assert Renders(b, es[i]) && Renders(b, fs[i]);
      if b.Item? || b.Paragraph? {
        CutsAreUnique(b.body, 0, es[i].body, fs[i].body);
      }
    }
  }

  // ---------- Back to lines ----------

  function Marker(level: nat): string {
    if level == 4 then "### " else if level == 3 then "## " else "# "
  }

  /** The line that shows a block other than code, in its usual spelling. */
  function SourceLine(b: Block<string>): string
    requires !b.Pre?
  {
    match b
    case Heading(level, title) => Marker(level) + title
    case Item(text) => "- " + text
    case Gap => ""
    case Paragraph(text) => text
  }

  function CodeLines(code: string): seq<string> {
    if code == "" then [] else Split('\n', code)
  }

  function SourceLines(b: Block<string>): seq<string> {
    if b.Pre? then ["```"] + CodeLines(b.code) + ["```"] else [SourceLine(b)]
  }

  function SourceOf(bs: seq<Block<string>>): seq<string> {
    if bs == [] then [] else SourceLines(bs[0]) + SourceOf(bs[1..])
  }

  /** Read again, the lines of the block show the block. */
  ghost predicate Stable(b: Block<string>) {
    if b.Pre? then forall i :: 0 <= i < |CodeLines(b.code)| ==> !Fence(CodeLines(b.code)[i])
    else !Fence(SourceLine(b)) && Free('\n', SourceLine(b)) && LineBlock(SourceLine(b)) == b
  }

  lemma LineIsStable(raw: string)
    requires !Fence(raw) && Free('\n', raw)
    ensures !LineBlock(raw).Pre? && Stable(LineBlock(raw))
  {
    hide Space;
    var b := LineBlock(raw);
    if b.Heading? {
      assert SourceLine(b) == raw;
    } else if b.Item? {
      assert SourceLine(b)[0] == '-' && SourceLine(b)[2..] == b.body;
    }
  }

  lemma CodeIsStable(lines: seq<string>)
    requires forall i :: 0 <= i < |lines| ==> !Fence(lines[i]) && Free('\n', lines[i])
    ensures Stable(Pre(JoinLines(lines)))
  {
    if lines != [] {
      JoinSplits('\n', lines);
    }
  }

  lemma {:induction false} DocumentIsStable(lines: seq<string>)
    requires forall i :: 0 <= i < |lines| ==> Free('\n', lines[i])
    ensures forall i :: 0 <= i < |Document(lines)| ==> Stable(Document(lines)[i])
    decreases |lines|
  {
    hide Stable, LineBlock, Inside;
    var f := FirstFence(lines);
    forall i | 0 <= i < f
      ensures Stable(LineBlock(lines[i]))
    {
      LineIsStable(lines[i]);
    }
    if f < |lines| {
      InsideIsStable(lines[f + 1..]);
    }
  }

  lemma {:induction false} InsideIsStable(lines: seq<string>)
    requires forall i :: 0 <= i < |lines| ==> Free('\n', lines[i])
    ensures forall i :: 0 <= i < |Inside([], lines)| ==> Stable(Inside([], lines)[i])
    decreases |lines|
  {
    hide Stable, LineBlock, JoinLines, Document;
    var f := FirstFence(lines);
    assert [] + lines[..f] == lines[..f];
    CodeIsStable(lines[..f]);
    if f < |lines| {
      DocumentIsStable(lines[f + 1..]);
    }
  }

  lemma {:induction false} CodeAgain(buffer: seq<string>, code: seq<string>, rest: seq<string>)
    requires forall i :: 0 <= i < |code| ==> !Fence(code[i])
    ensures Inside(buffer, code + ["```"] + rest) == [Pre(JoinLines(buffer + code))] + Document(rest)
    decreases |code|
  {
    hide Document, Inside, JoinLines;
    var lines := code + ["```"] + rest;
    InsideStep(buffer, lines);
    if code == [] {
      assert lines[1..] == rest && buffer + code == buffer;
    } else {
      assert lines[1..] == code[1..] + ["```"] + rest;
      assert buffer + [code[0]] + code[1..] == buffer + code;
      CodeAgain(buffer + [code[0]], code[1..], rest);
    }
  }

  lemma {:induction false} StableBlocksReadBack(bs: seq<Block<string>>)
    requires forall i :: 0 <= i < |bs| ==> Stable(bs[i])
    ensures Document(SourceOf(bs)) == bs
    decreases |bs|
  {
    hide Document, Stable, SourceLines, Inside;
    AtEnd([]);
    if bs != [] {
      StableBlocksReadBack(bs[1..]);
      BlockReadsBack(bs[0], SourceOf(bs[1..]));
    }
  }

  lemma BlockReadsBack(b: Block<string>, rest: seq<string>)
    requires Stable(b)
    ensures Document(SourceLines(b) + rest) == [b] + Document(rest)
  {
    hide Document, Inside, LineBlock, JoinLines, CodeLines, SourceLine, Fence;
    var lines := SourceLines(b) + rest;
    DocumentStep(lines);
    if b.Pre? {
      var code := CodeLines(b.code);
      FenceIsFence();
      assert lines[0] == "```" && lines[1..] == code + ["```"] + rest;
      CodeAgain([], code, rest);
      assert [] + code == code;
      CodeReadsBack(b.code);
    } else {
      assert lines[0] == SourceLine(b) && lines[1..] == rest;
    }
  }

  lemma FenceIsFence()
    ensures Fence("```")
  {}

  lemma CodeReadsBack(code: string)
    ensures JoinLines(CodeLines(code)) == code
  {
    SplitJoins('\n', code);
  }

  /** Written back with plain markers, closed fences and empty blank lines, the document shows the same elements. */
  lemma DocumentReadsBack(lines: seq<string>)
    requires forall i :: 0 <= i < |lines| ==> Free('\n', lines[i])
    ensures Document(SourceOf(Document(lines))) == Document(lines)
  {
    DocumentIsStable(lines);
    StableBlocksReadBack(Document(lines));
  }

  // ---------- The text written back ----------

  lemma {:induction false} JoinIsBlank(parts: seq<string>)
    requires parts != []
    ensures Blank(Join('\n', parts)) <==> forall i :: 0 <= i < |parts| ==> Blank(parts[i])
    decreases |parts|
  {
    hide Space;
    var n := |parts| - 1;
    if n > 0 {
      var front := Join('\n', parts[..n]);
      JoinIsBlank(parts[..n]);
      NewlineIsSpace();
      BlankParts(front, parts[n]);
    }
  }

  lemma NewlineIsSpace()
    ensures Space('\n')
  {}

  lemma BlankParts(a: string, b: string)
    requires Space('\n')
    ensures Blank(a + ['\n'] + b) <==> Blank(a) && Blank(b)
  {
    hide Space;
    var s := a + ['\n'] + b;
    assert forall i :: 0 <= i < |a| ==> s[i] == a[i];
    assert forall i :: 0 <= i < |b| ==> s[|a| + 1 + i] == b[i];
  }

  lemma BlankLineIsGap(raw: string)
    ensures Blank(raw) <==> !Fence(raw) && LineBlock(raw) == Gap
  {
    if Blank(raw) && raw != "" {
      assert Space(raw[0]);
    }
  }

  /** The placeholder takes the place of a document that would show nothing but gaps. */
  lemma BlankIffOnlyGaps(content: string)
    ensures Blank(content) <==> forall b :: b in Document(Split('\n', content)) ==> b.Gap?
  {
    hide Blank, Fence, LineBlock, JoinLines, Split, Inside;
    var lines := Split('\n', content);
    SplitJoins('\n', content);
    JoinIsBlank(lines);
    forall i | 0 <= i < |lines|
      ensures Blank(lines[i]) <==> !Fence(lines[i]) && LineBlock(lines[i]) == Gap
    {
      BlankLineIsGap(lines[i]);
    }
    var f := FirstFence(lines);
    if f < |lines| {
      assert Fence(lines[f]) && !Blank(lines[f]);
      CodeIsThere([], lines[f + 1..]);
      var code := Inside([], lines[f + 1..]);
      assert code[0] in code;
      assert Document(lines) == Shown(lines[..f]) + code;
      assert code[0] in Document(lines) && !code[0].Gap?;
    } else {
      assert Document(lines) == Shown(lines);
      forall i | 0 <= i < |lines|
        ensures LineBlock(lines[i]) in Document(lines)
      {
        assert Shown(lines)[i] == LineBlock(lines[i]);
      }
    }
  }

  lemma CodeIsThere(buffer: seq<string>, lines: seq<string>)
    ensures Inside(buffer, lines) != [] && Inside(buffer, lines)[0].Pre?
  {}

  lemma {:induction false} SourceIsFree(bs: seq<Block<string>>)
    requires forall i :: 0 <= i < |bs| ==> Stable(bs[i])
    ensures forall i :: 0 <= i < |SourceOf(bs)| ==> Free('\n', SourceOf(bs)[i])
    decreases |bs|
  {
    hide Stable, SourceLines;
    if bs != [] {
      LinesAreFree(bs[0]);
      SourceIsFree(bs[1..]);
    }
  }

  lemma LinesAreFree(b: Block<string>)
    requires Stable(b)
    ensures forall i :: 0 <= i < |SourceLines(b)| ==> Free('\n', SourceLines(b)[i])
  {
    hide Fence, LineBlock, SourceLine, Split;
    if b.Pre? {
      SplitJoins('\n', b.code);
    }
  }

  /** Writing a shown document back as text and showing it again changes nothing. */
  lemma PreviewReadsBack(content: string)
    requires !Blank(content)
    ensures var shown := Document(Split('\n', content));
      SourceOf(shown) != []
      && !Blank(Join('\n', SourceOf(shown)))
      && Document(Split('\n', Join('\n', SourceOf(shown)))) == shown
  {
    hide Document, Split, Join, SourceOf, Blank;
    var lines := Split('\n', content);
    var shown := Document(lines);
    SplitJoins('\n', content);
    DocumentIsStable(lines);
    DocumentReadsBack(lines);
    SourceIsFree(shown);
    BlankIffOnlyGaps(content);
    NothingWritten(shown);
    JoinSplits('\n', SourceOf(shown));
    BlankIffOnlyGaps(Join('\n', SourceOf(shown)));
  }

  lemma NothingWritten(bs: seq<Block<string>>)
    ensures SourceOf(bs) == [] <==> bs == []
  {}

  // ---------- Code ----------

  function Fences(lines: seq<string>): nat {
    if lines == [] then 0 else (if Fence(lines[0]) then 1 else 0) + Fences(lines[1..])
  }

  function CodeBlocks(bs: seq<Block<string>>): nat {
    if bs == [] then 0 else (if bs[0].Pre? then 1 else 0) + CodeBlocks(bs[1..])
  }

  lemma OneBlockMore(b: Block<string>, bs: seq<Block<string>>)
    ensures CodeBlocks([b] + bs) == (if b.Pre? then 1 else 0) + CodeBlocks(bs)
  {
    assert ([b] + bs)[1..] == bs;
  }

  /** Two fences make one code element, and one more fence opens code that ends with the document. */
  lemma {:induction false} FencesPairUp(buffer: seq<string>, lines: seq<string>)
    ensures CodeBlocks(Document(lines)) == (Fences(lines) + 1) / 2
    ensures CodeBlocks(Inside(buffer, lines)) == Fences(lines) / 2 + 1
    decreases |lines|
  {
    hide Document, Inside, Fence, CodeBlocks, JoinLines;
    AtEnd(buffer);
    var last: Block<string> := Pre(JoinLines(buffer));
    OneBlockMore(last, []);
    assert [last] + [] == [last];
    NoBlocks();
    if lines != [] {
      DocumentStep(lines);
      InsideStep(buffer, lines);
      FencesPairUp([], lines[1..]);
      FencesPairUp(buffer + [lines[0]], lines[1..]);
      OneBlockMore(last, Document(lines[1..]));
      OneBlockMore(LineBlock(lines[0]), Document(lines[1..]));
    }
  }

  lemma NoBlocks()
    ensures CodeBlocks([]) == 0
  {}
}
