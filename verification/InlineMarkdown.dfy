/**
 The inline tokenizer of the markdown preview. It runs the global pattern
   \*\*(.+?)\*\*  |  \*(.+?)\*  |  `([^`]+)`  |  \[\[([^\]]+)\]\]
 over a text and cuts it into plain and styled pieces. Characters stand for the UTF-16 code units of the source.
 */
module InlineMarkdown {
  import opened Wrappers

  /** The four alternatives, in the order in which the pattern tries them. */
  datatype Style = Bold | Italic | Code | Mention {
    function Rank(): nat {
      match this case Bold => 0 case Italic => 1 case Code => 2 case Mention => 3
    }
  }

  datatype Piece = Plain(text: string) | Styled(style: Style, inner: string)

  function Open(s: Style): string {
    match s case Bold => "**" case Italic => "*" case Code => "`" case Mention => "[["
  }

  function Close(s: Style): string {
    match s case Bold => "**" case Italic => "*" case Code => "`" case Mention => "]]"
  }

  /** Characters the group of the alternative may hold: `.` stops at line terminators, the classes at their delimiter. */
  predicate Allowed(s: Style, c: char) {
    match s
    case Bold => !LineTerminator(c)
    case Italic => !LineTerminator(c)
    case Code => c != '`'
    case Mention => c != ']'
  }

  predicate LineTerminator(c: char) {
    c == '\n' || c == '\r' || c == '\U{2028}' || c == '\U{2029}'
  }

  // ---------- The pattern ----------

  /** The alternative `s` can match `text[i..j]`. */
  ghost predicate Matches(text: string, s: Style, i: nat, j: nat) {
    && i + |Open(s)| + 1 + |Close(s)| <= j <= |text|
    && text[i..i + |Open(s)|] == Open(s)
    && text[j - |Close(s)|..j] == Close(s)
    && forall k :: i + |Open(s)| <= k < j - |Close(s)| ==> Allowed(s, text[k])
  }

  /** Among the matches at `i`: the first alternative that can match, and for it the shortest match. */
  ghost predicate Chosen(text: string, s: Style, i: nat, j: nat) {
    && Matches(text, s, i, j)
    && (forall j': nat :: j' < j ==> !Matches(text, s, i, j'))
    && (forall s': Style, j': nat :: s'.Rank() < s.Rank() ==> !Matches(text, s', i, j'))
  }

  ghost predicate NoMatchAt(text: string, i: nat) {
    forall s: Style, j: nat :: !Matches(text, s, i, j)
  }

  /** The groups of `Code` and `Mention` are greedy in the source, but only one match is possible at a position. */
  lemma GreedyIsShortest(text: string, s: Style, i: nat, j: nat, j': nat)
    requires s.Code? || s.Mention?
    requires Matches(text, s, i, j) && Matches(text, s, i, j')
    ensures j == j'
  {
    var e := if j <= j' then j - |Close(s)| else j' - |Close(s)|;
    assert text[e..e + |Close(s)|][0] == text[e] == Close(s)[0];
  }

  // ---------- One run of the pattern ----------

  datatype Match = Match(style: Style, index: nat, end: nat)

  function Inner(text: string, m: Match): string
    requires m.index + |Open(m.style)| + |Close(m.style)| <= m.end <= |text|
  {
    text[m.index + |Open(m.style)|..m.end - |Close(m.style)|]
  }

  /** One alternative at one position: the lazy group grows until its closing delimiter follows. */
  method TryAlternative(text: string, s: Style, i: nat) returns (end: Option<nat>)
    requires i <= |text|
    ensures end.None? ==> forall j: nat :: !Matches(text, s, i, j)
    ensures end.Some? ==> Matches(text, s, i, end.value) && forall j: nat :: j < end.value ==> !Matches(text, s, i, j)
  {
    hide Matches, NotClosedBy;
    var start := i + |Open(s)|;
    assert start <= |text| ==> NotClosedBy(text, s, i, start) by { NothingOpened(text, s, i); }
    if start > |text| || text[i..start] != Open(s) {
      NotOpened(text, s, i);
      return None;
    }
    var e := start;
    while e < |text| && Allowed(s, text[e])
      invariant start <= e <= |text|
      invariant forall k :: start <= k < e ==> Allowed(s, text[k])
      invariant NotClosedBy(text, s, i, e)
    {
      e := e + 1;
      var j := e + |Close(s)|;
      CloseStep(text, s, i, e);
      if j <= |text| && text[e..j] == Close(s) {
        return Some(j);
      }
    }
    StuckIsOver(text, s, i, e);
    return None;
  }

  /** The group does not end at or before `e`. */
  ghost predicate NotClosedBy(text: string, s: Style, i: nat, e: nat) {
    forall j: nat :: j <= e + |Close(s)| ==> !Matches(text, s, i, j)
  }

  lemma NothingOpened(text: string, s: Style, i: nat)
    ensures NotClosedBy(text, s, i, i + |Open(s)|)
  {}

  lemma NotOpened(text: string, s: Style, i: nat)
    requires i + |Open(s)| > |text| || text[i..i + |Open(s)|] != Open(s)
    ensures forall j: nat :: !Matches(text, s, i, j)
  {}

  /** The group can end at `e` exactly when the closing delimiter follows. */
  lemma CloseStep(text: string, s: Style, i: nat, e: nat)
    requires i + |Open(s)| < e <= |text| && text[i..i + |Open(s)|] == Open(s)
    requires forall k :: i + |Open(s)| <= k < e ==> Allowed(s, text[k])
    requires NotClosedBy(text, s, i, e - 1)
    ensures if e + |Close(s)| <= |text| && text[e..e + |Close(s)|] == Close(s)
            then Matches(text, s, i, e + |Close(s)|) && forall j: nat :: j < e + |Close(s)| ==> !Matches(text, s, i, j)
            else NotClosedBy(text, s, i, e)
  {
    hide Allowed;
  }

  lemma StuckIsOver(text: string, s: Style, i: nat, e: nat)
    requires i + |Open(s)| <= e <= |text| && (e == |text| || !Allowed(s, text[e])) && NotClosedBy(text, s, i, e)
    ensures forall j: nat :: !Matches(text, s, i, j)
  {
    hide Allowed;
  }

  ghost predicate LeftmostFrom(text: string, from: nat, m: Match) {
    && from <= m.index
    && Chosen(text, m.style, m.index, m.end)
    && forall i: nat :: from <= i < m.index ==> NoMatchAt(text, i)
  }

  /** `regex.exec` with `lastIndex` at `from`. */
  method Exec(text: string, from: nat) returns (m: Option<Match>)
    requires from <= |text|
    ensures m.None? ==> forall i: nat :: from <= i ==> NoMatchAt(text, i)
    ensures m.Some? ==> LeftmostFrom(text, from, m.value)
    ensures m.Some? ==> m.value.index + |Open(m.value.style)| + 1 + |Close(m.value.style)| <= m.value.end <= |text|
  {
    for i := from to |text|
      invariant forall k: nat :: from <= k < i ==> NoMatchAt(text, k)
    {
      var b := TryAlternative(text, Bold, i);
      if b.Some? { return Some(Match(Bold, i, b.value)); }
      var t := TryAlternative(text, Italic, i);
      if t.Some? { return Some(Match(Italic, i, t.value)); }
      var c := TryAlternative(text, Code, i);
      if c.Some? { return Some(Match(Code, i, c.value)); }
      var n := TryAlternative(text, Mention, i);
      if n.Some? { return Some(Match(Mention, i, n.value)); }
    }
    return None;
  }

  // ---------- The pieces of a text ----------

  /** The text of a piece with its delimiters put back. */
  function Source(p: Piece): string {
    match p
    case Plain(t) => t
    case Styled(s, inner) => Open(s) + inner + Close(s)
  }

  function Sources(ps: seq<Piece>): string {
    if ps == [] then "" else Source(ps[0]) + Sources(ps[1..])
  }

  /** `p` is the piece at `from`: a stretch in which no match starts, or the match chosen there. */
  ghost predicate IsPiece(text: string, from: nat, p: Piece) {
    var end := from + |Source(p)|;
    && from < end <= |text|
    && text[from..end] == Source(p)
    && match p
       case Plain(_) => forall i: nat :: from <= i < end ==> NoMatchAt(text, i)
       case Styled(s, _) => Chosen(text, s, from, end)
  }

  /** `ps` cuts `text[from..to]` into such pieces; a plain piece ends where a match begins or the cut ends. */
  ghost predicate Cuts(text: string, from: nat, to: nat, ps: seq<Piece>)
    decreases |ps|
  {
    if ps == [] then from == to
    else
      && IsPiece(text, from, ps[0])
      && (|ps| > 1 && ps[0].Plain? ==> ps[1].Styled?)
      && Cuts(text, from + |Source(ps[0])|, to, ps[1..])
  }

  /** Putting the delimiters back around the pieces gives the text again. */
  lemma {:induction false} CutsRestore(text: string, from: nat, to: nat, ps: seq<Piece>)
    requires from <= |text| && Cuts(text, from, to, ps)
    ensures from <= to <= |text| && Sources(ps) == text[from..to]
    decreases |ps|
  {
    hide IsPiece;
    if ps != [] {
      var next := from + |Source(ps[0])|;
      PieceInText(text, from, ps[0]);
      CutsRestore(text, next, to, ps[1..]);
      Glue(text, from, next, to);
    }
  }

  lemma Glue(text: string, a: nat, b: nat, c: nat)
    requires a <= b <= c <= |text|
    ensures text[a..b] + text[b..c] == text[a..c]
  {}

  // ---------- The cut is determined by the text ----------

  lemma ChosenIsUnique(text: string, s: Style, i: nat, j: nat, s': Style, j': nat)
    requires Chosen(text, s, i, j) && Chosen(text, s', i, j')
    ensures s == s' && j == j'
  {
    assert s.Rank() == s'.Rank();
  }

  /** A text has at most one piece of its kind at a position. */
  lemma SameStyled(text: string, from: nat, p: Piece, q: Piece)
    requires IsPiece(text, from, p) && IsPiece(text, from, q) && p.Styled? && q.Styled?
    ensures p == q
  {
    hide Chosen, Source;
    ChosenIsUnique(text, p.style, from, from + |Source(p)|, q.style, from + |Source(q)|);
    SameInner(p, q);
  }

  lemma SameInner(p: Piece, q: Piece)
    requires p.Styled? && q.Styled? && p.style == q.style && Source(p) == Source(q)
    ensures p == q
  {
    assert p.inner == Source(p)[|Open(p.style)|..|Source(p)| - |Close(p.style)|];
    assert q.inner == Source(q)[|Open(q.style)|..|Source(q)| - |Close(q.style)|];
  }

  lemma NoPlainWhereStyled(text: string, from: nat, p: Piece, at: nat, q: Piece)
    requires IsPiece(text, from, p) && p.Plain? && IsPiece(text, at, q) && q.Styled?
    ensures !(from <= at < from + |Source(p)|)
  {
    assert from <= at < from + |Source(p)| ==> NoMatchAt(text, at);
  }

  /** There is only one way to cut a text. */
  lemma {:induction false} CutsAreUnique(text: string, from: nat, ps: seq<Piece>, qs: seq<Piece>)
    requires from <= |text| && Cuts(text, from, |text|, ps) && Cuts(text, from, |text|, qs)
    ensures ps == qs
    decreases |ps|
  {
    hide IsPiece, Source;
    if ps == [] {
      if qs != [] { PieceInText(text, from, qs[0]); }
    } else {
      PieceInText(text, from, ps[0]);
      if qs != [] {
        SameFirst(text, from, ps, qs);
        CutsAreUnique(text, from + |Source(ps[0])|, ps[1..], qs[1..]);
      }
    }
  }

  lemma PieceInText(text: string, from: nat, p: Piece)
    requires IsPiece(text, from, p)
    ensures from < from + |Source(p)| <= |text| && text[from..from + |Source(p)|] == Source(p)
  {}

  lemma SameFirst(text: string, from: nat, ps: seq<Piece>, qs: seq<Piece>)
    requires Cuts(text, from, |text|, ps) && Cuts(text, from, |text|, qs) && ps != [] && qs != []
    ensures ps[0] == qs[0]
  {
    hide IsPiece;
    PieceInText(text, from, ps[0]);
    PieceInText(text, from, qs[0]);
    if ps[0].Styled? && qs[0].Styled? {
      SameStyled(text, from, ps[0], qs[0]);
    } else if ps[0].Plain? && qs[0].Plain? {
      PlainIsMaximal(text, from, ps, qs);
      PlainIsMaximal(text, from, qs, ps);
      SamePlain(text, from, ps[0], qs[0]);
    } else if ps[0].Plain? {
      NoPlainWhereStyled(text, from, ps[0], from, qs[0]);
    } else {
      NoPlainWhereStyled(text, from, qs[0], from, ps[0]);
    }
  }

  lemma SamePlain(text: string, from: nat, p: Piece, q: Piece)
    requires IsPiece(text, from, p) && IsPiece(text, from, q) && p.Plain? && q.Plain?
    requires |Source(p)| == |Source(q)|
    ensures p == q
  {}

  /** A plain piece ends where the text ends or where a match begins. */
  lemma PlainIsMaximal(text: string, from: nat, ps: seq<Piece>, qs: seq<Piece>)
    requires Cuts(text, from, |text|, ps) && Cuts(text, from, |text|, qs) && ps != [] && qs != []
    requires ps[0].Plain? && qs[0].Plain?
    ensures |Source(ps[0])| >= |Source(qs[0])|
  {
    hide IsPiece;
    var next := from + |Source(ps[0])|;
    PieceInText(text, from, ps[0]);
    PieceInText(text, from, qs[0]);
    if |ps| > 1 {
      assert IsPiece(text, next, ps[1..][0]);
      NoPlainWhereStyled(text, from, qs[0], next, ps[1]);
    }
  }

  // ---------- A plain piece on its own ----------

  /** A match inside a slice of the text is a match of the text. */
  lemma MatchOfSlice(text: string, lo: nat, hi: nat, s: Style, i: nat, j: nat)
    requires lo <= hi <= |text| && Matches(text[lo..hi], s, i, j)
    ensures Matches(text, s, lo + i, lo + j)
  {
    var t := text[lo..hi];
    SliceOfSlice(text, lo, hi, i, i + |Open(s)|);
    SliceOfSlice(text, lo, hi, j - |Close(s)|, j);
    forall k | lo + i + |Open(s)| <= k < lo + j - |Close(s)| ensures Allowed(s, text[k]) {
      assert Allowed(s, t[k - lo]);
    }
  }

  lemma SliceOfSlice(text: string, lo: nat, hi: nat, a: nat, b: nat)
    requires lo <= hi <= |text| && a <= b <= hi - lo
    ensures text[lo..hi][a..b] == text[lo + a..lo + b]
  {
    forall k | 0 <= k < b - a ensures text[lo..hi][a..b][k] == text[lo + a..lo + b][k] {
      assert text[lo..hi][a + k] == text[lo + a + k];
    }
  }

  lemma PlainAlone(text: string, from: nat, p: Piece)
    requires IsPiece(text, from, p) && p.Plain?
    ensures Cuts(p.text, 0, |p.text|, [p])
  {
    var t := p.text;
    forall i: nat | i < |t| ensures NoMatchAt(t, i) {
      assert NoMatchAt(text, from + i);
      forall s: Style, j: nat ensures !Matches(t, s, i, j) {
        if Matches(t, s, i, j) {
          MatchOfSlice(text, from, from + |t|, s, i, j);
        }
      }
    }
    assert IsPiece(t, 0, p) by { assert t[0..|t|] == t; }
    assert Cuts(t, |t|, |t|, [p][1..]);
  }

  /** Rendering a plain piece again leaves it as it is. */
  lemma {:induction false} PlainIsInert(text: string, from: nat, to: nat, ps: seq<Piece>, k: nat)
    requires Cuts(text, from, to, ps) && k < |ps| && ps[k].Plain?
    ensures Cuts(ps[k].text, 0, |ps[k].text|, [ps[k]])
    decreases k
  {
    hide IsPiece, Source;
    if k > 0 {
      assert ps[1..][k - 1] == ps[k];
      PlainIsInert(text, from + |Source(ps[0])|, to, ps[1..], k - 1);
    } else {
      PlainAlone(text, from, ps[0]);
    }
  }

  // ---------- The function ----------

  lemma {:induction false} CutsAppend(text: string, from: nat, mid: nat, ps: seq<Piece>, p: Piece)
    requires Cuts(text, from, mid, ps) && IsPiece(text, mid, p)
    requires ps != [] && ps[|ps| - 1].Plain? ==> p.Styled?
    ensures Cuts(text, from, mid + |Source(p)|, ps + [p])
    decreases |ps|
  {
    hide IsPiece, Source;
    if ps == [] {
      assert Cuts(text, mid + |Source(p)|, mid + |Source(p)|, []);
      assert ps + [p] == [p] && [p][1..] == [];
    } else {
      CutsAppend(text, from + |Source(ps[0])|, mid, ps[1..], p);
      assert (ps + [p])[1..] == ps[1..] + [p];
    }
  }

  method RenderInline(text: string) returns (nodes: seq<Piece>)
    ensures Cuts(text, 0, |text|, nodes)
    ensures Sources(nodes) == text
  {
    hide Cuts, IsPiece, NoMatchAt, Source, Matches;
    nodes := [];
    assert Cuts(text, 0, 0, []) by { NothingCut(text); }
    var last := 0;
    var m := Exec(text, last);
    while m.Some?
      invariant last <= |text|
      invariant Cuts(text, 0, last, nodes)
      invariant nodes != [] ==> nodes[|nodes| - 1].Styled?
      invariant m.None? ==> forall i: nat :: last <= i ==> NoMatchAt(text, i)
      invariant m.Some? ==> LeftmostFrom(text, last, m.value)
      invariant m.Some? ==> m.value.index + |Open(m.value.style)| + 1 + |Close(m.value.style)| <= m.value.end <= |text|
      decreases |text| - last, m.Some?
    {
      var at := m.value;
      if at.index > last {
        PlainPiece(text, last, at.index);
        CutsAppend(text, 0, last, nodes, Plain(text[last..at.index]));
        nodes := nodes + [Plain(text[last..at.index])];
      }
      StyledPiece(text, at);
      CutsAppend(text, 0, at.index, nodes, Styled(at.style, Inner(text, at)));
      nodes := nodes + [Styled(at.style, Inner(text, at))];
      last := at.end;
      m := Exec(text, last);
    }
    if last < |text| {
      PlainPiece(text, last, |text|);
      CutsAppend(text, 0, last, nodes, Plain(text[last..|text|]));
      assert text[last..] == text[last..|text|];
      nodes := nodes + [Plain(text[last..])];
    }
    CutsRestore(text, 0, |text|, nodes);
    assert text[0..|text|] == text;
  }

  lemma NothingCut(text: string)
    ensures Cuts(text, 0, 0, [])
  {}

  lemma PlainPiece(text: string, last: nat, to: nat)
    requires last < to <= |text|
    requires forall i: nat :: last <= i < to ==> NoMatchAt(text, i)
    ensures IsPiece(text, last, Plain(text[last..to])) && |Source(Plain(text[last..to]))| == to - last
  {}

  lemma StyledPiece(text: string, m: Match)
    requires Chosen(text, m.style, m.index, m.end)
    ensures IsPiece(text, m.index, Styled(m.style, Inner(text, m)))
    ensures m.index + |Source(Styled(m.style, Inner(text, m)))| == m.end
  {
    hide Chosen, Source;
    StyledSource(text, m);
  }

  lemma StyledSource(text: string, m: Match)
    requires Chosen(text, m.style, m.index, m.end)
    ensures m.index < m.end <= |text| && Source(Styled(m.style, Inner(text, m))) == text[m.index..m.end]
  {
    hide *;
    ChosenMatches(text, m.style, m.index, m.end);
    var a, b := m.index + |Open(m.style)|, m.end - |Close(m.style)|;
    ThreeParts(text, m.index, a, b, m.end);
    InnerIsGroup(text, m, a, b);
  }

  lemma InnerIsGroup(text: string, m: Match, a: nat, b: nat)
    requires m.index + |Open(m.style)| == a <= b == m.end - |Close(m.style)| && m.end <= |text|
    ensures Source(Styled(m.style, Inner(text, m))) == Open(m.style) + text[a..b] + Close(m.style)
  {
    hide Open, Close;
  }

  lemma ThreeParts(text: string, i: nat, a: nat, b: nat, j: nat)
    requires i <= a <= b <= j <= |text|
    ensures text[i..a] + text[a..b] + text[b..j] == text[i..j]
  {}

  lemma ChosenMatches(text: string, s: Style, i: nat, j: nat)
    requires Chosen(text, s, i, j)
    ensures i + |Open(s)| + 1 + |Close(s)| <= j <= |text|
    ensures text[i..i + |Open(s)|] == Open(s) && text[j - |Close(s)|..j] == Close(s)
  {}
}
