/** Wrapping UTF-8 text to display columns. */
module TextWrap {

  type Octet = bv8

  const SPACE: Octet := 0x20
  const NEWLINE: Octet := 0x0A

  /** The length a lead byte announces; one for bytes that lead nothing. LeadAnnounces relates it to the encoding. */
  function CharLen(c: Octet): (n: nat)
    ensures 1 <= n <= 4
  {
    if c < 0x80 then 1
    else if c & 0xE0 == 0xC0 then 2
    else if c & 0xF0 == 0xE0 then 3
    else if c & 0xF8 == 0xF0 then 4
    else 1
  }

  function CharWidth(c: Octet): (w: nat)
    ensures 1 <= w <= 2
  {
    if c < 0x80 then 1 else 2
  }

  /** The start of the next character; a character cut off by the end counts as one byte. */
  function Next(text: seq<Octet>, i: nat): (j: nat)
    requires i < |text|
    ensures i < j <= |text|
  {
    var len := CharLen(text[i]);
    if i + len > |text| then i + 1 else i + len
  }

  /** Decoding from a reaches b: b is the start of a character, or the end. */
  predicate Reach(text: seq<Octet>, a: nat, b: nat)
    decreases b - a
  {
    a == b || (a < b && a < |text| && Reach(text, Next(text, a), b))
  }

  /** The columns of the characters from a up to b. */
  function Columns(text: seq<Octet>, a: nat, b: nat): nat
    requires b <= |text|
    decreases b - a
  {
    if a >= b then 0 else CharWidth(text[a]) + Columns(text, Next(text, a), b)
  }

  method DisplayWidth(s: seq<Octet>) returns (width: nat)
    ensures width == Columns(s, 0, |s|)
  {
    width := 0;
    var i := 0;
    while i < |s|
      invariant i <= |s| && width + Columns(s, i, |s|) == Columns(s, 0, |s|)
    {
      width := width + CharWidth(s[i]);
      i := Next(s, i);
    }
  }

  // ---- Decoding ----

  lemma {:induction false} ReachNext(text: seq<Octet>, a: nat, i: nat)
    requires Reach(text, a, i) && i < |text|
    ensures a <= i && Reach(text, a, Next(text, i))
    ensures Columns(text, a, Next(text, i)) == Columns(text, a, i) + CharWidth(text[i])
    decreases i - a
  {
    if a == i {
      assert Reach(text, Next(text, i), Next(text, i));
    } else {
      ReachNext(text, Next(text, a), i);
    }
  }

  lemma {:induction false} ReachTrans(text: seq<Octet>, a: nat, b: nat, c: nat)
    requires Reach(text, a, b) && Reach(text, b, c)
    ensures Reach(text, a, c) && a <= b <= c
    decreases b - a
  {
    if a != b {
      ReachTrans(text, Next(text, a), b, c);
    } else {
      ReachUp(text, b, c);
    }
  }

  lemma {:induction false} ReachUp(text: seq<Octet>, a: nat, b: nat)
    requires Reach(text, a, b)
    ensures a <= b
    decreases b - a
  {
    if a != b {
      ReachUp(text, Next(text, a), b);
    }
  }

  /** Two starts on one decoding: the later is reached from the earlier, and the columns add up. */
  lemma {:induction false} ReachBetween(text: seq<Octet>, a: nat, b: nat, c: nat)
    requires Reach(text, a, b) && Reach(text, a, c) && b <= c <= |text|
    ensures Reach(text, b, c) && Columns(text, a, c) == Columns(text, a, b) + Columns(text, b, c)
    decreases b - a
  {
    ReachUp(text, a, b);
    if a != b {
      ReachBetween(text, Next(text, a), b, c);
    }
  }

  /** The columns of a piece cut at character starts are its own display width. */
  lemma {:induction false} PieceWidth(text: seq<Octet>, a: nat, b: nat, i: nat)
    requires a <= i <= b <= |text| && Reach(text, i, b)
    ensures Columns(text[a..b], i - a, b - a) == Columns(text, i, b)
    decreases b - i
  {
    if i < b {
      ReachUp(text, Next(text, i), b);
      assert Next(text[a..b], i - a) == Next(text, i) - a;
      PieceWidth(text, a, b, Next(text, i));
    }
  }

  // ---- Encoded text ----

  type CodePoint = c: bv32 | c < 0x11_0000 witness 0

  /** UTF-8 as in section 3 of RFC 3629. */
  function Encode(c: CodePoint): (bytes: seq<Octet>)
    ensures 1 <= |bytes| <= 4
  {
    if c < 0x80 then [c as Octet]
    else if c < 0x800 then [(0xC0 | (c >> 6)) as Octet, Continuation(c)]
    else if c < 0x1_0000 then [(0xE0 | (c >> 12)) as Octet, Continuation(c >> 6), Continuation(c)]
    else [(0xF0 | (c >> 18)) as Octet, Continuation(c >> 12), Continuation(c >> 6), Continuation(c)]
  }

  function Continuation(c: bv32): Octet {
    (0x80 | (c & 0x3F)) as Octet
  }

  function EncodeAll(cs: seq<CodePoint>): seq<Octet> {
    if cs == [] then [] else Encode(cs[0]) + EncodeAll(cs[1..])
  }

  /** The columns of a code point: one for ASCII, two for the others. */
  function WidthOf(cs: seq<CodePoint>): nat {
    if cs == [] then 0 else (if cs[0] < 0x80 then 1 else 2) + WidthOf(cs[1..])
  }

  /** The lead byte of an encoded code point announces its length, and tells ASCII from the rest. */
  lemma LeadAnnounces(c: CodePoint)
    ensures CharLen(Encode(c)[0]) == |Encode(c)|
    ensures CharWidth(Encode(c)[0]) == if c < 0x80 then 1 else 2
  {
  }

  lemma NextOfEncoded(before: seq<Octet>, c: CodePoint, rest: seq<Octet>)
    ensures Next(before + Encode(c) + rest, |before|) == |before| + |Encode(c)|
    ensures CharWidth((before + Encode(c) + rest)[|before|]) == if c < 0x80 then 1 else 2
  {
    LeadAnnounces(c);
    hide Encode, CharLen, CharWidth;
    assert (before + Encode(c) + rest)[|before|] == Encode(c)[0];
  }

  /** Main result: on encoded text the decoding by lead bytes reaches exactly the starts of the code points, and the
      display width is one column for every ASCII character and two for every other. */
  lemma {:induction false} EncodedStarts(before: seq<Octet>, cs: seq<CodePoint>, b: nat)
    ensures var text := before + EncodeAll(cs);
      && (b <= |text| ==> (Reach(text, |before|, b) <==> exists k :: 0 <= k <= |cs| && b == |before| + |EncodeAll(cs[..k])|))
      && Columns(text, |before|, |text|) == WidthOf(cs)
    decreases |cs|
  {
    var text := before + EncodeAll(cs);
    assert EncodeAll(cs[..0]) == [];
    if cs == [] {
      if b <= |text| && Reach(text, |before|, b) {
        ReachUp(text, |before|, b);
      }
    } else {
      var c, rest := cs[0], cs[1..];
      var after := before + Encode(c);
      assert text == after + EncodeAll(rest);
      EncodedStarts(after, rest, b);
      NextOfEncoded(before, c, EncodeAll(rest));
      hide Encode, CharLen, CharWidth;
      forall k | 0 < k <= |cs| ensures |EncodeAll(cs[..k])| == |Encode(c)| + |EncodeAll(rest[..k - 1])| {
        assert cs[..k][1..] == rest[..k - 1];
      }
      if k :| 0 <= k <= |rest| && b == |after| + |EncodeAll(rest[..k])| {
        assert b == |before| + |EncodeAll(cs[..k + 1])|;
      }
    }
  }

  // ---- Lines ----

  datatype Line = Line(start: nat, end: nat)

  function Widest(width: nat): nat {
    if width < 2 then 2 else width
  }

  /** The character at i does not fit on a line that starts at s. */
  predicate Overflows(text: seq<Octet>, width: nat, s: nat, i: nat)
    requires i < |text|
  {
    Columns(text, s, i) + CharWidth(text[i]) > width && i > s
  }

  /** No character from s up to i fails to fit. */
  ghost predicate AllFit(text: seq<Octet>, width: nat, s: nat, i: nat)
    requires i <= |text|
  {
    forall j :: s <= j < i && Reach(text, s, j) ==> !Overflows(text, width, s, j)
  }

  /** No character from a up to b, on the decoding from s, is a space. */
  ghost predicate NoSpace(text: seq<Octet>, s: nat, a: nat, b: nat)
    requires b <= |text|
  {
    forall j :: a <= j < b && Reach(text, s, j) ==> text[j] != SPACE
  }

  /** Where a line that starts at s and overflows at i is cut: at its last space, else at i. */
  ghost predicate CutFor(text: seq<Octet>, s: nat, i: nat, e: nat)
    requires i < |text|
  {
    s < e <= i && Reach(text, s, e) &&
    if text[e] == SPACE then NoSpace(text, s, e + 1, i + 1) else e == i && NoSpace(text, s, s + 1, i + 1)
  }

  /** A line that is not the last: full, and cut where it has to be. */
  ghost predicate FullLine(text: seq<Octet>, width: nat, l: Line) {
    exists i ::
      l.start < i < |text| && Reach(text, l.start, i) && Overflows(text, width, l.start, i) &&
      AllFit(text, width, l.start, i) && CutFor(text, l.start, i, l.end)
  }

  /** Where the next line starts: the space at which a line is cut is dropped. */
  function Resume(text: seq<Octet>, e: nat): nat {
    if e < |text| && text[e] == SPACE then e + 1 else e
  }

  ghost predicate LineFits(text: seq<Octet>, width: nat, l: Line) {
    l.start <= l.end <= |text| && Reach(text, 0, l.start) && Reach(text, l.start, l.end) &&
    Columns(text, l.start, l.end) <= Widest(width)
  }

  /** The lines before position at: full, in order from the beginning, each resuming after the previous. */
  ghost predicate Cut(text: seq<Octet>, width: nat, lines: seq<Line>, at: nat) {
    if lines == [] then at == 0
    else
      var l := lines[|lines| - 1];
      && LineFits(text, width, l) && FullLine(text, width, l) && at == Resume(text, l.end)
      && Cut(text, width, lines[..|lines| - 1], l.start)
  }

  /** Each line, with a line break and the indentation after it. */
  function Render(text: seq<Octet>, lines: seq<Line>, indent: nat): seq<Octet> {
    if lines == [] then []
    else
      var l := lines[|lines| - 1];
      Render(text, lines[..|lines| - 1], indent) +
      (if l.start <= l.end <= |text| then text[l.start..l.end] else []) + [NEWLINE] + seq(indent, k => SPACE)
  }

  /** The wrapped text: full lines and a last line, all within the width. */
  ghost predicate Wrapped(text: seq<Octet>, width: nat, indent: nat, out: seq<Octet>, lines: seq<Line>, last: nat) {
    && last <= |text| && Cut(text, width, lines, last)
    && LineFits(text, width, Line(last, |text|)) && AllFit(text, width, last, |text|)
    && out == Render(text, lines, indent) + text[last..]
  }

  /** Wrap to lines of at most width columns (2 for a width below 2); lines after the first are indented. */
  method WrapDisplayText(text: seq<Octet>, width: nat, indent: nat) returns (out: seq<Octet>)
    ensures exists lines, last :: Wrapped(text, width, indent, out, lines, last)
  {
    hide Cut, FullLine, LineFits, AllFit, Reach, Columns, Render, Overflows;
    out := [];
    var seg, i, col := 0, 0, 0;
    var lastSpace := -1;
    ghost var lines: seq<Line> := [];
    Beginning(text, width, 0);
    while i < |text|
      invariant seg <= i <= |text| && Cut(text, width, lines, seg) && out == Render(text, lines, indent)
      invariant Reach(text, 0, seg) && Reach(text, seg, i) && col == Columns(text, seg, i)
      invariant AllFit(text, width, seg, i) && col <= Widest(width)
      invariant SpaceBefore(text, seg, i, lastSpace)
      decreases |text| - seg, |text| - i
    {
      var c := text[i];
      var w := CharWidth(c);
      SpaceNow(text, seg, i, lastSpace);
      if c == SPACE {
        lastSpace := i;
      }
      hide SpaceBefore, SpaceSeen;
      OverflowIs(text, width, seg, i);
      if col + w > width && i > seg {
        var cut := i;
        if lastSpace != -1 && lastSpace > seg {
          cut := lastSpace;
        }
        CutIsFull(text, width, seg, i, lastSpace, cut);
        LineDone(text, width, lines, Line(seg, cut), indent);
        lines := lines + [Line(seg, cut)];
        out := out + text[seg..cut];
        out := out + [NEWLINE];
        out := out + seq(indent, k => SPACE);
        i := cut;
        if i < |text| && text[i] == SPACE {
          i := i + 1;
        }
        Beginning(text, width, i);
        seg := i;
        col := 0;
        lastSpace := -1;
      } else {
        ReachNext(text, seg, i);
        FitsNext(text, width, seg, i);
        NoSpaceNext(text, seg, i, lastSpace);
        FirstFits(text, seg);
        col := col + w;
        i := Next(text, i);
      }
    }
    LastLine(text, width, indent, lines, seg);
    out := out + text[seg..];
  }

  // ---- The steps of the loop ----

  lemma Beginning(text: seq<Octet>, width: nat, i: nat)
    ensures Cut(text, width, [], 0) && Reach(text, i, i) && forall indent: nat :: Render(text, [], indent) == []
    ensures i <= |text| ==> Columns(text, i, i) == 0 && AllFit(text, width, i, i) && SpaceBefore(text, i, i, -1)
  {
  }

  lemma OverflowIs(text: seq<Octet>, width: nat, s: nat, i: nat)
    requires i < |text|
    ensures Overflows(text, width, s, i) <==> Columns(text, s, i) + CharWidth(text[i]) > width && i > s
  {
  }

  lemma FirstFits(text: seq<Octet>, s: nat)
    requires s <= |text|
    ensures Columns(text, s, s) == 0
  {
  }

  /** A finished line joins the lines and the output; the next line starts on the decoding. */
  lemma LineDone(text: seq<Octet>, width: nat, lines: seq<Line>, l: Line, indent: nat)
    requires Cut(text, width, lines, l.start) && LineFits(text, width, l) && FullLine(text, width, l)
    ensures Cut(text, width, lines + [l], Resume(text, l.end))
    ensures Reach(text, 0, Resume(text, l.end)) && Resume(text, l.end) <= |text|
    ensures l.start <= l.end <= |text| && Render(text, lines + [l], indent) ==
      Render(text, lines, indent) + text[l.start..l.end] + [NEWLINE] + seq(indent, k => SPACE)
  {
    assert (lines + [l])[..|lines|] == lines;
    ReachTrans(text, 0, l.start, l.end);
    if Resume(text, l.end) != l.end {
      ReachNext(text, 0, l.end);
    }
  }

  lemma LastLine(text: seq<Octet>, width: nat, indent: nat, lines: seq<Line>, seg: nat)
    requires seg <= |text| && Cut(text, width, lines, seg) && Reach(text, 0, seg) && Reach(text, seg, |text|)
    requires AllFit(text, width, seg, |text|) && Columns(text, seg, |text|) <= Widest(width)
    ensures Wrapped(text, width, indent, Render(text, lines, indent) + text[seg..], lines, seg)
  {
  }

  /** The last space seen before i. */
  ghost predicate SpaceBefore(text: seq<Octet>, s: nat, i: nat, lastSpace: int)
    requires i <= |text|
  {
    && (lastSpace == -1 ==> NoSpace(text, s, s, i))
    && (lastSpace != -1 ==> s <= lastSpace < i && text[lastSpace] == SPACE && Reach(text, s, lastSpace) &&
                            NoSpace(text, s, lastSpace + 1, i))
  }

  lemma SpaceNow(text: seq<Octet>, s: nat, i: nat, lastSpace: int)
    requires s <= i < |text| && Reach(text, s, i) && SpaceBefore(text, s, i, lastSpace)
    ensures SpaceSeen(text, s, i, if text[i] == SPACE then i else lastSpace)
  {
  }

  lemma NextIsFirst(text: seq<Octet>, i: nat, j: nat)
    requires i < j && Reach(text, i, j)
    ensures i < |text| && Next(text, i) <= j
  {
    ReachUp(text, Next(text, i), j);
  }

  /** On one decoding nothing starts inside a character. */
  lemma NothingInside(text: seq<Octet>, s: nat, i: nat, j: nat)
    requires i < |text| && Reach(text, s, i) && Reach(text, s, j) && i < j <= |text|
    ensures Next(text, i) <= j
  {
    ReachBetween(text, s, i, j);
    NextIsFirst(text, i, j);
  }

  lemma FitsNext(text: seq<Octet>, width: nat, s: nat, i: nat)
    requires s <= i < |text| && Reach(text, s, i) && AllFit(text, width, s, i) && !Overflows(text, width, s, i)
    ensures AllFit(text, width, s, Next(text, i))
  {
    forall j | s <= j < Next(text, i) && Reach(text, s, j) ensures !Overflows(text, width, s, j) {
      if j > i {
        NothingInside(text, s, i, j);
      }
    }
  }

  /** The last space seen so far, once the character at i has been looked at. */
  ghost predicate SpaceSeen(text: seq<Octet>, s: nat, i: nat, lastSpace: int)
    requires i < |text|
  {
    && (lastSpace == -1 ==> NoSpace(text, s, s, i + 1))
    && (lastSpace != -1 ==> s <= lastSpace <= i && text[lastSpace] == SPACE && Reach(text, s, lastSpace) &&
                            NoSpace(text, s, lastSpace + 1, i + 1))
  }

  lemma NoSpaceNext(text: seq<Octet>, s: nat, i: nat, lastSpace: int)
    requires s <= i < |text| && Reach(text, s, i) && SpaceSeen(text, s, i, lastSpace)
    ensures SpaceBefore(text, s, Next(text, i), lastSpace)
  {
    var a := if lastSpace == -1 then s else lastSpace + 1;
    forall j | a <= j < Next(text, i) && Reach(text, s, j) ensures text[j] != SPACE {
      if j > i {
        NothingInside(text, s, i, j);
      }
    }
  }

  lemma CutIsFull(text: seq<Octet>, width: nat, s: nat, i: nat, lastSpace: int, cut: nat)
    requires s < i < |text| && Reach(text, 0, s) && Reach(text, s, i) && Overflows(text, width, s, i)
    requires AllFit(text, width, s, i) && Columns(text, s, i) <= Widest(width) && SpaceSeen(text, s, i, lastSpace)
    requires cut == if lastSpace != -1 && lastSpace > s then lastSpace else i
    ensures s < cut <= i && FullLine(text, width, Line(s, cut)) && LineFits(text, width, Line(s, cut))
  {
    ReachBetween(text, s, cut, i);
    assert CutFor(text, s, i, cut);
  }

  // ---- Nothing is lost ----

  /** The lines put together again, with the spaces that were dropped at the breaks. */
  function Rejoined(text: seq<Octet>, lines: seq<Line>): seq<Octet> {
    if lines == [] then []
    else
      var l := lines[|lines| - 1];
      Rejoined(text, lines[..|lines| - 1]) + (if l.start <= l.end <= |text| then text[l.start..l.end] else []) +
      (if Resume(text, l.end) == l.end then [] else [SPACE])
  }

  /** Main result: apart from at most one space per break, the lines are the text. */
  lemma {:induction false} NothingIsLost(text: seq<Octet>, width: nat, lines: seq<Line>, at: nat)
    requires at <= |text| && Cut(text, width, lines, at)
    ensures Rejoined(text, lines) + text[at..] == text
  {
    hide FullLine, Reach, Columns;
    if lines == [] {
      assert text[0..] == text;
    } else {
      var l := lines[|lines| - 1];
      var before := Rejoined(text, lines[..|lines| - 1]);
      NothingIsLost(text, width, lines[..|lines| - 1], l.start);
      var gap := if Resume(text, l.end) == l.end then [] else [SPACE];
      LineAndGap(text, l.start, l.end, gap);
      RejoinedEnds(text, lines, before, gap);
      hide Rejoined, Cut;
      Glue(before, text[l.start..l.end], gap, text[at..], text[l.start..], text);
    }
  }

  lemma RejoinedEnds(text: seq<Octet>, lines: seq<Line>, before: seq<Octet>, gap: seq<Octet>)
    requires lines != [] && before == Rejoined(text, lines[..|lines| - 1])
    requires gap == if Resume(text, lines[|lines| - 1].end) == lines[|lines| - 1].end then [] else [SPACE]
    ensures var l := lines[|lines| - 1];
      l.start <= l.end <= |text| ==> Rejoined(text, lines) == before + text[l.start..l.end] + gap
  {
  }

  lemma Glue(before: seq<Octet>, a: seq<Octet>, gap: seq<Octet>, rest: seq<Octet>, tail: seq<Octet>, all: seq<Octet>)
    requires tail == a + gap + rest && before + tail == all
    ensures before + a + gap + rest == all
  {
  }

  lemma LineAndGap(text: seq<Octet>, s: nat, e: nat, gap: seq<Octet>)
    requires s <= e <= |text| && gap == if Resume(text, e) == e then [] else [SPACE]
    ensures Resume(text, e) <= |text| && text[s..] == text[s..e] + gap + text[Resume(text, e)..]
  {
  }
}
