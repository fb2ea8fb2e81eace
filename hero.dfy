/** The hero section's rotating paragraph: the index that advances on each
    interval tick, the segmentation of a part's text into words and runs of
    whitespace (`text.split(/(\s+)/)`), and the class a part is given. */
module HeroText {
  import Cyclic
  import opened Wrappers

  /** Number of entries in `animatedParagraphs`. */
  const ParagraphCount: nat := 4

  /** The interval callback's state: `currentParagraphIndex`, which starts at 0
      and moves one step forward, cyclically, on every tick. */
  class ParagraphRotator {
    var currentParagraphIndex: int
    /** Ticks so far; ties the index to the cyclic walk it performs. */
    ghost var ticks: nat

    ghost predicate Valid()
      reads this
    {
      && 0 <= currentParagraphIndex < ParagraphCount
      && currentParagraphIndex == Cyclic.SuccIter(0, ParagraphCount, ticks)
    }

    constructor ()
      ensures Valid()
      ensures currentParagraphIndex == 0 && ticks == 0
    {
      currentParagraphIndex := 0;
      ticks := 0;
    }

    /** `setCurrentParagraphIndex((prevIndex) => (prevIndex + 1) % length)`. */
    method Tick()
      requires Valid()
      modifies this
      ensures Valid()
      ensures ticks == old(ticks) + 1
      ensures currentParagraphIndex == Cyclic.Succ(old(currentParagraphIndex), ParagraphCount)
    {
      currentParagraphIndex := (currentParagraphIndex + 1) % ParagraphCount;
      ticks := ticks + 1;
    }
  }

  /** After ParagraphCount more ticks the rotator shows the same paragraph
      again, and after fewer it shows a different one. */
  lemma RotationPeriod(ticks: nat, k: nat)
    requires 0 < k
    ensures Cyclic.SuccIter(0, ParagraphCount, ticks + ParagraphCount)
         == Cyclic.SuccIter(0, ParagraphCount, ticks)
    ensures k < ParagraphCount ==>
      Cyclic.SuccIter(0, ParagraphCount, ticks + k) != Cyclic.SuccIter(0, ParagraphCount, ticks)
  {
    Cyclic.SuccIterPeriodic(0, ParagraphCount, ticks);
    if k < ParagraphCount {
      Cyclic.SuccIterAdd(0, ParagraphCount, ticks, k);
      Cyclic.SuccIterDistinct(Cyclic.SuccIter(0, ParagraphCount, ticks), ParagraphCount, k);
    }
  }

  // ---------------------------------------------------------------------
  // Segmentation

  /** The characters JavaScript's `\s` matches: the ASCII blanks, no-break
      space, ogham space mark, the spaces U+2000..U+200A, line and paragraph
      separators, narrow no-break space, medium mathematical space,
      ideographic space and the byte-order mark. */
  const Whitespace: set<char> := {
    '\t', '\n', '\U{000B}', '\U{000C}', '\r', ' ', '\U{00A0}', '\U{1680}',
    '\U{2000}', '\U{2001}', '\U{2002}', '\U{2003}', '\U{2004}', '\U{2005}',
    '\U{2006}', '\U{2007}', '\U{2008}', '\U{2009}', '\U{200A}',
    '\U{2028}', '\U{2029}', '\U{202F}', '\U{205F}', '\U{3000}', '\U{FEFF}'
  }

  predicate IsSpace(c: char)
  {
    c in Whitespace
  }

  predicate AllSpace(s: string)
  {
    forall i :: 0 <= i < |s| ==> IsSpace(s[i])
  }

  predicate NoSpace(s: string)
  {
    forall i :: 0 <= i < |s| ==> !IsSpace(s[i])
  }

  /** Length of the longest prefix of s without whitespace. */
  function WordLength(s: string): (k: nat)
    ensures k <= |s| && NoSpace(s[..k])
    ensures k < |s| ==> IsSpace(s[k])
  {
    if |s| == 0 || IsSpace(s[0]) then 0
    else
      var k := 1 + WordLength(s[1..]);
      assert s[..k] == [s[0]] + s[1..][..k - 1];
      k
  }

  /** Length of the longest prefix of s made of whitespace. */
  function SpaceLength(s: string): (k: nat)
    ensures k <= |s| && AllSpace(s[..k])
    ensures k < |s| ==> !IsSpace(s[k])
    ensures |s| > 0 && IsSpace(s[0]) ==> k > 0
  {
    if |s| == 0 || !IsSpace(s[0]) then 0
    else
      var k := 1 + SpaceLength(s[1..]);
      assert s[..k] == [s[0]] + s[1..][..k - 1];
      k
  }

  /** One step of the split: the leading word (possibly empty), the maximal
      whitespace run after it, and what follows. */
  datatype Chunk = Chunk(word: string, gap: string, rest: string)

  function FirstChunk(s: string): (c: Chunk)
    ensures c.gap != "" ==> |c.rest| < |s|
  {
    var w := WordLength(s);
    var sp := SpaceLength(s[w..]);
    Chunk(s[..w], s[w..w + sp], s[w + sp..])
  }

  /** The chunk is a three-way cut of the text: a whitespace-free word, a
      whitespace run that is empty only when the text has no whitespace at
      all, and a remainder that does not start with whitespace. */
  lemma ChunkFacts(s: string)
    ensures var c := FirstChunk(s);
      && s == c.word + c.gap + c.rest
      && NoSpace(c.word) && AllSpace(c.gap)
      && (c.gap == "" ==> c.word == s)
      && (|c.rest| > 0 ==> !IsSpace(c.rest[0]))
      && (|c.word| > 0 <==> |s| > 0 && !IsSpace(s[0]))
  {
    ChunkCut(s);
    ChunkGap(s);
    ChunkRest(s);
  }

  lemma ChunkCut(s: string)
    ensures var c := FirstChunk(s); s == c.word + c.gap + c.rest && NoSpace(c.word)
    ensures var c := FirstChunk(s); |c.word| > 0 <==> |s| > 0 && !IsSpace(s[0])
  {
    var w := WordLength(s);
    var sp := SpaceLength(s[w..]);
    assert s == s[..w] + s[w..w + sp] + s[w + sp..];
  }

  lemma ChunkGap(s: string)
    ensures var c := FirstChunk(s); AllSpace(c.gap) && (c.gap == "" ==> c.word == s)
  {
    var w := WordLength(s);
    var sp := SpaceLength(s[w..]);
    assert s[w..w + sp] == s[w..][..sp];
  }

  lemma ChunkRest(s: string)
    ensures var c := FirstChunk(s); |c.rest| > 0 ==> !IsSpace(c.rest[0])
  {
    var w := WordLength(s);
    var sp := SpaceLength(s[w..]);
    assert |s[w + sp..]| > 0 ==> s[w + sp..][0] == s[w..][sp];
  }

  /** `s.split(/(\s+)/)`: the pieces between maximal whitespace runs, with the
      runs themselves kept (the capturing group) between them. The first and
      last pieces may be empty; the string is never dropped, so "" gives [""]. */
  function SplitOnSpace(s: string): (r: seq<string>)
    ensures |r| % 2 == 1
    decreases |s|
  {
    var c := FirstChunk(s);
    if c.gap == "" then [s]
    else
      var tail := SplitOnSpace(c.rest);
      assert |tail| == 2 * (|tail| / 2) + 1;
      assert |[c.word, c.gap] + tail| == 2 * (|tail| / 2 + 1) + 1;
      [c.word, c.gap] + tail
  }

  function Concat(pieces: seq<string>): string
  {
    if |pieces| == 0 then "" else pieces[0] + Concat(pieces[1..])
  }

  lemma {:induction false} ConcatAppend(a: seq<string>, b: seq<string>)
    ensures Concat(a + b) == Concat(a) + Concat(b)
  {
    if |a| > 0 {
      assert (a + b)[1..] == a[1..] + b;
      ConcatAppend(a[1..], b);
    } else {
      assert a + b == b;
    }
  }

  lemma ConcatSingle(a: string)
    ensures Concat([a]) == a
  {
    assert [a][1..] == [];
  }

  lemma ConcatPair(a: string, b: string, rest: seq<string>)
    ensures Concat([a, b] + rest) == a + b + Concat(rest)
  {
    assert ([a, b] + rest)[1..] == [b] + rest;
    assert ([b] + rest)[1..] == rest;
  }

  /** Joining the pieces of the split gives back the text: nothing is lost or
      added. */
  lemma {:induction false} SplitOnSpaceConcat(s: string)
    ensures Concat(SplitOnSpace(s)) == s
    decreases |s|
  {
    var c := FirstChunk(s);
    if c.gap == "" {
      ConcatSingle(s);
    } else {
      var tail := SplitOnSpace(c.rest);
      assert SplitOnSpace(s) == [c.word, c.gap] + tail;
      ChunkCut(s);
      SplitOnSpaceConcat(c.rest);
      ConcatPair(c.word, c.gap, tail);
    }
  }

  /** The shape of the split, piece by piece from the front: a piece without
      whitespace (possibly empty), and then either nothing or a non-empty
      whitespace run followed by the shape again. A word piece is empty only
      at the very start or the very end. */
  ghost predicate SplitShape(r: seq<string>)
  {
    && |r| >= 1 && NoSpace(r[0])
    && (|r| == 1 ||
        (|r| >= 3 && |r[1]| > 0 && AllSpace(r[1]) && (|r| > 3 ==> |r[2]| > 0) && SplitShape(r[2..])))
  }

  lemma {:induction false} SplitOnSpaceShape(s: string)
    ensures SplitShape(SplitOnSpace(s))
    ensures |SplitOnSpace(s)[0]| > 0 <==> |s| > 0 && !IsSpace(s[0])
    decreases |s|
  {
    var c := FirstChunk(s);
    ChunkFacts(s);
    if c.gap != "" {
      SplitOnSpaceShape(c.rest);
      ChunkFacts(c.rest);
      var tail := SplitOnSpace(c.rest);
      var r := [c.word, c.gap] + tail;
      assert SplitOnSpace(s) == r;
      assert r[2..] == tail;
    }
  }

  // ---------------------------------------------------------------------
  // Rendering of the pieces

  /** What a piece of the split renders as: a whitespace run as a plain span,
      a word as an animated span. */
  datatype Segment = Gap(text: string) | Word(text: string)

  /** One piece: `segment.match(/^\s+$/)` makes a Gap; otherwise a non-empty
      piece makes a Word; an empty piece renders nothing (`return null`). */
  function RenderPiece(piece: string): (r: seq<Segment>)
    ensures |r| <= 1
    ensures r == [] <==> piece == ""
    ensures r != [] ==> r[0].text == piece
    ensures r != [] ==> (r[0].Gap? <==> AllSpace(piece))
  {
    if |piece| > 0 && AllSpace(piece) then [Gap(piece)]
    else if |piece| > 0 then [Word(piece)]
    else []
  }

  function RenderPieces(pieces: seq<string>): seq<Segment>
  {
    if |pieces| == 0 then [] else RenderPiece(pieces[0]) + RenderPieces(pieces[1..])
  }

  lemma {:induction false} RenderPiecesAppend(a: seq<string>, b: seq<string>)
    ensures RenderPieces(a + b) == RenderPieces(a) + RenderPieces(b)
  {
    if |a| > 0 {
      assert (a + b)[1..] == a[1..] + b;
      RenderPiecesAppend(a[1..], b);
    } else {
      assert a + b == b;
    }
  }

  /** The segments a part's text renders as. */
  function RenderText(text: string): seq<Segment>
  {
    RenderPieces(SplitOnSpace(text))
  }

  function Texts(segs: seq<Segment>): string
  {
    if |segs| == 0 then "" else segs[0].text + Texts(segs[1..])
  }

  lemma {:induction false} TextsAppend(a: seq<Segment>, b: seq<Segment>)
    ensures Texts(a + b) == Texts(a) + Texts(b)
  {
    if |a| > 0 {
      assert (a + b)[1..] == a[1..] + b;
      TextsAppend(a[1..], b);
    } else {
      assert a + b == b;
    }
  }

  /** Every segment is non-empty and is whitespace exactly when it is a Gap. */
  ghost predicate WellFormed(segs: seq<Segment>)
  {
    forall i :: 0 <= i < |segs| ==>
      |segs[i].text| > 0 && (if segs[i].Gap? then AllSpace(segs[i].text) else NoSpace(segs[i].text))
  }

  /** Neighbouring segments are of different kinds. */
  ghost predicate Alternating(segs: seq<Segment>)
  {
    forall i :: 0 <= i < |segs| - 1 ==> segs[i].Gap? != segs[i + 1].Gap?
  }

  /** One step of the split, as rendered: a text without whitespace renders
      as its one piece; otherwise the leading word, the whitespace run, and
      the rendering of the remainder. */
  lemma RenderTextStep(s: string)
    ensures FirstChunk(s).gap == "" ==> RenderText(s) == RenderPiece(s)
    ensures FirstChunk(s).gap != "" ==>
      RenderText(s) == RenderPiece(FirstChunk(s).word) + [Gap(FirstChunk(s).gap)]
                       + RenderText(FirstChunk(s).rest)
  {
    if FirstChunk(s).gap == "" {
      RenderTextSingle(s);
    } else {
      RenderTextChunk(s, FirstChunk(s));
    }
  }

  lemma RenderTextSingle(s: string)
    requires FirstChunk(s).gap == ""
    ensures RenderText(s) == RenderPiece(s)
  {
    assert SplitOnSpace(s) == [s];
    assert RenderPieces([s]) == RenderPiece(s) + RenderPieces([]);
  }

  lemma RenderTextChunk(s: string, c: Chunk)
    requires c == FirstChunk(s) && c.gap != ""
    ensures RenderText(s) == RenderPiece(c.word) + [Gap(c.gap)] + RenderText(c.rest)
  {
    ChunkFacts(s);
    assert SplitOnSpace(s) == [c.word, c.gap] + SplitOnSpace(c.rest);
    RenderPiecesAppend([c.word, c.gap], SplitOnSpace(c.rest));
    assert RenderPieces([c.word, c.gap]) == RenderPiece(c.word) + [Gap(c.gap)] by {
      assert [c.word, c.gap][1..] == [c.gap];
      assert RenderPieces([c.gap]) == RenderPiece(c.gap) + RenderPieces([]);
    }
  }

  /** Joining the rendered segments of a part reproduces its text exactly. */
  lemma {:induction false} RenderTextRoundTrip(s: string)
    ensures Texts(RenderText(s)) == s
    decreases |s|
  {
    var c := FirstChunk(s);
    if c.gap == "" {
      RenderTextSingle(s);
      TextsOfPiece(s);
    } else {
      var head := RenderPiece(c.word);
      calc {
        Texts(RenderText(s));
        { RenderTextChunk(s, c); }
        Texts(head + [Gap(c.gap)] + RenderText(c.rest));
        { TextsAppend(head + [Gap(c.gap)], RenderText(c.rest)); }
        Texts(head + [Gap(c.gap)]) + Texts(RenderText(c.rest));
        { TextsAppend(head, [Gap(c.gap)]); }
        Texts(head) + Texts([Gap(c.gap)]) + Texts(RenderText(c.rest));
        { TextsOfPiece(c.word); assert Texts([Gap(c.gap)]) == c.gap + Texts([]); }
        c.word + c.gap + Texts(RenderText(c.rest));
        { RenderTextRoundTrip(c.rest); }
        c.word + c.gap + c.rest;
        { ChunkCut(s); }
        s;
      }
    }
  }

  lemma TextsOfPiece(piece: string)
    ensures Texts(RenderPiece(piece)) == piece
  {
    if piece != "" {
      assert Texts(RenderPiece(piece)) == piece + Texts([]);
    }
  }


  lemma AlternatingJoin(head: seq<Segment>, gap: string, tail: seq<Segment>)
    requires head == [] || (|head| == 1 && head[0].Word?)
    requires Alternating(tail) && (tail == [] || tail[0].Word?)
    ensures Alternating(head + [Gap(gap)] + tail)
  {
    var r := head + [Gap(gap)] + tail;
    forall i | 0 <= i < |r| - 1 ensures r[i].Gap? != r[i + 1].Gap? {
      if i >= |head| + 1 {
        assert r[i] == tail[i - |head| - 1] && r[i + 1] == tail[i - |head|];
      }
    }
  }

  lemma WellFormedJoin(head: seq<Segment>, gap: string, tail: seq<Segment>)
    requires WellFormed(head) && WellFormed(tail) && |gap| > 0 && AllSpace(gap)
    ensures WellFormed(head + [Gap(gap)] + tail)
  {
    var r := head + [Gap(gap)] + tail;
    forall i | 0 <= i < |r|
      ensures |r[i].text| > 0 && (if r[i].Gap? then AllSpace(r[i].text) else NoSpace(r[i].text))
    {
      if i > |head| {
        assert r[i] == tail[i - |head| - 1];
      }
    }
  }

  /** The rendering of a leading word: nothing, or one Word. */
  lemma RenderWord(word: string)
    requires NoSpace(word)
    ensures WellFormed(RenderPiece(word)) && Alternating(RenderPiece(word))
    ensures RenderPiece(word) == [] || (|RenderPiece(word)| == 1 && RenderPiece(word)[0].Word?)
  {
    if |word| > 0 {
      assert !IsSpace(word[0]);
    }
  }

  /** Every rendered segment is non-empty and either all whitespace (a Gap) or
      free of whitespace (a Word); neighbours alternate between the two; and
      the first segment is a Gap exactly when the text starts with
      whitespace. */
  lemma {:induction false} RenderTextShape(s: string)
    ensures WellFormed(RenderText(s)) && Alternating(RenderText(s))
    ensures RenderText(s) == [] <==> s == ""
    ensures |s| > 0 ==> (RenderText(s)[0].Gap? <==> IsSpace(s[0]))
    decreases |s|
  {
    var c := FirstChunk(s);
    ChunkFacts(s);
    RenderTextStep(s);
    RenderWord(c.word);
    if c.gap != "" {
      RenderTextShape(c.rest);
      AlternatingJoin(RenderPiece(c.word), c.gap, RenderText(c.rest));
      WellFormedJoin(RenderPiece(c.word), c.gap, RenderText(c.rest));
      assert c.word == "" ==> s[0] == c.gap[0] by {
        if c.word == "" {
          assert s == c.gap + c.rest;
        }
      }
    }
  }

  // ---------------------------------------------------------------------
  // The class of a part

  /** One part of a paragraph; `className` is optional. */
  datatype Part = Part(text: string, highlight: bool, className: Option<string>)

  /** JavaScript truthiness of the optional class: present and non-empty. */
  predicate HasClass(p: Part)
  {
    p.className.Some? && p.className.value != ""
  }

  const DefaultHighlight: string := "text-foreground font-semibold"
  const DefaultHighlightSize: string := "text-lg md:text-xl lg:text-2xl"

  /** The `className` template of the part's span: the highlight class (or the
      default one) when highlighted, a space, then the size classes when
      highlighted without a class of its own. */
  function PartClass(p: Part): string
  {
    (if p.highlight then (if HasClass(p) then p.className.value else DefaultHighlight) else "")
    + " "
    + (if p.highlight && !HasClass(p) then DefaultHighlightSize else "")
  }

  /** The three cases of the class choice: a highlighted part with a class
      gets that class; a highlighted part without one gets the default
      highlight and the size classes; any other part gets no class, only the
      separating blank. */
  lemma PartClassCases(p: Part)
    ensures p.highlight && HasClass(p) ==> PartClass(p) == p.className.value + " "
    ensures p.highlight && !HasClass(p) ==>
      PartClass(p) == DefaultHighlight + " " + DefaultHighlightSize
    ensures !p.highlight ==> PartClass(p) == " "
  {
  }
}
