// Splitting a document's XML into the spans that are censored, while the tasks for the spans
// already found may run in any order.
module Spans {
  import opened Utf8
  import opened Censoring

  datatype Kind = Docx | Xlsx | Hwpx

  const OPEN: Byte := 60
  const CLOSE: Byte := 62
  const SLASH: Byte := 47

  // <w:t>, <t> and <hp:t>.
  function StartTag(kind: Kind): Text {
    match kind
    case Docx => [OPEN, 119, 58, 116, CLOSE]
    case Xlsx => [OPEN, 116, CLOSE]
    case Hwpx => [OPEN, 104, 112, 58, 116, CLOSE]
  }

  // </w:t>, </t> and </hp:t>.
  function EndTag(kind: Kind): Text {
    [OPEN, SLASH] + StartTag(kind)[1..]
  }

  // <hp: and >.
  const NESTED: Text := [OPEN, 104, 112, 58]
  const CLOSING: Text := [CLOSE]

  // ---------- Finding ----------

  predicate StartsAt(doc: Text, word: Text, i: nat) {
    i + |word| <= |doc| && doc[i..i + |word|] == word
  }

  datatype Found = At(pos: nat) | Nowhere

  // The first place from i on where the word starts.
  function Find(doc: Text, word: Text, i: nat): (r: Found)
    ensures r.At? ==> i <= r.pos && StartsAt(doc, word, r.pos)
    ensures r.At? ==> forall j: nat :: i <= j < r.pos ==> !StartsAt(doc, word, j)
    ensures r.Nowhere? ==> forall j: nat :: i <= j ==> !StartsAt(doc, word, j)
    decreases |doc| - i
  {
    if i + |word| > |doc| then Nowhere
    else if StartsAt(doc, word, i) then At(i)
    else if i < |doc| then Find(doc, word, i + 1)
    else Nowhere
  }

  // Two documents of the same length that agree from a position on.
  ghost predicate SameFrom(doc: Text, doc': Text, pos: nat) {
    |doc| == |doc'| && forall x :: pos <= x < |doc| ==> doc[x] == doc'[x]
  }

  lemma {:induction false} FindSame(doc: Text, doc': Text, word: Text, i: nat)
    requires SameFrom(doc, doc', i)
    ensures Find(doc, word, i) == Find(doc', word, i)
    decreases |doc| - i
  {
    if i + |word| <= |doc| {
      assert doc[i..i + |word|] == doc'[i..i + |word|];
      if i < |doc| { FindSame(doc, doc', word, i + 1); }
    }
  }

  // ---------- The splitter ----------

  // Where the splitter is: between text elements, inside the text of an element that ends at
  // to and is left at next, or at a nested tag of such a text.
  datatype Place =
    | Between(pos: nat)
    | InText(pos: nat, to: nat, next: nat)
    | AtTag(pos: nat, to: nat, next: nat)
    | Finished(pos: nat)

  // The part of the document from a to b, still to be censored.
  datatype Span = Span(a: nat, b: nat)

  datatype Step = Step(place: Place, spans: seq<Span>)

  // One step of the splitter: where it goes and what it hands out.
  function Advance(doc: Text, kind: Kind, place: Place): Step {
    match place
    case Finished(pos) => Step(place, [])
    case Between(pos) =>
      (match Find(doc, StartTag(kind), pos)
       case Nowhere => Step(Finished(pos), [])
       case At(start) =>
         match Find(doc, EndTag(kind), start)
         case Nowhere => Step(Finished(pos), [])
         case At(end) =>
           var from, next := start + |StartTag(kind)|, end + |EndTag(kind)|;
           if kind == Hwpx then Step(InText(from, end, next), []) else Step(Between(next), [Span(from, end)]))
    case InText(pos, to, next) =>
      if pos >= to then Step(Between(next), [])
      else
        (match Find(doc, NESTED, pos)
         case Nowhere => Step(Between(next), [Span(pos, to)])
         case At(tag) =>
           if tag >= to then Step(Between(next), [Span(pos, to)])
           else Step(AtTag(tag, to, next), if tag > pos then [Span(pos, tag)] else []))
    case AtTag(pos, to, next) =>
      match Find(doc, CLOSING, pos)
      case Nowhere => Step(Between(next), [])
      case At(close) => if close >= to then Step(Between(next), []) else Step(InText(close + 1, to, next), [])
  }

  // A place the splitter can be in.
  predicate PlaceOk(doc: Text, place: Place) {
    match place
    case Between(pos) => pos <= |doc|
    case Finished(pos) => pos <= |doc|
    case InText(pos, to, next) => pos <= to < next <= |doc|
    case AtTag(pos, to, next) => pos < to < next <= |doc|
  }

  // The end tag of an element is not found inside its start tag.
  lemma EndAfterStart(doc: Text, kind: Kind, start: nat, end: nat)
    requires StartsAt(doc, StartTag(kind), start) && start <= end && StartsAt(doc, EndTag(kind), end)
    ensures start + |StartTag(kind)| <= end
  {
    var head, tail := doc[start..start + |StartTag(kind)|], doc[end..end + |EndTag(kind)|];
    assert tail[0] == OPEN && tail[1] == SLASH && head[1] != SLASH;
    forall x | start < x < start + |head| ensures doc[x] != OPEN {
      assert head[x - start] == doc[x];
    }
  }

  // What one step from a place promises.
  ghost predicate Forward(doc: Text, place: Place, r: Step)
    requires PlaceOk(doc, place)
  {
    PlaceOk(doc, r.place) && place.pos <= r.place.pos && |r.spans| <= 1 &&
    (forall j :: 0 <= j < |r.spans| ==> place.pos <= r.spans[j].a <= r.spans[j].b <= r.place.pos) &&
    (r.spans != [] && !r.place.AtTag? ==> r.spans[0].b < r.place.pos) &&
    (place.AtTag? ==> r.spans == [] && place.pos < r.place.pos) &&
    (!place.Finished? ==> Left(doc, r.place) < Left(doc, place))
  }

  lemma BetweenForward(doc: Text, kind: Kind, pos: nat)
    requires pos <= |doc|
    ensures Forward(doc, Between(pos), Advance(doc, kind, Between(pos)))
  {
    hide Find; hide StartTag; hide EndTag;
    TagSizes(kind);
    var start := Find(doc, StartTag(kind), pos);
    if start.At? {
      var end := Find(doc, EndTag(kind), start.pos);
      if end.At? { EndAfterStart(doc, kind, start.pos, end.pos); }
    }
  }

  // The splitter never goes back, hands out spans between where it was and where it is, and
  // gets on.
  lemma AdvanceForward(doc: Text, kind: Kind, place: Place)
    requires PlaceOk(doc, place)
    ensures Forward(doc, place, Advance(doc, kind, place))
  {
    hide Find; hide StartTag; hide EndTag; hide StartsAt;
    match place
    case Between(pos) => BetweenForward(doc, kind, pos);
    case InText(pos, to, next) =>
    case AtTag(pos, to, next) =>
    case Finished(pos) =>
  }

  function Left(doc: Text, place: Place): nat
    requires PlaceOk(doc, place)
  {
    match place
    case Finished(pos) => 0
    case Between(pos) => 3 * (|doc| - pos) + 1
    case InText(pos, to, next) => 3 * (|doc| - pos) + 3
    case AtTag(pos, to, next) => 3 * (|doc| - pos) + 2
  }

  // What it does depends only on the document from its position on.
  lemma AdvanceSame(doc: Text, doc': Text, kind: Kind, place: Place)
    requires SameFrom(doc, doc', place.pos)
    ensures Advance(doc, kind, place) == Advance(doc', kind, place)
  {
    hide Find; hide StartTag; hide EndTag; hide StartsAt;
    match place
    case Between(pos) =>
      FindSame(doc, doc', StartTag(kind), pos);
      var start := Find(doc, StartTag(kind), pos);
      if start.At? { FindSame(doc, doc', EndTag(kind), start.pos); }
    case InText(pos, to, next) => FindSame(doc, doc', NESTED, pos);
    case AtTag(pos, to, next) => FindSame(doc, doc', CLOSING, pos);
    case Finished(pos) =>
  }

  // All the spans that are handed out from a place on.
  function SpansFrom(doc: Text, kind: Kind, place: Place): seq<Span>
    requires PlaceOk(doc, place)
    decreases Left(doc, place)
  {
    AdvanceForward(doc, kind, place);
    if place.Finished? then [] else var r := Advance(doc, kind, place); r.spans + SpansFrom(doc, kind, r.place)
  }

  // ---------- Where the spans lie ----------

  // A text element: its start tag is at start, and end is the first end tag after that.
  ghost predicate Element(doc: Text, kind: Kind, start: nat, end: nat) {
    StartsAt(doc, StartTag(kind), start) && Find(doc, EndTag(kind), start) == At(end)
  }

  // Position pos is in the text of an element, at its start or just after a tag.
  ghost predicate ClearAt(doc: Text, kind: Kind, start: nat, pos: nat) {
    start + |StartTag(kind)| <= pos <= |doc| &&
    (pos == start + |StartTag(kind)| || (kind == Hwpx && doc[pos - 1] == CLOSE))
  }

  // A span lies in the text of an element. In a Hwpx document no nested tag starts in it.
  ghost predicate SpanIn(doc: Text, kind: Kind, span: Span) {
    exists start: nat, end: nat :: SpanInElement(doc, kind, start, end, span)
  }

  ghost predicate SpanInElement(doc: Text, kind: Kind, start: nat, end: nat, span: Span) {
    Element(doc, kind, start, end) && ClearAt(doc, kind, start, span.a) && span.a <= span.b <= end < |doc| &&
    doc[span.b] == OPEN &&
    (kind == Hwpx ==> forall x: nat :: span.a <= x < span.b ==> !StartsAt(doc, NESTED, x))
  }

  ghost predicate PlaceIn(doc: Text, kind: Kind, place: Place) {
    match place
    case InText(pos, to, next) =>
      kind == Hwpx && exists start: nat :: Element(doc, kind, start, to) && ClearAt(doc, kind, start, pos)
    case AtTag(pos, to, next) =>
      kind == Hwpx && exists start: nat :: Element(doc, kind, start, to) && start + |StartTag(kind)| <= pos
    case _ => true
  }

  lemma OpensWith(doc: Text, word: Text, i: nat)
    requires StartsAt(doc, word, i) && word != []
    ensures i < |doc| && doc[i] == word[0]
  {
    assert doc[i..i + |word|][0] == doc[i];
  }

  // What one step from a place has to keep.
  ghost predicate StepInside(doc: Text, kind: Kind, r: Step) {
    PlaceIn(doc, kind, r.place) && forall j :: 0 <= j < |r.spans| ==> SpanIn(doc, kind, r.spans[j])
  }

  lemma BetweenInside(doc: Text, kind: Kind, pos: nat)
    requires pos <= |doc|
    ensures StepInside(doc, kind, Advance(doc, kind, Between(pos)))
  {
    hide Find; hide StartsAt;
    var s := Find(doc, StartTag(kind), pos);
    if s.At? {
      var e := Find(doc, EndTag(kind), s.pos);
      if e.At? {
        EndAfterStart(doc, kind, s.pos, e.pos);
        OpensWith(doc, EndTag(kind), e.pos);
        var from := s.pos + |StartTag(kind)|;
        assert Element(doc, kind, s.pos, e.pos) && ClearAt(doc, kind, s.pos, from);
        if kind != Hwpx { assert SpanInElement(doc, kind, s.pos, e.pos, Span(from, e.pos)); }
      }
    }
  }

  lemma InTextInside(doc: Text, pos: nat, to: nat, next: nat)
    requires PlaceOk(doc, InText(pos, to, next)) && PlaceIn(doc, Hwpx, InText(pos, to, next))
    ensures StepInside(doc, Hwpx, Advance(doc, Hwpx, InText(pos, to, next)))
  {
    hide StartTag; hide EndTag;
    var start: nat :| Element(doc, Hwpx, start, to) && ClearAt(doc, Hwpx, start, pos);
    EndOpens(doc, start, to);
    hide Find; hide StartsAt; hide Element;
    var tag := Find(doc, NESTED, pos);
    if pos < to {
      if tag.At? { OpensWith(doc, NESTED, tag.pos); }
      if tag.At? && tag.pos < to {
        assert tag.pos > pos ==> SpanInElement(doc, Hwpx, start, to, Span(pos, tag.pos));
      } else {
        assert SpanInElement(doc, Hwpx, start, to, Span(pos, to));
      }
    }
  }

  lemma EndOpens(doc: Text, start: nat, end: nat)
    requires Element(doc, Hwpx, start, end)
    ensures end < |doc| && doc[end] == OPEN
  {
    OpensWith(doc, EndTag(Hwpx), end);
  }

  lemma AtTagInside(doc: Text, pos: nat, to: nat, next: nat)
    requires PlaceOk(doc, AtTag(pos, to, next)) && PlaceIn(doc, Hwpx, AtTag(pos, to, next))
    ensures StepInside(doc, Hwpx, Advance(doc, Hwpx, AtTag(pos, to, next)))
  {
    hide StartTag; hide EndTag; hide Find; hide StartsAt; hide Element;
    var start: nat :| Element(doc, Hwpx, start, to) && start + |StartTag(Hwpx)| <= pos;
    var c := Find(doc, CLOSING, pos);
    if c.At? && c.pos < to {
      OpensWith(doc, CLOSING, c.pos);
      assert ClearAt(doc, Hwpx, start, c.pos + 1);
    }
  }

  lemma AdvanceInside(doc: Text, kind: Kind, place: Place)
    requires PlaceOk(doc, place) && PlaceIn(doc, kind, place)
    ensures StepInside(doc, kind, Advance(doc, kind, place))
  {
    match place
    case Between(pos) => BetweenInside(doc, kind, pos);
    case InText(pos, to, next) => InTextInside(doc, pos, to, next);
    case AtTag(pos, to, next) => AtTagInside(doc, pos, to, next);
    case Finished(pos) =>
  }

  lemma {:induction false} SpansInside(doc: Text, kind: Kind, place: Place, j: nat)
    requires PlaceOk(doc, place) && PlaceIn(doc, kind, place) && j < |SpansFrom(doc, kind, place)|
    ensures var span := SpansFrom(doc, kind, place)[j];
            SpanIn(doc, kind, span) && place.pos <= span.a <= span.b <= |doc| && (place.AtTag? ==> place.pos < span.a)
    decreases Left(doc, place)
  {
    hide Advance;
    AdvanceForward(doc, kind, place);
    AdvanceInside(doc, kind, place);
    var r := Advance(doc, kind, place);
    if j >= |r.spans| { SpansInside(doc, kind, r.place, j - |r.spans|); }
  }

  // Spans come in the order of the document, and something lies between any two of them.
  lemma {:induction false} SpansApart(doc: Text, kind: Kind, place: Place, i: nat, j: nat)
    requires PlaceOk(doc, place) && PlaceIn(doc, kind, place) && i < j < |SpansFrom(doc, kind, place)|
    ensures SpansFrom(doc, kind, place)[i].b < SpansFrom(doc, kind, place)[j].a
    decreases Left(doc, place)
  {
    hide Advance; hide PlaceIn; hide SpanIn; hide Left;
    AdvanceForward(doc, kind, place);
    AdvanceInside(doc, kind, place);
    var r := Advance(doc, kind, place);
    if i >= |r.spans| {
      SpansApart(doc, kind, r.place, i - |r.spans|, j - |r.spans|);
    } else {
      SpansInside(doc, kind, r.place, j - |r.spans|);
    }
  }

  // No byte of a nested tag, from its opening to its closing bracket, is in the span.
  lemma OutsideTags(doc: Text, start: nat, end: nat, span: Span, tag: nat, close: nat, x: nat)
    requires SpanInElement(doc, Hwpx, start, end, span)
    requires start + |StartTag(Hwpx)| <= tag && StartsAt(doc, NESTED, tag) && Find(doc, CLOSING, tag) == At(close)
    requires tag <= x <= close
    ensures !(span.a <= x < span.b)
  {
    if tag < span.a && span.a > start + |StartTag(Hwpx)| {
      assert doc[span.a - 1..span.a] == CLOSING;
      assert StartsAt(doc, CLOSING, span.a - 1);
    }
  }

  // ---------- Splitting, as the source does it ----------

  // The spans of one Hwpx text.
  method SplitText(doc: Text, from: nat, to: nat, next: nat) returns (spans: seq<Span>)
    requires from <= to < next <= |doc|
    ensures SpansFrom(doc, Hwpx, InText(from, to, next)) == spans + SpansFrom(doc, Hwpx, Between(next))
  {
    hide Find; hide SpansFrom; hide Advance;
    spans := [];
    var pos := from;
    ghost var all, after := SpansFrom(doc, Hwpx, InText(from, to, next)), SpansFrom(doc, Hwpx, Between(next));
    assert spans + all == all;
    while pos < to
      invariant from <= pos <= to
      invariant all == spans + SpansFrom(doc, Hwpx, InText(pos, to, next))
    {
      SpansInText(doc, pos, to, next);
      var tag := Find(doc, NESTED, pos);
      if tag.Nowhere? || tag.pos >= to {
        Append(spans, [Span(pos, to)], after);
        spans := spans + [Span(pos, to)];
        return;
      }
      ghost var rest := SpansFrom(doc, Hwpx, AtTag(tag.pos, to, next));
      Append(spans, [Span(pos, tag.pos)], rest);
      if tag.pos > pos {
        spans := spans + [Span(pos, tag.pos)];
      }
      SpansAtTag(doc, tag.pos, to, next);
      var close := Find(doc, CLOSING, tag.pos);
      if close.Nowhere? || close.pos >= to {
        return;
      }
      pos := close.pos + 1;
    }
    SpansInText(doc, pos, to, next);
  }

  // The first steps in a text and at a nested tag.
  lemma SpansInText(doc: Text, pos: nat, to: nat, next: nat)
    requires pos <= to < next <= |doc|
    ensures var all, tag := SpansFrom(doc, Hwpx, InText(pos, to, next)), Find(doc, NESTED, pos);
            if pos == to then all == SpansFrom(doc, Hwpx, Between(next))
            else if tag.Nowhere? || tag.pos >= to then all == [Span(pos, to)] + SpansFrom(doc, Hwpx, Between(next))
            else
              var rest := SpansFrom(doc, Hwpx, AtTag(tag.pos, to, next));
              pos <= tag.pos && all == (if tag.pos > pos then [Span(pos, tag.pos)] else []) + rest &&
              (tag.pos == pos ==> all == rest)
  {
    hide Find;
    AdvanceForward(doc, Hwpx, InText(pos, to, next));
  }

  lemma SpansAtTag(doc: Text, pos: nat, to: nat, next: nat)
    requires pos < to < next <= |doc|
    ensures var all, close := SpansFrom(doc, Hwpx, AtTag(pos, to, next)), Find(doc, CLOSING, pos);
            if close.Nowhere? || close.pos >= to then all == SpansFrom(doc, Hwpx, Between(next))
            else pos < close.pos + 1 && all == SpansFrom(doc, Hwpx, InText(close.pos + 1, to, next))
  {
    hide Find;
    AdvanceForward(doc, Hwpx, AtTag(pos, to, next));
  }

  lemma Append(a: seq<Span>, b: seq<Span>, c: seq<Span>)
    ensures a + (b + c) == (a + b) + c
  {}

  // The next element from pos on: where its text begins and ends, and where the search goes on.
  ghost predicate NextElement(doc: Text, kind: Kind, pos: nat, from: nat, end: nat, next: nat) {
    var start := Find(doc, StartTag(kind), pos);
    start.At? && Find(doc, EndTag(kind), start.pos) == At(end) &&
    from == start.pos + |StartTag(kind)| && next == end + |EndTag(kind)|
  }

  lemma NoElement(doc: Text, kind: Kind, pos: nat)
    requires pos <= |doc|
    requires var start := Find(doc, StartTag(kind), pos);
             start.Nowhere? || Find(doc, EndTag(kind), start.pos).Nowhere?
    ensures SpansFrom(doc, kind, Between(pos)) == []
  {
    hide Find; hide StartTag; hide EndTag;
    AdvanceForward(doc, kind, Between(pos));
  }

  // The first step from between two elements.
  lemma SpansBetween(doc: Text, kind: Kind, pos: nat, from: nat, end: nat, next: nat)
    requires pos <= |doc| && NextElement(doc, kind, pos, from, end, next)
    ensures pos < from <= end < next <= |doc|
    ensures SpansFrom(doc, kind, Between(pos)) ==
            if kind == Hwpx then SpansFrom(doc, kind, InText(from, end, next))
            else [Span(from, end)] + SpansFrom(doc, kind, Between(next))
  {
    hide Find; hide StartTag; hide EndTag; hide StartsAt;
    AdvanceForward(doc, kind, Between(pos));
    var start := Find(doc, StartTag(kind), pos);
    EndAfterStart(doc, kind, start.pos, end);
    TagSizes(kind);
    if kind == Hwpx {
      assert [] + SpansFrom(doc, kind, InText(from, end, next)) == SpansFrom(doc, kind, InText(from, end, next));
    }
  }

  lemma TagSizes(kind: Kind)
    ensures 0 < |StartTag(kind)| < |EndTag(kind)|
  {}

  // ---------- Which bytes are in spans ----------

  // The first place from pos on where the word starts is i.
  ghost predicate First(doc: Text, word: Text, pos: nat, i: nat) {
    pos <= i && StartsAt(doc, word, i) && forall j: nat :: pos <= j < i ==> !StartsAt(doc, word, j)
  }

  // The first elements from pos on, from left to right: where the start tag of each starts,
  // first after the end tag before it, and where its end tag starts, first after that.
  ghost predicate Elements(doc: Text, open: Text, close: Text, pos: nat, es: seq<Span>)
    decreases |es|
  {
    es == [] || (First(doc, open, pos, es[0].a) && First(doc, close, es[0].a, es[0].b) &&
                 Elements(doc, open, close, es[0].b + |close|, es[1..]))
  }

  // A tag that starts with <hp: stands or begins at x, in a text that begins at from.
  ghost predicate Nested(doc: Text, from: nat, x: nat) {
    exists tag: nat :: from <= tag <= x && StartsAt(doc, [60, 104, 112, 58], tag) && NoClose(doc, tag, x)
  }

  ghost predicate NoClose(doc: Text, tag: nat, x: nat) {
    forall j: nat :: tag <= j < x && j < |doc| ==> doc[j] != 62
  }

  // Byte x is between the tags of the last of these elements, and in no nested tag where those count.
  ghost predicate InLast(doc: Text, open: Text, nested: bool, es: seq<Span>, x: nat) {
    es != [] && var e := es[|es| - 1]; e.a + |open| <= x < e.b && !(nested && Nested(doc, e.a + |open|, x))
  }

  ghost predicate InElement(doc: Text, open: Text, close: Text, nested: bool, pos: nat, x: nat) {
    exists es: seq<Span> :: Elements(doc, open, close, pos, es) && InLast(doc, open, nested, es, x)
  }

  // Between <w:t> and </w:t>, <t> and </t> or <hp:t> and </hp:t>, by the kind of document.
  ghost predicate IsText(doc: Text, kind: Kind, x: nat) {
    match kind
    case Docx => InElement(doc, [60, 119, 58, 116, 62], [60, 47, 119, 58, 116, 62], false, 0, x)
    case Xlsx => InElement(doc, [60, 116, 62], [60, 47, 116, 62], false, 0, x)
    case Hwpx => InElement(doc, [60, 104, 112, 58, 116, 62], [60, 47, 104, 112, 58, 116, 62], true, 0, x)
  }

  lemma InSpanPlus(a: seq<Span>, b: seq<Span>, x: nat)
    ensures InSpan(a + b, x) <==> InSpan(a, x) || InSpan(b, x)
  {
    if j :| 0 <= j < |a| && a[j].a <= x < a[j].b { assert (a + b)[j] == a[j]; }
    if j :| 0 <= j < |b| && b[j].a <= x < b[j].b { assert (a + b)[|a| + j] == b[j]; }
  }

  lemma InSpanOne(span: Span, x: nat)
    ensures InSpan([span], x) <==> span.a <= x < span.b
    ensures !InSpan([], x)
  {
    assert [span][0] == span;
  }

  lemma FirstIsFind(doc: Text, word: Text, pos: nat, i: nat)
    ensures First(doc, word, pos, i) <==> Find(doc, word, pos) == At(i)
  {}

  // Past a nested tag, what is nested does not depend on what came before.
  lemma NestedAfter(doc: Text, from: nat, tag: nat, close: nat, x: nat)
    requires from <= tag <= close && First(doc, NESTED, from, tag) && First(doc, CLOSING, tag, close)
    ensures from <= x < tag ==> !Nested(doc, from, x)
    ensures tag <= x <= close ==> Nested(doc, from, x)
    ensures close < x ==> (Nested(doc, from, x) <==> Nested(doc, close + 1, x))
  {
    if tag <= x <= close {
      NotClosed(doc, tag, close);
      assert NoClose(doc, tag, x);
    }
    if close < x {
      assert doc[close..close + 1][0] == 62;
      if t: nat :| from <= t <= x && StartsAt(doc, [60, 104, 112, 58], t) && NoClose(doc, t, x) {
        assert t > close;
      }
    }
  }

  lemma NotClosed(doc: Text, tag: nat, end: nat)
    requires forall j: nat :: tag <= j < end ==> !StartsAt(doc, CLOSING, j)
    ensures NoClose(doc, tag, end)
  {
    forall j: nat | tag <= j < end && j < |doc| ensures doc[j] != 62 {
      assert !StartsAt(doc, CLOSING, j) && doc[j..j + 1] == [doc[j]];
    }
  }

  // The bytes handed out from inside a Hwpx text.
  lemma {:induction false} TextIsExact(doc: Text, pos: nat, to: nat, next: nat, x: nat)
    requires pos <= to < next <= |doc|
    ensures InSpan(SpansFrom(doc, Hwpx, InText(pos, to, next)), x)
       <==> (pos <= x < to && !Nested(doc, pos, x)) || InSpan(SpansFrom(doc, Hwpx, Between(next)), x)
    decreases |doc| - pos
  {
    hide Find; hide SpansFrom; hide Nested; hide InSpan;
    SpansInText(doc, pos, to, next);
    var after := SpansFrom(doc, Hwpx, Between(next));
    var tag := Find(doc, NESTED, pos);
    if pos == to {
    } else if tag.Nowhere? || tag.pos >= to {
      InSpanPlus([Span(pos, to)], after, x);
      InSpanOne(Span(pos, to), x);
      if pos <= x < to { NoNested(doc, pos, x); }
    } else {
      var rest := SpansFrom(doc, Hwpx, AtTag(tag.pos, to, next));
      InSpanPlus(if tag.pos > pos then [Span(pos, tag.pos)] else [], rest, x);
      InSpanOne(Span(pos, tag.pos), x);
      SpansAtTag(doc, tag.pos, to, next);
      var close := Find(doc, CLOSING, tag.pos);
      if pos <= x < tag.pos { NoNested(doc, pos, x); }
      if close.Nowhere? || close.pos >= to {
        if tag.pos <= x < to { NotClosed(doc, tag.pos, x); NestedBy(doc, pos, tag.pos, x); }
      } else {
        TextIsExact(doc, close.pos + 1, to, next, x);
        NestedAfter(doc, pos, tag.pos, close.pos, x);
      }
    }
  }

  lemma NoNested(doc: Text, pos: nat, x: nat)
    requires forall j: nat :: pos <= j <= x ==> !StartsAt(doc, NESTED, j)
    ensures !Nested(doc, pos, x)
  {}

  lemma NestedBy(doc: Text, pos: nat, tag: nat, x: nat)
    requires pos <= tag <= x && StartsAt(doc, NESTED, tag) && NoClose(doc, tag, x)
    ensures Nested(doc, pos, x)
  {}

  // One element more at the front.
  lemma ElementsCons(doc: Text, open: Text, close: Text, pos: nat, e: Span, es: seq<Span>)
    requires First(doc, open, pos, e.a) && First(doc, close, e.a, e.b)
    ensures Elements(doc, open, close, pos, [e] + es) <==> Elements(doc, open, close, e.b + |close|, es)
  {
    hide First;
    assert ([e] + es)[0] == e && ([e] + es)[1..] == es;
  }

  lemma ElementsFirst(doc: Text, open: Text, close: Text, pos: nat, e: Span, es: seq<Span>)
    requires First(doc, open, pos, e.a) && First(doc, close, e.a, e.b) && Elements(doc, open, close, pos, es)
    requires es != []
    ensures es == [e] + es[1..]
  {}

  lemma InLastLater(doc: Text, open: Text, nested: bool, e: Span, es: seq<Span>, x: nat)
    requires es != []
    ensures InLast(doc, open, nested, [e] + es, x) <==> InLast(doc, open, nested, es, x)
  {
    hide Nested;
    assert ([e] + es)[|es|] == es[|es| - 1];
  }

  // With an element next, a byte is in its text or in a later element; with none, in no text.
  lemma NextText(doc: Text, open: Text, close: Text, nested: bool, pos: nat, start: nat, end: nat, x: nat)
    requires First(doc, open, pos, start) && First(doc, close, start, end)
    ensures InElement(doc, open, close, nested, pos, x)
       <==> (start + |open| <= x < end && !(nested && Nested(doc, start + |open|, x)))
            || InElement(doc, open, close, nested, end + |close|, x)
  {
    hide Nested; hide First; hide Elements;
    var e := Span(start, end);
    if start + |open| <= x < end && !(nested && Nested(doc, start + |open|, x)) {
      NoElements(doc, open, close, end + |close|);
      ElementsCons(doc, open, close, pos, e, []);
      assert InLast(doc, open, nested, [e] + [], x);
    }
    hide InLast;
    if es: seq<Span> :| Elements(doc, open, close, end + |close|, es) && InLast(doc, open, nested, es, x) {
      ElementsCons(doc, open, close, pos, e, es);
      NotEmpty(doc, open, nested, es, x);
      InLastLater(doc, open, nested, e, es, x);
    }
    if es: seq<Span> :| Elements(doc, open, close, pos, es) && InLast(doc, open, nested, es, x) {
      NotEmpty(doc, open, nested, es, x);
      ElementsFirst(doc, open, close, pos, e, es);
      ElementsCons(doc, open, close, pos, e, es[1..]);
      if |es| > 1 { InLastLater(doc, open, nested, e, es[1..], x); } else { InOnly(doc, open, nested, e, x); }
    }
  }

  lemma NoElements(doc: Text, open: Text, close: Text, pos: nat)
    ensures Elements(doc, open, close, pos, [])
  {}

  lemma NotEmpty(doc: Text, open: Text, nested: bool, es: seq<Span>, x: nat)
    requires InLast(doc, open, nested, es, x)
    ensures es != []
  {}

  lemma InOnly(doc: Text, open: Text, nested: bool, e: Span, x: nat)
    ensures InLast(doc, open, nested, [e], x)
       <==> e.a + |open| <= x < e.b && !(nested && Nested(doc, e.a + |open|, x))
  {}

  lemma NoText(doc: Text, open: Text, close: Text, nested: bool, pos: nat, x: nat)
    requires forall start: nat, end: nat :: !(First(doc, open, pos, start) && First(doc, close, start, end))
    ensures !InElement(doc, open, close, nested, pos, x)
  {}

  lemma {:induction false} SpansAreText(doc: Text, kind: Kind, pos: nat, x: nat)
    requires pos <= |doc|
    ensures InSpan(SpansFrom(doc, kind, Between(pos)), x)
       <==> InElement(doc, StartTag(kind), EndTag(kind), kind == Hwpx, pos, x)
    decreases |doc| - pos
  {
    hide Find; hide StartTag; hide EndTag; hide SpansFrom; hide InElement; hide InSpan; hide First; hide Nested;
    var start := Find(doc, StartTag(kind), pos);
    var end := if start.At? then Find(doc, EndTag(kind), start.pos) else Nowhere;
    forall i: nat ensures First(doc, StartTag(kind), pos, i) <==> start == At(i) {
      FirstIsFind(doc, StartTag(kind), pos, i);
    }
    if start.At? {
      forall i: nat ensures First(doc, EndTag(kind), start.pos, i) <==> end == At(i) {
        FirstIsFind(doc, EndTag(kind), start.pos, i);
      }
    }
    InSpanOne(Span(0, 0), x);
    if end.Nowhere? {
      NoElement(doc, kind, pos);
      NoText(doc, StartTag(kind), EndTag(kind), kind == Hwpx, pos, x);
    } else {
      var from, next := start.pos + |StartTag(kind)|, end.pos + |EndTag(kind)|;
      SpansBetween(doc, kind, pos, from, end.pos, next);
      SpansAreText(doc, kind, next, x);
      NextText(doc, StartTag(kind), EndTag(kind), kind == Hwpx, pos, start.pos, end.pos, x);
      if kind == Hwpx {
        TextIsExact(doc, from, end.pos, next, x);
      } else {
        InSpanPlus([Span(from, end.pos)], SpansFrom(doc, kind, Between(next)), x);
        InSpanOne(Span(from, end.pos), x);
      }
    }
  }

  // The spans hold the text of every element, and nothing else.
  lemma SpansAreExact(doc: Text, kind: Kind, x: nat)
    ensures InSpan(SpansFrom(doc, kind, Between(0)), x) <==> IsText(doc, kind, x)
  {
    hide InElement; hide InSpan; hide SpansFrom;
    SpansAreText(doc, kind, 0, x);
    match kind
    case Docx => assert EndTag(Docx) == [60, 47, 119, 58, 116, 62];
    case Xlsx => assert EndTag(Xlsx) == [60, 47, 116, 62];
    case Hwpx => assert EndTag(Hwpx) == [60, 47, 104, 112, 58, 116, 62];
  }

  // The spans of a document.
  method SplitDocument(doc: Text, kind: Kind) returns (spans: seq<Span>)
    ensures spans == SpansFrom(doc, kind, Between(0))
    ensures forall x: nat :: InSpan(spans, x) <==> IsText(doc, kind, x)
    ensures forall i, j :: 0 <= i < j < |spans| ==> spans[i].b < spans[j].a
  {
    hide Find; hide StartTag; hide EndTag; hide SpansFrom; hide StartsAt; hide InSpan; hide IsText;
    forall i: nat, j: nat | i < j < |SpansFrom(doc, kind, Between(0))|
      ensures SpansFrom(doc, kind, Between(0))[i].b < SpansFrom(doc, kind, Between(0))[j].a
    {
      SpansApart(doc, kind, Between(0), i, j);
    }
    forall x: nat ensures InSpan(SpansFrom(doc, kind, Between(0)), x) <==> IsText(doc, kind, x) {
      SpansAreExact(doc, kind, x);
    }
    spans := [];
    var pos := 0;
    ghost var all := SpansFrom(doc, kind, Between(0));
    assert spans + all == all;
    while true
      invariant 0 <= pos <= |doc|
      invariant all == spans + SpansFrom(doc, kind, Between(pos))
      decreases |doc| - pos
    {
      assert spans + [] == spans;
      var start := Find(doc, StartTag(kind), pos);
      if start.Nowhere? {
        NoElement(doc, kind, pos);
        return;
      }
      var end := Find(doc, EndTag(kind), start.pos);
      if end.Nowhere? {
        NoElement(doc, kind, pos);
        return;
      }
      var from, next := start.pos + |StartTag(kind)|, end.pos + |EndTag(kind)|;
      SpansBetween(doc, kind, pos, from, end.pos, next);
      if kind == Hwpx {
        var inner := SplitText(doc, from, end.pos, next);
        Append(spans, inner, SpansFrom(doc, kind, Between(next)));
        spans := spans + inner;
      } else {
        Append(spans, [Span(from, end.pos)], SpansFrom(doc, kind, Between(next)));
        spans := spans + [Span(from, end.pos)];
      }
      pos := next;
    }
  }

  // ---------- Tasks beside the splitter ----------

  // The document as it is now, the splitter's place, the spans handed out and the tasks done.
  datatype World = World(doc: Text, place: Place, spans: seq<Span>, done: set<nat>)

  // What a task finds in its span: any function of the task and the text.
  type Hits = (nat, Text) -> set<nat>

  ghost predicate Undone(w: World, j: nat) {
    j < |w.spans| && j !in w.done && w.spans[j].a <= w.spans[j].b <= |w.doc|
  }

  ghost function AfterTask(hits: Hits, w: World, j: nat): World
    requires Undone(w, j)
  {
    var s := w.spans[j];
    w.(doc := StarredPart(w.doc, s.a, s.b, hits(j, w.doc[s.a..s.b])), done := w.done + {j})
  }

  ghost function AfterSplit(kind: Kind, w: World): World {
    var r := Advance(w.doc, kind, w.place);
    w.(place := r.place, spans := w.spans + r.spans)
  }

  // Either the splitter takes a step, or a worker does a task.
  ghost predicate Next(kind: Kind, hits: Hits, w: World, w': World) {
    w' == AfterSplit(kind, w) || exists j: nat :: Undone(w, j) && w' == AfterTask(hits, w, j)
  }

  // The state of a span: as it was, or censored at what the task finds in the original.
  ghost predicate SpanState(orig: Text, hits: Hits, w: World, j: nat)
    requires j < |w.spans| && |w.doc| == |orig|
  {
    var s := w.spans[j];
    s.a <= s.b <= |orig| &&
    w.doc[s.a..s.b] == if j in w.done then Starred(orig[s.a..s.b], hits(j, orig[s.a..s.b])) else orig[s.a..s.b]
  }

  ghost predicate InSpan(spans: seq<Span>, x: nat) {
    exists j :: 0 <= j < |spans| && spans[j].a <= x < spans[j].b
  }

  ghost predicate WorldOk(orig: Text, kind: Kind, hits: Hits, w: World) {
    |w.doc| == |orig| && PlaceOk(orig, w.place) &&
    w.spans + SpansFrom(orig, kind, w.place) == SpansFrom(orig, kind, Between(0)) &&
    (forall j :: 0 <= j < |w.spans| ==> SpanState(orig, hits, w, j) && w.spans[j].b <= w.place.pos) &&
    (forall i, j :: 0 <= i < j < |w.spans| ==> w.spans[i].b <= w.spans[j].a) &&
    forall x :: 0 <= x < |orig| && !InSpan(w.spans, x) ==> w.doc[x] == orig[x]
  }

  lemma SplitKeeps(orig: Text, kind: Kind, hits: Hits, w: World)
    requires WorldOk(orig, kind, hits, w) && forall j :: j in w.done ==> j < |w.spans|
    ensures WorldOk(orig, kind, hits, AfterSplit(kind, w))
  {
    hide Advance;
    assert SameFrom(orig, w.doc, w.place.pos) by {
      forall x | w.place.pos <= x < |orig| ensures orig[x] == w.doc[x] { assert !InSpan(w.spans, x); }
    }
    AdvanceSame(orig, w.doc, kind, w.place);
    AdvanceForward(orig, kind, w.place);
    var r := Advance(orig, kind, w.place);
    var w' := AfterSplit(kind, w);
    assert w'.spans + SpansFrom(orig, kind, w'.place) == SpansFrom(orig, kind, Between(0)) by {
      if w.place.Finished? { FinishedStays(orig, kind, w.place); }
      Append(w.spans, r.spans, SpansFrom(orig, kind, r.place));
    }
    forall j | 0 <= j < |w'.spans| ensures SpanState(orig, hits, w', j) && w'.spans[j].b <= w'.place.pos {
      if j < |w.spans| {
        assert SpanState(orig, hits, w, j);
      } else {
        var s := r.spans[j - |w.spans|];
        assert w.doc[s.a..s.b] == orig[s.a..s.b];
      }
    }
    forall x | 0 <= x < |orig| && !InSpan(w'.spans, x) ensures w'.doc[x] == orig[x] {
      assert !InSpan(w.spans, x) by {
        MoreSpans(w.spans, r.spans, x);
      }
    }
  }

  lemma MoreSpans(spans: seq<Span>, more: seq<Span>, x: nat)
    ensures InSpan(spans, x) ==> InSpan(spans + more, x)
  {
    if j :| 0 <= j < |spans| && spans[j].a <= x < spans[j].b {
      assert (spans + more)[j] == spans[j];
    }
  }

  lemma FinishedStays(doc: Text, kind: Kind, place: Place)
    requires place.Finished? && PlaceOk(doc, place)
    ensures Advance(doc, kind, place) == Step(place, []) && SpansFrom(doc, kind, place) == []
  {}

  lemma TaskKeeps(orig: Text, kind: Kind, hits: Hits, w: World, j: nat)
    requires WorldOk(orig, kind, hits, w) && Undone(w, j)
    ensures WorldOk(orig, kind, hits, AfterTask(hits, w, j))
  {
    hide SpansFrom; hide SpanState; hide StarredPart;
    var w', s := AfterTask(hits, w, j), w.spans[j];
    StarredSize(w.doc, s.a, s.b, hits(j, w.doc[s.a..s.b]));
    forall i | 0 <= i < |w'.spans| ensures SpanState(orig, hits, w', i) && w'.spans[i].b <= w'.place.pos {
      assert SpanState(orig, hits, w, i);
      if i == j {
        TaskDone(orig, hits, w, j);
      } else {
        TaskElsewhere(orig, hits, w, j, i);
      }
    }
    forall x | 0 <= x < |orig| && !InSpan(w'.spans, x) ensures w'.doc[x] == orig[x] {
      assert !(s.a <= x < s.b);
    }
  }

  lemma StarredSize(t: Text, a: nat, b: nat, bytes: set<nat>)
    requires a <= b <= |t|
    ensures |StarredPart(t, a, b, bytes)| == |t|
    ensures forall x :: 0 <= x < |t| && !(a <= x < b) ==> StarredPart(t, a, b, bytes)[x] == t[x]
  {}

  // A task censors its own span.
  lemma TaskDone(orig: Text, hits: Hits, w: World, j: nat)
    requires |w.doc| == |orig| && Undone(w, j) && SpanState(orig, hits, w, j) && |AfterTask(hits, w, j).doc| == |orig|
    ensures SpanState(orig, hits, AfterTask(hits, w, j), j)
  {
    var s := w.spans[j];
    var t := w.doc[s.a..s.b];
    assert AfterTask(hits, w, j).doc[s.a..s.b] == Starred(t, hits(j, t));
  }

  // And leaves the others alone.
  lemma TaskElsewhere(orig: Text, hits: Hits, w: World, j: nat, i: nat)
    requires |w.doc| == |orig| && Undone(w, j) && i < |w.spans| && i != j && SpanState(orig, hits, w, i)
    requires |AfterTask(hits, w, j).doc| == |orig|
    requires if i < j then w.spans[i].b <= w.spans[j].a else w.spans[j].b <= w.spans[i].a
    ensures SpanState(orig, hits, AfterTask(hits, w, j), i)
  {
    var w', t := AfterTask(hits, w, j), w.spans[i];
    assert w'.doc[t.a..t.b] == w.doc[t.a..t.b];
  }

  // A run from the untouched document.
  ghost predicate Run(orig: Text, kind: Kind, hits: Hits, run: seq<World>) {
    |run| > 0 && run[0] == World(orig, Between(0), [], {}) &&
    forall i :: 0 < i < |run| ==> Next(kind, hits, run[i - 1], run[i])
  }

  lemma {:induction false} RunKeeps(orig: Text, kind: Kind, hits: Hits, run: seq<World>, i: nat)
    requires Run(orig, kind, hits, run) && i < |run|
    ensures WorldOk(orig, kind, hits, run[i]) && forall j :: j in run[i].done ==> j < |run[i].spans|
  {
    hide WorldOk; hide Advance; hide SpansFrom; hide StarredPart;
    if i == 0 {
      StartOk(orig, kind, hits);
    } else {
      RunKeeps(orig, kind, hits, run, i - 1);
      var w := run[i - 1];
      assert Next(kind, hits, w, run[i]);
      if run[i] == AfterSplit(kind, w) {
        SplitKeeps(orig, kind, hits, w);
      } else {
        var j: nat :| Undone(w, j) && run[i] == AfterTask(hits, w, j);
        TaskKeeps(orig, kind, hits, w, j);
      }
    }
  }

  lemma StartOk(orig: Text, kind: Kind, hits: Hits)
    ensures WorldOk(orig, kind, hits, World(orig, Between(0), [], {}))
  {
    assert [] + SpansFrom(orig, kind, Between(0)) == SpansFrom(orig, kind, Between(0));
  }

  // Byte x after every task has run on its own span of the original document.
  ghost predicate CensoredByte(orig: Text, kind: Kind, hits: Hits, doc: Text, x: nat)
    requires |doc| == |orig| && x < |orig|
  {
    var spans := SpansFrom(orig, kind, Between(0));
    (!InSpan(spans, x) ==> doc[x] == orig[x]) &&
    forall j :: 0 <= j < |spans| && spans[j].a <= x < spans[j].b <= |orig| ==>
      doc[x] == if x - spans[j].a in hits(j, orig[spans[j].a..spans[j].b]) then STAR else orig[x]
  }

  // However the splitter and the tasks take turns, and in whatever order the tasks run, the
  // document ends up the same: each span censored by itself, everything else untouched.
  lemma AnyOrder(orig: Text, kind: Kind, hits: Hits, run: seq<World>)
    requires Run(orig, kind, hits, run)
    requires var w := run[|run| - 1]; w.place.Finished? && forall j :: 0 <= j < |w.spans| ==> j in w.done
    ensures var w := run[|run| - 1];
            w.spans == SpansFrom(orig, kind, Between(0)) && |w.doc| == |orig| &&
            forall x :: 0 <= x < |orig| ==> CensoredByte(orig, kind, hits, w.doc, x)
  {
    hide Advance; hide SpansFrom; hide CensoredByte; hide WorldOk;
    RunKeeps(orig, kind, hits, run, |run| - 1);
    WorldDone(orig, kind, hits, run[|run| - 1]);
  }

  lemma WorldDone(orig: Text, kind: Kind, hits: Hits, w: World)
    requires WorldOk(orig, kind, hits, w) && w.place.Finished? && forall j :: 0 <= j < |w.spans| ==> j in w.done
    ensures w.spans == SpansFrom(orig, kind, Between(0)) && |w.doc| == |orig|
    ensures forall x :: 0 <= x < |orig| ==> CensoredByte(orig, kind, hits, w.doc, x)
  {
    hide Advance; hide SpansFrom; hide SpanState; hide Starred;
    FinishedStays(orig, kind, w.place);
    assert w.spans + [] == w.spans;
    forall x | 0 <= x < |orig| ensures CensoredByte(orig, kind, hits, w.doc, x) {
      forall j | 0 <= j < |w.spans| && w.spans[j].a <= x < w.spans[j].b <= |orig|
        ensures w.doc[x] == if x - w.spans[j].a in hits(j, orig[w.spans[j].a..w.spans[j].b]) then STAR else orig[x]
      {
        DoneByte(orig, hits, w, j, x);
      }
    }
  }

  lemma DoneByte(orig: Text, hits: Hits, w: World, j: nat, x: nat)
    requires j < |w.spans| && |w.doc| == |orig| && SpanState(orig, hits, w, j) && j in w.done
    requires w.spans[j].a <= x < w.spans[j].b <= |orig|
    ensures w.doc[x] == if x - w.spans[j].a in hits(j, orig[w.spans[j].a..w.spans[j].b]) then 42 else orig[x]
  {
    var s := w.spans[j];
    assert w.doc[x] == w.doc[s.a..s.b][x - s.a] && orig[x] == orig[s.a..s.b][x - s.a];
  }

  // Two complete runs end with the same document.
  lemma SameResult(orig: Text, kind: Kind, hits: Hits, run: seq<World>, run': seq<World>)
    requires Run(orig, kind, hits, run) && Run(orig, kind, hits, run')
    requires var w := run[|run| - 1]; w.place.Finished? && forall j :: 0 <= j < |w.spans| ==> j in w.done
    requires var w := run'[|run'| - 1]; w.place.Finished? && forall j :: 0 <= j < |w.spans| ==> j in w.done
    ensures run[|run| - 1].doc == run'[|run'| - 1].doc
  {
    hide Advance; hide SpansFrom;
    AnyOrder(orig, kind, hits, run);
    AnyOrder(orig, kind, hits, run');
    var doc, doc', spans := run[|run| - 1].doc, run'[|run'| - 1].doc, SpansFrom(orig, kind, Between(0));
    RunKeeps(orig, kind, hits, run, |run| - 1);
    forall x | 0 <= x < |orig| ensures doc[x] == doc'[x] {
      assert CensoredByte(orig, kind, hits, doc, x) && CensoredByte(orig, kind, hits, doc', x);
      if InSpan(spans, x) {
        var j :| 0 <= j < |spans| && spans[j].a <= x < spans[j].b;
        assert SpanState(orig, hits, run[|run| - 1], j);
      }
    }
  }

  // ---------- Whole characters ----------

  // All bytes of a longer character have the top bit.
  lemma LongCharacter(t: Text, k: nat)
    requires WellFormed(t) && t != [] && k < CharLength(t[0]) && CharLength(t[0]) > 1
    ensures k < |t| && t[k] >= 0x80
  {
    TextTail(t, false);
    hide WellFormed; hide CharLength;
    var c := t[..CharLength(t[0])];
    LongBytes(c, k);
    assert c[k] == t[k];
  }

  lemma LongBytes(c: Text, k: nat)
    requires GoodChar(c) && |c| > 1 && k < |c|
    ensures c[k] >= 0x80
  {}

  // Text is well formed after a seven-bit character.
  lemma TailOfTail(t: Text, w: nat, x: nat)
    requires w <= x <= |t|
    ensures t[w..][x - w..] == t[x..]
  {}

  lemma {:induction false} AfterSevenBit(t: Text, x: nat)
    requires WellFormed(t) && x <= |t| && (x > 0 ==> t[x - 1] < 0x80)
    ensures WellFormed(t[x..])
    decreases |t|
  {
    hide WellFormed; hide CharLength; hide GoodChar;
    if x == 0 {
      assert t[0..] == t;
    } else {
      var w := CharLength(t[0]);
      TextTail(t, false);
      if w > 1 && x - 1 < w { LongCharacter(t, x - 1); }
      AfterSevenBit(t[w..], x - w);
      TailOfTail(t, w, x);
    }
  }

  // And before one.
  lemma {:induction false} BeforeSevenBit(t: Text, y: nat)
    requires WellFormed(t) && y < |t| && t[y] < 0x80
    ensures WellFormed(t[..y])
    decreases |t|
  {
    hide CharLength; hide GoodChar;
    if y > 0 {
      var w := CharLength(t[0]);
      TextTail(t, false);
      if w > 1 && y < w { LongCharacter(t, y); }
      BeforeSevenBit(t[w..], y - w);
      assert t[..y][w..] == t[w..][..y - w] && t[..y][..w] == t[..w];
      CharBefore(t[..y], w);
    }
  }

  // Before a span comes a closing bracket, and after it an opening one.
  lemma SpanBetweenBrackets(doc: Text, kind: Kind, span: Span)
    requires SpanIn(doc, kind, span)
    ensures 0 < span.a <= span.b < |doc| && doc[span.a - 1] == CLOSE && doc[span.b] == OPEN
  {
    hide Find; hide StartTag; hide StartsAt;
    var start: nat, end: nat :| SpanInElement(doc, kind, start, end, span);
    ClosesWith(doc, kind, start);
  }

  lemma ClosesWith(doc: Text, kind: Kind, start: nat)
    requires StartsAt(doc, StartTag(kind), start)
    ensures var n := |StartTag(kind)|; 0 < n && start + n <= |doc| && doc[start + n - 1] == CLOSE
  {
    var n := |StartTag(kind)|;
    assert doc[start..start + n][n - 1] == doc[start + n - 1];
  }

  // The spans of a well-formed document are well-formed text.
  lemma SpanWellFormed(doc: Text, kind: Kind, span: Span)
    requires WellFormed(doc) && SpanIn(doc, kind, span)
    ensures span.a <= span.b <= |doc| && WellFormed(doc[span.a..span.b])
  {
    hide WellFormed; hide SpanIn;
    SpanBetweenBrackets(doc, kind, span);
    AfterSevenBit(doc, span.a);
    var rest := doc[span.a..];
    assert rest[span.b - span.a] == OPEN;
    BeforeSevenBit(rest, span.b - span.a);
    assert rest[..span.b - span.a] == doc[span.a..span.b];
  }

  lemma SpanOfRun(orig: Text, kind: Kind, hits: Hits, run: seq<World>, j: nat)
    requires Run(orig, kind, hits, run) && j < |run[|run| - 1].spans|
    ensures SpanIn(orig, kind, run[|run| - 1].spans[j])
  {
    hide Advance; hide SpansFrom; hide SpanIn;
    RunKeeps(orig, kind, hits, run, |run| - 1);
    var w := run[|run| - 1];
    var all := SpansFrom(orig, kind, Between(0));
    assert all[j] == w.spans[j];
    SpansInside(orig, kind, Between(0), j);
  }

  // If a task catches what the patterns cover in the text of its span, none of them is left there.
  lemma NoPatternInSpan(orig: Text, kind: Kind, hits: Hits, run: seq<World>, patterns: seq<Text>, fold: bool,
                        j: nat, i: nat, k: nat)
    requires Run(orig, kind, hits, run) && j < |run[|run| - 1].spans| && j in run[|run| - 1].done
    requires var s := run[|run| - 1].spans[j];
             s.a <= s.b <= |orig| ==> Catches(patterns, orig[s.a..s.b], fold, hits(j, orig[s.a..s.b]))
    requires i < |patterns| && patterns[i] != [] && STAR !in patterns[i]
    ensures var w := run[|run| - 1];
            var s := w.spans[j];
            s.a <= s.b <= |w.doc| && !OccursAt(patterns[i], w.doc[s.a..s.b], k, fold)
  {
    hide Advance; hide SpansFrom; hide Catches; hide OccursAt;
    RunKeeps(orig, kind, hits, run, |run| - 1);
    var w := run[|run| - 1];
    assert SpanState(orig, hits, w, j);
    var s := w.spans[j];
    NoneLeft(patterns, orig[s.a..s.b], fold, hits(j, orig[s.a..s.b]), i, k);
  }

  // In a well-formed document it is enough that the tasks do so for well-formed text.
  lemma NoPatternLeft(orig: Text, kind: Kind, hits: Hits, run: seq<World>, patterns: seq<Text>, fold: bool,
                      j: nat, i: nat, k: nat)
    requires WellFormed(orig) && Run(orig, kind, hits, run)
    requires j < |run[|run| - 1].spans| && j in run[|run| - 1].done
    requires forall t :: CatchesText(patterns, t, fold, hits(j, t))
    requires i < |patterns| && patterns[i] != [] && STAR !in patterns[i]
    ensures var w := run[|run| - 1];
            var s := w.spans[j];
            s.a <= s.b <= |w.doc| && !OccursAt(patterns[i], w.doc[s.a..s.b], k, fold)
  {
    hide Next; hide Catches; hide OccursAt; hide SpanIn; hide SpanState; hide WellFormed;
    var s := run[|run| - 1].spans[j];
    SpanOfRun(orig, kind, hits, run, j);
    SpanWellFormed(orig, kind, s);
    assert CatchesText(patterns, orig[s.a..s.b], fold, hits(j, orig[s.a..s.b]));
    NoPatternInSpan(orig, kind, hits, run, patterns, fold, j, i, k);
  }
}
