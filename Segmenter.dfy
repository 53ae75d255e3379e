/** `separate_components` (gspan/parser.py, lines 87-111; parser/__init__.py,
    lines 96-120): one pass over the body's blocks with an "inside an
    annotation" flag and an accumulator. A start marker opens a span and
    empties the accumulator, an end marker closes the span and emits the
    accumulator as an annotation, and every other block is accumulated inside
    a span and emitted as a transcript segment outside one. */
module Segmenter {
  import opened Scans
  import opened Patterns
  import opened Document

  /** An entry of the list `separate_components` returns: a transcript
      segment holding one block, or an annotation holding the blocks of a
      span. */
  datatype Segment = Transcript(content: Block) | Annotation(contents: seq<Block>)

  /** The loop's variables: `inside_annotation`, `annotation_contents` and
      `result`. */
  datatype SegState = SegState(inside: bool, acc: seq<Block>, out: seq<Segment>)

  predicate IsStart(b: Block) {
    IsAnnoStartMarker(b.text)
  }

  predicate IsEnd(b: Block) {
    IsAnnoEndMarker(b.text)
  }

  predicate IsMarker(b: Block) {
    IsStart(b) || IsEnd(b)
  }

  /** One turn of the loop. The accumulator is a fresh list after every start
      marker and is never added to once emitted, so emitting it by value is
      the same as emitting the shared list. */
  function SegStep(st: SegState, b: Block): SegState {
    if IsStart(b) then SegState(true, [], st.out)
    else if IsEnd(b) then SegState(false, st.acc, st.out + [Annotation(st.acc)])
    else if st.inside then SegState(true, st.acc + [b], st.out)
    else SegState(false, st.acc, st.out + [Transcript(b)])
  }

  const Initial := SegState(false, [], [])

  /** The loop's variables after the blocks `bs`. */
  function Walk(bs: seq<Block>): SegState {
    Scan(SegStep, Initial, bs)
  }

  /** What `separate_components` returns for the blocks `bs`. */
  function Segments(bs: seq<Block>): seq<Segment> {
    Walk(bs).out
  }

  method SeparateComponents(body: seq<Block>) returns (result: seq<Segment>)
    ensures result == Segments(body)
  {
    result := [];
    var inside := false;
    var contents: seq<Block> := [];
    for k := 0 to |body|
      invariant SegState(inside, contents, result) == Walk(body[..k])
    {
      var child := body[k];
      ScanSnoc(SegStep, Initial, body[..k], child);
      assert body[..k + 1] == body[..k] + [child];
      if IsStart(child) {
        inside := true;
        contents := [];
      } else if IsEnd(child) {
        inside := false;
        result := result + [Annotation(contents)];
      } else if inside {
        contents := contents + [child];
      } else {
        result := result + [Transcript(child)];
      }
    }
    assert body[..|body|] == body;
  }

  // ---------------------------------------------------------------------
  // Markers are never stored

  predicate NoMarker(bs: seq<Block>) {
    forall i :: 0 <= i < |bs| ==> !IsMarker(bs[i])
  }

  predicate SegmentClean(s: Segment) {
    match s
    case Transcript(b) => !IsMarker(b)
    case Annotation(cs) => NoMarker(cs)
  }

  predicate StateClean(st: SegState) {
    NoMarker(st.acc) && forall j :: 0 <= j < |st.out| ==> SegmentClean(st.out[j])
  }

  lemma StepClean(st: SegState, b: Block)
    requires StateClean(st)
    ensures StateClean(SegStep(st, b))
  {
    if !IsStart(b) && !IsEnd(b) && !st.inside {
      var out' := st.out + [Transcript(b)];
      assert forall j :: 0 <= j < |st.out| ==> out'[j] == st.out[j];
    }
  }

  /** No start or end marker is ever accumulated or emitted. */
  lemma {:induction false} MarkersNeverStored(bs: seq<Block>)
    ensures StateClean(Walk(bs))
    decreases |bs|
  {
    if bs != [] {
      var init := bs[..|bs| - 1];
      MarkersNeverStored(init);
      StepClean(Walk(init), bs[|bs| - 1]);
    }
  }

  // ---------------------------------------------------------------------
  // One annotation per end marker

  function CountEnds(bs: seq<Block>): nat {
    if bs == [] then 0 else CountEnds(bs[..|bs| - 1]) + (if IsEnd(bs[|bs| - 1]) then 1 else 0)
  }

  function CountAnnotations(segs: seq<Segment>): nat {
    if segs == [] then 0
    else CountAnnotations(segs[..|segs| - 1]) + (if segs[|segs| - 1].Annotation? then 1 else 0)
  }

  /** Every end marker emits exactly one annotation, whether or not a span
      is open, and nothing else emits one. */
  lemma {:induction false} AnnotationPerEndMarker(bs: seq<Block>)
    ensures CountAnnotations(Segments(bs)) == CountEnds(bs)
    decreases |bs|
  {
    if bs != [] {
      var init := bs[..|bs| - 1];
      var b := bs[|bs| - 1];
      AnnotationPerEndMarker(init);
      MarkersDisjoint(b.text);
      var out := Segments(init);
      var out' := Segments(bs);
      if out' != out {
        assert out'[..|out'| - 1] == out;
      }
    }
  }

  // ---------------------------------------------------------------------
  // Which blocks become transcript segments

  predicate NoEnd(bs: seq<Block>) {
    forall i :: 0 <= i < |bs| ==> !IsEnd(bs[i])
  }

  /** After `bs` a span is open: some start marker has no end marker after
      it. */
  ghost predicate Opened(bs: seq<Block>) {
    exists i :: OpenAt(bs, i)
  }

  /** The start marker at `i` has no end marker after it. */
  ghost predicate OpenAt(bs: seq<Block>, i: int) {
    0 <= i < |bs| && IsStart(bs[i]) && NoEnd(bs[i + 1..])
  }

  lemma OpenedAfterStart(init: seq<Block>, b: Block)
    requires IsStart(b)
    ensures Opened(init + [b])
  {
    var bs := init + [b];
    assert bs[|init| + 1..] == [];
    assert OpenAt(bs, |init|);
  }

  lemma NoEndSnoc(xs: seq<Block>, b: Block)
    ensures NoEnd(xs + [b]) <==> NoEnd(xs) && !IsEnd(b)
  {
    assert (xs + [b])[|xs|] == b;
    assert forall k :: 0 <= k < |xs| ==> (xs + [b])[k] == xs[k];
  }

  /** A start marker before the last block stays open exactly when the last
      block is not an end marker. */
  lemma OpenAtSnoc(init: seq<Block>, b: Block, i: int)
    requires 0 <= i < |init|
    ensures OpenAt(init + [b], i) <==> OpenAt(init, i) && !IsEnd(b)
  {
    var bs := init + [b];
    assert bs[i] == init[i];
    assert bs[i + 1..] == init[i + 1..] + [b];
    NoEndSnoc(init[i + 1..], b);
  }

  lemma ClosedAfterEnd(init: seq<Block>, b: Block)
    requires IsEnd(b)
    ensures !Opened(init + [b])
  {
    var bs := init + [b];
    if Opened(bs) {
      var i :| OpenAt(bs, i);
      if i == |init| {
        MarkersDisjoint(b.text);
      } else {
        OpenAtSnoc(init, b, i);
      }
    }
  }

  lemma OpenedAfterOther(init: seq<Block>, b: Block)
    requires !IsMarker(b)
    ensures Opened(init + [b]) <==> Opened(init)
  {
    var bs := init + [b];
    if Opened(bs) {
      var i :| OpenAt(bs, i);
      if i < |init| {
        OpenAtSnoc(init, b, i);
      }
    }
    if Opened(init) {
      var i :| OpenAt(init, i);
      OpenAtSnoc(init, b, i);
    }
  }

  /** The flag `inside_annotation` says exactly whether a span is open. */
  lemma {:induction false} InsideIffOpened(bs: seq<Block>)
    ensures Walk(bs).inside <==> Opened(bs)
    decreases |bs|
  {
    if bs != [] {
      var n := |bs| - 1;
      var init, b := bs[..n], bs[n];
      InsideIffOpened(init);
      assert bs == init + [b];
      if IsStart(b) {
        OpenedAfterStart(init, b);
      } else if IsEnd(b) {
        ClosedAfterEnd(init, b);
      } else {
        OpenedAfterOther(init, b);
      }
    }
  }

  /** The blocks that are neither markers nor inside an open span, in order. */
  ghost function Outside(bs: seq<Block>): seq<Block> {
    if bs == [] then []
    else
      var init, b := bs[..|bs| - 1], bs[|bs| - 1];
      Outside(init) + (if !IsMarker(b) && !Opened(init) then [b] else [])
  }

  function Transcripts(segs: seq<Segment>): seq<Block> {
    if segs == [] then []
    else
      var last := segs[|segs| - 1];
      Transcripts(segs[..|segs| - 1]) + (if last.Transcript? then [last.content] else [])
  }

  /** Every block that is not a marker and stands outside an open span
      becomes exactly one transcript segment, in source order, and no other
      block does. */
  lemma {:induction false} TranscriptsAreOutside(bs: seq<Block>)
    ensures Transcripts(Segments(bs)) == Outside(bs)
    decreases |bs|
  {
    if bs != [] {
      var init := bs[..|bs| - 1];
      TranscriptsAreOutside(init);
      InsideIffOpened(init);
      var out := Segments(init);
      var out' := Segments(bs);
      if out' != out {
        assert out'[..|out'| - 1] == out;
      }
    }
  }

  // ---------------------------------------------------------------------
  // Spans

  /** Inside a span, blocks that are not markers are only accumulated. */
  lemma {:induction false} AccumulateInside(st: SegState, body: seq<Block>)
    requires st.inside && NoMarker(body)
    ensures Scan(SegStep, st, body) == SegState(true, st.acc + body, st.out)
    decreases |body|
  {
    if body == [] {
      assert st.acc + body == st.acc;
    } else {
      var init := body[..|body| - 1];
      AccumulateInside(st, init);
      assert st.acc + init + [body[|body| - 1]] == st.acc + body;
    }
  }

  /** A span closed by an end marker emits one annotation holding exactly the
      blocks between the two markers. */
  lemma ClosedSpan(pre: seq<Block>, s: Block, body: seq<Block>, e: Block)
    requires IsStart(s) && IsEnd(e) && NoMarker(body)
    ensures Segments(pre + [s] + body + [e]) == Segments(pre) + [Annotation(body)]
    ensures !Walk(pre + [s] + body + [e]).inside && Walk(pre + [s] + body + [e]).acc == body
  {
    var open := SegState(true, [], Walk(pre).out);
    MarkersDisjoint(e.text);
    ScanAppend(SegStep, Initial, pre + [s], body + [e]);
    ScanSnoc(SegStep, Initial, pre, s);
    ScanSnoc(SegStep, Walk(pre + [s]), body, e);
    AccumulateInside(open, body);
    assert pre + [s] + body + [e] == (pre + [s]) + (body + [e]);
    assert [] + body == body;
  }

  /** Inside a span, nothing is emitted until an end marker comes. */
  lemma {:induction false} SilentInside(st: SegState, rest: seq<Block>)
    requires st.inside && NoEnd(rest)
    ensures Scan(SegStep, st, rest).inside && Scan(SegStep, st, rest).out == st.out
    decreases |rest|
  {
    if rest != [] {
      SilentInside(st, rest[..|rest| - 1]);
    }
  }

  /** Nothing is emitted after the loop: a span that is never closed leaves
      all its blocks out of the result. */
  lemma UnclosedSpanDropped(pre: seq<Block>, rest: seq<Block>)
    requires Opened(pre) && NoEnd(rest)
    ensures Segments(pre + rest) == Segments(pre)
  {
    InsideIffOpened(pre);
    ScanAppend(SegStep, Initial, pre, rest);
    SilentInside(Walk(pre), rest);
  }

  predicate NoStart(bs: seq<Block>) {
    forall i :: 0 <= i < |bs| ==> !IsStart(bs[i])
  }

  lemma {:induction false} NothingAccumulatedBeforeStart(bs: seq<Block>)
    requires NoStart(bs)
    ensures !Walk(bs).inside && Walk(bs).acc == []
    decreases |bs|
  {
    if bs != [] {
      NothingAccumulatedBeforeStart(bs[..|bs| - 1]);
    }
  }

  /** An end marker with no start marker before it still emits an
      annotation, an empty one. */
  lemma StrayEndMarker(bs: seq<Block>, e: Block)
    requires NoStart(bs) && IsEnd(e)
    ensures Segments(bs + [e]) == Segments(bs) + [Annotation([])]
  {
    NothingAccumulatedBeforeStart(bs);
    MarkersDisjoint(e.text);
    ScanSnoc(SegStep, Initial, bs, e);
  }

  /** Two end markers in a row emit the same annotation twice: the second
      re-emits the accumulator the first left behind. */
  lemma RepeatedEndMarker(bs: seq<Block>, e1: Block, e2: Block)
    requires IsEnd(e1) && IsEnd(e2)
    ensures var s := Segments(bs + [e1, e2]);
      |s| == |Segments(bs)| + 2 && s[|s| - 1] == s[|s| - 2] && s[|s| - 1].Annotation?
  {
    ScanSnoc(SegStep, Initial, bs, e1);
    ScanSnoc(SegStep, Initial, bs + [e1], e2);
    MarkersDisjoint(e1.text);
    MarkersDisjoint(e2.text);
    assert bs + [e1, e2] == bs + [e1] + [e2];
  }

  /** Outside a span, blocks without markers leave the accumulator alone:
      each becomes a transcript segment of its own. */
  lemma {:induction false} OutsideKeepsAcc(st: SegState, mid: seq<Block>)
    requires !st.inside && NoMarker(mid)
    ensures !Scan(SegStep, st, mid).inside && Scan(SegStep, st, mid).acc == st.acc
    ensures Scan(SegStep, st, mid).out == st.out + seq(|mid|, i requires 0 <= i < |mid| => Transcript(mid[i]))
    decreases |mid|
  {
    if mid != [] {
      var init := mid[..|mid| - 1];
      assert NoMarker(init) by {
        forall i | 0 <= i < |init| ensures !IsMarker(init[i]) {
          assert init[i] == mid[i];
        }
      }
      OutsideKeepsAcc(st, init);
      assert mid == init + [mid[|mid| - 1]];
      ScanSnoc(SegStep, st, init, mid[|mid| - 1]);
    }
  }

  /** An end marker that follows a closed span, with only transcript blocks
      between, emits that span's blocks a second time: the accumulator is
      not cleared when a span closes. */
  lemma StrayAfterClosed(pre: seq<Block>, s: Block, body: seq<Block>, e: Block, mid: seq<Block>, e2: Block)
    requires IsStart(s) && IsEnd(e) && NoMarker(body) && NoMarker(mid) && IsEnd(e2)
    ensures var segs := Segments(pre + [s] + body + [e] + mid + [e2]);
      |segs| > 0 && segs[|segs| - 1] == Annotation(body)
  {
    var front := pre + [s] + body + [e];
    ClosedSpan(pre, s, body, e);
    MarkersDisjoint(e2.text);
    ScanAppend(SegStep, Initial, front, mid);
    OutsideKeepsAcc(Walk(front), mid);
    ScanSnoc(SegStep, Initial, front + mid, e2);
  }
}
