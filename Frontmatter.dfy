/** The frontmatter split inside `parse_raw_contents` (gspan/parser.py,
    lines 124-138; parser/__init__.py, lines 130-144): a counter of `---`
    delimiter blocks routes every other block of an annotation. Before the
    first delimiter a block is dropped, between the first and the second it
    is metadata, after the second it is content. */
module Frontmatter {
  import opened Scans
  import opened Patterns
  import opened Document

  /** The loop's variables: `marker_counter`, `raw_metadata`, `raw_contents`. */
  datatype FmState = FmState(markers: nat, meta: seq<Block>, contents: seq<Block>)

  predicate IsDelimiter(b: Block) {
    IsFrontmatterMarker(b.text)
  }

  function FmStep(st: FmState, b: Block): FmState {
    if IsDelimiter(b) then FmState(st.markers + 1, st.meta, st.contents)
    else if st.markers == 0 then st
    else if st.markers == 1 then FmState(st.markers, st.meta + [b], st.contents)
    else FmState(st.markers, st.meta, st.contents + [b])
  }

  const Unsplit := FmState(0, [], [])

  /** The loop's variables after the blocks `bs`. */
  function Split(bs: seq<Block>): FmState {
    Scan(FmStep, Unsplit, bs)
  }

  /** The routing loop of `parse_raw_contents`, over the blocks of one
      annotation. */
  method SplitFrontmatter(blocks: seq<Block>) returns (rawMetadata: seq<Block>, rawContents: seq<Block>)
    ensures rawMetadata == Split(blocks).meta && rawContents == Split(blocks).contents
  {
    var markerCounter: nat := 0;
    rawMetadata, rawContents := [], [];
    for k := 0 to |blocks|
      invariant FmState(markerCounter, rawMetadata, rawContents) == Split(blocks[..k])
    {
      var tag := blocks[k];
      ScanSnoc(FmStep, Unsplit, blocks[..k], tag);
      assert blocks[..k + 1] == blocks[..k] + [tag];
      if IsFrontmatterMarker(tag.text) {
        markerCounter := markerCounter + 1;
      } else if markerCounter == 0 {
      } else if markerCounter == 1 {
        rawMetadata := rawMetadata + [tag];
      } else {
        rawContents := rawContents + [tag];
      }
    }
    assert blocks[..|blocks|] == blocks;
  }

  predicate NoDelimiter(bs: seq<Block>) {
    forall i :: 0 <= i < |bs| ==> !IsDelimiter(bs[i])
  }

  /** The blocks of `bs` that are not delimiters, in order. */
  function NonDelimiters(bs: seq<Block>): (r: seq<Block>)
    ensures NoDelimiter(r)
  {
    if bs == [] then []
    else
      var b := bs[|bs| - 1];
      NonDelimiters(bs[..|bs| - 1]) + (if IsDelimiter(b) then [] else [b])
  }

  function CountDelimiters(bs: seq<Block>): nat {
    if bs == [] then 0
    else CountDelimiters(bs[..|bs| - 1]) + (if IsDelimiter(bs[|bs| - 1]) then 1 else 0)
  }

  /** The counter counts the delimiters seen. */
  lemma {:induction false} CounterCountsDelimiters(bs: seq<Block>)
    ensures Split(bs).markers == CountDelimiters(bs)
    decreases |bs|
  {
    if bs != [] {
      CounterCountsDelimiters(bs[..|bs| - 1]);
    }
  }

  /** Delimiter blocks are never stored, in the metadata or in the content. */
  lemma {:induction false} DelimitersNeverStored(bs: seq<Block>)
    ensures NoDelimiter(Split(bs).meta) && NoDelimiter(Split(bs).contents)
    decreases |bs|
  {
    if bs != [] {
      var init, b := bs[..|bs| - 1], bs[|bs| - 1];
      DelimitersNeverStored(init);
      var st := Split(init);
      if !IsDelimiter(b) && st.markers == 1 {
        assert forall k :: 0 <= k < |st.meta| ==> (st.meta + [b])[k] == st.meta[k];
      } else if !IsDelimiter(b) && st.markers > 1 {
        assert forall k :: 0 <= k < |st.contents| ==> (st.contents + [b])[k] == st.contents[k];
      }
    }
  }

  /** Before the first delimiter, blocks are dropped. */
  lemma {:induction false} DroppedBeforeFirst(st: FmState, xs: seq<Block>)
    requires st.markers == 0 && NoDelimiter(xs)
    ensures Scan(FmStep, st, xs) == st
    decreases |xs|
  {
    if xs != [] {
      DroppedBeforeFirst(st, xs[..|xs| - 1]);
    }
  }

  /** Between the first and the second delimiter, blocks are metadata. */
  lemma {:induction false} MetadataAfterFirst(st: FmState, xs: seq<Block>)
    requires st.markers == 1 && NoDelimiter(xs)
    ensures Scan(FmStep, st, xs) == FmState(1, st.meta + xs, st.contents)
    decreases |xs|
  {
    if xs == [] {
      assert st.meta + xs == st.meta;
    } else {
      var init := xs[..|xs| - 1];
      MetadataAfterFirst(st, init);
      assert st.meta + init + [xs[|xs| - 1]] == st.meta + xs;
    }
  }

  /** After the second delimiter, every block but a delimiter is content. */
  lemma {:induction false} ContentAfterSecond(st: FmState, xs: seq<Block>)
    requires st.markers >= 2
    ensures Scan(FmStep, st, xs).meta == st.meta
    ensures Scan(FmStep, st, xs).contents == st.contents + NonDelimiters(xs)
    ensures Scan(FmStep, st, xs).markers >= 2
    decreases |xs|
  {
    if xs == [] {
      assert st.contents + [] == st.contents;
    } else {
      var init := xs[..|xs| - 1];
      ContentAfterSecond(st, init);
      assert st.contents + NonDelimiters(init) + [xs[|xs| - 1]] == st.contents + (NonDelimiters(init) + [xs[|xs| - 1]]);
    }
  }

  /** Without a delimiter, an annotation has no metadata and no content. */
  lemma NoDelimiterNothingStored(bs: seq<Block>)
    requires NoDelimiter(bs)
    ensures Split(bs).meta == [] && Split(bs).contents == []
  {
    DroppedBeforeFirst(Unsplit, bs);
  }

  /** With one delimiter, what follows it is the metadata and there is no
      content. */
  lemma OneDelimiter(pre: seq<Block>, d: Block, mid: seq<Block>)
    requires NoDelimiter(pre) && IsDelimiter(d) && NoDelimiter(mid)
    ensures Split(pre + [d] + mid).meta == mid
    ensures Split(pre + [d] + mid).contents == []
    ensures Split(pre + [d] + mid).markers == 1
  {
    DroppedBeforeFirst(Unsplit, pre);
    ScanSnoc(FmStep, Unsplit, pre, d);
    ScanAppend(FmStep, Unsplit, pre + [d], mid);
    MetadataAfterFirst(FmState(1, [], []), mid);
    assert [] + mid == mid;
  }

  /** With two delimiters or more, the blocks between the first two are the
      metadata, and the blocks after the second, other than delimiters, are
      the content. */
  lemma TwoDelimiters(pre: seq<Block>, d1: Block, mid: seq<Block>, d2: Block, post: seq<Block>)
    requires NoDelimiter(pre) && IsDelimiter(d1) && NoDelimiter(mid) && IsDelimiter(d2)
    ensures Split(pre + [d1] + mid + [d2] + post).meta == mid
    ensures Split(pre + [d1] + mid + [d2] + post).contents == NonDelimiters(post)
  {
    var front := pre + [d1] + mid;
    OneDelimiter(pre, d1, mid);
    ScanSnoc(FmStep, Unsplit, front, d2);
    var st := Split(front + [d2]);
    assert st.markers == 2 && st.meta == mid && st.contents == [];
    ScanAppend(FmStep, Unsplit, front + [d2], post);
    assert pre + [d1] + mid + [d2] + post == front + [d2] + post;
    ContentAfterSecond(st, post);
    assert [] + NonDelimiters(post) == NonDelimiters(post);
  }
}
