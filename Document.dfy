/** The document the parser works on, after the markup has been read into a
    tree: the children of `<body>` in order. Each child is seen through two
    views, its text (`get_text()`) and its markup (`str(tag)`). The first
    horizontal rule of the body may hold child paragraphs of its own; that is
    the separator `remove_administrivia` deals with
    (gspan/parser.py, lines 68-85; parser/__init__.py, lines 77-94). */
module Document {
  import opened Options
  import opened Patterns

  /** One block of the document: its text and its markup. */
  datatype Block = Block(text: string, markup: string)

  /** A child of the body: a paragraph, or a horizontal rule with the blocks
      nested under it. */
  datatype Node = Para(block: Block) | Rule(block: Block, children: seq<Block>)

  /** The body as the segmenter walks it: one block per child. */
  function Blocks(body: seq<Node>): (r: seq<Block>)
    ensures |r| == |body|
    ensures forall i :: 0 <= i < |body| ==> r[i] == body[i].block
  {
    seq(|body|, i requires 0 <= i < |body| => body[i].block)
  }

  /** The markup of each block, in order: `str(tag)` for each. */
  function Markups(bs: seq<Block>): (r: seq<string>)
    ensures |r| == |bs| && forall i :: 0 <= i < |bs| ==> r[i] == bs[i].markup
  {
    seq(|bs|, i requires 0 <= i < |bs| => bs[i].markup)
  }

  /** Wraps blocks as paragraphs, as `unwrap` leaves them in the body. */
  function Paras(bs: seq<Block>): (r: seq<Node>)
    ensures |r| == |bs|
    ensures forall i :: 0 <= i < |bs| ==> r[i] == Para(bs[i])
  {
    seq(|bs|, i requires 0 <= i < |bs| => Para(bs[i]))
  }

  predicate NoRule(body: seq<Node>) {
    forall i :: 0 <= i < |body| ==> !body[i].Rule?
  }

  /** `soup.hr`: the position of the first horizontal rule, if there is one. */
  function FirstRule(body: seq<Node>): (r: Option<nat>)
    ensures r.Some? ==> r.value < |body| && body[r.value].Rule? && NoRule(body[..r.value])
    ensures r.None? ==> NoRule(body)
  {
    if body == [] then None
    else if body[0].Rule? then Some(0)
    else
      match FirstRule(body[1..])
      case None => None
      case Some(i) =>
        assert body[..i + 1] == [body[0]] + body[1..][..i];
        Some(i + 1)
  }

  /** `hr.find('p', text=end_fact_check)` or `hr.find('p', text=end_transcript)`:
      a block under the separator says the fact check or the live transcript
      has ended. */
  predicate HasEndNote(children: seq<Block>) {
    exists i :: 0 <= i < |children| && (IsEndFactCheck(children[i].text) || IsEndTranscript(children[i].text))
  }

  /** The children left under the separator once every child matching
      "DO NOT WRITE BELOW THIS LINE" is extracted. */
  function Kept(children: seq<Block>): (r: seq<Block>)
    ensures |r| <= |children|
  {
    if children == [] then []
    else
      var last := children[|children| - 1];
      Kept(children[..|children| - 1]) + (if IsDoNotWrite(last.text) then [] else [last])
  }

  /** The body after `remove_administrivia`: unchanged without a separator;
      without the separator when an end note sits under it; otherwise with
      the separator replaced, in place, by its kept children. */
  function Stripped(body: seq<Node>): seq<Node> {
    match FirstRule(body)
    case None => body
    case Some(i) =>
      if HasEndNote(body[i].children) then body[..i] + body[i + 1..]
      else body[..i] + Paras(Kept(body[i].children)) + body[i + 1..]
  }

  /** A block survives the filter exactly when it was under the separator
      and is not a "DO NOT WRITE" line. */
  lemma {:induction false} KeptMembers(children: seq<Block>, b: Block)
    ensures b in Kept(children) <==> b in children && !IsDoNotWrite(b.text)
    decreases |children|
  {
    if children != [] {
      var init := children[..|children| - 1];
      KeptMembers(init, b);
      assert children == init + [children[|children| - 1]];
    }
  }

  /** The filter keeps the surviving children in their order: dropping a
      "DO NOT WRITE" line from anywhere leaves the rest in sequence. */
  lemma {:induction false} KeptSplit(xs: seq<Block>, ys: seq<Block>)
    ensures Kept(xs + ys) == Kept(xs) + Kept(ys)
    decreases |ys|
  {
    if ys == [] {
      assert xs + ys == xs;
    } else {
      var ys' := ys[..|ys| - 1];
      assert (xs + ys)[..|xs + ys| - 1] == xs + ys';
      KeptSplit(xs, ys');
    }
  }

  /** Children with no "DO NOT WRITE" line are all kept. */
  lemma {:induction false} KeptAll(children: seq<Block>)
    requires forall i :: 0 <= i < |children| ==> !IsDoNotWrite(children[i].text)
    ensures Kept(children) == children
    decreases |children|
  {
    if children != [] {
      KeptAll(children[..|children| - 1]);
    }
  }

  function CountRules(body: seq<Node>): nat {
    if body == [] then 0 else (if body[0].Rule? then 1 else 0) + CountRules(body[1..])
  }

  lemma {:induction false} CountRulesAppend(xs: seq<Node>, ys: seq<Node>)
    ensures CountRules(xs + ys) == CountRules(xs) + CountRules(ys)
    decreases |xs|
  {
    if xs == [] {
      assert xs + ys == ys;
    } else {
      assert (xs + ys)[1..] == xs[1..] + ys;
      CountRulesAppend(xs[1..], ys);
    }
  }

  lemma {:induction false} NoRuleCount(body: seq<Node>)
    requires NoRule(body)
    ensures CountRules(body) == 0
    decreases |body|
  {
    if body != [] {
      NoRuleCount(body[1..]);
    }
  }

  /** Stripping takes away exactly one separator when there is one, and adds
      none: the children spliced in are plain paragraphs. A body without a
      separator is left as it is. */
  lemma StrippedRuleCount(body: seq<Node>)
    ensures CountRules(Stripped(body)) == if FirstRule(body).Some? then CountRules(body) - 1 else CountRules(body)
    ensures FirstRule(body).None? ==> Stripped(body) == body
  {
    match FirstRule(body)
    case None =>
    case Some(i) =>
      assert body == body[..i] + [body[i]] + body[i + 1..];
      CountRulesAppend(body[..i] + [body[i]], body[i + 1..]);
      CountRulesAppend(body[..i], [body[i]]);
      var kids := Paras(Kept(body[i].children));
      NoRuleCount(kids);
      if HasEndNote(body[i].children) {
        CountRulesAppend(body[..i], body[i + 1..]);
      } else {
        CountRulesAppend(body[..i] + kids, body[i + 1..]);
        CountRulesAppend(body[..i], kids);
      }
  }

  /** Stripping is stated by where the first separator stands, whatever way
      it is found: everything before it and everything after it is left as
      it was. */
  lemma StrippedAt(body: seq<Node>, i: nat)
    requires i < |body| && body[i].Rule? && NoRule(body[..i])
    ensures Stripped(body) ==
      if HasEndNote(body[i].children) then body[..i] + body[i + 1..]
      else body[..i] + Paras(Kept(body[i].children)) + body[i + 1..]
  {
    assert FirstRule(body) == Some(i);
  }

  /** A separator with a child that ends the fact check or the live
      transcript is removed along with all its children; a separator with
      no such child gives way to its kept children. */
  lemma EndNoteDecides(body: seq<Node>, i: nat)
    requires i < |body| && body[i].Rule? && NoRule(body[..i])
    ensures var kids := body[i].children;
      (exists k :: 0 <= k < |kids| && (IsEndFactCheck(kids[k].text) || IsEndTranscript(kids[k].text))) ==>
        Stripped(body) == body[..i] + body[i + 1..]
    ensures var kids := body[i].children;
      (forall k :: 0 <= k < |kids| ==> !IsEndFactCheck(kids[k].text) && !IsEndTranscript(kids[k].text)) ==>
        Stripped(body) == body[..i] + Paras(Kept(kids)) + body[i + 1..]
  {
    StrippedAt(body, i);
  }

  /** The document tree, reduced to the list of body children that
      `remove_administrivia` rewrites in place. */
  class Soup {
    var body: seq<Node>

    constructor (body: seq<Node>)
      ensures this.body == body
    {
      this.body := body;
    }

    /** `remove_administrivia`: finds the first separator; removes it when an
        end note sits under it; otherwise extracts its "DO NOT WRITE" children
        and unwraps it. */
    method RemoveAdministrivia()
      modifies this
      ensures body == Stripped(old(body))
    {
      var at := FirstRule(body);
      if at.Some? {
        var i := at.value;
        var hr := body[i];
        if HasEndNote(hr.children) {
          body := body[..i] + body[i + 1..];
        } else {
          var kept: seq<Block> := [];
          var k := 0;
          while k < |hr.children|
            invariant 0 <= k <= |hr.children|
            invariant kept == Kept(hr.children[..k])
          {
            var child := hr.children[k];
            if !IsDoNotWrite(child.text) {
              kept := kept + [child];
            }
            assert hr.children[..k + 1][..k] == hr.children[..k];
            k := k + 1;
          }
          assert hr.children[..k] == hr.children;
          body := body[..i] + Paras(kept) + body[i + 1..];
        }
      }
    }
  }
}
