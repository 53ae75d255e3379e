/** `TranscriptParser` of gspan/parser.py: the administrivia stripper, the
    segmenter, and the records built from the segments. Each transcript
    block becomes a record typed `speaker`, `soundbite` or `transcript`; each
    annotation becomes a record whose `data` holds the frontmatter
    dictionary and the converted body under `content`. The HTML-to-markdown
    converter (`html2text` with unlimited line width) is the parameter
    `handle`. */
module GspanParser {
  import opened Options
  import opened Strings
  import opened Patterns
  import opened Document
  import opened Segmenter
  import opened Frontmatter
  import opened Metadata

  // ---------------------------------------------------------------------
  // `convert_to_markdown`

  /** What `convert_to_markdown` does to the converter's output: a leading
      blank line, `"\n\n"`, is removed once. */
  function TrimLeadingBlankLine(md: string): string {
    if StartsWith(md, "\n\n") then ReplaceFirst(md, "\n\n", "") else md
  }

  /** Removing the first `"\n\n"` when the text starts with one takes off
      exactly the first two characters; anything else is left as it is. */
  lemma TrimLeadingBlankLineDropsTwo(md: string)
    ensures TrimLeadingBlankLine(md) == if |md| >= 2 && md[0] == '\n' && md[1] == '\n' then md[2..] else md
  {
    if |md| >= 2 && md[0] == '\n' && md[1] == '\n' {
      assert md[..2] == "\n\n";
    }
  }

  function ConvertToMarkdown(handle: string -> string, text: string): string {
    TrimLeadingBlankLine(handle(text))
  }

  // ---------------------------------------------------------------------
  // Transcript blocks

  /** What a transcript record carries under `data`: the speaker fields, the
      soundbite, the converted text, or the block itself when the
      extraction pattern does not match. */
  datatype Context =
    | SpeakerContext(speaker: string, timestamp: Option<string>, transcriptText: string)
    | SoundbiteContext(soundbite: string)
    | TextContext(text: string)
    | Unchanged(block: Block)

  function ProcessSpeakerTranscript(handle: string -> string, b: Block): Context {
    match ExtractSpeaker(b.markup)
    case None => Unchanged(b)
    case Some(g) =>
      SpeakerContext(Strip(NameGroup(b.markup, g)), TimestampGroup(b.markup, g),
                     ConvertToMarkdown(handle, SpeakerText(b.markup, g)))
  }

  function ProcessSoundbiteTranscript(handle: string -> string, b: Block): Context {
    match ExtractSoundbite(b.markup)
    case None => Unchanged(b)
    case Some(g) => SoundbiteContext(ConvertToMarkdown(handle, "(" + SoundbiteGroup(b.markup, g) + ")"))
  }

  function ProcessOtherTranscript(handle: string -> string, b: Block): Context {
    TextContext(ConvertToMarkdown(handle, b.markup))
  }

  /** `process_transcript_content`: the type label and the context. */
  function ProcessTranscriptContent(handle: string -> string, b: Block): (string, Context) {
    match Classify(b.text)
    case SpeakerLine => ("speaker", ProcessSpeakerTranscript(handle, b))
    case SoundbiteLine => ("soundbite", ProcessSoundbiteTranscript(handle, b))
    case OtherLine => ("transcript", ProcessOtherTranscript(handle, b))
  }

  // ---------------------------------------------------------------------
  // Records

  /** An entry of the parsed transcript: a transcript record with its `type`,
      `data` and `published` keys, or an annotation record, typed
      `annotation`, whose `data` dictionary is `entries`. */
  datatype Record =
    | TranscriptRecord(kind: string, data: Context, published: bool)
    | AnnotationRecord(entries: map<string, Value>)

  /** `process_annotation_contents`: the markup of the content blocks joined
      and converted. */
  function AnnotationContent(handle: string -> string, bs: seq<Block>): string {
    ConvertToMarkdown(handle, Join(Markups(bs)))
  }

  /** The record `parse_raw_contents` builds for one segment. */
  function RecordOf(c: Coercion, handle: string -> string, s: Segment): Record {
    match s
    case Annotation(blocks) =>
      var parts := Split(blocks);
      var metadata := ProcessedMetadata(c, parts.meta);
      AnnotationRecord(metadata["content" := Text(AnnotationContent(handle, parts.contents))])
    case Transcript(b) =>
      var (kind, data) := ProcessTranscriptContent(handle, b);
      TranscriptRecord(kind, data, true)
  }

  function Records(c: Coercion, handle: string -> string, segs: seq<Segment>): (r: seq<Record>)
    ensures |r| == |segs| && forall i :: 0 <= i < |segs| ==> r[i] == RecordOf(c, handle, segs[i])
  {
    seq(|segs|, i requires 0 <= i < |segs| => RecordOf(c, handle, segs[i]))
  }

  /** `parse_raw_contents`: one record per segment, in order. */
  method ParseRawContents(c: Coercion, handle: string -> string, data: seq<Segment>) returns (contents: seq<Record>)
    ensures contents == Records(c, handle, data)
  {
    contents := [];
    for k := 0 to |data|
      invariant |contents| == k
      invariant forall i :: 0 <= i < k ==> contents[i] == RecordOf(c, handle, data[i])
    {
      var p := data[k];
      var record: Record;
      if p.Annotation? {
        var rawMetadata, rawContents := SplitFrontmatter(p.contents);
        var metadata := ProcessMetadata(c, rawMetadata);
        var annotationData := CopyEntries(map[], metadata);
        assert annotationData == metadata;
        var content := AnnotationContent(handle, rawContents);
        annotationData := annotationData["content" := Text(content)];
        record := AnnotationRecord(annotationData);
      } else {
        var (typ, d) := ProcessTranscriptContent(handle, p.content);
        record := TranscriptRecord(typ, d, true);
      }
      contents := contents + [record];
    }
  }

  /** The transcript the parser produces for a document whose body is
      `body`. */
  function ParsedTranscript(c: Coercion, handle: string -> string, body: seq<Node>): seq<Record> {
    Records(c, handle, Segments(Blocks(Stripped(body))))
  }

  /** `TranscriptParser`: the parsed document, the author settings and the
      converter; the transcript is parsed once, on construction. */
  class TranscriptParser {
    const authors: map<string, Value>
    const defaultAuthor: Value
    const handle: string -> string
    const doc: Soup
    var transcript: seq<Record>

    constructor (body: seq<Node>, handle: string -> string,
                 authorData: map<string, Value> := map[], defaultAuthor: Value := Text("POLITICO"))
      ensures this.authors == authorData && this.defaultAuthor == defaultAuthor && this.handle == handle
      ensures fresh(doc) && doc.body == Stripped(body)
      ensures transcript == ParsedTranscript(WithAuthors(authorData, defaultAuthor), handle, body)
    {
      this.authors := authorData;
      this.defaultAuthor := defaultAuthor;
      this.handle := handle;
      doc := new Soup(body);
      new;
      transcript := Parse();
    }

    /** `parse`: strip the administrivia in place, segment the body, and
        build the records. */
    method Parse() returns (contents: seq<Record>)
      modifies doc
      ensures doc.body == Stripped(old(doc.body))
      ensures contents == ParsedTranscript(WithAuthors(authors, defaultAuthor), handle, old(doc.body))
    {
      doc.RemoveAdministrivia();
      var raw := SeparateComponents(Blocks(doc.body));
      contents := ParseRawContents(WithAuthors(authors, defaultAuthor), handle, raw);
    }
  }

  // ---------------------------------------------------------------------
  // Properties of the records

  /** Classification is first-match: the speaker pattern, then the soundbite
      pattern (which, once the speaker pattern has failed, holds exactly
      when the text starts with a colon), then the fallback. Every
      transcript record is published. */
  lemma TranscriptRecordKind(c: Coercion, handle: string -> string, b: Block)
    ensures var r := RecordOf(c, handle, Transcript(b));
      r.TranscriptRecord? && r.published &&
      (r.kind == "speaker" <==> IsSpeakerLine(b.text)) &&
      (r.kind == "soundbite" <==> |b.text| > 0 && b.text[0] == ':') &&
      (r.kind == "transcript" <==> !IsSpeakerLine(b.text) && !IsSoundbiteLine(b.text))
  {
    SoundbiteStartsWithColon(b.text);
  }

  /** A speaker block whose markup the extraction pattern does not match is
      passed on unchanged; otherwise its speaker is the trimmed name group,
      its timestamp the bracket group, and its text the converted rest of
      the line with the tag in front. */
  lemma SpeakerContextFields(handle: string -> string, b: Block)
    ensures var ctx := ProcessSpeakerTranscript(handle, b);
      match ExtractSpeaker(b.markup)
      case None => ctx == Unchanged(b)
      case Some(g) =>
        SpeakerMatches(b.markup, g) &&
        ctx.SpeakerContext? && ctx.speaker == Strip(NameGroup(b.markup, g)) &&
        ctx.timestamp == TimestampGroup(b.markup, g) &&
        ctx.transcriptText == ConvertToMarkdown(handle, SpeakerText(b.markup, g))
  {
  }

  /** A soundbite's text is the captured group in parentheses, converted; or
      the block unchanged when the extraction pattern does not match. */
  lemma SoundbiteContextFields(handle: string -> string, b: Block)
    ensures var ctx := ProcessSoundbiteTranscript(handle, b);
      match ExtractSoundbite(b.markup)
      case None => ctx == Unchanged(b)
      case Some(g) =>
        SoundbiteMatches(b.markup, g) &&
        ctx == SoundbiteContext(ConvertToMarkdown(handle, "(" + SoundbiteGroup(b.markup, g) + ")"))
  {
  }

  /** A paragraph `NAME [stamp]: text` becomes a `speaker` record: the
      speaker is the name trimmed (the pattern's name group keeps the space
      before the bracket), the timestamp is the bracket's contents, and the
      text is the rest of the line, still wrapped in the paragraph's tags,
      converted. A name that neither begins nor ends with whitespace is the
      speaker as written. */
  lemma SpeakerParagraphRecord(c: Coercion, handle: string -> string, name: string, stamp: string, text: string)
    requires name != [] && forall k :: 0 <= k < |name| ==> IsNameChar(name[k])
    requires forall k :: 0 <= k < |stamp| ==> stamp[k] != ']' && stamp[k] != '\n'
    requires forall k :: 0 <= k < |text| ==> text[k] != ']' && text[k] != '\n'
    requires text == [] || !IsSpace(text[0])
    ensures var line := name + " [" + stamp + "]: " + text;
      RecordOf(c, handle, Transcript(Block(line, Paragraph(line)))) ==
        TranscriptRecord("speaker",
          SpeakerContext(Strip(name + " "), Some(stamp), ConvertToMarkdown(handle, "<p>" + text + "</p>")), true)
    ensures !IsSpace(name[0]) && !IsSpace(name[|name| - 1]) ==> Strip(name + " ") == name
  {
    TimestampedLineIsSpeaker(name, stamp, text);
    SpeakerParagraphContext(handle, name, stamp, text);
    if !IsSpace(name[0]) && !IsSpace(name[|name| - 1]) {
      StripOneTrailingSpace(name);
    }
  }

  lemma SpeakerParagraphContext(handle: string -> string, name: string, stamp: string, text: string)
    requires name != [] && forall k :: 0 <= k < |name| ==> IsNameChar(name[k])
    requires forall k :: 0 <= k < |stamp| ==> stamp[k] != ']' && stamp[k] != '\n'
    requires forall k :: 0 <= k < |text| ==> text[k] != ']' && text[k] != '\n'
    requires text == [] || !IsSpace(text[0])
    ensures var line := name + " [" + stamp + "]: " + text;
      ProcessSpeakerTranscript(handle, Block(line, Paragraph(line))) ==
        SpeakerContext(Strip(name + " "), Some(stamp), ConvertToMarkdown(handle, "<p>" + text + "</p>"))
  {
    forall k | 0 <= k < |name| ensures IsNameOrDigit(name[k]) { }
    ParagraphSpeaker(name, stamp, text);
  }

  /** A paragraph `:[(x)]` becomes a `soundbite` record whose text is `x`
      put back in its parentheses and converted. */
  lemma SoundbiteParagraphRecord(c: Coercion, handle: string -> string, x: string)
    requires forall k :: 0 <= k < |x| ==> x[k] != '\n'
    ensures var line := ":[(" + x + ")]";
      RecordOf(c, handle, Transcript(Block(line, Paragraph(line)))) ==
        TranscriptRecord("soundbite", SoundbiteContext(ConvertToMarkdown(handle, "(" + x + ")")), true)
  {
    SoundbiteLineClassified(x);
    ParagraphSoundbite(x);
  }

  /** A block that is neither a speaker line nor a soundbite becomes a
      `transcript` record whose context is its whole markup converted, less
      a leading blank line. */
  lemma OtherContextText(c: Coercion, handle: string -> string, b: Block)
    requires Classify(b.text) == OtherLine
    ensures var md := handle(b.markup);
      RecordOf(c, handle, Transcript(b)) ==
        TranscriptRecord("transcript",
          TextContext(if |md| >= 2 && md[0] == '\n' && md[1] == '\n' then md[2..] else md), true)
  {
    TrimLeadingBlankLineDropsTwo(handle(b.markup));
  }

  /** An annotation record's `data` is its frontmatter dictionary with the
      converted body under `content`, which overrides a `content` key in the
      frontmatter. */
  lemma AnnotationRecordData(c: Coercion, handle: string -> string, blocks: seq<Block>)
    ensures var r := RecordOf(c, handle, Annotation(blocks));
      var metadata := ProcessedMetadata(c, Split(blocks).meta);
      r.AnnotationRecord? &&
      r.entries["content"] == Text(AnnotationContent(handle, Split(blocks).contents)) &&
      (forall k :: k != "content" ==> (k in r.entries <==> k in metadata)) &&
      (forall k :: k != "content" && k in metadata ==> r.entries[k] == metadata[k])
  {
  }
}
