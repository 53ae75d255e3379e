/** `TranscriptParser` of parser/__init__.py. It strips and segments the
    document as gspan/parser.py does, and differs in the records it builds:
    the fallback type is `other`, a transcript record carries `context`, a
    speaker context adds a `speaker_class` looked up in a table of speakers,
    an annotation record is one flat dictionary, and converted text is
    collapsed onto one line. The HTML-to-markdown converter
    (`html2text.html2text`) is the parameter `convert`. */
module DocParser {
  import opened Options
  import opened Strings
  import opened Patterns
  import opened Document
  import opened Segmenter
  import opened Frontmatter
  import opened Metadata

  // ---------------------------------------------------------------------
  // `convert_to_markdown`

  /** What `convert_to_markdown` does to the converter's output:
      `markdown.replace('\n', ' ').replace('\r', '')`. */
  function CollapseLines(md: string): string {
    ReplaceAll(ReplaceAll(md, "\n", " "), "\r", "")
  }

  /** The same rewriting stated character by character: a line feed becomes
      a space, a carriage return is dropped, every other character stays, in
      order. */
  function OneLine(md: string): (r: string)
    ensures '\n' !in r && '\r' !in r
    ensures |r| == |md| - Count(md, '\r')
  {
    if md == [] then []
    else (if md[0] == '\n' then " " else if md[0] == '\r' then "" else [md[0]]) + OneLine(md[1..])
  }

  /** Every occurrence of the character `c` replaced by `repl`, one
      character at a time. */
  function MapChar(s: string, c: char, repl: string): string {
    if s == [] then [] else (if s[0] == c then repl else [s[0]]) + MapChar(s[1..], c, repl)
  }

  lemma {:induction false} ReplaceAllIsMapChar(s: string, c: char, repl: string)
    ensures ReplaceAll(s, [c], repl) == MapChar(s, c, repl)
    decreases |s|
  {
    ReplaceAllChar(s, c, repl);
    if s != [] {
      ReplaceAllIsMapChar(s[1..], c, repl);
    }
  }

  lemma {:induction false} MapCharAppend(a: string, b: string, c: char, repl: string)
    ensures MapChar(a + b, c, repl) == MapChar(a, c, repl) + MapChar(b, c, repl)
    decreases |a|
  {
    if a == [] {
      assert a + b == b;
    } else {
      assert (a + b)[1..] == a[1..] + b;
      MapCharAppend(a[1..], b, c, repl);
    }
  }

  /** Two rounds of `replace` are the character-by-character rewriting. */
  lemma {:induction false} CollapseLinesIsOneLine(md: string)
    ensures CollapseLines(md) == OneLine(md)
    decreases |md|
  {
    ReplaceAllIsMapChar(md, '\n', " ");
    var spaced := MapChar(md, '\n', " ");
    ReplaceAllIsMapChar(spaced, '\r', "");
    assert "\n" == ['\n'] && "\r" == ['\r'];
    if md != [] {
      CollapseLinesIsOneLine(md[1..]);
      ReplaceAllIsMapChar(md[1..], '\n', " ");
      ReplaceAllIsMapChar(MapChar(md[1..], '\n', " "), '\r', "");
      var head := if md[0] == '\n' then " " else [md[0]];
      MapCharAppend(head, MapChar(md[1..], '\n', " "), '\r', "");
      assert MapChar(head, '\r', "") == (if md[0] == '\n' then " " else if md[0] == '\r' then "" else [md[0]]) by {
        assert head[1..] == [];
      }
    }
  }

  function ConvertToMarkdown(convert: string -> string, text: string): string {
    CollapseLines(convert(text))
  }

  /** Converted text has no line feed and no carriage return, and is as long
      as the converter's output less its carriage returns. */
  lemma ConvertedIsOneLine(convert: string -> string, text: string)
    ensures var r := ConvertToMarkdown(convert, text);
      '\n' !in r && '\r' !in r && |r| == |convert(text)| - Count(convert(text), '\r')
  {
    CollapseLinesIsOneLine(convert(text));
  }

  // ---------------------------------------------------------------------
  // Transcript blocks

  /** What a transcript record carries under `context`. */
  datatype Context =
    | SpeakerContext(speakerClass: string, speaker: string, timestamp: Option<string>, transcriptText: string)
    | SoundbiteContext(soundbite: string)
    | TextContext(text: string)
    | Unchanged(block: Block)

  /** The class of a speaker: the table's entry, or `speaker` for a name the
      table does not hold. */
  function SpeakerClass(speakers: map<string, string>, name: string): string {
    if name in speakers then speakers[name] else "speaker"
  }

  function ProcessSpeakerTranscript(convert: string -> string, speakers: map<string, string>, b: Block): Context {
    match ExtractSpeaker(b.markup)
    case None => Unchanged(b)
    case Some(g) =>
      var speaker := Strip(NameGroup(b.markup, g));
      SpeakerContext(SpeakerClass(speakers, speaker), speaker, TimestampGroup(b.markup, g),
                     ConvertToMarkdown(convert, SpeakerText(b.markup, g)))
  }

  function ProcessSoundbiteTranscript(convert: string -> string, b: Block): Context {
    match ExtractSoundbite(b.markup)
    case None => Unchanged(b)
    case Some(g) => SoundbiteContext(ConvertToMarkdown(convert, "(" + SoundbiteGroup(b.markup, g) + ")"))
  }

  function ProcessOtherTranscript(convert: string -> string, b: Block): Context {
    TextContext(ConvertToMarkdown(convert, b.markup))
  }

  function ProcessTranscriptContent(convert: string -> string, speakers: map<string, string>, b: Block): (string, Context) {
    match Classify(b.text)
    case SpeakerLine => ("speaker", ProcessSpeakerTranscript(convert, speakers, b))
    case SoundbiteLine => ("soundbite", ProcessSoundbiteTranscript(convert, b))
    case OtherLine => ("other", ProcessOtherTranscript(convert, b))
  }

  // ---------------------------------------------------------------------
  // Records

  /** An entry of the parsed contents: a transcript record with its `type`,
      `context` and `published` keys, or an annotation record, one flat
      dictionary. */
  datatype Record =
    | TranscriptRecord(kind: string, context: Context, published: bool)
    | AnnotationRecord(fields: map<string, Value>)

  function AnnotationContents(convert: string -> string, bs: seq<Block>): string {
    ConvertToMarkdown(convert, Join(Markups(bs)))
  }

  /** The record `parse_raw_contents` builds for one segment: for an
      annotation, the metadata first, then `contents` and `type` on top. */
  function RecordOf(convert: string -> string, speakers: map<string, string>, s: Segment): Record {
    match s
    case Annotation(blocks) =>
      var parts := Split(blocks);
      var metadata := ProcessedMetadata(PublishedOnly, parts.meta);
      AnnotationRecord(metadata["contents" := Text(AnnotationContents(convert, parts.contents))]
                               ["type" := Text("annotation")])
    case Transcript(b) =>
      var (kind, context) := ProcessTranscriptContent(convert, speakers, b);
      TranscriptRecord(kind, context, true)
  }

  function Records(convert: string -> string, speakers: map<string, string>, segs: seq<Segment>): (r: seq<Record>)
    ensures |r| == |segs| && forall i :: 0 <= i < |segs| ==> r[i] == RecordOf(convert, speakers, segs[i])
  {
    seq(|segs|, i requires 0 <= i < |segs| => RecordOf(convert, speakers, segs[i]))
  }

  method ParseRawContents(convert: string -> string, speakers: map<string, string>, data: seq<Segment>)
    returns (contents: seq<Record>)
    ensures contents == Records(convert, speakers, data)
  {
    contents := [];
    for k := 0 to |data|
      invariant |contents| == k
      invariant forall i :: 0 <= i < k ==> contents[i] == RecordOf(convert, speakers, data[i])
    {
      var p := data[k];
      var record: Record;
      if p.Annotation? {
        var rawMetadata, rawContents := SplitFrontmatter(p.contents);
        var metadata := ProcessMetadata(PublishedOnly, rawMetadata);
        var annotation := CopyEntries(map[], metadata);
        assert annotation == metadata;
        annotation := annotation["contents" := Text(AnnotationContents(convert, rawContents))];
        annotation := annotation["type" := Text("annotation")];
        record := AnnotationRecord(annotation);
      } else {
        var (typ, context) := ProcessTranscriptContent(convert, speakers, p.content);
        record := TranscriptRecord(typ, context, true);
      }
      contents := contents + [record];
    }
  }

  function ParsedContents(convert: string -> string, speakers: map<string, string>, body: seq<Node>): seq<Record> {
    Records(convert, speakers, Segments(Blocks(Stripped(body))))
  }

  /** `TranscriptParser`: parses the document on construction; what `parse`
      prints is what `Parse` returns. */
  class TranscriptParser {
    const convert: string -> string
    const speakers: map<string, string>
    const doc: Soup

    constructor (body: seq<Node>, convert: string -> string, speakers: map<string, string> := map[])
      ensures this.convert == convert && this.speakers == speakers
      ensures fresh(doc) && doc.body == Stripped(body)
    {
      this.convert := convert;
      this.speakers := speakers;
      doc := new Soup(body);
      new;
      var _ := Parse();
    }

    method Parse() returns (contents: seq<Record>)
      modifies doc
      ensures doc.body == Stripped(old(doc.body))
      ensures contents == ParsedContents(convert, speakers, old(doc.body))
    {
      doc.RemoveAdministrivia();
      var raw := SeparateComponents(Blocks(doc.body));
      contents := ParseRawContents(convert, speakers, raw);
    }
  }

  // ---------------------------------------------------------------------
  // Properties of the records

  /** An annotation record's `type` is always `annotation` and its
      `contents` always the converted body, whatever keys the frontmatter
      sets; every other key is the frontmatter's. */
  lemma AnnotationTypeAndContents(convert: string -> string, speakers: map<string, string>, blocks: seq<Block>)
    ensures var r := RecordOf(convert, speakers, Annotation(blocks));
      var metadata := ProcessedMetadata(PublishedOnly, Split(blocks).meta);
      r.AnnotationRecord? &&
      r.fields["type"] == Text("annotation") &&
      r.fields["contents"] == Text(AnnotationContents(convert, Split(blocks).contents)) &&
      (forall k :: k != "type" && k != "contents" ==> (k in r.fields <==> k in metadata)) &&
      (forall k :: k != "type" && k != "contents" && k in metadata ==> r.fields[k] == metadata[k])
  {
  }

  /** A transcript record is typed `speaker`, `soundbite` or `other`, tested
      in that order, and is always published. */
  lemma TranscriptRecordKind(convert: string -> string, speakers: map<string, string>, b: Block)
    ensures var r := RecordOf(convert, speakers, Transcript(b));
      r.TranscriptRecord? && r.published &&
      (r.kind == "speaker" <==> IsSpeakerLine(b.text)) &&
      (r.kind == "soundbite" <==> |b.text| > 0 && b.text[0] == ':') &&
      (r.kind == "other" <==> !IsSpeakerLine(b.text) && !IsSoundbiteLine(b.text))
  {
    SoundbiteStartsWithColon(b.text);
  }

  /** A block that is neither a speaker line nor a soundbite becomes an
      `other` record whose context is its whole markup converted and put on
      one line. */
  lemma OtherContextText(convert: string -> string, speakers: map<string, string>, b: Block)
    requires Classify(b.text) == OtherLine
    ensures var r := RecordOf(convert, speakers, Transcript(b));
      r == TranscriptRecord("other", TextContext(OneLine(convert(b.markup))), true) &&
      '\n' !in r.context.text && '\r' !in r.context.text
  {
    CollapseLinesIsOneLine(convert(b.markup));
  }

  /** A paragraph `NAME [stamp]: text` becomes a `speaker` record: the
      speaker is the name trimmed, its class the table's entry for that
      name or `speaker` when the table has none, the timestamp the
      bracket's contents, and the text the rest of the line, still wrapped
      in the paragraph's tags, converted and put on one line. */
  lemma SpeakerParagraphRecord(convert: string -> string, speakers: map<string, string>,
                               name: string, stamp: string, text: string)
    requires name != [] && forall k :: 0 <= k < |name| ==> IsNameChar(name[k])
    requires forall k :: 0 <= k < |stamp| ==> stamp[k] != ']' && stamp[k] != '\n'
    requires forall k :: 0 <= k < |text| ==> text[k] != ']' && text[k] != '\n'
    requires text == [] || !IsSpace(text[0])
    ensures var line := name + " [" + stamp + "]: " + text;
      var speaker := Strip(name + " ");
      RecordOf(convert, speakers, Transcript(Block(line, Paragraph(line)))) ==
        TranscriptRecord("speaker",
          SpeakerContext(if speaker in speakers then speakers[speaker] else "speaker",
                         speaker, Some(stamp), OneLine(convert("<p>" + text + "</p>"))), true)
  {
    TimestampedLineIsSpeaker(name, stamp, text);
    forall k | 0 <= k < |name| ensures IsNameOrDigit(name[k]) { }
    ParagraphSpeaker(name, stamp, text);
    CollapseLinesIsOneLine(convert("<p>" + text + "</p>"));
  }

  /** A paragraph `:[(x)]` becomes a `soundbite` record whose text is `x`
      put back in its parentheses, converted and put on one line. */
  lemma SoundbiteParagraphRecord(convert: string -> string, speakers: map<string, string>, x: string)
    requires forall k :: 0 <= k < |x| ==> x[k] != '\n'
    ensures var line := ":[(" + x + ")]";
      RecordOf(convert, speakers, Transcript(Block(line, Paragraph(line)))) ==
        TranscriptRecord("soundbite", SoundbiteContext(OneLine(convert("(" + x + ")"))), true)
  {
    SoundbiteLineClassified(x);
    ParagraphSoundbite(x);
    CollapseLinesIsOneLine(convert("(" + x + ")"));
  }

  /** A speaker's class is the table's entry for the trimmed name, and
      `speaker` when the name is not in the table. */
  lemma SpeakerClassFallback(convert: string -> string, speakers: map<string, string>, b: Block)
    requires ExtractSpeaker(b.markup).Some?
    ensures var ctx := ProcessSpeakerTranscript(convert, speakers, b);
      var g := ExtractSpeaker(b.markup).value;
      var name := Strip(NameGroup(b.markup, g));
      ctx.SpeakerContext? && ctx.speaker == name &&
      ctx.speakerClass == (if name in speakers then speakers[name] else "speaker")
  {
  }
}
