/** `process_metadata` (gspan/parser.py, lines 171-188; parser/__init__.py,
    lines 178-191): every frontmatter line of the form `key: value` sets one
    entry of a dictionary, the key trimmed and lower-cased, the value trimmed
    and then coerced by the key. The two parsers differ only in the
    coercion: both turn `published` into a boolean, and the one in
    gspan/parser.py also resolves `author` through a directory. */
module Metadata {
  import opened Options
  import opened Strings
  import opened Patterns
  import opened Document

  /** A value in the metadata dictionary. */
  datatype Value = Text(s: string) | Flag(b: bool) | Entry(fields: map<string, string>)

  /** How values are coerced: `published` only, or also `author`, looked up
      in a directory of authors with a value to fall back on. */
  datatype Coercion = PublishedOnly | WithAuthors(directory: map<string, Value>, fallback: Value)

  function Coerce(c: Coercion, key: string, value: string): Value {
    if key == "published" then Flag(value == "Yes")
    else if key == "author" && c.WithAuthors? then
      (if value in c.directory then c.directory[value] else c.fallback)
    else Text(value)
  }

  /** The key and value a metadata line yields, if it matches `^(.*?):(.*)$`. */
  function ParseLine(text: string): Option<(string, string)> {
    match SplitMetadataLine(text)
    case Some((k, v)) => Some((Lower(Strip(k)), Strip(v)))
    case None => None
  }

  /** One turn of the loop: a line that matches sets its key, any other is
      skipped. */
  function MetaStep(c: Coercion, meta: map<string, Value>, b: Block): map<string, Value> {
    match ParseLine(b.text)
    case Some((k, v)) => meta[k := Coerce(c, k, v)]
    case None => meta
  }

  /** The dictionary `process_metadata` returns for the lines `lines`. */
  function ProcessedMetadata(c: Coercion, lines: seq<Block>): map<string, Value> {
    if lines == [] then map[]
    else MetaStep(c, ProcessedMetadata(c, lines[..|lines| - 1]), lines[|lines| - 1])
  }

  method ProcessMetadata(c: Coercion, lines: seq<Block>) returns (metadata: map<string, Value>)
    ensures metadata == ProcessedMetadata(c, lines)
  {
    metadata := map[];
    for k := 0 to |lines|
      invariant metadata == ProcessedMetadata(c, lines[..k])
    {
      var tag := lines[k];
      assert lines[..k + 1][..k] == lines[..k];
      match SplitMetadataLine(tag.text)
      case Some((g1, g2)) =>
        var key := Lower(Strip(g1));
        var value := Strip(g2);
        metadata := metadata[key := Coerce(c, key, value)];
      case None =>
    }
    assert lines[..|lines|] == lines;
  }

  /** `for k, v in metadata.items(): d[k] = v`: every entry of `src` is
      written into `dst`, overwriting what was there. */
  method CopyEntries(dst: map<string, Value>, src: map<string, Value>) returns (r: map<string, Value>)
    ensures r == dst + src
  {
    r := dst;
    var todo := src.Keys;
    while todo != {}
      invariant todo <= src.Keys
      invariant r.Keys == dst.Keys + (src.Keys - todo)
      invariant forall k :: k in r ==> r[k] == if k in src.Keys - todo then src[k] else dst[k]
      decreases todo
    {
      var k :| k in todo;
      r := r[k := src[k]];
      todo := todo - {k};
    }
  }

  // ---------------------------------------------------------------------
  // Properties

  /** The last line that yields the key `key`, if any. */
  function LastLine(lines: seq<Block>, key: string): (r: Option<nat>)
    ensures r.Some? ==>
      (r.value < |lines| && ParseLine(lines[r.value].text).Some? && ParseLine(lines[r.value].text).value.0 == key)
  {
    if lines == [] then None
    else
      var n := |lines| - 1;
      match ParseLine(lines[n].text)
      case Some((k, _)) =>
        if k == key then Some(n) else LastLine(lines[..n], key)
      case None => LastLine(lines[..n], key)
  }

  /** A key is in the dictionary exactly when some line yields it, and its
      value is the coercion of the value on the last such line: a later
      line with the same key overwrites an earlier one. */
  lemma {:induction false} LastLineWins(c: Coercion, lines: seq<Block>, key: string)
    ensures key in ProcessedMetadata(c, lines) <==> LastLine(lines, key).Some?
    ensures LastLine(lines, key).Some? ==>
      var i := LastLine(lines, key).value;
      ProcessedMetadata(c, lines)[key] == Coerce(c, key, ParseLine(lines[i].text).value.1)
    decreases |lines|
  {
    if lines != [] {
      var n := |lines| - 1;
      var prev := lines[..n];
      LastLineWins(c, prev, key);
      var before := ProcessedMetadata(c, prev);
      assert ProcessedMetadata(c, lines) == MetaStep(c, before, lines[n]);
      var parsed := ParseLine(lines[n].text);
      if parsed.Some? && parsed.value.0 == key {
        assert LastLine(lines, key) == Some(n);
      } else {
        assert LastLine(lines, key) == LastLine(prev, key);
        assert key in ProcessedMetadata(c, lines) <==> key in before;
        var i := LastLine(prev, key);
        if i.Some? {
          assert prev[i.value] == lines[i.value];
          assert ProcessedMetadata(c, lines)[key] == before[key];
        }
      }
    }
  }

  /** Lines that yield no key leave the dictionary as it was. */
  lemma {:induction false} SkippedLines(c: Coercion, lines: seq<Block>, rest: seq<Block>)
    requires forall i :: 0 <= i < |rest| ==> ParseLine(rest[i].text).None?
    ensures ProcessedMetadata(c, lines + rest) == ProcessedMetadata(c, lines)
    decreases |rest|
  {
    if rest == [] {
      assert lines + rest == lines;
    } else {
      var r' := rest[..|rest| - 1];
      assert (lines + rest)[..|lines + rest| - 1] == lines + r';
      SkippedLines(c, lines, r');
    }
  }

  /** A line without a colon yields no key. */
  lemma NoColonNoKey(text: string)
    requires ':' !in text
    ensures ParseLine(text).None?
  {
    var c := RunEnd(text, 0, InKey);
    assert c < |text| ==> text[c] != ':';
  }

  lemma {:induction false} LowerIdempotent(s: string)
    ensures Lower(Lower(s)) == Lower(s)
  {
    var l := Lower(s);
    assert forall i :: 0 <= i < |l| ==> ToLower(l[i]) == l[i];
  }

  /** The key a line yields is already trimmed and lower-case, and its value
      already trimmed. */
  lemma ParsedLineNormalised(text: string)
    requires ParseLine(text).Some?
    ensures var (k, v) := ParseLine(text).value;
      Strip(k) == k && Lower(k) == k && Strip(v) == v
  {
    var (g1, g2) := SplitMetadataLine(text).value;
    LowerStripped(g1);
    LowerIdempotent(Strip(g1));
    StripIdempotent(g2);
  }

  /** Every key of the dictionary is trimmed and lower-case. */
  lemma {:induction false} KeysNormalised(c: Coercion, lines: seq<Block>)
    ensures forall k :: k in ProcessedMetadata(c, lines) ==> Strip(k) == k && Lower(k) == k
    decreases |lines|
  {
    if lines != [] {
      var n := |lines| - 1;
      KeysNormalised(c, lines[..n]);
      if ParseLine(lines[n].text).Some? {
        ParsedLineNormalised(lines[n].text);
      }
    }
  }

  /** A metadata line in the `key: value` shape yields the trimmed,
      lower-cased key and the trimmed value. */
  lemma ParseLineShape(text: string, key: string, value: string)
    requires MetadataShape(text, key, value)
    ensures ParseLine(text) == Some((Lower(Strip(key)), Strip(value)))
  {
    SplitMetadataLineRegex(text, key, value);
  }

  /** `published` is true exactly when its value is `Yes`. */
  lemma PublishedIsFlag(c: Coercion, lines: seq<Block>)
    requires "published" in ProcessedMetadata(c, lines)
    ensures ProcessedMetadata(c, lines)["published"].Flag?
    ensures LastLine(lines, "published").Some?
    ensures var i := LastLine(lines, "published").value;
      ProcessedMetadata(c, lines)["published"].b <==> ParseLine(lines[i].text).value.1 == "Yes"
  {
    LastLineWins(c, lines, "published");
  }

  /** With an author directory, `author` is the directory's entry for the
      value, or the fallback when the value is not in the directory. */
  lemma AuthorResolved(directory: map<string, Value>, fallback: Value, lines: seq<Block>)
    requires "author" in ProcessedMetadata(WithAuthors(directory, fallback), lines)
    ensures LastLine(lines, "author").Some?
    ensures var i := LastLine(lines, "author").value;
      var v := ParseLine(lines[i].text).value.1;
      ProcessedMetadata(WithAuthors(directory, fallback), lines)["author"] ==
        if v in directory then directory[v] else fallback
  {
    LastLineWins(WithAuthors(directory, fallback), lines, "author");
  }

  /** Without a directory, every value other than `published` stays the
      trimmed string. */
  lemma PlainValuesStayText(lines: seq<Block>, key: string)
    requires key in ProcessedMetadata(PublishedOnly, lines) && key != "published"
    ensures LastLine(lines, key).Some?
    ensures ProcessedMetadata(PublishedOnly, lines)[key] == Text(ParseLine(lines[LastLine(lines, key).value].text).value.1)
  {
    LastLineWins(PublishedOnly, lines, key);
  }
}
