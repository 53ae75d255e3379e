# gspan transcript parser, modelled in Dafny

gspan turns a Google Doc of a live event transcript into JSON. The doc holds
transcript paragraphs and fact-check annotations. Two near-identical copies
of its `TranscriptParser` exist, one in `gspan/parser.py` and one in
`parser/__init__.py`. This project models what both do between the parsed
HTML tree and the JSON records:

- **Administrivia.** The first horizontal rule (`<hr>`) and what sits under it
  are stripped. If an "END" or "LIVE TRANSCRIPT HAS ENDED" paragraph is
  there, the whole rule goes. Otherwise only its "DO NOT WRITE BELOW THIS
  LINE" children go, and the rest is spliced into the body in its place.
- **Segmentation.** The body's blocks are split into transcript blocks and
  annotations. An annotation is the blocks between a start marker (50 or
  more `+`) and an end marker (50 or more `-`).
- **Frontmatter.** Within an annotation, `---` delimiter blocks separate
  dropped blocks, metadata lines and content.
- **Metadata.** Each metadata line `key: value` becomes a dictionary entry.
  The key is trimmed and lower-cased, and the value trimmed. `published`
  becomes a boolean. In `gspan/parser.py`, `author` is also looked up in an
  author directory.
- **Classification.** Each transcript block is classified as a speaker line,
  a soundbite or other text. The speaker's name, timestamp and text, or the
  soundbite, are pulled out of the block's markup.
- **Markdown post-processing.** The HTML-to-markdown converter is a
  parameter. Only the clean-up applied to its output is modelled.

A document block is a `Block(text, markup)`. Here `text` is what
`get_text()` returns and `markup` is `str(tag)`. The body is a sequence of
`Node`s: a paragraph, or a horizontal rule holding child blocks. Every
regular expression of the parsers is written out as a predicate or a
matcher over characters. The parsers apply most of them with `re.match`,
anchored at the start of the text. The two end-note patterns (`END` and
`LIVE TRANSCRIPT HAS ENDED`) are instead passed to BeautifulSoup's
`find(text=...)`, which searches for them anywhere in the text; the model
states them that way. In every pattern, `\s` is ASCII whitespace (tab
through carriage return, the four separator controls and space), `.` is
anything but a line feed, `$` also matches before a final line feed, and
lazy and greedy groups backtrack in Python's order.

Modules:

| module | what it holds |
|---|---|
| `Strings` | whitespace, `strip`, `lower`, `replace`, `join` |
| `Scans` | a left fold, the specification of every loop |
| `Patterns` | the regular expression table |
| `Document` | blocks, the body, `remove_administrivia` on a `Soup` object |
| `Segmenter` | `separate_components` |
| `Frontmatter` | the delimiter loop of `parse_raw_contents` |
| `Metadata` | `process_metadata` |
| `GspanParser` | the records of `gspan/parser.py` |
| `DocParser` | the records of `parser/__init__.py` |

The two files share the logic of the regular expression table,
`remove_administrivia`, `separate_components`, the frontmatter loop of
`parse_raw_contents`, and `process_metadata` apart from the `author`
lookup. The code is not identical: `gspan/parser.py` keeps the patterns in
a dictionary and `parser/__init__.py` in attributes compiled with
`re.UNICODE`, which is already the default for Python 3 strings. Those
parts are modelled once, and the rows below cite `gspan/parser.py` for
them. The matching lines of `parser/__init__.py` are
15-63 for the regular expressions, 77-94 for `remove_administrivia`, 96-120
for `separate_components`, 130-144 for the frontmatter loop, and 178-191
for `process_metadata`. The rest differs and is modelled per file:

- The constructors. `gspan/parser.py` takes a document id, an author
  directory and a default author, and downloads the document.
  `parser/__init__.py` takes the HTML itself.
- `parse`. In `gspan/parser.py` it returns the records, which the
  constructor keeps as `transcript`. In `parser/__init__.py` it prints them.
- The records that `parse_raw_contents` builds, and the clean-up in
  `convert_to_markdown` (see the module comments of `GspanParser` and
  `DocParser`).

Two behaviours of the code are worth knowing:

- An end marker with no open annotation still emits an annotation segment.
  That segment holds the blocks of the previous annotation, or nothing
  before the first one (`Segmenter.StrayEndMarker`,
  `Segmenter.StrayAfterClosed`).
- In `gspan/parser.py`, `convert_to_markdown` removes both characters of a
  leading blank line (`"\n\nText"` becomes `"Text"`;
  `GspanParser.TrimLeadingBlankLineDropsTwo`).

## Model

| member | source | states |
|---|---|---|
| Strings.Lower | gspan/parser.py:177 | `.lower()` keeps the length and lower-cases each character. |
| Strings.StripShape | gspan/parser.py:177-178 | `.strip()` returns a contiguous slice of its input. Only whitespace lies before and after the slice, and the result neither starts nor ends with whitespace. |
| Strings.StripPadded | gspan/parser.py:177-178 | Stripping whitespace padding around a core that neither starts nor ends with whitespace gives back exactly that core. |
| Strings.StripIdempotent | gspan/parser.py:178 | Stripping twice is stripping once. |
| Strings.LowerStripped | gspan/parser.py:177 | A trimmed, lower-cased key is still trimmed. |
| Patterns.AnnoStartMarkerRegex | gspan/parser.py:30 | The start-marker test holds exactly when the text is whitespace, then a run of at least 50 `+`, then whitespace. |
| Patterns.AnnoEndMarkerRegex | gspan/parser.py:31 | The end-marker test holds exactly when the text is whitespace, then a run of at least 50 `-`, then whitespace. |
| Patterns.FrontmatterMarkerRegex | gspan/parser.py:32 | The delimiter test holds exactly when the text is whitespace, then exactly `---`, then whitespace. |
| Patterns.EndFactCheckRegex | gspan/parser.py:29 | The end-of-fact-check test holds exactly when the text is whitespace, then `end` in any mix of cases, then whitespace. |
| Patterns.EndFactCheckExample | gspan/parser.py:29 | `  End` followed by a line feed ends the fact check; `ENDS` does not. |
| Patterns.EndTranscriptRegex | gspan/parser.py:25-26 | The end-of-transcript test holds exactly when `LIVE`, `TRANSCRIPT`, `HAS` and `ENDED` stand somewhere in the text, each pair separated by one whitespace character. |
| Patterns.LoosePhraseAt | gspan/parser.py:27-28 | Taking the whitespace between the words greedily matches the phrase exactly when some choice of whitespace runs between the words matches it. |
| Patterns.DoNotWriteRegex | gspan/parser.py:27-28 | The do-not-write test holds exactly when `DO NOT WRITE BELOW THIS LINE` starts on the first line of the text, with any run of whitespace, possibly empty, between its words. |
| Patterns.PaddedRunIsStripped | gspan/parser.py:30-32 | A run padded by whitespace strips to the run itself. |
| Patterns.StrippedRunIsPadded | gspan/parser.py:30-32 | A text that strips to a run of one character is that run padded by whitespace. |
| Patterns.MarkersDisjoint | gspan/parser.py:30-32 | No text is both a start and an end marker, or both an end marker and a `---` delimiter. |
| Patterns.SplitMetadataLineRegex | gspan/parser.py:33 | The metadata split returns `(key, value)` exactly when the key has no colon and no line break, a colon follows it, and the value has no line break. The line may end in one final line feed. |
| Patterns.SplitMetadataLineSound | gspan/parser.py:33 | Every split the matcher returns has the shape `^(.*?):(.*)$` requires. |
| Patterns.SplitMetadataLineComplete | gspan/parser.py:33 | Every line of that shape is split at its first colon. |
| Patterns.ClosesThenColonWitness | gspan/parser.py:34 | The bracket check holds exactly when a `]:` follows with no line break before it. |
| Patterns.SpeakerLineRegex | gspan/parser.py:34 | The speaker test holds exactly when the text is a non-empty run of capitals, whitespace, `.` and `-`, then optionally a whitespace character and `[...]`, then a colon. |
| Patterns.SoundbiteLineRegex | gspan/parser.py:35 | The soundbite test holds exactly when the text is whitespace followed by a colon. |
| Patterns.Classify | gspan/parser.py:194-203 | The speaker test is tried first and the soundbite test only when it fails. Both directions are stated for each kind. |
| Patterns.SoundbiteStartsWithColon | gspan/parser.py:194-203 | A block is classified as a soundbite exactly when its text starts with a colon. Leading whitespace before a colon already passes the speaker test. |
| Patterns.SpeakerExample | gspan/parser.py:34 | `JOHN SMITH: Hello` is a speaker line. |
| Patterns.SpacedColonExample | gspan/parser.py:34-35 | `  : applause` is classified as a speaker line, not as a soundbite. |
| Patterns.OtherExample | gspan/parser.py:34-35 | `Hello` is neither a speaker line nor a soundbite. |
| Patterns.LastCloseBeforeColon | gspan/parser.py:37 | A found `]` is followed by optional whitespace and a colon. |
| Patterns.TailAt | gspan/parser.py:37 | A found tail matches `\s*(?:\[(.*)\]\s*)?:\s*(.*)` from the given position. |
| Patterns.NameThenTail | gspan/parser.py:37 | A found name group is a non-empty run of `[A-Z0-9\s.-]` and is followed by a matching tail. |
| Patterns.SpeakerAfterTag | gspan/parser.py:37 | A match found after a `<...>` tag satisfies the whole speaker extraction pattern. |
| Patterns.ExtractSpeaker | gspan/parser.py:36-37 | A match found by the speaker extraction satisfies `^\s*(<.*?>)?([A-Z0-9\s.-]+)\s*(?:\[(.*)\]\s*)?:\s*(.*)`. |
| Patterns.TagGroup | gspan/parser.py:37 | Group 1, when present, starts with `<` and ends with `>`. |
| Patterns.NameGroup | gspan/parser.py:37 | Group 2 is a non-empty run of `[A-Z0-9\s.-]`. |
| Patterns.TimestampGroup | gspan/parser.py:37 | Group 3, when present, holds no line break. |
| Patterns.TextGroup | gspan/parser.py:37 | Group 4 holds no line break. |
| Patterns.TimestampedSpeaker | gspan/parser.py:36-37 | Every line `NAME [stamp]: text` whose name starts with neither whitespace nor `<` and holds only upper-case letters, digits, whitespace, `.` and `-`, whose stamp and text hold no `]` and no line break, and whose text does not start with whitespace, is matched with no tag, `NAME ` as the name group, `stamp` as the timestamp and `text` as the text. |
| Patterns.TimestampedLineIsSpeaker | gspan/parser.py:34 | Every line `NAME [stamp]: text` whose name is a non-empty run of upper-case letters, whitespace, `.` and `-` and whose stamp holds no `]` and no line break passes the speaker test. |
| Patterns.SoundbiteLineClassified | gspan/parser.py:34-35 | A line `:[(x)]` fails the speaker test and passes the soundbite test. |
| Patterns.ParagraphSpeaker | gspan/parser.py:36-37 | For the markup `<p>NAME [stamp]: text</p>` under the conditions of `Patterns.TimestampedSpeaker`, the extraction finds the tag `<p>`, the name group `NAME `, the timestamp `stamp` and the text `text</p>`, so the text put back behind the tag is `<p>` + text + `</p>`. |
| Patterns.ParagraphSoundbite | gspan/parser.py:38-39 | For the markup `<p>:[(x)]</p>` with no line break in `x`, the extraction matches and its group is exactly `x`. |
| Patterns.SpeakerExtractionExample | gspan/parser.py:36-37 | For `JOHN SMITH [1:02]: Hello there`, there is no tag; the name group is `JOHN SMITH ` with its trailing space, the timestamp is `1:02`, and the text is `Hello there`. |
| Patterns.LastParenClose | gspan/parser.py:39 | A found position holds `)]`. |
| Patterns.SoundbiteBody | gspan/parser.py:39 | A found body starts after `:[(`, ends before `)]` and holds no line break. |
| Patterns.SoundbiteAfterTag | gspan/parser.py:39 | A match found after a `<...>` tag satisfies the soundbite extraction pattern. |
| Patterns.ExtractSoundbite | gspan/parser.py:38-39 | A match found by the soundbite extraction satisfies `^\s*(?:<.*?>)?\s*:\[\((.*)\)\]`. |
| Patterns.SoundbiteGroup | gspan/parser.py:39 | The captured group holds no line break. |
| Document.FirstRule | gspan/parser.py:69 | `soup.hr` is the first horizontal rule, and no rule comes before it. `None` means there is no rule. |
| Document.Kept | gspan/parser.py:77-84 | Filtering the children never makes them longer. |
| Document.KeptMembers | gspan/parser.py:77-84 | A child stays exactly when it does not match "DO NOT WRITE BELOW THIS LINE". |
| Document.KeptSplit | gspan/parser.py:77-84 | The children are filtered one by one, keeping their order. |
| Document.KeptAll | gspan/parser.py:77-84 | Without a "DO NOT WRITE" child, every child stays. |
| Document.StrippedRuleCount | gspan/parser.py:68-85 | Stripping removes exactly one horizontal rule when there is one, and leaves a body without one unchanged. |
| Document.StrippedAt | gspan/parser.py:68-85 | If the first rule holds an "END" or "LIVE TRANSCRIPT HAS ENDED" child, the rule is removed and nothing else changes. Otherwise it is replaced, in place, by its kept children. |
| Document.EndNoteDecides | gspan/parser.py:68-85 | If some child of the first rule matches the "END" or "LIVE TRANSCRIPT HAS ENDED" pattern, the rule and all its children are removed. If none does, the rule gives way to its kept children. |
| Document.Soup.constructor | gspan/parser.py:44 | The parsed document holds the given body. |
| Document.Soup.RemoveAdministrivia | gspan/parser.py:68-85 | The body after the call is the stripped body. |
| Segmenter.SeparateComponents | gspan/parser.py:87-111 | The loop's result is the specified segment list. |
| Segmenter.StepClean | gspan/parser.py:92-109 | One loop turn never stores a marker block. |
| Segmenter.MarkersNeverStored | gspan/parser.py:87-111 | No start or end marker block appears in any segment or in the accumulator. |
| Segmenter.AnnotationPerEndMarker | gspan/parser.py:96-101 | There are exactly as many annotation segments as end-marker blocks. |
| Segmenter.InsideIffOpened | gspan/parser.py:90-104 | The `inside_annotation` flag is set exactly when some start marker has not been followed by an end marker. |
| Segmenter.TranscriptsAreOutside | gspan/parser.py:102-109 | The transcript segments are exactly the non-marker blocks outside open spans, one each, in source order. |
| Segmenter.AccumulateInside | gspan/parser.py:103-104 | Inside a span, non-marker blocks are appended to the accumulator and nothing is emitted. |
| Segmenter.ClosedSpan | gspan/parser.py:93-101 | A start marker, non-marker blocks and an end marker emit one annotation holding exactly those blocks. |
| Segmenter.SilentInside | gspan/parser.py:102-104 | While a span stays open, nothing is emitted. |
| Segmenter.UnclosedSpanDropped | gspan/parser.py:87-111 | Blocks after a start marker that is never closed appear in no segment. |
| Segmenter.NothingAccumulatedBeforeStart | gspan/parser.py:90-95 | Before any start marker, the flag is clear and the accumulator empty. |
| Segmenter.StrayEndMarker | gspan/parser.py:96-101 | An end marker before any start marker emits an empty annotation. |
| Segmenter.RepeatedEndMarker | gspan/parser.py:96-101 | A second end marker in a row emits the same annotation contents again. |
| Segmenter.OutsideKeepsAcc | gspan/parser.py:96-107 | Outside an annotation, blocks without markers leave the accumulator as it was, and each is emitted as a transcript segment of its own, in order. |
| Segmenter.StrayAfterClosed | gspan/parser.py:91-107 | An end marker after a closed annotation, with only transcript blocks between, emits that annotation's blocks again. |
| Frontmatter.SplitFrontmatter | gspan/parser.py:124-138 | The routing loop's two lists are those of the specified split. |
| Frontmatter.NonDelimiters | gspan/parser.py:137-138 | The kept blocks contain no delimiter. |
| Frontmatter.CounterCountsDelimiters | gspan/parser.py:129-131 | `marker_counter` is the number of delimiter blocks seen. |
| Frontmatter.DelimitersNeverStored | gspan/parser.py:129-138 | No delimiter block is stored in the metadata or the content. |
| Frontmatter.DroppedBeforeFirst | gspan/parser.py:133-134 | Before the first delimiter, blocks are dropped. |
| Frontmatter.MetadataAfterFirst | gspan/parser.py:135-136 | Between the first and second delimiter, blocks are appended to the metadata in order. |
| Frontmatter.ContentAfterSecond | gspan/parser.py:137-138 | After the second delimiter, every non-delimiter block is appended to the content in order, and the metadata is unchanged. |
| Frontmatter.NoDelimiterNothingStored | gspan/parser.py:124-138 | Without a delimiter, both lists are empty. |
| Frontmatter.OneDelimiter | gspan/parser.py:124-138 | With one delimiter, the metadata is what follows it and the content is empty. |
| Frontmatter.TwoDelimiters | gspan/parser.py:124-138 | With two or more delimiters, the metadata is what lies between the first two and the content is the non-delimiter blocks after the second. |
| Metadata.ProcessMetadata | gspan/parser.py:171-188 | The loop's dictionary is the specified one. |
| Metadata.CopyEntries | gspan/parser.py:141-142 | Copying entries key by key yields the union, with the copied entries overriding. |
| Metadata.LastLineWins | gspan/parser.py:171-188 | A key is present exactly when some line yields it, and its value comes from the last such line. |
| Metadata.SkippedLines | gspan/parser.py:186-187 | Lines that do not match add nothing. |
| Metadata.NoColonNoKey | gspan/parser.py:175-176 | A line without a colon adds no key. |
| Metadata.ParsedLineNormalised | gspan/parser.py:177-178 | A parsed key is trimmed and lower-case, and a parsed value trimmed. |
| Metadata.KeysNormalised | gspan/parser.py:177-185 | Every key of the dictionary is trimmed and lower-case. |
| Metadata.ParseLineShape | gspan/parser.py:175-178 | A line `key:value` yields the trimmed, lower-cased key and the trimmed value. |
| Metadata.PublishedIsFlag | gspan/parser.py:179-180 | `published` is a boolean, true exactly when the trimmed value is `Yes`. |
| Metadata.AuthorResolved | gspan/parser.py:182-183 | `author` is the directory's entry for the value, or the default author when the directory has none. |
| Metadata.PlainValuesStayText | parser/__init__.py:184-188 | Without author lookup, every key but `published` keeps its trimmed string. |
| GspanParser.TrimLeadingBlankLineDropsTwo | gspan/parser.py:260-261 | The clean-up removes exactly the first two characters when the output starts with `"\n\n"`, and otherwise leaves it unchanged. |
| GspanParser.ParseRawContents | gspan/parser.py:113-158 | The loop builds exactly those records. |
| GspanParser.TranscriptParser.constructor | gspan/parser.py:17-45 | The transcript is parsed on construction from the given body, author directory and default author. |
| GspanParser.TranscriptParser.Parse | gspan/parser.py:59-66 | The document is stripped in place, and the records are those of the stripped, segmented body. |
| GspanParser.TranscriptRecordKind | gspan/parser.py:190-204 | The type is `speaker`, `soundbite` or `transcript`, each exactly when its test is the first to hold, and the record is published. |
| GspanParser.SpeakerParagraphRecord | gspan/parser.py:195-230 | A paragraph `<p>NAME [stamp]: text</p>` (name of upper-case letters, whitespace, `.` and `-`; no `]` and no line break in stamp or text; text not starting with whitespace) becomes the published record `speaker` with speaker `NAME ` stripped, timestamp `stamp`, and text `<p>` + text + `</p>` converted. A name without surrounding whitespace is the speaker as written. |
| GspanParser.SoundbiteParagraphRecord | gspan/parser.py:232-246 | A paragraph `<p>:[(x)]</p>` with no line break in `x` is classified as a soundbite and becomes the published record `soundbite` whose text is `(x)` converted. |
| GspanParser.OtherContextText | gspan/parser.py:248-263 | A block that is neither a speaker line nor a soundbite becomes a published `transcript` record. Its context text is its whole markup converted, less a leading `"\n\n"`. |
| GspanParser.AnnotationRecordData | gspan/parser.py:139-147 | An annotation's `data` is the metadata, with the converted body under `content` overriding any metadata key of that name. |
| DocParser.OneLine | parser/__init__.py:267 | The per-character reference contains no line feed and no carriage return, and its length is the input's minus its carriage returns. |
| DocParser.ReplaceAllIsMapChar | parser/__init__.py:267 | `replace` of one character is the character-by-character rewriting. |
| DocParser.MapCharAppend | parser/__init__.py:267 | The rewriting distributes over concatenation. |
| DocParser.CollapseLinesIsOneLine | parser/__init__.py:267 | Both rounds of `replace` together turn each line feed into a space, drop each carriage return, and keep every other character in order. |
| DocParser.ConvertedIsOneLine | parser/__init__.py:265-269 | Converted text has no line feed and no carriage return. |
| DocParser.ParseRawContents | parser/__init__.py:122-165 | The loop builds exactly those records. |
| DocParser.TranscriptParser.constructor | parser/__init__.py:14-66 | The document is parsed on construction. |
| DocParser.TranscriptParser.Parse | parser/__init__.py:68-75 | The document is stripped in place, and the printed records are those of the stripped, segmented body. |
| DocParser.AnnotationTypeAndContents | parser/__init__.py:145-153 | `type` is always `annotation` and `contents` always the converted body, whatever the metadata says. Every other key is the metadata's. |
| DocParser.TranscriptRecordKind | parser/__init__.py:193-207 | The type is `speaker`, `soundbite` or `other`, each exactly when its test is the first to hold, and the record is published. |
| DocParser.OtherContextText | parser/__init__.py:256-269 | A block that is neither a speaker line nor a soundbite becomes a published `other` record. Its context text is its whole markup converted and put on one line: line feeds become spaces, carriage returns go, and nothing else changes. |
| DocParser.SpeakerParagraphRecord | parser/__init__.py:197-238 | A paragraph `<p>NAME [stamp]: text</p>`, under the same conditions as in `GspanParser.SpeakerParagraphRecord`, becomes the published record `speaker` whose speaker is `NAME ` stripped, whose class is the table's entry for that speaker or `speaker` when the table has none, whose timestamp is `stamp`, and whose text is `<p>` + text + `</p>` converted and put on one line. |
| DocParser.SoundbiteParagraphRecord | parser/__init__.py:240-254 | A paragraph `<p>:[(x)]</p>` with no line break in `x` becomes the published record `soundbite` whose text is `(x)` converted and put on one line. |

## Left out

- Fetching the doc (`download_gdoc_html`, a subprocess and file I/O), `print`, and `to_json` writing to standard output are not modelled. The entry point takes the body directly, and `Parse` returns what `parse` prints.
- The HTML-to-markdown converter (`html2text`) is the parameter `handle` or `convert`. Only the clean-up around it is modelled.
- The BeautifulSoup tree is abstracted:
  - A block is its `get_text()` and its `str(tag)`.
  - A rule's `find('p', text=...)` is modelled as a test of its direct children's text, not of nested descendants or of `.string` alone. The `p` tag filter is dropped too: a child that is not a `<p>` but whose text is `END` ends the fact check in the model, and not in the code.
- Removing children while iterating over them skips the child after each removed one in the real tree. The model filters every child.
- Records are values, not dictionaries. `gspan/parser.py` nests a record's fields under `data` and `parser/__init__.py` puts them in one flat dictionary; the models keep that split in their `Record` types, but the order of the keys in the emitted dictionaries (and so in the JSON) is not modelled.
- Characters are ASCII. Python's Unicode whitespace and case mapping are not modelled.
- The `extract_author_metadata` pattern is compiled but never used, so it is not modelled.
- `DocParser.SpeakerParagraphRecord`: `self.SPEAKERS` is never defined in `parser/__init__.py`, so the real lookup raises `AttributeError`. The model takes the speaker table as a parameter, defaulting to an empty table.
- DocParser.ProcessSpeakerTranscript: the extraction patterns in `parser/__init__.py` are applied to the Tag object rather than to its markup, which fails at run time. The model applies them to the markup, as `gspan/parser.py` does.
- `GspanParser.ProcessSpeakerTranscript`: `gspan/parser.py` returns the Tag itself when extraction fails, which `json.dump` cannot serialise. The model returns the block.
- `Patterns.ExtractSpeaker`: proved sound only. A match it returns satisfies the pattern, but it is not proved to be the match Python picks, nor to exist whenever the pattern matches. The one exception is the common `NAME [stamp]: text` shape, for which `Patterns.TimestampedSpeaker` and `Patterns.ParagraphSpeaker` give the groups exactly.
- `Patterns.ExtractSoundbite`: proved sound only, in the same way, except for the paragraph `<p>:[(x)]</p>`, for which `Patterns.ParagraphSoundbite` gives the group exactly.
