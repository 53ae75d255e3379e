/** The table of regular expressions the transcript parser matches blocks
    against (gspan/parser.py, lines 24-41; parser/__init__.py, lines 15-63,
    holds the same patterns). Each pattern is written out as a predicate or,
    where the code reads capture groups, as a matcher that returns the spans
    of a match the way Python's `re.match` finds it: `^` anchors at the
    start, `.` stops at a line break, `*` and `+` are greedy and `*?` lazy,
    and alternatives are tried in the order Python's backtracking tries them.
    The two end-note patterns are searched for instead, anywhere in the
    text. Beside each yes-or-no pattern stands its shape as a plain
    statement about the text, and a lemma that the two agree; the matchers
    that return capture groups are proved to return spans the pattern
    accepts. `extract_author_metadata`, compiled but never used, is left out. */
module Patterns {
  import opened Strings
  import opened Options

  /** The end of the run of characters satisfying `p` that starts at `i`. */
  function RunEnd(s: string, i: nat, p: char -> bool): (r: nat)
    requires i <= |s|
    ensures i <= r <= |s|
    ensures forall k :: i <= k < r ==> p(s[k])
    ensures r == |s| || !p(s[r])
    decreases |s| - i
  {
    if i < |s| && p(s[i]) then RunEnd(s, i + 1, p) else i
  }

  /** `\s*` at `i`, as far as it goes. */
  function SkipSpace(s: string, i: nat): (r: nat)
    requires i <= |s|
    ensures i <= r <= |s|
    ensures AllSpace(s[i..r])
    ensures r == |s| || !IsSpace(s[r])
  {
    RunEnd(s, i, IsSpace)
  }

  /** `.*` at `i`, as far as it goes: up to the next line break. */
  function LineEnd(s: string, i: nat): (r: nat)
    requires i <= |s|
    ensures i <= r <= |s|
    ensures forall k :: i <= k < r ==> s[k] != '\n'
    ensures r == |s| || s[r] == '\n'
  {
    RunEnd(s, i, NotBreak)
  }

  predicate NotBreak(c: char) {
    c != '\n'
  }

  predicate AllChar(s: string, c: char) {
    forall i :: 0 <= i < |s| ==> s[i] == c
  }

  // ---------------------------------------------------------------------
  // Marker lines: `anno_start_marker`, `anno_end_marker`, `frontmatter_marker`

  /** `^\s*\+{50,}\s*$`: after stripping, fifty or more `+` and nothing else. */
  predicate IsAnnoStartMarker(text: string) {
    var core := Strip(text);
    |core| >= 50 && AllChar(core, '+')
  }

  /** `^\s*-{50,}\s*$`: after stripping, fifty or more `-` and nothing else. */
  predicate IsAnnoEndMarker(text: string) {
    var core := Strip(text);
    |core| >= 50 && AllChar(core, '-')
  }

  /** `^\s*-{3}\s*$`: after stripping, exactly `---`. */
  predicate IsFrontmatterMarker(text: string) {
    Strip(text) == "---"
  }

  /** The text is whitespace, then the run `text[i..j]` of the character `c`,
      then whitespace: the shape `^\s*c{n}\s*$` with `n == j - i`. */
  ghost predicate PaddedRun(text: string, c: char, i: nat, j: nat) {
    i <= j <= |text| && AllSpace(text[..i]) && AllChar(text[i..j], c) && AllSpace(text[j..])
  }

  /** For a character that is not whitespace, the stripped text is a
      non-empty run of it exactly when the text is a padded run of it, and
      then the run is what `strip` returns. */
  lemma PaddedRunIsStripped(text: string, c: char, i: nat, j: nat)
    requires !IsSpace(c)
    requires PaddedRun(text, c, i, j) && i < j
    ensures Strip(text) == text[i..j]
  {
    assert text == text[..i] + text[i..j] + text[j..];
    StripPadded(text[..i], text[i..j], text[j..]);
  }

  lemma StrippedRunIsPadded(text: string, c: char)
    requires Strip(text) != [] && AllChar(Strip(text), c)
    ensures exists i: nat, j: nat :: j == i + |Strip(text)| && PaddedRun(text, c, i, j)
  {
    var l := LStrip(text);
    var core := RStrip(l);
    LStripFacts(text);
    RStripFacts(l);
    var i := |text| - |l|;
    assert text[i..i + |core|] == core;
    assert text[i + |core|..] == l[|core|..];
    assert PaddedRun(text, c, i, i + |core|);
  }

  /** The start marker is the regular expression `^\s*\+{50,}\s*$`. */
  lemma AnnoStartMarkerRegex(text: string)
    ensures IsAnnoStartMarker(text) <==> exists i: nat, j: nat :: i + 50 <= j && PaddedRun(text, '+', i, j)
  {
    if IsAnnoStartMarker(text) {
      StrippedRunIsPadded(text, '+');
      var i: nat, j: nat :| j == i + |Strip(text)| && PaddedRun(text, '+', i, j);
      assert i + 50 <= i + |Strip(text)|;
    }
    if exists i: nat, j: nat :: i + 50 <= j && PaddedRun(text, '+', i, j) {
      var i: nat, j: nat :| i + 50 <= j && PaddedRun(text, '+', i, j);
      PaddedRunIsStripped(text, '+', i, j);
    }
  }

  /** The end marker is the regular expression `^\s*-{50,}\s*$`. */
  lemma AnnoEndMarkerRegex(text: string)
    ensures IsAnnoEndMarker(text) <==> exists i: nat, j: nat :: i + 50 <= j && PaddedRun(text, '-', i, j)
  {
    if IsAnnoEndMarker(text) {
      StrippedRunIsPadded(text, '-');
      var i: nat, j: nat :| j == i + |Strip(text)| && PaddedRun(text, '-', i, j);
      assert i + 50 <= i + |Strip(text)|;
    }
    if exists i: nat, j: nat :: i + 50 <= j && PaddedRun(text, '-', i, j) {
      var i: nat, j: nat :| i + 50 <= j && PaddedRun(text, '-', i, j);
      PaddedRunIsStripped(text, '-', i, j);
    }
  }

  /** The frontmatter delimiter is the regular expression `^\s*-{3}\s*$`. */
  lemma FrontmatterMarkerRegex(text: string)
    ensures IsFrontmatterMarker(text) <==> exists i: nat, j: nat :: j == i + 3 && PaddedRun(text, '-', i, j)
  {
    if IsFrontmatterMarker(text) {
      StrippedRunIsPadded(text, '-');
    }
    if exists i: nat, j: nat :: j == i + 3 && PaddedRun(text, '-', i, j) {
      var i: nat, j: nat :| j == i + 3 && PaddedRun(text, '-', i, j);
      PaddedRunIsStripped(text, '-', i, j);
    }
  }

  /** No block is both a start and an end marker, and no end marker is a
      frontmatter delimiter. */
  lemma MarkersDisjoint(text: string)
    ensures !(IsAnnoStartMarker(text) && IsAnnoEndMarker(text))
    ensures !(IsAnnoEndMarker(text) && IsFrontmatterMarker(text))
  {
    assert IsAnnoStartMarker(text) ==> Strip(text)[0] == '+';
  }

  // ---------------------------------------------------------------------
  // Administrivia: `end_fact_check`, `end_transcript`, `do_not_write`

  /** `^\s*[Ee][Nn][Dd]\s*$`: the word END, in any letter case, alone. */
  predicate IsEndFactCheck(text: string) {
    Lower(Strip(text)) == "end"
  }

  /** The words `words` start at `i`, separated by `\s*` when `loose` and by
      exactly one `\s` otherwise. Every word starts with a letter, so a greedy
      `\s*` never has to give anything back. */
  predicate PhraseAt(text: string, i: nat, words: seq<string>, loose: bool)
    requires i <= |text|
    decreases |words|
  {
    if words == [] then true
    else
      var e := i + |words[0]|;
      e <= |text| && text[i..e] == words[0] &&
      (|words| == 1 ||
       if loose then PhraseAt(text, SkipSpace(text, e), words[1..], loose)
       else e < |text| && IsSpace(text[e]) && PhraseAt(text, e + 1, words[1..], loose))
  }

  /** `.*LIVE\sTRANSCRIPT\sHAS\sENDED.*`, searched for anywhere in the text
      (the separator's paragraphs are looked up with `find(text=...)`, which
      searches rather than matching at the start). */
  predicate IsEndTranscript(text: string) {
    exists i :: 0 <= i <= |text| && PhraseAt(text, i, EndTranscriptWords, false)
  }

  const EndTranscriptWords: seq<string> := ["LIVE", "TRANSCRIPT", "HAS", "ENDED"]

  const DoNotWriteWords: seq<string> := ["DO", "NOT", "WRITE", "BELOW", "THIS", "LINE"]

  /** `.*DO\s*NOT\s*WRITE\s*BELOW\s*THIS\s*LINE.*` with `re.match`: the
      phrase must start on the first line, since `.*` cannot cross a line
      break. */
  predicate IsDoNotWrite(text: string) {
    exists i :: 0 <= i <= |text| && '\n' !in text[..i] &&
      PhraseAt(text, i, DoNotWriteWords, true)
  }

  /** The end-of-fact-check test is the regular expression
      `^\s*[Ee][Nn][Dd]\s*$`: whitespace, the three letters in any case,
      whitespace. */
  lemma EndFactCheckRegex(text: string)
    ensures IsEndFactCheck(text) <==>
      exists i: nat :: i + 3 <= |text| && AllSpace(text[..i]) && Lower(text[i..i + 3]) == "end" && AllSpace(text[i + 3..])
  {
    if IsEndFactCheck(text) {
      var i := EndFactCheckSplit(text);
    }
    if exists i: nat :: i + 3 <= |text| && AllSpace(text[..i]) && Lower(text[i..i + 3]) == "end" && AllSpace(text[i + 3..]) {
      var i: nat :| i + 3 <= |text| && AllSpace(text[..i]) && Lower(text[i..i + 3]) == "end" && AllSpace(text[i + 3..]);
      EndFactCheckPadded(text, i);
    }
  }

  lemma EndFactCheckSplit(text: string) returns (i: nat)
    requires IsEndFactCheck(text)
    ensures i + 3 <= |text| && AllSpace(text[..i]) && Lower(text[i..i + 3]) == "end" && AllSpace(text[i + 3..])
  {
    var r := Strip(text);
    StripShape(text);
    assert |r| == 3;
    i :| 0 <= i <= |text| - |r| && text[i..i + |r|] == r && AllSpace(text[..i]) && AllSpace(text[i + |r|..]);
  }

  lemma EndFactCheckPadded(text: string, i: nat)
    requires i + 3 <= |text| && AllSpace(text[..i]) && Lower(text[i..i + 3]) == "end" && AllSpace(text[i + 3..])
    ensures IsEndFactCheck(text)
  {
    var core := text[i..i + 3];
    assert ToLower(core[0]) == 'e' && ToLower(core[2]) == 'd';
    StripPadded(text[..i], core, text[i + 3..]);
    assert text[..i] + core + text[i + 3..] == text;
  }

  /** `LIVE\sTRANSCRIPT\sHAS\sENDED` starting at `i`. */
  ghost predicate EndTranscriptAt(text: string, i: nat) {
    i + 25 <= |text| &&
    text[i..i + 4] == "LIVE" && IsSpace(text[i + 4]) &&
    text[i + 5..i + 15] == "TRANSCRIPT" && IsSpace(text[i + 15]) &&
    text[i + 16..i + 19] == "HAS" && IsSpace(text[i + 19]) &&
    text[i + 20..i + 25] == "ENDED"
  }

  lemma EndTranscriptPhrase(text: string, i: nat)
    requires i <= |text|
    ensures PhraseAt(text, i, EndTranscriptWords, false) <==> EndTranscriptAt(text, i)
  {
    var w := EndTranscriptWords;
    assert w[1..] == ["TRANSCRIPT", "HAS", "ENDED"];
    assert w[1..][1..] == ["HAS", "ENDED"];
    assert w[1..][1..][1..] == ["ENDED"];
  }

  /** The end-of-transcript test is the regular expression
      `.*LIVE\sTRANSCRIPT\sHAS\sENDED.*`, searched for: the phrase, one
      whitespace character between its words, anywhere in the text. */
  lemma EndTranscriptRegex(text: string)
    ensures IsEndTranscript(text) <==> exists i: nat :: EndTranscriptAt(text, i)
  {
    if IsEndTranscript(text) {
      var i :| 0 <= i <= |text| && PhraseAt(text, i, EndTranscriptWords, false);
      EndTranscriptPhrase(text, i);
    }
    if exists i: nat :: EndTranscriptAt(text, i) {
      var i: nat :| EndTranscriptAt(text, i);
      EndTranscriptPhrase(text, i);
    }
  }

  /** The words `words` from `i`, each followed by a run of whitespace of
      any length: `W0\s*W1\s*...` as a statement about the text. */
  ghost predicate LoosePhrase(text: string, i: nat, words: seq<string>)
    requires i <= |text|
    decreases |words|
  {
    words == [] ||
    (i + |words[0]| <= |text| && text[i..i + |words[0]|] == words[0] &&
     (|words| == 1 ||
      exists p: nat :: i + |words[0]| <= p <= |text| && AllSpace(text[i + |words[0]|..p]) &&
        LoosePhrase(text, p, words[1..])))
  }

  /** With every word starting with a character other than whitespace, the
      greedy `\s*` is the only way the phrase can match. */
  lemma {:induction false} LoosePhraseAt(text: string, i: nat, words: seq<string>)
    requires i <= |text|
    requires forall k :: 0 <= k < |words| ==> words[k] != [] && !IsSpace(words[k][0])
    ensures PhraseAt(text, i, words, true) <==> LoosePhrase(text, i, words)
    decreases |words|
  {
    if |words| > 1 {
      var e := i + |words[0]|;
      if e <= |text| && text[i..e] == words[0] {
        var q := SkipSpace(text, e);
        LoosePhraseAt(text, q, words[1..]);
        if LoosePhrase(text, i, words) {
          var p: nat :| e <= p <= |text| && AllSpace(text[e..p]) && LoosePhrase(text, p, words[1..]);
          assert p < |text| && text[p] == words[1][0] by {
            assert text[p..p + |words[1]|] == words[1];
          }
          forall k | e <= k < q ensures IsSpace(text[k]) {
            assert text[e..q][k - e] == text[k];
          }
          forall k | e <= k < p ensures IsSpace(text[k]) {
            assert text[e..p][k - e] == text[k];
          }
          assert p == q;
        }
      }
    }
  }

  /** The do-not-write test is the regular expression
      `.*DO\s*NOT\s*WRITE\s*BELOW\s*THIS\s*LINE.*` matched at the start:
      the phrase, with whitespace runs between its words, starting on the
      first line. */
  lemma DoNotWriteRegex(text: string)
    ensures IsDoNotWrite(text) <==>
      exists i: nat :: i <= |text| && '\n' !in text[..i] && LoosePhrase(text, i, DoNotWriteWords)
  {
    if IsDoNotWrite(text) {
      var i :| 0 <= i <= |text| && '\n' !in text[..i] && PhraseAt(text, i, DoNotWriteWords, true);
      DoNotWriteAt(text, i);
    }
    if exists i: nat :: i <= |text| && '\n' !in text[..i] && LoosePhrase(text, i, DoNotWriteWords) {
      var i: nat :| i <= |text| && '\n' !in text[..i] && LoosePhrase(text, i, DoNotWriteWords);
      DoNotWriteAt(text, i);
    }
  }

  lemma DoNotWriteAt(text: string, i: nat)
    requires i <= |text|
    ensures PhraseAt(text, i, DoNotWriteWords, true) <==> LoosePhrase(text, i, DoNotWriteWords)
  {
    var w := DoNotWriteWords;
    assert forall k :: 0 <= k < |w| ==> w[k] != [] && !IsSpace(w[k][0]);
    LoosePhraseAt(text, i, w);
  }

  /** `END`, in any case and padded, ends the fact check; `ENDS` does not. */
  lemma EndFactCheckExample()
    ensures IsEndFactCheck("  End\n")
    ensures !IsEndFactCheck("ENDS")
  {
    StripPadded("  ", "End", "\n");
    assert "  End\n" == "  " + "End" + "\n";
    StripPadded("", "ENDS", "");
    assert "ENDS" == "" + "ENDS" + "";
  }

  // ---------------------------------------------------------------------
  // `extract_metadata`: `^(.*?):(.*)$`

  /** `.` in the key group `(.*?)`, short of the colon that ends it. */
  predicate InKey(c: char) {
    c != ':' && c != '\n'
  }

  /** The key and value groups of a metadata line: what comes before the
      first colon and what comes after it. `.` does not match a line break,
      and `$` matches at the end or before one final line break, so the
      match fails when the key or the value spans a line break. */
  function SplitMetadataLine(text: string): (r: Option<(string, string)>)
  {
    var c := RunEnd(text, 0, InKey);
    if c < |text| && text[c] == ':' then
      var e := LineEnd(text, c + 1);
      if e == |text| || e == |text| - 1 then Some((text[..c], text[c + 1..e])) else None
    else None
  }

  /** `key: value` on one line, `key` without a colon, perhaps followed by
      one line break. */
  ghost predicate MetadataShape(text: string, key: string, value: string) {
    ':' !in key && '\n' !in key && '\n' !in value &&
    (text == key + ":" + value || text == key + ":" + value + "\n")
  }

  /** The metadata split is the regular expression `^(.*?):(.*)$`: it
      returns a key and a value exactly when the line has that shape. */
  lemma SplitMetadataLineRegex(text: string, key: string, value: string)
    ensures SplitMetadataLine(text) == Some((key, value)) <==> MetadataShape(text, key, value)
  {
    if SplitMetadataLine(text) == Some((key, value)) {
      SplitMetadataLineSound(text);
    }
    if MetadataShape(text, key, value) {
      SplitMetadataLineComplete(text, key, value);
    }
  }

  lemma SplitMetadataLineSound(text: string)
    requires SplitMetadataLine(text).Some?
    ensures MetadataShape(text, SplitMetadataLine(text).value.0, SplitMetadataLine(text).value.1)
  {
    var c := RunEnd(text, 0, InKey);
    var e := LineEnd(text, c + 1);
    var key, value := text[..c], text[c + 1..e];
    assert forall k :: 0 <= k < |key| ==> key[k] != ':' && key[k] != '\n';
    assert forall k :: 0 <= k < |value| ==> value[k] != '\n';
    if e == |text| {
      assert text == key + ":" + value;
    } else {
      assert text == key + ":" + value + "\n";
    }
  }

  lemma SplitMetadataLineComplete(text: string, key: string, value: string)
    requires MetadataShape(text, key, value)
    ensures SplitMetadataLine(text) == Some((key, value))
  {
    MetadataShapeLayout(text, key, value);
    MetadataSplitAt(text, |key|, |key| + 1 + |value|);
  }

  /** The key ends at `c` on the first colon, and the value runs from after
      it to `e`, the end of the text or its one final line break. */
  ghost predicate MetadataLayout(text: string, c: nat, e: nat) {
    c < e <= |text| && text[c] == ':' &&
    (forall k :: 0 <= k < c ==> InKey(text[k])) &&
    (forall k :: c + 1 <= k < e ==> NotBreak(text[k])) &&
    (e == |text| || (e == |text| - 1 && text[e] == '\n'))
  }

  lemma MetadataShapeLayout(text: string, key: string, value: string)
    requires MetadataShape(text, key, value)
    ensures var c, e := |key|, |key| + 1 + |value|;
      MetadataLayout(text, c, e) && text[..c] == key && text[c + 1..e] == value
  {
    var tail := if text == key + ":" + value then [] else "\n";
    var rest := ":" + value + tail;
    var c, e := |key|, |key| + 1 + |value|;
    assert text == key + rest;
    assert text[..c] == key;
    assert text[c] == rest[0] == ':';
    assert text[c + 1..e] == value;
    assert text[e..] == tail;
  }

  lemma MetadataSplitAt(text: string, c: nat, e: nat)
    requires MetadataLayout(text, c, e)
    ensures SplitMetadataLine(text) == Some((text[..c], text[c + 1..e]))
  {
    RunEndAt(text, 0, InKey, c);
    RunEndAt(text, c + 1, NotBreak, e);
  }

  /** A run that stops at `e` ends at `e`. */
  lemma {:induction false} RunEndAt(s: string, i: nat, p: char -> bool, e: nat)
    requires i <= e <= |s|
    requires forall k :: i <= k < e ==> p(s[k])
    requires e == |s| || !p(s[e])
    ensures RunEnd(s, i, p) == e
    decreases e - i
  {
    if i < e {
      RunEndAt(s, i + 1, p, e);
    }
  }

  // ---------------------------------------------------------------------
  // Classification: `speaker` and `soundbite`

  /** `[A-Z\s.-]` */
  predicate IsNameChar(c: char) {
    IsUpper(c) || IsSpace(c) || c == '.' || c == '-'
  }

  /** `[A-Z0-9\s.-]` */
  predicate IsNameOrDigit(c: char) {
    IsNameChar(c) || ('0' <= c <= '9')
  }

  /** From `i` on, a `]` directly followed by `:`, with no line break before
      it: what `\[.*\]:` still needs once its `[` is matched. */
  predicate ClosesThenColon(text: string, i: nat)
    requires i <= |text|
    decreases |text| - i
  {
    i + 1 < |text| &&
    if text[i] == ']' && text[i + 1] == ':' then true
    else text[i] != '\n' && ClosesThenColon(text, i + 1)
  }

  /** `speaker`, `^[A-Z\s.-]+(\s\[.*\])?:`. The name run is greedy, and a
      colon, a whitespace character and a `[` cannot be told apart from
      it only at its end, so only the maximal run needs trying. */
  predicate IsSpeakerLine(text: string) {
    var n := RunEnd(text, 0, IsNameChar);
    1 <= n < |text| &&
    (text[n] == ':' ||
     (n >= 2 && IsSpace(text[n - 1]) && text[n] == '[' && ClosesThenColon(text, n + 1)))
  }

  /** `text[..k]` is the name, `text[j]` the colon, and between them either
      nothing or a whitespace character followed by `[...]`. */
  ghost predicate SpeakerLineShape(text: string, k: nat, j: nat) {
    1 <= k <= j < |text| &&
    (forall i :: 0 <= i < k ==> IsNameChar(text[i])) &&
    text[j] == ':' &&
    (j == k ||
     (k + 3 <= j && IsSpace(text[k]) && text[k + 1] == '[' && text[j - 1] == ']' &&
      NoBreak(text, k + 2, j - 1)))
  }

  /** No line break in `text[lo..hi]`: what `.*` may cover. */
  ghost predicate NoBreak(text: string, lo: nat, hi: nat)
    requires lo <= hi <= |text|
  {
    forall k :: lo <= k < hi ==> text[k] != '\n'
  }

  /** `ClosesThenColon` holds exactly when some `]:` follows with no line
      break before it. */
  lemma {:induction false} ClosesThenColonWitness(text: string, i: nat)
    requires i <= |text|
    ensures ClosesThenColon(text, i) <==>
      exists j :: i <= j && j + 1 < |text| && text[j] == ']' && text[j + 1] == ':' && NoBreak(text, i, j)
    decreases |text| - i
  {
    if i + 1 < |text| {
      ClosesThenColonWitness(text, i + 1);
      if ClosesThenColon(text, i) && !(text[i] == ']' && text[i + 1] == ':') {
        var j :| i + 1 <= j && j + 1 < |text| && text[j] == ']' && text[j + 1] == ':' && NoBreak(text, i + 1, j);
        assert NoBreak(text, i, j);
      }
      if exists j :: i <= j && j + 1 < |text| && text[j] == ']' && text[j + 1] == ':' && NoBreak(text, i, j) {
        var j :| i <= j && j + 1 < |text| && text[j] == ']' && text[j + 1] == ':' && NoBreak(text, i, j);
        if j > i {
          assert NoBreak(text, i + 1, j);
        }
      }
    }
  }

  /** The speaker test is the regular expression `^[A-Z\s.-]+(\s\[.*\])?:`. */
  lemma SpeakerLineRegex(text: string)
    ensures IsSpeakerLine(text) <==> exists k: nat, j: nat :: SpeakerLineShape(text, k, j)
  {
    var n := RunEnd(text, 0, IsNameChar);
    if IsSpeakerLine(text) {
      if text[n] == ':' {
        assert SpeakerLineShape(text, n, n);
      } else {
        ClosesThenColonWitness(text, n + 1);
        var j :| n + 1 <= j && j + 1 < |text| && text[j] == ']' && text[j + 1] == ':' && NoBreak(text, n + 1, j);
        assert SpeakerLineShape(text, n - 1, j + 1);
      }
    }
    if exists k: nat, j: nat :: SpeakerLineShape(text, k, j) {
      var k: nat, j: nat :| SpeakerLineShape(text, k, j);
      if j == k {
        assert n == k;
      } else {
        assert n == k + 1;
        ClosesThenColonWitness(text, n + 1);
        assert j - 1 + 1 < |text| && text[j - 1] == ']' && text[j] == ':';
      }
    }
  }

  /** `soundbite`, `^\s*:`. */
  predicate IsSoundbiteLine(text: string) {
    var w := SkipSpace(text, 0);
    w < |text| && text[w] == ':'
  }

  /** The soundbite test is the regular expression `^\s*:`. */
  lemma SoundbiteLineRegex(text: string)
    ensures IsSoundbiteLine(text) <==> exists k :: 0 <= k < |text| && AllSpace(text[..k]) && text[k] == ':'
  {
    var w := SkipSpace(text, 0);
    if exists k :: 0 <= k < |text| && AllSpace(text[..k]) && text[k] == ':' {
      var k :| 0 <= k < |text| && AllSpace(text[..k]) && text[k] == ':';
      assert w == k;
    }
  }

  /** The three kinds a transcript block can be classified as. */
  datatype LineKind = SpeakerLine | SoundbiteLine | OtherLine

  /** The ordered tests of `process_transcript_content`: the speaker pattern
      first, then the soundbite pattern, and anything else last. */
  function Classify(text: string): (k: LineKind)
    ensures k == SpeakerLine <==> IsSpeakerLine(text)
    ensures k == SoundbiteLine <==> !IsSpeakerLine(text) && IsSoundbiteLine(text)
  {
    if IsSpeakerLine(text) then SpeakerLine
    else if IsSoundbiteLine(text) then SoundbiteLine
    else OtherLine
  }

  /** Because whitespace counts as a name character, whitespace followed by a
      colon already passes the speaker test: a block is classified as a
      soundbite only when its text starts with the colon itself. */
  lemma SoundbiteStartsWithColon(text: string)
    ensures Classify(text) == SoundbiteLine <==> text != [] && text[0] == ':'
  {
    var w := SkipSpace(text, 0);
    var n := RunEnd(text, 0, IsNameChar);
    if text != [] && text[0] == ':' {
      assert n == 0;
      assert w == 0;
    }
  }

  /** A name in capitals followed by a colon is a speaker line. */
  lemma SpeakerExample()
    ensures Classify("JOHN SMITH: Hello") == SpeakerLine
  {
    var t := "JOHN SMITH: Hello";
    assert forall k :: 0 <= k < 10 ==> IsNameChar(t[k]);
    RunEndAt(t, 0, IsNameChar, 10);
  }

  /** Whitespace before the colon makes a speaker line, not a soundbite. */
  lemma SpacedColonExample()
    ensures Classify("  : applause") == SpeakerLine
  {
    RunEndAt("  : applause", 0, IsNameChar, 2);
  }

  /** Ordinary prose falls through both tests. */
  lemma OtherExample()
    ensures Classify("Hello") == OtherLine
  {
    RunEndAt("Hello", 0, IsNameChar, 1);
    assert SkipSpace("Hello", 0) == 0;
  }

  // ---------------------------------------------------------------------
  // `extract_speaker_metadata`:
  //   `^\s*(<.*?>)?([A-Z0-9\s.-]+)\s*(?:\[(.*)\]\s*)?:\s*(.*)`

  /** Where the part after the name, `\s*(?:\[(.*)\]\s*)?:\s*(.*)`, matched:
      the brackets of group 3 if it took part, the colon, and group 4. */
  datatype TailSpans = TailSpans(bracket: Option<(nat, nat)>, colon: nat, textStart: nat, textEnd: nat)

  ghost predicate TailMatches(m: string, e: nat, t: TailSpans) {
    e <= t.colon < t.textStart <= t.textEnd <= |m| &&
    m[t.colon] == ':' &&
    AllSpace(m[t.colon + 1..t.textStart]) &&
    (forall i :: t.textStart <= i < t.textEnd ==> m[i] != '\n') &&
    (t.textEnd == |m| || m[t.textEnd] == '\n') &&
    match t.bracket
    case None => AllSpace(m[e..t.colon])
    case Some(b) =>
      e <= b.0 < b.1 < t.colon && AllSpace(m[e..b.0]) && m[b.0] == '[' && m[b.1] == ']' &&
      (forall i :: b.0 < i < b.1 ==> m[i] != '\n') && AllSpace(m[b.1 + 1..t.colon])
  }

  /** Where a whole speaker match lies: group 1 is `m[s..nameStart]` when
      `tag == Some(s)`, group 2 is `m[nameStart..nameEnd]`. */
  datatype SpeakerSpans = SpeakerSpans(tag: Option<nat>, nameStart: nat, nameEnd: nat, tail: TailSpans)

  ghost predicate SpeakerMatches(m: string, g: SpeakerSpans) {
    g.nameStart < g.nameEnd <= |m| &&
    (forall i :: g.nameStart <= i < g.nameEnd ==> IsNameOrDigit(m[i])) &&
    TailMatches(m, g.nameEnd, g.tail) &&
    match g.tag
    case None => AllSpace(m[..g.nameStart])
    case Some(s) =>
      s + 2 <= g.nameStart && AllSpace(m[..s]) && m[s] == '<' && m[g.nameStart - 1] == '>' &&
      (forall i :: s < i < g.nameStart ==> m[i] != '\n')
  }

  /** After skipping whitespace from `i`, a colon. */
  predicate ColonAfterSpace(m: string, i: nat)
    requires i <= |m|
  {
    var c := SkipSpace(m, i);
    c < |m| && m[c] == ':'
  }

  /** The greedy `(.*)` between the brackets: the last `]` in `m[lo..hi]`
      that is followed, after whitespace, by a colon. */
  function LastCloseBeforeColon(m: string, lo: nat, hi: nat): (r: Option<nat>)
    requires lo <= hi <= |m|
    ensures r.Some? ==> lo <= r.value < hi && m[r.value] == ']' && ColonAfterSpace(m, r.value + 1)
    decreases hi - lo
  {
    if hi == lo then None
    else if m[hi - 1] == ']' && ColonAfterSpace(m, hi) then Some(hi - 1)
    else LastCloseBeforeColon(m, lo, hi - 1)
  }

  /** `\s*(.*)` after the colon: group 4 runs from the first non-space to the
      end of that line. */
  function TextAfterColon(m: string, colon: nat, bracket: Option<(nat, nat)>): (t: TailSpans)
    requires colon < |m|
  {
    var q := SkipSpace(m, colon + 1);
    TailSpans(bracket, colon, q, LineEnd(m, q))
  }

  /** The tail of the pattern tried at `e`, the end of the name. A greedy
      `\s*` followed by `[` or `:` never gives anything back, so there is
      one place to look for each. */
  function TailAt(m: string, e: nat): (r: Option<TailSpans>)
    requires e <= |m|
    ensures r.Some? ==> TailMatches(m, e, r.value)
  {
    var j := SkipSpace(m, e);
    if j < |m| && m[j] == ':' then
      TextAfterColonMatches(m, e, j, None);
      Some(TextAfterColon(m, j, None))
    else if j < |m| && m[j] == '[' then BracketTailAt(m, e, j)
    else None
  }

  /** The tail when `\s*` from `e` stops at `[` at `j`: group 3 runs to the
      last `]` on the line that a colon follows after whitespace. */
  function BracketTailAt(m: string, e: nat, j: nat): (r: Option<TailSpans>)
    requires e <= j < |m| && AllSpace(m[e..j]) && m[j] == '['
    ensures r.Some? ==> TailMatches(m, e, r.value)
  {
    match LastCloseBeforeColon(m, j + 1, LineEnd(m, j + 1))
    case Some(c) =>
      ClosedBracketMatches(m, e, j, c);
      Some(TextAfterColon(m, SkipSpace(m, c + 1), Some((j, c))))
    case None => None
  }

  /** Brackets from `j` to `c` on one line, then a colon: the tail matches. */
  lemma ClosedBracketMatches(m: string, e: nat, j: nat, c: nat)
    requires e <= j < c < |m| && AllSpace(m[e..j]) && m[j] == '[' && m[c] == ']'
    requires c < LineEnd(m, j + 1) && ColonAfterSpace(m, c + 1)
    ensures TailMatches(m, e, TextAfterColon(m, SkipSpace(m, c + 1), Some((j, c))))
  {
    TextAfterColonMatches(m, e, SkipSpace(m, c + 1), Some((j, c)));
  }

  /** The tail built from a colon matches once what comes before the colon
      does. */
  lemma TextAfterColonMatches(m: string, e: nat, colon: nat, bracket: Option<(nat, nat)>)
    requires e <= colon < |m| && m[colon] == ':'
    requires match bracket
      case None => AllSpace(m[e..colon])
      case Some(b) =>
        e <= b.0 < b.1 < colon && AllSpace(m[e..b.0]) && m[b.0] == '[' && m[b.1] == ']' &&
        (forall i :: b.0 < i < b.1 ==> m[i] != '\n') && AllSpace(m[b.1 + 1..colon])
    ensures TailMatches(m, e, TextAfterColon(m, colon, bracket))
  {
  }

  /** Group 2, `([A-Z0-9\s.-]+)`, from `a`, then the tail. Shortening a
      greedy name run cannot help: the tail needs `[` or `:` after
      whitespace, and inside the run there is neither. */
  function NameThenTail(m: string, a: nat): (r: Option<(nat, TailSpans)>)
    requires a <= |m|
    ensures r.Some? ==> a < r.value.0 <= |m| && TailMatches(m, r.value.0, r.value.1)
    ensures r.Some? ==> forall i :: a <= i < r.value.0 ==> IsNameOrDigit(m[i])
  {
    var e := RunEnd(m, a, IsNameOrDigit);
    if e > a then
      match TailAt(m, e)
      case Some(t) => Some((e, t))
      case None => None
    else None
  }

  /** Group 1, the lazy `(<.*?>)`, opened at `s`: each `>` on the line is
      tried in turn, nearest first, until the rest of the pattern matches
      after it. */
  function SpeakerAfterTag(m: string, s: nat, t: nat): (r: Option<SpeakerSpans>)
    requires s < t <= |m| && m[s] == '<' && AllSpace(m[..s])
    requires forall i :: s < i < t ==> m[i] != '\n'
    ensures r.Some? ==> SpeakerMatches(m, r.value)
    decreases |m| - t
  {
    if t == |m| || m[t] == '\n' then None
    else if m[t] == '>' && NameThenTail(m, t + 1).Some? then
      var nt := NameThenTail(m, t + 1).value;
      TagThenName(m, s, t, nt.0, nt.1);
      Some(SpeakerSpans(Some(s), t + 1, nt.0, nt.1))
    else SpeakerAfterTag(m, s, t + 1)
  }

  /** A tag from `s` to `t`, then a name and a tail, is a whole match. */
  lemma TagThenName(m: string, s: nat, t: nat, e: nat, tail: TailSpans)
    requires s < t < |m| && m[s] == '<' && m[t] == '>' && AllSpace(m[..s])
    requires forall i :: s < i < t ==> m[i] != '\n'
    requires t + 1 < e <= |m| && forall i :: t + 1 <= i < e ==> IsNameOrDigit(m[i])
    requires TailMatches(m, e, tail)
    ensures SpeakerMatches(m, SpeakerSpans(Some(s), t + 1, e, tail))
  {
  }

  /** `extract_speaker_metadata` matched against the markup of a block.
      Python first lets `^\s*` take all the leading whitespace and tries
      group 1 before skipping it; giving whitespace back to `\s*` only helps
      when the name is then that single whitespace character, which happens
      when a colon or bracket follows the whitespace directly. */
  function ExtractSpeaker(m: string): (r: Option<SpeakerSpans>)
    ensures r.Some? ==> SpeakerMatches(m, r.value)
  {
    var w := SkipSpace(m, 0);
    var tagged := if w < |m| && m[w] == '<' then SpeakerAfterTag(m, w, w + 1) else None;
    if tagged.Some? then tagged
    else match NameThenTail(m, w)
      case Some(nt) => Some(SpeakerSpans(None, w, nt.0, nt.1))
      case None =>
        if w > 0 then
          match TailAt(m, w)
          case Some(t) =>
            SpaceAsName(m, w, t);
            Some(SpeakerSpans(None, w - 1, w, t))
          case None => None
        else None
  }

  /** The last character of the leading whitespace can serve as the name. */
  lemma SpaceAsName(m: string, w: nat, t: TailSpans)
    requires 0 < w <= |m| && AllSpace(m[..w]) && TailMatches(m, w, t)
    ensures SpeakerMatches(m, SpeakerSpans(None, w - 1, w, t))
  {
    assert AllSpace(m[..w - 1]) by { assert m[..w - 1] == m[..w][..w - 1]; }
    assert IsSpace(m[..w][w - 1]);
  }

  /** Group 1: the markup tag in front of the name, if any. */
  function TagGroup(m: string, g: SpeakerSpans): (r: Option<string>)
    requires SpeakerMatches(m, g)
    ensures r.Some? ==> |r.value| >= 2 && r.value[0] == '<' && r.value[|r.value| - 1] == '>'
  {
    match g.tag
    case None => None
    case Some(s) => Some(m[s..g.nameStart])
  }

  /** Group 2: the speaker's name, with the whitespace around it. */
  function NameGroup(m: string, g: SpeakerSpans): (r: string)
    requires SpeakerMatches(m, g)
    ensures r != [] && forall i :: 0 <= i < |r| ==> IsNameOrDigit(r[i])
  {
    m[g.nameStart..g.nameEnd]
  }

  /** Group 3: what stands between the brackets, if they are there. */
  function TimestampGroup(m: string, g: SpeakerSpans): (r: Option<string>)
    requires SpeakerMatches(m, g)
    ensures r.Some? ==> '\n' !in r.value
  {
    match g.tail.bracket
    case None => None
    case Some(b) =>
      Some(m[b.0 + 1..b.1])
  }

  /** Group 4: the rest of the line after the colon. */
  function TextGroup(m: string, g: SpeakerSpans): (r: string)
    requires SpeakerMatches(m, g)
    ensures '\n' !in r
  {
    m[g.tail.textStart..g.tail.textEnd]
  }

  /** The text a speaker line passes on to the converter: group 1, the tag
      in front of the name, if any, followed by group 4. */
  function SpeakerText(m: string, g: SpeakerSpans): string
    requires SpeakerMatches(m, g)
  {
    match TagGroup(m, g)
    case Some(tag) => tag + TextGroup(m, g)
    case None => TextGroup(m, g)
  }

  /** The search for a closing bracket skips a stretch without one. */
  lemma {:induction false} LastCloseSkips(m: string, lo: nat, k: nat, hi: nat)
    requires lo <= k <= hi <= |m|
    requires NoClose(m, k, hi)
    ensures LastCloseBeforeColon(m, lo, hi) == LastCloseBeforeColon(m, lo, k)
    decreases hi - k
  {
    if k < hi {
      LastCloseStep(m, lo, hi);
      LastCloseSkips(m, lo, k, hi - 1);
    }
  }

  lemma LastCloseStep(m: string, lo: nat, hi: nat)
    requires lo < hi <= |m| && m[hi - 1] != ']'
    ensures LastCloseBeforeColon(m, lo, hi) == LastCloseBeforeColon(m, lo, hi - 1)
  {
  }

  /** A line `NAME [stamp]: text`, with the name starting with a name
      character and neither the timestamp nor the text holding a `]` or a
      line break: the name group keeps the space before the bracket, the
      timestamp group is what the brackets hold, and the text group is the
      text after the colon and the space. */
  lemma TimestampedSpeaker(name: string, stamp: string, text: string)
    requires name != [] && !IsSpace(name[0]) && name[0] != '<'
    requires forall k :: 0 <= k < |name| ==> IsNameOrDigit(name[k])
    requires forall k :: 0 <= k < |stamp| ==> stamp[k] != ']' && stamp[k] != '\n'
    requires forall k :: 0 <= k < |text| ==> text[k] != ']' && text[k] != '\n'
    requires text == [] || !IsSpace(text[0])
    ensures var m := name + " [" + stamp + "]: " + text;
      var r := ExtractSpeaker(m);
      r.Some? &&
      TagGroup(m, r.value) == None &&
      NameGroup(m, r.value) == name + " " &&
      TimestampGroup(m, r.value) == Some(stamp) &&
      TextGroup(m, r.value) == text
  {
    var m := name + " [" + stamp + "]: " + text;
    var e := |name| + 1;
    var c := e + 1 + |stamp|;
    var g := SpeakerSpans(None, 0, e, TailSpans(Some((e, c)), c + 1, c + 3, |m|));
    TimestampedLayout(name, stamp, text);
    TimestampedMatch(m, e, c);
    SpansGroups(m, g);
  }

  /** Where each part of `NAME [stamp]: text` lies: the name and its space
      end at `e`, the bracket closes at `c`. */
  lemma TimestampedLayout(name: string, stamp: string, text: string)
    requires name != [] && !IsSpace(name[0]) && name[0] != '<'
    requires forall k :: 0 <= k < |name| ==> IsNameOrDigit(name[k])
    requires forall k :: 0 <= k < |stamp| ==> stamp[k] != ']' && stamp[k] != '\n'
    requires forall k :: 0 <= k < |text| ==> text[k] != ']' && text[k] != '\n'
    requires text == [] || !IsSpace(text[0])
    ensures var m := name + " [" + stamp + "]: " + text;
      var e := |name| + 1;
      var c := e + 1 + |stamp|;
      TimestampedShape(m, e, c) &&
      m[0..e] == name + " " && m[e + 1..c] == stamp && m[c + 3..|m|] == text
  {
    var m := name + " [" + stamp + "]: " + text;
    var e := |name| + 1;
    var c := e + 1 + |stamp|;
    forall k | 0 <= k < e - 1 ensures m[k] == name[k] { }
    forall k | e < k < c ensures m[k] == stamp[k - e - 1] { }
    forall k | c + 3 <= k < |m| ensures m[k] == text[k - c - 3] { }
    assert m[0..e] == name + " ";
    assert m[e + 1..c] == stamp;
    assert m[c + 3..|m|] == text;
  }

  /** The layout of `NAME [stamp]: text` by position: name characters up to
      `e`, the first of them not whitespace and not `<`, then what
      `BracketShape` says. */
  ghost predicate TimestampedShape(m: string, e: nat, c: nat) {
    BracketShape(m, e, c) &&
    !IsSpace(m[0]) && m[0] != '<' &&
    (forall k :: 0 <= k < e ==> IsNameOrDigit(m[k]))
  }

  /** From `e` on: `[` at `e`, the timestamp up to `]` at `c`, then `: ` and
      a text that starts with something other than whitespace; no `]` and
      no line break after the `[` but the one at `c`. */
  ghost predicate BracketShape(m: string, e: nat, c: nat) {
    0 < e < c && c + 3 <= |m| &&
    m[e] == '[' &&
    (forall k :: e < k < c ==> m[k] != ']' && m[k] != '\n') &&
    m[c] == ']' && m[c + 1] == ':' && m[c + 2] == ' ' &&
    (forall k :: c + 3 <= k < |m| ==> m[k] != ']' && m[k] != '\n') &&
    (c + 3 == |m| || !IsSpace(m[c + 3]))
  }

  /** The match of a line shaped as `NAME [stamp]: text`, by position. */
  lemma TimestampedMatch(m: string, e: nat, c: nat)
    requires TimestampedShape(m, e, c)
    ensures ExtractSpeaker(m) == Some(SpeakerSpans(None, 0, e, TailSpans(Some((e, c)), c + 1, c + 3, |m|)))
  {
    TimestampedTail(m, e, c);
    UntaggedName(m, e, TailSpans(Some((e, c)), c + 1, c + 3, |m|));
  }

  /** The groups of an untagged match with a timestamp, by position. */
  lemma SpansGroups(m: string, g: SpeakerSpans)
    requires SpeakerMatches(m, g)
    requires g.tag.None? && g.tail.bracket.Some?
    ensures TagGroup(m, g) == None
    ensures NameGroup(m, g) == m[g.nameStart..g.nameEnd]
    ensures TimestampGroup(m, g) == Some(m[g.tail.bracket.value.0 + 1..g.tail.bracket.value.1])
    ensures TextGroup(m, g) == m[g.tail.textStart..g.tail.textEnd]
  {
  }

  /** A line that starts with a name run followed by a tail that matches is
      matched without a tag. */
  lemma UntaggedName(m: string, e: nat, tail: TailSpans)
    requires 0 < e < |m| && !IsSpace(m[0]) && m[0] != '<'
    requires forall k :: 0 <= k < e ==> IsNameOrDigit(m[k])
    requires !IsNameOrDigit(m[e])
    requires TailAt(m, e) == Some(tail)
    ensures ExtractSpeaker(m) == Some(SpeakerSpans(None, 0, e, tail))
  {
    RunEndAt(m, 0, IsSpace, 0);
    RunEndAt(m, 0, IsNameOrDigit, e);
  }

  /** The tail of `NAME [stamp]: text` after the name. */
  lemma TimestampedTail(m: string, e: nat, c: nat)
    requires BracketShape(m, e, c)
    ensures TailAt(m, e) == Some(TailSpans(Some((e, c)), c + 1, c + 3, |m|))
  {
    RunEndAt(m, e, IsSpace, e);
    TimestampedClose(m, e, c);
    TimestampedText(m, c, Some((e, c)));
    BracketTail(m, e, c);
  }

  /** The bracket search of `NAME [stamp]: text` finds the bracket before
      the colon. */
  lemma TimestampedClose(m: string, e: nat, c: nat)
    requires BracketShape(m, e, c)
    ensures LineEnd(m, e + 1) == |m|
    ensures SkipSpace(m, c + 1) == c + 1
    ensures LastCloseBeforeColon(m, e + 1, |m|) == Some(c)
  {
    BracketLineEnd(m, e, c);
    RunEndAt(m, c + 1, IsSpace, c + 1);
    BracketNoClose(m, e, c);
    StampCloses(m, e + 1, c);
  }

  lemma BracketNoClose(m: string, e: nat, c: nat)
    requires BracketShape(m, e, c)
    ensures NoClose(m, c + 1, |m|)
  {
  }

  /** The `]` at `c`, followed by a colon and by no other `]`, is the one
      group 3 closes at. */
  lemma StampCloses(m: string, lo: nat, c: nat)
    requires lo <= c && c + 1 < |m| && m[c] == ']' && m[c + 1] == ':' && NoClose(m, c + 1, |m|)
    ensures LastCloseBeforeColon(m, lo, |m|) == Some(c)
  {
    CloseThenColon(m, lo, c);
    LastCloseSkips(m, lo, c + 1, |m|);
  }

  /** A `]` followed directly by a colon is the last one looked at below it. */
  lemma CloseThenColon(m: string, lo: nat, c: nat)
    requires lo <= c && c + 1 < |m| && m[c] == ']' && m[c + 1] == ':'
    ensures LastCloseBeforeColon(m, lo, c + 1) == Some(c)
  {
    RunEndAt(m, c + 1, IsSpace, c + 1);
  }

  lemma BracketLineEnd(m: string, e: nat, c: nat)
    requires BracketShape(m, e, c)
    ensures LineEnd(m, e + 1) == |m|
  {
    assert forall k :: e + 1 <= k < |m| ==> NotBreak(m[k]);
    RunEndAt(m, e + 1, NotBreak, |m|);
  }

  ghost predicate NoClose(m: string, lo: nat, hi: nat) {
    forall i :: lo <= i < hi <= |m| ==> m[i] != ']'
  }

  /** The text group of `NAME [stamp]: text` is the text. */
  lemma TimestampedText(m: string, c: nat, b: Option<(nat, nat)>)
    requires c + 3 <= |m| && m[c + 1] == ':' && m[c + 2] == ' '
    requires forall k :: c + 3 <= k < |m| ==> m[k] != '\n'
    requires c + 3 == |m| || !IsSpace(m[c + 3])
    ensures TextAfterColon(m, c + 1, b) == TailSpans(b, c + 1, c + 3, |m|)
  {
    RunEndAt(m, c + 2, IsSpace, c + 3);
    RunEndAt(m, c + 3, NotBreak, |m|);
  }

  /** How the tail goes when a bracket follows the name directly and the
      colon follows the closing bracket directly. */
  lemma BracketTail(m: string, e: nat, c: nat)
    requires e < c && c + 1 < |m| && SkipSpace(m, e) == e && m[e] == '['
    requires LastCloseBeforeColon(m, e + 1, LineEnd(m, e + 1)) == Some(c)
    requires SkipSpace(m, c + 1) == c + 1
    ensures TailAt(m, e).Some? && TailAt(m, e).value == TextAfterColon(m, c + 1, Some((e, c)))
  {
    TailAtBracket(m, e);
    BracketTailAtClose(m, e, c);
  }

  lemma TailAtBracket(m: string, e: nat)
    requires e < |m| && SkipSpace(m, e) == e && m[e] == '['
    ensures TailAt(m, e) == BracketTailAt(m, e, e)
  {
  }

  lemma BracketTailAtClose(m: string, e: nat, c: nat)
    requires e < c && c + 1 < |m| && m[e] == '['
    requires LastCloseBeforeColon(m, e + 1, LineEnd(m, e + 1)) == Some(c)
    ensures BracketTailAt(m, e, e).Some? && BracketTailAt(m, e, e).value == TextAfterColon(m, SkipSpace(m, c + 1), Some((e, c)))
  {
  }

  /** `JOHN SMITH [1:02]: Hello there`: the name group is `JOHN SMITH `,
      the timestamp `1:02`, and the text `Hello there`. */
  lemma SpeakerExtractionExample()
    ensures var m := "JOHN SMITH" + " [" + "1:02" + "]: " + "Hello there";
      var r := ExtractSpeaker(m);
      r.Some? &&
      TagGroup(m, r.value) == None &&
      NameGroup(m, r.value) == "JOHN SMITH " &&
      TimestampGroup(m, r.value) == Some("1:02") &&
      TextGroup(m, r.value) == "Hello there"
  {
    var name := "JOHN SMITH";
    forall k | 0 <= k < |name| ensures IsNameOrDigit(name[k]) {
      assert name[k] == ' ' || 'A' <= name[k] <= 'Z';
    }
    TimestampedSpeaker(name, "1:02", "Hello there");
  }

  // ---------------------------------------------------------------------
  // A paragraph as the document holds it: `<p>line</p>`

  /** The markup `str(tag)` of a `<p>` paragraph whose only content is the
      text `line`. */
  function Paragraph(line: string): (m: string)
    ensures |m| == |line| + 7
  {
    "<p>" + line + "</p>"
  }

  /** The speaker test passes every line `NAME [stamp]: text` whose name is
      capitals, whitespace, `.` and `-`, and whose stamp holds no `]` and no
      line break. */
  lemma TimestampedLineIsSpeaker(name: string, stamp: string, text: string)
    requires name != [] && forall k :: 0 <= k < |name| ==> IsNameChar(name[k])
    requires forall k :: 0 <= k < |stamp| ==> stamp[k] != ']' && stamp[k] != '\n'
    ensures IsSpeakerLine(name + " [" + stamp + "]: " + text)
  {
    var line := name + " [" + stamp + "]: " + text;
    var n := |name| + 1;
    var j := n + 1 + |stamp|;
    forall k | 0 <= k < n ensures IsNameChar(line[k]) {
      if k < |name| { assert line[k] == name[k]; }
    }
    assert line[n] == '[';
    RunEndAt(line, 0, IsNameChar, n);
    forall k | n + 1 <= k < j ensures line[k] != '\n' {
      assert line[k] == stamp[k - n - 1];
    }
    assert line[j] == ']' && line[j + 1] == ':';
    ClosesThenColonWitness(line, n + 1);
  }

  /** In the paragraph of `NAME [stamp]: text`, the lazy `(<.*?>)` takes the
      opening `<p>` as group 1, and group 4 runs to the end of the markup, so
      the text handed on is the text still wrapped in `<p>` and `</p>`. */
  lemma ParagraphSpeaker(name: string, stamp: string, text: string)
    requires name != [] && forall k :: 0 <= k < |name| ==> IsNameOrDigit(name[k])
    requires forall k :: 0 <= k < |stamp| ==> stamp[k] != ']' && stamp[k] != '\n'
    requires forall k :: 0 <= k < |text| ==> text[k] != ']' && text[k] != '\n'
    requires text == [] || !IsSpace(text[0])
    ensures var m := Paragraph(name + " [" + stamp + "]: " + text);
      var r := ExtractSpeaker(m);
      r.Some? &&
      TagGroup(m, r.value) == Some("<p>") &&
      NameGroup(m, r.value) == name + " " &&
      TimestampGroup(m, r.value) == Some(stamp) &&
      TextGroup(m, r.value) == text + "</p>" &&
      SpeakerText(m, r.value) == "<p>" + text + "</p>"
  {
    var m := Paragraph(name + " [" + stamp + "]: " + text);
    var e := |name| + 1;
    var c := e + 1 + |stamp|;
    var nameEnd, close := e + 3, c + 3;
    var g := SpeakerSpans(Some(0), 3, nameEnd, TailSpans(Some((nameEnd, close)), close + 1, close + 3, |m|));
    ParagraphLayout(name, stamp, text);
    ParagraphMatch(m, nameEnd, close);
    TaggedGroups(m, g);
  }

  /** Where each part of `<p>NAME [stamp]: text</p>` lies. */
  lemma ParagraphLayout(name: string, stamp: string, text: string)
    requires name != [] && forall k :: 0 <= k < |name| ==> IsNameOrDigit(name[k])
    requires forall k :: 0 <= k < |stamp| ==> stamp[k] != ']' && stamp[k] != '\n'
    requires forall k :: 0 <= k < |text| ==> text[k] != ']' && text[k] != '\n'
    requires text == [] || !IsSpace(text[0])
    ensures var m := Paragraph(name + " [" + stamp + "]: " + text);
      var e := |name| + 1;
      var c := e + 1 + |stamp|;
      ParagraphShape(m, e + 3, c + 3) &&
      m[0..3] == "<p>" && m[3..e + 3] == name + " " && m[e + 4..c + 3] == stamp &&
      m[c + 6..|m|] == text + "</p>"
  {
    var tail := text + "</p>";
    ClosedParagraphTail(text);
    var inner := name + " [" + stamp + "]: " + tail;
    var e := |name| + 1;
    var c := e + 1 + |stamp|;
    NameStampLayout(name, stamp, tail);
    assert Paragraph(name + " [" + stamp + "]: " + text) == "<p>" + inner;
    TagShift(inner, e, c);
  }

  /** The text followed by `</p>` still holds no `]` and no line break, and
      does not start with whitespace. */
  lemma ClosedParagraphTail(text: string)
    requires forall k :: 0 <= k < |text| ==> text[k] != ']' && text[k] != '\n'
    requires text == [] || !IsSpace(text[0])
    ensures var tail := text + "</p>";
      tail != [] && !IsSpace(tail[0]) && forall k :: 0 <= k < |tail| ==> tail[k] != ']' && tail[k] != '\n'
  {
    var tail := text + "</p>";
    forall k | 0 <= k < |tail| ensures tail[k] != ']' && tail[k] != '\n' {
      if k < |text| { assert tail[k] == text[k]; }
    }
    if text == [] { assert tail[0] == '<'; } else { assert tail[0] == text[0]; }
  }

  /** Where each part of `NAME [stamp]tail` lies, the first character of
      the name unconstrained. */
  lemma NameStampLayout(name: string, stamp: string, tail: string)
    requires name != [] && forall k :: 0 <= k < |name| ==> IsNameOrDigit(name[k])
    requires forall k :: 0 <= k < |stamp| ==> stamp[k] != ']' && stamp[k] != '\n'
    requires forall k :: 0 <= k < |tail| ==> tail[k] != ']' && tail[k] != '\n'
    requires tail == [] || !IsSpace(tail[0])
    ensures var m := name + " [" + stamp + "]: " + tail;
      var e := |name| + 1;
      var c := e + 1 + |stamp|;
      BracketShape(m, e, c) && (forall k :: 0 <= k < e ==> IsNameOrDigit(m[k])) &&
      m[0..e] == name + " " && m[e + 1..c] == stamp && m[c + 3..|m|] == tail
  {
    var m := name + " [" + stamp + "]: " + tail;
    var e := |name| + 1;
    var c := e + 1 + |stamp|;
    forall k | 0 <= k < e - 1 ensures m[k] == name[k] { }
    forall k | e < k < c ensures m[k] == stamp[k - e - 1] { }
    forall k | c + 3 <= k < |m| ensures m[k] == tail[k - c - 3] { }
    assert m[0..e] == name + " ";
    assert m[e + 1..c] == stamp;
    assert m[c + 3..|m|] == tail;
  }

  /** Putting `<p>` in front moves the shape three places on. */
  lemma TagShift(inner: string, e: nat, c: nat)
    requires BracketShape(inner, e, c) && forall k :: 0 <= k < e ==> IsNameOrDigit(inner[k])
    ensures ParagraphShape("<p>" + inner, e + 3, c + 3)
    ensures var m := "<p>" + inner;
      m[0..3] == "<p>" && m[3..e + 3] == inner[0..e] && m[e + 4..c + 3] == inner[e + 1..c] &&
      m[c + 6..|m|] == inner[c + 3..|inner|]
  {
    var m := "<p>" + inner;
    forall k | 3 <= k < |m| ensures m[k] == inner[k - 3] { }
    assert m[3..] == inner;
  }

  /** The layout of `<p>NAME [stamp]: text</p>` by position. */
  ghost predicate ParagraphShape(m: string, e: nat, c: nat) {
    BracketShape(m, e, c) && 3 < e &&
    m[0] == '<' && m[1] == 'p' && m[2] == '>' &&
    (forall k :: 3 <= k < e ==> IsNameOrDigit(m[k]))
  }

  /** The match of `<p>NAME [stamp]: text</p>`, by position. */
  lemma ParagraphMatch(m: string, e: nat, c: nat)
    requires ParagraphShape(m, e, c)
    ensures ExtractSpeaker(m) == Some(SpeakerSpans(Some(0), 3, e, TailSpans(Some((e, c)), c + 1, c + 3, |m|)))
  {
    TimestampedTail(m, e, c);
    TaggedName(m, e, TailSpans(Some((e, c)), c + 1, c + 3, |m|));
  }

  /** After the tag `<p>`, a name run followed by a tail that matches: the
      first `>` already lets the rest match, so the lazy group stops there. */
  lemma TaggedName(m: string, e: nat, tail: TailSpans)
    requires 3 < e < |m| && m[0] == '<' && m[1] == 'p' && m[2] == '>'
    requires forall k :: 3 <= k < e ==> IsNameOrDigit(m[k])
    requires !IsNameOrDigit(m[e])
    requires TailAt(m, e) == Some(tail)
    ensures ExtractSpeaker(m) == Some(SpeakerSpans(Some(0), 3, e, tail))
  {
    RunEndAt(m, 0, IsSpace, 0);
    NameRunThenTail(m, e, tail);
    TagClosesAtTwo(m, e, tail);
  }

  lemma NameRunThenTail(m: string, e: nat, tail: TailSpans)
    requires 3 < e < |m|
    requires forall k :: 3 <= k < e ==> IsNameOrDigit(m[k])
    requires !IsNameOrDigit(m[e])
    requires TailAt(m, e) == Some(tail)
    ensures NameThenTail(m, 3) == Some((e, tail))
  {
    RunEndAt(m, 3, IsNameOrDigit, e);
  }

  /** The tag `<p>`: its first `>` is at 2, and a name and tail from 3 make
      the lazy group stop there. */
  lemma TagClosesAtTwo(m: string, e: nat, tail: TailSpans)
    requires 3 < e < |m| && m[0] == '<' && m[1] == 'p' && m[2] == '>'
    requires NameThenTail(m, 3) == Some((e, tail))
    ensures SpeakerAfterTag(m, 0, 1) == Some(SpeakerSpans(Some(0), 3, e, tail))
  {
    assert AllSpace(m[..0]);
    assert forall i :: 0 < i < 2 ==> m[i] != '\n' by { assert m[1] == 'p'; }
    assert SpeakerAfterTag(m, 0, 2) == Some(SpeakerSpans(Some(0), 3, e, tail));
  }

  /** The groups of a tagged match with a timestamp, by position. */
  lemma TaggedGroups(m: string, g: SpeakerSpans)
    requires SpeakerMatches(m, g)
    requires g.tag.Some? && g.tail.bracket.Some?
    ensures TagGroup(m, g) == Some(m[g.tag.value..g.nameStart])
    ensures NameGroup(m, g) == m[g.nameStart..g.nameEnd]
    ensures TimestampGroup(m, g) == Some(m[g.tail.bracket.value.0 + 1..g.tail.bracket.value.1])
    ensures TextGroup(m, g) == m[g.tail.textStart..g.tail.textEnd]
    ensures SpeakerText(m, g) == m[g.tag.value..g.nameStart] + m[g.tail.textStart..g.tail.textEnd]
  {
  }

  // ---------------------------------------------------------------------
  // `extract_soundbite_metadata`: `^\s*(?:<.*?>)?\s*:\[\((.*)\)\]`

  /** Where a soundbite match lies: the optional tag `m[s..t+1]`, the
      `:[(` at `colon`, and group 1 `m[colon + 3..close]` before `)]`. */
  datatype SoundbiteSpans = SoundbiteSpans(tag: Option<(nat, nat)>, colon: nat, close: nat)

  ghost predicate SoundbiteMatches(m: string, g: SoundbiteSpans) {
    g.colon + 3 <= g.close && g.close + 2 <= |m| &&
    m[g.colon] == ':' && m[g.colon + 1] == '[' && m[g.colon + 2] == '(' &&
    m[g.close] == ')' && m[g.close + 1] == ']' &&
    (forall i :: g.colon + 3 <= i < g.close ==> m[i] != '\n') &&
    match g.tag
    case None => AllSpace(m[..g.colon])
    case Some(st) =>
      st.0 < st.1 < g.colon && AllSpace(m[..st.0]) && m[st.0] == '<' && m[st.1] == '>' &&
      (forall i :: st.0 < i < st.1 ==> m[i] != '\n') && AllSpace(m[st.1 + 1..g.colon])
  }

  /** The greedy `(.*)` before `)]`: the last `)]` in `m[lo..hi]`. */
  function LastParenClose(m: string, lo: nat, hi: nat): (r: Option<nat>)
    requires lo <= hi <= |m|
    ensures r.Some? ==> lo <= r.value < hi && r.value + 1 < |m| && m[r.value] == ')' && m[r.value + 1] == ']'
    decreases hi - lo
  {
    if hi == lo then None
    else if hi < |m| && m[hi - 1] == ')' && m[hi] == ']' then Some(hi - 1)
    else LastParenClose(m, lo, hi - 1)
  }

  /** `:\[\((.*)\)\]` at `p`; the result is where `)]` stands. */
  function SoundbiteBody(m: string, p: nat): (r: Option<nat>)
    requires p <= |m|
    ensures r.Some? ==> p + 3 <= r.value && r.value + 2 <= |m|
    ensures r.Some? ==> m[p] == ':' && m[p + 1] == '[' && m[p + 2] == '('
    ensures r.Some? ==> m[r.value] == ')' && m[r.value + 1] == ']'
    ensures r.Some? ==> forall i :: p + 3 <= i < r.value ==> m[i] != '\n'
  {
    if p + 3 <= |m| && m[p] == ':' && m[p + 1] == '[' && m[p + 2] == '(' then
      LastParenClose(m, p + 3, LineEnd(m, p + 3))
    else None
  }

  /** The lazy `(?:<.*?>)` opened at `s`, each `>` on the line tried in turn. */
  function SoundbiteAfterTag(m: string, s: nat, t: nat): (r: Option<SoundbiteSpans>)
    requires s < t <= |m| && m[s] == '<' && AllSpace(m[..s])
    requires forall i :: s < i < t ==> m[i] != '\n'
    ensures r.Some? ==> SoundbiteMatches(m, r.value)
    decreases |m| - t
  {
    if t == |m| || m[t] == '\n' then None
    else if m[t] == '>' && SoundbiteBody(m, SkipSpace(m, t + 1)).Some? then
      var p := SkipSpace(m, t + 1);
      Some(SoundbiteSpans(Some((s, t)), p, SoundbiteBody(m, p).value))
    else SoundbiteAfterTag(m, s, t + 1)
  }

  /** `extract_soundbite_metadata` matched against the markup of a block.
      Both `\s*` are followed by `<` or `:`, so neither gives anything back. */
  function ExtractSoundbite(m: string): (r: Option<SoundbiteSpans>)
    ensures r.Some? ==> SoundbiteMatches(m, r.value)
  {
    var w := SkipSpace(m, 0);
    var tagged := if w < |m| && m[w] == '<' then SoundbiteAfterTag(m, w, w + 1) else None;
    if tagged.Some? then tagged
    else
      match SoundbiteBody(m, w)
      case Some(k) => Some(SoundbiteSpans(None, w, k))
      case None => None
  }

  /** Group 1 of a soundbite match: what stands between `:[(` and `)]`. */
  function SoundbiteGroup(m: string, g: SoundbiteSpans): (r: string)
    requires SoundbiteMatches(m, g)
    ensures '\n' !in r
  {
    m[g.colon + 3..g.close]
  }

  /** In the paragraph of `:[(x)]`, the lazy `(?:<.*?>)` takes the opening
      `<p>`, and the greedy group runs to the last `)]` on the line, the one
      the line ends with: the group is `x`, whatever `x` holds but a line
      break. */
  lemma ParagraphSoundbite(x: string)
    requires forall k :: 0 <= k < |x| ==> x[k] != '\n'
    ensures var m := Paragraph(":[(" + x + ")]");
      var r := ExtractSoundbite(m);
      r.Some? && SoundbiteGroup(m, r.value) == x
  {
    var m := Paragraph(":[(" + x + ")]");
    var close := |x| + 6;
    SoundbiteParagraphLayout(x);
    SoundbiteParagraphMatch(m, close);
  }

  /** The layout of `<p>:[(x)]</p>` by position, `)]` at `close`. */
  ghost predicate SoundbiteParagraphShape(m: string, close: nat) {
    6 <= close && |m| == close + 6 &&
    m[0] == '<' && m[1] == 'p' && m[2] == '>' && m[3] == ':' && m[4] == '[' && m[5] == '(' &&
    m[close] == ')' && m[close + 1] == ']' &&
    m[close + 2] == '<' && m[close + 3] == '/' && m[close + 4] == 'p' && m[close + 5] == '>' &&
    (forall k :: 6 <= k < close ==> m[k] != '\n')
  }

  lemma SoundbiteParagraphLayout(x: string)
    requires forall k :: 0 <= k < |x| ==> x[k] != '\n'
    ensures var m := Paragraph(":[(" + x + ")]");
      SoundbiteParagraphShape(m, |x| + 6) && m[6..|x| + 6] == x
  {
    var m := Paragraph(":[(" + x + ")]");
    assert m == "<p>:[(" + x + ")]</p>";
    forall k | 6 <= k < |x| + 6 ensures m[k] == x[k - 6] { }
    assert m[6..|x| + 6] == x;
  }

  /** The match of `<p>:[(x)]</p>`, by position. */
  lemma SoundbiteParagraphMatch(m: string, close: nat)
    requires SoundbiteParagraphShape(m, close)
    ensures ExtractSoundbite(m) == Some(SoundbiteSpans(Some((0, 2)), 3, close))
  {
    RunEndAt(m, 0, IsSpace, 0);
    RunEndAt(m, 3, IsSpace, 3);
    LastParenCloseAtEnd(m, close);
    assert SoundbiteBody(m, 3) == Some(close);
    assert SoundbiteAfterTag(m, 0, 2) == Some(SoundbiteSpans(Some((0, 2)), 3, close));
    assert SoundbiteAfterTag(m, 0, 1) == SoundbiteAfterTag(m, 0, 2);
  }

  /** The line runs to the end of the markup, and the last `)]` on it is the
      one at `close`: `</p>` holds none. */
  lemma LastParenCloseAtEnd(m: string, close: nat)
    requires SoundbiteParagraphShape(m, close)
    ensures LineEnd(m, 6) == |m|
    ensures LastParenClose(m, 6, |m|) == Some(close)
  {
    assert forall k :: 6 <= k < |m| ==> NotBreak(m[k]);
    RunEndAt(m, 6, NotBreak, |m|);
    assert LastParenClose(m, 6, close + 1) == Some(close);
    assert LastParenClose(m, 6, close + 2) == LastParenClose(m, 6, close + 1);
    assert LastParenClose(m, 6, close + 3) == LastParenClose(m, 6, close + 2);
    assert LastParenClose(m, 6, close + 4) == LastParenClose(m, 6, close + 3);
    assert LastParenClose(m, 6, close + 5) == LastParenClose(m, 6, close + 4);
    assert LastParenClose(m, 6, close + 6) == LastParenClose(m, 6, close + 5);
  }

  /** A line starting `:[(` is classified as a soundbite: the name run of
      the speaker test is empty at the colon. */
  lemma SoundbiteLineClassified(x: string)
    ensures Classify(":[(" + x + ")]") == SoundbiteLine
  {
    var line := ":[(" + x + ")]";
    RunEndAt(line, 0, IsNameChar, 0);
    RunEndAt(line, 0, IsSpace, 0);
  }
}
