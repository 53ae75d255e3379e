/** Character classes and the few `str` methods of Python the parser relies on,
    over ASCII: `isspace`, `strip`, `lower`, `startswith` and `replace`. */
module Strings {

  /** The ASCII characters for which Python's `str.isspace()` holds; the same
      set is matched by `\s` in a regular expression over `str`. */
  predicate IsSpace(c: char) {
    c == ' ' || ('\t' <= c <= '\r') || ('\U{1C}' <= c <= '\U{1F}')
  }

  predicate AllSpace(s: string) {
    forall i :: 0 <= i < |s| ==> IsSpace(s[i])
  }

  predicate IsUpper(c: char) {
    'A' <= c <= 'Z'
  }

  /** Python's `str.lower()` restricted to ASCII letters. */
  function ToLower(c: char): (r: char)
    ensures !IsUpper(r)
    ensures IsSpace(r) <==> IsSpace(c)
    ensures !IsUpper(c) ==> r == c
  {
    if IsUpper(c) then (c as int + 32) as char else c
  }

  function Lower(s: string): (r: string)
    ensures |r| == |s|
    ensures forall i :: 0 <= i < |s| ==> r[i] == ToLower(s[i])
  {
    if s == [] then [] else [ToLower(s[0])] + Lower(s[1..])
  }

  /** `s.lstrip()`: drops the leading whitespace. */
  function LStrip(s: string): string {
    if s != [] && IsSpace(s[0]) then LStrip(s[1..]) else s
  }

  /** `lstrip` removes a whitespace prefix, and no more than the whole of it. */
  lemma {:induction false} LStripFacts(s: string)
    ensures var r := LStrip(s); |r| <= |s| && r == s[|s| - |r|..]
    ensures var r := LStrip(s); AllSpace(s[..|s| - |r|])
    ensures var r := LStrip(s); r == [] || !IsSpace(r[0])
  {
    if s != [] && IsSpace(s[0]) {
      LStripFacts(s[1..]);
      var r := LStrip(s);
      assert s[..|s| - |r|] == [s[0]] + s[1..][..|s| - 1 - |r|];
    }
  }

  /** `s.rstrip()`: drops the trailing whitespace. */
  function RStrip(s: string): string {
    if s != [] && IsSpace(s[|s| - 1]) then RStrip(s[..|s| - 1]) else s
  }

  /** `rstrip` removes a whitespace suffix, and no more than the whole of it. */
  lemma {:induction false} RStripFacts(s: string)
    ensures var r := RStrip(s); |r| <= |s| && r == s[..|r|]
    ensures var r := RStrip(s); AllSpace(s[|r|..])
    ensures var r := RStrip(s); r == [] || !IsSpace(r[|r| - 1])
  {
    if s != [] && IsSpace(s[|s| - 1]) {
      var s' := s[..|s| - 1];
      RStripFacts(s');
      var r := RStrip(s);
      assert s[|r|..] == s'[|r|..] + [s[|s| - 1]];
    }
  }

  /** `s.strip()`. */
  function Strip(s: string): string {
    RStrip(LStrip(s))
  }

  /** Whatever surrounds it, the text between a run of whitespace on each side
      is what `strip` returns, provided it neither begins nor ends with
      whitespace. */
  lemma {:induction false} StripPadded(lead: string, core: string, trail: string)
    requires AllSpace(lead) && AllSpace(trail)
    requires core == [] || (!IsSpace(core[0]) && !IsSpace(core[|core| - 1]))
    ensures Strip(lead + core + trail) == core
  {
    if core == [] {
      assert lead + core + trail == lead + trail;
      LStripAllSpace(lead + trail);
    } else {
      assert lead + core + trail == lead + (core + trail);
      LStripPadded(lead, core + trail);
      RStripPadded(core, trail);
    }
  }

  lemma {:induction false} LStripPadded(lead: string, rest: string)
    requires AllSpace(lead)
    requires rest == [] || !IsSpace(rest[0])
    ensures LStrip(lead + rest) == rest
  {
    if lead != [] {
      assert (lead + rest)[1..] == lead[1..] + rest;
      LStripPadded(lead[1..], rest);
    } else {
      assert lead + rest == rest;
    }
  }

  lemma {:induction false} RStripPadded(core: string, trail: string)
    requires core != [] && !IsSpace(core[|core| - 1])
    requires AllSpace(trail)
    ensures RStrip(core + trail) == core
  {
    if trail != [] {
      var t' := trail[..|trail| - 1];
      assert (core + trail)[..|core + trail| - 1] == core + t';
      RStripPadded(core, t');
    } else {
      assert core + trail == core;
    }
  }

  lemma {:induction false} LStripAllSpace(s: string)
    requires AllSpace(s)
    ensures LStrip(s) == []
  {
    if s != [] {
      LStripAllSpace(s[1..]);
    }
  }

  /** `strip` takes off exactly a whitespace prefix and a whitespace suffix,
      and what it leaves neither begins nor ends with whitespace. */
  lemma StripShape(s: string)
    ensures var r := Strip(s);
      exists i :: 0 <= i <= |s| - |r| && s[i..i + |r|] == r && AllSpace(s[..i]) && AllSpace(s[i + |r|..])
    ensures var r := Strip(s); r == [] || (!IsSpace(r[0]) && !IsSpace(r[|r| - 1]))
  {
    var l := LStrip(s);
    var r := RStrip(l);
    LStripFacts(s);
    RStripFacts(l);
    var i := |s| - |l|;
    assert s[i..i + |r|] == l[..|r|] == r;
    assert s[i + |r|..] == l[|r|..];
    assert 0 <= i <= |s| - |r| && AllSpace(s[..i]) && AllSpace(s[i + |r|..]);
  }

  /** A text that neither begins nor ends with whitespace survives `strip`
      with a space after it. */
  lemma StripOneTrailingSpace(s: string)
    requires s != [] && !IsSpace(s[0]) && !IsSpace(s[|s| - 1])
    ensures Strip(s + " ") == s
  {
    assert [] + s + " " == s + " ";
    StripPadded([], s, " ");
  }

  /** Stripping twice is stripping once: a trimmed value reads back unchanged. */
  lemma StripIdempotent(s: string)
    ensures Strip(Strip(s)) == Strip(s)
  {
    StripShape(s);
    var r := Strip(s);
    StripPadded([], r, []);
    assert [] + r + [] == r;
  }

  /** Lower-casing after stripping leaves nothing to strip. */
  lemma LowerStripped(s: string)
    ensures Strip(Lower(Strip(s))) == Lower(Strip(s))
  {
    StripShape(s);
    var r := Lower(Strip(s));
    StripPadded([], r, []);
    assert [] + r + [] == r;
  }

  predicate StartsWith(s: string, prefix: string) {
    |prefix| <= |s| && s[..|prefix|] == prefix
  }

  /** Python's `s.replace(pat, repl, 1)`: the leftmost occurrence of `pat` is
      replaced, the rest is left alone. */
  function ReplaceFirst(s: string, pat: string, repl: string): (r: string)
    requires pat != []
    decreases |s|
  {
    if |s| < |pat| then s
    else if s[..|pat|] == pat then repl + s[|pat|..]
    else [s[0]] + ReplaceFirst(s[1..], pat, repl)
  }

  /** Python's `s.replace(pat, repl)`: every occurrence of `pat`, scanned from
      the left without overlap, is replaced by `repl`. */
  function ReplaceAll(s: string, pat: string, repl: string): (r: string)
    requires pat != []
    decreases |s|
  {
    if |s| < |pat| then s
    else if s[..|pat|] == pat then repl + ReplaceAll(s[|pat|..], pat, repl)
    else [s[0]] + ReplaceAll(s[1..], pat, repl)
  }

  /** Replacing a single character `c` is rewriting each character on its own:
      a `c` becomes `repl`, every other character stays. */
  lemma {:induction false} ReplaceAllChar(s: string, c: char, repl: string)
    ensures s != [] ==> ReplaceAll(s, [c], repl) == (if s[0] == c then repl else [s[0]]) + ReplaceAll(s[1..], [c], repl)
    ensures s == [] ==> ReplaceAll(s, [c], repl) == []
  {
    if s != [] {
      assert s[..1] == [s[0]];
    }
  }

  function Count(s: string, c: char): (n: nat)
    ensures n <= |s|
  {
    if s == [] then 0 else (if s[0] == c then 1 else 0) + Count(s[1..], c)
  }

  /** Python's `''.join(parts)`. */
  function Join(parts: seq<string>): (r: string)
    ensures parts == [] ==> r == []
  {
    if parts == [] then [] else parts[0] + Join(parts[1..])
  }
}
