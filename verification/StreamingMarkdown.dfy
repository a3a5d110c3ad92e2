/**
 Streaming markdown (surfaces/webui/src/components/streamingMarkdown.ts): the renderer extends a stable prefix as
 text arrives. The incremental prefix is the one a scan from scratch would give, and no text is lost.

 Text is free of '\r', U+2028 and U+2029, so that a line ends at '\n' or at the end of the text.
 */
module StreamingMarkdown {

  const MAX_UNSTABLE_TAIL_CHARS: nat := 16 * 1024

  /** White space as the regular expressions see it. */
  predicate IsSpace(c: char) {
    c == ' ' || '\t' <= c <= '\r' || c == '\U{A0}' || c == '\U{1680}' || c == '\U{2028}' || c == '\U{2029}'
    || c == '\U{202F}' || c == '\U{205F}' || c == '\U{3000}' || c == '\U{FEFF}' || '\U{2000}' <= c <= '\U{200A}'
  }

  /** The length of the first line with its line feed. */
  function LineLength(text: string): (n: nat)
    requires text != ""
    ensures 0 < n <= |text|
  {
    if text[0] == '\n' || |text| == 1 then 1 else 1 + LineLength(text[1..])
  }

  /** The lines of a text, each with its line feed; the last may lack one. */
  function Lines(text: string): seq<string>
    decreases |text|
  {
    if text == "" then [] else [text[..LineLength(text)]] + Lines(text[LineLength(text)..])
  }

  function RunLength(text: string, c: char): (n: nat)
    ensures n <= |text|
  {
    if text != "" && text[0] == c then 1 + RunLength(text[1..], c) else 0
  }

  function Indent(line: string): (n: nat)
    ensures n <= |line|
  {
    if line != "" && IsSpace(line[0]) then 1 + Indent(line[1..]) else 0
  }

  /** The open fence: none, or its character and length. */
  datatype Fence = NoFence | Fence(mark: char, length: nat)

  /** The fence marker a line starts with: at most three white space characters, then three or more marks. */
  function Marker(line: string): Fence {
    var n := Indent(line);
    if n > 3 then NoFence
    else
      var ticks := RunLength(line[n..], '`');
      var tildes := RunLength(line[n..], '~');
      if ticks >= 3 then Fence('`', ticks) else if tildes >= 3 then Fence('~', tildes) else NoFence
  }

  function AfterLine(fence: Fence, line: string): Fence {
    var marker := Marker(line);
    if marker.NoFence? then fence
    else if fence.NoFence? then marker
    else if fence.mark == marker.mark && marker.length >= fence.length then NoFence
    else fence
  }

  /** A line of white space that ends with its line feed. */
  predicate IsBlankLine(line: string) {
    line != "" && line[|line| - 1] == '\n' && forall i :: 0 <= i < |line| ==> IsSpace(line[i])
  }

  /**
   What a scan makes of one line: the fence after it, and whether it is blank. The argument below holds for any
   classifier whose blank lines are complete; `Markdown` is the one of the source.
   */
  datatype Classifier = Classifier(after: (Fence, string) -> Fence, blank: string -> bool)

  const Markdown := Classifier((fence, line) => AfterLine(fence, line), line => IsBlankLine(line))

  /** The variables of the scan: characters read, end of the last blank line outside fences, open fence. */
  datatype ScanState = ScanState(offset: nat, lastBoundary: nat, fence: Fence)

  function ScanLine(st: ScanState, line: string, c: Classifier): ScanState {
    var fence := c.after(st.fence, line);
    var offset := st.offset + |line|;
    ScanState(offset, if fence.NoFence? && c.blank(line) then offset else st.lastBoundary, fence)
  }

  function Scan(st: ScanState, lines: seq<string>, c: Classifier): ScanState
    decreases |lines|
  {
    if lines == [] then st else Scan(ScanLine(st, lines[0], c), lines[1..], c)
  }

  const START := ScanState(0, 0, NoFence)

  /** `stableBoundary`. */
  function StableBoundary(text: string, c: Classifier): (b: nat)
    ensures b <= |text|
  {
    ScanBounds(START, Lines(text), c);
    LinesConcatenate(text);
    Scan(START, Lines(text), c).lastBoundary
  }

  // ----- Lines -----

  function Concat(parts: seq<string>): string {
    if parts == [] then "" else parts[0] + Concat(parts[1..])
  }

  lemma {:induction false} LinesConcatenate(text: string)
    ensures Concat(Lines(text)) == text
    ensures forall i :: 0 <= i < |Lines(text)| ==> Lines(text)[i] != ""
    decreases |text|
  {
    if text != "" {
      var n := LineLength(text);
      LinesConcatenate(text[n..]);
      OneMoreLine(text[..n], Lines(text[n..]));
      Rejoin(text, n);
    }
  }

  lemma OneMoreLine(line: string, lines: seq<string>)
    requires line != "" && forall i :: 0 <= i < |lines| ==> lines[i] != ""
    ensures Concat([line] + lines) == line + Concat(lines)
    ensures forall i :: 0 <= i < |[line] + lines| ==> ([line] + lines)[i] != ""
  {
    ConcatHead(line, lines);
  }

  lemma Rejoin(text: string, n: nat)
    requires n <= |text|
    ensures text[..n] + text[n..] == text
  {
  }

  lemma ConcatHead(line: string, lines: seq<string>)
    ensures Concat([line] + lines) == line + Concat(lines)
  {
    assert ([line] + lines)[1..] == lines;
  }

  /** Text that ends where a line ends. */
  predicate IsComplete(text: string) {
    text == "" || text[|text| - 1] == '\n'
  }

  lemma {:induction false} LineStays(a: string, rest: string)
    requires a != "" && IsComplete(a)
    ensures LineLength(a + rest) == LineLength(a) && IsComplete(a[LineLength(a)..])
    decreases |a|
  {
    if a[0] != '\n' {
      assert (a + rest)[1..] == a[1..] + rest;
      LineStays(a[1..], rest);
      assert a[LineLength(a)..] == a[1..][LineLength(a[1..])..];
    }
  }

  /** A complete text and what follows it have their lines separately. */
  lemma {:induction false} LinesSplit(a: string, rest: string)
    requires IsComplete(a)
    ensures Lines(a + rest) == Lines(a) + Lines(rest)
    decreases |a|
  {
    if a == "" {
      assert a + rest == rest;
    } else {
      var n := LineLength(a);
      LineStays(a, rest);
      CutsApart(a, rest, n);
      LinesSplit(a[n..], rest);
      LinesStart(a + rest);
      LinesStart(a);
      AssociatesLines([a[..n]], Lines(a[n..]), Lines(rest));
    }
  }

  lemma LinesStart(text: string)
    requires text != ""
    ensures Lines(text) == [text[..LineLength(text)]] + Lines(text[LineLength(text)..])
  {
  }

  lemma AssociatesLines(a: seq<string>, b: seq<string>, c: seq<string>)
    ensures a + (b + c) == (a + b) + c
  {
  }

  lemma CutsApart(a: string, rest: string, n: nat)
    requires n <= |a|
    ensures (a + rest)[..n] == a[..n] && (a + rest)[n..] == a[n..] + rest
  {
  }

  lemma {:induction false} ConcatAppends(a: seq<string>, b: seq<string>)
    ensures Concat(a + b) == Concat(a) + Concat(b)
    decreases |a|
  {
    if a == [] {
      assert a + b == b;
    } else {
      ConcatAppends(a[1..], b);
      assert (a + b)[1..] == a[1..] + b && (a + b)[0] == a[0];
      Associates(a[0], Concat(a[1..]), Concat(b));
    }
  }

  lemma Associates(a: string, b: string, c: string)
    ensures a + (b + c) == (a + b) + c
  {
  }

  // ----- The scan -----

  function Total(lines: seq<string>): nat {
    |Concat(lines)|
  }

  lemma {:induction false} ScanSplits(st: ScanState, a: seq<string>, b: seq<string>, c: Classifier)
    ensures Scan(st, a + b, c) == Scan(Scan(st, a, c), b, c)
    decreases |a|
  {
    if a == [] {
      assert a + b == b;
    } else {
      assert (a + b)[0] == a[0] && (a + b)[1..] == a[1..] + b;
      ScanSplits(ScanLine(st, a[0], c), a[1..], b, c);
    }
  }

  /** The boundary is an old one or past the start; the offset counts characters. */
  lemma {:induction false} ScanBounds(st: ScanState, lines: seq<string>, c: Classifier)
    ensures var end := Scan(st, lines, c);
            && end.offset == st.offset + Total(lines)
            && (end.lastBoundary == st.lastBoundary || st.offset <= end.lastBoundary <= end.offset)
    decreases |lines|
  {
    if lines != [] { ScanBounds(ScanLine(st, lines[0], c), lines[1..], c); }
  }

  /**
   Over lines that are not empty, a new boundary is strictly past the start; one at the very end has no fence open.
   */
  lemma {:induction false} ScanPasses(st: ScanState, lines: seq<string>, c: Classifier)
    requires forall i :: 0 <= i < |lines| ==> lines[i] != ""
    requires st.lastBoundary <= st.offset && (st.lastBoundary == st.offset ==> st.fence.NoFence?)
    ensures var end := Scan(st, lines, c);
            && (end.lastBoundary == st.lastBoundary || st.offset < end.lastBoundary)
            && end.lastBoundary <= end.offset
            && (end.lastBoundary == end.offset ==> end.fence.NoFence?)
    decreases |lines|
  {
    if lines != [] {
      assert forall i :: 0 <= i < |lines[1..]| ==> lines[1..][i] == lines[i + 1];
      ScanPasses(ScanLine(st, lines[0], c), lines[1..], c);
    }
  }

  /** Scanning from an offset is scanning from zero, moved. */
  lemma {:induction false} ScanShifts(st: ScanState, d: nat, lines: seq<string>, c: Classifier)
    ensures var moved := Scan(ScanState(d + st.offset, d + st.lastBoundary, st.fence), lines, c);
            var end := Scan(st, lines, c);
            moved == ScanState(d + end.offset, d + end.lastBoundary, end.fence)
    decreases |lines|
  {
    if lines != [] { ScanShifts(ScanLine(st, lines[0], c), d, lines[1..], c); }
  }

  // ----- What the boundary is -----

  /** The fence after some lines, read back to front. */
  function FenceAfter(lines: seq<string>, c: Classifier): Fence {
    if lines == [] then NoFence else c.after(FenceAfter(lines[..|lines| - 1], c), lines[|lines| - 1])
  }

  /** The `k`th line is blank and closes with no fence open. */
  predicate EndsBlock(lines: seq<string>, k: nat, c: Classifier)
    requires k <= |lines|
  {
    k > 0 && c.blank(lines[k - 1]) && FenceAfter(lines[..k], c).NoFence?
  }

  /** How many lines there are up to the last that ends a block. */
  function LastBlock(lines: seq<string>, c: Classifier): (k: nat)
    ensures k <= |lines|
  {
    if lines == [] then 0
    else if EndsBlock(lines, |lines|, c) then |lines|
    else LastBlock(lines[..|lines| - 1], c)
  }

  lemma {:induction false} LastBlockIsLast(lines: seq<string>, c: Classifier)
    ensures var k := LastBlock(lines, c); (k == 0 || EndsBlock(lines, k, c)) && forall j :: k < j <= |lines| ==>
        !EndsBlock(lines, j, c)
  {
    if lines != [] && !EndsBlock(lines, |lines|, c) {
      var init := lines[..|lines| - 1];
      LastBlockIsLast(init, c);
      forall j | 0 < j < |lines| ensures EndsBlock(lines, j, c) == EndsBlock(init, j, c) {
        assert init[..j] == lines[..j] && init[j - 1] == lines[j - 1];
      }
    }
  }

  lemma {:induction false} ScanStopsAtLastBlock(lines: seq<string>, c: Classifier)
    ensures Scan(START, lines, c) == ScanState(Total(lines), Total(lines[..LastBlock(lines, c)]), FenceAfter(lines, c))
    decreases |lines|
  {
    if lines != [] {
      var n := |lines| - 1;
      ScanStopsAtLastBlock(lines[..n], c);
      assert lines == lines[..n] + [lines[n]] && lines[..|lines|] == lines;
      ScanSplits(START, lines[..n], [lines[n]], c);
      ConcatAppends(lines[..n], [lines[n]]);
      assert Concat([lines[n]]) == lines[n];
      assert Scan(START, lines, c) == ScanLine(Scan(START, lines[..n], c), lines[n], c);
      if LastBlock(lines, c) <= n { assert lines[..n][..LastBlock(lines, c)] == lines[..LastBlock(lines, c)]; }
    }
  }

  /** `stableBoundary` is the end of the last blank line that closes with no fence open, or 0 without one. */
  lemma BoundaryIsLastBlock(text: string)
    ensures var lines := Lines(text);
            var k := LastBlock(lines, Markdown);
            && StableBoundary(text, Markdown) == Total(lines[..k])
            && (k == 0 || EndsBlock(lines, k, Markdown))
            && forall j :: k < j <= |lines| ==> !EndsBlock(lines, j, Markdown)
  {
    ScanStopsAtLastBlock(Lines(text), Markdown);
    LastBlockIsLast(Lines(text), Markdown);
  }

  // ----- Incremental equals one-shot -----

  ghost predicate BlankLinesAreComplete(c: Classifier) {
    forall line :: c.blank(line) ==> line != "" && IsComplete(line)
  }

  lemma MarkdownBlankLinesAreComplete()
    ensures BlankLinesAreComplete(Markdown)
  {
  }

  /** The boundary is where a complete line ends. */
  lemma {:induction false} BoundaryIsComplete(st: ScanState, lines: seq<string>, c: Classifier, before: string)
    requires BlankLinesAreComplete(c) && |before| == st.offset && st.lastBoundary <= st.offset
    requires IsComplete(before[..st.lastBoundary])
    ensures var b := Scan(st, lines, c).lastBoundary;
            b <= |before + Concat(lines)| && IsComplete((before + Concat(lines))[..b])
    decreases |lines|
  {
    if lines == [] {
      assert before + Concat(lines) == before;
    } else {
      var line := lines[0];
      var st' := ScanLine(st, line, c);
      Associates(before, line, Concat(lines[1..]));
      if st'.lastBoundary == st'.offset {
        assert (before + line)[..st'.offset] == before + line;
      } else {
        assert (before + line)[..st.lastBoundary] == before[..st.lastBoundary];
      }
      BoundaryIsComplete(st', lines[1..], c, before + line);
    }
  }

  lemma StableTextIsComplete(text: string, c: Classifier)
    requires BlankLinesAreComplete(c)
    ensures IsComplete(text[..StableBoundary(text, c)])
  {
    BoundaryIsComplete(START, Lines(text), c, "");
    LinesConcatenate(text);
    assert "" + Concat(Lines(text)) == text;
  }

  /** At its boundary the scan of a text, and of any extension, stands with no fence open. */
  lemma ScanAtBoundary(stable: string, rest: string, c: Classifier)
    requires IsComplete(stable) && StableBoundary(stable + rest, c) == |stable|
    ensures Scan(START, Lines(stable), c) == ScanState(|stable|, |stable|, NoFence)
  {
    var st := Scan(START, Lines(stable), c);
    LinesSplit(stable, rest);
    ScanSplits(START, Lines(stable), Lines(rest), c);
    LinesConcatenate(stable);
    LinesConcatenate(rest);
    ScanBounds(START, Lines(stable), c);
    ScanPasses(START, Lines(stable), c);
    ScanPasses(st, Lines(rest), c);
  }

  /** A scan that stands at a boundary goes on as a fresh one, shifted. */
  lemma ScanGoesOn(a: seq<string>, b: seq<string>, n: nat, c: Classifier)
    requires Scan(START, a, c) == ScanState(n, n, NoFence)
    ensures Scan(START, a + b, c).lastBoundary == n + Scan(START, b, c).lastBoundary
  {
    ScanSplits(START, a, b, c);
    ScanShifts(START, n, b, c);
  }

  lemma ScanResumes(stable: string, tail: string, c: Classifier)
    requires IsComplete(stable) && Scan(START, Lines(stable), c) == ScanState(|stable|, |stable|, NoFence)
    ensures StableBoundary(stable + tail, c) == |stable| + StableBoundary(tail, c)
  {
    LinesSplit(stable, tail);
    ScanGoesOn(Lines(stable), Lines(tail), |stable|, c);
  }

  lemma HeadIs(a: string, b: string)
    ensures (a + b)[..|a|] == a
  {
  }

  /** Scanning only what follows the old boundary finds the boundary of the extended text. */
  lemma StableBoundaryResumes(stable: string, rest: string, more: string, c: Classifier)
    requires BlankLinesAreComplete(c) && StableBoundary(stable + rest, c) == |stable|
    ensures StableBoundary(stable + (rest + more), c) == |stable| + StableBoundary(rest + more, c)
  {
    StableTextIsComplete(stable + rest, c);
    HeadIs(stable, rest);
    ScanAtBoundary(stable, rest, c);
    ScanResumes(stable, rest + more, c);
  }

  /** The stable prefix after a streaming render, from the previous source and stable prefix. */
  function NextStable(source: string, stable: string, content: string, lines: Classifier): string {
    if source <= content && stable <= content then
      stable + content[|stable|..][..StableBoundary(content[|stable|..], lines)]
    else content[..StableBoundary(content, lines)]
  }

  /**
   The stable prefix after a sequence of renders, each of which takes source, prefix and content to the next prefix.
   */
  function StableAfter(source: string, stable: string, renders: seq<string>,
      next: (string, string, string) -> string): string
    decreases |renders|
  {
    if renders == [] then stable else StableAfter(renders[0], next(source, stable, renders[0]), renders[1..], next)
  }

  lemma Splice(content: string, b: nat, c: nat)
    requires b + c <= |content|
    ensures content[..b] + content[b..][..c] == content[..b + c]
  {
  }

  /** Rendering on from the one-shot prefix of the old text gives the one-shot prefix of the new text. */
  lemma NextStableIsOneShot(source: string, content: string, lines: Classifier)
    requires BlankLinesAreComplete(lines)
    ensures NextStable(source, source[..StableBoundary(source, lines)], content, lines)
         == content[..StableBoundary(content, lines)]
  {
    if source <= content {
      var b := StableBoundary(source, lines);
      BoundaryOfExtension(source, content, lines);
      Splice(content, b, StableBoundary(content[b..], lines));
    }
  }

  lemma BoundaryOfExtension(source: string, content: string, lines: Classifier)
    requires BlankLinesAreComplete(lines) && source <= content
    ensures var b := StableBoundary(source, lines);
            source[..b] == content[..b] && StableBoundary(content, lines) == b + StableBoundary(content[b..], lines)
  {
    var b := StableBoundary(source, lines);
    assert source[..b] + source[b..] == source;
    assert content[b..] == source[b..] + content[|source|..];
    assert source[..b] + content[b..] == content;
    StableBoundaryResumes(source[..b], source[b..], content[|source|..], lines);
  }

  /** A form of the prefix that every single render keeps is kept by every sequence of renders. */
  lemma {:induction false} RendersKeep(source: string, renders: seq<string>, next: (string, string, string) -> string,
                                       prefix: string -> string)
    requires forall s, t {:trigger next(s, prefix(s), t)} :: next(s, prefix(s), t) == prefix(t)
    ensures StableAfter(source, prefix(source), renders, next) == prefix(if renders == [] then source
        else renders[|renders| - 1])
    decreases |renders|
  {
    if renders != [] { RendersKeep(renders[0], renders[1..], next, prefix); }
  }

  /** Incremental equals one-shot, for every sequence of streaming renders since a reset, append-only or not. */
  lemma IncrementalEqualsOneShot(renders: seq<string>)
    requires renders != []
    ensures var last := renders[|renders| - 1];
            StableAfter("", "", renders, (source, stable, content) => NextStable(source, stable, content, Markdown))
            == last[..StableBoundary(last, Markdown)]
  {
    var prefix := (text: string) => text[..StableBoundary(text, Markdown)];
    var next := (source, stable, content) => NextStable(source, stable, content, Markdown);
    MarkdownBlankLinesAreComplete();
    forall s, t ensures next(s, prefix(s), t) == prefix(t) { NextStableIsOneShot(s, t, Markdown); }
    RendersKeep("", renders, next, prefix);
  }

  // ----- Blocks -----

  /** The end of the last line feed within the white space that starts `text`; 0 if there is none. */
  function LastFeedInSpace(text: string): (n: nat)
    ensures n <= |text|
  {
    if text == "" || !IsSpace(text[0]) then 0
    else
      var rest := LastFeedInSpace(text[1..]);
      if rest > 0 then 1 + rest else if text[0] == '\n' then 1 else 0
  }

  /** The length of the first block: up to a line feed, white space and line feed, or everything. */
  function BlockLength(text: string): (n: nat)
    requires text != ""
    ensures 0 < n <= |text|
  {
    if text[0] == '\n' && LastFeedInSpace(text[1..]) > 0 then 1 + LastFeedInSpace(text[1..])
    else if |text| == 1 then 1
    else 1 + BlockLength(text[1..])
  }

  function SplitStableBlocks(text: string): (blocks: seq<string>)
    ensures forall i :: 0 <= i < |blocks| ==> blocks[i] != ""
    decreases |text|
  {
    if text == "" then [] else [text[..BlockLength(text)]] + SplitStableBlocks(text[BlockLength(text)..])
  }

  lemma {:induction false} BlocksConcatenate(text: string)
    ensures Concat(SplitStableBlocks(text)) == text
    decreases |text|
  {
    if text != "" { BlocksConcatenate(text[BlockLength(text)..]); }
  }

  // ----- The renderer -----

  /** A rendered block, identified by the text it was rendered from. */
  datatype Html = Html(text: string)

  function Texts(html: seq<Html>): seq<string> {
    seq(|html|, i requires 0 <= i < |html| => html[i].text)
  }

  /** `stable` holds the rendered blocks a render shows; a canonical render shows the whole text as one block. */
  datatype RenderResult = RenderResult(stable: seq<Html>, visibleTail: string, hiddenTailChars: nat,
                                       stableBlockCount: nat, canonical: bool)

  /** The fence after a line, updated in place as the loop of the source does. */
  method NextFence(fence: Fence, line: string, ghost lines: Classifier) returns (fence': Fence)
    requires lines == Markdown
    ensures fence' == lines.after(fence, line)
  {
    fence' := fence;
    var marker := Marker(line);
    if marker.Fence? {
      if fence.NoFence? {
        fence' := marker;
      } else if fence.mark == marker.mark && marker.length >= fence.length {
        fence' := NoFence;
      }
    }
  }

  /** The loop of `stableBoundary`. */
  method FindStableBoundary(value: string, ghost lines: Classifier) returns (lastBoundary: nat)
    requires lines == Markdown
    ensures lastBoundary == StableBoundary(value, lines)
  {
    var offset: nat := 0;
    lastBoundary := 0;
    var fence := NoFence;
    var all := Lines(value);
    for i := 0 to |all|
      invariant Scan(ScanState(offset, lastBoundary, fence), all[i..], lines) == Scan(START, all, lines)
    {
      fence := NextFence(fence, all[i], lines);
      offset := offset + |all[i]|;
      if fence.NoFence? && IsBlankLine(all[i]) {
        lastBoundary := offset;
      }
    }
  }

  /** `tail.slice(-MAX_UNSTABLE_TAIL_CHARS)`. */
  function VisibleTail(tail: string): string {
    if |tail| <= MAX_UNSTABLE_TAIL_CHARS then tail else tail[|tail| - MAX_UNSTABLE_TAIL_CHARS..]
  }

  lemma TailAddsUp(content: string, stable: string)
    requires stable <= content
    ensures var tail := content[|stable|..]; var hidden := |tail| - |VisibleTail(tail)|;
            stable + content[|stable|..|stable| + hidden] + VisibleTail(tail) == content
  {
    var hidden := |content[|stable|..]| - |VisibleTail(content[|stable|..])|;
    assert VisibleTail(content[|stable|..]) == content[|stable| + hidden..];
  }

  /** The stable prefix is part of the source, so the second test of the reset adds nothing. */
  lemma StablePrefixStarts(source: string, origin: nat, content: string, lines: Classifier)
    requires origin <= |source|
    ensures source <= content ==> source[..origin + StableBoundary(source[origin..], lines)] <= content
  {
  }

  /**
   The stable prefix is the canonical part plus the one-shot boundary of the text after it, and the blocks rendered
   since then are exactly its text.
   */
  ghost predicate Consistent(lines: Classifier, origin: nat, source: string, stable: string, html: seq<Html>) {
    && BlankLinesAreComplete(lines) && origin <= |source|
    && stable == source[..origin + StableBoundary(source[origin..], lines)]
    && Concat(Texts(html)) == stable[origin..]
  }

  /** The new stable prefix is again the one-shot one. */
  lemma StableAdvances(lines: Classifier, origin: nat, source: string, stable: string, content: string, rest: string)
    requires BlankLinesAreComplete(lines) && origin <= |source| && source <= content
    requires |stable| == origin + StableBoundary(source[origin..], lines) && stable <= content &&
        rest == content[|stable|..]
    ensures origin + StableBoundary(content[origin..], lines) == |stable| + StableBoundary(rest, lines)
  {
    BoundaryOfExtension(source[origin..], content[origin..], lines);
    assert content[origin..][StableBoundary(source[origin..], lines)..] == rest;
  }

  lemma DropSplits(a: string, b: string, n: nat)
    requires n <= |a|
    ensures (a + b)[n..] == a[n..] + b
  {
  }

  lemma ConsistentAdvances(lines: Classifier, origin: nat, source: string, stable: string, html: seq<Html>,
                           content: string, added: string, more: seq<Html>)
    requires Consistent(lines, origin, source, stable, html) && source <= content && stable <= content
    requires added == content[|stable|..][..StableBoundary(content[|stable|..], lines)] && Concat(Texts(more)) == added
    ensures Consistent(lines, origin, content, stable + added, html + more)
    ensures stable + added == NextStable(source, stable, content, lines) && stable + added <= content
  {
    StableAdvances(lines, origin, source, stable, content, content[|stable|..]);
    Splice(content, |stable|, |added|);
    TextsAppend(html, more);
    DropSplits(stable, added, origin);
  }

  lemma NothingAdded(stable: string, html: seq<Html>)
    ensures stable + "" == stable && html + [] == html
  {
  }

  lemma TextsAppend(a: seq<Html>, b: seq<Html>)
    ensures Concat(Texts(a + b)) == Concat(Texts(a)) + Concat(Texts(b))
  {
    ConcatAppends(Texts(a), Texts(b));
    assert Texts(a + b) == Texts(a) + Texts(b);
  }

  /** Renders the blocks of newly stable text one by one. */
  method RenderBlocks(stable: string) returns (html: seq<Html>)
    ensures Texts(html) == SplitStableBlocks(stable)
    ensures Concat(Texts(html)) == stable
  {
    var blocks := SplitStableBlocks(stable);
    html := [];
    for i := 0 to |blocks|
      invariant Texts(html) == blocks[..i]
    {
      html := html + [Html(blocks[i])];
    }
    BlocksConcatenate(stable);
  }

  class StreamingMarkdownRenderer {
    ghost const lines: Classifier  // `Markdown`; the proofs use no more of it than that its blank lines are complete
    var source: string
    var stableSource: string
    var stableHtml: seq<Html>
    var parseCountValue: nat
    ghost var origin: nat  // the length of the last canonical render since the reset, 0 if there was none

    ghost predicate Valid()
      reads this
    {
      lines == Markdown && Consistent(lines, origin, source, stableSource, stableHtml)
    }

    constructor ()
      ensures Valid() && origin == 0 && source == "" && stableHtml == []
    {
      MarkdownBlankLinesAreComplete();
      lines := Markdown;
      source, stableSource, stableHtml, parseCountValue, origin := "", "", [], 0, 0;
    }

    method Reset()
      requires Valid()
      modifies this
      ensures Valid() && origin == 0 && source == "" && stableHtml == [] && parseCountValue == 0
    {
      source, stableSource, stableHtml, parseCountValue, origin := "", "", [], 0, 0;
    }

    /** One `render` call that is not streaming. */
    method RenderCanonical(content: string) returns (r: RenderResult)
      requires Valid()
      modifies this
      ensures Valid() && source == content && origin == |content| && stableHtml == []
      ensures parseCountValue == old(parseCountValue) + 1
      ensures r == RenderResult([Html(content)], "", 0, 0, true)
    {
      source, stableSource, stableHtml := content, content, [];
      parseCountValue := parseCountValue + 1;
      origin := |content|;
      assert source[origin..] == "";
      r := RenderResult([Html(content)], "", 0, 0, true);
    }

    /**
     One streaming `render` call. Without an earlier canonical render the stable prefix is the one-shot boundary of the
     whole text, whatever came before; stable prefix, hidden tail and visible tail make up the text.
     */
    method RenderStreaming(content: string) returns (r: RenderResult)
      requires Valid()
      modifies this
      ensures Valid() && source == content
      ensures origin == if old(source) <= content then old(origin) else 0
      ensures old(source) <= content ==> old(stableHtml) <= stableHtml && old(stableSource) <= stableSource
      ensures origin == 0 ==>
                stableSource == content[..StableBoundary(content, lines)] && Concat(Texts(r.stable)) == stableSource
      ensures stableSource == NextStable(old(source), old(stableSource), content, lines)
      ensures parseCountValue - |stableHtml|
           == if old(source) <= content then old(parseCountValue - |stableHtml|) else 0
      ensures r.stable == stableHtml && r.stableBlockCount == |stableHtml| && !r.canonical
      ensures |stableSource| + r.hiddenTailChars <= |content|
      ensures stableSource + content[|stableSource|..|stableSource| + r.hiddenTailChars] + r.visibleTail == content
      ensures |r.visibleTail| <= MAX_UNSTABLE_TAIL_CHARS
      ensures r.hiddenTailChars > 0 ==> |r.visibleTail| == MAX_UNSTABLE_TAIL_CHARS
    {
      if !(source <= content) || !(stableSource <= content) {
        StablePrefixStarts(source, origin, content, lines);
        Reset();
      }
      Advance(content);
      TailAddsUp(content, stableSource);
      r := RenderResult(stableHtml, VisibleTail(content[|stableSource|..]),
                        |content[|stableSource|..]| - |VisibleTail(content[|stableSource|..])|, |stableHtml|, false);
    }

    /** Renders the blocks between the stable prefix and the last boundary of the text after it. */
    method RenderPending(pending: string) returns (added: string, html: seq<Html>)
      requires lines == Markdown
      ensures added == pending[..StableBoundary(pending, lines)] && Concat(Texts(html)) == added
      ensures added == "" ==> html == []
    {
      var boundary := FindStableBoundary(pending, lines);
      added := pending[..boundary];
      html := [];
      if boundary > 0 {
        html := RenderBlocks(added);
      }
    }

    /** Takes the new text in and moves the stable prefix up to the last boundary. */
    method Advance(content: string)
      requires Valid() && source <= content
      modifies this`source, this`stableSource, this`stableHtml, this`parseCountValue
      ensures Valid() && source == content
      ensures old(stableHtml) <= stableHtml && old(stableSource) <= stableSource <= content
      ensures stableSource == NextStable(old(source), old(stableSource), content, lines)
      ensures parseCountValue - |stableHtml| == old(parseCountValue - |stableHtml|)
    {
      StablePrefixStarts(source, origin, content, lines);
      var added, html := RenderPending(content[|stableSource|..]);
      ConsistentAdvances(lines, origin, source, stableSource, stableHtml, content, added, html);
      NothingAdded(stableSource, stableHtml);
      source := content;
      if added != "" {
        stableHtml := stableHtml + html;
        parseCountValue := parseCountValue + |html|;
        stableSource := stableSource + added;
      }
    }
  }
}
