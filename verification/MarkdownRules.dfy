/**
 What an open code fence is and where markdown is stable, said by the lines alone: markers, openers and closers
 (surfaces/webui/src/components/streamingMarkdown.ts, `stableBoundary`).
 */
module MarkdownRules {
  import opened StreamingMarkdown

  // ----- Lines -----

  /** A line has its line feed at its end or not at all; only the last may lack it. */
  lemma {:induction false} LinesAreLines(text: string)
    ensures forall i, p :: 0 <= i < |Lines(text)| && 0 <= p < |Lines(text)[i]| - 1 ==> Lines(text)[i][p] != '\n'
    ensures forall i :: 0 <= i < |Lines(text)| - 1 ==> IsComplete(Lines(text)[i]) && Lines(text)[i] != ""
    decreases |text|
  {
    if text != "" {
      var n := LineLength(text);
      FirstLineIsALine(text);
      LinesAreLines(text[n..]);
      LinesStart(text);
    }
  }

  lemma {:induction false} FirstLineIsALine(text: string)
    requires text != ""
    ensures forall p :: 0 <= p < LineLength(text) - 1 ==> text[p] != '\n'
    ensures LineLength(text) < |text| ==> text[LineLength(text) - 1] == '\n'
  {
    if text[0] != '\n' && |text| > 1 { FirstLineIsALine(text[1..]); }
  }

  // ----- Markers -----

  /** The line starts with at most three white space characters and then exactly `n` marks, at least three. */
  ghost predicate HasMarker(line: string, mark: char, n: nat) {
    (mark == '`' || mark == '~') && n >= 3 && exists k :: 0 <= k <= 3 && MarksAt(line, k, mark, n)
  }

  predicate MarksAt(line: string, k: nat, mark: char, n: nat) {
    && k + n <= |line|
    && (forall i :: 0 <= i < k ==> IsSpace(line[i]))
    && (forall i :: k <= i < k + n ==> line[i] == mark)
    && (k + n < |line| ==> line[k + n] != mark)
  }

  lemma {:induction false} IndentIsMaximal(line: string)
    ensures forall i :: 0 <= i < Indent(line) ==> IsSpace(line[i])
    ensures Indent(line) < |line| ==> !IsSpace(line[Indent(line)])
  {
    if line != "" && IsSpace(line[0]) { IndentIsMaximal(line[1..]); }
  }

  lemma {:induction false} RunIsMaximal(text: string, c: char)
    ensures forall i :: 0 <= i < RunLength(text, c) ==> text[i] == c
    ensures RunLength(text, c) < |text| ==> text[RunLength(text, c)] != c
  {
    if text != "" && text[0] == c { RunIsMaximal(text[1..], c); }
  }

  lemma MarksStartAfterIndent(line: string, k: nat, mark: char, n: nat)
    requires MarksAt(line, k, mark, n) && n > 0 && !IsSpace(mark)
    ensures k == Indent(line) && n == RunLength(line[k..], mark)
  {
    IndentIsMaximal(line);
    assert line[k] == mark;
    RunIsMaximal(line[k..], mark);
  }

  /** The marker the scan finds is the one the line has. */
  lemma MarkerIff(line: string, mark: char, n: nat)
    ensures Marker(line) == Fence(mark, n) <==> HasMarker(line, mark, n)
  {
    var k := Indent(line);
    IndentIsMaximal(line);
    RunIsMaximal(line[k..], '`');
    RunIsMaximal(line[k..], '~');
    if Marker(line) == Fence(mark, n) {
      assert MarksAt(line, k, mark, n);
    }
    if HasMarker(line, mark, n) {
      var j :| 0 <= j <= 3 && MarksAt(line, j, mark, n);
      MarksStartAfterIndent(line, j, mark, n);
      OtherMark(line, j, mark);
    }
  }

  lemma OtherMark(line: string, k: nat, mark: char)
    requires k < |line| && line[k] == mark && (mark == '`' || mark == '~')
    ensures RunLength(line[k..], if mark == '`' then '~' else '`') == 0
  {
  }

  // ----- Open fences -----

  /** The line carries a marker of the same mark, at least as long. */
  ghost predicate Closes(line: string, mark: char, n: nat) {
    exists m :: m >= n && HasMarker(line, mark, m)
  }

  /**
   After these lines a fence is open: some line opens it, with no fence open before, and no later line closes it.
   */
  ghost predicate FenceIsOpen(lines: seq<string>, mark: char, n: nat)
    decreases |lines|
  {
    exists i :: 0 <= i < |lines| && HasMarker(lines[i], mark, n)
                && (forall m: char, q: nat :: !FenceIsOpen(lines[..i], m, q))
                && forall j :: i < j < |lines| ==> !Closes(lines[j], mark, n)
  }

  ghost predicate NoFenceIsOpen(lines: seq<string>) {
    forall m: char, q: nat :: !FenceIsOpen(lines, m, q)
  }

  ghost predicate Opens(lines: seq<string>, i: nat, mark: char, n: nat)
    requires i < |lines|
  {
    HasMarker(lines[i], mark, n) && NoFenceIsOpen(lines[..i])
  }

  ghost predicate StaysOpen(lines: seq<string>, i: nat, mark: char, n: nat)
    requires i < |lines|
  {
    Opens(lines, i, mark, n) && forall j :: i < j < |lines| ==> !Closes(lines[j], mark, n)
  }

  lemma OpenIff(lines: seq<string>, mark: char, n: nat)
    ensures FenceIsOpen(lines, mark, n) <==> exists i :: 0 <= i < |lines| && StaysOpen(lines, i, mark, n)
  {
    if FenceIsOpen(lines, mark, n) {
      var i :| 0 <= i < |lines| && HasMarker(lines[i], mark, n)
               && (forall m: char, q: nat :: !FenceIsOpen(lines[..i], m, q))
               && forall j :: i < j < |lines| ==> !Closes(lines[j], mark, n);
      assert StaysOpen(lines, i, mark, n);
    }
    if i :| 0 <= i < |lines| && StaysOpen(lines, i, mark, n) {
      assert HasMarker(lines[i], mark, n) && NoFenceIsOpen(lines[..i]);
    }
  }

  lemma OpensInPart(lines: seq<string>, k: nat, i: nat, mark: char, n: nat)
    requires i < k <= |lines|
    ensures Opens(lines[..k], i, mark, n) <==> Opens(lines, i, mark, n)
  {
    assert lines[..k][..i] == lines[..i];
  }

  /** What one more line does to an open fence. */
  lemma OpenAfterOneMore(init: seq<string>, last: string, mark: char, n: nat)
    ensures FenceIsOpen(init + [last], mark, n)
       <==> (FenceIsOpen(init, mark, n) && !Closes(last, mark, n))
            || (NoFenceIsOpen(init) && HasMarker(last, mark, n))
  {
    var lines := init + [last];
    assert lines[..|init|] == init && lines[|init|] == last;
    assert forall j :: 0 <= j < |init| ==> lines[j] == init[j];
    assert StaysOpen(lines, |init|, mark, n) <==> HasMarker(last, mark, n) && NoFenceIsOpen(init);
    forall i | 0 <= i < |init|
      ensures StaysOpen(lines, i, mark, n) <==> StaysOpen(init, i, mark, n) && !Closes(last, mark, n)
    {
      OpensInPart(lines, |init|, i, mark, n);
    }
    OpenIff(lines, mark, n);
    OpenIff(init, mark, n);
  }

  lemma ClosesIff(line: string, mark: char, n: nat)
    ensures Closes(line, mark, n)
       <==> Marker(line).Fence? && Marker(line).mark == mark && Marker(line).length >= n
  {
    forall m: nat ensures Marker(line) == Fence(mark, m) <==> HasMarker(line, mark, m) { MarkerIff(line, mark, m); }
    if Marker(line).Fence? && Marker(line).mark == mark && Marker(line).length >= n {
      assert HasMarker(line, mark, Marker(line).length);
    }
  }

  lemma AfterLineIff(fence: Fence, line: string, mark: char, n: nat)
    ensures AfterLine(fence, line) == Fence(mark, n)
       <==> (fence == Fence(mark, n) && !Closes(line, mark, n)) || (fence.NoFence? && HasMarker(line, mark, n))
  {
    MarkerIff(line, mark, n);
    ClosesIff(line, mark, n);
  }

  /** The scan holds a fence exactly when these lines leave it open. */
  lemma {:induction false} FenceAfterIff(lines: seq<string>, mark: char, n: nat)
    ensures FenceAfter(lines, Markdown) == Fence(mark, n) <==> FenceIsOpen(lines, mark, n)
    decreases |lines|, 0
  {
    if lines != [] {
      var init, last := lines[..|lines| - 1], lines[|lines| - 1];
      assert lines == init + [last];
      FenceAfterIff(init, mark, n);
      NoFenceIff(init);
      AfterLineIff(FenceAfter(init, Markdown), last, mark, n);
      OpenAfterOneMore(init, last, mark, n);
      assert FenceAfter(lines, Markdown) == AfterLine(FenceAfter(init, Markdown), last);
    }
  }

  lemma {:induction false} NoFenceIff(lines: seq<string>)
    ensures FenceAfter(lines, Markdown).NoFence? <==> NoFenceIsOpen(lines)
    decreases |lines|, 1
  {
    forall mark: char, n: nat ensures FenceAfter(lines, Markdown) == Fence(mark, n) <==> FenceIsOpen(lines, mark, n) {
      FenceAfterIff(lines, mark, n);
    }
    var fence := FenceAfter(lines, Markdown);
    if fence.Fence? { assert FenceIsOpen(lines, fence.mark, fence.length); }
  }

  // ----- The boundary -----

  /** The `k`th line is blank, and no fence is open after it. */
  ghost predicate EndsOutsideFences(lines: seq<string>, k: nat)
    requires k <= |lines|
  {
    k > 0 && IsBlankLine(lines[k - 1]) && NoFenceIsOpen(lines[..k])
  }

  lemma EndsBlockIff(lines: seq<string>, k: nat)
    requires k <= |lines|
    ensures EndsBlock(lines, k, Markdown) <==> EndsOutsideFences(lines, k)
  {
    NoFenceIff(lines[..k]);
  }

  /** `stableBoundary` is the end of the last blank line after which no fence is open, or 0 without one. */
  lemma BoundaryIsLastBlankLineOutsideFences(text: string) returns (k: nat)
    ensures k <= |Lines(text)| && StableBoundary(text, Markdown) == Total(Lines(text)[..k])
    ensures k == 0 || EndsOutsideFences(Lines(text), k)
    ensures forall j :: k < j <= |Lines(text)| ==> !EndsOutsideFences(Lines(text), j)
  {
    BoundaryIsLastBlock(text);
    k := LastBlock(Lines(text), Markdown);
    var lines := Lines(text);
    forall j | 0 <= j <= |lines| ensures EndsBlock(lines, j, Markdown) <==> EndsOutsideFences(lines, j) {
      EndsBlockIff(lines, j);
    }
  }

  /** Between an opener and the first line that closes it no blank line counts. */
  lemma FencedBlankLinesDoNotCount(lines: seq<string>, i: nat, k: nat, mark: char, n: nat)
    requires i < k <= |lines| && Opens(lines, i, mark, n)
    requires forall j :: i < j < k ==> !Closes(lines[j], mark, n)
    ensures FenceIsOpen(lines[..k], mark, n) && !EndsOutsideFences(lines, k)
  {
    OpensInPart(lines, k, i, mark, n);
    assert forall j :: i < j < k ==> lines[..k][j] == lines[j];
    OpenIff(lines[..k], mark, n);
    assert StaysOpen(lines[..k], i, mark, n);
  }

  /** The first line that closes it leaves no fence open. */
  lemma CloserEndsTheFence(lines: seq<string>, i: nat, j: nat, mark: char, n: nat)
    requires i < j < |lines| && Opens(lines, i, mark, n) && Closes(lines[j], mark, n)
    requires forall l :: i < l < j ==> !Closes(lines[l], mark, n)
    ensures NoFenceIsOpen(lines[..j + 1])
  {
    FencedBlankLinesDoNotCount(lines, i, j, mark, n);
    FenceAfterIff(lines[..j], mark, n);
    ClosesIff(lines[j], mark, n);
    assert lines[..j + 1] == lines[..j] + [lines[j]];
    assert FenceAfter(lines[..j + 1], Markdown) == AfterLine(FenceAfter(lines[..j], Markdown), lines[j]);
    NoFenceIff(lines[..j + 1]);
  }

  /** Lines without a marker open no fence. */
  lemma {:induction false} PlainLinesOpenNothing(lines: seq<string>, j: nat, k: nat)
    requires j <= k <= |lines| && NoFenceIsOpen(lines[..j])
    requires forall l, mark, n: nat :: j <= l < k ==> !HasMarker(lines[l], mark, n)
    ensures NoFenceIsOpen(lines[..k])
    decreases k
  {
    if j < k {
      PlainLinesOpenNothing(lines, j, k - 1);
      assert lines[..k] == lines[..k - 1] + [lines[k - 1]];
      forall mark: char, n: nat ensures !FenceIsOpen(lines[..k], mark, n) {
        OpenAfterOneMore(lines[..k - 1], lines[k - 1], mark, n);
      }
    }
  }

  /**
   A blank line after the first closer, with no marker between, counts: the text is stable at least to its end.
   */
  lemma BlankLineAfterTheCloserCounts(text: string, i: nat, j: nat, k: nat, mark: char, n: nat)
    requires i < j < k - 1 < |Lines(text)| && Opens(Lines(text), i, mark, n) && Closes(Lines(text)[j], mark, n)
    requires forall l :: i < l < j ==> !Closes(Lines(text)[l], mark, n)
    requires forall l, m, q: nat :: j < l < k ==> !HasMarker(Lines(text)[l], m, q)
    requires IsBlankLine(Lines(text)[k - 1])
    ensures EndsOutsideFences(Lines(text), k) && StableBoundary(text, Markdown) >= Total(Lines(text)[..k])
  {
    CloserEndsTheFence(Lines(text), i, j, mark, n);
    PlainLinesOpenNothing(Lines(text), j + 1, k);
    var last := BoundaryIsLastBlankLineOutsideFences(text);
    assert EndsOutsideFences(Lines(text), k);
    TotalGrows(Lines(text), k, last);
  }

  lemma TotalGrows(lines: seq<string>, k: nat, l: nat)
    requires k <= l <= |lines|
    ensures Total(lines[..k]) <= Total(lines[..l])
  {
    assert lines[..l] == lines[..k] + lines[k..l];
    ConcatAppends(lines[..k], lines[k..l]);
  }

  // ----- Where blocks end -----

  /** From a line feed at `p` there is only white space up to another one, which ends at `e`. */
  predicate BreakAt(text: string, p: nat, e: nat) {
    p + 1 < e <= |text| && text[p] == '\n' && text[e - 1] == '\n' && forall i :: p < i < e ==> IsSpace(text[i])
  }

  predicate FeedAt(text: string, n: nat) {
    0 < n <= |text| && text[n - 1] == '\n' && forall i :: 0 <= i < n ==> IsSpace(text[i])
  }

  lemma {:induction false} LastFeedIsLast(text: string)
    ensures LastFeedInSpace(text) > 0 ==> FeedAt(text, LastFeedInSpace(text))
    ensures forall n: nat :: FeedAt(text, n) ==> n <= LastFeedInSpace(text)
  {
    if text != "" && IsSpace(text[0]) {
      LastFeedIsLast(text[1..]);
      forall n: nat | FeedAt(text, n) ensures n <= LastFeedInSpace(text) {
        if n > 1 { assert FeedAt(text[1..], n - 1); }
      }
    }
  }

  lemma BreaksFromTheStart(text: string, e: nat)
    requires text != ""
    ensures BreakAt(text, 0, e) <==> e > 0 && text[0] == '\n' && FeedAt(text[1..], e - 1)
  {
    if BreakAt(text, 0, e) { assert text[1..][e - 2] == text[e - 1]; }
  }

  lemma BreaksLater(text: string, p: nat, e: nat)
    requires text != "" && p > 0 && e > 0
    ensures BreakAt(text, p, e) <==> BreakAt(text[1..], p - 1, e - 1)
  {
    if BreakAt(text[1..], p - 1, e - 1) {
      assert forall i :: p < i < e ==> text[i] == text[1..][i - 1];
    }
  }

  /** The first break starts at `p`, and `n` is the greatest end it can have. */
  ghost predicate FirstBreak(text: string, p: nat, n: nat) {
    && BreakAt(text, p, n)
    && (forall q, e: nat :: 0 <= q < p ==> !BreakAt(text, q, e))
    && (forall e: nat :: BreakAt(text, p, e) ==> e <= n)
  }

  /** The first block ends with the first break, taken as far as it goes, or with the text if there is none. */
  lemma {:induction false} BlockEndsAtTheFirstBreak(text: string)
    requires text != ""
    ensures || (exists p: nat :: FirstBreak(text, p, BlockLength(text)))
            || (BlockLength(text) == |text| && forall p: nat, e: nat :: !BreakAt(text, p, e))
  {
    LastFeedIsLast(text[1..]);
    forall e: nat ensures BreakAt(text, 0, e) <==> e > 0 && text[0] == '\n' && FeedAt(text[1..], e - 1) {
      BreaksFromTheStart(text, e);
    }
    var n := BlockLength(text);
    if text[0] == '\n' && LastFeedInSpace(text[1..]) > 0 {
      assert FirstBreak(text, 0, n);
    } else if |text| > 1 {
      NoBreakAtTheStart(text);
      BlockEndsAtTheFirstBreak(text[1..]);
      BreaksShift(text);
      var tail, m := text[1..], n - 1;
      if p: nat :| FirstBreak(tail, p, m) { assert FirstBreak(text, p + 1, n); }
    }
  }

  lemma NoBreakAtTheStart(text: string)
    requires text != "" && !(text[0] == '\n' && LastFeedInSpace(text[1..]) > 0)
    ensures forall e: nat :: !BreakAt(text, 0, e)
  {
    LastFeedIsLast(text[1..]);
    forall e: nat ensures !BreakAt(text, 0, e) { BreaksFromTheStart(text, e); }
  }

  lemma BreaksShift(text: string)
    requires text != ""
    ensures forall p: nat, e: nat :: p > 0 && e > 0 ==> (BreakAt(text, p, e) <==> BreakAt(text[1..], p - 1, e - 1))
  {
    forall p: nat, e: nat | p > 0 && e > 0 ensures BreakAt(text, p, e) <==> BreakAt(text[1..], p - 1, e - 1) {
      BreaksLater(text, p, e);
    }
  }
}
