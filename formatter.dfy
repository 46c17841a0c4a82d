/** The line formatter of `formatChatText`: after the question blocks are
    cut out, the text is split into lines and a two-state loop (outside or
    inside a ``` fence) emits paragraphs and code elements. */
module Formatter {
  import opened Wrappers
  import opened Text
  import Extractor

  /** The rendered elements: a `<p>` holding one line, or a `<pre><code>`
      holding a fenced block and its language. */
  datatype Element = Para(line: string) | Code(language: string, content: string)

  const FENCE: string := "```"

  /** `line.startsWith('```')`. */
  predicate IsFence(line: string) {
    |line| >= 3 && line[0] == '`' && line[1] == '`' && line[2] == '`'
  }

  lemma FenceIsPrefix(line: string)
    ensures IsFence(line) <==> StartsWith(line, FENCE)
  {
    if IsFence(line) {
      assert line[..3] == FENCE;
    }
  }

  /** The language named on an opening fence: `line.slice(3).trim()`. It is
      taken from the text after the backticks and is already trimmed. */
  function FenceLanguage(line: string): (r: string)
    requires IsFence(line)
    ensures |r| <= |line| - |FENCE|
    ensures Trim(r) == r
  {
    TrimIdempotent(line[|FENCE|..]);
    Trim(line[|FENCE|..])
  }

  /** The index of the first fence line, if any. */
  function FirstFence(lines: seq<string>): (r: Option<nat>)
    decreases |lines|
    ensures r.Some? ==> r.value < |lines| && IsFence(lines[r.value])
    ensures r.Some? ==> forall j :: 0 <= j < r.value ==> !IsFence(lines[j])
    ensures r.None? ==> forall j :: 0 <= j < |lines| ==> !IsFence(lines[j])
  {
    if |lines| == 0 then None
    else if IsFence(lines[0]) then Some(0)
    else match FirstFence(lines[1..])
      case None => None
      case Some(j) => Some(j + 1)
  }

  lemma FirstFenceAt(lines: seq<string>, k: nat)
    requires k < |lines| && IsFence(lines[k])
    requires forall j :: 0 <= j < k ==> !IsFence(lines[j])
    ensures FirstFence(lines) == Some(k)
  {
  }

  /** The reference reading of the output, by the structure of the lines: a
      non-fence line outside a fence is a paragraph; a fence, the lines up to
      the next fence and that fence make one code element whose content is the
      inner lines joined by newlines and trimmed; a fence never closed makes
      nothing. */
  function Render(lines: seq<string>): (r: seq<Element>)
    decreases |lines|
  {
    if |lines| == 0 then []
    else if !IsFence(lines[0]) then [Para(lines[0])] + Render(lines[1..])
    else match FirstFence(lines[1..])
      case None => []
      case Some(j) =>
        [Code(FenceLanguage(lines[0]), Trim(Join(lines[1..j + 1], '\n')))] + Render(lines[j + 2..])
  }

  /** A closed fence is one code element, and rendering resumes after it. */
  lemma {:induction false} RenderClosedFence(open: string, inner: seq<string>, close: string, rest: seq<string>)
    requires IsFence(open) && IsFence(close)
    requires forall j :: 0 <= j < |inner| ==> !IsFence(inner[j])
    ensures Render([open] + inner + [close] + rest)
      == [Code(FenceLanguage(open), Trim(Join(inner, '\n')))] + Render(rest)
  {
    var lines := [open] + inner + [close] + rest;
    assert lines[1..] == inner + [close] + rest;
    FirstFenceAt(lines[1..], |inner|);
    assert lines[1..|inner| + 1] == inner;
    assert lines[|inner| + 2..] == rest;
  }

  /** A fence never closed swallows every line after it. */
  lemma RenderUnclosedFence(open: string, inner: seq<string>)
    requires IsFence(open)
    requires forall j :: 0 <= j < |inner| ==> !IsFence(inner[j])
    ensures Render([open] + inner) == []
  {
    assert ([open] + inner)[1..] == inner;
  }

  /** Lines outside any fence become one paragraph each, in order, in front of
      whatever the remaining lines render to. */
  lemma {:induction false} RenderPlainPrefix(plain: seq<string>, rest: seq<string>)
    requires forall j :: 0 <= j < |plain| ==> !IsFence(plain[j])
    ensures Render(plain + rest) == seq(|plain|, j requires 0 <= j < |plain| => Para(plain[j])) + Render(rest)
    decreases |plain|
  {
    if |plain| > 0 {
      assert (plain + rest)[1..] == plain[1..] + rest;
      RenderPlainPrefix(plain[1..], rest);
    } else {
      assert plain + rest == rest;
    }
  }

  /** Every paragraph holds one of the input lines, never a fence line. */
  lemma {:induction false} RenderParagraphs(lines: seq<string>)
    ensures forall e :: e in Render(lines) && e.Para? ==> e.line in lines && !IsFence(e.line)
    decreases |lines|
  {
    if |lines| > 0 {
      RenderParagraphs(lines[1..]);
      if IsFence(lines[0]) {
        match FirstFence(lines[1..])
          case None =>
          case Some(j) =>
            RenderParagraphs(lines[j + 2..]);
            assert forall x :: x in lines[j + 2..] ==> x in lines;
      }
    }
  }

  /** What the loop has accumulated in `codeContent`: each inner line
      followed by a newline. */
  function Accumulated(lines: seq<string>): string
    decreases |lines|
  {
    if |lines| == 0 then "" else Accumulated(lines[..|lines| - 1]) + lines[|lines| - 1] + "\n"
  }

  /** The accumulated content is the inner lines joined by newlines, plus a
      final newline. */
  lemma {:induction false} AccumulatedJoin(lines: seq<string>)
    requires |lines| > 0
    ensures Accumulated(lines) == Join(lines, '\n') + "\n"
    decreases |lines|
  {
    var init := lines[..|lines| - 1];
    var last := lines[|lines| - 1];
    assert lines == init + [last];
    if |init| > 0 {
      AccumulatedJoin(init);
      JoinSnoc(init, last, '\n');
      calc {
        Accumulated(lines);
        Accumulated(init) + last + "\n";
        Join(init, '\n') + "\n" + last + "\n";
        (Join(init, '\n') + ['\n'] + last) + "\n";
        Join(lines, '\n') + "\n";
      }
    } else {
      assert lines == [last];
      assert Accumulated(init) == "";
    }
  }

  /** So it trims to the inner lines joined by newlines and trimmed. */
  lemma AccumulatedTrim(lines: seq<string>)
    ensures Trim(Accumulated(lines)) == Trim(Join(lines, '\n'))
  {
    if |lines| > 0 {
      AccumulatedJoin(lines);
      TrimAppendWhitespace(Join(lines, '\n'), '\n');
    }
  }

  /** No line strictly between `lo` and `hi` is a fence. */
  ghost predicate NoFenceBetween(lines: seq<string>, lo: nat, hi: nat)
    requires hi <= |lines|
  {
    forall j :: lo < j < hi ==> !IsFence(lines[j])
  }

  /** A plain line extends a fence-free stretch by one. */
  lemma NoFenceExtend(lines: seq<string>, lo: nat, hi: nat)
    requires lo < hi < |lines| && NoFenceBetween(lines, lo, hi) && !IsFence(lines[hi])
    ensures NoFenceBetween(lines, lo, hi + 1)
  {
  }

  /** The loop invariant outside a fence: what is emitted so far, followed
      by the reading of the lines not yet visited, is the reading of all. */
  ghost predicate Outside(lines: seq<string>, i: nat, formatted: seq<Element>, total: seq<Element>) {
    i <= |lines| && total == formatted + Render(lines[i..])
  }

  /** The loop invariant inside a fence opened at `open`: the language is the
      opening line's, no fence has been seen since, `codeContent` holds the
      inner lines so far, and what is emitted, followed by the reading of the
      lines from the opening fence on, is the reading of all. */
  ghost predicate Inside(lines: seq<string>, open: nat, i: nat, language: string, codeContent: string,
                         formatted: seq<Element>, total: seq<Element>) {
    && open < i <= |lines| && IsFence(lines[open]) && language == FenceLanguage(lines[open])
    && NoFenceBetween(lines, open, i)
    && codeContent == Accumulated(lines[open + 1..i])
    && total == formatted + Render(lines[open..])
  }

  /** A plain line outside a fence emits one paragraph. */
  lemma StepParagraph(lines: seq<string>, i: nat, formatted: seq<Element>, total: seq<Element>)
    requires i < |lines| && !IsFence(lines[i]) && Outside(lines, i, formatted, total)
    ensures Outside(lines, i + 1, formatted + [Para(lines[i])], total)
  {
    var xs := lines[i..];
    assert xs[0] == lines[i];
    assert xs[1..] == lines[i + 1..];
  }

  /** A fence line outside a fence opens one, with its trimmed language. */
  lemma StepOpen(lines: seq<string>, i: nat, formatted: seq<Element>, total: seq<Element>)
    requires i < |lines| && IsFence(lines[i]) && Outside(lines, i, formatted, total)
    ensures Inside(lines, i, i + 1, Trim(lines[i][3..]), "", formatted, total)
  {
  }

  /** The reading of lines that start with a fence closed `k` lines later. */
  lemma RenderAtFence(xs: seq<string>, k: nat)
    requires |xs| > 0 && IsFence(xs[0]) && FirstFence(xs[1..]) == Some(k)
    ensures Render(xs) == [Code(FenceLanguage(xs[0]), Trim(Join(xs[1..k + 1], '\n')))] + Render(xs[k + 2..])
  {
  }

  /** The first fence after the opening one is the closing one at `i`. */
  lemma ClosingFence(lines: seq<string>, open: nat, i: nat)
    requires open < i < |lines| && IsFence(lines[i])
    requires NoFenceBetween(lines, open, i)
    ensures FirstFence(lines[open + 1..]) == Some(i - open - 1)
  {
    var ys := lines[open + 1..];
    var k := i - open - 1;
    assert ys[k] == lines[i];
    assert forall j :: 0 <= j < k ==> ys[j] == lines[open + 1 + j];
    FirstFenceAt(ys, k);
  }

  /** On the closing fence the reading of the lines from the opening fence
      on is the code element followed by the reading of the rest. */
  lemma RenderFromOpen(lines: seq<string>, open: nat, i: nat)
    requires open < i < |lines| && IsFence(lines[open]) && IsFence(lines[i])
    requires NoFenceBetween(lines, open, i)
    ensures Render(lines[open..]) == [Code(FenceLanguage(lines[open]), Trim(Join(lines[open + 1..i], '\n')))] + Render(lines[i + 1..])
  {
    var xs := lines[open..];
    var k := i - open - 1;
    ClosingFence(lines, open, i);
    assert xs[1..] == lines[open + 1..];
    RenderAtFence(xs, k);
    assert xs[1..k + 1] == lines[open + 1..i];
    assert xs[k + 2..] == lines[i + 1..];
  }

  /** A fence line inside a fence closes it and emits one code element with
      the trimmed content. */
  lemma StepClose(lines: seq<string>, open: nat, i: nat, language: string, codeContent: string,
                  formatted: seq<Element>, total: seq<Element>)
    requires i < |lines| && IsFence(lines[i]) && Inside(lines, open, i, language, codeContent, formatted, total)
    ensures Outside(lines, i + 1, formatted + [Code(language, Trim(codeContent))], total)
  {
    RenderFromOpen(lines, open, i);
    AccumulatedTrim(lines[open + 1..i]);
  }

  /** A plain line inside a fence joins the accumulated content. */
  lemma StepInner(lines: seq<string>, open: nat, i: nat, language: string, codeContent: string,
                  formatted: seq<Element>, total: seq<Element>)
    requires i < |lines| && !IsFence(lines[i]) && Inside(lines, open, i, language, codeContent, formatted, total)
    ensures Inside(lines, open, i + 1, language, codeContent + lines[i] + "\n", formatted, total)
  {
    var xs := lines[open + 1..i + 1];
    assert xs[..|xs| - 1] == lines[open + 1..i];
    NoFenceExtend(lines, open, i);
  }

  /** At the end of the input inside a fence that is never closed, nothing
      more is emitted. */
  lemma StepUnclosed(lines: seq<string>, open: nat, language: string, codeContent: string,
                     formatted: seq<Element>, total: seq<Element>)
    requires Inside(lines, open, |lines|, language, codeContent, formatted, total)
    ensures total == formatted
  {
    assert lines[open..] == [lines[open]] + lines[open + 1..];
    RenderUnclosedFence(lines[open], lines[open + 1..]);
  }

  /** `formatChatText(text)`: cut out the question blocks, split into lines,
      and run the fence state machine over them. */
  method FormatChatText(text: string) returns (formatted: seq<Element>)
    ensures formatted == Render(Split(Extractor.RemoveBlocks(text), '\n'))
    ensures !Extractor.HasBlockFrom(text, 0) ==> formatted == Render(Split(text, '\n'))
  {
    var lines := Split(Extractor.RemoveBlocks(text), '\n');
    formatted := FormatLines(lines);
  }

  /** The `lines.forEach` loop of `formatChatText`: a two-state machine
      (outside or inside a fence) whose output is `Render(lines)`. */
  method FormatLines(lines: seq<string>) returns (formatted: seq<Element>)
    ensures formatted == Render(lines)
  {
    formatted := [];
    var inCodeBlock := false;
    var codeContent := "";
    var language := "";
    ghost var open: nat := 0;
    ghost var total := Render(lines);
    var i := 0;
    while i < |lines|
      invariant !inCodeBlock ==> codeContent == "" && Outside(lines, i, formatted, total)
      invariant inCodeBlock ==> Inside(lines, open, i, language, codeContent, formatted, total)
    {
      var line := lines[i];
      FenceIsPrefix(line);
      if StartsWith(line, FENCE) {
        if !inCodeBlock {
          StepOpen(lines, i, formatted, total);
          inCodeBlock := true;
          language := Trim(line[3..]);
          open := i;
        } else {
          StepClose(lines, open, i, language, codeContent, formatted, total);
          inCodeBlock := false;
          formatted := formatted + [Code(language, Trim(codeContent))];
          codeContent := "";
          language := "";
        }
      } else if inCodeBlock {
        StepInner(lines, open, i, language, codeContent, formatted, total);
        codeContent := codeContent + line + "\n";
      } else {
        StepParagraph(lines, i, formatted, total);
        formatted := formatted + [Para(line)];
      }
      i := i + 1;
    }
    if inCodeBlock {
      StepUnclosed(lines, open, language, codeContent, formatted, total);
    } else {
      assert lines[i..] == [];
    }
  }
}
