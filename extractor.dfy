/** Inline question blocks: the global, non-greedy match of
    `[MULTIPLE_CHOICE] … [/MULTIPLE_CHOICE]` in assistant text, the decoding of
    each payload (`parseQuestions`) and the deletion of every matched span
    (the first step of `formatChatText`). */
module Extractor {
  import opened Wrappers
  import opened Text

  /** A multiple-choice question as the decoder produces it. Nothing requires
      `correctAnswer` to be one of the `options`. */
  datatype Question = Question(question: string, options: seq<string>, correctAnswer: string)

  const OPEN: string := "[MULTIPLE_CHOICE]"
  const CLOSE: string := "[/MULTIPLE_CHOICE]"

  /** A matched span: the open marker starts at `start`, the close marker at `close`. */
  datatype Block = Block(start: nat, close: nat) {
    /** Index just past the close marker, where the scan resumes. */
    function End(): nat { close + |CLOSE| }
  }

  /** `b` is a shortest match in `s`: an open marker, later a close marker, and
      no close marker starting anywhere in between. */
  ghost predicate IsBlock(s: string, b: Block) {
    && OccursAt(s, OPEN, b.start)
    && b.start + |OPEN| <= b.close
    && OccursAt(s, CLOSE, b.close)
    && forall k: nat :: b.start + |OPEN| <= k < b.close ==> !OccursAt(s, CLOSE, k)
  }

  /** Some open marker at or after `from` is followed, later, by a close marker. */
  ghost predicate HasBlockFrom(s: string, from: nat) {
    exists i: nat, k: nat :: from <= i && i + |OPEN| <= k && OccursAt(s, OPEN, i) && OccursAt(s, CLOSE, k)
  }

  /** The text between the markers of `b` (the regex's capture group). */
  function Payload(s: string, b: Block): string
    requires b.start + |OPEN| <= b.close <= |s|
  {
    s[b.start + |OPEN|..b.close]
  }

  /** One attempt of the pattern at index `i`: the open marker, then the lazy
      `[\s\S]*?` stretched to the first close marker. */
  function BlockAt(s: string, i: nat): (r: Option<Block>)
    ensures r.Some? ==> r.value.start == i && IsBlock(s, r.value)
    ensures r.None? ==> !OccursAt(s, OPEN, i) || forall k: nat :: i + |OPEN| <= k ==> !OccursAt(s, CLOSE, k)
  {
    if !OccursAt(s, OPEN, i) then None
    else match FindFrom(s, CLOSE, i + |OPEN|)
      case None => None
      case Some(k) => Some(Block(i, k))
  }

  /** The next match of the global regex from index `from`: the attempt is
      repeated at `from`, `from + 1`, … until one succeeds. It is the first match
      exactly when one exists, and no open marker lies between `from` and it. */
  function NextBlock(s: string, from: nat): (r: Option<Block>)
    decreases |s| - from
    ensures r.Some? ==> IsBlock(s, r.value) && from <= r.value.start
    ensures r.Some? ==> forall i: nat :: from <= i < r.value.start ==> !OccursAt(s, OPEN, i)
    ensures r.None? <==> !HasBlockFrom(s, from)
  {
    if from > |s| then None
    else match BlockAt(s, from)
      case Some(b) => Some(b)
      case None =>
        var r := NextBlock(s, from + 1);
        assert r.Some? ==> !OccursAt(s, OPEN, from) by {
          if r.Some? {
            assert OccursAt(s, CLOSE, r.value.close) && from + |OPEN| <= r.value.close;
          }
        }
        r
  }

  /** `[...s.matchAll(regex)]` from index `from`: the matches in order, each
      scan resuming after the previous close marker, so that spans never
      overlap and come left to right. */
  function Blocks(s: string, from: nat): (r: seq<Block>)
    decreases |s| - from
    ensures forall j :: 0 <= j < |r| ==> IsBlock(s, r[j]) && from <= r[j].start
    ensures forall j, j' :: 0 <= j < j' < |r| ==> r[j].End() <= r[j'].start
    ensures r == [] <==> !HasBlockFrom(s, from)
  {
    match NextBlock(s, from)
      case None => []
      case Some(b) =>
        var rest := Blocks(s, b.End());
        var r := [b] + rest;
        assert r[1..] == rest;
        r
  }

  /** The declarative reading of the global scan: the first block found from
      `from` has no open marker before it, and the rest is the scan from its end. */
  ghost predicate IsScan(s: string, from: nat, bs: seq<Block>)
    decreases |bs|
  {
    if bs == [] then !HasBlockFrom(s, from)
    else
      && IsBlock(s, bs[0]) && from <= bs[0].start
      && (forall i: nat :: from <= i < bs[0].start ==> !OccursAt(s, OPEN, i))
      && IsScan(s, bs[0].End(), bs[1..])
  }

  /** `Blocks` is a scan. */
  lemma {:induction false} BlocksIsScan(s: string, from: nat)
    ensures IsScan(s, from, Blocks(s, from))
    decreases |s| - from
  {
    match NextBlock(s, from)
      case None =>
      case Some(b) =>
        BlocksIsScan(s, b.End());
        assert Blocks(s, from)[1..] == Blocks(s, b.End());
  }

  /** Two shortest matches starting at the same open marker are equal. */
  lemma BlockUnique(s: string, b: Block, c: Block)
    requires IsBlock(s, b) && IsBlock(s, c) && b.start == c.start
    ensures b == c
  {
    assert b.close == c.close;
  }

  /** The scan is unique: any block sequence meeting the declarative reading is
      the one the regex produces. */
  lemma {:induction false} ScanUnique(s: string, from: nat, bs: seq<Block>)
    requires IsScan(s, from, bs)
    ensures bs == Blocks(s, from)
    decreases |bs|
  {
    if bs != [] {
      var b := bs[0];
      assert HasBlockFrom(s, from) by {
        assert from <= b.start && b.start + |OPEN| <= b.close;
        assert OccursAt(s, OPEN, b.start) && OccursAt(s, CLOSE, b.close);
      }
      var n := NextBlock(s, from).value;
      assert n.start == b.start;
      BlockUnique(s, n, b);
      ScanUnique(s, b.End(), bs[1..]);
      assert bs == [b] + bs[1..];
    }
  }

  /** A payload never contains a close marker. */
  lemma PayloadHasNoClose(s: string, b: Block)
    requires IsBlock(s, b)
    ensures forall k: nat :: !OccursAt(Payload(s, b), CLOSE, k)
  {
    forall k: nat ensures !OccursAt(Payload(s, b), CLOSE, k) {
      if OccursAt(Payload(s, b), CLOSE, k) {
        OccursInSlice(s, b.start + |OPEN|, b.close, CLOSE, k);
      }
    }
  }

  /** The trimmed payloads of the matched blocks, in order. */
  function Payloads(s: string, bs: seq<Block>): (r: seq<string>)
    requires forall j :: 0 <= j < |bs| ==> bs[j].start + |OPEN| <= bs[j].close <= |s|
    ensures |r| == |bs|
  {
    seq(|bs|, j requires 0 <= j < |bs| => Trim(Payload(s, bs[j])))
  }

  /** The `map(JSON.parse)` followed by `filter(q => q !== null)`: payloads
      that do not decode are dropped. */
  function DecodeAll(payloads: seq<string>, decode: string -> Option<Question>): (r: seq<Question>)
    decreases |payloads|
    ensures |r| <= |payloads|
  {
    if |payloads| == 0 then []
    else match decode(payloads[0])
      case None => DecodeAll(payloads[1..], decode)
      case Some(q) => [q] + DecodeAll(payloads[1..], decode)
  }

  /** Decoding distributes over concatenation, so the survivors keep their
      order and a failing payload does not affect the others. */
  lemma {:induction false} DecodeAllAppend(a: seq<string>, b: seq<string>, decode: string -> Option<Question>)
    ensures DecodeAll(a + b, decode) == DecodeAll(a, decode) + DecodeAll(b, decode)
    decreases |a|
  {
    if |a| > 0 {
      assert (a + b)[1..] == a[1..] + b;
      DecodeAllAppend(a[1..], b, decode);
    } else {
      assert a + b == b;
    }
  }

  /** Dropping one payload that fails to decode changes nothing. */
  lemma DecodeAllDrop(a: seq<string>, p: string, b: seq<string>, decode: string -> Option<Question>)
    requires decode(p).None?
    ensures DecodeAll(a + [p] + b, decode) == DecodeAll(a + b, decode)
  {
    DecodeAllAppend(a + [p], b, decode);
    DecodeAllAppend(a, [p], decode);
    DecodeAllAppend(a, b, decode);
    assert DecodeAll([p], decode) == [] by {
      assert [p][1..] == [];
    }
  }

  /** When every payload decodes, the result has one question per payload, in order. */
  lemma {:induction false} DecodeAllEvery(payloads: seq<string>, decode: string -> Option<Question>)
    requires forall j :: 0 <= j < |payloads| ==> decode(payloads[j]).Some?
    ensures |DecodeAll(payloads, decode)| == |payloads|
    ensures forall j :: 0 <= j < |payloads| ==> DecodeAll(payloads, decode)[j] == decode(payloads[j]).value
    decreases |payloads|
  {
    if |payloads| > 0 {
      DecodeAllEvery(payloads[1..], decode);
    }
  }

  /** When no payload decodes, nothing survives. */
  lemma {:induction false} DecodeAllNone(payloads: seq<string>, decode: string -> Option<Question>)
    requires forall j :: 0 <= j < |payloads| ==> decode(payloads[j]).None?
    ensures DecodeAll(payloads, decode) == []
    decreases |payloads|
  {
    if |payloads| > 0 {
      DecodeAllNone(payloads[1..], decode);
    }
  }

  /** `parseQuestions(content)`: `None` (the source's `null`) exactly when no
      block matches; otherwise the decoded questions, never more than blocks. */
  function ParseQuestions(content: string, decode: string -> Option<Question>): (r: Option<seq<Question>>)
    ensures r.None? <==> !HasBlockFrom(content, 0)
    ensures r.Some? ==> |r.value| <= |Blocks(content, 0)|
  {
    var bs := Blocks(content, 0);
    if |bs| == 0 then None else Some(DecodeAll(Payloads(content, bs), decode))
  }

  /** A block-bearing text whose payloads all fail to decode yields an empty
      list, not `None`. */
  lemma ParseAllFail(content: string, decode: string -> Option<Question>)
    requires HasBlockFrom(content, 0)
    requires forall j :: 0 <= j < |Blocks(content, 0)| ==>
      decode(Trim(Payload(content, Blocks(content, 0)[j]))).None?
    ensures ParseQuestions(content, decode) == Some([])
  {
    var bs := Blocks(content, 0);
    DecodeAllNone(Payloads(content, bs), decode);
  }

  /** A block-bearing text whose payloads all decode yields one question per
      block, in block order. */
  lemma ParseAllDecode(content: string, decode: string -> Option<Question>)
    requires forall j :: 0 <= j < |Blocks(content, 0)| ==>
      decode(Trim(Payload(content, Blocks(content, 0)[j]))).Some?
    ensures HasBlockFrom(content, 0) ==>
      var r := ParseQuestions(content, decode).value;
      && |r| == |Blocks(content, 0)|
      && forall j :: 0 <= j < |r| ==> r[j] == decode(Trim(Payload(content, Blocks(content, 0)[j]))).value
  {
    var bs := Blocks(content, 0);
    DecodeAllEvery(Payloads(content, bs), decode);
  }

  /** The text left when the blocks `bs` (a scan from `from`) are cut out:
      the pieces between spans, in order. */
  function Gaps(s: string, from: nat, bs: seq<Block>): (r: string)
    requires from <= |s|
    requires forall j :: 0 <= j < |bs| ==> from <= bs[j].start <= bs[j].close && bs[j].End() <= |s|
    requires forall j, j' :: 0 <= j < j' < |bs| ==> bs[j].End() <= bs[j'].start
    decreases |bs|
  {
    if bs == [] then s[from..]
    else
      assert bs[0].start <= bs[0].End() <= |s|;
      s[from..bs[0].start] + Gaps(s, bs[0].End(), bs[1..])
  }

  /** The number of characters the spans `bs` cover, markers included. */
  function Covered(bs: seq<Block>): nat
    requires forall j :: 0 <= j < |bs| ==> bs[j].start <= bs[j].End()
  {
    if bs == [] then 0 else bs[0].End() - bs[0].start + Covered(bs[1..])
  }

  lemma {:induction false} GapsLength(s: string, from: nat, bs: seq<Block>)
    requires from <= |s|
    requires forall j :: 0 <= j < |bs| ==> from <= bs[j].start <= bs[j].close && bs[j].End() <= |s|
    requires forall j, j' :: 0 <= j < j' < |bs| ==> bs[j].End() <= bs[j'].start
    ensures |Gaps(s, from, bs)| + Covered(bs) == |s| - from
    decreases |bs|
  {
    if bs != [] {
      GapsLength(s, bs[0].End(), bs[1..]);
    }
  }

  /** `text.replace(regex, '')`: the text with every matched span deleted,
      markers included, and the text between spans kept in order. */
  function RemoveBlocks(s: string): (r: string)
    ensures |r| + Covered(Blocks(s, 0)) == |s|
    ensures r == s <==> !HasBlockFrom(s, 0)
  {
    var bs := Blocks(s, 0);
    GapsLength(s, 0, bs);
    assert bs != [] ==> Covered(bs) > 0;
    Gaps(s, 0, bs)
  }

  /** No character of the close marker after its first is `[`, so a close
      marker cannot start inside another one. */
  lemma CloseHasNoBorder(t: nat)
    requires 0 < t < |CLOSE|
    ensures CLOSE[t] != '['
  {
  }

  /** A payload wrapped in the markers, with no close marker inside it, is
      one shortest match spanning the whole text. */
  lemma WrapIsBlock(p: string)
    requires forall k: nat :: !OccursAt(p, CLOSE, k)
    ensures IsBlock(OPEN + p + CLOSE, Block(0, |OPEN| + |p|))
    ensures Payload(OPEN + p + CLOSE, Block(0, |OPEN| + |p|)) == p
  {
    var s := OPEN + p + CLOSE;
    var c := |OPEN| + |p|;
    assert s[..|OPEN|] == OPEN;
    assert s[c..] == CLOSE;
    assert s[|OPEN|..c] == p;
    forall k: nat | |OPEN| <= k < c ensures !OccursAt(s, CLOSE, k) {
      if k + |CLOSE| <= c {
        assert s[k..k + |CLOSE|] == p[k - |OPEN|..k - |OPEN| + |CLOSE|];
        assert !OccursAt(p, CLOSE, k - |OPEN|);
      } else if k + |CLOSE| <= |s| {
        var t := c - k;
        CloseHasNoBorder(t);
        assert s[k..k + |CLOSE|][t] == s[c] == CLOSE[0];
      }
    }
  }

  /** The scan of a wrapped payload finds exactly the one block. */
  lemma WrapBlocks(p: string)
    requires forall k: nat :: !OccursAt(p, CLOSE, k)
    ensures Blocks(OPEN + p + CLOSE, 0) == [Block(0, |OPEN| + |p|)]
  {
    WrapIsBlock(p);
    WholeBlock(OPEN + p + CLOSE, Block(0, |OPEN| + |p|));
  }

  /** A text that is one block from end to end scans as that block. */
  lemma WholeBlock(s: string, b: Block)
    requires IsBlock(s, b) && b.start == 0 && b.End() == |s|
    ensures Blocks(s, 0) == [b]
  {
    var scan := [b];
    assert !HasBlockFrom(s, b.End());
    assert scan[1..] == [];
    assert IsScan(s, 0, scan);
    ScanUnique(s, 0, scan);
  }

  /** Round trip: a payload wrapped in the markers, with no close marker
      inside it, comes back as the one payload, decodes to at most its one
      question, and is cut out entirely. */
  lemma WrapRoundTrip(p: string, decode: string -> Option<Question>)
    requires forall k: nat :: !OccursAt(p, CLOSE, k)
    ensures var s := OPEN + p + CLOSE;
      && Blocks(s, 0) == [Block(0, |OPEN| + |p|)]
      && Payload(s, Blocks(s, 0)[0]) == p
      && ParseQuestions(s, decode) == (if decode(Trim(p)).Some? then Some([decode(Trim(p)).value]) else Some([]))
      && RemoveBlocks(s) == ""
  {
    WrapIsBlock(p);
    WholeBlock(OPEN + p + CLOSE, Block(0, |OPEN| + |p|));
    WholeBlockParse(OPEN + p + CLOSE, Block(0, |OPEN| + |p|), decode);
    WholeBlockRemoved(OPEN + p + CLOSE, Block(0, |OPEN| + |p|));
  }

  /** A text that is one block from end to end parses to its payload's
      decoding. */
  lemma WholeBlockParse(s: string, b: Block, decode: string -> Option<Question>)
    requires b.start + |OPEN| <= b.close <= |s|
    requires Blocks(s, 0) == [b]
    ensures var q := decode(Trim(Payload(s, b)));
      ParseQuestions(s, decode) == (if q.Some? then Some([q.value]) else Some([]))
  {
    var t := Trim(Payload(s, b));
    assert Payloads(s, [b]) == [t];
    DecodeOne(t, decode);
  }

  /** A single payload decodes to its one question or to nothing. */
  lemma DecodeOne(t: string, decode: string -> Option<Question>)
    ensures DecodeAll([t], decode) == (if decode(t).Some? then [decode(t).value] else [])
  {
    assert [t][1..] == [];
  }

  /** A text that is one block from end to end is removed entirely. */
  lemma WholeBlockRemoved(s: string, b: Block)
    requires b.start == 0 && b.End() == |s|
    requires Blocks(s, 0) == [b]
    ensures RemoveBlocks(s) == ""
  {
  }
}
