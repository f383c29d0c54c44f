/** app/adapters/anthropic.py: citations attached to the text blocks of an answer, flattened to one
    list with running positions, and the joined answer text. A block, a text or a citation list may
    be missing or null; a citation itself never is. */
module Anthropic {
  import opened Options
  import opened Adapters

  datatype BlockCitation = BlockCitation(url: Option<string>, title: Option<string>, citedText: Option<string>)

  datatype Block =
    | TextBlock(text: Option<string>, citations: seq<BlockCitation>)
    | OtherBlock
    | NullBlock

  function TextOf(b: Block): string {
    if b.TextBlock? && b.text.Some? then b.text.value else ""
  }

  function CitationsOf(b: Block): seq<BlockCitation> {
    if b.TextBlock? then b.citations else []
  }

  function TextBlocks(content: seq<Block>): (r: seq<Block>)
    ensures forall b :: b in r ==> b.TextBlock?
  {
    if content == [] then []
    else
      var n := |content| - 1;
      TextBlocks(content[..n]) + if content[n].TextBlock? then [content[n]] else []
  }

  /** `"".join(block.text for text blocks)`. */
  function RenderedText(content: seq<Block>): string {
    if content == [] then "" else RenderedText(content[..|content| - 1]) + TextOf(content[|content| - 1])
  }

  /** Where the text of block number `b` starts in the joined answer. */
  function TextStart(blocks: seq<Block>, b: nat): nat
    requires b <= |blocks|
  {
    if b == 0 then 0 else TextStart(blocks, b - 1) + |TextOf(blocks[b - 1])|
  }

  /** How many citations the blocks before number `b` carry. */
  function CitationStart(blocks: seq<Block>, b: nat): nat
    requires b <= |blocks|
  {
    if b == 0 then 0 else CitationStart(blocks, b - 1) + |CitationsOf(blocks[b - 1])|
  }

  function ToCitation(c: BlockCitation, position: nat, extractDomain: string -> Option<string>): Citation {
    var domain := if c.url.Some? && c.url.value != "" then extractDomain(c.url.value) else None;
    Citation(c.url, c.title, domain, position, None, None, None, c.citedText)
  }

  /** `_map_citations`, one appearance at a time. */
  function MappedBlock(
    done: seq<Citation>, cs: seq<BlockCitation>, extractDomain: string -> Option<string>): seq<Citation>
  {
    if cs == [] then done
    else
      var n := |cs| - 1;
      var before := MappedBlock(done, cs[..n], extractDomain);
      before + [ToCitation(cs[n], |before|, extractDomain)]
  }

  function Mapped(content: seq<Block>, extractDomain: string -> Option<string>): seq<Citation> {
    if content == [] then []
    else
      var n := |content| - 1;
      MappedBlock(Mapped(content[..n], extractDomain), CitationsOf(content[n]), extractDomain)
  }

  method MapCitations(content: seq<Block>, extractDomain: string -> Option<string>)
    returns (citations: seq<Citation>, hasCitations: bool)
    ensures citations == Mapped(content, extractDomain)
    ensures hasCitations <==> citations != []
  {
    citations := [];
    for i := 0 to |content|
      invariant citations == Mapped(content[..i], extractDomain)
    {
      assert content[..i + 1][..i] == content[..i];
      if content[i].TextBlock? {
        ghost var before := citations;
        var cs := content[i].citations;
        for j := 0 to |cs|
          invariant citations == MappedBlock(before, cs[..j], extractDomain)
        {
          assert cs[..j + 1][..j] == cs[..j];
          citations := citations + [ToCitation(cs[j], |citations|, extractDomain)];
        }
        assert cs[..|cs|] == cs;
      }
    }
    assert content[..|content|] == content;
    hasCitations := citations != [];
  }

  // ----- where a position comes from -----

  lemma {:induction false} MappedBlockAt(
    done: seq<Citation>, cs: seq<BlockCitation>, extractDomain: string -> Option<string>)
    ensures var r := MappedBlock(done, cs, extractDomain);
            && |r| == |done| + |cs| && r[..|done|] == done
            && forall j :: 0 <= j < |cs| ==> r[|done| + j] == ToCitation(cs[j], |done| + j, extractDomain)
  {
    if cs != [] { MappedBlockAt(done, cs[..|cs| - 1], extractDomain); }
  }

  lemma {:induction false} StartsOfPrefix(blocks: seq<Block>, last: Block, b: nat)
    requires b <= |blocks|
    ensures CitationStart(blocks + [last], b) == CitationStart(blocks, b)
    ensures TextStart(blocks + [last], b) == TextStart(blocks, b)
  {
    if b > 0 { StartsOfPrefix(blocks, last, b - 1); }
  }

  /** Citation `j` of text block `b` sits at position CitationStart(b) + j. */
  predicate IsAt(
    citations: seq<Citation>, blocks: seq<Block>, b: nat, j: nat, extractDomain: string -> Option<string>)
    requires b < |blocks| && j < |CitationsOf(blocks[b])|
  {
    var p := CitationStart(blocks, b) + j;
    p < |citations| && citations[p] == ToCitation(CitationsOf(blocks[b])[j], p, extractDomain)
  }

  /** Every citation of every block is where it belongs, and there are no others. */
  ghost predicate Traceable(citations: seq<Citation>, blocks: seq<Block>, extractDomain: string -> Option<string>) {
    && |citations| == CitationStart(blocks, |blocks|)
    && forall b: nat, j: nat :: b < |blocks| && j < |CitationsOf(blocks[b])| ==>
         IsAt(citations, blocks, b, j, extractDomain)
  }

  lemma EarlierStay(
    citations: seq<Citation>, more: seq<Citation>, blocks: seq<Block>, last: Block, b: nat, j: nat,
    extractDomain: string -> Option<string>)
    requires |citations| <= |more| && more[..|citations|] == citations
    requires b < |blocks| && j < |CitationsOf(blocks[b])| && IsAt(citations, blocks, b, j, extractDomain)
    ensures IsAt(more, blocks + [last], b, j, extractDomain)
  {
    hide ToCitation;
    StartsOfPrefix(blocks, last, b);
    var p := CitationStart(blocks, b) + j;
    assert more[..|citations|][p] == citations[p];
  }

  lemma NewOneIsAt(
    citations: seq<Citation>, more: seq<Citation>, blocks: seq<Block>, last: Block, j: nat,
    extractDomain: string -> Option<string>)
    requires |citations| == CitationStart(blocks, |blocks|) && j < |CitationsOf(last)|
    requires |citations| + j < |more|
    requires more[|citations| + j] == ToCitation(CitationsOf(last)[j], |citations| + j, extractDomain)
    ensures IsAt(more, blocks + [last], |blocks|, j, extractDomain)
  {
    hide ToCitation;
    StartsOfPrefix(blocks, last, |blocks|);
  }

  lemma TraceableAppend(
    citations: seq<Citation>, blocks: seq<Block>, last: Block, extractDomain: string -> Option<string>)
    requires Traceable(citations, blocks, extractDomain)
    ensures Traceable(MappedBlock(citations, CitationsOf(last), extractDomain), blocks + [last], extractDomain)
  {
    hide ToCitation, IsAt;
    var all := blocks + [last];
    var more := MappedBlock(citations, CitationsOf(last), extractDomain);
    MappedBlockAt(citations, CitationsOf(last), extractDomain);
    StartsOfPrefix(blocks, last, |blocks|);
    assert CitationStart(all, |all|) == CitationStart(all, |blocks|) + |CitationsOf(last)|;
    forall b: nat, j: nat | b < |all| && j < |CitationsOf(all[b])| ensures IsAt(more, all, b, j, extractDomain) {
      hide MappedBlock;
      if b < |blocks| {
        EarlierStay(citations, more, blocks, last, b, j, extractDomain);
      } else {
        assert IsAt(more, all, b, j, extractDomain) by { NewOneIsAt(citations, more, blocks, last, j, extractDomain); }
      }
    }
  }

  /** The flattening keeps every citation of every text block, in order, and adds nothing. */
  lemma {:induction false} FlatteningIsTraceable(content: seq<Block>, extractDomain: string -> Option<string>)
    ensures Traceable(Mapped(content, extractDomain), TextBlocks(content), extractDomain)
  {
    if content != [] {
      var n := |content| - 1;
      FlatteningIsTraceable(content[..n], extractDomain);
      if content[n].TextBlock? {
        TraceableAppend(Mapped(content[..n], extractDomain), TextBlocks(content[..n]), content[n], extractDomain);
      } else {
        assert TextBlocks(content) == TextBlocks(content[..n]);
      }
    }
  }

  /** The joined answer is cut into the texts of its blocks, block `b` starting at TextStart(b). */
  lemma {:induction false} RenderedTextByBlocks(content: seq<Block>, b: nat)
    requires b < |TextBlocks(content)|
    ensures var blocks := TextBlocks(content);
            var from := TextStart(blocks, b);
            && from + |TextOf(blocks[b])| <= |RenderedText(content)|
            && RenderedText(content)[from..from + |TextOf(blocks[b])|] == TextOf(blocks[b])
  {
    hide TextOf;
    var n := |content| - 1;
    var before := TextBlocks(content[..n]);
    var front, last := RenderedText(content[..n]), TextOf(content[n]);
    assert RenderedText(content) == front + last;
    if b < |before| {
      RenderedTextByBlocks(content[..n], b);
      EarlierBlocksStay(content, b);
      hide RenderedText, TextStart, TextBlocks;
      SliceOfFront(front, last, TextStart(before, b), TextOf(before[b]));
    } else {
      assert TextBlocks(content) == before + [content[n]];
      RenderedTextLength(content[..n]);
      StartsOfPrefix(before, content[n], b);
      hide RenderedText, TextStart, TextBlocks;
      assert (front + last)[|front|..|front| + |last|] == last;
    }
  }

  lemma EarlierBlocksStay(content: seq<Block>, b: nat)
    requires content != [] && b < |TextBlocks(content[..|content| - 1])|
    ensures var before := TextBlocks(content[..|content| - 1]);
            && b < |TextBlocks(content)| && TextBlocks(content)[b] == before[b]
            && TextStart(TextBlocks(content), b) == TextStart(before, b)
  {
    var last := content[|content| - 1];
    var before := TextBlocks(content[..|content| - 1]);
    if last.TextBlock? {
      StartsOfPrefix(before, last, b);
    } else {
      assert TextBlocks(content) == before;
    }
  }

  lemma SliceOfFront(front: string, last: string, from: nat, part: string)
    requires from + |part| <= |front| && front[from..from + |part|] == part
    ensures (front + last)[from..from + |part|] == part
  {
  }

  lemma {:induction false} RenderedTextLength(content: seq<Block>)
    ensures |RenderedText(content)| == TextStart(TextBlocks(content), |TextBlocks(content)|)
  {
    if content != [] {
      var n := |content| - 1;
      RenderedTextLength(content[..n]);
      if content[n].TextBlock? {
        StartsOfPrefix(TextBlocks(content[..n]), content[n], |TextBlocks(content[..n])|);
      } else {
        assert TextBlocks(content) == TextBlocks(content[..n]);
      }
    }
  }

  /** Citation `j` of text block `b` is mapped field by field: its address, title and passage, the domain
      of its address if it has one, its running position, and no place in the answer. */
  lemma MappedShows(content: seq<Block>, extractDomain: string -> Option<string>, b: nat, j: nat)
    requires b < |TextBlocks(content)| && TextBlocks(content)[b].TextBlock? && j < |TextBlocks(content)[b].citations|
    ensures var from, p := TextBlocks(content)[b].citations[j], CitationStart(TextBlocks(content), b) + j;
            && p < |Mapped(content, extractDomain)|
            && var c := Mapped(content, extractDomain)[p];
               && c.sourceUrl == from.url && c.sourceTitle == from.title && c.sourcePassage == from.citedText
               && c.sourceDomain == (if from.url.Some? && |from.url.value| > 0 then extractDomain(from.url.value) else None)
               && c.position == p
               && c.citedAnswerSpan == None && c.answerSpanStart == None && c.answerSpanEnd == None
  {
    FlatteningIsTraceable(content, extractDomain);
    hide Mapped, TextBlocks, CitationStart;
    assert IsAt(Mapped(content, extractDomain), TextBlocks(content), b, j, extractDomain);
  }
}
