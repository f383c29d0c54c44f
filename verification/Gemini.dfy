/** app/adapters/google.py: Gemini's many-to-many grounding metadata as one citation per
    (answer segment, source) pair. Only the missing and null parts the mapper handles are modelled;
    a payload with the wrong kind of value in some place makes the mapper raise. */
module Gemini {
  import opened Options
  import opened Adapters

  datatype Web = Web(uri: Option<string>, title: Option<string>, domain: Option<string>)

  datatype Chunk = Chunk(web: Option<Web>)

  datatype Segment = Segment(startIndex: Option<int>, endIndex: Option<int>, text: Option<string>)

  /** An element of `grounding_chunk_indices`: in Python a bool is an int too. */
  datatype Index = IntIndex(i: int) | BoolIndex(b: bool) | NotAnIndex

  datatype Support = Support(segment: Option<Segment>, chunkIndices: seq<Index>)

  datatype Metadata = Metadata(chunks: seq<Option<Chunk>>, supports: seq<Option<Support>>)

  datatype Candidate = Candidate(metadata: Option<Metadata>)

  datatype Payload = Payload(candidates: seq<Option<Candidate>>)

  /** A segment of the answer and a chunk backing it. */
  datatype Pair = Pair(start: int, end: Option<int>, chunk: nat, text: Option<string>)

  function GroundingMetadata(p: Payload): Metadata {
    if p.candidates != [] && p.candidates[0].Some? && p.candidates[0].value.metadata.Some? then
      p.candidates[0].value.metadata.value
    else Metadata([], [])
  }

  function IndexValue(x: Index): Option<int> {
    match x
    case IntIndex(i) => Some(i)
    case BoolIndex(b) => Some(if b then 1 else 0)
    case NotAnIndex => None
  }

  predicate IsValid(x: Index, chunkCount: nat) {
    IndexValue(x).Some? && 0 <= IndexValue(x).value < chunkCount
  }

  function PairOf(s: Support, x: Index, chunkCount: nat): Pair
    requires IsValid(x, chunkCount)
  {
    var seg := if s.segment.Some? then s.segment.value else Segment(None, None, None);
    Pair(if seg.startIndex.Some? then seg.startIndex.value else 0, seg.endIndex, IndexValue(x).value, seg.text)
  }

  /** The pairs of one support, and of all supports, in payload order. */
  function SupportPairs(s: Support, indices: seq<Index>, chunkCount: nat): seq<Pair> {
    if indices == [] then []
    else
      var n := |indices| - 1;
      SupportPairs(s, indices[..n], chunkCount)
      + if IsValid(indices[n], chunkCount) then [PairOf(s, indices[n], chunkCount)] else []
  }

  function IndicesOf(s: Option<Support>): seq<Index> {
    if s.Some? then s.value.chunkIndices else []
  }

  function PairsOf(supports: seq<Option<Support>>, chunkCount: nat): seq<Pair> {
    if supports == [] then []
    else
      var n := |supports| - 1;
      PairsOf(supports[..n], chunkCount)
      + if supports[n].Some? then SupportPairs(supports[n].value, supports[n].value.chunkIndices, chunkCount) else []
  }

  // ----- pairs.sort(key=...) -----

  function EndKey(p: Pair): int {
    if p.end.Some? then p.end.value else -1
  }

  predicate SameKey(a: Pair, b: Pair) {
    a.start == b.start && EndKey(a) == EndKey(b) && a.chunk == b.chunk
  }

  predicate Before(a: Pair, b: Pair) {
    || a.start < b.start
    || (a.start == b.start && EndKey(a) < EndKey(b))
    || (a.start == b.start && EndKey(a) == EndKey(b) && a.chunk <= b.chunk)
  }

  function Insert(p: Pair, sorted: seq<Pair>): seq<Pair> {
    if sorted == [] then [p]
    else
      var n := |sorted| - 1;
      if Before(sorted[n], p) then sorted + [p] else Insert(p, sorted[..n]) + [sorted[n]]
  }

  /** Stable insertion sort. */
  function Sort(pairs: seq<Pair>): seq<Pair> {
    if pairs == [] then []
    else Insert(pairs[|pairs| - 1], Sort(pairs[..|pairs| - 1]))
  }

  ghost predicate IsSorted(pairs: seq<Pair>) {
    forall i, j :: 0 <= i < j < |pairs| ==> Before(pairs[i], pairs[j])
  }

  function WithKey(pairs: seq<Pair>, key: Pair): seq<Pair> {
    if pairs == [] then []
    else
      var n := |pairs| - 1;
      WithKey(pairs[..n], key) + if SameKey(pairs[n], key) then [pairs[n]] else []
  }

  lemma {:induction false} InsertKeepsPairs(p: Pair, sorted: seq<Pair>)
    ensures multiset(Insert(p, sorted)) == multiset(sorted) + multiset{p}
  {
    if sorted != [] {
      var n := |sorted| - 1;
      assert sorted == sorted[..n] + [sorted[n]];
      if !Before(sorted[n], p) { InsertKeepsPairs(p, sorted[..n]); }
    }
  }

  lemma {:induction false} InsertSorts(p: Pair, sorted: seq<Pair>)
    requires IsSorted(sorted)
    ensures IsSorted(Insert(p, sorted))
  {
    if sorted != [] {
      var n := |sorted| - 1;
      if !Before(sorted[n], p) {
        InsertSorts(p, sorted[..n]);
        InsertKeepsPairs(p, sorted[..n]);
        var rest := Insert(p, sorted[..n]);
        forall i | 0 <= i < |rest| ensures Before(rest[i], sorted[n]) {
          assert rest[i] in multiset(rest);
          assert rest[i] == p || rest[i] in sorted[..n];
        }
        hide Before;
      } else {
        forall i | 0 <= i < n ensures Before(sorted[i], p) { assert Before(sorted[i], sorted[n]); }
        hide Before;
      }
    }
  }

  lemma {:induction false} InsertIsStable(p: Pair, sorted: seq<Pair>, key: Pair)
    ensures WithKey(Insert(p, sorted), key) == WithKey(sorted + [p], key)
  {
    assert (sorted + [p])[..|sorted|] == sorted;
    if sorted != [] {
      var n := |sorted| - 1;
      var last := sorted[n];
      if !Before(last, p) {
        InsertIsStable(p, sorted[..n], key);
        var rest := Insert(p, sorted[..n]);
        assert (rest + [last])[..|rest|] == rest;
        assert (sorted[..n] + [p])[..n] == sorted[..n];
        assert !SameKey(last, p);
      }
    }
  }

  lemma {:induction false} SortKeepsPairs(pairs: seq<Pair>)
    ensures multiset(Sort(pairs)) == multiset(pairs)
  {
    if pairs != [] {
      hide Insert;
      var front, last := pairs[..|pairs| - 1], pairs[|pairs| - 1];
      assert Sort(pairs) == Insert(last, Sort(front));
      hide Sort;
      SortKeepsPairs(front);
      InsertKeepsPairs(last, Sort(front));
      assert multiset(pairs) == multiset(front) + multiset{last} by { assert pairs == front + [last]; }
    }
  }

  lemma SortedMembers(pairs: seq<Pair>)
    ensures forall i :: 0 <= i < |Sort(pairs)| ==> Sort(pairs)[i] in pairs
  {
    SortKeepsPairs(pairs);
    forall i | 0 <= i < |Sort(pairs)| ensures Sort(pairs)[i] in pairs {
      assert Sort(pairs)[i] in multiset(Sort(pairs));
    }
  }

  lemma {:induction false} SortSorts(pairs: seq<Pair>)
    ensures IsSorted(Sort(pairs))
  {
    if pairs != [] {
      SortSorts(pairs[..|pairs| - 1]);
      InsertSorts(pairs[|pairs| - 1], Sort(pairs[..|pairs| - 1]));
      hide IsSorted, Insert;
    }
  }

  /** Pairs with equal keys, which may still differ in their text, keep their payload order. */
  lemma {:induction false} SortIsStable(pairs: seq<Pair>, key: Pair)
    ensures WithKey(Sort(pairs), key) == WithKey(pairs, key)
  {
    if pairs != [] {
      var n := |pairs| - 1;
      SortIsStable(pairs[..n], key);
      var sorted := Sort(pairs[..n]);
      InsertIsStable(pairs[n], sorted, key);
      hide Insert, SameKey;
      assert (sorted + [pairs[n]])[..|sorted|] == sorted;
    }
  }

  // ----- the mapper -----

  function ResolveSourceDomain(web: Web, extractDomain: string -> Option<string>): Option<string> {
    if web.domain.Some? && web.domain.value != "" then web.domain
    else if web.title.Some? && web.title.value != "" then web.title
    else if web.uri.Some? && web.uri.value != "" then extractDomain(web.uri.value)
    else None
  }

  /** One citation to be: a chunk, and the pair it comes from unless no support points at it. */
  datatype Link = Link(chunk: nat, pair: Option<Pair>)

  function CitationFromChunk(
    chunk: Option<Chunk>, position: nat, pair: Option<Pair>, extractDomain: string -> Option<string>): Citation
  {
    var web := if chunk.Some? && chunk.value.web.Some? then chunk.value.web.value else Web(None, None, None);
    var span := if pair.Some? then pair.value.text else None;
    var start := if pair.Some? then Some(pair.value.start) else None;
    var end := if pair.Some? then pair.value.end else None;
    Citation(web.uri, web.title, ResolveSourceDomain(web, extractDomain), position, span, start, end, None)
  }

  function Cited(pairs: seq<Pair>): set<nat> {
    set p | p in pairs :: p.chunk
  }

  function PairLinks(sorted: seq<Pair>): (r: seq<Link>)
    ensures |r| == |sorted|
  {
    seq(|sorted|, i requires 0 <= i < |sorted| => Link(sorted[i].chunk, Some(sorted[i])))
  }

  /** The chunks below `upTo` that no support points at, in chunk order. */
  function Leftovers(cited: set<nat>, upTo: nat): seq<nat> {
    if upTo == 0 then [] else Leftovers(cited, upTo - 1) + if upTo - 1 in cited then [] else [upTo - 1]
  }

  function LeftoverLinks(chunks: seq<nat>): (r: seq<Link>)
    ensures |r| == |chunks|
  {
    seq(|chunks|, i requires 0 <= i < |chunks| => Link(chunks[i], None))
  }

  function Links(m: Metadata): seq<Link> {
    var pairs := PairsOf(m.supports, |m.chunks|);
    PairLinks(Sort(pairs)) + LeftoverLinks(Leftovers(Cited(pairs), |m.chunks|))
  }

  /** `citations` are `links` in order, positions counting up. */
  ghost predicate Realises(
    citations: seq<Citation>, links: seq<Link>, m: Metadata, extractDomain: string -> Option<string>)
  {
    && |citations| == |links|
    && forall i :: 0 <= i < |links| ==>
         && links[i].chunk < |m.chunks|
         && citations[i] == CitationFromChunk(m.chunks[links[i].chunk], i, links[i].pair, extractDomain)
  }

  method MapCitations(payload: Payload, extractDomain: string -> Option<string>)
    returns (citations: seq<Citation>, hasCitations: bool)
    ensures var m := GroundingMetadata(payload);
            Realises(citations, if m.chunks == [] then [] else Links(m), m, extractDomain)
    ensures hasCitations <==> citations != []
  {
    var m := GroundingMetadata(payload);
    if m.chunks == [] {
      return [], false;
    }
    var pairs, cited := CollectPairs(m);
    hide CitationFromChunk, Sort, PairsOf, Leftovers;
    SortedMembers(pairs);
    var sorted := Sort(pairs);
    assert forall i :: 0 <= i < |sorted| ==> sorted[i].chunk < |m.chunks|;
    citations := seq(|sorted|, i requires 0 <= i < |sorted| =>
      CitationFromChunk(m.chunks[sorted[i].chunk], i, Some(sorted[i]), extractDomain));
    citations := CiteLeftovers(m, cited, citations, PairLinks(sorted), extractDomain);
    hasCitations := true;
    EveryChunkAppears(m, 0);
  }

  method CiteLeftovers(
    m: Metadata, cited: set<nat>, before: seq<Citation>, ghost head: seq<Link>, extractDomain: string -> Option<string>)
    returns (citations: seq<Citation>)
    requires Realises(before, head, m, extractDomain)
    ensures Realises(citations, head + LeftoverLinks(Leftovers(cited, |m.chunks|)), m, extractDomain)
  {
    hide CitationFromChunk;
    citations := before;
    assert head + LeftoverLinks([]) == head;
    for k := 0 to |m.chunks|
      invariant Realises(citations, head + LeftoverLinks(Leftovers(cited, k)), m, extractDomain)
    {
      if k !in cited {
        OneMoreLeftover(citations, head, Leftovers(cited, k), k, m, extractDomain);
        citations := citations + [CitationFromChunk(m.chunks[k], |citations|, None, extractDomain)];
      } else {
        assert Leftovers(cited, k + 1) == Leftovers(cited, k);
      }
    }
  }

  lemma OneMoreLeftover(
    citations: seq<Citation>, head: seq<Link>, rest: seq<nat>, k: nat, m: Metadata,
    extractDomain: string -> Option<string>)
    requires k < |m.chunks| && Realises(citations, head + LeftoverLinks(rest), m, extractDomain)
    ensures Realises(citations + [CitationFromChunk(m.chunks[k], |citations|, None, extractDomain)],
                     head + LeftoverLinks(rest + [k]), m, extractDomain)
  {
    hide CitationFromChunk;
    assert LeftoverLinks(rest + [k]) == LeftoverLinks(rest) + [Link(k, None)];
    assert head + (LeftoverLinks(rest) + [Link(k, None)]) == (head + LeftoverLinks(rest)) + [Link(k, None)];
  }

  method CollectPairs(m: Metadata) returns (pairs: seq<Pair>, cited: set<nat>)
    ensures pairs == PairsOf(m.supports, |m.chunks|) && cited == Cited(pairs)
    ensures forall p :: p in pairs ==> p.chunk < |m.chunks|
  {
    pairs, cited := [], {};
    for i := 0 to |m.supports|
      invariant pairs == PairsOf(m.supports[..i], |m.chunks|) && cited == Cited(pairs)
      invariant forall p :: p in pairs ==> p.chunk < |m.chunks|
    {
      assert m.supports[..i + 1][..i] == m.supports[..i];
      if m.supports[i].Some? {
        var s := m.supports[i].value;
        ghost var before := pairs;
        for j := 0 to |s.chunkIndices|
          invariant pairs == before + SupportPairs(s, s.chunkIndices[..j], |m.chunks|) && cited == Cited(pairs)
          invariant forall p :: p in pairs ==> p.chunk < |m.chunks|
        {
          assert s.chunkIndices[..j + 1][..j] == s.chunkIndices[..j];
          if IsValid(s.chunkIndices[j], |m.chunks|) {
            var p := PairOf(s, s.chunkIndices[j], |m.chunks|);
            assert forall q :: q in pairs + [p] <==> q in pairs || q == p;
            pairs := pairs + [p];
            cited := cited + {p.chunk};
          }
        }
        assert s.chunkIndices[..|s.chunkIndices|] == s.chunkIndices;
      }
    }
    assert m.supports[..|m.supports|] == m.supports;
  }

  // ----- nothing is lost -----

  /** The places in the payload where a support names an existing chunk. */
  ghost function ValidPlaces(supports: seq<Option<Support>>, chunkCount: nat): set<(nat, nat)> {
    set i: nat, j: nat | i < |supports| && j < |IndicesOf(supports[i])| && IsValid(IndicesOf(supports[i])[j], chunkCount)
      :: (i, j)
  }

  ghost function ValidIndices(row: nat, indices: seq<Index>, chunkCount: nat): set<(nat, nat)> {
    set j: nat | j < |indices| && IsValid(indices[j], chunkCount) :: (row, j)
  }

  lemma {:induction false} OnePairPerIndex(s: Support, row: nat, indices: seq<Index>, chunkCount: nat)
    ensures |SupportPairs(s, indices, chunkCount)| == |ValidIndices(row, indices, chunkCount)|
  {
    if indices != [] {
      var n := |indices| - 1;
      OnePairPerIndex(s, row, indices[..n], chunkCount);
      var before := ValidIndices(row, indices[..n], chunkCount);
      if IsValid(indices[n], chunkCount) {
        assert ValidIndices(row, indices, chunkCount) == before + {(row, n)};
      } else {
        assert ValidIndices(row, indices, chunkCount) == before;
      }
    } else {
      assert ValidIndices(row, indices, chunkCount) == {};
    }
  }

  lemma PlacesOfLastSupport(supports: seq<Option<Support>>, chunkCount: nat)
    requires supports != []
    ensures var n := |supports| - 1;
            var before, last := ValidPlaces(supports[..n], chunkCount), ValidIndices(n, IndicesOf(supports[n]), chunkCount);
            && ValidPlaces(supports, chunkCount) == before + last
            && before !! last
  {
    hide IsValid, IndicesOf;
    var n := |supports| - 1;
    var before, last := ValidPlaces(supports[..n], chunkCount), ValidIndices(n, IndicesOf(supports[n]), chunkCount);
    forall i: nat, j: nat ensures (i, j) in ValidPlaces(supports, chunkCount) <==> (i, j) in before + last {
      if i < n { assert supports[..n][i] == supports[i]; }
    }
  }

  /** There is one pair for each place where a support names an existing chunk. */
  lemma {:induction false} OnePairPerPlace(supports: seq<Option<Support>>, chunkCount: nat)
    ensures |PairsOf(supports, chunkCount)| == |ValidPlaces(supports, chunkCount)|
  {
    if supports == [] {
      assert ValidPlaces(supports, chunkCount) == {};
    } else {
      var n := |supports| - 1;
      OnePairPerPlace(supports[..n], chunkCount);
      PlacesOfLastSupport(supports, chunkCount);
      if supports[n].Some? {
        OnePairPerIndex(supports[n].value, n, supports[n].value.chunkIndices, chunkCount);
      } else {
        assert ValidIndices(n, IndicesOf(supports[n]), chunkCount) == {};
      }
      hide ValidPlaces, ValidIndices, SupportPairs;
    }
  }

  lemma {:induction false} LeftoversAreUncited(cited: set<nat>, upTo: nat)
    ensures forall k: nat :: k in Leftovers(cited, upTo) <==> k < upTo && k !in cited
    ensures forall i, j :: 0 <= i < j < |Leftovers(cited, upTo)| ==> Leftovers(cited, upTo)[i] < Leftovers(cited, upTo)[j]
  {
    if upTo > 0 {
      var last := upTo - 1;
      LeftoversAreUncited(cited, last);
      var before, all := Leftovers(cited, last), Leftovers(cited, upTo);
      forall i | 0 <= i < |before| ensures before[i] < last { assert before[i] in before; }
      if last in cited {
        assert all == before;
      } else {
        assert all == before + [last];
      }
    }
  }

  /** The citations, as links: first a sorted permutation of all valid pairs, then each chunk no
      support points at, once and in chunk order; nothing else. */
  lemma LinksConserveGrounding(m: Metadata)
    ensures var pairs := PairsOf(m.supports, |m.chunks|);
            var sorted := Sort(pairs);
            var rest := Leftovers(Cited(pairs), |m.chunks|);
            && Links(m) == PairLinks(sorted) + LeftoverLinks(rest)
            && IsSorted(sorted) && multiset(sorted) == multiset(pairs)
            && (forall i, j :: 0 <= i < j < |rest| ==> rest[i] < rest[j])
            && (forall k: nat :: k in rest <==> k < |m.chunks| && forall p :: p in pairs ==> p.chunk != k)
            && |Links(m)| == |ValidPlaces(m.supports, |m.chunks|)| + |rest|
  {
    var pairs := PairsOf(m.supports, |m.chunks|);
    SortSorts(pairs);
    SortKeepsPairs(pairs);
    OnePairPerPlace(m.supports, |m.chunks|);
    LeftoversAreUncited(Cited(pairs), |m.chunks|);
    assert |Sort(pairs)| == |multiset(Sort(pairs))| == |multiset(pairs)| == |pairs|;
  }

  lemma LeftoverAppears(m: Metadata, k: nat)
    requires k in Leftovers(Cited(PairsOf(m.supports, |m.chunks|)), |m.chunks|)
    ensures exists i :: 0 <= i < |Links(m)| && Links(m)[i].chunk == k
  {
    var pairs := PairsOf(m.supports, |m.chunks|);
    var rest := Leftovers(Cited(pairs), |m.chunks|);
    var j :| 0 <= j < |rest| && rest[j] == k;
    hide Sort, PairsOf, Leftovers;
    assert Links(m)[|Sort(pairs)| + j] == LeftoverLinks(rest)[j];
  }

  lemma PairAppears(m: Metadata, p: Pair)
    requires p in PairsOf(m.supports, |m.chunks|)
    ensures exists i :: 0 <= i < |Links(m)| && Links(m)[i].chunk == p.chunk
  {
    var pairs := PairsOf(m.supports, |m.chunks|);
    SortKeepsPairs(pairs);
    hide Sort, PairsOf, Leftovers;
    assert p in multiset(Sort(pairs));
    var i :| 0 <= i < |Sort(pairs)| && Sort(pairs)[i] == p;
    assert Links(m)[i] == PairLinks(Sort(pairs))[i];
  }

  /** Every source the payload lists appears, cited or not. */
  lemma EveryChunkAppears(m: Metadata, k: nat)
    ensures k < |m.chunks| ==> exists i :: 0 <= i < |Links(m)| && Links(m)[i].chunk == k
  {
    if k < |m.chunks| {
      var pairs := PairsOf(m.supports, |m.chunks|);
      LeftoversAreUncited(Cited(pairs), |m.chunks|);
      hide Links, PairsOf, Leftovers;
      if k in Leftovers(Cited(pairs), |m.chunks|) {
        LeftoverAppears(m, k);
      } else {
        var p :| p in pairs && p.chunk == k;
        PairAppears(m, p);
      }
    }
  }

  // ----- field by field -----

  /** The pair a support's index at this place stands for: the segment's start, or 0 without one, its end
      and text, and the number of the chunk. */
  predicate Reads(p: Pair, s: Support, x: Index) {
    && (match s.segment
        case None => p.start == 0 && p.end == None && p.text == None
        case Some(seg) =>
          p.end == seg.endIndex && p.text == seg.text
          && match seg.startIndex
             case None => p.start == 0
             case Some(start) => p.start == start)
    && match x
       case IntIndex(i) => p.chunk == i
       case BoolIndex(b) => p.chunk == if b then 1 else 0
       case NotAnIndex => false
  }

  /** Support number `i` names the pair's chunk at its place `j`. */
  ghost predicate IsNamedAt(p: Pair, supports: seq<Option<Support>>, i: nat, j: nat) {
    && i < |supports| && supports[i].Some? && j < |supports[i].value.chunkIndices|
    && Reads(p, supports[i].value, supports[i].value.chunkIndices[j])
  }

  lemma {:induction false} SupportPairsRead(s: Support, indices: seq<Index>, chunkCount: nat, p: Pair)
    ensures p in SupportPairs(s, indices, chunkCount) <==>
              p.chunk < chunkCount && exists j :: 0 <= j < |indices| && Reads(p, s, indices[j])
  {
    if indices != [] {
      var n := |indices| - 1;
      SupportPairsRead(s, indices[..n], chunkCount, p);
      assert indices == indices[..n] + [indices[n]];
      assert p.chunk < chunkCount && Reads(p, s, indices[n])
        <==> IsValid(indices[n], chunkCount) && p == PairOf(s, indices[n], chunkCount);
      hide Reads, IsValid, PairOf;
      assert forall j :: 0 <= j < n ==> indices[..n][j] == indices[j];
    }
  }

  /** The pairs are exactly what the supports name among the chunks there are. */
  lemma {:induction false} PairsAreNamed(supports: seq<Option<Support>>, chunkCount: nat, p: Pair)
    ensures p in PairsOf(supports, chunkCount) <==>
              p.chunk < chunkCount && exists i: nat, j: nat :: IsNamedAt(p, supports, i, j)
  {
    if supports != [] {
      var n := |supports| - 1;
      PairsAreNamed(supports[..n], chunkCount, p);
      var last := supports[n];
      if last.Some? { SupportPairsRead(last.value, last.value.chunkIndices, chunkCount, p); }
      hide Reads, SupportPairs;
      NamedBeforeOrLast(supports, p);
    }
  }

  ghost predicate IsNamedBy(p: Pair, s: Support) {
    exists j :: 0 <= j < |s.chunkIndices| && Reads(p, s, s.chunkIndices[j])
  }

  lemma NamedBeforeOrLast(supports: seq<Option<Support>>, p: Pair)
    requires supports != []
    ensures var n := |supports| - 1;
            (exists i: nat, j: nat :: IsNamedAt(p, supports, i, j)) <==>
              || (exists i: nat, j: nat :: IsNamedAt(p, supports[..n], i, j))
              || (supports[n].Some? && IsNamedBy(p, supports[n].value))
  {
    hide Reads;
    var n := |supports| - 1;
    forall i: nat, j: nat | i < n ensures IsNamedAt(p, supports[..n], i, j) <==> IsNamedAt(p, supports, i, j) {
    }
    if supports[n].Some? && IsNamedBy(p, supports[n].value) {
      var j :| 0 <= j < |supports[n].value.chunkIndices| && Reads(p, supports[n].value, supports[n].value.chunkIndices[j]);
      assert IsNamedAt(p, supports, n, j);
    }
  }

  function WebOf(chunk: Option<Chunk>): Option<Web> {
    match chunk
    case Some(Chunk(web)) => web
    case None => None
  }

  /** The first of the chunk's domain, its title and the domain of its address that is given. */
  predicate IsDomain(d: Option<string>, web: Web, extractDomain: string -> Option<string>) {
    if IsGiven(web.domain) then d == web.domain
    else if IsGiven(web.title) then d == web.title
    else if IsGiven(web.uri) then d == extractDomain(web.uri.value)
    else d == None
  }

  predicate IsGiven(s: Option<string>) {
    s.Some? && |s.value| > 0
  }

  /** A citation shows its chunk's address and title, and its pair's place in the answer. */
  predicate Shows(c: Citation, chunk: Option<Chunk>, pair: Option<Pair>, extractDomain: string -> Option<string>) {
    && c.sourcePassage == None
    && (match WebOf(chunk)
        case Some(web) => c.sourceUrl == web.uri && c.sourceTitle == web.title && IsDomain(c.sourceDomain, web, extractDomain)
        case None => c.sourceUrl == None && c.sourceTitle == None && c.sourceDomain == None)
    && match pair
       case Some(p) => c.citedAnswerSpan == p.text && c.answerSpanStart == Some(p.start) && c.answerSpanEnd == p.end
       case None => c.citedAnswerSpan == None && c.answerSpanStart == None && c.answerSpanEnd == None
  }

  /** Citation number `i` of what the mapper returns shows link number `i`. */
  lemma CitationsShowLinks(
    citations: seq<Citation>, m: Metadata, extractDomain: string -> Option<string>, i: nat)
    requires Realises(citations, Links(m), m, extractDomain) && i < |citations|
    ensures |citations| == |Links(m)| && Links(m)[i].chunk < |m.chunks|
    ensures citations[i].position == i
    ensures Shows(citations[i], m.chunks[Links(m)[i].chunk], Links(m)[i].pair, extractDomain)
  {
    hide Links;
  }

  /** Where a pair ends; one without an end comes before all that end at 0 or later. */
  function End(p: Pair): int {
    match p.end
    case Some(e) => e
    case None => -1
  }

  /** By start, then by end, then by chunk. */
  lemma SortsByKey(pairs: seq<Pair>, i: nat, j: nat)
    requires i < j < |Sort(pairs)|
    ensures var a, b := Sort(pairs)[i], Sort(pairs)[j];
            && a.start <= b.start
            && (a.start == b.start ==> End(a) <= End(b))
            && (a.start == b.start && End(a) == End(b) ==> a.chunk <= b.chunk)
  {
    SortSorts(pairs);
    assert Before(Sort(pairs)[i], Sort(pairs)[j]);
    hide Sort;
  }
}
