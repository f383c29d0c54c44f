/** app/services/cost.py: the SQL expression and the Python function agree on every payload that
    carries one provider's keys, for every price history. */
module CostTwins {
  import opened Options
  import opened PriceHistory
  import opened Cost
  import opened CostSql

  // ----- which payloads -----

  predicate IsShape(s: Shape) {
    s == GEMINI || s == OPENAI || s == ANTHROPIC || s == PERPLEXITY || s == DEEPSEEK || s == PLAIN
  }

  predicate WritesKey(paths: List<WritePath>, k: Key) {
    match paths
    case Nil => false
    case Cons(p, rest) => (p.path != [] && p.path[0] == k) || WritesKey(rest, k)
  }

  predicate WritesAt(paths: List<WritePath>, place: Path) {
    match paths
    case Nil => false
    case Cons(p, rest) => p.path == place || WritesAt(rest, place)
  }

  /** The shape looks at this top-level key. */
  predicate LooksAt(s: Shape, k: Key) {
    || s.inputKey == k || s.outputKey == k
    || (s.cacheReadPath.Some? && s.cacheReadPath.value != [] && s.cacheReadPath.value[0] == k)
    || WritesKey(s.cacheWritePaths, k)
  }

  /** The shape reads a count at this place. */
  predicate ReadsAt(s: Shape, place: Path) {
    place == [s.inputKey] || place == [s.outputKey] || s.cacheReadPath == Some(place) || WritesAt(s.cacheWritePaths, place)
  }

  predicate Reaches(usage: Usage, a: Key, b: Key) {
    a in usage && usage[a].JObject? && b in usage[a].fields
  }

  /** Of all the keys the shapes know, top-level and nested, the payload has only those of `s`; a
      Perplexity payload may also repeat its cache-read count under the other name. */
  ghost predicate CarriesOnly(usage: Usage, s: Shape) {
    && (forall t, k :: IsShape(t) && LooksAt(t, k) && k in usage ==> LooksAt(s, k))
    && (forall t, a, b :: IsShape(t) && ReadsAt(t, [a, b]) && Reaches(usage, a, b) ==>
          ReadsAt(s, [a, b]) || (s == PERPLEXITY && [a, b] == CACHED))
  }

  const CACHED: Path := [InputTokensDetails, CachedTokens]
  const CACHE_READ: Path := [InputTokensDetails, CacheReadInputTokens]

  /** Both names of Perplexity's cache-read count show the same number. */
  predicate CacheReadsAgree(usage: Usage) {
    OrZero(Tokens(usage, CACHED)) == OrZero(Tokens(usage, CACHE_READ))
  }

  lemma InputLists()
    ensures InputPaths(IO_PAIRS) == Cons([PromptTokenCount], Cons([InputTokens], Cons([PromptTokens], Nil)))
    ensures OutputPaths(IO_PAIRS) == Cons([CandidatesTokenCount], Cons([OutputTokens], Cons([CompletionTokens], Nil)))
  {
  }

  lemma CacheReadList()
    ensures CACHE_READ_PATHS == Cons([CachedContentTokenCount], Cons(CACHED, Cons([CacheReadInputTokens],
                                Cons(CACHE_READ, Cons([PromptCacheHitTokens], Nil)))))
  {
  }

  lemma CacheWriteLists()
    ensures CACHE_WRITE_PATHS == Cons([InputTokensDetails, CacheWriteTokens],
                                 Cons([InputTokensDetails, CacheCreationInputTokens], Nil))
    ensures Dedupe(WriteComponents(TOKEN_USAGE_SHAPES)) == Cons(CacheWrite, Cons(CacheWrite5m, Cons(CacheWrite1h, Nil)))
    ensures WritePathsFor(TOKEN_USAGE_SHAPES, CacheWrite5m) == Cons([CacheCreation, Ephemeral5m], Nil)
    ensures WritePathsFor(TOKEN_USAGE_SHAPES, CacheWrite1h) == Cons([CacheCreation, Ephemeral1h], Nil)
  {
  }

  // ----- both forms as one bill over counts -----

  datatype Counts = Counts(
    input: Option<real>, output: Option<real>, read: real, write: real, write5m: real, write1h: real,
    inputExcludesCache: bool)

  function Or2(a: Option<real>, b: Option<real>): Option<real> {
    if a.Some? then a else b
  }

  /** What the SQL chains find. */
  function SqlCounts(row: Row): Counts {
    Counts(
      Or2(RowTokens(row, [PromptTokenCount]), Or2(RowTokens(row, [InputTokens]), RowTokens(row, [PromptTokens]))),
      Or2(RowTokens(row, [CandidatesTokenCount]), Or2(RowTokens(row, [OutputTokens]), RowTokens(row, [CompletionTokens]))),
      OrZero(Or2(RowTokens(row, [CachedContentTokenCount]), Or2(RowTokens(row, CACHED),
             Or2(RowTokens(row, [CacheReadInputTokens]), Or2(RowTokens(row, CACHE_READ),
                 RowTokens(row, [PromptCacheHitTokens])))))),
      OrZero(Or2(RowTokens(row, [InputTokensDetails, CacheWriteTokens]),
                 RowTokens(row, [InputTokensDetails, CacheCreationInputTokens]))),
      OrZero(RowTokens(row, [CacheCreation, Ephemeral5m])),
      OrZero(RowTokens(row, [CacheCreation, Ephemeral1h])),
      LooksAnthropic(row))
  }

  /** What the Python form reads through one shape. */
  function ShapeCounts(usage: Usage, s: Shape): Counts {
    Counts(Tokens(usage, [s.inputKey]), Tokens(usage, [s.outputKey]), CacheReadTokens(usage, s),
           if s == OPENAI then OrZero(Tokens(usage, [InputTokensDetails, CacheWriteTokens]))
           else if s == PERPLEXITY then OrZero(Tokens(usage, [InputTokensDetails, CacheCreationInputTokens])) else 0.0,
           if s == ANTHROPIC then OrZero(Tokens(usage, [CacheCreation, Ephemeral5m])) else 0.0,
           if s == ANTHROPIC then OrZero(Tokens(usage, [CacheCreation, Ephemeral1h])) else 0.0,
           s == ANTHROPIC)
  }

  predicate Unpriced(c: Counts, prices: map<Component, real>) {
    || (c.read != 0.0 && CacheRead !in prices) || (c.write != 0.0 && CacheWrite !in prices)
    || (c.write5m != 0.0 && CacheWrite5m !in prices) || (c.write1h != 0.0 && CacheWrite1h !in prices)
  }

  function PriceOr0(c: Component, prices: map<Component, real>): real {
    if c in prices then prices[c] else 0.0
  }

  function Bill(c: Counts, prices: map<Component, real>): Option<real> {
    if c.input.None? || c.output.None? || Input !in prices || Output !in prices || Unpriced(c, prices) then None
    else
      var billable := Positive(c.input.value - if c.inputExcludesCache then 0.0 else c.read + c.write);
      Some(Charge(billable, prices[Input]) + Charge(c.output.value, prices[Output])
           + Charge(c.read, PriceOr0(CacheRead, prices)) + Charge(c.write, PriceOr0(CacheWrite, prices))
           + Charge(c.write5m, PriceOr0(CacheWrite5m, prices)) + Charge(c.write1h, PriceOr0(CacheWrite1h, prices)))
  }

  lemma ChainCons(row: Row, p: Path, rest: List<Path>)
    ensures Chain(row, Cons(p, rest)) == Or2(RowTokens(row, p), Chain(row, rest))
    ensures Chain(row, Cons(p, Nil)) == RowTokens(row, p)
  {
    hide RowTokens;
    assert Chain(row, Nil) == None;
  }

  lemma ChainThree(row: Row, a: Path, b: Path, c: Path)
    ensures Chain(row, Cons(a, Cons(b, Cons(c, Nil))))
            == Or2(RowTokens(row, a), Or2(RowTokens(row, b), RowTokens(row, c)))
  {
    ChainCons(row, c, Nil);
    ChainCons(row, b, Cons(c, Nil));
    ChainCons(row, a, Cons(b, Cons(c, Nil)));
    hide RowTokens, Chain;
  }

  lemma ChainInput(row: Row)
    ensures Chain(row, InputPaths(IO_PAIRS)) == SqlCounts(row).input
    ensures Chain(row, OutputPaths(IO_PAIRS)) == SqlCounts(row).output
  {
    InputLists();
    ChainThree(row, [PromptTokenCount], [InputTokens], [PromptTokens]);
    ChainThree(row, [CandidatesTokenCount], [OutputTokens], [CompletionTokens]);
    hide RowTokens, Dedupe, IoPairs, InputPaths, OutputPaths, Chain, LooksAnthropic;
  }

  lemma ChainCaches(row: Row)
    ensures OrZero(Chain(row, CACHE_READ_PATHS)) == SqlCounts(row).read
    ensures OrZero(Chain(row, CACHE_WRITE_PATHS)) == SqlCounts(row).write
  {
    CacheReadList();
    CacheWriteLists();
    hide RowTokens, Dedupe, CacheReadPaths, WritePathsFor, LooksAnthropic, Chain;
    var three := Cons([CacheReadInputTokens], Cons(CACHE_READ, Cons([PromptCacheHitTokens], Nil)));
    ChainThree(row, [CacheReadInputTokens], CACHE_READ, [PromptCacheHitTokens]);
    ChainCons(row, CACHED, three);
    ChainCons(row, [CachedContentTokenCount], Cons(CACHED, three));
    ChainCons(row, [InputTokensDetails, CacheCreationInputTokens], Nil);
    ChainCons(row, [InputTokensDetails, CacheWriteTokens], Cons([InputTokensDetails, CacheCreationInputTokens], Nil));
  }

  lemma ZeroIsFree(price: real)
    ensures Charge(0.0, price) == 0.0
  {
  }

  lemma TiersAre()
    ensures TIERS == Cons(Tier(CacheRead, CACHE_READ_PATHS), Cons(Tier(CacheWrite, CACHE_WRITE_PATHS),
                     Cons(Tier(CacheWrite5m, Cons([CacheCreation, Ephemeral5m], Nil)),
                     Cons(Tier(CacheWrite1h, Cons([CacheCreation, Ephemeral1h], Nil)), Nil))))
  {
    CacheWriteLists();
    hide Dedupe, CacheReadPaths, WritePathsFor, WriteComponents;
    var c := Cons(CacheWrite, Cons(CacheWrite5m, Cons(CacheWrite1h, Nil)));
    assert WriteTiers(TOKEN_USAGE_SHAPES, c.tail.tail)
        == Cons(Tier(CacheWrite1h, WritePathsFor(TOKEN_USAGE_SHAPES, CacheWrite1h)), Nil);
  }

  lemma TierSums(row: Row, c: Counts)
    requires c == SqlCounts(row)
    ensures SomeMissing(row, TIERS) == Unpriced(c, row.prices)
    ensures TierTotal(row, TIERS)
            == Charge(c.read, PriceOr0(CacheRead, row.prices)) + Charge(c.write, PriceOr0(CacheWrite, row.prices))
               + Charge(c.write5m, PriceOr0(CacheWrite5m, row.prices)) + Charge(c.write1h, PriceOr0(CacheWrite1h, row.prices))
  {
    TiersAre();
    ChainCaches(row);
    hide RowTokens, Charge, Tiers, LooksAnthropic;
    var p5, p1 := Cons([CacheCreation, Ephemeral5m], Nil), Cons([CacheCreation, Ephemeral1h], Nil);
    assert Chain(row, p5) == RowTokens(row, [CacheCreation, Ephemeral5m]);
    assert Chain(row, p1) == RowTokens(row, [CacheCreation, Ephemeral1h]);
    hide Chain;
    var t4 := Cons(Tier(CacheWrite1h, p1), Nil);
    var t3 := Cons(Tier(CacheWrite5m, p5), t4);
    var t2 := Cons(Tier(CacheWrite, CACHE_WRITE_PATHS), t3);
    assert TierTotal(row, t4) == Charge(c.write1h, PriceOr0(CacheWrite1h, row.prices));
    assert TierTotal(row, t3) == Charge(c.write5m, PriceOr0(CacheWrite5m, row.prices)) + TierTotal(row, t4);
    assert TierTotal(row, t2) == Charge(c.write, PriceOr0(CacheWrite, row.prices)) + TierTotal(row, t3);
    assert SomeMissing(row, t4) == TierMissing(row, t4.head);
    assert SomeMissing(row, t3) == (TierMissing(row, t3.head) || SomeMissing(row, t4));
    assert SomeMissing(row, t2) == (TierMissing(row, t2.head) || SomeMissing(row, t3));
  }

  lemma SqlFromParts(row: Row, c: Counts)
    requires !row.isFree
    requires c.input == Chain(row, InputPaths(IO_PAIRS)) && c.output == Chain(row, OutputPaths(IO_PAIRS))
    requires c.input.Some? ==>
               SqlBillable(row, c.input.value)
               == Positive(c.input.value - if c.inputExcludesCache then 0.0 else c.read + c.write)
    requires SomeMissing(row, TIERS) == Unpriced(c, row.prices)
    requires TierTotal(row, TIERS)
             == Charge(c.read, PriceOr0(CacheRead, row.prices)) + Charge(c.write, PriceOr0(CacheWrite, row.prices))
                + Charge(c.write5m, PriceOr0(CacheWrite5m, row.prices)) + Charge(c.write1h, PriceOr0(CacheWrite1h, row.prices))
    ensures SqlCost(row) == Bill(c, row.prices)
  {
    hide Chain, TierTotal, SomeMissing, Unpriced, Charge, PriceOr0, Positive, SqlBillable, InputPaths, OutputPaths;
    hide Dedupe, IoPairs, Tiers;
  }

  /** The SQL expression is one bill over what its chains find. */
  lemma SqlIsBill(row: Row)
    requires !row.isFree
    ensures SqlCost(row) == Bill(SqlCounts(row), row.prices)
  {
    var c := SqlCounts(row);
    ChainInput(row);
    ChainCaches(row);
    TierSums(row, c);
    assert c.inputExcludesCache == LooksAnthropic(row);
    hide SqlCounts, Chain, TierTotal, SomeMissing, Unpriced, Charge, LooksAnthropic, SqlCost, Bill, PriceOr0;
    hide InputPaths, OutputPaths, Dedupe, IoPairs, Tiers, CacheReadPaths, WritePathsFor;
    SqlFromParts(row, c);
  }

  lemma TierIsCharge(tokens: real, c: Component, prices: map<Component, real>)
    ensures TierCost(tokens, c, prices)
            == if tokens != 0.0 && c !in prices then None else Some(Charge(tokens, PriceOr0(c, prices)))
  {
    ZeroIsFree(PriceOr0(c, prices));
    hide Charge;
  }

  lemma WritesOf(usage: Usage, s: Shape, prices: map<Component, real>)
    requires IsShape(s)
    ensures var c := ShapeCounts(usage, s);
            && (s.includesCacheWrite ==> WriteTokens(usage, s.cacheWritePaths) == c.write)
            && (!s.includesCacheWrite ==> c.write == 0.0)
            && (!s.includesCacheRead ==> s.cacheReadPath.None? || c.inputExcludesCache)
            && WriteCost(usage, s.cacheWritePaths, prices)
               == Cost.Plus(TierCost(c.write, CacheWrite, prices),
                  Cost.Plus(TierCost(c.write5m, CacheWrite5m, prices), TierCost(c.write1h, CacheWrite1h, prices)))
  {
    hide Tokens, Charge, CacheReadTokens;
    if s == ANTHROPIC {
      var one := Cons(WritePath(CacheWrite1h, [CacheCreation, Ephemeral1h]), Nil);
      assert WriteCost(usage, one, prices)
          == TierCost(OrZero(Tokens(usage, [CacheCreation, Ephemeral1h])), CacheWrite1h, prices);
    } else if s == OPENAI || s == PERPLEXITY {
      assert WriteTokens(usage, s.cacheWritePaths) == OrZero(Tokens(usage, s.cacheWritePaths.head.path));
    }
  }

  lemma BillablesMatch(usage: Usage, s: Shape, input: real)
    requires IsShape(s)
    ensures var c := ShapeCounts(usage, s);
            BillableInput(usage, s, input) == Positive(input - if c.inputExcludesCache then 0.0 else c.read + c.write)
  {
    WritesOf(usage, s, map[]);
    var c := ShapeCounts(usage, s);
    assert c.read == CacheReadTokens(usage, s);
    assert s.cacheReadPath.None? ==> c.read == 0.0;
    assert c.inputExcludesCache ==> !s.includesCacheRead && !s.includesCacheWrite;
    assert !s.includesCacheRead ==> c.inputExcludesCache || c.read == 0.0;
    hide Tokens, WriteCost, TierCost, WriteTokens, CacheReadTokens, ShapeCounts;
  }

  lemma SumOfTiers(base: real, c: Counts, prices: map<Component, real>)
    ensures Cost.Plus(Cost.Plus(Some(base), TierCost(c.read, CacheRead, prices)),
              Cost.Plus(TierCost(c.write, CacheWrite, prices),
                Cost.Plus(TierCost(c.write5m, CacheWrite5m, prices), TierCost(c.write1h, CacheWrite1h, prices))))
            == if Unpriced(c, prices) then None
               else Some(base + Charge(c.read, PriceOr0(CacheRead, prices)) + Charge(c.write, PriceOr0(CacheWrite, prices))
                         + Charge(c.write5m, PriceOr0(CacheWrite5m, prices)) + Charge(c.write1h, PriceOr0(CacheWrite1h, prices)))
  {
    TierIsCharge(c.read, CacheRead, prices);
    TierIsCharge(c.write, CacheWrite, prices);
    TierIsCharge(c.write5m, CacheWrite5m, prices);
    TierIsCharge(c.write1h, CacheWrite1h, prices);
    hide Charge, TierCost, PriceOr0;
  }

  lemma ExactFromParts(usage: Usage, s: Shape, c: Counts, prices: map<Component, real>)
    requires c.input == Tokens(usage, [s.inputKey]) && c.output == Tokens(usage, [s.outputKey])
    requires c.read == CacheReadTokens(usage, s)
    requires WriteCost(usage, s.cacheWritePaths, prices)
             == Cost.Plus(TierCost(c.write, CacheWrite, prices),
                Cost.Plus(TierCost(c.write5m, CacheWrite5m, prices), TierCost(c.write1h, CacheWrite1h, prices)))
    requires c.input.Some? ==>
               BillableInput(usage, s, c.input.value)
               == Positive(c.input.value - if c.inputExcludesCache then 0.0 else c.read + c.write)
    ensures ExactCost(usage, s, prices) == Bill(c, prices)
  {
    hide Tokens, Charge, TierCost, WriteCost, CacheReadTokens, PriceOr0, Unpriced, Positive, BillableInput, Cost.Plus;
    if c.input.Some? && c.output.Some? && Input in prices && Output in prices {
      var base := Charge(BillableInput(usage, s, c.input.value), prices[Input]) + Charge(c.output.value, prices[Output]);
      SumOfTiers(base, c, prices);
    }
  }

  /** Reading through a shape and pricing tier by tier is one bill over that shape's counts. */
  lemma ExactIsBill(usage: Usage, s: Shape, prices: map<Component, real>)
    requires IsShape(s)
    ensures ExactCost(usage, s, prices) == Bill(ShapeCounts(usage, s), prices)
  {
    hide Tokens, TierCost, WriteCost, WriteTokens, CacheReadTokens, BillableInput, Cost.Plus, ExactCost, Bill, IsShape;
    var c := ShapeCounts(usage, s);
    WritesOf(usage, s, prices);
    if c.input.Some? { BillablesMatch(usage, s, c.input.value); }
    ExactFromParts(usage, s, c, prices);
  }

  // ----- one provider's keys -----

  lemma ReadOne(v: Json, k: Key)
    ensures ReadPath(v, [k]) == if v.JObject? && k in v.fields then v.fields[k] else JNull
  {
    assert [k][1..] == [];
    if v.JObject? && k in v.fields { assert ReadPath(v.fields[k], []) == v.fields[k]; }
  }

  lemma TokensTop(usage: Usage, k: Key)
    ensures Tokens(usage, [k]) == if k in usage && usage[k].JNumber? then Some(usage[k].value) else None
  {
    ReadOne(JObject(usage), k);
    hide ReadPath;
  }

  lemma TokensNested(usage: Usage, a: Key, b: Key)
    ensures Tokens(usage, [a, b])
            == if Reaches(usage, a, b) && usage[a].fields[b].JNumber? then Some(usage[a].fields[b].value) else None
  {
    ReadTwo(usage, a, b);
    if a in usage { ReadOne(usage[a], b); }
    hide ReadPath;
  }

  lemma ReadTwo(usage: Usage, a: Key, b: Key)
    ensures ReadPath(JObject(usage), [a, b]) == if a in usage then ReadPath(usage[a], [b]) else JNull
  {
    assert [a, b][1..] == [b];
  }

  predicate NoneOf(usage: Usage, keys: set<Key>) {
    forall k :: k in keys ==> k !in usage
  }

  /** A key that some shape looks at, but not `s`, is not in a payload that carries only `s`. */
  lemma KeyNotCarried(usage: Usage, s: Shape, t: Shape, k: Key)
    requires CarriesOnly(usage, s) && IsShape(t) && LooksAt(t, k) && !LooksAt(s, k)
    ensures k !in usage
  {
    hide LooksAt, IsShape;
  }

  lemma PlaceNotCarried(usage: Usage, s: Shape, t: Shape, a: Key, b: Key)
    requires CarriesOnly(usage, s) && IsShape(t) && ReadsAt(t, [a, b])
    requires !ReadsAt(s, [a, b]) && !(s == PERPLEXITY && [a, b] == CACHED)
    ensures !Reaches(usage, a, b)
  {
    hide ReadsAt, IsShape, Reaches;
  }

  lemma GeminiKeys(usage: Usage)
    requires CarriesOnly(usage, GEMINI)
    ensures NoneOf(usage, {InputTokens, OutputTokens, InputTokensDetails, CacheReadInputTokens, CacheCreation,
                           PromptTokens, CompletionTokens, PromptCacheHitTokens})
  {
    hide CarriesOnly;
    KeyNotCarried(usage, GEMINI, PLAIN, InputTokens);
    KeyNotCarried(usage, GEMINI, PLAIN, OutputTokens);
    KeyNotCarried(usage, GEMINI, OPENAI, InputTokensDetails);
    KeyNotCarried(usage, GEMINI, ANTHROPIC, CacheReadInputTokens);
    KeyNotCarried(usage, GEMINI, ANTHROPIC, CacheCreation);
    KeyNotCarried(usage, GEMINI, DEEPSEEK, PromptTokens);
    KeyNotCarried(usage, GEMINI, DEEPSEEK, CompletionTokens);
    KeyNotCarried(usage, GEMINI, DEEPSEEK, PromptCacheHitTokens);
  }

  lemma DeepseekKeys(usage: Usage)
    requires CarriesOnly(usage, DEEPSEEK)
    ensures NoneOf(usage, {InputTokens, OutputTokens, InputTokensDetails, CacheReadInputTokens, CacheCreation,
                           PromptTokenCount, CandidatesTokenCount, CachedContentTokenCount})
  {
    hide CarriesOnly;
    KeyNotCarried(usage, DEEPSEEK, PLAIN, InputTokens);
    KeyNotCarried(usage, DEEPSEEK, PLAIN, OutputTokens);
    KeyNotCarried(usage, DEEPSEEK, OPENAI, InputTokensDetails);
    KeyNotCarried(usage, DEEPSEEK, ANTHROPIC, CacheReadInputTokens);
    KeyNotCarried(usage, DEEPSEEK, ANTHROPIC, CacheCreation);
    KeyNotCarried(usage, DEEPSEEK, GEMINI, PromptTokenCount);
    KeyNotCarried(usage, DEEPSEEK, GEMINI, CandidatesTokenCount);
    KeyNotCarried(usage, DEEPSEEK, GEMINI, CachedContentTokenCount);
  }

  predicate CountsInputTokens(s: Shape) {
    s == OPENAI || s == ANTHROPIC || s == PERPLEXITY || s == PLAIN
  }

  lemma NoGeminiKeys(usage: Usage, s: Shape)
    requires CarriesOnly(usage, s) && CountsInputTokens(s)
    ensures NoneOf(usage, {PromptTokenCount, CandidatesTokenCount, CachedContentTokenCount})
  {
    hide CarriesOnly;
    KeyNotCarried(usage, s, GEMINI, PromptTokenCount);
    KeyNotCarried(usage, s, GEMINI, CandidatesTokenCount);
    KeyNotCarried(usage, s, GEMINI, CachedContentTokenCount);
  }

  lemma NoDeepseekKeys(usage: Usage, s: Shape)
    requires CarriesOnly(usage, s) && CountsInputTokens(s)
    ensures NoneOf(usage, {PromptTokens, CompletionTokens, PromptCacheHitTokens})
  {
    hide CarriesOnly;
    KeyNotCarried(usage, s, DEEPSEEK, PromptTokens);
    KeyNotCarried(usage, s, DEEPSEEK, CompletionTokens);
    KeyNotCarried(usage, s, DEEPSEEK, PromptCacheHitTokens);
  }

  lemma ResponsesKeys(usage: Usage, s: Shape)
    requires CarriesOnly(usage, s) && CountsInputTokens(s)
    ensures NoneOf(usage, {PromptTokenCount, CandidatesTokenCount, CachedContentTokenCount,
                           PromptTokens, CompletionTokens, PromptCacheHitTokens})
  {
    NoGeminiKeys(usage, s);
    NoDeepseekKeys(usage, s);
    hide CarriesOnly, CountsInputTokens;
  }

  lemma NoAnthropicKeys(usage: Usage, s: Shape)
    requires CarriesOnly(usage, s) && (s == OPENAI || s == PERPLEXITY || s == PLAIN)
    ensures NoneOf(usage, {CacheReadInputTokens, CacheCreation})
    ensures s == OPENAI ==> !Reaches(usage, InputTokensDetails, CacheReadInputTokens)
    ensures s == OPENAI ==> !Reaches(usage, InputTokensDetails, CacheCreationInputTokens)
    ensures s == PERPLEXITY ==> !Reaches(usage, InputTokensDetails, CacheWriteTokens)
    ensures s == PLAIN ==> InputTokensDetails !in usage
  {
    hide CarriesOnly;
    KeyNotCarried(usage, s, ANTHROPIC, CacheReadInputTokens);
    KeyNotCarried(usage, s, ANTHROPIC, CacheCreation);
    if s == OPENAI {
      PlaceNotCarried(usage, s, PERPLEXITY, InputTokensDetails, CacheReadInputTokens);
      PlaceNotCarried(usage, s, PERPLEXITY, InputTokensDetails, CacheCreationInputTokens);
    } else if s == PERPLEXITY {
      PlaceNotCarried(usage, s, OPENAI, InputTokensDetails, CacheWriteTokens);
    } else {
      KeyNotCarried(usage, s, OPENAI, InputTokensDetails);
    }
  }

  lemma NoDetailsKey(usage: Usage)
    requires CarriesOnly(usage, ANTHROPIC)
    ensures InputTokensDetails !in usage
  {
    hide CarriesOnly;
    KeyNotCarried(usage, ANTHROPIC, OPENAI, InputTokensDetails);
  }

  /** Both forms, before rounding and for a model that is not free, give the same bill. */
  ghost predicate SameBill(usage: Usage, prices: map<Component, real>) {
    var sql := Bill(SqlCounts(Row(Some(usage), false, prices)), prices);
    match SelectShape(usage)
    case None => sql == None
    case Some(s) => sql == Bill(ShapeCounts(usage, s), prices)
  }

  lemma AbsentCounts(usage: Usage)
    ensures forall k :: k !in usage ==> Tokens(usage, [k]) == None
    ensures forall a, b :: !Reaches(usage, a, b) ==> Tokens(usage, [a, b]) == None
  {
    forall k | k !in usage ensures Tokens(usage, [k]) == None { TokensTop(usage, k); }
    forall a, b | !Reaches(usage, a, b) ensures Tokens(usage, [a, b]) == None { TokensNested(usage, a, b); }
  }

  lemma GeminiSameBill(usage: Usage, prices: map<Component, real>)
    requires CarriesOnly(usage, GEMINI)
    ensures SameBill(usage, prices)
  {
    GeminiKeys(usage);
    AbsentCounts(usage);
    hide CarriesOnly, Unpriced, Charge;
  }

  lemma DeepseekSameBill(usage: Usage, prices: map<Component, real>)
    requires CarriesOnly(usage, DEEPSEEK)
    ensures SameBill(usage, prices)
  {
    DeepseekKeys(usage);
    AbsentCounts(usage);
    hide CarriesOnly, Unpriced, Charge;
  }

  lemma PlainSameBill(usage: Usage, prices: map<Component, real>)
    requires CarriesOnly(usage, PLAIN)
    ensures SameBill(usage, prices)
  {
    ResponsesKeys(usage, PLAIN);
    NoAnthropicKeys(usage, PLAIN);
    AbsentCounts(usage);
    hide CarriesOnly, Unpriced, Charge;
  }

  lemma OpenaiSameBill(usage: Usage, prices: map<Component, real>)
    requires CarriesOnly(usage, OPENAI)
    ensures SameBill(usage, prices)
  {
    ResponsesKeys(usage, OPENAI);
    NoAnthropicKeys(usage, OPENAI);
    AbsentCounts(usage);
    hide CarriesOnly, Unpriced, Charge;
  }

  lemma AnthropicSameBill(usage: Usage, prices: map<Component, real>)
    requires CarriesOnly(usage, ANTHROPIC)
    ensures SameBill(usage, prices)
  {
    ResponsesKeys(usage, ANTHROPIC);
    NoDetailsKey(usage);
    AbsentCounts(usage);
    hide CarriesOnly, Unpriced, Charge;
  }

  lemma PerplexitySameBill(usage: Usage, prices: map<Component, real>)
    requires CarriesOnly(usage, PERPLEXITY) && CacheReadsAgree(usage)
    ensures SameBill(usage, prices)
  {
    ResponsesKeys(usage, PERPLEXITY);
    NoAnthropicKeys(usage, PERPLEXITY);
    AbsentCounts(usage);
    hide CarriesOnly, Unpriced, Charge;
  }

  // ----- the twins -----

  ghost predicate OneProvider(usage: Usage) {
    exists s :: IsShape(s) && CarriesOnly(usage, s) && (s == PERPLEXITY ==> CacheReadsAgree(usage))
  }

  lemma OneProviderSameBill(usage: Usage, prices: map<Component, real>)
    requires OneProvider(usage)
    ensures SameBill(usage, prices)
  {
    var s :| IsShape(s) && CarriesOnly(usage, s) && (s == PERPLEXITY ==> CacheReadsAgree(usage));
    hide CarriesOnly, SameBill;
    if s == GEMINI { GeminiSameBill(usage, prices); }
    else if s == OPENAI { OpenaiSameBill(usage, prices); }
    else if s == ANTHROPIC { AnthropicSameBill(usage, prices); }
    else if s == PERPLEXITY { PerplexitySameBill(usage, prices); }
    else if s == DEEPSEEK { DeepseekSameBill(usage, prices); }
    else { PlainSameBill(usage, prices); }
  }

  lemma SelectedIsShape(usage: Usage)
    ensures SelectShape(usage).Some? ==> IsShape(SelectShape(usage).value)
  {
  }

  lemma NoPayloadNoCost(prices: map<Component, real>)
    ensures Bill(SqlCounts(Row(None, false, prices)), prices) == None
  {
  }

  /** `ORDER BY effective_from DESC LIMIT 1` over one component's rows effective by then; SQL may
      return any of several equally late ones. */
  ghost predicate IsSubqueryResult(history: seq<PriceRow>, at: Instant, c: Component, r: Option<real>) {
    && (r.None? <==> !HasEffective(history, at, c))
    && (r.Some? ==> exists i :: IsLatestRow(history, at, c, i) && history[i].price == r.value)
  }

  ghost predicate IsLatestRow(history: seq<PriceRow>, at: Instant, c: Component, i: int) {
    && 0 <= i < |history| && history[i].component == c && history[i].effectiveFrom <= at
    && forall j :: 0 <= j < |history| && history[j].component == c && history[j].effectiveFrom <= at ==>
         history[j].effectiveFrom <= history[i].effectiveFrom
  }

  ghost predicate AreSubqueryResults(history: seq<PriceRow>, at: Instant, q: map<Component, real>) {
    forall c :: IsSubqueryResult(history, at, c, if c in q then Some(q[c]) else None)
  }

  ghost predicate DistinctTimes(history: seq<PriceRow>) {
    forall i, j :: 0 <= i < j < |history| && history[i].component == history[j].component ==>
      history[i].effectiveFrom != history[j].effectiveFrom
  }

  /** Two ways to look a price up: the subqueries and the loop of `prices_at`. */
  lemma SubqueriesArePricesAt(history: seq<PriceRow>, at: Instant, q: map<Component, real>)
    requires DistinctTimes(history) && AreSubqueryResults(history, at, q)
    ensures q == PricesAt(history, at)
  {
    forall c ensures c in q <==> c in PricesAt(history, at)
      ensures c in q ==> q[c] == PricesAt(history, at)[c]
    {
      var r := if c in q then Some(q[c]) else None;
      assert IsSubqueryResult(history, at, c, r);
      var i := LatestIsInForce(history, at, c);
      if c in q {
        var j :| IsLatestRow(history, at, c, j) && history[j].price == q[c];
        assert history[i].effectiveFrom == history[j].effectiveFrom;
        assert i == j;
      }
    }
  }

  lemma ZeroRounds()
    ensures Round6(0.0) == 0.0
  {
    assert (0.0 * 1000000.0).Floor == 0;
  }

  /** The estimate before rounding. */
  function Unrounded(usage: Option<Usage>, prices: map<Component, real>): Option<real> {
    if usage.None? || SelectShape(usage.value).None? then None
    else ExactCost(usage.value, SelectShape(usage.value).value, prices)
  }

  lemma SameUnrounded(usage: Option<Usage>, prices: map<Component, real>)
    requires usage.Some? ==> OneProvider(usage.value)
    ensures SqlCost(Row(usage, false, prices)) == Unrounded(usage, prices)
  {
    SqlIsBill(Row(usage, false, prices));
    hide SqlCost, ExactCost, SelectShape, OneProvider, Bill, SqlCounts, ShapeCounts;
    if usage.Some? {
      OneProviderSameBill(usage.value, prices);
      SelectedIsShape(usage.value);
      if SelectShape(usage.value).Some? { ExactIsBill(usage.value, SelectShape(usage.value).value, prices); }
    } else {
      NoPayloadNoCost(prices);
    }
  }

  /** For every payload of one provider, every price history without two rows of a component at one
      instant, and every instant: the SQL expression is null exactly when the Python estimate is
      unknown; otherwise the estimate is the SQL value rounded to the nearest millionth. */
  lemma TwinsAgree(usage: Option<Usage>, isFree: bool, history: seq<PriceRow>, at: Instant, q: map<Component, real>)
    requires usage.Some? ==> OneProvider(usage.value)
    requires DistinctTimes(history) && AreSubqueryResults(history, at, q)
    ensures var sql := Eval(RunCostExpr(), Row(usage, isFree, q));
            var estimate := EstimateCost(usage, isFree, PricesAt(history, at));
            && (sql == VNull <==> estimate.None?)
            && (estimate.Some? ==>
                  && sql.VNum? && estimate.value == Round6(sql.r)
                  && -0.0000005 <= estimate.value - sql.r <= 0.0000005)
  {
    SubqueriesArePricesAt(history, at, q);
    RunCostEval(Row(usage, isFree, q));
    ZeroRounds();
    hide Round6, ExactCost, SelectShape, Eval, RunCostExpr, PricesAt, OneProvider;
    if isFree {
      assert SqlCost(Row(usage, isFree, q)) == Some(0.0);
    } else {
      SameUnrounded(usage, q);
    }
  }

  // ----- where the twins part -----

  const MAX_PRICE := 1000000.0

  /** The two forms' answers for one price list, as close as rounding allows. */
  ghost predicate TwinsMatch(usage: Usage, prices: map<Component, real>) {
    var sql := Eval(RunCostExpr(), Row(Some(usage), false, prices));
    var estimate := EstimateCost(Some(usage), false, prices);
    && (sql == VNull <==> estimate.None?)
    && (estimate.Some? ==> sql.VNum? && -0.0000005 <= estimate.value - sql.r <= 0.0000005)
  }

  /** What a caller can see in a Perplexity payload: `cached_tokens` is missing, or shows the same
      count as `cache_read_input_tokens`. */
  predicate CachedAddsNothing(usage: Usage) {
    Tokens(usage, CACHED).None? || Tokens(usage, CACHED).value == OrZero(Tokens(usage, CACHE_READ))
  }

  lemma PerplexityCounts(usage: Usage)
    requires CarriesOnly(usage, PERPLEXITY) && Reaches(usage, InputTokensDetails, CacheCreationInputTokens)
    ensures SelectShape(usage) == Some(PERPLEXITY)
    ensures var sql := SqlCounts(Row(Some(usage), false, map[]));
            var own := ShapeCounts(usage, PERPLEXITY);
            && sql == own.(read := sql.read)
            && sql.read == OrZero(Or2(Tokens(usage, CACHED), Tokens(usage, CACHE_READ)))
            && own.read == OrZero(Tokens(usage, CACHE_READ))
  {
    ResponsesKeys(usage, PERPLEXITY);
    NoAnthropicKeys(usage, PERPLEXITY);
    AbsentCounts(usage);
    hide CarriesOnly;
  }

  /** Input, output and writes for nothing, cache reads at `price`: the bill is the reads. */
  lemma OnlyReadsCost(c: Counts, price: real)
    requires c.input.Some? && c.output.Some? && c.write5m == 0.0 && c.write1h == 0.0
    ensures Bill(c, map[Input := 0.0, Output := 0.0, CacheWrite := 0.0, CacheRead := price]) == Some(Charge(c.read, price))
  {
    ZeroIsFree(0.0);
    var billable := Positive(c.input.value - if c.inputExcludesCache then 0.0 else c.read + c.write);
    NothingForNothing(billable);
    NothingForNothing(c.output.value);
    NothingForNothing(c.write);
    hide Charge, Positive;
  }

  lemma NothingForNothing(tokens: real)
    ensures Charge(tokens, 0.0) == 0.0
  {
  }

  /** A price that the price form takes. */
  predicate ArePrices(prices: map<Component, real>) {
    forall c :: c in prices ==> 0.0 <= prices[c] < MAX_PRICE
  }

  predicate IsWhole(r: Option<real>) {
    r.Some? ==> r.value == r.value.Floor as real
  }

  /** At two dollars a million tokens, counts that are not the same whole number cost visibly different. */
  lemma TwoDollarsShow(a: real, b: real)
    requires a == a.Floor as real && b == b.Floor as real && a != b
    ensures Charge(a, 2.0) - Charge(b, 2.0) >= 0.000002 || Charge(b, 2.0) - Charge(a, 2.0) >= 0.000002
  {
    assert a.Floor != b.Floor;
    assert a - b >= 1.0 || b - a >= 1.0;
  }

  lemma RoundingHidesLess(own: real, sql: real)
    requires sql - own >= 0.000002 || own - sql >= 0.000002
    ensures !(-0.0000005 <= Round6(own) - sql <= 0.0000005)
  {
    hide Round6;
  }

  lemma CachedMatters(usage: Usage)
    ensures CachedAddsNothing(usage) <==>
              OrZero(Or2(Tokens(usage, CACHED), Tokens(usage, CACHE_READ))) == OrZero(Tokens(usage, CACHE_READ))
  {
    hide Tokens;
  }

  lemma WholeReads(usage: Usage)
    requires IsWhole(Tokens(usage, CACHED)) && IsWhole(Tokens(usage, CACHE_READ))
    ensures var sql, own := OrZero(Or2(Tokens(usage, CACHED), Tokens(usage, CACHE_READ))), OrZero(Tokens(usage, CACHE_READ));
            sql == sql.Floor as real && own == own.Floor as real
  {
    hide Tokens;
    assert (0.0 as real).Floor == 0;
  }

  ghost predicate PricedPerplexity(usage: Usage) {
    && CarriesOnly(usage, PERPLEXITY) && Reaches(usage, InputTokensDetails, CacheCreationInputTokens)
    && Tokens(usage, [InputTokens]).Some? && Tokens(usage, [OutputTokens]).Some?
    && IsWhole(Tokens(usage, CACHED)) && IsWhole(Tokens(usage, CACHE_READ))
  }

  lemma PerplexityTwinsMatch(usage: Usage, prices: map<Component, real>)
    requires PricedPerplexity(usage) && CachedAddsNothing(usage)
    ensures TwinsMatch(usage, prices)
  {
    PerplexityCounts(usage);
    CachedMatters(usage);
    hide CarriesOnly, Tokens, CachedAddsNothing, SelectShape, SqlCounts, ShapeCounts, Bill, Eval, RunCostExpr;
    hide EstimateCost, Reaches, Round6, OrZero, Or2;
    TwinsByBills(usage, prices);
  }

  /** What the two forms read of a payload whose two cache-read fields disagree. */
  lemma ReadsDiffer(usage: Usage)
    requires PricedPerplexity(usage) && !CachedAddsNothing(usage)
    ensures SelectShape(usage) == Some(PERPLEXITY)
    ensures var own, sql := ShapeCounts(usage, PERPLEXITY), SqlCounts(Row(Some(usage), false, map[]));
            && sql == own.(read := sql.read) && sql.read != own.read
            && own.input.Some? && own.output.Some? && own.write5m == 0.0 && own.write1h == 0.0
            && sql.read == sql.read.Floor as real && own.read == own.read.Floor as real
  {
    PerplexityCounts(usage);
    CachedMatters(usage);
    PerplexityParts(usage);
    WholeReads(usage);
    hide CarriesOnly, Tokens, CachedAddsNothing, SelectShape, SqlCounts, ShapeCounts, Reaches, OrZero, Or2, IsWhole;
  }

  lemma PerplexityTwinsPart(usage: Usage) returns (prices: map<Component, real>)
    requires PricedPerplexity(usage) && !CachedAddsNothing(usage)
    ensures ArePrices(prices) && !TwinsMatch(usage, prices)
  {
    hide PricedPerplexity, CachedAddsNothing, SelectShape, SqlCounts, ShapeCounts, Bill, Eval, RunCostExpr, EstimateCost,
         Round6, Charge;
    ReadsDiffer(usage);
    var own, sql := ShapeCounts(usage, PERPLEXITY), SqlCounts(Row(Some(usage), false, map[]));
    prices := map[Input := 0.0, Output := 0.0, CacheWrite := 0.0, CacheRead := 2.0];
    TwinsByBills(usage, prices);
    OnlyReadsCost(own, 2.0);
    OnlyReadsCost(sql, 2.0);
    TwoDollarsShow(sql.read, own.read);
    RoundingHidesLess(Charge(own.read, 2.0), Charge(sql.read, 2.0));
  }

  /** A Perplexity payload with whole counts is priced alike by both forms, whatever prices the price
      form takes, exactly when its second cache-read field adds nothing to the first. */
  lemma PerplexityTwinsMatchIff(usage: Usage)
    requires PricedPerplexity(usage)
    ensures (forall prices :: ArePrices(prices) ==> TwinsMatch(usage, prices)) <==> CachedAddsNothing(usage)
  {
    hide PricedPerplexity, TwinsMatch, CachedAddsNothing;
    if CachedAddsNothing(usage) {
      forall prices | ArePrices(prices) ensures TwinsMatch(usage, prices) { PerplexityTwinsMatch(usage, prices); }
    } else {
      var prices := PerplexityTwinsPart(usage);
    }
  }

  lemma PerplexityParts(usage: Usage)
    ensures var own := ShapeCounts(usage, PERPLEXITY);
            && own.input == Tokens(usage, [InputTokens]) && own.output == Tokens(usage, [OutputTokens])
            && own.write5m == 0.0 && own.write1h == 0.0
  {
  }

  /** Both answers for a Perplexity payload as bills over its counts. */
  lemma TwinsByBills(usage: Usage, prices: map<Component, real>)
    requires SelectShape(usage) == Some(PERPLEXITY)
    ensures Eval(RunCostExpr(), Row(Some(usage), false, prices))
            == ToValue(Bill(SqlCounts(Row(Some(usage), false, map[])), prices))
    ensures var own := Bill(ShapeCounts(usage, PERPLEXITY), prices);
            EstimateCost(Some(usage), false, prices) == if own.Some? then Some(Round6(own.value)) else None
  {
    var row := Row(Some(usage), false, prices);
    RunCostEval(row);
    SqlIsBill(row);
    ExactIsBill(usage, PERPLEXITY, prices);
    assert SqlCounts(row) == SqlCounts(Row(Some(usage), false, map[])) by { CountsIgnorePrices(usage, prices); }
    hide Round6, ExactCost, Eval, RunCostExpr, Bill, ShapeCounts, SqlCounts, SqlCost;
  }

  lemma CountsIgnorePrices(usage: Usage, prices: map<Component, real>)
    ensures SqlCounts(Row(Some(usage), false, prices)) == SqlCounts(Row(Some(usage), false, map[]))
  {
    hide Tokens;
  }
}
