/** app/services/cost.py: what a run costs, in millionths of a dollar, said of the payload's own
    numbers and the prices per million tokens. */
module CostValues {
  import opened Options
  import opened PriceHistory
  import opened Cost
  import opened CostSql
  import CostTwins

  // ----- the payload's own numbers -----

  predicate Has(usage: Usage, k: Key) {
    k in usage && usage[k].JNumber?
  }

  predicate HasIn(usage: Usage, a: Key, b: Key) {
    a in usage && usage[a].JObject? && b in usage[a].fields && usage[a].fields[b].JNumber?
  }

  /** The number under a key; 0 when there is none. */
  function Num(usage: Usage, k: Key): real {
    if Has(usage, k) then usage[k].value else 0.0
  }

  function NumIn(usage: Usage, a: Key, b: Key): real {
    if HasIn(usage, a, b) then usage[a].fields[b].value else 0.0
  }

  function Price(prices: map<Component, real>, c: Component): real {
    if c in prices then prices[c] else 0.0
  }

  /** What this many tokens of a component come to, in millionths of a dollar: prices are dollars per
      million tokens. */
  function Part(prices: map<Component, real>, c: Component, tokens: real): real {
    tokens * Price(prices, c)
  }

  function AtLeast0(r: real): real {
    if r < 0.0 then 0.0 else r
  }

  /** Nothing to price, or something to price it with. */
  predicate Covered(prices: map<Component, real>, c: Component, tokens: real) {
    tokens == 0.0 || c in prices
  }

  /** `dollars` is the amount of `millionths`, to the nearest whole millionth, the even one on ties. */
  predicate IsRounded(dollars: real, millionths: real) {
    var n := (dollars * 1000000.0).Floor;
    && n as real == dollars * 1000000.0
    && -0.5 <= n as real - millionths <= 0.5
    && (n as real - millionths == 0.5 || n as real - millionths == -0.5 ==> n % 2 == 0)
  }

  /** The Python form's answer: a rounded amount when the cost can be known, and no other time. */
  predicate Estimates(estimate: Option<real>, known: bool, millionths: real) {
    if known then estimate.Some? && IsRounded(estimate.value, millionths) else estimate.None?
  }

  /** The SQL form's answer: the exact amount when the cost can be known, null at other times. */
  predicate Evaluates(v: Value, known: bool, millionths: real) {
    if known then v.VNum? && v.r * 1000000.0 == millionths else v == VNull
  }

  // ----- both forms' bill in millionths -----

  lemma ChargeIsPerMillion(tokens: real, price: real)
    ensures Charge(tokens, price) * 1000000.0 == tokens * price
  {
  }

  /** The amount of a bill over these counts. */
  function Millionths(input: real, output: real, read: real, write: real, write5m: real, write1h: real,
                      prices: map<Component, real>): real {
    Part(prices, Input, input) + Part(prices, Output, output) + Part(prices, CacheRead, read)
    + Part(prices, CacheWrite, write) + Part(prices, CacheWrite5m, write5m) + Part(prices, CacheWrite1h, write1h)
  }

  predicate Known(input: bool, output: bool, read: real, write: real, write5m: real, write1h: real,
                  prices: map<Component, real>) {
    && input && output && Input in prices && Output in prices
    && Covered(prices, CacheRead, read) && Covered(prices, CacheWrite, write)
    && Covered(prices, CacheWrite5m, write5m) && Covered(prices, CacheWrite1h, write1h)
  }

  lemma BillInMillionths(c: CostTwins.Counts, prices: map<Component, real>)
    ensures var bill := CostTwins.Bill(c, prices);
            var billable := if c.inputExcludesCache then OrZero(c.input) else OrZero(c.input) - (c.read + c.write);
            && bill.Some? == Known(c.input.Some?, c.output.Some?, c.read, c.write, c.write5m, c.write1h, prices)
            && (bill.Some? ==>
                  bill.value * 1000000.0
                  == Millionths(AtLeast0(billable), OrZero(c.output), c.read, c.write, c.write5m, c.write1h, prices))
  {
    var bill := CostTwins.Bill(c, prices);
    if bill.Some? {
      var billable := if c.inputExcludesCache then c.input.value else c.input.value - (c.read + c.write);
      assert Positive(billable) == AtLeast0(billable);
      ChargeIsPerMillion(AtLeast0(billable), prices[Input]);
      ChargeIsPerMillion(c.output.value, prices[Output]);
      ChargeIsPerMillion(c.read, Price(prices, CacheRead));
      ChargeIsPerMillion(c.write, Price(prices, CacheWrite));
      ChargeIsPerMillion(c.write5m, Price(prices, CacheWrite5m));
      ChargeIsPerMillion(c.write1h, Price(prices, CacheWrite1h));
      hide Charge;
    }
  }

  lemma Rounds(x: real)
    ensures IsRounded(Round6(x), x * 1000000.0)
  {
    var f := (x * 1000000.0).Floor;
    var r := Round6(x) * 1000000.0;
    assert r == f as real || r == (f + 1) as real;
    assert r.Floor as real == r;
  }

  // ----- the Python form -----

  lemma CountsAreNumbers(usage: Usage)
    ensures forall k :: Tokens(usage, [k]) == if Has(usage, k) then Some(Num(usage, k)) else None
    ensures forall a, b :: Tokens(usage, [a, b]) == if HasIn(usage, a, b) then Some(NumIn(usage, a, b)) else None
  {
    forall k ensures Tokens(usage, [k]) == if Has(usage, k) then Some(Num(usage, k)) else None {
      CostTwins.TokensTop(usage, k);
    }
    forall a, b ensures Tokens(usage, [a, b]) == if HasIn(usage, a, b) then Some(NumIn(usage, a, b)) else None {
      CostTwins.TokensNested(usage, a, b);
    }
  }

  lemma EstimateFromCounts(usage: Usage, s: Shape, prices: map<Component, real>, c: CostTwins.Counts)
    requires SelectShape(usage) == Some(s) && CostTwins.IsShape(s) && c == CostTwins.ShapeCounts(usage, s)
    ensures Estimates(EstimateCost(Some(usage), false, prices),
              Known(c.input.Some?, c.output.Some?, c.read, c.write, c.write5m, c.write1h, prices),
              Millionths(AtLeast0(if c.inputExcludesCache then OrZero(c.input) else OrZero(c.input) - (c.read + c.write)),
                         OrZero(c.output), c.read, c.write, c.write5m, c.write1h, prices))
  {
    CostTwins.ExactIsBill(usage, s, prices);
    BillInMillionths(c, prices);
    var exact := ExactCost(usage, s, prices);
    if exact.Some? { Rounds(exact.value); }
    hide CostTwins.ShapeCounts, CostTwins.Bill, ExactCost, Round6, SelectShape, Millionths, Known, IsRounded, AtLeast0;
  }

  function Present(has: bool, r: real): Option<real> {
    if has then Some(r) else None
  }

  lemma NothingIsFree(prices: map<Component, real>)
    ensures forall c :: Part(prices, c, 0.0) == 0.0 && Covered(prices, c, 0.0)
  {
  }

  lemma SameEstimate(e: Option<real>, known: bool, millionths: real, alsoKnown: bool, also: real)
    requires Estimates(e, known, millionths) && known == alsoKnown && (known ==> millionths == also)
    ensures Estimates(e, alsoKnown, also)
  {
    hide IsRounded;
  }

  lemma EstimateInside(
    usage: Usage, s: Shape, prices: map<Component, real>, hasInput: bool, input: real, hasOutput: bool, output: real,
    read: real, write: real)
    requires SelectShape(usage) == Some(s) && CostTwins.IsShape(s)
    requires CostTwins.ShapeCounts(usage, s)
             == CostTwins.Counts(Present(hasInput, input), Present(hasOutput, output), read, write, 0.0, 0.0, false)
    ensures Estimates(EstimateCost(Some(usage), false, prices),
              hasInput && hasOutput && Input in prices && Output in prices
              && Covered(prices, CacheRead, read) && Covered(prices, CacheWrite, write),
              Part(prices, Input, AtLeast0(input - read - write)) + Part(prices, Output, output)
              + Part(prices, CacheRead, read) + Part(prices, CacheWrite, write))
  {
    var c := CostTwins.ShapeCounts(usage, s);
    EstimateFromCounts(usage, s, prices, c);
    NothingIsFree(prices);
    hide Estimates, EstimateCost, CostTwins.ShapeCounts, CostTwins.IsShape, SelectShape, AtLeast0, Part, Covered;
    var billable := OrZero(c.input) - (read + write);
    assert hasInput ==> billable == input - read - write;
    SameEstimate(EstimateCost(Some(usage), false, prices),
      Known(c.input.Some?, c.output.Some?, read, write, 0.0, 0.0, prices),
      Millionths(AtLeast0(billable), OrZero(c.output), read, write, 0.0, 0.0, prices),
      hasInput && hasOutput && Input in prices && Output in prices
      && Covered(prices, CacheRead, read) && Covered(prices, CacheWrite, write),
      Part(prices, Input, AtLeast0(input - read - write)) + Part(prices, Output, output)
      + Part(prices, CacheRead, read) + Part(prices, CacheWrite, write));
  }

  lemma EstimateReads(
    usage: Usage, s: Shape, prices: map<Component, real>, hasInput: bool, input: real, hasOutput: bool, output: real,
    read: real)
    requires SelectShape(usage) == Some(s) && CostTwins.IsShape(s)
    requires CostTwins.ShapeCounts(usage, s)
             == CostTwins.Counts(Present(hasInput, input), Present(hasOutput, output), read, 0.0, 0.0, 0.0, false)
    ensures Estimates(EstimateCost(Some(usage), false, prices),
              hasInput && hasOutput && Input in prices && Output in prices && Covered(prices, CacheRead, read),
              Part(prices, Input, AtLeast0(input - read)) + Part(prices, Output, output)
              + Part(prices, CacheRead, read))
  {
    hide Estimates, EstimateCost, CostTwins.ShapeCounts, CostTwins.IsShape, SelectShape, AtLeast0, Part, Covered, Present;
    EstimateInside(usage, s, prices, hasInput, input, hasOutput, output, read, 0.0);
    NothingIsFree(prices);
    assert input - read - 0.0 == input - read;
    SameEstimate(EstimateCost(Some(usage), false, prices),
      hasInput && hasOutput && Input in prices && Output in prices
      && Covered(prices, CacheRead, read) && Covered(prices, CacheWrite, 0.0),
      Part(prices, Input, AtLeast0(input - read - 0.0)) + Part(prices, Output, output)
      + Part(prices, CacheRead, read) + Part(prices, CacheWrite, 0.0),
      hasInput && hasOutput && Input in prices && Output in prices && Covered(prices, CacheRead, read),
      Part(prices, Input, AtLeast0(input - read)) + Part(prices, Output, output) + Part(prices, CacheRead, read));
  }

  lemma TopRead(usage: Usage, k: Key)
    ensures OrZero(Tokens(usage, [k])) == Num(usage, k)
  {
    CostTwins.TokensTop(usage, k);
    hide Tokens;
  }

  lemma NestedRead(usage: Usage, a: Key, b: Key)
    ensures OrZero(Tokens(usage, [a, b])) == NumIn(usage, a, b)
  {
    CostTwins.TokensNested(usage, a, b);
    hide Tokens;
  }

  lemma TopShown(usage: Usage, k: Key)
    ensures Tokens(usage, [k]) == Shown(usage, k)
  {
    CostTwins.TokensTop(usage, k);
    hide Tokens;
  }

  lemma GeminiCounts(usage: Usage)
    ensures CostTwins.ShapeCounts(usage, GEMINI)
            == CostTwins.Counts(Shown(usage, PromptTokenCount), Shown(usage, CandidatesTokenCount),
                 Num(usage, CachedContentTokenCount), 0.0, 0.0, 0.0, false)
  {
    TopShown(usage, PromptTokenCount);
    TopShown(usage, CandidatesTokenCount);
    TopRead(usage, CachedContentTokenCount);
    hide Tokens, OrZero, Num, Shown;
  }

  lemma DeepseekCounts(usage: Usage)
    ensures CostTwins.ShapeCounts(usage, DEEPSEEK)
            == CostTwins.Counts(Shown(usage, PromptTokens), Shown(usage, CompletionTokens),
                 Num(usage, PromptCacheHitTokens), 0.0, 0.0, 0.0, false)
  {
    TopShown(usage, PromptTokens);
    TopShown(usage, CompletionTokens);
    TopRead(usage, PromptCacheHitTokens);
    hide Tokens, OrZero, Num, Shown;
  }

  lemma PlainCounts(usage: Usage)
    ensures CostTwins.ShapeCounts(usage, PLAIN)
            == CostTwins.Counts(Shown(usage, InputTokens), Shown(usage, OutputTokens), 0.0, 0.0, 0.0, 0.0, false)
  {
    TopShown(usage, InputTokens);
    TopShown(usage, OutputTokens);
    hide Tokens, OrZero, Num, Shown;
  }

  lemma OpenaiCounts(usage: Usage)
    ensures CostTwins.ShapeCounts(usage, OPENAI)
            == CostTwins.Counts(Shown(usage, InputTokens), Shown(usage, OutputTokens),
                 NumIn(usage, InputTokensDetails, CachedTokens), NumIn(usage, InputTokensDetails, CacheWriteTokens),
                 0.0, 0.0, false)
  {
    TopShown(usage, InputTokens);
    TopShown(usage, OutputTokens);
    NestedRead(usage, InputTokensDetails, CachedTokens);
    NestedRead(usage, InputTokensDetails, CacheWriteTokens);
    hide Tokens, OrZero, NumIn, Shown;
  }

  lemma PerplexityCounts(usage: Usage)
    ensures CostTwins.ShapeCounts(usage, PERPLEXITY)
            == CostTwins.Counts(Shown(usage, InputTokens), Shown(usage, OutputTokens),
                 NumIn(usage, InputTokensDetails, CacheReadInputTokens),
                 NumIn(usage, InputTokensDetails, CacheCreationInputTokens), 0.0, 0.0, false)
  {
    TopShown(usage, InputTokens);
    TopShown(usage, OutputTokens);
    NestedRead(usage, InputTokensDetails, CacheReadInputTokens);
    NestedRead(usage, InputTokensDetails, CacheCreationInputTokens);
    hide Tokens, OrZero, NumIn, Shown;
  }

  lemma AnthropicCounts(usage: Usage)
    ensures CostTwins.ShapeCounts(usage, ANTHROPIC)
            == CostTwins.Counts(Shown(usage, InputTokens), Shown(usage, OutputTokens),
                 Num(usage, CacheReadInputTokens), 0.0, NumIn(usage, CacheCreation, Ephemeral5m),
                 NumIn(usage, CacheCreation, Ephemeral1h), true)
  {
    TopShown(usage, InputTokens);
    TopShown(usage, OutputTokens);
    TopRead(usage, CacheReadInputTokens);
    NestedRead(usage, CacheCreation, Ephemeral5m);
    NestedRead(usage, CacheCreation, Ephemeral1h);
    hide Tokens, OrZero, Num, NumIn, Shown;
  }

  /** Gemini: cached tokens are inside the prompt's count and billed at their own price. */
  lemma GeminiCost(usage: Usage, prices: map<Component, real>)
    requires PromptTokenCount in usage
    ensures var input, output := Num(usage, PromptTokenCount), Num(usage, CandidatesTokenCount);
            var read := Num(usage, CachedContentTokenCount);
            Estimates(EstimateCost(Some(usage), false, prices),
              && Has(usage, PromptTokenCount) && Has(usage, CandidatesTokenCount)
              && Input in prices && Output in prices && Covered(prices, CacheRead, read),
              Part(prices, Input, AtLeast0(input - read)) + Part(prices, Output, output)
              + Part(prices, CacheRead, read))
  {
    GeminiCounts(usage);
    hide EstimateCost, Estimates, Has, Num, NumIn, CostTwins.ShapeCounts, AtLeast0, Part, Covered;
    EstimateReads(usage, GEMINI, prices, Has(usage, PromptTokenCount), Num(usage, PromptTokenCount),
                  Has(usage, CandidatesTokenCount), Num(usage, CandidatesTokenCount), Num(usage, CachedContentTokenCount));
  }

  /** Perplexity: reads and writes are inside the input's count and billed at their own prices. */
  lemma PerplexityCost(usage: Usage, prices: map<Component, real>)
    requires PromptTokenCount !in usage
    requires InputTokensDetails in usage && usage[InputTokensDetails].JObject?
             && CacheCreationInputTokens in usage[InputTokensDetails].fields
    ensures var input, output := Num(usage, InputTokens), Num(usage, OutputTokens);
            var read := NumIn(usage, InputTokensDetails, CacheReadInputTokens);
            var write := NumIn(usage, InputTokensDetails, CacheCreationInputTokens);
            Estimates(EstimateCost(Some(usage), false, prices),
              && Has(usage, InputTokens) && Has(usage, OutputTokens) && Input in prices && Output in prices
              && Covered(prices, CacheRead, read) && Covered(prices, CacheWrite, write),
              Part(prices, Input, AtLeast0(input - read - write)) + Part(prices, Output, output)
              + Part(prices, CacheRead, read) + Part(prices, CacheWrite, write))
  {
    PerplexityCounts(usage);
    hide EstimateCost, Estimates, Has, Num, NumIn, CostTwins.ShapeCounts, AtLeast0, Part, Covered;
    EstimateInside(usage, PERPLEXITY, prices, Has(usage, InputTokens), Num(usage, InputTokens),
                   Has(usage, OutputTokens), Num(usage, OutputTokens),
                   NumIn(usage, InputTokensDetails, CacheReadInputTokens),
                   NumIn(usage, InputTokensDetails, CacheCreationInputTokens));
  }

  /** OpenAI and xAI: reads and writes are inside the input's count and billed at their own prices. */
  lemma OpenaiCost(usage: Usage, prices: map<Component, real>)
    requires PromptTokenCount !in usage && InputTokensDetails in usage
    requires usage[InputTokensDetails].JObject? ==> CacheCreationInputTokens !in usage[InputTokensDetails].fields
    ensures var input, output := Num(usage, InputTokens), Num(usage, OutputTokens);
            var read := NumIn(usage, InputTokensDetails, CachedTokens);
            var write := NumIn(usage, InputTokensDetails, CacheWriteTokens);
            Estimates(EstimateCost(Some(usage), false, prices),
              && Has(usage, InputTokens) && Has(usage, OutputTokens) && Input in prices && Output in prices
              && Covered(prices, CacheRead, read) && Covered(prices, CacheWrite, write),
              Part(prices, Input, AtLeast0(input - read - write)) + Part(prices, Output, output)
              + Part(prices, CacheRead, read) + Part(prices, CacheWrite, write))
  {
    OpenaiCounts(usage);
    hide EstimateCost, Estimates, Has, Num, NumIn, CostTwins.ShapeCounts, AtLeast0, Part, Covered;
    EstimateInside(usage, OPENAI, prices, Has(usage, InputTokens), Num(usage, InputTokens),
                   Has(usage, OutputTokens), Num(usage, OutputTokens),
                   NumIn(usage, InputTokensDetails, CachedTokens),
                   NumIn(usage, InputTokensDetails, CacheWriteTokens));
  }

  /** Anthropic: reads and both kinds of writes come on top of the input's count. */
  lemma AnthropicCost(usage: Usage, prices: map<Component, real>)
    requires PromptTokenCount !in usage && InputTokensDetails !in usage
    requires CacheCreation in usage || CacheReadInputTokens in usage
    ensures var input, output := Num(usage, InputTokens), Num(usage, OutputTokens);
            var read := Num(usage, CacheReadInputTokens);
            var write5m, write1h := NumIn(usage, CacheCreation, Ephemeral5m), NumIn(usage, CacheCreation, Ephemeral1h);
            Estimates(EstimateCost(Some(usage), false, prices),
              && Has(usage, InputTokens) && Has(usage, OutputTokens) && Input in prices && Output in prices
              && Covered(prices, CacheRead, read)
              && Covered(prices, CacheWrite5m, write5m) && Covered(prices, CacheWrite1h, write1h),
              Part(prices, Input, AtLeast0(input)) + Part(prices, Output, output) + Part(prices, CacheRead, read)
              + Part(prices, CacheWrite5m, write5m) + Part(prices, CacheWrite1h, write1h))
  {
    AnthropicCounts(usage);
    NothingIsFree(prices);
    var c := CostTwins.ShapeCounts(usage, ANTHROPIC);
    EstimateFromCounts(usage, ANTHROPIC, prices, c);
    hide EstimateCost, Estimates, Has, Num, NumIn, CostTwins.ShapeCounts, AtLeast0, Part, Covered, SelectShape;
    var input, output, read := Num(usage, InputTokens), Num(usage, OutputTokens), Num(usage, CacheReadInputTokens);
    var write5m, write1h := NumIn(usage, CacheCreation, Ephemeral5m), NumIn(usage, CacheCreation, Ephemeral1h);
    SameEstimate(EstimateCost(Some(usage), false, prices),
      Known(c.input.Some?, c.output.Some?, read, 0.0, write5m, write1h, prices),
      Millionths(AtLeast0(OrZero(c.input)), OrZero(c.output), read, 0.0, write5m, write1h, prices),
      && Has(usage, InputTokens) && Has(usage, OutputTokens) && Input in prices && Output in prices
      && Covered(prices, CacheRead, read)
      && Covered(prices, CacheWrite5m, write5m) && Covered(prices, CacheWrite1h, write1h),
      Part(prices, Input, AtLeast0(input)) + Part(prices, Output, output) + Part(prices, CacheRead, read)
      + Part(prices, CacheWrite5m, write5m) + Part(prices, CacheWrite1h, write1h));
  }

  /** None of the keys that single out Gemini, Perplexity, OpenAI or Anthropic. */
  predicate NoCacheKeys(usage: Usage) {
    && PromptTokenCount !in usage && InputTokensDetails !in usage
    && CacheCreation !in usage && CacheReadInputTokens !in usage
  }

  /** DeepSeek: cache hits are inside the prompt's count and billed at their own price. */
  lemma DeepseekCost(usage: Usage, prices: map<Component, real>)
    requires NoCacheKeys(usage) && PromptTokens in usage && CompletionTokens in usage
    ensures var input, output := Num(usage, PromptTokens), Num(usage, CompletionTokens);
            var read := Num(usage, PromptCacheHitTokens);
            Estimates(EstimateCost(Some(usage), false, prices),
              && Has(usage, PromptTokens) && Has(usage, CompletionTokens)
              && Input in prices && Output in prices && Covered(prices, CacheRead, read),
              Part(prices, Input, AtLeast0(input - read)) + Part(prices, Output, output)
              + Part(prices, CacheRead, read))
  {
    DeepseekCounts(usage);
    hide EstimateCost, Estimates, Has, Num, NumIn, CostTwins.ShapeCounts, AtLeast0, Part, Covered;
    EstimateReads(usage, DEEPSEEK, prices, Has(usage, PromptTokens), Num(usage, PromptTokens),
                  Has(usage, CompletionTokens), Num(usage, CompletionTokens), Num(usage, PromptCacheHitTokens));
  }

  /** No cache fields: input and output alone. */
  lemma PlainCost(usage: Usage, prices: map<Component, real>)
    requires NoCacheKeys(usage) && !(PromptTokens in usage && CompletionTokens in usage)
    requires InputTokens in usage && OutputTokens in usage
    ensures var input, output := Num(usage, InputTokens), Num(usage, OutputTokens);
            Estimates(EstimateCost(Some(usage), false, prices),
              Has(usage, InputTokens) && Has(usage, OutputTokens) && Input in prices && Output in prices,
              Part(prices, Input, AtLeast0(input)) + Part(prices, Output, output))
  {
    PlainCounts(usage);
    NothingIsFree(prices);
    hide EstimateCost, Estimates, Has, Num, NumIn, CostTwins.ShapeCounts, AtLeast0, Part, Covered;
    var input, output := Num(usage, InputTokens), Num(usage, OutputTokens);
    EstimateReads(usage, PLAIN, prices, Has(usage, InputTokens), input, Has(usage, OutputTokens), output, 0.0);
    assert input - 0.0 == input;
    SameEstimate(EstimateCost(Some(usage), false, prices),
      Has(usage, InputTokens) && Has(usage, OutputTokens) && Input in prices && Output in prices
      && Covered(prices, CacheRead, 0.0),
      Part(prices, Input, AtLeast0(input - 0.0)) + Part(prices, Output, output) + Part(prices, CacheRead, 0.0),
      Has(usage, InputTokens) && Has(usage, OutputTokens) && Input in prices && Output in prices,
      Part(prices, Input, AtLeast0(input)) + Part(prices, Output, output));
  }

  /** A free model costs nothing whatever it used; no payload, or one of no known shape, is not priced. */
  lemma FreeOrUnknown(usage: Option<Usage>, prices: map<Component, real>)
    ensures EstimateCost(usage, true, prices) == Some(0.0)
    ensures usage.None? ==> EstimateCost(usage, false, prices).None?
    ensures usage.Some? && NoCacheKeys(usage.value)
            && !(PromptTokens in usage.value && CompletionTokens in usage.value)
            && !(InputTokens in usage.value && OutputTokens in usage.value)
            ==> EstimateCost(usage, false, prices).None?
  {
  }

  // ----- the SQL form -----

  /** The first of the places that shows a number. */
  function First(a: Option<real>, b: Option<real>): Option<real> {
    match a
    case Some(_) => a
    case None => b
  }

  function Shown(usage: Usage, k: Key): Option<real> {
    Present(Has(usage, k), Num(usage, k))
  }

  function ShownIn(usage: Usage, a: Key, b: Key): Option<real> {
    Present(HasIn(usage, a, b), NumIn(usage, a, b))
  }

  function Or0(r: Option<real>): real {
    match r
    case Some(v) => v
    case None => 0.0
  }

  /** For every row: each count is the first one shown among the providers' places; the input is
      billed without the cached tokens unless one of Anthropic's cache counts is shown. */
  lemma SqlCostIs(usage: Usage, prices: map<Component, real>)
    ensures var input := First(Shown(usage, PromptTokenCount), First(Shown(usage, InputTokens), Shown(usage, PromptTokens)));
            var output := First(Shown(usage, CandidatesTokenCount),
                                First(Shown(usage, OutputTokens), Shown(usage, CompletionTokens)));
            var read := Or0(First(Shown(usage, CachedContentTokenCount),
                            First(ShownIn(usage, InputTokensDetails, CachedTokens),
                            First(Shown(usage, CacheReadInputTokens),
                            First(ShownIn(usage, InputTokensDetails, CacheReadInputTokens),
                                  Shown(usage, PromptCacheHitTokens))))));
            var write := Or0(First(ShownIn(usage, InputTokensDetails, CacheWriteTokens),
                                   ShownIn(usage, InputTokensDetails, CacheCreationInputTokens)));
            var write5m, write1h := NumIn(usage, CacheCreation, Ephemeral5m), NumIn(usage, CacheCreation, Ephemeral1h);
            var onTop := Has(usage, CacheReadInputTokens) || HasIn(usage, CacheCreation, Ephemeral5m)
                         || HasIn(usage, CacheCreation, Ephemeral1h);
            Evaluates(Eval(RunCostExpr(), Row(Some(usage), false, prices)),
              && input.Some? && output.Some? && Input in prices && Output in prices
              && Covered(prices, CacheRead, read) && Covered(prices, CacheWrite, write)
              && Covered(prices, CacheWrite5m, write5m) && Covered(prices, CacheWrite1h, write1h),
              Part(prices, Input, AtLeast0(if onTop then Or0(input) else Or0(input) - (read + write)))
              + Part(prices, Output, Or0(output)) + Part(prices, CacheRead, read) + Part(prices, CacheWrite, write)
              + Part(prices, CacheWrite5m, write5m) + Part(prices, CacheWrite1h, write1h))
  {
    var row := Row(Some(usage), false, prices);
    SqlFromCounts(usage, prices);
    SqlCountsShown(usage, prices);
    hide Eval, RunCostExpr, Has, HasIn, Num, NumIn, CostTwins.SqlCounts, First;
  }

  lemma SqlFromCounts(usage: Usage, prices: map<Component, real>)
    ensures var c := CostTwins.SqlCounts(Row(Some(usage), false, prices));
            var billable := if c.inputExcludesCache then Or0(c.input) else Or0(c.input) - (c.read + c.write);
            Evaluates(Eval(RunCostExpr(), Row(Some(usage), false, prices)),
              Known(c.input.Some?, c.output.Some?, c.read, c.write, c.write5m, c.write1h, prices),
              Millionths(AtLeast0(billable), Or0(c.output), c.read, c.write, c.write5m, c.write1h, prices))
  {
    var row := Row(Some(usage), false, prices);
    RunCostEval(row);
    CostTwins.SqlIsBill(row);
    BillInMillionths(CostTwins.SqlCounts(row), prices);
    hide Eval, RunCostExpr, SqlCost, CostTwins.SqlCounts, CostTwins.Bill, Millionths, Known;
  }

  lemma SqlCountsShown(usage: Usage, prices: map<Component, real>)
    ensures var c := CostTwins.SqlCounts(Row(Some(usage), false, prices));
            && c.input == First(Shown(usage, PromptTokenCount), First(Shown(usage, InputTokens), Shown(usage, PromptTokens)))
            && c.output == First(Shown(usage, CandidatesTokenCount),
                                 First(Shown(usage, OutputTokens), Shown(usage, CompletionTokens)))
            && c.read == Or0(First(Shown(usage, CachedContentTokenCount),
                             First(ShownIn(usage, InputTokensDetails, CachedTokens),
                             First(Shown(usage, CacheReadInputTokens),
                             First(ShownIn(usage, InputTokensDetails, CacheReadInputTokens),
                                   Shown(usage, PromptCacheHitTokens))))))
            && c.write == Or0(First(ShownIn(usage, InputTokensDetails, CacheWriteTokens),
                                    ShownIn(usage, InputTokensDetails, CacheCreationInputTokens)))
            && c.write5m == NumIn(usage, CacheCreation, Ephemeral5m)
            && c.write1h == NumIn(usage, CacheCreation, Ephemeral1h)
            && c.inputExcludesCache == (Has(usage, CacheReadInputTokens) || HasIn(usage, CacheCreation, Ephemeral5m)
                                        || HasIn(usage, CacheCreation, Ephemeral1h))
  {
    CountsAreNumbers(usage);
    hide Tokens;
  }

  /** A free model's row, and a row without a payload. */
  lemma SqlFreeOrUnknown(usage: Option<Usage>, prices: map<Component, real>)
    ensures Eval(RunCostExpr(), Row(usage, true, prices)) == VNum(0.0)
    ensures Eval(RunCostExpr(), Row(None, false, prices)) == VNull
  {
    RunCostEval(Row(usage, true, prices));
    RunCostEval(Row(None, false, prices));
    CostTwins.SqlIsBill(Row(None, false, prices));
    CostTwins.NoPayloadNoCost(prices);
    hide Eval, RunCostExpr, CostTwins.Bill, CostTwins.SqlCounts;
  }
}
