/** app/services/cost.py: one pricing rule written twice, as Python over a payload and as a SQL
    expression over the stored one. Token counts and prices are reals; only the final rounding is
    kept. A count is a number or null wherever the rule looks for one. */
module Cost {
  import opened Options
  import opened PriceHistory

  /** The payload keys the rule names, and any other. */
  datatype Key =
    | PromptTokenCount | CandidatesTokenCount | CachedContentTokenCount
    | InputTokens | OutputTokens | InputTokensDetails | CachedTokens | CacheWriteTokens
    | CacheReadInputTokens | CacheCreation | Ephemeral5m | Ephemeral1h
    | CacheCreationInputTokens
    | PromptTokens | CompletionTokens | PromptCacheHitTokens
    | OtherKey(name: string)

  datatype Json = JNull | JNumber(value: real) | JObject(fields: map<Key, Json>)

  type Usage = map<Key, Json>

  type Path = seq<Key>

  datatype List<T> = Nil | Cons(head: T, tail: List<T>)

  datatype WritePath = WritePath(component: Component, path: Path)

  datatype Shape = Shape(
    inputKey: Key,
    outputKey: Key,
    cacheReadPath: Option<Path>,
    cacheWritePaths: List<WritePath>,
    includesCacheRead: bool,
    includesCacheWrite: bool)

  const GEMINI := Shape(PromptTokenCount, CandidatesTokenCount, Some([CachedContentTokenCount]), Nil, true, false)
  const OPENAI := Shape(InputTokens, OutputTokens, Some([InputTokensDetails, CachedTokens]),
                        Cons(WritePath(CacheWrite, [InputTokensDetails, CacheWriteTokens]), Nil), true, true)
  const ANTHROPIC := Shape(InputTokens, OutputTokens, Some([CacheReadInputTokens]),
                           Cons(WritePath(CacheWrite5m, [CacheCreation, Ephemeral5m]),
                                Cons(WritePath(CacheWrite1h, [CacheCreation, Ephemeral1h]), Nil)), false, false)
  const PERPLEXITY := Shape(InputTokens, OutputTokens, Some([InputTokensDetails, CacheReadInputTokens]),
                            Cons(WritePath(CacheWrite, [InputTokensDetails, CacheCreationInputTokens]), Nil), true, true)
  const DEEPSEEK := Shape(PromptTokens, CompletionTokens, Some([PromptCacheHitTokens]), Nil, true, false)
  const PLAIN := Shape(InputTokens, OutputTokens, None, Nil, false, false)

  const TOKEN_USAGE_SHAPES: List<Shape> :=
    Cons(GEMINI, Cons(OPENAI, Cons(ANTHROPIC, Cons(PERPLEXITY, Cons(DEEPSEEK, Cons(PLAIN, Nil))))))

  // ----- the Python form -----

  /** `_read_path`: a missing step and a null both read as null. */
  function ReadPath(v: Json, path: Path): Json
    decreases |path|
  {
    if path == [] then v
    else if v.JObject? && path[0] in v.fields then ReadPath(v.fields[path[0]], path[1..])
    else JNull
  }

  method ReadPathLoop(payload: Json, path: Path) returns (value: Json)
    ensures value == ReadPath(payload, path)
  {
    value := payload;
    for i := 0 to |path|
      invariant ReadPath(value, path[i..]) == ReadPath(payload, path)
    {
      assert path[i..][1..] == path[i + 1..];
      if !value.JObject? || path[i] !in value.fields {
        return JNull;
      }
      value := value.fields[path[i]];
    }
  }

  /** A count read from the payload; absent when missing or null. */
  function Tokens(usage: Usage, path: Path): Option<real> {
    var v := ReadPath(JObject(usage), path);
    if v.JNumber? then Some(v.value) else None
  }

  /** `count or 0`. */
  function OrZero(r: Option<real>): real {
    if r.Some? then r.value else 0.0
  }

  function SelectShape(usage: Usage): Option<Shape> {
    if PromptTokenCount in usage then Some(GEMINI)
    else if InputTokensDetails in usage && usage[InputTokensDetails].JObject?
            && CacheCreationInputTokens in usage[InputTokensDetails].fields then Some(PERPLEXITY)
    else if InputTokensDetails in usage then Some(OPENAI)
    else if CacheCreation in usage || CacheReadInputTokens in usage then Some(ANTHROPIC)
    else if PromptTokens in usage && CompletionTokens in usage then Some(DEEPSEEK)
    else if InputTokens in usage && OutputTokens in usage then Some(PLAIN)
    else None
  }

  function WriteTokens(usage: Usage, paths: List<WritePath>): real {
    match paths
    case Nil => 0.0
    case Cons(p, rest) => OrZero(Tokens(usage, p.path)) + WriteTokens(usage, rest)
  }

  function CacheReadTokens(usage: Usage, shape: Shape): real {
    if shape.cacheReadPath.Some? then OrZero(Tokens(usage, shape.cacheReadPath.value)) else 0.0
  }

  function Positive(r: real): real {
    if r > 0.0 then r else 0.0
  }

  function BillableInput(usage: Usage, shape: Shape, input: real): real {
    Positive(input
             - (if shape.includesCacheRead then CacheReadTokens(usage, shape) else 0.0)
             - (if shape.includesCacheWrite then WriteTokens(usage, shape.cacheWritePaths) else 0.0))
  }

  /** Prices are per million tokens. */
  function Charge(tokens: real, price: real): real {
    tokens / 1000000.0 * price
  }

  /** The price of a number of tokens; unknown when there are some but no price. */
  function TierCost(tokens: real, c: Component, prices: map<Component, real>): Option<real> {
    if tokens == 0.0 then Some(0.0)
    else if c in prices then Some(Charge(tokens, prices[c]))
    else None
  }

  function Plus(a: Option<real>, b: Option<real>): Option<real> {
    if a.Some? && b.Some? then Some(a.value + b.value) else None
  }

  function WriteCost(usage: Usage, paths: List<WritePath>, prices: map<Component, real>): Option<real> {
    match paths
    case Nil => Some(0.0)
    case Cons(p, rest) =>
      Plus(TierCost(OrZero(Tokens(usage, p.path)), p.component, prices), WriteCost(usage, rest, prices))
  }

  /** The estimate before rounding. */
  function ExactCost(usage: Usage, shape: Shape, prices: map<Component, real>): Option<real> {
    var input, output := Tokens(usage, [shape.inputKey]), Tokens(usage, [shape.outputKey]);
    if input.None? || output.None? || Input !in prices || Output !in prices then None
    else
      var base := Charge(BillableInput(usage, shape, input.value), prices[Input])
                  + Charge(output.value, prices[Output]);
      Plus(Plus(Some(base), TierCost(CacheReadTokens(usage, shape), CacheRead, prices)),
           WriteCost(usage, shape.cacheWritePaths, prices))
  }

  /** `round(x, 6)`: to the nearest millionth, to the even one on ties. */
  function Round6(x: real): (r: real)
    ensures -0.0000005 <= r - x <= 0.0000005
  {
    var scaled := x * 1000000.0;
    var f := scaled.Floor;
    var rest := scaled - f as real;
    var n := if rest < 0.5 || (rest == 0.5 && f % 2 == 0) then f else f + 1;
    n as real / 1000000.0
  }

  function EstimateCost(usage: Option<Usage>, isFree: bool, prices: map<Component, real>): Option<real> {
    if isFree then Some(0.0)
    else if usage.None? || SelectShape(usage.value).None? then None
    else
      var exact := ExactCost(usage.value, SelectShape(usage.value).value, prices);
      if exact.Some? then Some(Round6(exact.value)) else None
  }

  method EstimateRunCost(usage: Option<Usage>, isFree: bool, prices: map<Component, real>) returns (r: Option<real>)
    ensures r == EstimateCost(usage, isFree, prices)
  {
    hide Round6, Tokens, Charge;
    if isFree {
      return Some(0.0);
    }
    if usage.None? || SelectShape(usage.value).None? {
      return None;
    }
    var u, shape := usage.value, SelectShape(usage.value).value;
    hide SelectShape;
    var input, output := Tokens(u, [shape.inputKey]), Tokens(u, [shape.outputKey]);
    if input.None? || output.None? || Input !in prices || Output !in prices {
      return None;
    }
    var cacheRead := CacheReadTokens(u, shape);
    var billableInput := input.value;
    if shape.includesCacheRead {
      billableInput := billableInput - cacheRead;
    }
    if shape.includesCacheWrite {
      billableInput := billableInput - WriteTokens(u, shape.cacheWritePaths);
    }
    billableInput := Positive(billableInput);
    assert billableInput == BillableInput(u, shape, input.value);
    var cost := Charge(billableInput, prices[Input]) + Charge(output.value, prices[Output]);
    if cacheRead != 0.0 {
      if CacheRead !in prices {
        return None;
      }
      cost := cost + Charge(cacheRead, prices[CacheRead]);
    }
    var paths := shape.cacheWritePaths;
    while paths.Cons?
      invariant ExactCost(u, shape, prices) == Plus(Some(cost), WriteCost(u, paths, prices))
      decreases paths
    {
      var tokens := OrZero(Tokens(u, paths.head.path));
      if tokens != 0.0 {
        if paths.head.component !in prices {
          return None;
        }
        cost := cost + Charge(tokens, prices[paths.head.component]);
      }
      paths := paths.tail;
    }
    r := Some(Round6(cost));
  }
}
