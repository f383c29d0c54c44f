/** app/services/cost.py `run_cost_sql_expr`: the pricing rule as a SQL expression, built from the
    same table of shapes, with SQL's null-propagating evaluation. */
module CostSql {
  import opened Options
  import opened PriceHistory
  import opened Cost

  // ----- SQL expressions -----

  datatype Expr =
    | Number(r: real)
    | NullConst
    | JsonFloat(path: Path)          // CAST(col -> .. ->> key AS FLOAT)
    | PriceOf(component: Component)  // the correlated price subquery
    | IsFreeColumn
    | Coalesce(args: List<Expr>)
    | Add(a: Expr, b: Expr)
    | Subtract(a: Expr, b: Expr)
    | PricedAt(tokens: Expr, price: Expr)  // tokens / 1000000.0 * price
    | Greatest(a: Expr, b: Expr)
    | IsTrue(e: Expr)
    | IsNull(e: Expr)
    | NotNull(e: Expr)
    | Differs(a: Expr, b: Expr)
    | And(a: Expr, b: Expr)
    | Or(a: Expr, b: Expr)
    | Case(condition: Expr, result: Expr, otherwise: Expr)

  datatype Value = VNull | VNum(r: real) | VBool(b: bool)

  /** A row of the query: the joined payload, if there is one, and what the subqueries return. */
  datatype Row = Row(usage: Option<Usage>, isFree: bool, prices: map<Component, real>)

  function ToValue(r: Option<real>): Value {
    if r.Some? then VNum(r.value) else VNull
  }

  function RowTokens(row: Row, path: Path): Option<real> {
    if row.usage.Some? then Tokens(row.usage.value, path) else None
  }

  function Eval(e: Expr, row: Row): Value {
    match e
    case Number(r) => VNum(r)
    case NullConst => VNull
    case JsonFloat(path) => ToValue(RowTokens(row, path))
    case PriceOf(c) => if c in row.prices then VNum(row.prices[c]) else VNull
    case IsFreeColumn => VBool(row.isFree)
    case Coalesce(args) => EvalCoalesce(args, row)
    case Add(a, b) =>
      var x, y := Eval(a, row), Eval(b, row);
      if x.VNum? && y.VNum? then VNum(x.r + y.r) else VNull
    case Subtract(a, b) =>
      var x, y := Eval(a, row), Eval(b, row);
      if x.VNum? && y.VNum? then VNum(x.r - y.r) else VNull
    case PricedAt(tokens, price) =>
      var x, y := Eval(tokens, row), Eval(price, row);
      if x.VNum? && y.VNum? then VNum(Charge(x.r, y.r)) else VNull
    case Greatest(a, b) =>  // PostgreSQL: nulls are ignored
      var x, y := Eval(a, row), Eval(b, row);
      if x.VNum? && y.VNum? then VNum(if x.r < y.r then y.r else x.r) else if x.VNum? then x else y
    case IsTrue(b) => VBool(Eval(b, row) == VBool(true))
    case IsNull(a) => VBool(Eval(a, row) == VNull)
    case NotNull(a) => VBool(Eval(a, row) != VNull)
    case Differs(a, b) =>
      var x, y := Eval(a, row), Eval(b, row);
      if x.VNum? && y.VNum? then VBool(x.r != y.r) else VNull
    case And(a, b) =>
      var x, y := Eval(a, row), Eval(b, row);
      if x == VBool(false) || y == VBool(false) then VBool(false)
      else if x == VBool(true) && y == VBool(true) then VBool(true) else VNull
    case Or(a, b) =>
      var x, y := Eval(a, row), Eval(b, row);
      if x == VBool(true) || y == VBool(true) then VBool(true)
      else if x == VBool(false) && y == VBool(false) then VBool(false) else VNull
    case Case(condition, result, otherwise) =>
      if Eval(condition, row) == VBool(true) then Eval(result, row) else Eval(otherwise, row)
  }

  function EvalCoalesce(args: List<Expr>, row: Row): Value {
    match args
    case Nil => VNull
    case Cons(e, rest) => if Eval(e, row) != VNull then Eval(e, row) else EvalCoalesce(rest, row)
  }

  // ----- building the expression from the shapes -----

  function Remove<T(==)>(x: T, l: List<T>): List<T> {
    match l
    case Nil => Nil
    case Cons(h, t) => if h == x then Remove(x, t) else Cons(h, Remove(x, t))
  }

  /** `dict.fromkeys`: each element once, where it first stands. */
  function Dedupe<T(==)>(l: List<T>): List<T> {
    match l
    case Nil => Nil
    case Cons(h, t) => Cons(h, Remove(h, Dedupe(t)))
  }

  function IoPairs(shapes: List<Shape>): List<(Key, Key)> {
    match shapes
    case Nil => Nil
    case Cons(s, rest) => Cons((s.inputKey, s.outputKey), IoPairs(rest))
  }

  function InputPaths(pairs: List<(Key, Key)>): List<Path> {
    match pairs
    case Nil => Nil
    case Cons(p, rest) => Cons([p.0], InputPaths(rest))
  }

  function OutputPaths(pairs: List<(Key, Key)>): List<Path> {
    match pairs
    case Nil => Nil
    case Cons(p, rest) => Cons([p.1], OutputPaths(rest))
  }

  function CacheReadPaths(shapes: List<Shape>): List<Path> {
    match shapes
    case Nil => Nil
    case Cons(s, rest) =>
      if s.cacheReadPath.Some? then Cons(s.cacheReadPath.value, CacheReadPaths(rest)) else CacheReadPaths(rest)
  }

  function ComponentsOf(paths: List<WritePath>, after: List<Component>): List<Component> {
    match paths
    case Nil => after
    case Cons(p, rest) => Cons(p.component, ComponentsOf(rest, after))
  }

  function WriteComponents(shapes: List<Shape>): List<Component> {
    match shapes
    case Nil => Nil
    case Cons(s, rest) => ComponentsOf(s.cacheWritePaths, WriteComponents(rest))
  }

  function PathsFor(paths: List<WritePath>, c: Component, after: List<Path>): List<Path> {
    match paths
    case Nil => after
    case Cons(p, rest) => if p.component == c then Cons(p.path, PathsFor(rest, c, after)) else PathsFor(rest, c, after)
  }

  function WritePathsFor(shapes: List<Shape>, c: Component): List<Path> {
    match shapes
    case Nil => Nil
    case Cons(s, rest) => PathsFor(s.cacheWritePaths, c, WritePathsFor(rest, c))
  }

  function Floats(paths: List<Path>): List<Expr> {
    match paths
    case Nil => Nil
    case Cons(p, rest) => Cons(JsonFloat(p), Floats(rest))
  }

  /** A cache tier: its component and the places its count may be found in. */
  datatype Tier = Tier(component: Component, paths: List<Path>)

  function WriteTiers(shapes: List<Shape>, components: List<Component>): List<Tier> {
    match components
    case Nil => Nil
    case Cons(c, rest) => Cons(Tier(c, WritePathsFor(shapes, c)), WriteTiers(shapes, rest))
  }

  function Tiers(shapes: List<Shape>): List<Tier> {
    Cons(Tier(CacheRead, Dedupe(CacheReadPaths(shapes))), WriteTiers(shapes, Dedupe(WriteComponents(shapes))))
  }

  function TokensExpr(paths: List<Path>): Expr {
    Coalesce(Floats(paths))
  }

  function OrZeroExpr(e: Expr): Expr {
    Coalesce(Cons(e, Cons(Number(0.0), Nil)))
  }

  function MissingPrice(t: Tier): Expr {
    And(Differs(OrZeroExpr(TokensExpr(t.paths)), Number(0.0)), IsNull(PriceOf(t.component)))
  }

  function AnyMissing(condition: Expr, tiers: List<Tier>): Expr
    decreases tiers
  {
    match tiers
    case Nil => condition
    case Cons(t, rest) => AnyMissing(Or(condition, MissingPrice(t)), rest)
  }

  function TierCostExpr(t: Tier): Expr {
    PricedAt(OrZeroExpr(TokensExpr(t.paths)), OrZeroExpr(PriceOf(t.component)))
  }

  function CacheCost(cost: Expr, tiers: List<Tier>): Expr
    decreases tiers
  {
    match tiers
    case Nil => cost
    case Cons(t, rest) => CacheCost(Add(cost, TierCostExpr(t)), rest)
  }

  function IsAnthropicShape(): Expr {
    Or(Or(NotNull(JsonFloat([CacheReadInputTokens])), NotNull(JsonFloat([CacheCreation, Ephemeral5m]))),
       NotNull(JsonFloat([CacheCreation, Ephemeral1h])))
  }

  const IO_PAIRS := Dedupe(IoPairs(TOKEN_USAGE_SHAPES))
  const TIERS := Tiers(TOKEN_USAGE_SHAPES)
  const CACHE_READ_PATHS := Dedupe(CacheReadPaths(TOKEN_USAGE_SHAPES))
  const CACHE_WRITE_PATHS := WritePathsFor(TOKEN_USAGE_SHAPES, CacheWrite)

  function BillableInputExpr(): Expr {
    Greatest(Number(0.0),
             Subtract(TokensExpr(InputPaths(IO_PAIRS)),
                      Case(IsAnthropicShape(), Number(0.0),
                           Add(OrZeroExpr(TokensExpr(CACHE_READ_PATHS)),
                               OrZeroExpr(TokensExpr(CACHE_WRITE_PATHS))))))
  }

  function CostExpr(inputExpr: Expr, outputExpr: Expr, billable: Expr, first: Tier, rest: List<Tier>): Expr {
    Case(IsTrue(IsFreeColumn), Number(0.0),
    Case(Or(Or(Or(IsNull(inputExpr), IsNull(outputExpr)), IsNull(PriceOf(Input))), IsNull(PriceOf(Output))), NullConst,
    Case(AnyMissing(MissingPrice(first), rest), NullConst,
         Add(Add(PricedAt(billable, PriceOf(Input)), PricedAt(outputExpr, PriceOf(Output))),
             CacheCost(TierCostExpr(first), rest)))))
  }

  function RunCostExpr(): Expr {
    CostExpr(TokensExpr(InputPaths(IO_PAIRS)), TokensExpr(OutputPaths(IO_PAIRS)), BillableInputExpr(),
             TIERS.head, TIERS.tail)
  }

  // ----- what the expression evaluates to -----

  /** The first of the places that holds a count. */
  function Chain(row: Row, paths: List<Path>): Option<real> {
    match paths
    case Nil => None
    case Cons(p, rest) => if RowTokens(row, p).Some? then RowTokens(row, p) else Chain(row, rest)
  }

  function TierMissing(row: Row, t: Tier): bool {
    OrZero(Chain(row, t.paths)) != 0.0 && t.component !in row.prices
  }

  function SomeMissing(row: Row, tiers: List<Tier>): bool {
    match tiers
    case Nil => false
    case Cons(t, rest) => TierMissing(row, t) || SomeMissing(row, rest)
  }

  function TierTotal(row: Row, tiers: List<Tier>): real {
    match tiers
    case Nil => 0.0
    case Cons(t, rest) =>
      Charge(OrZero(Chain(row, t.paths)), if t.component in row.prices then row.prices[t.component] else 0.0)
      + TierTotal(row, rest)
  }

  predicate LooksAnthropic(row: Row) {
    || RowTokens(row, [CacheReadInputTokens]).Some?
    || RowTokens(row, [CacheCreation, Ephemeral5m]).Some?
    || RowTokens(row, [CacheCreation, Ephemeral1h]).Some?
  }

  function SqlBillable(row: Row, input: real): real {
    Positive(input - if LooksAnthropic(row) then 0.0
                     else OrZero(Chain(row, CACHE_READ_PATHS))
                          + OrZero(Chain(row, CACHE_WRITE_PATHS)))
  }

  function SqlCost(row: Row): Option<real> {
    var input, output := Chain(row, InputPaths(IO_PAIRS)), Chain(row, OutputPaths(IO_PAIRS));
    if row.isFree then Some(0.0)
    else if input.None? || output.None? || Input !in row.prices || Output !in row.prices then None
    else if SomeMissing(row, TIERS) then None
    else Some(Charge(SqlBillable(row, input.value), row.prices[Input]) + Charge(output.value, row.prices[Output])
              + TierTotal(row, TIERS))
  }

  lemma {:induction false} TokensEval(row: Row, paths: List<Path>)
    ensures EvalCoalesce(Floats(paths), row) == ToValue(Chain(row, paths))
    ensures Eval(TokensExpr(paths), row) == ToValue(Chain(row, paths))
  {
    if paths.Cons? {
      TokensEval(row, paths.tail);
      assert Eval(JsonFloat(paths.head), row) == ToValue(RowTokens(row, paths.head));
      hide RowTokens;
    }
  }

  lemma OrZeroEval(row: Row, e: Expr, r: Option<real>)
    requires Eval(e, row) == ToValue(r)
    ensures Eval(OrZeroExpr(e), row) == VNum(OrZero(r))
  {
    assert Eval(Number(0.0), row) == VNum(0.0);
    assert EvalCoalesce(Cons(Number(0.0), Nil), row) == VNum(0.0);
    assert EvalCoalesce(Cons(e, Cons(Number(0.0), Nil)), row) == VNum(OrZero(r));
  }

  lemma PriceEval(row: Row, c: Component)
    ensures Eval(PriceOf(c), row) == ToValue(if c in row.prices then Some(row.prices[c]) else None)
  {
  }

  lemma TierEval(row: Row, t: Tier)
    ensures Eval(MissingPrice(t), row) == VBool(TierMissing(row, t))
    ensures Eval(TierCostExpr(t), row)
            == VNum(Charge(OrZero(Chain(row, t.paths)), if t.component in row.prices then row.prices[t.component] else 0.0))
  {
    TokensEval(row, t.paths);
    PriceEval(row, t.component);
    hide TokensExpr, Chain, Charge;
    var count := OrZeroExpr(TokensExpr(t.paths));
    OrZeroEval(row, TokensExpr(t.paths), Chain(row, t.paths));
    OrZeroEval(row, PriceOf(t.component), if t.component in row.prices then Some(row.prices[t.component]) else None);
    hide OrZeroExpr;
    assert Eval(Number(0.0), row) == VNum(0.0);
    assert Eval(Differs(count, Number(0.0)), row) == VBool(OrZero(Chain(row, t.paths)) != 0.0);
    assert Eval(IsNull(PriceOf(t.component)), row) == VBool(t.component !in row.prices);
  }

  lemma {:induction false} MissingEval(row: Row, condition: Expr, tiers: List<Tier>, b: bool)
    requires Eval(condition, row) == VBool(b)
    ensures Eval(AnyMissing(condition, tiers), row) == VBool(b || SomeMissing(row, tiers))
    decreases tiers
  {
    if tiers.Cons? {
      TierEval(row, tiers.head);
      hide MissingPrice, TierMissing;
      MissingEval(row, Or(condition, MissingPrice(tiers.head)), tiers.tail, b || TierMissing(row, tiers.head));
    }
  }

  lemma {:induction false} CacheCostEval(row: Row, cost: Expr, tiers: List<Tier>, r: real)
    requires Eval(cost, row) == VNum(r)
    ensures Eval(CacheCost(cost, tiers), row) == VNum(r + TierTotal(row, tiers))
    decreases tiers
  {
    if tiers.Cons? {
      TierEval(row, tiers.head);
      hide TierCostExpr, Charge, Chain;
      var t := tiers.head;
      CacheCostEval(row, Add(cost, TierCostExpr(t)), tiers.tail,
        r + Charge(OrZero(Chain(row, t.paths)), if t.component in row.prices then row.prices[t.component] else 0.0));
    }
  }

  lemma PresentEval(row: Row, path: Path)
    ensures Eval(NotNull(JsonFloat(path)), row) == VBool(RowTokens(row, path).Some?)
  {
    hide RowTokens;
    assert Eval(JsonFloat(path), row) == ToValue(RowTokens(row, path));
  }

  lemma AnthropicEval(row: Row)
    ensures Eval(IsAnthropicShape(), row) == VBool(LooksAnthropic(row))
  {
    PresentEval(row, [CacheReadInputTokens]);
    PresentEval(row, [CacheCreation, Ephemeral5m]);
    PresentEval(row, [CacheCreation, Ephemeral1h]);
    hide RowTokens;
    var a, b := NotNull(JsonFloat([CacheReadInputTokens])), NotNull(JsonFloat([CacheCreation, Ephemeral5m]));
    assert Eval(Or(a, b), row)
        == VBool(RowTokens(row, [CacheReadInputTokens]).Some? || RowTokens(row, [CacheCreation, Ephemeral5m]).Some?);
  }

  lemma BillableShape(
    row: Row, inputExpr: Expr, anthropic: Expr, readExpr: Expr, writeExpr: Expr,
    input: real, isAnthropic: bool, r: real, w: real)
    requires Eval(inputExpr, row) == VNum(input) && Eval(anthropic, row) == VBool(isAnthropic)
    requires Eval(readExpr, row) == VNum(r) && Eval(writeExpr, row) == VNum(w)
    ensures Eval(Greatest(Number(0.0), Subtract(inputExpr, Case(anthropic, Number(0.0), Add(readExpr, writeExpr)))), row)
            == VNum(Positive(input - if isAnthropic then 0.0 else r + w))
  {
    var sum := Add(readExpr, writeExpr);
    var folded := Case(anthropic, Number(0.0), sum);
    assert Eval(sum, row) == VNum(r + w);
    assert Eval(Number(0.0), row) == VNum(0.0);
    assert Eval(folded, row) == VNum(if isAnthropic then 0.0 else r + w);
    assert Eval(Subtract(inputExpr, folded), row) == VNum(input - if isAnthropic then 0.0 else r + w);
  }

  lemma BillableEval(row: Row, input: real)
    requires Chain(row, InputPaths(IO_PAIRS)) == Some(input)
    ensures Eval(BillableInputExpr(), row) == VNum(SqlBillable(row, input))
  {
    hide Dedupe, IoPairs, InputPaths, CacheReadPaths, WritePathsFor, Chain, Eval, TokensExpr, OrZeroExpr;
    hide IsAnthropicShape, LooksAnthropic, Positive, OrZero;
    TokensEval(row, InputPaths(IO_PAIRS));
    TokensEval(row, CACHE_READ_PATHS);
    TokensEval(row, CACHE_WRITE_PATHS);
    AnthropicEval(row);
    OrZeroEval(row, TokensExpr(CACHE_READ_PATHS), Chain(row, CACHE_READ_PATHS));
    OrZeroEval(row, TokensExpr(CACHE_WRITE_PATHS), Chain(row, CACHE_WRITE_PATHS));
    BillableShape(row, TokensExpr(InputPaths(IO_PAIRS)), IsAnthropicShape(),
                  OrZeroExpr(TokensExpr(CACHE_READ_PATHS)), OrZeroExpr(TokensExpr(CACHE_WRITE_PATHS)),
                  input, LooksAnthropic(row),
                  OrZero(Chain(row, CACHE_READ_PATHS)), OrZero(Chain(row, CACHE_WRITE_PATHS)));
  }

  lemma UnknownEval(row: Row, inputExpr: Expr, outputExpr: Expr, input: Option<real>, output: Option<real>)
    requires Eval(inputExpr, row) == ToValue(input) && Eval(outputExpr, row) == ToValue(output)
    ensures Eval(Or(Or(Or(IsNull(inputExpr), IsNull(outputExpr)), IsNull(PriceOf(Input))), IsNull(PriceOf(Output))), row)
            == VBool(input.None? || output.None? || Input !in row.prices || Output !in row.prices)
  {
    PriceEval(row, Input);
    PriceEval(row, Output);
    var a := Or(IsNull(inputExpr), IsNull(outputExpr));
    assert Eval(IsNull(inputExpr), row) == VBool(input.None?);
    assert Eval(IsNull(outputExpr), row) == VBool(output.None?);
    assert Eval(a, row) == VBool(input.None? || output.None?);
    assert Eval(IsNull(PriceOf(Input)), row) == VBool(Input !in row.prices);
    assert Eval(IsNull(PriceOf(Output)), row) == VBool(Output !in row.prices);
    assert Eval(Or(a, IsNull(PriceOf(Input))), row) == VBool(input.None? || output.None? || Input !in row.prices);
  }

  lemma KnownEval(row: Row, billable: Expr, outputExpr: Expr, b: real, output: real, first: Tier, rest: List<Tier>)
    requires Eval(billable, row) == VNum(b) && Eval(outputExpr, row) == VNum(output)
    requires Input in row.prices && Output in row.prices
    ensures Eval(Add(Add(PricedAt(billable, PriceOf(Input)), PricedAt(outputExpr, PriceOf(Output))),
                     CacheCost(TierCostExpr(first), rest)), row)
            == VNum(Charge(b, row.prices[Input]) + Charge(output, row.prices[Output]) + TierTotal(row, Cons(first, rest)))
  {
    hide TierCostExpr, Charge;
    TierEval(row, first);
    PriceEval(row, Input);
    PriceEval(row, Output);
    var charge := Charge(OrZero(Chain(row, first.paths)),
                         if first.component in row.prices then row.prices[first.component] else 0.0);
    CacheCostEval(row, TierCostExpr(first), rest, charge);
    hide Chain, OrZero;
    var x, y := PricedAt(billable, PriceOf(Input)), PricedAt(outputExpr, PriceOf(Output));
    assert Eval(x, row) == VNum(Charge(b, row.prices[Input]));
    assert Eval(y, row) == VNum(Charge(output, row.prices[Output]));
    assert Eval(Add(x, y), row) == VNum(Charge(b, row.prices[Input]) + Charge(output, row.prices[Output]));
    hide CacheCost;
  }

  lemma CaseEval(row: Row, condition: Expr, result: Expr, otherwise: Expr, b: bool)
    requires Eval(condition, row) == VBool(b)
    ensures Eval(Case(condition, result, otherwise), row) == if b then Eval(result, row) else Eval(otherwise, row)
  {
  }

  lemma FreeEval(row: Row)
    ensures Eval(IsTrue(IsFreeColumn), row) == VBool(row.isFree)
    ensures Eval(Number(0.0), row) == VNum(0.0) && Eval(NullConst, row) == VNull
  {
    assert Eval(IsFreeColumn, row) == VBool(row.isFree);
  }

  lemma CostEval(
    row: Row, inputExpr: Expr, outputExpr: Expr, billable: Expr, first: Tier, rest: List<Tier>,
    input: Option<real>, output: Option<real>, b: real)
    requires Eval(inputExpr, row) == ToValue(input) && Eval(outputExpr, row) == ToValue(output)
    requires input.Some? ==> Eval(billable, row) == VNum(b)
    ensures Eval(CostExpr(inputExpr, outputExpr, billable, first, rest), row)
            == if row.isFree then VNum(0.0)
               else if input.None? || output.None? || Input !in row.prices || Output !in row.prices then VNull
               else if SomeMissing(row, Cons(first, rest)) then VNull
               else VNum(Charge(b, row.prices[Input]) + Charge(output.value, row.prices[Output])
                         + TierTotal(row, Cons(first, rest)))
  {
    assert SomeMissing(row, Cons(first, rest)) == (TierMissing(row, first) || SomeMissing(row, rest));
    hide Eval, TierTotal, CacheCost, SomeMissing, AnyMissing, MissingPrice, TierCostExpr, TierMissing, Charge;
    UnknownEval(row, inputExpr, outputExpr, input, output);
    TierEval(row, first);
    MissingEval(row, MissingPrice(first), rest, TierMissing(row, first));
    var unknown := input.None? || output.None? || Input !in row.prices || Output !in row.prices;
    FreeEval(row);
    var total := Add(Add(PricedAt(billable, PriceOf(Input)), PricedAt(outputExpr, PriceOf(Output))),
                     CacheCost(TierCostExpr(first), rest));
    if !unknown {
      KnownEval(row, billable, outputExpr, b, output.value, first, rest);
    }
    var priced := Case(AnyMissing(MissingPrice(first), rest), NullConst, total);
    CaseEval(row, AnyMissing(MissingPrice(first), rest), NullConst, total, SomeMissing(row, Cons(first, rest)));
    var anyUnknown := Or(Or(Or(IsNull(inputExpr), IsNull(outputExpr)), IsNull(PriceOf(Input))), IsNull(PriceOf(Output)));
    CaseEval(row, anyUnknown, NullConst, priced, unknown);
    CaseEval(row, IsTrue(IsFreeColumn), Number(0.0), Case(anyUnknown, NullConst, priced), row.isFree);
  }

  /** The built expression, evaluated by SQL's rules, is the cost the chains define. */
  lemma RunCostEval(row: Row)
    ensures Eval(RunCostExpr(), row) == ToValue(SqlCost(row))
  {
    hide Dedupe, IoPairs, InputPaths, OutputPaths, CacheReadPaths, WritePathsFor, Chain, Eval, TokensExpr;
    hide SqlBillable, BillableInputExpr, TierTotal, SomeMissing, Charge, CostExpr;
    var input, output := Chain(row, InputPaths(IO_PAIRS)), Chain(row, OutputPaths(IO_PAIRS));
    TokensEval(row, InputPaths(IO_PAIRS));
    TokensEval(row, OutputPaths(IO_PAIRS));
    if input.Some? { BillableEval(row, input.value); }
    CostEval(row, TokensExpr(InputPaths(IO_PAIRS)), TokensExpr(OutputPaths(IO_PAIRS)), BillableInputExpr(),
             TIERS.head, TIERS.tail, input, output, if input.Some? then SqlBillable(row, input.value) else 0.0);
  }
}
