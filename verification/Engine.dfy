/** Compiling, ordering and running a list of formula rules. */
module Rules {
  import opened Basics
  import opened Parser
  import opened Evaluator
  import Lexer
  import RuleGraph
  import Kahn = KahnOrder
  import Precedence

  datatype CalcType = UIntType | BoolType | FloatType | DoubleType

  /** A rule as configured. */
  datatype Config = Config(name: string, dataType: string, expression: string, max: Float, min: Float, default: Float)

  /** A compiled rule. */
  datatype Rule = Rule(name: string, dataType: CalcType, ast: Expr, variables: seq<string>, max: Float, min: Float, default: Float)

  function NormalizeType(s: string): Option<CalcType> {
    if SameIgnoringCase(s, "u32") || SameIgnoringCase(s, "uint32") || SameIgnoringCase(s, "uint") then Some(UIntType)
    else if SameIgnoringCase(s, "bool") || SameIgnoringCase(s, "boolean") then Some(BoolType)
    else if SameIgnoringCase(s, "f32") || SameIgnoringCase(s, "float") then Some(FloatType)
    else if SameIgnoringCase(s, "f64") || SameIgnoringCase(s, "double") then Some(DoubleType)
    else None
  }

  function Collect(e: Expr): seq<string> {
    match e
    case Lit(_) => []
    case Var(name) => [name]
    case Binary(_, l, r) => Collect(l) + Collect(r)
    case Unary(_, x) => Collect(x)
    case If(c, y, n) => Collect(c) + Collect(y) + Collect(n)
  }

  predicate Sorted(names: seq<string>) {
    forall i, j :: 0 <= i < j < |names| ==> Before(names[i], names[j])
  }

  /** A name in its place among sorted names, unless it is there already. */
  function InsertName(names: seq<string>, name: string): (r: seq<string>) {
    if names == [] then [name]
    else if name == names[0] then names
    else if Before(name, names[0]) then [name] + names
    else [names[0]] + InsertName(names[1..], name)
  }

  lemma {:induction false} InsertNameSorted(names: seq<string>, name: string)
    requires Sorted(names)
    ensures Sorted(InsertName(names, name))
    ensures forall n :: n in InsertName(names, name) <==> n in names || n == name
    decreases |names|
  {
    hide Before;
    if names != [] && name != names[0] {
      var first, rest := names[0], names[1..];
      assert names == [first] + rest;
      BeforeTotal(first, name);
      if Before(name, first) {
        forall i | 0 <= i < |names| ensures Before(name, names[i]) {
          if i > 0 { BeforeTransitive(name, first, names[i]); }
        }
      } else {
        InsertNameSorted(rest, name);
        var tail := InsertName(rest, name);
        forall i | 0 <= i < |tail| ensures Before(first, tail[i]) {
          assert tail[i] in tail;
          if tail[i] != name {
            var k :| 0 <= k < |rest| && rest[k] == tail[i];
            assert names[k + 1] == rest[k];
          }
        }
      }
    }
  }

  /** Sorted, each name once, none lost. */
  function SortedNames(names: seq<string>): (r: seq<string>)
    ensures Sorted(r) && Unique(r) && forall n :: n in r <==> n in names
  {
    if names == [] then []
    else
      var init, last := SortedNames(names[..|names| - 1]), names[|names| - 1];
      assert names == names[..|names| - 1] + [last];
      InsertNameSorted(init, last);
      SortedUnique(InsertName(init, last));
      InsertName(init, last)
  }

  lemma SortedUnique(names: seq<string>)
    requires Sorted(names)
    ensures Unique(names)
  {
    hide Before;
    forall i, j | 0 <= i < j < |names| ensures names[i] != names[j] {
      BeforeTotal(names[i], names[j]);
    }
  }

  lemma {:induction false} CollectMentions(e: Expr)
    ensures forall n :: n in Collect(e) <==> n in Mentions(e)
  {
    match e
    case Lit(_) =>
    case Var(_) =>
    case Unary(_, x) => CollectMentions(x);
    case Binary(_, l, r) =>
      CollectMentions(l);
      CollectMentions(r);
    case If(c, y, n) =>
      CollectMentions(c);
      CollectMentions(y);
      CollectMentions(n);
  }

  function ExtractVariables(e: Expr): seq<string> { SortedNames(Collect(e)) }

  function Compile(ops: FloatOps, c: Config): Option<Rule> {
    if NormalizeType(c.dataType).None? then None
    else if !ops.finite(c.max) || !ops.finite(c.min) || !ops.finite(c.default) || ops.lt(c.max, c.min) then None
    else
      var tokens := Lexer.LexFrom(c.expression, 0);
      if tokens.None? || Parse(tokens.value).None? then None
      else
        var ast := Parse(tokens.value).value;
        if c.name in ExtractVariables(ast) then None
        else Some(Rule(c.name, NormalizeType(c.dataType).value, ast, ExtractVariables(ast), c.max, c.min, c.default))
  }

  function Lowered(s: string): string {
    seq(|s|, i requires 0 <= i < |s| => Lower(s[i]))
  }

  lemma LoweredIs(s: string, word: string)
    requires Lowered(word) == word
    ensures SameIgnoringCase(s, word) <==> Lowered(s) == word
  {
    hide Lower;
    assert forall i :: 0 <= i < |word| ==> Lower(word[i]) == Lowered(word)[i] == word[i];
    assert forall i :: 0 <= i < |s| ==> Lowered(s)[i] == Lower(s[i]);
  }

  /** The type names, in any case. */
  lemma TypeNames(s: string)
    ensures NormalizeType(s) == Some(UIntType) <==> Lowered(s) in {"u32", "uint32", "uint"}
    ensures NormalizeType(s) == Some(BoolType) <==> Lowered(s) in {"bool", "boolean"}
    ensures NormalizeType(s) == Some(FloatType) <==> Lowered(s) in {"f32", "float"}
    ensures NormalizeType(s) == Some(DoubleType) <==> Lowered(s) in {"f64", "double"}
  {
    hide SameIgnoringCase;
    LoweredIs(s, "u32");
    LoweredIs(s, "uint32");
    LoweredIs(s, "uint");
    LoweredIs(s, "bool");
    LoweredIs(s, "boolean");
    LoweredIs(s, "f32");
    LoweredIs(s, "float");
    LoweredIs(s, "f64");
    LoweredIs(s, "double");
  }

  /** A rule compiles exactly when its type is known, its numbers are finite and ordered, and its text is
      a formula that does not mention the rule itself; the compiled rule is that formula. */
  lemma {:induction false} CompileExactly(ops: FloatOps, c: Config, r: Rule)
    ensures Compile(ops, c) == Some(r) <==>
      (&& NormalizeType(c.dataType) == Some(r.dataType)
       && ops.finite(c.max) && ops.finite(c.min) && ops.finite(c.default) && !ops.lt(c.max, c.min)
       && Precedence.Formula(c.expression) == Some(r.ast) && c.name !in Mentions(r.ast)
       && r.name == c.name && r.max == c.max && r.min == c.min && r.default == c.default
       && r.variables == SortedNames(Collect(r.ast)))
  {
    CollectMentions(r.ast);
    hide NormalizeType, Parse, Lexer.LexFrom, Mentions, Collect;
  }

  predicate HasName(rules: seq<Rule>, name: string) {
    exists i :: 0 <= i < |rules| && rules[i].name == name
  }

  /** The rules that compile, the first of each output name. */
  function CompileAll(ops: FloatOps, config: seq<Config>): seq<Rule> {
    if config == [] then []
    else
      var init, r := CompileAll(ops, config[..|config| - 1]), Compile(ops, config[|config| - 1]);
      if r.None? || HasName(init, r.value.name) then init else init + [r.value]
  }

  /** Output names differ; variable lists are exactly what the expressions mention. */
  ghost predicate WellFormed(rules: seq<Rule>) {
    && (forall i, j :: 0 <= i < j < |rules| ==> rules[i].name != rules[j].name)
    && (forall i :: 0 <= i < |rules| ==> Faithful(rules[i]))
  }

  ghost predicate Faithful(r: Rule) {
    Unique(r.variables) && forall v :: v in r.variables <==> v in Mentions(r.ast)
  }

  lemma {:induction false} CompileAllWellFormed(ops: FloatOps, config: seq<Config>)
    ensures WellFormed(CompileAll(ops, config))
    decreases |config|
  {
    if config != [] {
      CompileAllWellFormed(ops, config[..|config| - 1]);
      var r := Compile(ops, config[|config| - 1]);
      if r.Some? { CollectMentions(r.value.ast); }
      hide Compile, Faithful;
    }
  }

  predicate DistinctOutputs(config: seq<Config>) {
    forall i, j :: 0 <= i < j < |config| ==> config[i].name != config[j].name
  }

  lemma {:induction false} CompileName(ops: FloatOps, c: Config)
    ensures Compile(ops, c).Some? ==> Compile(ops, c).value.name == c.name && Faithful(Compile(ops, c).value)
  {
    if Compile(ops, c).Some? { CollectMentions(Compile(ops, c).value.ast); }
  }

  /** With distinct output names, compiling keeps exactly the rules that compile. */
  lemma {:induction false} CompiledExactly(ops: FloatOps, config: seq<Config>, r: Rule)
    requires DistinctOutputs(config)
    ensures r in CompileAll(ops, config) <==> exists c :: c in config && Compile(ops, c) == Some(r)
    decreases |config|
  {
    hide Compile;
    if config != [] {
      var init, last := config[..|config| - 1], config[|config| - 1];
      assert config == init + [last];
      CompiledExactly(ops, init, r);
      CompileName(ops, last);
      NamesFromConfig(ops, init);
    }
  }

  /** Entry `i` compiles to a rule, and no earlier entry with its output name does. */
  ghost predicate FirstOf(ops: FloatOps, config: seq<Config>, i: nat, r: Rule) {
    && i < |config| && Compile(ops, config[i]) == Some(r)
    && forall j :: 0 <= j < i && config[j].name == config[i].name ==> Compile(ops, config[j]).None?
  }

  ghost predicate SomeCompiles(ops: FloatOps, config: seq<Config>, name: string) {
    exists i :: 0 <= i < |config| && config[i].name == name && Compile(ops, config[i]).Some?
  }

  ghost predicate IsFirst(ops: FloatOps, config: seq<Config>, r: Rule) {
    exists i: nat :: FirstOf(ops, config, i, r)
  }

  lemma SomeStep(ops: FloatOps, config: seq<Config>, name: string)
    requires config != []
    ensures var n := |config| - 1;
      SomeCompiles(ops, config, name) <==>
      SomeCompiles(ops, config[..n], name) || (config[n].name == name && Compile(ops, config[n]).Some?)
  {
    hide Compile;
    var init := config[..|config| - 1];
    if SomeCompiles(ops, init, name) {
      var i :| 0 <= i < |init| && init[i].name == name && Compile(ops, init[i]).Some?;
      assert config[i] == init[i];
    }
    if SomeCompiles(ops, config, name) {
      var i :| 0 <= i < |config| && config[i].name == name && Compile(ops, config[i]).Some?;
      if i < |init| { assert init[i] == config[i]; }
    }
  }

  lemma FirstStep(ops: FloatOps, config: seq<Config>, r: Rule)
    requires config != []
    ensures var n := |config| - 1;
      IsFirst(ops, config, r) <==>
      IsFirst(ops, config[..n], r) || (Compile(ops, config[n]) == Some(r) && !SomeCompiles(ops, config[..n], config[n].name))
  {
    hide Compile;
    var n := |config| - 1;
    var init := config[..n];
    if IsFirst(ops, init, r) {
      var i: nat :| FirstOf(ops, init, i, r);
      assert FirstOf(ops, config, i, r);
    }
    if IsFirst(ops, config, r) {
      var i: nat :| FirstOf(ops, config, i, r);
      if i < n { assert FirstOf(ops, init, i, r); }
    }
    if Compile(ops, config[n]) == Some(r) && !SomeCompiles(ops, init, config[n].name) {
      assert forall j :: 0 <= j < n ==> config[j] == init[j];
      assert FirstOf(ops, config, n, r);
    }
  }

  lemma {:induction false} NamesKept(ops: FloatOps, config: seq<Config>, name: string)
    ensures HasName(CompileAll(ops, config), name) <==> SomeCompiles(ops, config, name)
    decreases |config|
  {
    if config != [] {
      var n := |config| - 1;
      NamesKept(ops, config[..n], name);
      SomeStep(ops, config, name);
      CompileName(ops, config[n]);
      hide Compile, SomeCompiles;
      var init, c := CompileAll(ops, config[..n]), Compile(ops, config[n]);
      if c.Some? { NameAppended(init, c.value, name); }
    }
  }

  lemma NameAppended(rules: seq<Rule>, r: Rule, name: string)
    ensures HasName(rules + [r], name) <==> HasName(rules, name) || r.name == name
  {
    var all := rules + [r];
    if HasName(rules, name) {
      var i :| 0 <= i < |rules| && rules[i].name == name;
      assert all[i] == rules[i];
    }
    if r.name == name { assert all[|rules|].name == name; }
  }

  /** Of several entries with one output name the first that compiles is kept, and nothing else. */
  lemma {:induction false} FirstKept(ops: FloatOps, config: seq<Config>, r: Rule)
    ensures r in CompileAll(ops, config) <==> IsFirst(ops, config, r)
    decreases |config|
  {
    if config != [] {
      var n := |config| - 1;
      FirstKept(ops, config[..n], r);
      FirstStep(ops, config, r);
      NamesKept(ops, config[..n], config[n].name);
      CompileName(ops, config[n]);
      hide Compile, SomeCompiles, IsFirst, HasName;
    }
  }

  lemma {:induction false} NamesFromConfig(ops: FloatOps, config: seq<Config>)
    ensures forall i :: 0 <= i < |CompileAll(ops, config)| ==>
              exists j :: 0 <= j < |config| && config[j].name == CompileAll(ops, config)[i].name
    decreases |config|
  {
    hide Compile;
    if config != [] {
      var init, last := config[..|config| - 1], config[|config| - 1];
      NamesFromConfig(ops, init);
      CompileName(ops, last);
      var rules := CompileAll(ops, config);
      forall i | 0 <= i < |rules| ensures exists j :: 0 <= j < |config| && config[j].name == rules[i].name {
        if i < |CompileAll(ops, init)| {
          var j :| 0 <= j < |init| && init[j].name == CompileAll(ops, init)[i].name;
          assert config[j] == init[j];
        } else {
          assert config[|config| - 1].name == rules[i].name;
        }
      }
    } else {
      assert CompileAll(ops, config) == [];
    }
  }

  // ------------------------------------------------------------------- tables and graphs

  function TableOf(rules: seq<Rule>): map<string, Rule> {
    if rules == [] then map[]
    else TableOf(rules[..|rules| - 1])[rules[|rules| - 1].name := rules[|rules| - 1]]
  }

  function GraphOf(table: map<string, Rule>): RuleGraph.Graph {
    map n | n in table :: (set v | v in table[n].variables)
  }

  function Nodes(rules: seq<Rule>): seq<Kahn.Node> {
    seq(|rules|, i requires 0 <= i < |rules| => Kahn.Node(rules[i].name, rules[i].variables))
  }

  lemma SameGraph(rules: seq<Rule>)
    requires WellFormed(rules)
    ensures Kahn.WellFormed(Nodes(rules)) && Kahn.GraphOf(Nodes(rules)) == GraphOf(TableOf(rules))
  {
    var nodes := Nodes(rules);
    var g, h := Kahn.GraphOf(nodes), GraphOf(TableOf(rules));
    forall a | a in h ensures a in g && g[a] == h[a] {
      var i := TableFrom(rules, a);
      assert nodes[i].name == a && a in Kahn.Names(nodes);
      Kahn.SameNameSameRule(nodes, i, Kahn.IndexOf(nodes, a));
    }
    forall a | a in g ensures a in h {
      TableAt(rules, Kahn.IndexOf(nodes, a));
    }
  }

  lemma {:induction false} TableAt(rules: seq<Rule>, i: nat)
    requires WellFormed(rules) && i < |rules|
    ensures rules[i].name in TableOf(rules) && TableOf(rules)[rules[i].name] == rules[i]
    decreases |rules|
  {
    hide Faithful;
    if i < |rules| - 1 { TableAt(rules[..|rules| - 1], i); }
  }

  lemma {:induction false} TableFrom(rules: seq<Rule>, a: string) returns (i: nat)
    requires a in TableOf(rules)
    ensures i < |rules| && rules[i].name == a && TableOf(rules)[a] == rules[i]
    decreases |rules|
  {
    i := |rules| - 1;
    if rules[i].name != a { i := TableFrom(rules[..i], a); }
  }

  /** Each rule stands after every rule of the list that it mentions. */
  predicate InOrder(sorted: seq<Rule>) {
    forall p, q :: 0 <= p < |sorted| && 0 <= q < |sorted| && sorted[q].name in sorted[p].variables ==> q < p
  }

  predicate Picks(rules: seq<Rule>, order: seq<nat>, sorted: seq<Rule>) {
    |sorted| == |order| && forall p :: 0 <= p < |order| ==> order[p] < |rules| && sorted[p] == rules[order[p]]
  }

  /** Moving the ordered rules out: each is still there when its turn comes. */
  method TakeAll(rules: seq<Rule>, order: seq<nat>) returns (sorted: seq<Rule>)
    requires Unique(order) && forall p :: 0 <= p < |order| ==> order[p] < |rules|
    ensures Picks(rules, order, sorted)
  {
    var slots: seq<Option<Rule>> := seq(|rules|, i requires 0 <= i < |rules| => Some(rules[i]));
    sorted := [];
    for p := 0 to |order|
      invariant |slots| == |rules| && |sorted| == p
      invariant forall q :: p <= q < |order| ==> slots[order[q]] == Some(rules[order[q]])
      invariant forall q :: 0 <= q < p ==> sorted[q] == rules[order[q]]
    {
      var i := order[p];
      assert slots[i].Some?;
      sorted := sorted + [slots[i].value];
      slots := slots[i := None];
    }
  }

  lemma PickedInOrder(rules: seq<Rule>, order: seq<nat>, sorted: seq<Rule>)
    requires WellFormed(rules) && Kahn.Complete(Nodes(rules), order) && Picks(rules, order, sorted)
    ensures WellFormed(sorted) && InOrder(sorted)
  {
    var nodes := Nodes(rules);
    forall p, q | 0 <= p < |sorted| && 0 <= q < |sorted| && sorted[q].name in sorted[p].variables ensures q < p {
      assert order[q] in Kahn.Deps(nodes, order[p]);
      assert order[q] in Members(order[..p]);
    }
  }

  lemma {:induction false} PickedExactly(rules: seq<Rule>, order: seq<nat>, sorted: seq<Rule>, r: Rule)
    requires WellFormed(rules) && Kahn.Complete(Nodes(rules), order) && Picks(rules, order, sorted)
    ensures r in sorted <==> r in rules && RuleGraph.Grounded(GraphOf(TableOf(rules)), r.name)
  {
    SameGraph(rules);
    hide RuleGraph.Grounded, TableOf, GraphOf, Kahn.Complete;
    if r in sorted {
      var p :| 0 <= p < |sorted| && sorted[p] == r;
      Kahn.KeptExactly(Nodes(rules), order, order[p]);
    } else if r in rules {
      var x :| 0 <= x < |rules| && rules[x] == r;
      Kahn.KeptExactly(Nodes(rules), order, x);
      assert x !in order;
    }
  }

  /** Exactly the rules clear of dependency cycles, each once, after everything it depends on. */
  method TopologicalSort(rules: seq<Rule>) returns (sorted: seq<Rule>)
    requires WellFormed(rules)
    ensures WellFormed(sorted) && InOrder(sorted)
    ensures forall r :: r in sorted <==> r in rules && RuleGraph.Grounded(GraphOf(TableOf(rules)), r.name)
  {
    SameGraph(rules);
    hide WellFormed, Kahn.WellFormed, GraphOf, TableOf, RuleGraph.Grounded;
    var order := Kahn.SortIndices(Nodes(rules));
    sorted := TakeAll(rules, order);
    PickedInOrder(rules, order, sorted);
    forall r ensures r in sorted <==> r in rules && RuleGraph.Grounded(GraphOf(TableOf(rules)), r.name) {
      PickedExactly(rules, order, sorted, r);
    }
  }
}

/** One evaluation cycle over the ordered rules, and what it means. */
module Engine {
  import opened Basics
  import opened Parser
  import opened Evaluator
  import opened Rules
  import opened RuleGraph

  type Variables = map<string, EvalValue>
  type Validity = map<string, bool>

  /** A published value; a single-precision float is the double it equals. */
  datatype Value = UIntOut(n: nat) | BoolOut(b: bool) | FloatOut(f: Float) | DoubleOut(f: Float)

  datatype Output = Output(value: Value, valid: bool)

  datatype Line = Line(name: string, out: Output)

  function FromModel(v: Value): EvalValue {
    match v
    case UIntOut(n) => IntV(n)
    case BoolOut(b) => BoolV(b)
    case FloatOut(f) => FloatV(f)
    case DoubleOut(f) => FloatV(f)
  }

  function Clamp(ops: FloatOps, x: Float, lo: Float, hi: Float): Float {
    if ops.lt(x, lo) then lo else if ops.lt(hi, x) then hi else x
  }

  /** Clamp to the limits and convert to the configured type. */
  function Convert(ops: FloatOps, r: Rule, safe: EvalValue): Value {
    var clamped := Clamp(ops, AsFloat(ops, safe), r.min, r.max);
    match r.dataType
    case UIntType => UIntOut(ops.toU32(clamped))
    case BoolType => BoolOut(if safe.BoolV? && ops.same(clamped, AsFloat(ops, safe)) then safe.b else !ops.isZero(clamped))
    case FloatType =>
      FloatOut(if ops.lt(ops.f32Max, clamped) then ops.f32Max
               else if ops.lt(clamped, ops.neg(ops.f32Max)) then ops.neg(ops.f32Max)
               else ops.toF32(clamped))
    case DoubleType => DoubleOut(clamped)
  }

  /** What a rule yields from an evaluation: the default on failure or a non-finite value. */
  function Conclude(ops: FloatOps, r: Rule, e: Evaluated<(EvalValue, bool)>): Output {
    var raw := if e.Ok? then e.value.0 else FloatV(r.default);
    var broken := raw.FloatV? && !ops.finite(raw.f);
    Output(Convert(ops, r, if broken then FloatV(r.default) else raw), e.Ok? && e.value.1 && !broken)
  }

  function Outcome(ops: FloatOps, r: Rule, vars: Variables, validity: Validity): Output {
    Conclude(ops, r, EvaluateWithValidity(ops, r.ast, vars, validity))
  }

  /** The number a rule's limits leave of `x`. */
  ghost predicate Limited(ops: FloatOps, r: Rule, x: Float, y: Float) {
    && (ops.lt(x, r.min) ==> y == r.min)
    && (!ops.lt(x, r.min) && ops.lt(r.max, x) ==> y == r.max)
    && (!ops.lt(x, r.min) && !ops.lt(r.max, x) ==> y == x)
  }

  /** A number as the configured type shows it; a truth value that the limits leave alone shows as it is. */
  ghost predicate ShownAs(ops: FloatOps, r: Rule, v: EvalValue, x: Float, y: Float, out: Value) {
    match r.dataType
    case UIntType => out == UIntOut(ops.toU32(y))
    case DoubleType => out == DoubleOut(y)
    case BoolType =>
      if v.BoolV? && ops.same(y, x) then out == BoolOut(v == BoolV(true))
      else out == BoolOut(!ops.isZero(y))
    case FloatType =>
      var least := ops.neg(ops.f32Max);
      && (ops.lt(ops.f32Max, y) ==> out == FloatOut(ops.f32Max))
      && (!ops.lt(ops.f32Max, y) && ops.lt(y, least) ==> out == FloatOut(least))
      && (!ops.lt(ops.f32Max, y) && !ops.lt(y, least) ==> out == FloatOut(ops.toF32(y)))
  }

  /** What a rule publishes: its result if that is a usable number and otherwise its default, which is
      never valid; limited first by the minimum and then by the maximum, in the configured type. */
  lemma OutcomeMeaning(ops: FloatOps, r: Rule, vars: Variables, validity: Validity, v: EvalValue, x: Float, y: Float)
    requires var e := EvaluateWithValidity(ops, r.ast, vars, validity);
      v == if e.Err? || (e.value.0.FloatV? && !ops.finite(e.value.0.f)) then FloatV(r.default) else e.value.0
    requires Real(ops, v, x) && Limited(ops, r, x, y)
    ensures var e := EvaluateWithValidity(ops, r.ast, vars, validity); var out := Outcome(ops, r, vars, validity);
      && ShownAs(ops, r, v, x, y, out.value)
      && (out.valid <==> e.Ok? && e.value.1 && !(e.value.0.FloatV? && !ops.finite(e.value.0.f)))
  {
    hide EvaluateWithValidity;
  }

  /** What later rules see of an output: its value, by its type, and its validity. */
  lemma OutputsSeen(base: Variables, validity: Validity, out: map<string, Output>, n: string)
    ensures n in out ==> n in VarsWith(base, out) && Marked(ValidWith(validity, out), n) == out[n].valid
    ensures n in out && out[n].value.UIntOut? ==> VarsWith(base, out)[n] == IntV(out[n].value.n)
    ensures n in out && out[n].value.BoolOut? ==> VarsWith(base, out)[n] == BoolV(out[n].value.b)
    ensures n in out && (out[n].value.FloatOut? || out[n].value.DoubleOut?) ==> VarsWith(base, out)[n] == FloatV(out[n].value.f)
    ensures n !in out ==> Get(VarsWith(base, out), n) == Get(base, n) && (Marked(ValidWith(validity, out), n) <==> Marked(validity, n))
  {
  }

  /** Base values overlaid by outputs. */
  function VarsWith(base: Variables, out: map<string, Output>): Variables {
    base + map n | n in out :: FromModel(out[n].value)
  }

  function ValidWith(base: Validity, out: map<string, Output>): Validity {
    base + map n | n in out :: out[n].valid
  }

  /** The recursive meaning of a rule table: an output for every rule clear of cycles, each the outcome
      of its rule on the base values and the outputs themselves. */
  ghost predicate Solves(ops: FloatOps, table: map<string, Rule>, base: Variables, validity: Validity, out: map<string, Output>) {
    && (forall n :: n in out <==> Grounded(GraphOf(table), n))
    && (forall n :: n in out ==> n in table && out[n] == Outcome(ops, table[n], VarsWith(base, out), ValidWith(validity, out)))
  }

  // -------------------------------------------------------------------------- the cycle

  function OutputsOf(lines: seq<Line>): map<string, Output> {
    if lines == [] then map[] else OutputsOf(lines[..|lines| - 1])[lines[|lines| - 1].name := lines[|lines| - 1].out]
  }

  lemma {:induction false} OutputsAt(lines: seq<Line>, k: nat)
    requires k < |lines| && forall i, j :: 0 <= i < j < |lines| ==> lines[i].name != lines[j].name
    ensures lines[k].name in OutputsOf(lines) && OutputsOf(lines)[lines[k].name] == lines[k].out
    decreases |lines|
  {
    if k < |lines| - 1 { OutputsAt(lines[..|lines| - 1], k); }
  }

  lemma {:induction false} OutputsFrom(lines: seq<Line>, n: string)
    ensures n in OutputsOf(lines) <==> exists k :: 0 <= k < |lines| && lines[k].name == n
    decreases |lines|
  {
    if lines != [] {
      var init := lines[..|lines| - 1];
      OutputsFrom(init, n);
      assert lines == init + [lines[|lines| - 1]];
    }
  }

  lemma {:induction false} OverlayStep(base: Variables, validity: Validity, lines: seq<Line>, line: Line)
    ensures VarsWith(base, OutputsOf(lines + [line])) == VarsWith(base, OutputsOf(lines))[line.name := FromModel(line.out.value)]
    ensures ValidWith(validity, OutputsOf(lines + [line])) == ValidWith(validity, OutputsOf(lines))[line.name := line.out.valid]
  {
    assert (lines + [line])[..|lines|] == lines;
    assert OutputsOf(lines + [line]) == OutputsOf(lines)[line.name := line.out];
    hide OutputsOf, FromModel;
    OverlayVars(base, OutputsOf(lines), line);
    OverlayValid(validity, OutputsOf(lines), line);
  }

  lemma OverlayVars(base: Variables, out: map<string, Output>, line: Line)
    ensures VarsWith(base, out[line.name := line.out]) == VarsWith(base, out)[line.name := FromModel(line.out.value)]
  {
    hide FromModel;
  }

  lemma OverlayValid(base: Validity, out: map<string, Output>, line: Line)
    ensures ValidWith(base, out[line.name := line.out]) == ValidWith(base, out)[line.name := line.out.valid]
  {
  }

  /** Line k was computed from the lines before it. */
  ghost predicate Computed(ops: FloatOps, rules: seq<Rule>, base: Variables, validity: Validity, lines: seq<Line>, k: nat)
    requires k < |rules| && k < |lines|
  {
    lines[k] == Line(rules[k].name, Outcome(ops, rules[k], VarsWith(base, OutputsOf(lines[..k])), ValidWith(validity, OutputsOf(lines[..k]))))
  }

  method RunRules(ops: FloatOps, rules: seq<Rule>, base: Variables, validity: Validity) returns (lines: seq<Line>)
    ensures |lines| == |rules| && forall k :: 0 <= k < |rules| ==> Computed(ops, rules, base, validity, lines, k)
  {
    var vars, valid := base, validity;
    lines := [];
    hide Outcome;
    for i := 0 to |rules|
      invariant |lines| == i
      invariant vars == VarsWith(base, OutputsOf(lines)) && valid == ValidWith(validity, OutputsOf(lines))
      invariant forall k :: 0 <= k < i ==> Computed(ops, rules, base, validity, lines, k)
    {
      var out := Outcome(ops, rules[i], vars, valid);
      var line := Line(rules[i].name, out);
      OverlayStep(base, validity, lines, line);
      ComputedStep(ops, rules, base, validity, lines, line);
      vars := vars[line.name := FromModel(out.value)];
      valid := valid[line.name := out.valid];
      lines := lines + [line];
    }
  }

  lemma {:induction false} ComputedStep(ops: FloatOps, rules: seq<Rule>, base: Variables, validity: Validity, lines: seq<Line>, line: Line)
    requires |lines| < |rules| && forall k :: 0 <= k < |lines| ==> Computed(ops, rules, base, validity, lines, k)
    requires line == Line(rules[|lines|].name, Outcome(ops, rules[|lines|], VarsWith(base, OutputsOf(lines)), ValidWith(validity, OutputsOf(lines))))
    ensures forall k :: 0 <= k <= |lines| ==> Computed(ops, rules, base, validity, lines + [line], k)
  {
    hide Outcome, VarsWith, ValidWith, OutputsOf;
    forall k | 0 <= k <= |lines| ensures Computed(ops, rules, base, validity, lines + [line], k) {
      assert (lines + [line])[..k] == if k < |lines| then lines[..k] else lines;
      if k < |lines| { assert Computed(ops, rules, base, validity, lines, k); }
    }
  }

  /** A mentioned name looks the same in a prefix and in the whole: an output of the list was computed
      before, anything else is a base value. */
  lemma {:induction false} PrefixAgrees(rules: seq<Rule>, base: Variables, validity: Validity, lines: seq<Line>, k: nat, v: string)
    requires WellFormed(rules) && InOrder(rules) && |lines| == |rules| && k < |rules| && v in rules[k].variables
    requires forall i :: 0 <= i < |rules| ==> lines[i].name == rules[i].name
    ensures var part, all := OutputsOf(lines[..k]), OutputsOf(lines);
      && Get(VarsWith(base, part), v) == Get(VarsWith(base, all), v)
      && (Marked(ValidWith(validity, part), v) <==> Marked(ValidWith(validity, all), v))
  {
    OutputsFrom(lines[..k], v);
    OutputsFrom(lines, v);
    if v in OutputsOf(lines) {
      var q :| 0 <= q < |lines| && lines[q].name == v;
      assert q < k;
      assert lines[..k][q] == lines[q];
      OutputsAt(lines, q);
      OutputsAt(lines[..k], q);
    }
  }

  /** The cycle's lines satisfy the recursive equations of the whole list. */
  lemma ComputedSolves(ops: FloatOps, rules: seq<Rule>, base: Variables, validity: Validity, lines: seq<Line>, k: nat)
    requires WellFormed(rules) && InOrder(rules) && |lines| == |rules| && k < |rules|
    requires forall i :: 0 <= i < |rules| ==> Computed(ops, rules, base, validity, lines, i)
    ensures lines[k].out == Outcome(ops, rules[k], VarsWith(base, OutputsOf(lines)), ValidWith(validity, OutputsOf(lines)))
  {
    hide OutputsOf, VarsWith, ValidWith, Mentions, Get, Marked, Conclude;
    var part, all := OutputsOf(lines[..k]), OutputsOf(lines);
    assert Computed(ops, rules, base, validity, lines, k);
    assert Faithful(rules[k]);
    forall i | 0 <= i < |rules| ensures lines[i].name == rules[i].name {
      assert Computed(ops, rules, base, validity, lines, i);
    }
    forall v | v in Mentions(rules[k].ast)
      ensures Get(VarsWith(base, part), v) == Get(VarsWith(base, all), v)
      ensures Marked(ValidWith(validity, part), v) <==> Marked(ValidWith(validity, all), v)
    {
      PrefixAgrees(rules, base, validity, lines, k, v);
    }
    Coincidence(ops, rules[k].ast, VarsWith(base, part), ValidWith(validity, part), VarsWith(base, all), ValidWith(validity, all));
  }

  /** What ordering and running a compiled list gives solves the list's table. */
  lemma {:induction false} CycleSolves(ops: FloatOps, rules: seq<Rule>, sorted: seq<Rule>, base: Variables, validity: Validity, lines: seq<Line>)
    requires WellFormed(rules) && WellFormed(sorted) && InOrder(sorted)
    requires forall r :: r in sorted <==> r in rules && Grounded(GraphOf(TableOf(rules)), r.name)
    requires |lines| == |sorted| && forall k :: 0 <= k < |sorted| ==> Computed(ops, sorted, base, validity, lines, k)
    ensures Solves(ops, TableOf(rules), base, validity, OutputsOf(lines))
  {
    var table, out := TableOf(rules), OutputsOf(lines);
    hide WellFormed, Grounded, TableOf, OutputsOf, Outcome, VarsWith, ValidWith;
    forall k | 0 <= k < |sorted| ensures lines[k].name == sorted[k].name {
      assert Computed(ops, sorted, base, validity, lines, k);
    }
    forall n | n in out ensures n in table && Grounded(GraphOf(table), n) && out[n] == Outcome(ops, table[n], VarsWith(base, out), ValidWith(validity, out)) {
      OutputsFrom(lines, n);
      var k :| 0 <= k < |lines| && lines[k].name == n;
      OutputKnown(rules, sorted, lines, k);
      ComputedSolves(ops, sorted, base, validity, lines, k);
    }
    forall n | Grounded(GraphOf(table), n) ensures n in out {
      GroundedListed(rules, n);
      var i := TableFrom(rules, n);
      assert rules[i] in sorted;
      var k :| 0 <= k < |sorted| && sorted[k] == rules[i];
      assert lines[k].name == n;
      OutputsFrom(lines, n);
    }
  }

  lemma OutputKnown(rules: seq<Rule>, sorted: seq<Rule>, lines: seq<Line>, k: nat)
    requires WellFormed(rules) && WellFormed(sorted) && |lines| == |sorted| && k < |lines|
    requires forall r :: r in sorted <==> r in rules && Grounded(GraphOf(TableOf(rules)), r.name)
    requires forall i :: 0 <= i < |sorted| ==> lines[i].name == sorted[i].name
    ensures var n := lines[k].name;
      && n in TableOf(rules) && TableOf(rules)[n] == sorted[k] && Grounded(GraphOf(TableOf(rules)), n)
      && n in OutputsOf(lines) && OutputsOf(lines)[n] == lines[k].out
  {
    hide Grounded, TableOf, OutputsOf, Faithful;
    assert sorted[k] in sorted;
    var i :| 0 <= i < |rules| && rules[i] == sorted[k];
    TableAt(rules, i);
    OutputsAt(lines, k);
  }

  lemma GroundedListed(rules: seq<Rule>, n: string)
    requires Grounded(GraphOf(TableOf(rules)), n)
    ensures n in TableOf(rules)
  {
  }

  // ------------------------------------------------------------------- the meaning is unique

  /** Mentioned names of a rule clear of cycles: outputs of the table, or base variables. */
  lemma MentionedIsKept(table: map<string, Rule>, a: string, v: string)
    requires Grounded(GraphOf(table), a) && v in table[a].variables
    ensures v in table <==> Grounded(GraphOf(table), v)
    ensures v in table ==> Depends(GraphOf(table), a, v)
  {
    if v in table {
      assert v in GraphOf(table)[a];
      GroundedDependency(GraphOf(table), a, v);
    }
  }

  ghost predicate AllFaithful(table: map<string, Rule>) {
    forall n :: n in table ==> Faithful(table[n])
  }

  /** Along any dependency walk from a kept rule, two solutions agree. */
  lemma {:induction false} AgreeAlong(ops: FloatOps, table: map<string, Rule>, base: Variables, validity: Validity,
                                      one: map<string, Output>, two: map<string, Output>, w: seq<string>)
    requires AllFaithful(table) && Solves(ops, table, base, validity, one) && Solves(ops, table, base, validity, two)
    requires Walk(GraphOf(table), w) && Grounded(GraphOf(table), w[0]) && Grounded(GraphOf(table), w[|w| - 1])
    ensures w[|w| - 1] in one && w[|w| - 1] in two && one[w[|w| - 1]] == two[w[|w| - 1]]
    decreases |table| - |w|
  {
    var g, a := GraphOf(table), w[|w| - 1];
    assert |g| == |table| by { assert g.Keys == table.Keys; }
    assert Faithful(table[a]);
    hide Grounded, GraphOf, Mentions, Conclude, VarsWith, ValidWith, Get, Marked, AllFaithful;
    forall v | v in Mentions(table[a].ast)
      ensures Get(VarsWith(base, one), v) == Get(VarsWith(base, two), v)
      ensures Marked(ValidWith(validity, one), v) <==> Marked(ValidWith(validity, two), v)
    {
      MentionedIsKept(table, a, v);
      if v in table {
        ExtendWalk(g, w, v);
        StaysShort(g, w + [v]);
        AgreeAlong(ops, table, base, validity, one, two, w + [v]);
      }
      OverlayAgrees(base, validity, base, validity, one, two, v);
    }
    Coincidence(ops, table[a].ast, VarsWith(base, one), ValidWith(validity, one), VarsWith(base, two), ValidWith(validity, two));
  }

  lemma StaysShort(g: Graph, w: seq<string>)
    requires Walk(g, w) && Grounded(g, w[0])
    ensures |w| <= |g|
  {
    WalkShort(g, w);
  }

  /** Overlays look alike at a name that is an output of both or of neither. */
  lemma OverlayAgrees(base: Variables, validity: Validity, base': Variables, validity': Validity,
                      one: map<string, Output>, two: map<string, Output>, v: string)
    requires v in one <==> v in two
    ensures v in one && one[v] == two[v] ==>
      Get(VarsWith(base, one), v) == Get(VarsWith(base', two), v) && (Marked(ValidWith(validity, one), v) <==> Marked(ValidWith(validity', two), v))
    ensures v !in one ==>
      && Get(VarsWith(base, one), v) == Get(base, v) && (Marked(ValidWith(validity, one), v) <==> Marked(validity, v))
      && Get(VarsWith(base', two), v) == Get(base', v) && (Marked(ValidWith(validity', two), v) <==> Marked(validity', v))
    ensures v in one ==> (Marked(ValidWith(validity, one), v) <==> one[v].valid) && (Marked(ValidWith(validity', two), v) <==> two[v].valid)
  {
    hide FromModel;
  }

  /** THEOREM: the recursive equations have one solution. */
  lemma {:induction false} SolutionUnique(ops: FloatOps, table: map<string, Rule>, base: Variables, validity: Validity, one: map<string, Output>, two: map<string, Output>)
    requires AllFaithful(table) && Solves(ops, table, base, validity, one) && Solves(ops, table, base, validity, two)
    ensures one == two
  {
    hide AllFaithful, Outcome, VarsWith, ValidWith, Grounded, GraphOf;
    forall n | n in one ensures n in two && one[n] == two[n] {
      assert [n][0] == n;
      StartsWalk(GraphOf(table), n);
      AgreeAlong(ops, table, base, validity, one, two, [n]);
    }
    assert forall n :: n in two ==> n in one;
  }

  lemma StartsWalk(g: Graph, n: string)
    requires Grounded(g, n)
    ensures Walk(g, [n])
  {
  }

  // -------------------------------------------------------------- validity across the graph

  /** Neither run reports an output valid that the other would not report valid and equal. */
  predicate SameWhereValid(a: Output, b: Output) {
    a.valid || b.valid ==> a == b
  }

  lemma ConcludeValid(ops: FloatOps, r: Rule, e: Evaluated<(EvalValue, bool)>)
    ensures Conclude(ops, r, e).valid ==> e.Ok? && e.value.1
  {
  }

  lemma SameIfValidSymmetric(v1: Variables, q1: Validity, v2: Variables, q2: Validity, n: string)
    requires SameIfValid(v1, q1, v2, q2, n)
    ensures SameIfValid(v2, q2, v1, q1, n)
  {
  }

  lemma OutcomeStable(ops: FloatOps, r: Rule, v1: Variables, q1: Validity, v2: Variables, q2: Validity)
    requires forall n :: n in Mentions(r.ast) ==> SameIfValid(v1, q1, v2, q2, n)
    ensures SameWhereValid(Outcome(ops, r, v1, q1), Outcome(ops, r, v2, q2))
  {
    hide EvaluateWithValidity, Conclude, Mentions, SameIfValid;
    NonInterference(ops, r.ast, v1, q1, v2, q2);
    forall n | n in Mentions(r.ast) ensures SameIfValid(v2, q2, v1, q1, n) {
      SameIfValidSymmetric(v1, q1, v2, q2, n);
    }
    NonInterference(ops, r.ast, v2, q2, v1, q1);
    ConcludeValid(ops, r, EvaluateWithValidity(ops, r.ast, v1, q1));
    ConcludeValid(ops, r, EvaluateWithValidity(ops, r.ast, v2, q2));
  }

  lemma {:induction false} StableAlong(ops: FloatOps, table: map<string, Rule>, v1: Variables, q1: Validity, v2: Variables, q2: Validity,
                                       one: map<string, Output>, two: map<string, Output>, w: seq<string>)
    requires AllFaithful(table) && Solves(ops, table, v1, q1, one) && Solves(ops, table, v2, q2, two)
    requires forall n :: SameIfValid(v1, q1, v2, q2, n)
    requires Walk(GraphOf(table), w) && Grounded(GraphOf(table), w[0]) && Grounded(GraphOf(table), w[|w| - 1])
    ensures w[|w| - 1] in one && w[|w| - 1] in two && SameWhereValid(one[w[|w| - 1]], two[w[|w| - 1]])
    decreases |table| - |w|
  {
    var g, a := GraphOf(table), w[|w| - 1];
    assert |g| == |table| by { assert g.Keys == table.Keys; }
    assert Faithful(table[a]);
    hide Grounded, GraphOf, Mentions, Outcome, VarsWith, ValidWith, AllFaithful, Get, Marked;
    forall v | v in Mentions(table[a].ast)
      ensures SameIfValid(VarsWith(v1, one), ValidWith(q1, one), VarsWith(v2, two), ValidWith(q2, two), v)
    {
      MentionedIsKept(table, a, v);
      if v in table {
        ExtendWalk(g, w, v);
        StaysShort(g, w + [v]);
        StableAlong(ops, table, v1, q1, v2, q2, one, two, w + [v]);
      }
      OverlayAgrees(v1, q1, v2, q2, one, two, v);
      assert SameIfValid(v1, q1, v2, q2, v);
    }
    OutcomeStable(ops, table[a], VarsWith(v1, one), ValidWith(q1, one), VarsWith(v2, two), ValidWith(q2, two));
  }

  /** THEOREM: an output reported valid does not change, in value or validity, when base variables
      marked invalid are changed or deleted, through any chain of rules. */
  lemma {:induction false} ValidOutputsStable(ops: FloatOps, table: map<string, Rule>, v1: Variables, q1: Validity, v2: Variables, q2: Validity,
                           one: map<string, Output>, two: map<string, Output>, n: string)
    requires AllFaithful(table) && Solves(ops, table, v1, q1, one) && Solves(ops, table, v2, q2, two)
    requires forall x :: SameIfValid(v1, q1, v2, q2, x)
    requires n in one && one[n].valid
    ensures n in two && two[n] == one[n]
  {
    hide AllFaithful, Outcome, VarsWith, ValidWith, Grounded, GraphOf, SameIfValid;
    assert [n][0] == n;
    StartsWalk(GraphOf(table), n);
    StableAlong(ops, table, v1, q1, v2, q2, one, two, [n]);
  }

  /** Changing or deleting only invalid base variables gives the situation above. */
  lemma EditingInvalid(v1: Variables, v2: Variables, q: Validity)
    requires forall n :: Marked(q, n) ==> Get(v1, n) == Get(v2, n)
    ensures forall n :: SameIfValid(v1, q, v2, q, n)
  {
  }

  // ------------------------------------------------------------------ order is irrelevant

  lemma {:induction false} SameRulesSameTable(a: seq<Rule>, b: seq<Rule>)
    requires WellFormed(a) && WellFormed(b) && forall r :: r in a <==> r in b
    ensures TableOf(a) == TableOf(b)
  {
    hide Faithful, TableOf;
    TableIncluded(a, b);
    TableIncluded(b, a);
    assert forall n :: n in TableOf(a) ==> n in TableOf(b);
    assert forall n :: n in TableOf(b) ==> n in TableOf(a);
  }

  lemma {:induction false} TableIncluded(a: seq<Rule>, b: seq<Rule>)
    requires WellFormed(a) && WellFormed(b) && forall r :: r in a <==> r in b
    ensures forall n :: n in TableOf(a) ==> n in TableOf(b) && TableOf(a)[n] == TableOf(b)[n]
  {
    hide Faithful, TableOf;
    forall n | n in TableOf(a) ensures n in TableOf(b) && TableOf(a)[n] == TableOf(b)[n] {
      var i := TableFrom(a, n);
      assert a[i] in b;
      var j :| 0 <= j < |b| && b[j] == a[i];
      TableAt(b, j);
    }
  }

  /** Configurations with the same entries in any order compile to the same table. */
  lemma {:induction false} PermutedTable(ops: FloatOps, a: seq<Config>, b: seq<Config>)
    requires multiset(a) == multiset(b) && DistinctOutputs(a) && DistinctOutputs(b)
    ensures WellFormed(CompileAll(ops, a)) && WellFormed(CompileAll(ops, b))
    ensures TableOf(CompileAll(ops, a)) == TableOf(CompileAll(ops, b))
  {
    hide CompileAll, Compile, WellFormed, TableOf;
    CompileAllWellFormed(ops, a);
    CompileAllWellFormed(ops, b);
    forall c ensures c in a <==> c in b {
      assert c in a <==> c in multiset(a);
      assert c in b <==> c in multiset(b);
    }
    forall r ensures r in CompileAll(ops, a) <==> r in CompileAll(ops, b) {
      CompiledExactly(ops, a, r);
      CompiledExactly(ops, b, r);
    }
    SameRulesSameTable(CompileAll(ops, a), CompileAll(ops, b));
  }

  lemma {:induction false} TableFaithful(rules: seq<Rule>)
    requires WellFormed(rules)
    ensures AllFaithful(TableOf(rules))
  {
    hide Faithful, TableOf;
    forall n | n in TableOf(rules) ensures Faithful(TableOf(rules)[n]) {
      var _ := TableFrom(rules, n);
    }
  }

  /** THEOREM: permuting a configuration with distinct output names never changes the result map. */
  lemma {:induction false} PermutationIrrelevant(ops: FloatOps, a: seq<Config>, b: seq<Config>, base: Variables, validity: Validity,
                                                 one: map<string, Output>, two: map<string, Output>)
    requires multiset(a) == multiset(b) && DistinctOutputs(a) && DistinctOutputs(b)
    requires Solves(ops, TableOf(CompileAll(ops, a)), base, validity, one)
    requires Solves(ops, TableOf(CompileAll(ops, b)), base, validity, two)
    ensures one == two
  {
    hide *;
    PermutedTable(ops, a, b);
    TableFaithful(CompileAll(ops, a));
    SolutionUnique(ops, TableOf(CompileAll(ops, a)), base, validity, one, two);
  }

  // -------------------------------------------------------------------------- the engine

  /** The compiled, ordered rules; unchanged after construction. */
  class CalcEngine {
    const ops: FloatOps
    const rules: seq<Rule>
    ghost const config: seq<Config>

    ghost predicate Valid() {
      && WellFormed(rules) && InOrder(rules) && WellFormed(CompileAll(ops, config))
      && forall r :: r in rules <==> r in CompileAll(ops, config) && Grounded(GraphOf(TableOf(CompileAll(ops, config))), r.name)
    }

    constructor (ops: FloatOps, config: seq<Config>)
      ensures Valid() && this.ops == ops && this.config == config
    {
      var compiled := CompileRules(ops, config);
      CompileAllWellFormed(ops, config);
      var sorted := TopologicalSort(compiled);
      this.ops, this.rules, this.config := ops, sorted, config;
    }

    /** One cycle: each rule's output is its recursive meaning over the base values. */
    method RunCycle(base: Variables, validity: Validity) returns (lines: seq<Line>)
      requires Valid()
      ensures |lines| == |rules| && forall k :: 0 <= k < |rules| ==> lines[k].name == rules[k].name
      ensures Solves(ops, TableOf(CompileAll(ops, config)), base, validity, OutputsOf(lines))
    {
      hide WellFormed, Grounded, TableOf, GraphOf, CompileAll, OutputsOf, Solves, Outcome, InOrder;
      lines := RunRules(ops, rules, base, validity);
      CycleSolves(ops, CompileAll(ops, config), rules, base, validity, lines);
      forall k | 0 <= k < |rules| ensures lines[k].name == rules[k].name {
        assert Computed(ops, rules, base, validity, lines, k);
      }
    }
  }

  /** The compilation loop: rules that fail or repeat an output name are skipped. */
  method CompileRules(ops: FloatOps, config: seq<Config>) returns (compiled: seq<Rule>)
    ensures compiled == CompileAll(ops, config)
  {
    compiled := [];
    hide Compile;
    for i := 0 to |config|
      invariant compiled == CompileAll(ops, config[..i])
    {
      assert config[..i + 1][..i] == config[..i];
      var r := Compile(ops, config[i]);
      if r.Some? && !HasName(compiled, r.value.name) {
        compiled := compiled + [r.value];
      }
    }
    assert config[..|config|] == config;
  }
}
