/** What a template block means: a tree, or nothing, as a function of an
    environment that is passed down and never changed. Budgets are not part of
    the meaning; it only records what it would take to produce it. */
module Templates {
  import opened Decimals
  import opened Fields
  import opened Ints
  import opened Options
  import opened Scfg
  import Trails

  type Tree = Directive<nat>

  /** An output directive, with the constructs it came out of, innermost first. */
  type Labelled = Directive<seq<Trails.Frame>>

  datatype Context = Context(lists: map<string, seq<string>>, environ: Environ)

  /** `iterations` counts loop rounds, `levels` the for and if constructs active at
      once, `widest` the rounds of the longest single loop. */
  datatype Outcome = Undefined | Defined(out: seq<Labelled>, iterations: nat, levels: nat, widest: nat)

  const NOTHING: Outcome := Defined([], 0, 0, 0)

  function Then(a: Outcome, b: Outcome): Outcome {
    if a.Undefined? || b.Undefined? then Undefined
    else Defined(a.out + b.out, a.iterations + b.iterations, Max(a.levels, b.levels), Max(a.widest, b.widest))
  }

  /** How many directives a tree holds, at every depth. */
  function Size<T>(ds: seq<Directive<T>>): nat {
    if ds == [] then 0 else 1 + Size(ds[0].children) + Size(ds[1..])
  }

  lemma {:induction false} SizeConcat<T>(a: seq<Directive<T>>, b: seq<Directive<T>>)
    ensures Size(a + b) == Size(a) + Size(b)
    decreases |a|
  {
    if a == [] {
      assert a + b == b;
    } else {
      assert (a + b)[1..] == a[1..] + b;
      SizeConcat(a[1..], b);
    }
  }

  lemma ThenAssociative(a: Outcome, b: Outcome, c: Outcome)
    ensures Then(Then(a, b), c) == Then(a, Then(b, c))
  {
    if a.Defined? && b.Defined? && c.Defined? {
      assert (a.out + b.out) + c.out == a.out + (b.out + c.out);
    }
  }

  lemma ThenNothing(a: Outcome)
    ensures Then(a, NOTHING) == a && Then(NOTHING, a) == a
  {
    if a.Defined? {
      assert a.out + [] == a.out && [] + a.out == a.out;
    }
  }

  // ----- Blocks --------------------------------------------------------------------

  predicate IsControl(name: string) {
    name == "vars" || name == "lists" || name == "for" || name == "if" || name == "else"
  }

  /** A `for` header: "name in iterable". */
  predicate ForHeader(d: Tree) {
    d.hasBlock && |d.params| == 3 && d.params[1] == "in" && Identifier(d.params[0])
  }

  predicate IfHeader(d: Tree) {
    d.hasBlock && |d.params| == 3 && (d.params[1] == "==" || d.params[1] == "!=")
  }

  predicate ElseHeader(d: Tree) {
    d.hasBlock && |d.params| == 0
  }

  function RangeValues(low: nat, high: nat): (r: seq<string>)
    requires low <= high
    ensures |r| == high - low + 1
  {
    seq(high - low + 1, k requires 0 <= k => Decimal(low + k))
  }

  /** The values a loop runs through: a range of numbers, or a list by its name. */
  function LoopValues(iterable: string, ctx: Context): Option<seq<string>> {
    if FindDots(iterable, 0).Some? then
      var r := RangeOf(iterable);
      if r.None? then None else Some(RangeValues(r.value.low, r.value.high))
    else if iterable in ctx.lists then Some(ctx.lists[iterable])
    else None
  }

  /** A construct around an outcome: one more level, and the rounds it takes. */
  function Around(body: Outcome, rounds: nat): Outcome {
    if body.Undefined? then Undefined
    else Defined(body.out, body.iterations + rounds, body.levels + 1, Max(body.widest, rounds))
  }

  /** One round of a loop: the body, with the variable bound to a value. */
  function RoundMeaning(d: Tree, value: string, env: Env, path: seq<Trails.Frame>, ctx: Context): Outcome
    requires ForHeader(d)
    decreases d, 1
  {
    var frame := Trails.Frame(Trails.For, d.params[0], value);
    Around(BlockMeaning(d.children, env[d.params[0] := value], false, [frame] + path, ctx), 1)
  }

  function ForEach(d: Tree, values: seq<string>, env: Env, path: seq<Trails.Frame>, ctx: Context): Outcome
    requires ForHeader(d)
    decreases d, 2, |values|
  {
    if values == [] then NOTHING
    else Then(RoundMeaning(d, values[0], env, path, ctx), ForEach(d, values[1..], env, path, ctx))
  }

  /** A loop is a level even when it has no rounds, and is as wide as its values. */
  function Loop(rounds: Outcome, width: nat): Outcome {
    if rounds.Undefined? then Undefined
    else rounds.(levels := Max(rounds.levels, 1), widest := Max(rounds.widest, width))
  }

  /** The values of a loop whose header and iterable are in order. */
  function LoopOf(d: Tree, env: Env, ctx: Context): (r: Option<seq<string>>)
    ensures r.Some? ==> ForHeader(d)
  {
    if !ForHeader(d) then None
    else
      var iterable := Field(d.params[2], env, ctx.environ);
      if iterable.None? then None else LoopValues(iterable.value, ctx)
  }

  function ForMeaning(d: Tree, env: Env, path: seq<Trails.Frame>, ctx: Context): Outcome
    decreases d, 3
  {
    var values := LoopOf(d, env, ctx);
    if values.None? then Undefined else Loop(ForEach(d, values.value, env, path, ctx), |values.value|)
  }

  /** An `else` belongs to the `if` right before it. */
  predicate HasElse(ds: seq<Tree>) {
    |ds| > 1 && ds[1].name == "else"
  }

  /** What an `if` leads to: a branch, named for the trail, or neither. */
  datatype Choice = Branch(children: seq<Tree>, name: string) | NoBranch

  /** The `if` that `ds` starts with, with its `else`, decided. */
  function ChoiceOf(ds: seq<Tree>, env: Env, ctx: Context): (r: Option<Choice>)
    requires ds != []
    ensures r.Some? ==> IfHeader(ds[0])
    ensures r.Some? && r.value.Branch? ==>
      r.value.children == ds[0].children || (HasElse(ds) && r.value.children == ds[1].children)
  {
    var d := ds[0];
    if !IfHeader(d) || (HasElse(ds) && !ElseHeader(ds[1])) then None
    else
      var left, right := Field(d.params[0], env, ctx.environ), Field(d.params[2], env, ctx.environ);
      if left.None? || right.None? then None
      else if (left == right) == (d.params[1] == "==") then Some(Branch(d.children, "true"))
      else if HasElse(ds) then Some(Branch(ds[1].children, "false"))
      else Some(NoBranch)
  }

  function IfMeaning(ds: seq<Tree>, env: Env, path: seq<Trails.Frame>, ctx: Context): Outcome
    requires ds != []
    decreases ds, 3
  {
    match ChoiceOf(ds, env, ctx)
    case None => Undefined
    case Some(NoBranch) => Around(NOTHING, 0)
    case Some(Branch(children, name)) =>
      var frame := Trails.Frame(Trails.If, ds[0].params[0], name);
      Around(BlockMeaning(children, env, false, [frame] + path, ctx), 0)
  }

  /** Any other directive is copied, its name and parameters expanded. */
  function CopyMeaning(d: Tree, env: Env, path: seq<Trails.Frame>, ctx: Context): Outcome
    decreases d, 2
  {
    var name, params := Field(d.name, env, ctx.environ), AllFields(d.params, env, ctx.environ);
    var children := BlockMeaning(d.children, env, false, path, ctx);
    if name.None? || params.None? || children.Undefined? then Undefined
    else children.(out := [Directive(name.value, params.value, d.hasBlock, children.out, d.lineno, path,
      d.span, d.nameSpan, d.paramSpans)])
  }

  /** How many directives the first construct of a block takes up. */
  function StepLength(ds: seq<Tree>): (n: nat)
    requires ds != []
    ensures 1 <= n <= |ds|
  {
    if ds[0].name == "if" && HasElse(ds) then 2 else 1
  }

  /** The first construct of a block, recognised by its name as it is written. */
  function StepMeaning(ds: seq<Tree>, env: Env, top: bool, path: seq<Trails.Frame>, ctx: Context): Outcome
    requires ds != []
    decreases ds, 4
  {
    var d := ds[0];
    if d.name == "vars" || d.name == "lists" then if top then NOTHING else Undefined
    else if d.name == "for" then ForMeaning(d, env, path, ctx)
    else if d.name == "if" then IfMeaning(ds, env, path, ctx)
    else if d.name == "else" then Undefined
    else CopyMeaning(d, env, path, ctx)
  }

  function BlockMeaning(ds: seq<Tree>, env: Env, top: bool, path: seq<Trails.Frame>, ctx: Context): Outcome
    decreases ds, 5
  {
    if ds == [] then NOTHING
    else Then(StepMeaning(ds, env, top, path, ctx), BlockMeaning(ds[StepLength(ds)..], env, top, path, ctx))
  }

  // ----- Variables and lists ----------------------------------------------------------

  /** The entries of a `vars` block; each sees the variables before it. */
  function VarEntries(entries: seq<Tree>, env: Env, environ: Environ): Option<Env> {
    if entries == [] then Some(env)
    else
      var e := entries[0];
      if e.hasBlock || e.children != [] || |e.params| != 1 || !Identifier(e.name) || e.name in env then None
      else
        var value := Field(e.params[0], env, environ);
        if value.None? then None else VarEntries(entries[1..], env[e.name := value.value], environ)
  }

  /** At most one `vars` block, with braces and without parameters. */
  function VarsOf(top: seq<Tree>, seen: bool, env: Env, environ: Environ): Option<Env> {
    if top == [] then Some(env)
    else if top[0].name != "vars" then VarsOf(top[1..], seen, env, environ)
    else if seen || !ElseHeader(top[0]) then None
    else
      var more := VarEntries(top[0].children, env, environ);
      if more.None? then None else VarsOf(top[1..], true, more.value, environ)
  }

  function ListEntries(entries: seq<Tree>, env: Env, lists: map<string, seq<string>>, environ: Environ)
    : Option<map<string, seq<string>>>
  {
    if entries == [] then Some(lists)
    else
      var e := entries[0];
      if e.hasBlock || e.children != [] || |e.params| == 0 || !Identifier(e.name) || e.name in lists then None
      else
        var items := AllFields(e.params, env, environ);
        if items.None? then None else ListEntries(entries[1..], env, lists[e.name := items.value], environ)
  }

  /** Likewise for `lists`, whose items see every variable. */
  function ListsOf(top: seq<Tree>, seen: bool, env: Env, lists: map<string, seq<string>>, environ: Environ)
    : Option<map<string, seq<string>>>
  {
    if top == [] then Some(lists)
    else if top[0].name != "lists" then ListsOf(top[1..], seen, env, lists, environ)
    else if seen || !ElseHeader(top[0]) then None
    else
      var more := ListEntries(top[0].children, env, lists, environ);
      if more.None? then None else ListsOf(top[1..], true, env, more.value, environ)
  }

  /** A whole file. */
  function TemplateMeaning(input: seq<Tree>, environ: Environ): Outcome {
    var env := VarsOf(input, false, map[], environ);
    if env.None? then Undefined
    else
      var lists := ListsOf(input, false, env.value, map[], environ);
      if lists.None? then Undefined
      else BlockMeaning(input, env.value, true, [], Context(lists.value, environ))
  }

  // ----- Budgets ------------------------------------------------------------------------

  const MAX_LEVELS: nat := 16
  const MAX_ROUNDS: nat := 1024
  const MAX_ITERATIONS: nat := 65536
  const MAX_DIRECTIVES: nat := 8192

  /** The outcome exists and is within the budgets, of which part is already used. */
  predicate Fits(m: Outcome, levels: nat, iterations: nat, directives: nat) {
    && m.Defined?
    && levels + m.levels <= MAX_LEVELS
    && m.widest <= MAX_ROUNDS
    && iterations + m.iterations <= MAX_ITERATIONS
    && directives + Size(m.out) <= MAX_DIRECTIVES
  }

  /** Two outcomes fit together exactly when the second fits in what the first leaves. */
  lemma FitsThen(a: Outcome, b: Outcome, levels: nat, iterations: nat, directives: nat)
    ensures Fits(Then(a, b), levels, iterations, directives) == (Fits(a, levels, iterations, directives)
      && Fits(b, levels, iterations + a.iterations, directives + Size(a.out)))
  {
    if a.Defined? && b.Defined? {
      SizeConcat(a.out, b.out);
    }
  }

  // ----- What the meaning says -------------------------------------------------------------

  /** Neither a control name nor a reference, anywhere. */
  predicate Plain(ds: seq<Tree>) {
    forall k :: 0 <= k < |ds| ==>
      && !IsControl(ds[k].name)
      && '$' !in ds[k].name
      && (forall p :: 0 <= p < |ds[k].params| ==> '$' !in ds[k].params[p])
      && Plain(ds[k].children)
  }

  /** The same tree, every directive labelled alike. */
  function Relabel<S, T>(ds: seq<Directive<S>>, mark: T): (r: seq<Directive<T>>)
    ensures |r| == |ds|
  {
    if ds == [] then []
    else
      var d := ds[0];
      [Directive(d.name, d.params, d.hasBlock, Relabel(d.children, mark), d.lineno, mark, d.span, d.nameSpan,
        d.paramSpans)] + Relabel(ds[1..], mark)
  }

  /** No control name anywhere, and every name and parameter expands to itself. */
  predicate Literal(ds: seq<Tree>, env: Env, environ: Environ) {
    ds != [] ==>
      && !IsControl(ds[0].name)
      && Field(ds[0].name, env, environ) == Some(ds[0].name)
      && AllFields(ds[0].params, env, environ) == Some(ds[0].params)
      && Literal(ds[0].children, env, environ)
      && Literal(ds[1..], env, environ)
  }

  lemma {:induction false} LiteralIsUnchanged(ds: seq<Tree>, env: Env, top: bool, path: seq<Trails.Frame>, ctx: Context)
    requires Literal(ds, env, ctx.environ)
    ensures BlockMeaning(ds, env, top, path, ctx) == Defined(Relabel(ds, path), 0, 0, 0)
  {
    if ds != [] {
      var d := ds[0];
      LiteralIsUnchanged(d.children, env, false, path, ctx);
      LiteralIsUnchanged(ds[1..], env, top, path, ctx);
      assert StepMeaning(ds, env, top, path, ctx) == CopyMeaning(d, env, path, ctx);
      assert CopyMeaning(d, env, path, ctx).out == [Relabel(ds, path)[0]];
    }
  }

  /** A loop and an `if` are levels, even when nothing in them is expanded. */
  lemma ConstructsAreLevels(ds: seq<Tree>, env: Env, top: bool, path: seq<Trails.Frame>, ctx: Context)
    requires ds != [] && (ds[0].name == "for" || ds[0].name == "if")
    ensures var step := StepMeaning(ds, env, top, path, ctx);
      step.Defined? ==> step.levels > 0
  {
    if ds[0].name == "for" {
      assert StepMeaning(ds, env, top, path, ctx) == ForMeaning(ds[0], env, path, ctx);
    } else {
      assert StepMeaning(ds, env, top, path, ctx) == IfMeaning(ds, env, path, ctx);
    }
  }

  /** A block that enters no loop and no branch never grows, and one that also comes
      out as it went in is literal: what is copied was its own expansion, and a
      `vars` or `lists` block would be missing. */
  lemma {:induction false} UnchangedIsLiteral(ds: seq<Tree>, env: Env, top: bool, path: seq<Trails.Frame>, ctx: Context)
    requires BlockMeaning(ds, env, top, path, ctx).Defined? && BlockMeaning(ds, env, top, path, ctx).levels == 0
    ensures |BlockMeaning(ds, env, top, path, ctx).out| <= |ds|
    ensures BlockMeaning(ds, env, top, path, ctx).out == Relabel(ds, path) ==> Literal(ds, env, ctx.environ)
  {
    if ds != [] {
      var d := ds[0];
      var step, rest := StepMeaning(ds, env, top, path, ctx), BlockMeaning(ds[StepLength(ds)..], env, top, path, ctx);
      assert step.Defined? && step.levels == 0 && rest.Defined? && rest.levels == 0;
      if d.name == "for" || d.name == "if" {
        ConstructsAreLevels(ds, env, top, path, ctx);
        assert false;
      }
      assert StepLength(ds) == 1;
      UnchangedIsLiteral(ds[1..], env, top, path, ctx);
      if !IsControl(d.name) {
        assert step == CopyMeaning(d, env, path, ctx);
        CopiedIsLiteral(ds, env, path, ctx, rest.out);
        UnchangedIsLiteral(d.children, env, false, path, ctx);
      }
    }
  }

  /** What the copy of the first directive says about it. */
  lemma CopiedIsLiteral(ds: seq<Tree>, env: Env, path: seq<Trails.Frame>, ctx: Context, rest: seq<Labelled>)
    requires ds != [] && CopyMeaning(ds[0], env, path, ctx).Defined?
    ensures |CopyMeaning(ds[0], env, path, ctx).out| == 1
    ensures BlockMeaning(ds[0].children, env, false, path, ctx).Defined?
    ensures CopyMeaning(ds[0], env, path, ctx).levels == BlockMeaning(ds[0].children, env, false, path, ctx).levels
    ensures CopyMeaning(ds[0], env, path, ctx).out + rest == Relabel(ds, path) ==>
      && Field(ds[0].name, env, ctx.environ) == Some(ds[0].name)
      && AllFields(ds[0].params, env, ctx.environ) == Some(ds[0].params)
      && BlockMeaning(ds[0].children, env, false, path, ctx).out == Relabel(ds[0].children, path)
      && rest == Relabel(ds[1..], path)
  {
    var copy := CopyMeaning(ds[0], env, path, ctx).out;
    if copy + rest == Relabel(ds, path) {
      assert copy[0] == (copy + rest)[0] && rest == (copy + rest)[1..];
      assert Relabel(ds, path)[1..] == Relabel(ds[1..], path);
    }
  }

  lemma {:induction false} LiteralDeclaresNothing(ds: seq<Tree>, env: Env, environ: Environ, seen: bool, known: Env,
      lists: map<string, seq<string>>)
    requires Literal(ds, env, environ)
    ensures VarsOf(ds, seen, known, environ) == Some(known) && ListsOf(ds, seen, known, lists, environ) == Some(lists)
  {
    if ds != [] {
      LiteralDeclaresNothing(ds[1..], env, environ, seen, known, lists);
    }
  }

  /** Which files expansion leaves as they are without entering a loop or a branch:
      exactly those that are literal where no variable is set. So this is when a
      second pass leaves the output of a first one unchanged. */
  lemma UnchangedExactly(input: seq<Tree>, environ: Environ)
    ensures TemplateMeaning(input, environ) == Defined(Relabel(input, []), 0, 0, 0) <==> Literal(input, map[], environ)
  {
    if TemplateMeaning(input, environ) == Defined(Relabel(input, []), 0, 0, 0) {
      var env := VarsOf(input, false, map[], environ).value;
      var lists := ListsOf(input, false, env, map[], environ).value;
      UnchangedIsLiteral(input, env, true, [], Context(lists, environ));
      LiteralDeclaresNothing(input, env, environ, false, map[], map[]);
    }
    if Literal(input, map[], environ) {
      LiteralDeclaresNothing(input, map[], environ, false, map[], map[]);
      LiteralIsUnchanged(input, map[], true, [], Context(map[], environ));
    }
  }

  /** A tree without control names and references is literal wherever it stands. */
  lemma {:induction false} PlainIsLiteral(ds: seq<Tree>, env: Env, environ: Environ)
    requires Plain(ds)
    ensures Literal(ds, env, environ)
  {
    if ds != [] {
      var d := ds[0];
      assert d.name[0..] == d.name;
      PlainField(d.name, 0, env, environ);
      PlainFields(d.params, env, environ);
      PlainIsLiteral(d.children, env, environ);
      PlainIsLiteral(ds[1..], env, environ);
    }
  }

  /** A configuration that uses no templates is left as it is, and costs nothing. */
  lemma PlainIsUnchanged(ds: seq<Tree>, env: Env, top: bool, path: seq<Trails.Frame>, ctx: Context)
    requires Plain(ds)
    ensures BlockMeaning(ds, env, top, path, ctx) == Defined(Relabel(ds, path), 0, 0, 0)
  {
    PlainIsLiteral(ds, env, ctx.environ);
    LiteralIsUnchanged(ds, env, top, path, ctx);
  }

  /** A construct does not depend on what follows it, unless that is its `else`. */
  lemma StepIsLocal(a: seq<Tree>, b: seq<Tree>, env: Env, top: bool, path: seq<Trails.Frame>, ctx: Context)
    requires a != [] && (b == [] || b[0].name != "else")
    ensures StepLength(a + b) == StepLength(a)
    ensures StepMeaning(a + b, env, top, path, ctx) == StepMeaning(a, env, top, path, ctx)
  {
    assert HasElse(a + b) <==> HasElse(a);
    if a[0].name == "if" {
      assert ChoiceOf(a + b, env, ctx) == ChoiceOf(a, env, ctx);
      assert IfMeaning(a + b, env, path, ctx) == IfMeaning(a, env, path, ctx);
    }
  }

  /** Blocks compose: a block means what its halves mean, one after the other,
      unless the cut separates an `else` from its `if`. */
  lemma {:induction false} BlockConcat(a: seq<Tree>, b: seq<Tree>, env: Env, top: bool, path: seq<Trails.Frame>,
      ctx: Context)
    requires b == [] || b[0].name != "else"
    ensures BlockMeaning(a + b, env, top, path, ctx)
      == Then(BlockMeaning(a, env, top, path, ctx), BlockMeaning(b, env, top, path, ctx))
    decreases |a|
  {
    var rest := BlockMeaning(b, env, top, path, ctx);
    if a == [] {
      assert a + b == b;
      ThenNothing(rest);
    } else {
      var n := StepLength(a);
      StepIsLocal(a, b, env, top, path, ctx);
      assert (a + b)[n..] == a[n..] + b;
      BlockConcat(a[n..], b, env, top, path, ctx);
      ThenAssociative(StepMeaning(a, env, top, path, ctx), BlockMeaning(a[n..], env, top, path, ctx), rest);
    }
  }

  /** One plain word as a directive; positions do not matter here. */
  function Line(name: string, params: seq<string>, hasBlock: bool, children: seq<Tree>): Tree {
    Directive(name, params, hasBlock, children, 0, 0, Span(0, 0), Span(0, 0), [])
  }

  /** A loop over two runs of values is the two loops in turn. */
  lemma {:induction false} ForEachConcat(d: Tree, u: seq<string>, v: seq<string>, env: Env, path: seq<Trails.Frame>,
      ctx: Context)
    requires ForHeader(d)
    ensures ForEach(d, u + v, env, path, ctx) == Then(ForEach(d, u, env, path, ctx), ForEach(d, v, env, path, ctx))
    decreases |u|
  {
    if u == [] {
      assert u + v == v;
      ThenNothing(ForEach(d, v, env, path, ctx));
    } else {
      assert (u + v)[1..] == u[1..] + v;
      ForEachConcat(d, u[1..], v, env, path, ctx);
      ThenAssociative(RoundMeaning(d, u[0], env, path, ctx), ForEach(d, u[1..], env, path, ctx),
        ForEach(d, v, env, path, ctx));
    }
  }

  /** A loop variable hides an outer variable of the same name from the body. */
  lemma {:induction false} LoopVariableShadows(d: Tree, values: seq<string>, env: Env, outer: string,
      path: seq<Trails.Frame>, ctx: Context)
    requires ForHeader(d)
    ensures ForEach(d, values, env[d.params[0] := outer], path, ctx) == ForEach(d, values, env, path, ctx)
    decreases |values|
  {
    if values != [] {
      LoopVariableShadows(d, values[1..], env, outer, path, ctx);
      var name := d.params[0];
      assert env[name := outer][name := values[0]] == env[name := values[0]];
    }
  }

  /** The `if` that `ds` starts with, with the branch that is not taken replaced. */
  function WithUntaken(ds: seq<Tree>, other: seq<Tree>, env: Env, environ: Environ): seq<Tree>
    requires ds != [] && IfHeader(ds[0])
  {
    var d := ds[0];
    var taken := (Field(d.params[0], env, environ) == Field(d.params[2], env, environ)) == (d.params[1] == "==");
    if !taken then ds[0 := d.(children := other)]
    else if HasElse(ds) then ds[1 := ds[1].(children := other)]
    else ds
  }

  /** The branch of an `if` that is not taken is never looked at: wherever the `if`
      stands in a block, anything may stand in that branch. */
  lemma UntakenBranchIsUnchecked(before: seq<Tree>, ds: seq<Tree>, other: seq<Tree>, env: Env, top: bool,
      path: seq<Trails.Frame>, ctx: Context)
    requires ds != [] && ds[0].name == "if" && IfHeader(ds[0])
    ensures BlockMeaning(before + WithUntaken(ds, other, env, ctx.environ), env, top, path, ctx)
      == BlockMeaning(before + ds, env, top, path, ctx)
  {
    var changed := WithUntaken(ds, other, env, ctx.environ);
    var n := StepLength(ds);
    assert StepLength(changed) == n && changed[n..] == ds[n..];
    assert IfMeaning(changed, env, path, ctx) == IfMeaning(ds, env, path, ctx);
    assert BlockMeaning(changed, env, top, path, ctx) == BlockMeaning(ds, env, top, path, ctx);
    BlockConcat(before, changed, env, top, path, ctx);
    BlockConcat(before, ds, env, top, path, ctx);
  }

  /** Control names are compared before substitution: a directive whose name only
      expands to one is copied like any other. */
  lemma ControlNamesAreNotExpanded(ds: seq<Tree>, env: Env, top: bool, path: seq<Trails.Frame>, ctx: Context)
    requires ds != [] && !IsControl(ds[0].name) && BlockMeaning(ds, env, top, path, ctx).Defined?
    ensures var out := BlockMeaning(ds, env, top, path, ctx).out;
      out != [] && Some(out[0].name) == Field(ds[0].name, env, ctx.environ)
  {
    assert StepMeaning(ds, env, top, path, ctx) == CopyMeaning(ds[0], env, path, ctx);
  }

  /** Hence expanding is not idempotent. With a variable `x` whose value is a control
      name, the directive `$x` comes out under that name; a second pass reads it as
      the control construct, and fails. */
  lemma ExpansionIsNotIdempotent(x: string, control: string, environ: Environ)
    requires Identifier(x) && IsControl(control)
    ensures var input := [Line("vars", [], true, [Line(x, [control], false, [])]), Line("$" + x, [], false, [])];
      var once := TemplateMeaning(input, environ);
      && once == Defined([Named(control, [])], 0, 0, 0)
      && TemplateMeaning(Relabel(once.out, 0), environ) == Undefined
  {
    var use, env := Line("$" + x, [], false, []), map[x := control];
    var input := [Line("vars", [], true, [Line(x, [control], false, [])]), use];
    var ctx := Context(map[], environ);
    assert use.name[0] == '$';
    OneVariable(x, control, use, environ);
    VariableReference(x, env, environ);
    assert input[1..] == [use];
    TopVarsAddNothing(input, env, true, [], ctx);
    CopyBare(use, control, env, true, [], ctx);
    BareControlFails(control, environ);
    RelabelOne(Named(control, []));
  }

  function Named(name: string, path: seq<Trails.Frame>): Labelled {
    Directive(name, [], false, [], 0, path, Span(0, 0), Span(0, 0), [])
  }

  lemma RelabelOne(d: Labelled)
    ensures Relabel([d], 0) == [Directive(d.name, d.params, d.hasBlock, Relabel(d.children, 0), d.lineno, 0, d.span,
        d.nameSpan, d.paramSpans)]
  {
    assert [d][1..] == [];
  }

  /** A `vars` block at the top level leaves nothing in the output. */
  lemma TopVarsAddNothing(ds: seq<Tree>, env: Env, top: bool, path: seq<Trails.Frame>, ctx: Context)
    requires top && ds != [] && StepMeaning(ds, env, top, path, ctx) == NOTHING && StepLength(ds) == 1
    ensures BlockMeaning(ds, env, top, path, ctx) == BlockMeaning(ds[1..], env, top, path, ctx)
  {
    ThenNothing(BlockMeaning(ds[1..], env, top, path, ctx));
  }

  lemma CopyBare(use: Tree, name: string, env: Env, top: bool, path: seq<Trails.Frame>, ctx: Context)
    requires !IsControl(use.name) && use == Line(use.name, [], false, [])
    requires Field(use.name, env, ctx.environ) == Some(name)
    ensures BlockMeaning([use], env, top, path, ctx) == Defined([Named(name, path)], 0, 0, 0)
  {
    assert [use][1..] == [];
    assert AllFields([], env, ctx.environ) == Some([]) && BlockMeaning([], env, false, path, ctx) == NOTHING;
    assert StepMeaning([use], env, top, path, ctx) == CopyMeaning(use, env, path, ctx);
    ThenNothing(CopyMeaning(use, env, path, ctx));
  }

  lemma OneVariable(x: string, value: string, use: Tree, environ: Environ)
    requires Identifier(x) && '$' !in value && use.name != "vars" && use.name != "lists"
    ensures var input := [Line("vars", [], true, [Line(x, [value], false, [])]), use];
      VarsOf(input, false, map[], environ) == Some(map[x := value])
      && ListsOf(input, false, map[x := value], map[], environ) == Some(map[])
  {
    var entry, env := Line(x, [value], false, []), map[x := value];
    var input := [Line("vars", [], true, [entry]), use];
    assert value[0..] == value;
    PlainField(value, 0, map[], environ);
    assert [entry][1..] == [] && input[1..] == [use] && [use][1..] == [];
    assert VarEntries([entry], map[], environ) == Some(env);
    assert VarsOf([use], true, env, environ) == Some(env);
    assert ListsOf([use], false, env, map[], environ) == Some(map[]);
  }

  lemma BareControlFails(control: string, environ: Environ)
    requires IsControl(control)
    ensures TemplateMeaning([Line(control, [], false, [])], environ) == Undefined
  {
    var lone := [Line(control, [], false, [])];
    assert lone[1..] == [];
    if control != "vars" && control != "lists" {
      assert VarsOf(lone, false, map[], environ) == Some(map[]);
      assert ListsOf(lone, false, map[], map[], environ) == Some(map[]);
      assert StepMeaning(lone, map[], true, [], Context(map[], environ)) == Undefined;
    }
  }

  // ----- Declarations in order ---------------------------------------------------------------------

  /** An entry "name value" on a line of its own. */
  predicate IsEntry(e: Tree) {
    !e.hasBlock && e.children == [] && |e.params| > 0 && Identifier(e.name)
  }

  /** The last variable of a block is the value of its text among all the variables before
      it, and must not be one of them. */
  lemma {:induction false} VarsInOrder(entries: seq<Tree>, e: Tree, env: Env, environ: Environ)
    requires IsEntry(e) && |e.params| == 1
    ensures var before := VarEntries(entries, env, environ);
      VarEntries(entries + [e], env, environ) ==
        if before.None? || e.name in before.value || Field(e.params[0], before.value, environ).None? then None
        else Some(before.value[e.name := Field(e.params[0], before.value, environ).value])
  {
    if entries == [] {
      assert [] + [e] == [e] && [e][1..] == [];
    } else {
      var d := entries[0];
      assert (entries + [e])[0] == d && (entries + [e])[1..] == entries[1..] + [e];
      if |d.params| == 1 && Field(d.params[0], env, environ).Some? {
        VarsInOrder(entries[1..], e, env[d.name := Field(d.params[0], env, environ).value], environ);
      }
    }
  }

  /** The last list of a block has the values of its texts among the variables, not among
      the lists, and must not be one of the lists before it. */
  lemma {:induction false} ListsInOrder(entries: seq<Tree>, e: Tree, env: Env, lists: map<string, seq<string>>,
      environ: Environ)
    requires IsEntry(e)
    ensures var before := ListEntries(entries, env, lists, environ);
      ListEntries(entries + [e], env, lists, environ) ==
        if before.None? || e.name in before.value || AllFields(e.params, env, environ).None? then None
        else Some(before.value[e.name := AllFields(e.params, env, environ).value])
  {
    if entries == [] {
      assert [] + [e] == [e] && [e][1..] == [];
    } else {
      var d := entries[0];
      assert (entries + [e])[0] == d && (entries + [e])[1..] == entries[1..] + [e];
      if AllFields(d.params, env, environ).Some? {
        ListsInOrder(entries[1..], e, env, lists[d.name := AllFields(d.params, env, environ).value], environ);
      }
    }
  }

  /** A block of variables anywhere in a file is seen by all of it. */
  lemma {:induction false} VarsAnywhere(before: seq<Tree>, vars: Tree, after: seq<Tree>, environ: Environ)
    requires forall d :: d in before + after ==> d.name != "vars"
    requires vars.name == "vars" && vars.hasBlock && vars.params == []
    ensures VarsOf(before + [vars] + after, false, map[], environ) == VarEntries(vars.children, map[], environ)
    decreases |before| + |after|
  {
    if before != [] {
      assert (before + [vars] + after)[1..] == before[1..] + [vars] + after;
      VarsAnywhere(before[1..], vars, after, environ);
    } else {
      assert before + [vars] + after == [vars] + after && ([vars] + after)[1..] == after;
      var env := VarEntries(vars.children, map[], environ);
      if env.Some? {
        NoMoreVars(after, env.value, environ);
      }
    }
  }

  lemma {:induction false} NoMoreVars(top: seq<Tree>, env: Env, environ: Environ)
    requires forall d :: d in top ==> d.name != "vars"
    ensures VarsOf(top, true, env, environ) == Some(env)
  {
    if top != [] {
      NoMoreVars(top[1..], env, environ);
    }
  }

  // ----- What a range loop counts through -------------------------------------------------------

  /** Value k of a range stands for the number low + k. */
  lemma RangeCounts(low: nat, high: nat, k: nat)
    requires low <= high && k <= high - low
    ensures var value := RangeValues(low, high)[k];
      Digits(value) && DecimalValue(value) == low + k
  {
    DecimalRoundTrip(low + k);
  }

  /** Every text of two bounds in order is such a range, however the bounds are written. */
  lemma RangeTextCounts(left: string, right: string, ctx: Context)
    requires Number(left) && Number(right) && DecimalValue(left) <= DecimalValue(right)
    ensures var values := LoopValues(left + ".." + right, ctx);
      && values.Some? && |values.value| == DecimalValue(right) - DecimalValue(left) + 1
      && forall k: nat :: k < |values.value| ==>
        Digits(values.value[k]) && DecimalValue(values.value[k]) == DecimalValue(left) + k
  {
    var text := left + ".." + right;
    DotsBetweenDigits(left, right);
    assert text[..|left|] == left && text[|left| + 2..] == right;
    forall k: nat | k <= DecimalValue(right) - DecimalValue(left)
      ensures var value := RangeValues(DecimalValue(left), DecimalValue(right))[k];
        Digits(value) && DecimalValue(value) == DecimalValue(left) + k
    {
      RangeCounts(DecimalValue(left), DecimalValue(right), k);
    }
  }

  /** The loop "for x in iterable { $x }". */
  function NamingLoop(x: string, iterable: string): Tree {
    Line("for", [x, "in", iterable], true, [Line("$" + x, [], false, [])])
  }

  lemma NamingRound(x: string, iterable: string, value: string, env: Env, path: seq<Trails.Frame>, ctx: Context)
    requires Identifier(x)
    ensures RoundMeaning(NamingLoop(x, iterable), value, env, path, ctx)
      == Defined([Named(value, [Trails.Frame(Trails.For, x, value)] + path)], 1, 1, 1)
  {
    var use, inner := Line("$" + x, [], false, []), env[x := value];
    assert use.name[0] == '$';
    VariableReference(x, inner, ctx.environ);
    CopyBare(use, value, inner, false, [Trails.Frame(Trails.For, x, value)] + path, ctx);
  }

  /** Its rounds give a directive for each value, in order. */
  lemma {:induction false} NamesInOrder(x: string, iterable: string, values: seq<string>, env: Env,
      path: seq<Trails.Frame>, ctx: Context)
    requires Identifier(x)
    ensures var m := ForEach(NamingLoop(x, iterable), values, env, path, ctx);
      && m.Defined? && m.iterations == |values| == |m.out| && m.levels <= 1 && m.widest <= 1
      && forall k: nat :: k < |values| ==> m.out[k] == Named(values[k], [Trails.Frame(Trails.For, x, values[k])] + path)
    decreases |values|
  {
    if values != [] {
      NamingRound(x, iterable, values[0], env, path, ctx);
      NamesInOrder(x, iterable, values[1..], env, path, ctx);
    }
  }

  lemma {:induction false} BoundsArePlain(left: string, right: string)
    requires Digits(left) && Digits(right)
    ensures '$' !in left + ".." + right
  {
  }

  /** A file that is such a loop: its output are the values, in order. */
  lemma NamingLoopOut(x: string, iterable: string, environ: Environ, values: seq<string>)
    requires Identifier(x) && '$' !in iterable && LoopValues(iterable, Context(map[], environ)) == Some(values)
    ensures var m := TemplateMeaning([NamingLoop(x, iterable)], environ);
      && m.Defined? && |m.out| == m.iterations == |values|
      && m.levels == 1 && (values != [] ==> m.widest == |values|)
      && forall k: nat :: k < |values| ==> m.out[k] == Named(values[k], [Trails.Frame(Trails.For, x, values[k])])
  {
    var d, ctx := NamingLoop(x, iterable), Context(map[], environ);
    assert iterable[0..] == iterable;
    PlainField(iterable, 0, map[], environ);
    NamesInOrder(x, iterable, values, map[], [], ctx);
    NothingDeclared(d, environ);
    LoneLoop(d, map[], true, [], ctx, values);
    forall k: nat | k < |values|
      ensures [Trails.Frame(Trails.For, x, values[k])] + [] == [Trails.Frame(Trails.For, x, values[k])]
    {
    }
  }

  /** From the file to its output: "for x in low..high { $x }" comes out as the numbers
      from low to high, in order, each under its own round of the loop. */
  lemma RangeLoopCounts(x: string, left: string, right: string, environ: Environ)
    requires Identifier(x) && Number(left) && Number(right) && DecimalValue(left) <= DecimalValue(right)
    ensures var m := TemplateMeaning([NamingLoop(x, left + ".." + right)], environ);
      var n := DecimalValue(right) - DecimalValue(left) + 1;
      && m.Defined? && (m.iterations, m.levels, m.widest) == (n, 1, n) && |m.out| == n
      && forall k: nat :: k < n ==>
        && Digits(m.out[k].name) && DecimalValue(m.out[k].name) == DecimalValue(left) + k
        && m.out[k] == Named(m.out[k].name, [Trails.Frame(Trails.For, x, m.out[k].name)])
  {
    var iterable := left + ".." + right;
    BoundsArePlain(left, right);
    RangeTextCounts(left, right, Context(map[], environ));
    NamingLoopOut(x, iterable, environ, LoopValues(iterable, Context(map[], environ)).value);
  }

  /** A loop over a list of the file runs through the items as they are written. */
  lemma ListLoopItems(x: string, name: string, items: seq<string>, environ: Environ)
    requires Identifier(x) && Identifier(name) && items != []
    requires forall k :: 0 <= k < |items| ==> '$' !in items[k]
    ensures var lists := Line("lists", [], true, [Line(name, items, false, [])]);
      var m := TemplateMeaning([lists, NamingLoop(x, name)], environ);
      && m.Defined? && |m.out| == m.iterations == m.widest == |items| && m.levels == 1
      && forall k: nat :: k < |items| ==> m.out[k] == Named(items[k], [Trails.Frame(Trails.For, x, items[k])])
  {
    var lists, d := Line("lists", [], true, [Line(name, items, false, [])]), NamingLoop(x, name);
    var ctx := Context(map[name := items], environ);
    OneList(name, items, d, environ);
    IdentifierIsPlain(name);
    PlainField(name, 0, map[], environ);
    assert [lists, d][1..] == [d];
    TopVarsAddNothing([lists, d], map[], true, [], ctx);
    NamesInOrder(x, name, items, map[], [], ctx);
    LoneLoop(d, map[], true, [], ctx, items);
    forall k: nat | k < |items|
      ensures [Trails.Frame(Trails.For, x, items[k])] + [] == [Trails.Frame(Trails.For, x, items[k])]
    {
    }
  }

  lemma IdentifierIsPlain(name: string)
    requires Identifier(name)
    ensures '$' !in name && name[0..] == name && FindDots(name, 0).None?
  {
    assert forall k :: 0 <= k < |name| ==> IdentifierChar(name[k], k == 0);
  }

  lemma OneList(name: string, items: seq<string>, d: Tree, environ: Environ)
    requires Identifier(name) && items != [] && d.name != "vars" && d.name != "lists"
    requires forall k :: 0 <= k < |items| ==> '$' !in items[k]
    ensures var input := [Line("lists", [], true, [Line(name, items, false, [])]), d];
      VarsOf(input, false, map[], environ) == Some(map[])
      && ListsOf(input, false, map[], map[], environ) == Some(map[name := items])
  {
    var entry := Line(name, items, false, []);
    var input := [Line("lists", [], true, [entry]), d];
    PlainFields(items, map[], environ);
    assert [entry][1..] == [] && input[1..] == [d] && [d][1..] == [];
    assert ListEntries([entry], map[], map[], environ) == Some(map[name := items]);
    assert ListsOf([d], true, map[], map[name := items], environ) == Some(map[name := items]);
    assert VarsOf([d], false, map[], environ) == Some(map[]);
  }

  /** "if a == b { yes } else { no }" and the same with "!=": which of two blocks without
      templates comes out, and the branch that is named in its trail. */
  lemma PlainIfChooses(a: string, operator: string, b: string, yes: seq<Tree>, no: seq<Tree>, environ: Environ)
    requires '$' !in a && '$' !in b && Plain(yes) && Plain(no) && (operator == "==" || operator == "!=")
    ensures var input := [Line("if", [a, operator, b], true, yes), Line("else", [], true, no)];
      TemplateMeaning(input, environ) ==
        if (operator == "==" && a == b) || (operator == "!=" && a != b)
        then Defined(Relabel(yes, [Trails.Frame(Trails.If, a, "true")]), 0, 1, 0)
        else Defined(Relabel(no, [Trails.Frame(Trails.If, a, "false")]), 0, 1, 0)
  {
    var ctx := Context(map[], environ);
    var ifThis, elseThis := Line("if", [a, operator, b], true, yes), Line("else", [], true, no);
    LoneIf(ifThis, elseThis, environ);
    PlainChoice(ifThis, elseThis, map[], ctx);
    if (a == b) == (operator == "==") {
      PlainBranch([ifThis, elseThis], map[], ctx, yes, "true");
    } else {
      PlainBranch([ifThis, elseThis], map[], ctx, no, "false");
    }
  }

  lemma LoneIf(d: Tree, e: Tree, environ: Environ)
    requires d.name == "if" && e.name == "else"
    ensures TemplateMeaning([d, e], environ) == IfMeaning([d, e], map[], [], Context(map[], environ))
  {
    var input, ctx := [d, e], Context(map[], environ);
    assert input[1..] == [e] && [e][1..] == [];
    assert VarsOf([e], false, map[], environ) == Some(map[]);
    assert VarsOf(input, false, map[], environ) == Some(map[]);
    assert ListsOf([e], false, map[], map[], environ) == Some(map[]);
    assert ListsOf(input, false, map[], map[], environ) == Some(map[]);
    OneStep(input, map[], true, [], ctx);
    assert StepMeaning(input, map[], true, [], ctx) == IfMeaning(input, map[], [], ctx);
  }

  lemma OneStep(ds: seq<Tree>, env: Env, top: bool, path: seq<Trails.Frame>, ctx: Context)
    requires ds != [] && StepLength(ds) == |ds|
    ensures BlockMeaning(ds, env, top, path, ctx) == StepMeaning(ds, env, top, path, ctx)
  {
    assert ds[StepLength(ds)..] == [];
    ThenNothing(StepMeaning(ds, env, top, path, ctx));
  }

  lemma PlainChoice(d: Tree, e: Tree, env: Env, ctx: Context)
    requires IfHeader(d) && ElseHeader(e) && e.name == "else" && '$' !in d.params[0] && '$' !in d.params[2]
    ensures ChoiceOf([d, e], env, ctx) == Some(
      if (d.params[0] == d.params[2]) == (d.params[1] == "==") then Branch(d.children, "true")
      else Branch(e.children, "false"))
  {
    assert d.params[0][0..] == d.params[0] && d.params[2][0..] == d.params[2];
    PlainField(d.params[0], 0, env, ctx.environ);
    PlainField(d.params[2], 0, env, ctx.environ);
  }

  lemma PlainBranch(ds: seq<Tree>, env: Env, ctx: Context, children: seq<Tree>, name: string)
    requires ds != [] && IfHeader(ds[0]) && ChoiceOf(ds, env, ctx) == Some(Branch(children, name)) && Plain(children)
    ensures IfMeaning(ds, env, [], ctx)
      == Defined(Relabel(children, [Trails.Frame(Trails.If, ds[0].params[0], name)]), 0, 1, 0)
  {
    var path := [Trails.Frame(Trails.If, ds[0].params[0], name)];
    assert path + [] == path;
    PlainIsUnchanged(children, env, false, path, ctx);
  }

  /** A block that is one loop. */
  lemma LoneLoop(d: Tree, env: Env, top: bool, path: seq<Trails.Frame>, ctx: Context, values: seq<string>)
    requires d.name == "for" && LoopOf(d, env, ctx) == Some(values)
    ensures BlockMeaning([d], env, top, path, ctx) == Loop(ForEach(d, values, env, path, ctx), |values|)
  {
    OneStep([d], env, top, path, ctx);
    assert StepMeaning([d], env, top, path, ctx) == ForMeaning(d, env, path, ctx);
  }

  /** A file that declares neither variables nor lists. */
  lemma NothingDeclared(d: Tree, environ: Environ)
    requires d.name != "vars" && d.name != "lists"
    ensures TemplateMeaning([d], environ) == BlockMeaning([d], map[], true, [], Context(map[], environ))
  {
    assert [d][1..] == [];
    assert VarsOf([d], false, map[], environ) == Some(map[]);
    assert ListsOf([d], false, map[], map[], environ) == Some(map[]);
  }
}
