/** The expander (expand.c): mutable bindings, counters, trail and output, run by
    mutual recursion, and proved to compute the meaning of templates within the
    budgets. */
module Expander {
  import opened Decimals
  import opened Fields
  import opened Options
  import opened Scfg
  import opened Templates
  import Trails

  datatype List = List(name: string, items: seq<string>)

  /** The lists by name; the first of a name counts. */
  function ListMap(lists: seq<List>): map<string, seq<string>> {
    if lists == [] then map[] else ListMap(lists[1..])[lists[0].name := lists[0].items]
  }

  lemma {:induction false} ListMapSnoc(lists: seq<List>, l: List)
    requires l.name !in ListMap(lists)
    ensures ListMap(lists + [l]) == ListMap(lists)[l.name := l.items]
  {
    if lists == [] {
      assert (lists + [l])[1..] == [];
    } else {
      assert (lists + [l])[1..] == lists[1..] + [l];
      ListMapSnoc(lists[1..], l);
    }
  }

  /** A growing output block; nested blocks are filled through a reference. */
  class Block {
    var directives: seq<Tree>

    constructor ()
      ensures directives == []
    {
      directives := [];
    }
  }

  // ----- An output tree against its meaning ---------------------------------------------

  /** `ds` is the tree `ms`, with trail indices in place of the enclosing
      constructs; `exact` says that the table still tells them apart. */
  ghost predicate Matches(nodes: seq<Trails.Node>, ds: seq<Tree>, ms: seq<Labelled>, exact: bool)
    requires Trails.Forest(nodes)
    decreases ms, 1
  {
    if ms == [] then ds == []
    else ds != [] && MatchesOne(nodes, ds[0], ms[0], exact) && Matches(nodes, ds[1..], ms[1..], exact)
  }

  ghost predicate MatchesOne(nodes: seq<Trails.Node>, d: Tree, m: Labelled, exact: bool)
    requires Trails.Forest(nodes)
    decreases m, 0
  {
    && d.name == m.name && d.params == m.params && d.hasBlock == m.hasBlock && d.lineno == m.lineno
    && d.span == m.span && d.nameSpan == m.nameSpan && d.paramSpans == m.paramSpans
    && Trails.IsIndex(nodes, d.trail) && (exact ==> Trails.Chain(nodes, d.trail) == m.trail)
    && Matches(nodes, d.children, m.children, exact)
  }

  lemma {:induction false} MatchesStable(nodes: seq<Trails.Node>, nodes': seq<Trails.Node>, ds: seq<Tree>,
      ms: seq<Labelled>, exact: bool, exact': bool)
    requires Trails.Forest(nodes) && Trails.Forest(nodes') && nodes <= nodes' && (exact' ==> exact)
    requires Matches(nodes, ds, ms, exact)
    ensures Matches(nodes', ds, ms, exact')
    decreases ms
  {
    if ms != [] {
      Trails.ChainStable(nodes, nodes', ds[0].trail);
      MatchesStable(nodes, nodes', ds[0].children, ms[0].children, exact, exact');
      MatchesStable(nodes, nodes', ds[1..], ms[1..], exact, exact');
    }
  }

  lemma {:induction false} MatchesConcat(nodes: seq<Trails.Node>, ds: seq<Tree>, ms: seq<Labelled>,
      ds': seq<Tree>, ms': seq<Labelled>, exact: bool)
    requires Trails.Forest(nodes) && Matches(nodes, ds, ms, exact) && Matches(nodes, ds', ms', exact)
    ensures Matches(nodes, ds + ds', ms + ms', exact)
    decreases ms
  {
    if ms == [] {
      assert ds + ds' == ds' && ms + ms' == ms';
    } else {
      assert (ds + ds')[1..] == ds[1..] + ds' && (ms + ms')[1..] == ms[1..] + ms';
      MatchesConcat(nodes, ds[1..], ms[1..], ds', ms', exact);
    }
  }

  // ----- What one call does to the state ---------------------------------------------------

  /** The expander's fields and the output it is given, as a value. */
  datatype State = State(bindings: seq<Binding>, lists: seq<List>, activeTrail: nat, nodes: seq<Trails.Node>,
    dropped: bool, iterations: nat, directives: nat, out: seq<Tree>)

  ghost predicate Sound(s: State) {
    && Trails.Forest(s.nodes) && Trails.IsIndex(s.nodes, s.activeTrail)
    && s.iterations <= MAX_ITERATIONS && s.directives <= MAX_DIRECTIVES
  }

  /** The active trail stands for the constructs `path`, unless nodes were dropped. */
  ghost predicate At(s: State, path: seq<Trails.Frame>)
    requires Sound(s)
  {
    !s.dropped ==> Trails.Chain(s.nodes, s.activeTrail) == path
  }

  /** Bindings and active trail are as before; the trail table only grew. */
  ghost predicate Restored(s: State, t: State) {
    && Sound(t)
    && t.bindings == s.bindings && t.lists == s.lists && t.activeTrail == s.activeTrail
    && s.nodes <= t.nodes && (s.dropped ==> t.dropped)
  }

  /** A call took the state from `s` to `t`: it succeeded exactly when the outcome
      exists and fits, and it then appended that outcome to the output. */
  ghost predicate Ran(s: State, t: State, m: Outcome, ok: bool, levels: nat) {
    && Sound(s) && Restored(s, t)
    && ok == Fits(m, levels, s.iterations, s.directives)
    && (ok ==>
      && t.iterations == s.iterations + m.iterations
      && t.directives == s.directives + Size(m.out)
      && s.out <= t.out && Matches(t.nodes, t.out[|s.out|..], m.out, !t.dropped))
  }

  lemma RestoredAt(s: State, t: State, path: seq<Trails.Frame>)
    requires Sound(s) && Restored(s, t) && At(s, path)
    ensures At(t, path)
  {
    Trails.ChainStable(s.nodes, t.nodes, s.activeTrail);
  }

  lemma RanThen(s: State, t: State, u: State, a: Outcome, b: Outcome, ok: bool, levels: nat)
    requires Ran(s, t, a, true, levels) && Ran(t, u, b, ok, levels)
    ensures Ran(s, u, Then(a, b), ok, levels)
  {
    FitsThen(a, b, levels, s.iterations, s.directives);
    if ok {
      SizeConcat(a.out, b.out);
      var first, second := t.out[|s.out|..], u.out[|t.out|..];
      assert u.out[|s.out|..] == first + second;
      MatchesStable(t.nodes, u.nodes, first, a.out, !t.dropped, !u.dropped);
      MatchesConcat(u.nodes, first, a.out, second, b.out, !u.dropped);
    }
  }

  /** Failing in the middle of a sequence fails the whole of it. */
  lemma RanFails(s: State, t: State, u: State, a: Outcome, b: Outcome, rest: Outcome, levels: nat)
    requires Ran(s, t, a, true, levels) && Ran(t, u, b, false, levels)
    ensures Ran(s, u, Then(a, Then(b, rest)), false, levels)
  {
    FitsThen(a, Then(b, rest), levels, s.iterations, s.directives);
    FitsThen(b, rest, levels, t.iterations, t.directives);
  }

  function PrependAll(done: seq<string>, rest: Option<seq<string>>): Option<seq<string>> {
    if rest.Some? then Some(done + rest.value) else None
  }

  /** A construct around a run: from `s` a frame and perhaps a variable are pushed,
      giving `t`; after the run, at `u`, they are popped again. */
  lemma AroundRan(s: State, t: State, u: State, body: Outcome, rounds: nat, ok: bool, levels: nat)
    requires Sound(s) && levels < MAX_LEVELS && rounds <= 1 && Ran(t, u, body, ok, levels + 1)
    requires s.nodes <= t.nodes && (s.dropped ==> t.dropped) && t.lists == s.lists && t.out == s.out
    requires t.iterations == s.iterations + rounds && t.directives == s.directives
    ensures Ran(s, u.(bindings := s.bindings, activeTrail := s.activeTrail), Around(body, rounds), ok, levels)
  {
  }

  /** The same for one round of a loop. */
  lemma AroundRound(s: State, t: State, u: State, d: Tree, value: string, path: seq<Trails.Frame>, ctx: Context,
      ok: bool, levels: nat)
    requires Sound(s) && levels < MAX_LEVELS && ForHeader(d)
    requires var env, frame := EnvOf(s.bindings)[d.params[0] := value], Trails.Frame(Trails.For, d.params[0], value);
      Ran(t, u, BlockMeaning(d.children, env, false, [frame] + path, ctx), ok, levels + 1)
    requires s.nodes <= t.nodes && (s.dropped ==> t.dropped) && t.lists == s.lists && t.out == s.out
    requires t.iterations == s.iterations + 1 && t.directives == s.directives
    ensures Ran(s, u.(bindings := s.bindings, activeTrail := s.activeTrail),
      RoundMeaning(d, value, EnvOf(s.bindings), path, ctx), ok, levels)
  {
    var env := EnvOf(s.bindings)[d.params[0] := value];
    AroundRan(s, t, u, BlockMeaning(d.children, env, false, [Trails.Frame(Trails.For, d.params[0], value)] + path, ctx),
      1, ok, levels);
  }

  /** No round starts once every iteration is spent. */
  lemma NoRoundLeft(s: State, d: Tree, value: string, path: seq<Trails.Frame>, ctx: Context, levels: nat)
    requires Sound(s) && ForHeader(d) && s.iterations >= MAX_ITERATIONS
    ensures Ran(s, s, RoundMeaning(d, value, EnvOf(s.bindings), path, ctx), false, levels)
  {
  }

  /** Nor is a directive copied once every directive is spent, or when one of its words
      does not expand. */
  lemma NoCopyLeft(s: State, d: Tree, path: seq<Trails.Frame>, ctx: Context, levels: nat)
    requires Sound(s) && s.directives >= MAX_DIRECTIVES
    ensures Ran(s, s, CopyMeaning(d, EnvOf(s.bindings), path, ctx), false, levels)
  {
  }

  lemma CopyFails(s: State, t: State, d: Tree, path: seq<Trails.Frame>, ctx: Context, levels: nat)
    requires Sound(s) && Restored(s, t)
    requires Field(d.name, EnvOf(s.bindings), ctx.environ).None?
      || AllFields(d.params, EnvOf(s.bindings), ctx.environ).None?
    ensures Ran(s, t, CopyMeaning(d, EnvOf(s.bindings), path, ctx), false, levels)
  {
  }

  /** Copying a directive: `t` to `u` is the run on its children, into a block of
      their own. */
  lemma CopyRan(s: State, t: State, u: State, d: Tree, copy: Tree, name: string, params: seq<string>, inner: Outcome,
      path: seq<Trails.Frame>, ok: bool, levels: nat)
    requires Sound(s) && At(s, path) && t == s.(directives := s.directives + 1, out := [])
    requires Ran(t, u, inner, ok, levels)
    requires copy == Directive(name, params, d.hasBlock, [], d.lineno, s.activeTrail, d.span, d.nameSpan, d.paramSpans)
    ensures var m := if inner.Undefined? then Undefined else inner.(out := [Directive(name, params, d.hasBlock,
        inner.out, d.lineno, path, d.span, d.nameSpan, d.paramSpans)]);
      Ran(s, u.(out := s.out + [copy.(children := u.out)]), m, ok, levels)
  {
    if inner.Defined? {
      var made := [Directive(name, params, d.hasBlock, inner.out, d.lineno, path, d.span, d.nameSpan, d.paramSpans)];
      assert made[1..] == [] && Size(made) == 1 + Size(inner.out);
      if ok {
        Trails.ChainStable(s.nodes, u.nodes, s.activeTrail);
        var ds := [copy.(children := u.out)];
        assert ds[1..] == [] && (s.out + ds)[|s.out|..] == ds;
        assert u.out[|t.out|..] == u.out;
      }
    }
  }

  /** The same in terms of the meaning of the directive. */
  lemma CopyIsRan(s: State, t: State, u: State, d: Tree, copy: Tree, path: seq<Trails.Frame>, ctx: Context,
      ok: bool, levels: nat)
    requires Sound(s) && At(s, path) && t == s.(directives := s.directives + 1, out := [])
    requires Ran(t, u, BlockMeaning(d.children, EnvOf(s.bindings), false, path, ctx), ok, levels)
    requires Field(d.name, EnvOf(s.bindings), ctx.environ) == Some(copy.name)
    requires AllFields(d.params, EnvOf(s.bindings), ctx.environ) == Some(copy.params)
    requires copy == Directive(copy.name, copy.params, d.hasBlock, [], d.lineno, s.activeTrail, d.span, d.nameSpan,
      d.paramSpans)
    ensures Ran(s, u.(out := s.out + [copy.(children := u.out)]), CopyMeaning(d, EnvOf(s.bindings), path, ctx), ok,
      levels)
  {
    CopyRan(s, t, u, d, copy, copy.name, copy.params,
      BlockMeaning(d.children, EnvOf(s.bindings), false, path, ctx), path, ok, levels);
  }

  lemma RanNothing(s: State, levels: nat)
    requires Sound(s) && levels <= MAX_LEVELS
    ensures Ran(s, s, NOTHING, true, levels)
  {
    assert s.out[|s.out|..] == [];
  }

  // ----- The expander ------------------------------------------------------------------------

  class Expander {
    const environ: Environ
    const trails: Trails.TrailTable
    var bindings: seq<Binding>
    var lists: seq<List>
    var outputCount: nat
    var totalIterations: nat
    var activeTrail: nat

    ghost function Now(output: Block): State
      reads this, trails, output
    {
      State(bindings, lists, activeTrail, trails.nodes, trails.dropped, totalIterations, outputCount, output.directives)
    }

    ghost predicate Valid()
      reads this, trails
    {
      && trails.Valid() && Trails.IsIndex(trails.nodes, activeTrail)
      && totalIterations <= MAX_ITERATIONS && outputCount <= MAX_DIRECTIVES
    }

    ghost function Ctx(): Context
      reads this
    {
      Context(ListMap(lists), environ)
    }

    constructor (environ: Environ, trails: Trails.TrailTable)
      requires trails.Valid()
      ensures Valid() && this.environ == environ && this.trails == trails
      ensures bindings == [] && lists == [] && outputCount == 0 && totalIterations == 0 && activeTrail == 0
    {
      this.environ, this.trails := environ, trails;
      bindings, lists, outputCount, totalIterations, activeTrail := [], [], 0, 0, 0;
    }

    method ExpandField(input: string) returns (output: Option<string>)
      ensures output == Field(input, EnvOf(bindings), environ)
    {
      var text, index := "", 0;
      ghost var env := EnvOf(bindings);
      ghost var whole := Field(input, env, environ);
      assert whole.Some? ==> "" + whole.value == whole.value;
      while index < |input|
        invariant index <= |input|
        invariant Prepend(text, FieldFrom(input, index, env, environ)) == Field(input, env, environ)
        decreases |input| - index
      {
        if input[index] != '$' {
          PrependTwice(text, [input[index]], FieldFrom(input, index + 1, env, environ));
          text := text + [input[index]];
          index := index + 1;
        } else {
          var value, next, ok := ExpandReference(input, index);
          if !ok {
            return None;
          }
          PrependTwice(text, value, FieldFrom(input, next, env, environ));
          text := text + value;
          index := next;
        }
      }
      assert text + "" == text;
      return Some(text);
    }

    /** The branches of leme_expand_field that start at a '$'. */
    method ExpandReference(input: string, dollar: nat) returns (value: string, next: nat, ok: bool)
      requires dollar < |input| && input[dollar] == '$'
      ensures var r := ReferenceAt(input, dollar, EnvOf(bindings), environ);
        if ok then r == Some(Reference(value, next)) else r == None
    {
      value, next, ok := "", dollar, false;
      if StartsAt(input, dollar + 1, "$") {
        return "$", dollar + 2, true;
      }
      if StartsAt(input, dollar + 1, "(env.") {
        var start := dollar + 6;
        var end := ReadName(input, start);
        if end == start || !StartsAt(input, end, ")") {
          return;
        }
        return EnvValue(environ, input[start..end]), end + 1, true;
      }
      var explicit := StartsAt(input, dollar + 1, "(");
      var start := if explicit then dollar + 2 else dollar + 1;
      var end := ReadName(input, start);
      if end == start || (explicit && !StartsAt(input, end, ")")) {
        return;
      }
      var found := Lookup(bindings, input[start..end]);
      if found.None? {
        return;
      }
      return found.value, if explicit then end + 1 else end, true;
    }

    method ReadName(input: string, start: nat) returns (end: nat)
      requires start <= |input|
      ensures end == NameEnd(input, start, start)
    {
      end := start;
      while end < |input| && IdentifierChar(input[end], end == start)
        invariant start <= end <= |input|
        invariant NameEnd(input, start, end) == NameEnd(input, start, start)
      {
        end := end + 1;
      }
    }

    method FindList(name: string) returns (list: Option<seq<string>>)
      ensures list == if name in ListMap(lists) then Some(ListMap(lists)[name]) else None
    {
      var index := 0;
      assert lists[0..] == lists;
      while index < |lists|
        invariant index <= |lists|
        invariant name in ListMap(lists[index..]) <==> name in ListMap(lists)
        invariant name in ListMap(lists) ==> ListMap(lists[index..])[name] == ListMap(lists)[name]
      {
        assert lists[index..][1..] == lists[index + 1..];
        if lists[index].name == name {
          return Some(lists[index].items);
        }
        index := index + 1;
      }
      return None;
    }

    method PushLocal(name: string, value: string)
      modifies this`bindings
      ensures bindings == old(bindings) + [Binding(name, value)]
    {
      bindings := bindings + [Binding(name, value)];
    }

    method PopLocal()
      modifies this`bindings
      ensures bindings == if old(bindings) == [] then [] else old(bindings)[..|old(bindings)| - 1]
    {
      if |bindings| > 0 {
        bindings := bindings[..|bindings| - 1];
      }
    }

    /** One round of a loop, shared by ranges and lists. */
    method ExpandRound(d: Tree, value: string, output: Block, depth: nat, ghost path: seq<Trails.Frame>)
        returns (ok: bool)
      requires Valid() && At(Now(output), path) && depth < MAX_LEVELS && ForHeader(d)
      modifies this, trails, output
      ensures Valid()
      ensures Ran(old(Now(output)), Now(output),
        RoundMeaning(d, value, EnvOf(old(bindings)), path, old(Ctx())), ok, depth)
      decreases d, 1
    {
      ghost var s := Now(output);
      if totalIterations >= MAX_ITERATIONS {
        NoRoundLeft(s, d, value, path, Ctx(), depth);
        return false;
      }
      var saved := activeTrail;
      OpenRound(d.params[0], value, output, path);
      ghost var t := Now(output);
      ok := ExpandBlock(d.children, output, false, depth + 1, [Trails.Frame(Trails.For, d.params[0], value)] + path);
      ghost var u := Now(output);
      CloseRound(saved, output);
      AroundRound(s, t, u, d, value, path, old(Ctx()), ok, depth);
    }

    /** The loop variable and the trail of one round. */
    method OpenRound(name: string, value: string, ghost output: Block, ghost path: seq<Trails.Frame>)
      requires Valid() && At(Now(output), path) && totalIterations < MAX_ITERATIONS
      modifies this`totalIterations, this`activeTrail, this`bindings, trails
      ensures Valid() && At(Now(output), [Trails.Frame(Trails.For, name, value)] + path)
      ensures EnvOf(bindings) == EnvOf(old(bindings))[name := value]
      ensures bindings == old(bindings) + [Binding(name, value)] && totalIterations == old(totalIterations) + 1
      ensures old(trails.nodes) <= trails.nodes && (old(trails.dropped) ==> trails.dropped)
    {
      totalIterations := totalIterations + 1;
      activeTrail := trails.Push(activeTrail, Trails.Frame(Trails.For, name, value));
      PushLocal(name, value);
      EnvOfPush(old(bindings), Binding(name, value));
    }

    method CloseRound(saved: nat, ghost output: Block)
      requires bindings != []
      modifies this`bindings, this`activeTrail
      ensures Now(output)
        == old(Now(output)).(bindings := old(bindings)[..|old(bindings)| - 1], activeTrail := saved)
    {
      PopLocal();
      activeTrail := saved;
    }

    /** The checks of an `if` and of its `else`, and the branch they lead to. */
    method ReadIf(input: seq<Tree>, index: nat, depth: nat) returns (choice: Option<Choice>, next: nat)
      requires index < |input| && input[index].name == "if"
      ensures choice.Some? ==> depth < MAX_LEVELS && next == index + StepLength(input[index..])
      ensures depth < MAX_LEVELS ==> choice == ChoiceOf(input[index..], EnvOf(bindings), Ctx())
    {
      var d := input[index];
      next := index + 1;
      choice := None;
      ghost var ds := input[index..];
      assert ds[0] == d && (HasElse(ds) <==> index + 1 < |input| && input[index + 1].name == "else");
      if !d.hasBlock || |d.params| != 3 || (d.params[1] != "==" && d.params[1] != "!=") {
        return;
      }
      var hasElse := index + 1 < |input| && input[index + 1].name == "else";
      if hasElse {
        assert ds[1] == input[index + 1];
        next := index + 2;
        if !input[index + 1].hasBlock || |input[index + 1].params| != 0 {
          return;
        }
      }
      if depth >= MAX_LEVELS {
        return;
      }
      var left := ExpandField(d.params[0]);
      if left.None? {
        return;
      }
      var right := ExpandField(d.params[2]);
      if right.None? {
        return;
      }
      var equal := left == right;
      if if d.params[1] == "==" then equal else !equal {
        choice := Some(Branch(d.children, "true"));
      } else if hasElse {
        choice := Some(Branch(input[index + 1].children, "false"));
      } else {
        choice := Some(NoBranch);
      }
    }

    /** An `if` that `input` has at `index`; `next` skips its `else` as well. */
    method ExpandIf(input: seq<Tree>, index: nat, output: Block, depth: nat, ghost path: seq<Trails.Frame>)
        returns (ok: bool, next: nat)
      requires Valid() && At(Now(output), path) && depth <= MAX_LEVELS && index < |input| && input[index].name == "if"
      modifies this, trails, output
      ensures Valid()
      ensures Ran(old(Now(output)), Now(output),
        IfMeaning(input[index..], EnvOf(old(bindings)), path, old(Ctx())), ok, depth)
      ensures ok ==> next == index + StepLength(input[index..])
      decreases input, 4, 0
    {
      var choice;
      choice, next := ReadIf(input, index, depth);
      assert input[index..][0] == input[index];
      match choice {
        case None =>
          ok := false;
        case Some(NoBranch) =>
          assert output.directives[|output.directives|..] == [];
          ok := true;
        case Some(Branch(children, name)) =>
          assert children == input[index].children || children == input[index + 1].children;
          ok := ExpandBranch(children, input[index].params[0], name, output, depth, path);
      }
    }

    /** The branch of an `if` that is taken. */
    method ExpandBranch(children: seq<Tree>, condition: string, branch: string, output: Block, depth: nat,
        ghost path: seq<Trails.Frame>) returns (ok: bool)
      requires Valid() && At(Now(output), path) && depth < MAX_LEVELS
      modifies this, trails, output
      ensures Valid()
      ensures Ran(old(Now(output)), Now(output),
        Around(BlockMeaning(children, EnvOf(old(bindings)), false,
          [Trails.Frame(Trails.If, condition, branch)] + path, old(Ctx())), 0), ok, depth)
      decreases children, 6
    {
      var saved := activeTrail;
      var frame := Trails.Frame(Trails.If, condition, branch);
      var node := trails.Push(saved, frame);
      activeTrail := node;
      ok := ExpandBlock(children, output, false, depth + 1, [frame] + path);
      activeTrail := saved;
    }

    /** The checks of a `for`, and what it runs through: a range or a list. */
    method ReadFor(d: Tree, depth: nat) returns (range: Option<Range>, items: Option<seq<string>>)
      ensures var values := LoopOf(d, EnvOf(bindings), Ctx());
        && (range.Some? ==> range.value.low <= range.value.high && items.None?)
        && (range.Some? ==> values == Some(RangeValues(range.value.low, range.value.high)))
        && (items.Some? ==> values == items)
        && (if range.None? && items.None? then depth >= MAX_LEVELS || values.None? || |values.value| > MAX_ROUNDS
          else depth < MAX_LEVELS && |values.value| <= MAX_ROUNDS)
    {
      range, items := None, None;
      if !d.hasBlock || |d.params| != 3 || d.params[1] != "in" {
        return;
      }
      var valid := IsValidIdentifier(d.params[0]);
      if !valid || depth >= MAX_LEVELS {
        return;
      }
      var iterable := ExpandField(d.params[2]);
      if iterable.None? {
        return;
      }
      if FindDots(iterable.value, 0).Some? {
        var parsed := ParseRange(iterable.value);
        if parsed.Some? && parsed.value.high - parsed.value.low < MAX_ROUNDS {
          range := parsed;
        }
      } else {
        var list := FindList(iterable.value);
        if list.Some? && |list.value| <= MAX_ROUNDS {
          items := list;
        }
      }
    }

    method ExpandFor(d: Tree, output: Block, depth: nat, ghost path: seq<Trails.Frame>) returns (ok: bool)
      requires Valid() && At(Now(output), path) && depth <= MAX_LEVELS
      modifies this, trails, output
      ensures Valid()
      ensures Ran(old(Now(output)), Now(output), ForMeaning(d, EnvOf(old(bindings)), path, old(Ctx())), ok, depth)
      decreases d, 3
    {
      var range, items := ReadFor(d, depth);
      if range.Some? {
        ok := ExpandRange(d, range.value.low, range.value.high, output, depth, path);
      } else if items.Some? {
        ok := ExpandList(d, items.value, output, depth, path);
      } else {
        ok := false;
      }
    }

    method ExpandRange(d: Tree, low: nat, high: nat, output: Block, depth: nat, ghost path: seq<Trails.Frame>)
        returns (ok: bool)
      requires Valid() && At(Now(output), path) && depth < MAX_LEVELS && ForHeader(d)
      requires low <= high && high - low < MAX_ROUNDS
      modifies this, trails, output
      ensures Valid()
      ensures Ran(old(Now(output)), Now(output),
        ForEach(d, RangeValues(low, high), EnvOf(old(bindings)), path, old(Ctx())), ok, depth)
      decreases d, 2
    {
      ghost var s, env, ctx, values := Now(output), EnvOf(bindings), Ctx(), RangeValues(low, high);
      ghost var done := NOTHING;
      var count, iteration := high - low + 1, 0;
      RanNothing(s, depth);
      ThenNothing(ForEach(d, values, env, path, ctx));
      assert values[0..] == values;
      while iteration < count
        invariant iteration <= count && Valid() && At(Now(output), path)
        invariant Ran(s, Now(output), done, true, depth)
        invariant Then(done, ForEach(d, values[iteration..], env, path, ctx)) == ForEach(d, values, env, path, ctx)
      {
        var value := Decimal(low + iteration);
        ghost var t, round := Now(output), RoundMeaning(d, value, env, path, ctx);
        ghost var rest := ForEach(d, values[iteration + 1..], env, path, ctx);
        assert values[iteration..][0] == value && values[iteration..][1..] == values[iteration + 1..];
        ok := ExpandRound(d, value, output, depth, path);
        if !ok {
          RanFails(s, t, Now(output), done, round, rest, depth);
          return;
        }
        RanThen(s, t, Now(output), done, round, true, depth);
        ThenAssociative(done, round, rest);
        RestoredAt(t, Now(output), path);
        done := Then(done, round);
        iteration := iteration + 1;
      }
      assert values[iteration..] == [];
      ThenNothing(done);
      ok := true;
    }

    method ExpandList(d: Tree, items: seq<string>, output: Block, depth: nat, ghost path: seq<Trails.Frame>)
        returns (ok: bool)
      requires Valid() && At(Now(output), path) && depth < MAX_LEVELS && ForHeader(d)
      requires |items| <= MAX_ROUNDS
      modifies this, trails, output
      ensures Valid()
      ensures Ran(old(Now(output)), Now(output),
        ForEach(d, items, EnvOf(old(bindings)), path, old(Ctx())), ok, depth)
      decreases d, 2
    {
      ghost var s, env, ctx := Now(output), EnvOf(bindings), Ctx();
      ghost var done := NOTHING;
      var iteration := 0;
      RanNothing(s, depth);
      ThenNothing(ForEach(d, items, env, path, ctx));
      assert items[0..] == items;
      while iteration < |items|
        invariant iteration <= |items| && Valid() && At(Now(output), path)
        invariant Ran(s, Now(output), done, true, depth)
        invariant Then(done, ForEach(d, items[iteration..], env, path, ctx)) == ForEach(d, items, env, path, ctx)
      {
        var value := items[iteration];
        ghost var t, round := Now(output), RoundMeaning(d, value, env, path, ctx);
        ghost var rest := ForEach(d, items[iteration + 1..], env, path, ctx);
        assert items[iteration..][0] == value && items[iteration..][1..] == items[iteration + 1..];
        ok := ExpandRound(d, value, output, depth, path);
        if !ok {
          RanFails(s, t, Now(output), done, round, rest, depth);
          return;
        }
        RanThen(s, t, Now(output), done, round, true, depth);
        ThenAssociative(done, round, rest);
        RestoredAt(t, Now(output), path);
        done := Then(done, round);
        iteration := iteration + 1;
      }
      assert items[iteration..] == [];
      ThenNothing(done);
      ok := true;
    }

    /** Adds a copy of `d` to the output, still without children. */
    method CloneHead(d: Tree, output: Block) returns (copy: Option<Tree>)
      modifies this`outputCount, output
      ensures outputCount == old(outputCount) + 1
      ensures
        var name := Field(d.name, EnvOf(bindings), environ);
        var params := AllFields(d.params, EnvOf(bindings), environ);
        copy == if name.Some? && params.Some? then Some(Directive(name.value, params.value, d.hasBlock, [], d.lineno,
          activeTrail, d.span, d.nameSpan, d.paramSpans)) else None
      ensures copy.Some? ==> output.directives == old(output.directives) + [copy.value]
    {
      outputCount := outputCount + 1;
      var made := Directive("", [], d.hasBlock, [], d.lineno, activeTrail, d.span, d.nameSpan, []);
      output.directives := output.directives + [made];
      var words := ExpandWords(d);
      if words.None? {
        return None;
      }
      var (name, params) := words.value;
      made := made.(name := name, params := params, paramSpans := d.paramSpans);
      output.directives := output.directives[|output.directives| - 1 := made];
      copy := Some(made);
    }

    method CloneDirective(d: Tree, output: Block, depth: nat, ghost path: seq<Trails.Frame>) returns (ok: bool)
      requires Valid() && At(Now(output), path) && depth <= MAX_LEVELS
      modifies this, trails, output
      ensures Valid()
      ensures Ran(old(Now(output)), Now(output), CopyMeaning(d, EnvOf(old(bindings)), path, old(Ctx())), ok, depth)
      decreases d, 3
    {
      ghost var s := Now(output);
      if outputCount >= MAX_DIRECTIVES {
        NoCopyLeft(s, d, path, Ctx(), depth);
        return false;
      }
      var copy := CloneHead(d, output);
      if copy.None? {
        CopyFails(s, Now(output), d, path, old(Ctx()), depth);
        return false;
      }
      ok := CloneChildren(d, copy.value, output, depth, s, path);
    }

    /** The children go into a block of their own, which becomes that of the copy. */
    method CloneChildren(d: Tree, copy: Tree, output: Block, depth: nat, ghost s: State, ghost path: seq<Trails.Frame>)
        returns (ok: bool)
      requires Sound(s) && At(s, path) && depth <= MAX_LEVELS && s.directives < MAX_DIRECTIVES && trails.Valid()
      requires Now(output) == s.(directives := s.directives + 1, out := s.out + [copy])
      requires Field(d.name, EnvOf(s.bindings), environ) == Some(copy.name)
      requires AllFields(d.params, EnvOf(s.bindings), environ) == Some(copy.params)
      requires copy == Directive(copy.name, copy.params, d.hasBlock, [], d.lineno, s.activeTrail, d.span, d.nameSpan,
        d.paramSpans)
      modifies this, trails, output
      ensures Valid()
      ensures Ran(s, Now(output), CopyMeaning(d, EnvOf(s.bindings), path, old(Ctx())), ok, depth)
      decreases d, 2
    {
      var children := new Block();
      ghost var t := Now(children);
      ok := ExpandBlock(d.children, children, false, depth, path);
      ghost var u := Now(children);
      var made := copy.(children := children.directives);
      output.directives := output.directives[|output.directives| - 1 := made];
      assert Now(output) == u.(out := s.out + [made]);
      CopyIsRan(s, t, u, d, copy, path, old(Ctx()), ok, depth);
    }

    /** The name and the parameters of a directive, all expanded. */
    method ExpandWords(d: Tree) returns (words: Option<(string, seq<string>)>)
      ensures
        var name := Field(d.name, EnvOf(bindings), environ);
        var params := AllFields(d.params, EnvOf(bindings), environ);
        words == if name.Some? && params.Some? then Some((name.value, params.value)) else None
    {
      var name := ExpandField(d.name);
      if name.None? {
        return None;
      }
      var params := ExpandAll(d.params);
      return if params.None? then None else Some((name.value, params.value));
    }

    method ExpandAll(inputs: seq<string>) returns (outputs: Option<seq<string>>)
      ensures outputs == AllFields(inputs, EnvOf(bindings), environ)
    {
      var done: seq<string>, index := [], 0;
      ghost var env := EnvOf(bindings);
      ghost var all := AllFields(inputs, env, environ);
      assert inputs[0..] == inputs;
      assert all.Some? ==> [] + all.value == all.value;
      while index < |inputs|
        invariant index <= |inputs|
        invariant PrependAll(done, AllFields(inputs[index..], env, environ)) == all
      {
        var value := ExpandField(inputs[index]);
        if value.None? {
          return None;
        }
        ghost var rest := AllFields(inputs[index + 1..], env, environ);
        assert inputs[index..][1..] == inputs[index + 1..];
        if rest.Some? {
          assert done + ([value.value] + rest.value) == done + [value.value] + rest.value;
        }
        done := done + [value.value];
        index := index + 1;
      }
      assert inputs[index..] == [];
      assert done + [] == done;
      return Some(done);
    }

    method ExpandBlock(input: seq<Tree>, output: Block, top: bool, depth: nat, ghost path: seq<Trails.Frame>)
        returns (ok: bool)
      requires Valid() && At(Now(output), path) && depth <= MAX_LEVELS
      modifies this, trails, output
      ensures Valid()
      ensures Ran(old(Now(output)), Now(output),
        BlockMeaning(input, EnvOf(old(bindings)), top, path, old(Ctx())), ok, depth)
      decreases input, 5
    {
      ghost var s, env, ctx := Now(output), EnvOf(bindings), Ctx();
      ghost var done := NOTHING;
      var index := 0;
      RanNothing(s, depth);
      ThenNothing(BlockMeaning(input, env, top, path, ctx));
      assert input[0..] == input;
      while index < |input|
        invariant index <= |input| && Valid() && At(Now(output), path)
        invariant Ran(s, Now(output), done, true, depth)
        invariant Then(done, BlockMeaning(input[index..], env, top, path, ctx))
          == BlockMeaning(input, env, top, path, ctx)
        decreases |input| - index
      {
        ghost var t, step := Now(output), StepMeaning(input[index..], env, top, path, ctx);
        ghost var n := StepLength(input[index..]);
        ghost var rest := BlockMeaning(input[index..][n..], env, top, path, ctx);
        assert input[index..][n..] == input[index + n..];
        var next;
        ok, next := ExpandStep(input, index, output, top, depth, path);
        if !ok {
          RanFails(s, t, Now(output), done, step, rest, depth);
          return;
        }
        RanThen(s, t, Now(output), done, step, true, depth);
        ThenAssociative(done, step, rest);
        RestoredAt(t, Now(output), path);
        done := Then(done, step);
        index := next;
      }
      assert input[index..] == [];
      ThenNothing(done);
      ok := true;
    }

    /** One round of the block loop, by the name of the directive as it is written. */
    method ExpandStep(input: seq<Tree>, index: nat, output: Block, top: bool, depth: nat, ghost path: seq<Trails.Frame>)
        returns (ok: bool, next: nat)
      requires Valid() && At(Now(output), path) && depth <= MAX_LEVELS && index < |input|
      modifies this, trails, output
      ensures Valid()
      ensures Ran(old(Now(output)), Now(output),
        StepMeaning(input[index..], EnvOf(old(bindings)), top, path, old(Ctx())), ok, depth)
      ensures ok ==> next == index + StepLength(input[index..])
      decreases input, 4, 1
    {
      var d := input[index];
      assert input[index..][0] == d;
      next := index + 1;
      if d.name == "vars" || d.name == "lists" {
        ok := top;
        if ok {
          RanNothing(Now(output), depth);
        }
      } else if d.name == "for" {
        ok := ExpandFor(d, output, depth, path);
      } else if d.name == "if" {
        ok, next := ExpandIf(input, index, output, depth, path);
      } else if d.name == "else" {
        ok := false;
      } else {
        ok := CloneDirective(d, output, depth, path);
      }
    }

    // ----- Variables, lists, and a whole file ------------------------------------------

    method CollectVarEntries(entries: seq<Tree>) returns (ok: bool)
      modifies this`bindings
      ensures var env := VarEntries(entries, EnvOf(old(bindings)), environ);
        if ok then env == Some(EnvOf(bindings)) else env == None
    {
      ghost var all := VarEntries(entries, EnvOf(bindings), environ);
      var index := 0;
      assert entries[0..] == entries;
      while index < |entries|
        invariant index <= |entries|
        invariant VarEntries(entries[index..], EnvOf(bindings), environ) == all
      {
        var entry := entries[index];
        assert entries[index..][0] == entry && entries[index..][1..] == entries[index + 1..];
        if entry.hasBlock || |entry.children| != 0 || |entry.params| != 1 {
          return false;
        }
        var valid := IsValidIdentifier(entry.name);
        if !valid {
          return false;
        }
        var previous := Lookup(bindings, entry.name);
        if previous.Some? {
          return false;
        }
        var value := ExpandField(entry.params[0]);
        if value.None? {
          return false;
        }
        EnvOfPush(bindings, Binding(entry.name, value.value));
        bindings := bindings + [Binding(entry.name, value.value)];
        index := index + 1;
      }
      assert entries[index..] == [];
      ok := true;
    }

    method CollectVars(top: seq<Tree>) returns (ok: bool)
      requires bindings == []
      modifies this`bindings
      ensures var env := VarsOf(top, false, map[], environ);
        if ok then env == Some(EnvOf(bindings)) else env == None
    {
      var seen, index := false, 0;
      assert top[0..] == top;
      while index < |top|
        invariant index <= |top|
        invariant VarsOf(top[index..], seen, EnvOf(bindings), environ) == VarsOf(top, false, map[], environ)
      {
        var block := top[index];
        assert top[index..][0] == block && top[index..][1..] == top[index + 1..];
        index := index + 1;
        if block.name == "vars" {
          if seen || !block.hasBlock || |block.params| != 0 {
            return false;
          }
          seen := true;
          ok := CollectVarEntries(block.children);
          if !ok {
            return false;
          }
        }
      }
      assert top[index..] == [];
      ok := true;
    }

    method CollectListEntries(entries: seq<Tree>) returns (ok: bool)
      modifies this`lists
      ensures var map' := ListEntries(entries, EnvOf(bindings), ListMap(old(lists)), environ);
        if ok then map' == Some(ListMap(lists)) else map' == None
    {
      ghost var env := EnvOf(bindings);
      ghost var all := ListEntries(entries, env, ListMap(lists), environ);
      var index := 0;
      assert entries[0..] == entries;
      while index < |entries|
        invariant index <= |entries|
        invariant ListEntries(entries[index..], env, ListMap(lists), environ) == all
      {
        var entry := entries[index];
        assert entries[index..][0] == entry && entries[index..][1..] == entries[index + 1..];
        if entry.hasBlock || |entry.children| != 0 || |entry.params| == 0 {
          return false;
        }
        var valid := IsValidIdentifier(entry.name);
        if !valid {
          return false;
        }
        var previous := FindList(entry.name);
        if previous.Some? {
          return false;
        }
        var items := ExpandAll(entry.params);
        if items.None? {
          return false;
        }
        ListMapSnoc(lists, List(entry.name, items.value));
        lists := lists + [List(entry.name, items.value)];
        index := index + 1;
      }
      assert entries[index..] == [];
      ok := true;
    }

    method CollectLists(top: seq<Tree>) returns (ok: bool)
      requires lists == []
      modifies this`lists
      ensures var map' := ListsOf(top, false, EnvOf(bindings), map[], environ);
        if ok then map' == Some(ListMap(lists)) else map' == None
    {
      ghost var env := EnvOf(bindings);
      var seen, index := false, 0;
      assert top[0..] == top;
      while index < |top|
        invariant index <= |top|
        invariant ListsOf(top[index..], seen, env, ListMap(lists), environ) == ListsOf(top, false, env, map[], environ)
      {
        var block := top[index];
        assert top[index..][0] == block && top[index..][1..] == top[index + 1..];
        index := index + 1;
        if block.name == "lists" {
          if seen || !block.hasBlock || |block.params| != 0 {
            return false;
          }
          seen := true;
          ok := CollectListEntries(block.children);
          if !ok {
            return false;
          }
        }
      }
      assert top[index..] == [];
      ok := true;
    }

    /** Both together: what the file means is then what its blocks mean. */
    method Collect(top: seq<Tree>) returns (ok: bool)
      requires bindings == [] && lists == []
      modifies this`bindings, this`lists
      ensures TemplateMeaning(top, environ)
        == if ok then BlockMeaning(top, EnvOf(bindings), true, [], Ctx()) else Undefined
    {
      ok := CollectVars(top);
      if ok {
        ok := CollectLists(top);
      }
    }
  }

  /** leme_config_expand_templates: it succeeds exactly when the file has a meaning
      and the meaning fits the budgets. The output is then that meaning; while no
      trail node was dropped, the chain of each directive's trail lists exactly the
      constructs around it, innermost first. On failure nothing is left behind. */
  method ExpandTemplates(input: seq<Tree>, environ: Environ, trails: Trails.TrailTable)
      returns (ok: bool, output: seq<Tree>)
    requires trails.Valid()
    modifies trails
    ensures trails.Valid()
    ensures ok <==> Fits(TemplateMeaning(input, environ), 0, 0, 0)
    ensures ok ==> Matches(trails.nodes, output, TemplateMeaning(input, environ).out, !trails.dropped)
    ensures !ok ==> output == [] && trails.nodes == []
  {
    var expander := new Expander(environ, trails);
    var block := new Block();
    ok := expander.Collect(input);
    if ok {
      ok := expander.ExpandBlock(input, block, true, 0, []);
    }
    if !ok {
      trails.Finish();
      return false, [];
    }
    output := block.directives;
  }
}
