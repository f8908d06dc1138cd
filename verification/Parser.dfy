/** The parser (scfg_parse.c): the class that walks the tokens, the function it
    computes, and the grammar of configurations that it decides exactly. */
module Parser {
  import opened CStrings
  import opened Scfg
  import opened Seqs
  import Lexer
  import Source

  type Tree = Directive<nat>

  predicate EndTerminated(ts: seq<Token>) {
    |ts| > 0 && ts[|ts| - 1].kind == EndOfInput
  }

  // ----- What the parser computes ----------------------------------------------

  /** The index of the first token from `i` on that is not a word. */
  function WordsEnd(ts: seq<Token>, i: nat): (w: nat)
    requires EndTerminated(ts) && i < |ts|
    ensures i <= w < |ts| && ts[w].kind != Word
    ensures forall k :: i <= k < w ==> ts[k].kind == Word
    decreases |ts| - i
  {
    if ts[i].kind == Word then WordsEnd(ts, i + 1) else i
  }

  /** Just past the brace that closes `open` levels, or the end of the input. */
  function SkipBlock(ts: seq<Token>, i: nat, open: nat): (r: nat)
    requires EndTerminated(ts) && i < |ts|
    ensures i <= r < |ts|
    decreases |ts| - i
  {
    if open == 0 || ts[i].kind == EndOfInput then i
    else SkipBlock(ts, i + 1,
      if ts[i].kind == Open then open + 1 else if ts[i].kind == Close then open - 1 else open)
  }

  /** Where the last token before `i` that is not a newline ends. */
  function DirectiveEnd(ts: seq<Token>, i: nat): nat
    requires i <= |ts|
  {
    if i == 0 then 0
    else if ts[i - 1].kind == Newline then DirectiveEnd(ts, i - 1)
    else ts[i - 1].span.End()
  }

  function WordValues(ts: seq<Token>, i: nat, w: nat): (r: seq<string>)
    requires i <= w <= |ts|
  {
    seq(w - i, k requires 0 <= k < w - i => CString(ts[i + k].value))
  }

  function WordSpans(ts: seq<Token>, i: nat, w: nat): (r: seq<Span>)
    requires i <= w <= |ts|
  {
    seq(w - i, k requires 0 <= k < w - i => ts[i + k].span)
  }

  /** The words ts[i..w] and what follows them as a directive. */
  function Build(data: string, ts: seq<Token>, i: nat, w: nat, hasBlock: bool, children: seq<Tree>, end: nat): Tree
    requires i < w <= |ts|
  {
    var start := ts[i].span.offset;
    Directive(CString(ts[i].value), WordValues(ts, i + 1, w), hasBlock, children, Source.LineOf(data, start), 0,
      Span(start, if end > start then end - start else 0), ts[i].span, WordSpans(ts, i + 1, w))
  }

  datatype Parsed = Parsed(block: seq<Tree>, next: nat, closed: bool, errors: seq<Error>)
  datatype ParsedOne = ParsedOne(directive: Tree, next: nat, errors: seq<Error>)

  function ParseDirective(data: string, ts: seq<Token>, i: nat, depth: nat): (r: ParsedOne)
    requires EndTerminated(ts) && i < |ts| && ts[i].kind == Word
    ensures i < r.next < |ts|
    decreases |ts| - i, 1
  {
    var w := WordsEnd(ts, i);
    if ts[w].kind == Open then
      var body := ParseBody(data, ts, w, depth);
      ParsedOne(Build(data, ts, i, w, true, body.block, DirectiveEnd(ts, body.next)), body.next, body.errors)
    else
      var next := if ts[w].kind == Newline then w + 1 else w;
      ParsedOne(Build(data, ts, i, w, false, [], DirectiveEnd(ts, next)), next, [])
  }

  /** What follows the '{' at w; `closed` is unused once its error is reported. */
  function ParseBody(data: string, ts: seq<Token>, w: nat, depth: nat): (r: Parsed)
    requires EndTerminated(ts) && w < |ts| && ts[w].kind == Open
    ensures w < r.next < |ts|
    decreases |ts| - w, 0
  {
    if depth + 1 >= MAX_DEPTH then
      Parsed([], SkipBlock(ts, w + 1, 1), false, [Error(ts[w].span, NestedTooDeeply)])
    else
      var inner := ParseBlock(data, ts, w + 1, depth + 1);
      inner.(errors := inner.errors + if inner.closed then [] else [Error(ts[w].span, NeverClosed)])
  }

  function ParseBlock(data: string, ts: seq<Token>, i: nat, depth: nat): (r: Parsed)
    requires EndTerminated(ts) && i < |ts|
    ensures i <= r.next < |ts|
    decreases |ts| - i, 2
  {
    match ts[i].kind
    case Newline => ParseBlock(data, ts, i + 1, depth)
    case EndOfInput => Parsed([], i, false, [])
    case Close =>
      if depth > 0 then Parsed([], i + 1, true, [])
      else
        var rest := ParseBlock(data, ts, i + 1, depth);
        rest.(errors := [Error(ts[i].span, UnexpectedClose)] + rest.errors)
    case Open =>
      var rest := ParseBlock(data, ts, SkipBlock(ts, i + 1, 1), depth);
      rest.(errors := [Error(ts[i].span, ExpectedName)] + rest.errors)
    case Word =>
      var one := ParseDirective(data, ts, i, depth);
      var rest := ParseBlock(data, ts, one.next, depth);
      rest.(block := [one.directive] + rest.block, errors := one.errors + rest.errors)
  }

  lemma WordEntry(data: string, ts: seq<Token>, i: nat, depth: nat)
    requires EndTerminated(ts) && i < |ts| && ts[i].kind == Word
    ensures var one := ParseDirective(data, ts, i, depth);
      var rest := ParseBlock(data, ts, one.next, depth);
      ParseBlock(data, ts, i, depth)
        == rest.(block := [one.directive] + rest.block, errors := one.errors + rest.errors)
  {
  }

  class TokenParser {
    const source: Source.SourceText
    const tokens: seq<Token>
    const report: Report
    var index: nat

    ghost predicate Valid()
      reads this, source, source.lineOffsets, report
    {
      source.Valid() && report.Valid() && EndTerminated(tokens) && index < |tokens|
    }

    constructor (source: Source.SourceText, tokens: seq<Token>, report: Report)
      requires source.Valid() && report.Valid() && EndTerminated(tokens)
      ensures Valid() && index == 0
      ensures this.source == source && this.tokens == tokens && this.report == report
    {
      this.source, this.tokens, this.report, index := source, tokens, report, 0;
    }

    method Skip()
      requires Valid()
      modifies this`index
      ensures index == SkipBlock(tokens, old(index), 1)
    {
      var depth := 1;
      while depth > 0
        invariant 0 <= depth && index < |tokens|
        invariant SkipBlock(tokens, index, depth) == SkipBlock(tokens, old(index), 1)
        decreases |tokens| - index
      {
        var kind := tokens[index].kind;
        if kind == EndOfInput {
          return;
        }
        if kind == Open {
          depth := depth + 1;
        } else if kind == Close {
          depth := depth - 1;
        }
        index := index + 1;
      }
    }

    method EndOfDirective() returns (end: nat)
      requires Valid()
      ensures end == DirectiveEnd(tokens, index)
    {
      var back := index;
      while back > 0 && tokens[back - 1].kind == Newline
        invariant 0 <= back <= index
        invariant DirectiveEnd(tokens, back) == DirectiveEnd(tokens, index)
      {
        back := back - 1;
      }
      return if back == 0 then 0 else tokens[back - 1].span.End();
    }

    method ReadWords() returns (values: seq<string>, spans: seq<Span>)
      requires Valid()
      modifies this`index
      ensures index == WordsEnd(tokens, old(index))
      ensures values == WordValues(tokens, old(index), index) && spans == WordSpans(tokens, old(index), index)
    {
      values, spans := [], [];
      while tokens[index].kind == Word
        invariant old(index) <= index < |tokens|
        invariant WordsEnd(tokens, old(index)) == WordsEnd(tokens, index)
        invariant values == WordValues(tokens, old(index), index) && spans == WordSpans(tokens, old(index), index)
        decreases |tokens| - index
      {
        values := values + [CString(tokens[index].value)];
        spans := spans + [tokens[index].span];
        index := index + 1;
      }
    }

    /** The name and the parameters, in a directive that has no block and no extent yet. */
    method ReadHead() returns (head: Tree)
      requires Valid() && tokens[index].kind == Word
      modifies this`index
      ensures index == WordsEnd(tokens, old(index)) > old(index)
      ensures head == Build(source.data, tokens, old(index), index, false, [], 0)
    {
      var name := tokens[index];
      var lineno, _ := source.Locate(name.span.offset);
      index := index + 1;
      var params, paramSpans := ReadWords();
      head := Directive(CString(name.value), params, false, [], lineno, 0,
        Span(name.span.offset, 0), name.span, paramSpans);
    }

    method ReadDirective(depth: nat) returns (directive: Tree)
      requires Valid() && tokens[index].kind == Word
      modifies this`index, report
      ensures Valid()
      ensures var r := ParseDirective(source.data, tokens, old(index), depth);
        directive == r.directive && index == r.next && report.reported == old(report.reported) + r.errors
      decreases |tokens| - index, 1
    {
      directive := ReadHead();
      if tokens[index].kind == Open {
        var children := ReadBody(depth);
        directive := directive.(hasBlock := true, children := children);
      } else if tokens[index].kind == Newline {
        index := index + 1;
      }
      var start := directive.nameSpan.offset;
      var end := EndOfDirective();
      directive := directive.(span := Span(start, if end > start then end - start else 0));
    }

    method ReadBody(depth: nat) returns (children: seq<Tree>)
      requires Valid() && tokens[index].kind == Open
      modifies this`index, report
      ensures Valid()
      ensures var r := ParseBody(source.data, tokens, old(index), depth);
        children == r.block && index == r.next && report.reported == old(report.reported) + r.errors
      decreases |tokens| - index, 0
    {
      var open := tokens[index].span;
      index := index + 1;
      if depth + 1 >= MAX_DEPTH {
        children := [];
        report.Add(open, NestedTooDeeply);
        Skip();
      } else {
        children := ReadInner(open, depth);
      }
    }

    /** The block itself, which has to be closed. */
    method ReadInner(open: Span, depth: nat) returns (children: seq<Tree>)
      requires Valid()
      modifies this`index, report
      ensures Valid()
      ensures var r := ParseBlock(source.data, tokens, old(index), depth + 1);
        && children == r.block && index == r.next
        && report.reported == old(report.reported) + (r.errors + if r.closed then [] else [Error(open, NeverClosed)])
      decreases |tokens| - index, 4
    {
      ghost var errors := ParseBlock(source.data, tokens, index, depth + 1).errors;
      Associate(report.reported, errors, [Error(open, NeverClosed)]);
      assert errors + [] == errors;
      var closed;
      children, closed := ReadBlock(depth + 1);
      if !closed {
        report.Add(open, NeverClosed);
      }
    }

    /** One round of the block loop that does not end the block. */
    method ReadEntry(depth: nat) returns (more: seq<Tree>, ghost moreErrors: seq<Error>)
      requires Valid() && tokens[index].kind != EndOfInput && !(tokens[index].kind == Close && depth > 0)
      modifies this`index, report
      ensures Valid() && old(index) < index
      ensures report.reported == old(report.reported) + moreErrors
      ensures var rest := ParseBlock(source.data, tokens, index, depth);
        ParseBlock(source.data, tokens, old(index), depth)
          == rest.(block := more + rest.block, errors := moreErrors + rest.errors)
      decreases |tokens| - index, 2
    {
      if tokens[index].kind == Word {
        WordEntry(source.data, tokens, index, depth);
        moreErrors := ParseDirective(source.data, tokens, index, depth).errors;
        var directive := ReadDirective(depth);
        more := [directive];
      } else {
        more := [];
        moreErrors := SkipStray(depth);
      }
    }

    /** A newline, or a brace that does not belong here. */
    method SkipStray(depth: nat) returns (ghost moreErrors: seq<Error>)
      requires Valid() && tokens[index].kind != Word && tokens[index].kind != EndOfInput
      requires tokens[index].kind == Close ==> depth == 0
      modifies this`index, report
      ensures Valid() && old(index) < index
      ensures report.reported == old(report.reported) + moreErrors
      ensures var rest := ParseBlock(source.data, tokens, index, depth);
        ParseBlock(source.data, tokens, old(index), depth) == rest.(errors := moreErrors + rest.errors)
    {
      moreErrors := [];
      var token := tokens[index];
      index := index + 1;
      if token.kind == Close {
        report.Add(token.span, UnexpectedClose);
        moreErrors := [Error(token.span, UnexpectedClose)];
      } else if token.kind == Open {
        report.Add(token.span, ExpectedName);
        moreErrors := [Error(token.span, ExpectedName)];
        Skip();
      }
    }

    method ReadBlock(depth: nat) returns (block: seq<Tree>, closed: bool)
      requires Valid()
      modifies this`index, report
      ensures Valid()
      ensures var r := ParseBlock(source.data, tokens, old(index), depth);
        block == r.block && index == r.next && closed == r.closed
        && report.reported == old(report.reported) + r.errors
      decreases |tokens| - index, 3
    {
      block := [];
      ghost var all := ParseBlock(source.data, tokens, index, depth);
      while tokens[index].kind != EndOfInput && !(tokens[index].kind == Close && depth > 0)
        invariant Valid() && old(index) <= index
        invariant Continues(block, report.reported, ParseBlock(source.data, tokens, index, depth),
          old(report.reported), all)
        decreases |tokens| - index
      {
        ghost var errors, before := report.reported, ParseBlock(source.data, tokens, index, depth);
        var more, moreErrors := ReadEntry(depth);
        ContinuesStep(block, errors, before, more, moreErrors,
          ParseBlock(source.data, tokens, index, depth), old(report.reported), all);
        block := block + more;
      }
      closed := tokens[index].kind == Close;
      if closed {
        index := index + 1;
      }
    }
  }

  /** What was read so far and what is still to come make up the whole block. */
  predicate Continues(block: seq<Tree>, errors: seq<Error>, rest: Parsed, before: seq<Error>, all: Parsed) {
    && block + rest.block == all.block
    && errors + rest.errors == before + all.errors
    && rest.next == all.next && rest.closed == all.closed
  }

  lemma ContinuesStep(block: seq<Tree>, errors: seq<Error>, rest: Parsed, more: seq<Tree>, moreErrors: seq<Error>,
      rest': Parsed, before: seq<Error>, all: Parsed)
    requires Continues(block, errors, rest, before, all)
    requires rest == rest'.(block := more + rest'.block, errors := moreErrors + rest'.errors)
    ensures Continues(block + more, errors + moreErrors, rest', before, all)
  {
    assert block + more + rest'.block == block + rest.block;
    assert errors + moreErrors + rest'.errors == errors + rest.errors;
  }

  // ----- The grammar -----------------------------------------------------------

  /** ts[i..j] is (NEWLINE | directive)*, its directives being `ds`. */
  ghost predicate DerivesBlock(data: string, ts: seq<Token>, i: nat, j: nat, ds: seq<Tree>)
    requires EndTerminated(ts) && i <= j < |ts|
    decreases ds, j - i
  {
    if i < j && ts[i].kind == Newline then DerivesBlock(data, ts, i + 1, j, ds)
    else if ds == [] then i == j
    else exists m :: i < m <= j && DerivesDirective(data, ts, i, m, ds[0]) && DerivesBlock(data, ts, m, j, ds[1..])
  }

  /** ts[i..m] is WORD+ '{' block '}', or WORD+ NEWLINE, or WORD+ with a '}' or
      the end of the input next; `d` records it. */
  ghost predicate DerivesDirective(data: string, ts: seq<Token>, i: nat, m: nat, d: Tree)
    requires EndTerminated(ts) && i < m < |ts|
    decreases d, m - i
  {
    var w := WordsEnd(ts, i);
    if i == w then false
    else if ts[w].kind == Open then
      w + 1 < m && ts[m - 1].kind == Close && DerivesBlock(data, ts, w + 1, m - 1, d.children)
      && d == Build(data, ts, i, w, true, d.children, ts[m - 1].span.End())
    else
      m == (if ts[w].kind == Newline then w + 1 else w)
      && d == Build(data, ts, i, w, false, [], ts[w - 1].span.End())
  }

  /** How many blocks are open at once, at most. */
  function Nesting<T>(ds: seq<Directive<T>>): nat {
    if ds == [] then 0
    else
      var first := if ds[0].hasBlock then 1 + Nesting(ds[0].children) else 0;
      var rest := Nesting(ds[1..]);
      if first > rest then first else rest
  }

  /** `ds` is the one reading of a token list: it derives from the grammar, and
      the top level and its nested blocks are fewer than MAX_DEPTH. */
  ghost predicate Reads(data: string, ts: seq<Token>, ds: seq<Tree>) {
    EndTerminated(ts) && DerivesBlock(data, ts, 0, |ts| - 1, ds) && Nesting(ds) < MAX_DEPTH
  }

  // ----- The parser decides the grammar ----------------------------------------

  /** The token that ends a block at this depth. */
  function Terminator(depth: nat): TokenKind { if depth > 0 then Close else EndOfInput }

  lemma WordsAreNotNewlines(ts: seq<Token>, i: nat, w: nat)
    requires EndTerminated(ts) && i < |ts| && w == WordsEnd(ts, i) && i < w
    ensures DirectiveEnd(ts, w) == ts[w - 1].span.End()
    ensures ts[w].kind == Newline ==> DirectiveEnd(ts, w + 1) == ts[w - 1].span.End()
  {
    assert ts[w - 1].kind == Word;
  }

  /** A run without errors that closes as it should is a derivation. */
  lemma {:induction false} BlockSound(data: string, ts: seq<Token>, i: nat, depth: nat)
    requires EndTerminated(ts) && Lexer.EndsOnce(ts) && i < |ts| && depth < MAX_DEPTH
    ensures var r := ParseBlock(data, ts, i, depth);
      r.errors == [] && (depth > 0 ==> r.closed) ==>
        var j := if depth > 0 then r.next - 1 else r.next;
        i <= j && ts[j].kind == Terminator(depth)
        && DerivesBlock(data, ts, i, j, r.block) && Nesting(r.block) + depth < MAX_DEPTH
    decreases |ts| - i, 1
  {
    if ts[i].kind == Newline {
      BlockSound(data, ts, i + 1, depth);
    } else if ts[i].kind == Word {
      DirectiveSound(data, ts, i, depth);
      BlockSound(data, ts, ParseDirective(data, ts, i, depth).next, depth);
      EntrySound(data, ts, i, depth);
    }
  }

  /** A derived directive before a derived block makes a derived block. */
  lemma EntrySound(data: string, ts: seq<Token>, i: nat, depth: nat)
    requires EndTerminated(ts) && i < |ts| && ts[i].kind == Word && depth < MAX_DEPTH
    requires var one := ParseDirective(data, ts, i, depth);
      one.errors == [] ==>
        && DerivesDirective(data, ts, i, one.next, one.directive)
        && (one.directive.hasBlock ==> 1 + Nesting(one.directive.children) + depth < MAX_DEPTH)
    requires var m := ParseDirective(data, ts, i, depth).next;
      var rest := ParseBlock(data, ts, m, depth);
      rest.errors == [] && (depth > 0 ==> rest.closed) ==>
        var j := if depth > 0 then rest.next - 1 else rest.next;
        m <= j && ts[j].kind == Terminator(depth)
        && DerivesBlock(data, ts, m, j, rest.block) && Nesting(rest.block) + depth < MAX_DEPTH
    ensures var r := ParseBlock(data, ts, i, depth);
      r.errors == [] && (depth > 0 ==> r.closed) ==>
        var j := if depth > 0 then r.next - 1 else r.next;
        i <= j && ts[j].kind == Terminator(depth)
        && DerivesBlock(data, ts, i, j, r.block) && Nesting(r.block) + depth < MAX_DEPTH
  {
    var one, r := ParseDirective(data, ts, i, depth), ParseBlock(data, ts, i, depth);
    if r.errors == [] && (depth > 0 ==> r.closed) {
      var rest := ParseBlock(data, ts, one.next, depth);
      ConsDerives(data, ts, i, one.next, if depth > 0 then r.next - 1 else r.next, one.directive, rest.block);
      NestingCons(one.directive, rest.block);
    }
  }

  lemma ConsDerives(data: string, ts: seq<Token>, i: nat, m: nat, j: nat, d: Tree, rest: seq<Tree>)
    requires EndTerminated(ts) && i < m <= j < |ts| && ts[i].kind == Word
    requires DerivesDirective(data, ts, i, m, d) && DerivesBlock(data, ts, m, j, rest)
    ensures DerivesBlock(data, ts, i, j, [d] + rest)
  {
    HeadAndTail(d, rest);
    assert ([d] + rest)[0] == d;
  }

  lemma NestingCons<T>(d: Directive<T>, ds: seq<Directive<T>>)
    ensures var first := if d.hasBlock then 1 + Nesting(d.children) else 0;
      Nesting([d] + ds) == if first > Nesting(ds) then first else Nesting(ds)
  {
    assert ([d] + ds)[1..] == ds;
  }

  lemma {:induction false} DirectiveSound(data: string, ts: seq<Token>, i: nat, depth: nat)
    requires EndTerminated(ts) && Lexer.EndsOnce(ts) && i < |ts| && ts[i].kind == Word && depth < MAX_DEPTH
    ensures var r := ParseDirective(data, ts, i, depth);
      r.errors == [] ==>
        && DerivesDirective(data, ts, i, r.next, r.directive)
        && (r.directive.hasBlock ==> 1 + Nesting(r.directive.children) + depth < MAX_DEPTH)
    decreases |ts| - i, 0
  {
    var w := WordsEnd(ts, i);
    if ts[w].kind == Open {
      InnerSound(data, ts, w, depth);
      BodySound(data, ts, i, w, depth);
    } else {
      PlainSound(data, ts, i, w, depth);
    }
  }

  /** What is known of the inside of a block that may still be nested. */
  lemma {:induction false} InnerSound(data: string, ts: seq<Token>, w: nat, depth: nat)
    requires EndTerminated(ts) && Lexer.EndsOnce(ts) && w < |ts| && ts[w].kind == Open
    ensures depth + 1 < MAX_DEPTH ==>
      var inner := ParseBlock(data, ts, w + 1, depth + 1);
      inner.errors == [] && inner.closed ==>
        && w + 1 < inner.next && ts[inner.next - 1].kind == Close
        && DerivesBlock(data, ts, w + 1, inner.next - 1, inner.block) && 1 + Nesting(inner.block) + depth < MAX_DEPTH
    decreases |ts| - w - 1, 2
  {
    if depth + 1 < MAX_DEPTH {
      BlockSound(data, ts, w + 1, depth + 1);
    }
  }

  lemma PlainSound(data: string, ts: seq<Token>, i: nat, w: nat, depth: nat)
    requires EndTerminated(ts) && i < w < |ts| && w == WordsEnd(ts, i) && ts[i].kind == Word && ts[w].kind != Open
    ensures var r := ParseDirective(data, ts, i, depth);
      r.errors == [] && !r.directive.hasBlock && DerivesDirective(data, ts, i, r.next, r.directive)
  {
    WordsAreNotNewlines(ts, i, w);
  }

  /** What is known of the inside of a block says what is read around it. */
  lemma BodySound(data: string, ts: seq<Token>, i: nat, w: nat, depth: nat)
    requires EndTerminated(ts) && i < w < |ts| && w == WordsEnd(ts, i) && ts[i].kind == Word && ts[w].kind == Open
    requires depth + 1 < MAX_DEPTH ==>
      var inner := ParseBlock(data, ts, w + 1, depth + 1);
      inner.errors == [] && inner.closed ==>
        && w + 1 < inner.next && ts[inner.next - 1].kind == Close
        && DerivesBlock(data, ts, w + 1, inner.next - 1, inner.block) && 1 + Nesting(inner.block) + depth < MAX_DEPTH
    ensures var r := ParseDirective(data, ts, i, depth);
      r.errors == [] ==>
        && DerivesDirective(data, ts, i, r.next, r.directive)
        && 1 + Nesting(r.directive.children) + depth < MAX_DEPTH
  {
    var body := ParseBody(data, ts, w, depth);
    if body.errors == [] {
      var inner := ParseBlock(data, ts, w + 1, depth + 1);
      assert depth + 1 < MAX_DEPTH && inner.errors == [] && inner.closed;
      assert DirectiveEnd(ts, body.next) == ts[body.next - 1].span.End();
    }
  }

  /** A derivation is found, without an error, and no other one is. */
  lemma {:induction false} BlockComplete(data: string, ts: seq<Token>, i: nat, j: nat, ds: seq<Tree>, depth: nat)
    requires EndTerminated(ts) && i <= j < |ts| && ts[j].kind == Terminator(depth)
    requires DerivesBlock(data, ts, i, j, ds) && Nesting(ds) + depth < MAX_DEPTH
    ensures ParseBlock(data, ts, i, depth) == Parsed(ds, if depth > 0 then j + 1 else j, depth > 0, [])
    decreases ds, j - i
  {
    if i < j && ts[i].kind == Newline {
      BlockComplete(data, ts, i + 1, j, ds, depth);
    } else if ds != [] {
      var d, rest := ds[0], ds[1..];
      var m :| i < m <= j && DerivesDirective(data, ts, i, m, d) && DerivesBlock(data, ts, m, j, rest);
      assert ds == [d] + rest;
      NestingCons(d, rest);

      DirectiveComplete(data, ts, i, m, d, depth);
      BlockComplete(data, ts, m, j, rest, depth);
    }
  }

  lemma {:induction false} DirectiveComplete(data: string, ts: seq<Token>, i: nat, m: nat, d: Tree, depth: nat)
    requires EndTerminated(ts) && i < m < |ts| && DerivesDirective(data, ts, i, m, d)
    requires d.hasBlock ==> 1 + Nesting(d.children) + depth < MAX_DEPTH
    ensures ts[i].kind == Word && ParseDirective(data, ts, i, depth) == ParsedOne(d, m, [])
    decreases d, m - i
  {
    var w := WordsEnd(ts, i);
    if ts[w].kind == Open {
      BodyComplete(data, ts, i, w, m, d.children, depth);
    } else {
      PlainComplete(data, ts, i, w, m, d, depth);
    }
  }

  lemma InnerComplete(data: string, ts: seq<Token>, w: nat, m: nat, children: seq<Tree>, depth: nat)
    requires EndTerminated(ts) && w < m < |ts| && ts[w].kind == Open && depth + 1 < MAX_DEPTH
    requires ParseBlock(data, ts, w + 1, depth + 1) == Parsed(children, m, true, [])
    ensures ParseBody(data, ts, w, depth) == Parsed(children, m, true, [])
  {
  }

  lemma {:induction false} BodyComplete(data: string, ts: seq<Token>, i: nat, w: nat, m: nat, children: seq<Tree>,
      depth: nat)
    requires EndTerminated(ts) && i < w && w + 1 < m < |ts| && w == WordsEnd(ts, i) && ts[i].kind == Word
    requires ts[w].kind == Open && ts[m - 1].kind == Close
    requires DerivesBlock(data, ts, w + 1, m - 1, children) && 1 + Nesting(children) + depth < MAX_DEPTH
    ensures ParseDirective(data, ts, i, depth)
      == ParsedOne(Build(data, ts, i, w, true, children, ts[m - 1].span.End()), m, [])
    decreases children, m - i
  {
    BlockComplete(data, ts, w + 1, m - 1, children, depth + 1);
    InnerComplete(data, ts, w, m, children, depth);
    AroundBody(data, ts, i, w, m, children, depth);
  }

  lemma AroundBody(data: string, ts: seq<Token>, i: nat, w: nat, m: nat, children: seq<Tree>, depth: nat)
    requires EndTerminated(ts) && i < w < m < |ts| && w == WordsEnd(ts, i) && ts[i].kind == Word && ts[w].kind == Open
    requires ts[m - 1].kind == Close && ParseBody(data, ts, w, depth) == Parsed(children, m, true, [])
    ensures ParseDirective(data, ts, i, depth)
      == ParsedOne(Build(data, ts, i, w, true, children, ts[m - 1].span.End()), m, [])
  {
    assert DirectiveEnd(ts, m) == ts[m - 1].span.End();
  }

  lemma PlainComplete(data: string, ts: seq<Token>, i: nat, w: nat, m: nat, d: Tree, depth: nat)
    requires EndTerminated(ts) && i < w < |ts| && w == WordsEnd(ts, i) && ts[i].kind == Word && ts[w].kind != Open
    requires i < m < |ts| && DerivesDirective(data, ts, i, m, d)
    ensures ParseDirective(data, ts, i, depth) == ParsedOne(d, m, [])
  {
    WordsAreNotNewlines(ts, i, w);
  }

  /** On a token list that ends once, parsing reports no error exactly when the
      list derives from the grammar with fewer than 64 levels; its block is then
      that derivation. */
  lemma ParseExact(data: string, ts: seq<Token>, ds: seq<Tree>)
    requires EndTerminated(ts) && Lexer.EndsOnce(ts)
    ensures var r := ParseBlock(data, ts, 0, 0);
      (r.errors == [] && r.block == ds) <==> Reads(data, ts, ds)
  {
    BlockSound(data, ts, 0, 0);
    if Reads(data, ts, ds) {
      BlockComplete(data, ts, 0, |ts| - 1, ds, 0);
    }
  }

  // ----- A whole file -----------------------------------------------------------

  /** The text is a configuration: it splits into lexemes that derive `ds`. */
  ghost predicate IsConfiguration(data: string, ds: seq<Tree>) {
    exists ts :: Lexer.Tokenizes(data, 0, ts) && Reads(data, ts, ds)
  }

  /** All the errors of a run, the lexer's before the parser's. */
  function AllErrors(data: string): seq<Error> {
    var lexed := Lexer.LexFrom(data, 0);
    Lexer.LexShape(data, 0);
    lexed.errors + ParseBlock(data, lexed.tokens, 0, 0).errors
  }

  lemma FileExact(data: string, ds: seq<Tree>)
    ensures Lexer.EndsOnce(Lexer.LexFrom(data, 0).tokens)
    ensures AllErrors(data) == [] && ParseBlock(data, Lexer.LexFrom(data, 0).tokens, 0, 0).block == ds
      <==> IsConfiguration(data, ds)
  {
    var lexed := Lexer.LexFrom(data, 0);
    Lexer.LexShape(data, 0);
    ParseExact(data, lexed.tokens, ds);
    Lexer.LexExact(data, lexed.tokens);
    forall ts | Lexer.Tokenizes(data, 0, ts) ensures lexed == Lexer.Lexed(ts, []) {
      Lexer.LexExact(data, ts);
    }
  }

  /** leme_scfg_parse: true exactly when the text is a configuration, and the
      block is then its tree. The error list is cut off after 20 entries, which
      never hides that there was an error. */
  method Parse(source: Source.SourceText) returns (ok: bool, block: seq<Tree>, report: Report)
    requires source.Valid()
    ensures ok <==> exists ds :: IsConfiguration(source.data, ds)
    ensures ok ==> IsConfiguration(source.data, block)
    ensures fresh(report) && report.Valid() && report.reported == AllErrors(source.data)
    ensures ok <==> report.errors == []
  {
    report := new Report();
    var scanner := new Lexer.Scanner(source.data, report);
    var _ := scanner.Lex();
    Lexer.LexShape(source.data, 0);
    var parser := new TokenParser(source, scanner.tokens, report);
    var closed;
    block, closed := parser.ReadBlock(0);
    ok := |report.errors| == 0;
    FileExact(source.data, block);
    forall ds | IsConfiguration(source.data, ds) ensures ds == block {
      FileExact(source.data, ds);
    }
  }

  // ----- Spans of directives ------------------------------------------------------

  /** The spans of siblings lie in [lo, hi], in order and without overlap; in each
      of them name, parameters and children follow one another in the same way. */
  ghost predicate SpansNest(ds: seq<Tree>, lo: nat, hi: nat) {
    if ds == [] then lo <= hi
    else
      && lo <= ds[0].span.offset == ds[0].nameSpan.offset
      && InOrder([ds[0].nameSpan] + ds[0].paramSpans, ds[0].span.offset, ds[0].span.End())
      && SpansNest(ds[0].children, Last([ds[0].nameSpan] + ds[0].paramSpans).End(), ds[0].span.End())
      && SpansNest(ds[1..], ds[0].span.End(), hi)
  }

  function Last(spans: seq<Span>): Span
    requires |spans| > 0
  {
    spans[|spans| - 1]
  }

  predicate InOrder(spans: seq<Span>, lo: nat, hi: nat) {
    if spans == [] then lo <= hi else lo <= spans[0].offset && InOrder(spans[1..], spans[0].End(), hi)
  }

  lemma {:induction false} OrderedAt(ts: seq<Token>, lo: nat, hi: nat, i: nat)
    requires Lexer.SpansOrdered(ts, lo, hi) && i < |ts|
    ensures lo <= ts[i].span.offset && ts[i].span.End() <= hi
    ensures Lexer.SpansOrdered(ts[i..], ts[i].span.offset, hi)
    decreases i
  {
    if i == 0 {
      assert ts[0..] == ts;
      SpansBounded(ts[1..], ts[0].span.End(), hi);
    } else {
      assert ts[i..] == ts[1..][i - 1..];
      OrderedAt(ts[1..], ts[0].span.End(), hi, i - 1);
    }
  }

  lemma {:induction false} SpansBounded(ts: seq<Token>, lo: nat, hi: nat)
    requires Lexer.SpansOrdered(ts, lo, hi)
    ensures lo <= hi
  {
    if ts != [] {
      SpansBounded(ts[1..], ts[0].span.End(), hi);
    }
  }

  lemma OrderedPair(ts: seq<Token>, hi: nat, i: nat, j: nat)
    requires Lexer.SpansOrdered(ts, 0, hi) && i < j < |ts|
    ensures ts[i].span.End() <= ts[j].span.offset
  {
    OrderedAt(ts, 0, hi, i);
    OrderedAt(ts[i..][1..], ts[i].span.End(), hi, j - i - 1);
    assert ts[j] == ts[i..][1..][j - i - 1];
  }

  lemma {:induction false} WordSpansInOrder(ts: seq<Token>, hi: nat, i: nat, w: nat, spans: seq<Span>)
    requires Lexer.SpansOrdered(ts, 0, hi) && i < w <= |ts| && |spans| == w - i
    requires forall k :: 0 <= k < w - i ==> spans[k] == ts[i + k].span
    ensures InOrder(spans, ts[i].span.offset, ts[w - 1].span.End())
    decreases w - i
  {
    if i + 1 < w {
      OrderedPair(ts, hi, i, i + 1);
      WordSpansInOrder(ts, hi, i + 1, w, spans[1..]);
      assert InOrder(spans[1..], ts[i + 1].span.offset, ts[w - 1].span.End());
      InOrderWeaken(spans[1..], ts[i + 1].span.offset, spans[0].End(), ts[w - 1].span.End(), ts[w - 1].span.End());
    } else {
      assert spans[1..] == [];
    }
  }

  lemma {:induction false} InOrderWeaken(spans: seq<Span>, lo: nat, lo': nat, hi: nat, hi': nat)
    requires InOrder(spans, lo, hi) && lo' <= lo && hi <= hi'
    ensures InOrder(spans, lo', hi')
  {
    if spans != [] {
      InOrderWeaken(spans[1..], spans[0].End(), spans[0].End(), hi, hi');
    }
  }

  /** In a derivation from ordered tokens the spans of directives nest. */
  lemma {:induction false} DerivationSpansNest(data: string, ts: seq<Token>, hi: nat, i: nat, j: nat, ds: seq<Tree>,
      lo: nat)
    requires EndTerminated(ts) && i <= j < |ts| && Lexer.SpansOrdered(ts, 0, hi)
    requires DerivesBlock(data, ts, i, j, ds)
    requires lo <= ts[i].span.offset
    ensures SpansNest(ds, lo, ts[j].span.offset)
    decreases ds, j - i, 1
  {
    if i < j && ts[i].kind == Newline {
      OrderedPair(ts, hi, i, i + 1);
      DerivationSpansNest(data, ts, hi, i + 1, j, ds, lo);
    } else if ds != [] {
      var m :| i < m <= j && DerivesDirective(data, ts, i, m, ds[0]) && DerivesBlock(data, ts, m, j, ds[1..]);
      DirectiveSpansNest(data, ts, hi, i, m, ds[0]);
      DerivationSpansNest(data, ts, hi, m, j, ds[1..], ds[0].span.End());
    }
  }

  lemma {:induction false} DirectiveSpansNest(data: string, ts: seq<Token>, hi: nat, i: nat, m: nat, d: Tree)
    requires EndTerminated(ts) && i < m < |ts| && Lexer.SpansOrdered(ts, 0, hi)
    requires DerivesDirective(data, ts, i, m, d)
    ensures d.span.offset == d.nameSpan.offset == ts[i].span.offset
    ensures d.span.End() <= ts[m].span.offset
    ensures InOrder([d.nameSpan] + d.paramSpans, d.span.offset, d.span.End())
    ensures SpansNest(d.children, Last([d.nameSpan] + d.paramSpans).End(), d.span.End())
    decreases d, m - i, 0
  {
    var w := WordsEnd(ts, i);
    var last := if ts[w].kind == Open then m - 1 else w - 1;
    var spans := [d.nameSpan] + d.paramSpans;
    BuildSpans(ts, hi, i, w, last, d);
    OrderedPair(ts, hi, last, m);
    if ts[w].kind == Open {
      OrderedPair(ts, hi, w - 1, last);
      OrderedPair(ts, hi, w - 1, w + 1);
      DerivationSpansNest(data, ts, hi, w + 1, m - 1, d.children, ts[w - 1].span.End());
      NestWeaken(d.children, ts[w - 1].span.End(), ts[last].span.offset, d.span.End());
    }
  }

  /** The words of a directive lie in order within its span, up to token `last`. */
  lemma BuildSpans(ts: seq<Token>, hi: nat, i: nat, w: nat, last: nat, d: Tree)
    requires i < w <= last + 1 <= |ts| && Lexer.SpansOrdered(ts, 0, hi)
    requires d.nameSpan == ts[i].span && d.paramSpans == WordSpans(ts, i + 1, w)
    requires var start, end := ts[i].span.offset, ts[last].span.End();
      d.span == Span(start, if end > start then end - start else 0)
    ensures d.span.End() == ts[last].span.End()
    ensures Last([d.nameSpan] + d.paramSpans) == ts[w - 1].span
    ensures InOrder([d.nameSpan] + d.paramSpans, d.span.offset, d.span.End())
  {
    var spans := [d.nameSpan] + d.paramSpans;
    WordSpansInOrder(ts, hi, i, w, spans);
    if i < last {
      OrderedPair(ts, hi, i, last);
    }
    if w - 1 < last {
      OrderedPair(ts, hi, w - 1, last);
    }
    InOrderWeaken(spans, d.span.offset, d.span.offset, ts[w - 1].span.End(), d.span.End());
  }

  lemma {:induction false} NestWeaken(ds: seq<Tree>, lo: nat, hi: nat, hi': nat)
    requires SpansNest(ds, lo, hi) && hi <= hi'
    ensures SpansNest(ds, lo, hi')
    decreases |ds|
  {
    if ds != [] {
      NestWeaken(ds[1..], ds[0].span.End(), hi, hi');
    }
  }

  /** The spans of a configuration's tree nest within the text. */
  lemma ConfigurationSpansNest(data: string, ds: seq<Tree>)
    requires IsConfiguration(data, ds)
    ensures SpansNest(ds, 0, |data|)
  {
    var ts: seq<Token> :| Lexer.Tokenizes(data, 0, ts) && Reads(data, ts, ds);
    Lexer.LexExact(data, ts);
    Lexer.LexShape(data, 0);
    DerivationSpansNest(data, ts, |data|, 0, |ts| - 1, ds, 0);
    OrderedAt(ts, 0, |data|, |ts| - 1);
    NestWeaken(ds, 0, ts[|ts| - 1].span.offset, |data|);
  }
}
