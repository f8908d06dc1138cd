/** Writing a tree out with every word double-quoted, and reading it back. */
module RoundTrip {
  import opened CStrings
  import opened Options
  import opened Scfg
  import Lexer
  import Parser

  /** The same names, parameters, blocks and children, whatever the positions. */
  predicate Agree<S, T>(es: seq<Directive<S>>, ds: seq<Directive<T>>)
    decreases ds, 1
  {
    if ds == [] then es == [] else es != [] && AgreeOne(es[0], ds[0]) && Agree(es[1..], ds[1..])
  }

  predicate AgreeOne<S, T>(e: Directive<S>, d: Directive<T>)
    decreases d, 0
  {
    e.name == d.name && e.params == d.params && e.hasBlock == d.hasBlock && Agree(e.children, d.children)
  }

  lemma {:induction false} AgreeNesting<S, T>(es: seq<Directive<S>>, ds: seq<Directive<T>>)
    requires Agree(es, ds)
    ensures Parser.Nesting(es) == Parser.Nesting(ds)
    decreases ds
  {
    if ds != [] {
      AgreeNesting(es[0].children, ds[0].children);
      AgreeNesting(es[1..], ds[1..]);
    }
  }

  // ----- The printer -----------------------------------------------------------

  function Escape(x: string): string {
    if x == [] then []
    else (if x[0] == '"' || x[0] == '\\' then ['\\', x[0]] else [x[0]]) + Escape(x[1..])
  }

  function Quote(x: string): string {
    ['"'] + Escape(x) + ['"']
  }

  function RenderParams(params: seq<string>): string {
    if params == [] then [] else [' '] + Quote(params[0]) + RenderParams(params[1..])
  }

  function RenderBody<T>(d: Directive<T>): string
    decreases d, 0
  {
    if d.hasBlock then " {\n" + Render(d.children) + "}" else ""
  }

  function RenderOne<T>(d: Directive<T>): string
    decreases d, 1
  {
    Quote(d.name) + RenderParams(d.params) + RenderBody(d) + "\n"
  }

  function Render<T>(ds: seq<Directive<T>>): string
    decreases ds, 2
  {
    if ds == [] then [] else RenderOne(ds[0]) + Render(ds[1..])
  }

  /** A newline cannot be written inside a word, and a NUL ends a C string. */
  predicate Plain(x: string) {
    '\n' !in x && '\0' !in x
  }

  predicate AllPlain(xs: seq<string>) {
    forall k :: 0 <= k < |xs| ==> Plain(xs[k])
  }

  predicate Printable<T>(ds: seq<Directive<T>>) {
    forall k :: 0 <= k < |ds| ==>
      && AllPlain([ds[k].name] + ds[k].params)
      && (ds[k].hasBlock || ds[k].children == [])
      && Printable(ds[k].children)
  }

  lemma PrintableParts<T>(ds: seq<Directive<T>>)
    requires ds != [] && Printable(ds)
    ensures var d := ds[0];
      Printable([d]) && Printable(ds[1..]) && AllPlain([d.name] + d.params) && Printable(d.children)
  {
  }

  lemma PlainParts(name: string, params: seq<string>)
    requires AllPlain([name] + params)
    ensures Plain(name) && AllPlain(params)
  {
    assert ([name] + params)[0] == name && ([name] + params)[1..] == params;
  }

  // ----- Lexing what was printed -------------------------------------------------

  /** A token without its span. */
  datatype Piece = Piece(kind: TokenKind, value: string)

  function Pieces(ts: seq<Token>): (r: seq<Piece>)
    ensures |r| == |ts|
    ensures forall k :: 0 <= k < |ts| ==> r[k] == Piece(ts[k].kind, ts[k].value)
  {
    seq(|ts|, k requires 0 <= k < |ts| => Piece(ts[k].kind, ts[k].value))
  }

  function Words(xs: seq<string>): (r: seq<Piece>)
    ensures |r| == |xs|
  {
    if xs == [] then [] else [Piece(Word, xs[0])] + Words(xs[1..])
  }

  function Mark(kind: TokenKind): (r: seq<Piece>)
    ensures |r| == 1
  {
    [Piece(kind, "")]
  }

  function BodyPieces<T>(d: Directive<T>): seq<Piece>
    decreases d, 0
  {
    if d.hasBlock then Mark(Open) + Mark(Newline) + TreePieces(d.children) + Mark(Close) else []
  }

  function OnePieces<T>(d: Directive<T>): seq<Piece>
    decreases d, 1
  {
    Words([d.name] + d.params) + BodyPieces(d) + Mark(Newline)
  }

  function TreePieces<T>(ds: seq<Directive<T>>): seq<Piece>
    decreases ds, 2
  {
    if ds == [] then [] else OnePieces(ds[0]) + TreePieces(ds[1..])
  }

  predicate At(s: string, i: nat, t: string) {
    i + |t| <= |s| && forall k :: 0 <= k < |t| ==> s[i + k] == t[k]
  }

  lemma AtSplit(s: string, i: nat, a: string, b: string)
    requires At(s, i, a + b)
    ensures At(s, i, a) && At(s, i + |a|, b)
  {
    forall k | 0 <= k < |a| ensures s[i + k] == a[k] {
      assert s[i + k] == (a + b)[k];
    }
    forall k | 0 <= k < |b| ensures s[i + |a| + k] == b[k] {
      assert s[i + (|a| + k)] == (a + b)[|a| + k];
    }
  }

  /** From `i` the lexer reads exactly `pieces`, without an error, and goes on at `j`. */
  predicate LexesTo(s: string, i: nat, pieces: seq<Piece>, j: nat) {
    i <= j <= |s|
    && Lexer.LexFrom(s, i).errors == Lexer.LexFrom(s, j).errors
    && Pieces(Lexer.LexFrom(s, i).tokens) == pieces + Pieces(Lexer.LexFrom(s, j).tokens)
  }

  lemma LexesJoin(s: string, i: nat, p: seq<Piece>, j: nat, q: seq<Piece>, k: nat)
    requires LexesTo(s, i, p, j) && LexesTo(s, j, q, k)
    ensures LexesTo(s, i, p + q, k)
  {
    var rest := Pieces(Lexer.LexFrom(s, k).tokens);
    assert p + (q + rest) == p + q + rest;
  }

  lemma LexNothing(s: string, i: nat)
    requires i <= |s|
    ensures LexesTo(s, i, [], i)
  {
  }

  lemma LexMark(s: string, i: nat)
    requires i < |s| && Lexer.IsPunctuation(s[i])
    ensures LexesTo(s, i, Mark(Lexer.PunctuationKind(s[i])), i + 1)
  {
  }

  lemma LexBlank(s: string, i: nat)
    requires i < |s| && Lexer.IsBlank(s[i])
    ensures LexesTo(s, i, [], i + 1)
  {
  }

  lemma {:induction false} ScanEscaped(s: string, start: nat, i: nat, x: string, text: string)
    requires start < i && At(s, i, Escape(x) + ['"']) && '\n' !in x
    ensures Lexer.QuotedFrom(s, start, '"', i, text) == Lexer.Scan(text + x, i + |Escape(x)| + 1, None)
    decreases |x|
  {
    if x == [] {
      assert s[i + 0] == (Escape(x) + ['"'])[0];
    } else {
      var c := x[0];
      var unit := if c == '"' || c == '\\' then ['\\', c] else [c];
      assert Escape(x) + ['"'] == unit + (Escape(x[1..]) + ['"']);
      AtSplit(s, i, unit, Escape(x[1..]) + ['"']);
      assert s[i + 0] == unit[0] && s[i + (|unit| - 1)] == unit[|unit| - 1];
      ScanEscaped(s, start, i + |unit|, x[1..], text + [c]);
      assert text + [c] + x[1..] == text + x;
    }
  }

  lemma LexQuote(s: string, i: nat, x: string)
    requires At(s, i, Quote(x)) && '\n' !in x
    ensures LexesTo(s, i, [Piece(Word, x)], i + |Quote(x)|)
  {
    assert Quote(x) == ['"'] + (Escape(x) + ['"']) && |Quote(x)| == |Escape(x)| + 2;
    AtSplit(s, i, ['"'], Escape(x) + ['"']);
    assert s[i + 0] == ['"'][0];
    ScanEscaped(s, i, i + 1, x, "");
    assert "" + x == x;
    assert Lexer.WordFrom(s, i) == Lexer.Scan(x, i + |Quote(x)|, None);
    var rest := Lexer.LexFrom(s, i + |Quote(x)|);
    assert Lexer.LexFrom(s, i).tokens == [Token(Word, x, Span(i, |Quote(x)|))] + rest.tokens;
  }

  lemma {:induction false} LexParams(s: string, i: nat, params: seq<string>)
    requires At(s, i, RenderParams(params)) && AllPlain(params)
    ensures LexesTo(s, i, Words(params), i + |RenderParams(params)|)
    decreases |params|
  {
    if params == [] {
      LexNothing(s, i);
    } else {
      var x, rest := params[0], params[1..];
      var j, k := i + 1 + |Quote(x)|, i + |RenderParams(params)|;
      AtSplit(s, i, [' '] + Quote(x), RenderParams(rest));
      assert k == j + |RenderParams(rest)|;
      LexParam(s, i, x);
      LexParams(s, j, rest);
      LexesJoin(s, i, [Piece(Word, x)], j, Words(rest), k);
      assert Words(params) == [Piece(Word, x)] + Words(rest);
    }
  }

  lemma LexParam(s: string, i: nat, x: string)
    requires At(s, i, [' '] + Quote(x)) && '\n' !in x
    ensures LexesTo(s, i, [Piece(Word, x)], i + 1 + |Quote(x)|)
  {
    AtSplit(s, i, [' '], Quote(x));
    assert s[i + 0] == [' '][0];
    LexBlank(s, i);
    LexQuote(s, i + 1, x);
    LexesJoin(s, i, [], i + 1, [Piece(Word, x)], i + 1 + |Quote(x)|);
    assert [] + [Piece(Word, x)] == [Piece(Word, x)];
  }

  lemma LexOpening(s: string, i: nat)
    requires At(s, i, " {\n")
    ensures LexesTo(s, i, Mark(Open) + Mark(Newline), i + 3)
  {
    assert s[i + 0] == " {\n"[0] && s[i + 1] == " {\n"[1] && s[i + 2] == " {\n"[2];
    LexBlank(s, i);
    LexMark(s, i + 1);
    LexMark(s, i + 2);
    LexesJoin(s, i + 1, Mark(Open), i + 2, Mark(Newline), i + 3);
    LexesJoin(s, i, [], i + 1, Mark(Open) + Mark(Newline), i + 3);
    assert [] + (Mark(Open) + Mark(Newline)) == Mark(Open) + Mark(Newline);
  }

  lemma {:induction false} LexBody<T>(s: string, i: nat, d: Directive<T>) returns (end: nat)
    requires At(s, i, RenderBody(d)) && Printable(d.children)
    ensures end == i + |RenderBody(d)| && LexesTo(s, i, BodyPieces(d), end)
    decreases d, 0
  {
    end := i + |RenderBody(d)|;
    if d.hasBlock {
      var inner := Render(d.children);
      AtSplit(s, i, " {\n" + inner, "}");
      AtSplit(s, i, " {\n", inner);
      LexRender(s, i + 3, d.children);
      LexAround(s, i, TreePieces(d.children), i + 3 + |inner|);
    } else {
      LexNothing(s, i);
    }
  }

  /** The braces around what was lexed. */
  lemma LexAround(s: string, i: nat, inner: seq<Piece>, k: nat)
    requires At(s, i, " {\n") && At(s, k, "}") && LexesTo(s, i + 3, inner, k)
    ensures LexesTo(s, i, Mark(Open) + Mark(Newline) + inner + Mark(Close), k + 1)
  {
    LexOpening(s, i);
    assert s[k + 0] == "}"[0];
    LexMark(s, k);
    LexesJoin(s, i, Mark(Open) + Mark(Newline), i + 3, inner, k);
    LexesJoin(s, i, Mark(Open) + Mark(Newline) + inner, k, Mark(Close), k + 1);
  }

  lemma {:induction false} LexRender<T>(s: string, i: nat, ds: seq<Directive<T>>)
    requires At(s, i, Render(ds)) && Printable(ds)
    ensures LexesTo(s, i, TreePieces(ds), i + |Render(ds)|)
    decreases ds, 3
  {
    if ds == [] {
      LexNothing(s, i);
    } else {
      var d, rest := ds[0], ds[1..];
      PrintableParts(ds);
      AtSplit(s, i, RenderOne(d), Render(rest));
      LexOne(s, i, d);
      LexRender(s, i + |RenderOne(d)|, rest);
      LexesJoin(s, i, OnePieces(d), i + |RenderOne(d)|, TreePieces(rest), i + |Render(ds)|);
    }
  }

  lemma {:induction false} LexOne<T>(s: string, i: nat, d: Directive<T>)
    requires At(s, i, RenderOne(d)) && Printable([d])
    ensures LexesTo(s, i, OnePieces(d), i + |RenderOne(d)|)
    decreases d, 2
  {
    var head := Quote(d.name) + RenderParams(d.params) + RenderBody(d);
    var pieces := Words([d.name] + d.params) + BodyPieces(d);
    AtSplit(s, i, head, "\n");
    PrintableParts([d]);
    var c := LexHead(s, i, d);
    assert s[c + 0] == "\n"[0];
    LexMark(s, c);
    LexesJoin(s, i, pieces, c, Mark(Newline), c + 1);
  }

  lemma WordsCons(x: string, xs: seq<string>)
    ensures Words([x] + xs) == [Piece(Word, x)] + Words(xs)
  {
    assert ([x] + xs)[0] == x && ([x] + xs)[1..] == xs;
  }

  lemma {:induction false} LexHead<T>(s: string, i: nat, d: Directive<T>) returns (end: nat)
    requires At(s, i, Quote(d.name) + RenderParams(d.params) + RenderBody(d))
    requires AllPlain([d.name] + d.params) && Printable(d.children)
    ensures end == i + |Quote(d.name) + RenderParams(d.params) + RenderBody(d)|
    ensures LexesTo(s, i, Words([d.name] + d.params) + BodyPieces(d), end)
    decreases d, 1
  {
    AtSplit(s, i, Quote(d.name) + RenderParams(d.params), RenderBody(d));
    var j := LexWords(s, i, d.name, d.params);
    end := LexBody(s, j, d);
    LexesJoin(s, i, Words([d.name] + d.params), j, BodyPieces(d), end);
  }

  lemma LexWords(s: string, i: nat, name: string, params: seq<string>) returns (k: nat)
    requires At(s, i, Quote(name) + RenderParams(params)) && AllPlain([name] + params)
    ensures k == i + |Quote(name) + RenderParams(params)| && LexesTo(s, i, Words([name] + params), k)
  {
    var j := i + |Quote(name)|;
    k := j + |RenderParams(params)|;
    PlainParts(name, params);
    WordsCons(name, params);
    AtSplit(s, i, Quote(name), RenderParams(params));
    LexQuote(s, i, name);
    LexParams(s, j, params);
    LexesJoin(s, i, [Piece(Word, name)], j, Words(params), k);
  }

  // ----- Parsing what was lexed ---------------------------------------------------

  predicate PiecesAt(ts: seq<Token>, i: nat, pieces: seq<Piece>) {
    i + |pieces| <= |ts| && forall k :: 0 <= k < |pieces| ==> Piece(ts[i + k].kind, ts[i + k].value) == pieces[k]
  }

  lemma PiecesAtSplit(ts: seq<Token>, i: nat, p: seq<Piece>, q: seq<Piece>)
    requires PiecesAt(ts, i, p + q)
    ensures PiecesAt(ts, i, p) && PiecesAt(ts, i + |p|, q)
  {
    forall k | 0 <= k < |p| ensures Piece(ts[i + k].kind, ts[i + k].value) == p[k] {
      assert (p + q)[k] == p[k];
    }
    forall k | 0 <= k < |q|
      ensures Piece(ts[i + |p| + k].kind, ts[i + |p| + k].value) == q[k]
    {
      assert (p + q)[|p| + k] == q[k];
    }
  }

  /** Tokens that spell words and end with another token are read as those words. */
  lemma {:induction false} WordsDerive(ts: seq<Token>, i: nat, w: nat, xs: seq<string>)
    requires Parser.EndTerminated(ts) && w == i + |xs| < |ts| && ts[w].kind != Word
    requires PiecesAt(ts, i, Words(xs)) && AllPlain(xs)
    ensures Parser.WordsEnd(ts, i) == w && Parser.WordValues(ts, i, w) == xs
    decreases |xs|
  {
    if xs != [] {
      assert Words(xs)[0] == Piece(ts[i + 0].kind, ts[i + 0].value);
      assert Plain(xs[0]);
      CStringExact(xs[0]);
      PiecesAtSplit(ts, i, [Piece(Word, xs[0])], Words(xs[1..]));
      WordsDerive(ts, i + 1, w, xs[1..]);
      WordValuesCons(ts, i, w);
    }
  }

  lemma WordValuesCons(ts: seq<Token>, i: nat, w: nat)
    requires i < w <= |ts|
    ensures Parser.WordValues(ts, i, w) == [CString(ts[i].value)] + Parser.WordValues(ts, i + 1, w)
  {
  }

  lemma MarkAt(ts: seq<Token>, i: nat, kind: TokenKind)
    requires PiecesAt(ts, i, Mark(kind))
    ensures i < |ts| && ts[i].kind == kind
  {
    assert ts[i + 0].kind == Mark(kind)[0].kind;
  }

  /** Tokens that spell a directive derive it, whatever their spans are; the
      newline that follows a block is left over. */
  lemma {:induction false} DirectivePiecesDerive<T>(data: string, ts: seq<Token>, i: nat, d: Directive<T>)
      returns (m: nat, e: Parser.Tree)
    requires Parser.EndTerminated(ts) && Printable([d])
    requires PiecesAt(ts, i, OnePieces(d))
    requires i + 2 + |d.params| + |BodyPieces(d)| < |ts|
    ensures var end := i + 1 + |d.params| + |BodyPieces(d)|;
      m == (if d.hasBlock then end else end + 1) && ts[end].kind == Newline
    ensures i < m && Parser.DerivesDirective(data, ts, i, m, e)
    ensures ts[i].kind == Word
    ensures AgreeOne(e, d)
    decreases d, 0
  {
    var xs := [d.name] + d.params;
    var w := i + |xs|;
    assert [d][0] == d;
    PiecesAtSplit(ts, i, Words(xs) + BodyPieces(d), Mark(Newline));
    PiecesAtSplit(ts, i, Words(xs), BodyPieces(d));
    MarkAt(ts, w + |BodyPieces(d)|, Newline);
    var children: seq<Parser.Tree> := [];
    if d.hasBlock {
      children := BodyPiecesDerive(data, ts, w, d);
      m := w + |BodyPieces(d)|;
    } else {
      m := w + 1;
    }
    WordsDerive(ts, i, w, xs);
    WordValuesCons(ts, i, w);
    e := Parser.Build(data, ts, i, w, d.hasBlock, children, ts[if d.hasBlock then m - 1 else w - 1].span.End());
    assert [e.name] + e.params == xs;
    assert e.name == xs[0] && e.params == xs[1..];
  }

  lemma {:induction false} BodyPiecesDerive<T>(data: string, ts: seq<Token>, w: nat, d: Directive<T>)
      returns (children: seq<Parser.Tree>)
    requires Parser.EndTerminated(ts) && Printable(d.children) && d.hasBlock
    requires PiecesAt(ts, w, BodyPieces(d)) && w + |BodyPieces(d)| < |ts|
    ensures var m := w + |BodyPieces(d)|;
      w + 1 < m && ts[w].kind == Open && ts[m - 1].kind == Close
      && Parser.DerivesBlock(data, ts, w + 1, m - 1, children)
    ensures Agree(children, d.children)
    decreases d.children, 2
  {
    var inner := TreePieces(d.children);
    PiecesAtSplit(ts, w, Mark(Open) + Mark(Newline) + inner, Mark(Close));
    PiecesAtSplit(ts, w, Mark(Open) + Mark(Newline), inner);
    PiecesAtSplit(ts, w, Mark(Open), Mark(Newline));
    MarkAt(ts, w, Open);
    MarkAt(ts, w + 1, Newline);
    MarkAt(ts, w + 2 + |inner|, Close);
    children := BlockPiecesDerive(data, ts, w + 2, d.children);
  }

  lemma {:induction false} BlockPiecesDerive<T>(data: string, ts: seq<Token>, i: nat, ds: seq<Directive<T>>)
      returns (es: seq<Parser.Tree>)
    requires Parser.EndTerminated(ts) && Printable(ds)
    requires PiecesAt(ts, i, TreePieces(ds)) && i + |TreePieces(ds)| < |ts|
    ensures Parser.DerivesBlock(data, ts, i, i + |TreePieces(ds)|, es)
    ensures Agree(es, ds)
    decreases ds, 1
  {
    if ds == [] {
      return [];
    }
    var d, n := ds[0], i + |OnePieces(ds[0])|;
    PrintableParts(ds);
    PiecesAtSplit(ts, i, OnePieces(d), TreePieces(ds[1..]));
    OnePiecesLength(d);
    var m, e := DirectivePiecesDerive(data, ts, i, d);
    var rest := BlockPiecesDerive(data, ts, n, ds[1..]);
    es := [e] + rest;
    DerivesCons(data, ts, i, m, n, n + |TreePieces(ds[1..])|, e, rest);
    AgreeCons(e, rest, d, ds[1..]);
    assert ds == [d] + ds[1..];
  }

  lemma OnePiecesLength<T>(d: Directive<T>)
    ensures |OnePieces(d)| == 2 + |d.params| + |BodyPieces(d)|
  {
  }

  /** A directive, a newline that may be left over from it, and a block make a block. */
  lemma DerivesCons(data: string, ts: seq<Token>, i: nat, m: nat, n: nat, j: nat, e: Parser.Tree, es: seq<Parser.Tree>)
    requires Parser.EndTerminated(ts) && i < m <= n <= j < |ts| && ts[i].kind == Word
    requires m == n || (m + 1 == n && ts[m].kind == Newline)
    requires Parser.DerivesDirective(data, ts, i, m, e) && Parser.DerivesBlock(data, ts, n, j, es)
    ensures Parser.DerivesBlock(data, ts, i, j, [e] + es)
  {
    assert Parser.DerivesBlock(data, ts, m, j, es);
    assert ([e] + es)[1..] == es && ([e] + es)[0] == e;
  }

  lemma AgreeCons<S, T>(e: Directive<S>, es: seq<Directive<S>>, d: Directive<T>, ds: seq<Directive<T>>)
    requires AgreeOne(e, d) && Agree(es, ds)
    ensures Agree([e] + es, [d] + ds)
  {
    assert ([e] + es)[1..] == es && ([d] + ds)[1..] == ds;
  }

  // ----- The round trip -------------------------------------------------------------

  lemma RenderedTokens<T>(ds: seq<Directive<T>>) returns (ts: seq<Token>)
    requires Printable(ds)
    ensures Lexer.Tokenizes(Render(ds), 0, ts) && Lexer.LexFrom(Render(ds), 0) == Lexer.Lexed(ts, [])
    ensures Parser.EndTerminated(ts) && |ts| == |TreePieces(ds)| + 1 && PiecesAt(ts, 0, TreePieces(ds))
  {
    var s := Render(ds);
    assert s[0..|s|] == s;
    LexRender(s, 0, ds);
    ts := Lexer.LexFrom(s, 0).tokens;
    assert Lexer.LexFrom(s, |s|) == Lexer.Lexed([Token(EndOfInput, "", Span(|s|, 0))], []);
    Lexer.LexShape(s, 0);
    Lexer.LexExact(s, ts);
    forall k | 0 <= k < |TreePieces(ds)|
      ensures Piece(ts[0 + k].kind, ts[0 + k].value) == TreePieces(ds)[k]
    {
      assert Pieces(ts)[k] == TreePieces(ds)[k];
    }
  }

  lemma ReadsIntro(data: string, ts: seq<Token>, j: nat, es: seq<Parser.Tree>)
    requires Parser.EndTerminated(ts) && j == |ts| - 1 && Parser.DerivesBlock(data, ts, 0, j, es)
    requires Parser.Nesting(es) < MAX_DEPTH
    ensures Parser.Reads(data, ts, es)
  {
  }

  /** Every printable tree within the depth limit is read back from its text, with
      the same names, parameters, blocks and children, and without an error. */
  lemma RoundTrip<T>(ds: seq<Directive<T>>) returns (es: seq<Parser.Tree>)
    requires Printable(ds) && Parser.Nesting(ds) < MAX_DEPTH
    ensures Parser.IsConfiguration(Render(ds), es) && Agree(es, ds)
    ensures Parser.AllErrors(Render(ds)) == []
    ensures forall other :: Parser.IsConfiguration(Render(ds), other) ==> other == es
  {
    var s := Render(ds);
    var ts := RenderedTokens(ds);
    es := BlockPiecesDerive(s, ts, 0, ds);
    AgreeNesting(es, ds);
    ReadsIntro(s, ts, |ts| - 1, es);
    Parser.FileExact(s, es);
    forall other | Parser.IsConfiguration(s, other) ensures other == es {
      Parser.FileExact(s, other);
    }
  }
}
