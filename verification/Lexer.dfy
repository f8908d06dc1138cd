/** The lexer (scfg_lex.c): the class that scans, the function it computes,
    and the lexical grammar that an error-free run obeys exactly. */
module Lexer {
  import opened Options
  import opened Scfg
  import opened Seqs
  import Source

  predicate IsBlank(c: char) { c == ' ' || c == '\t' }

  predicate IsQuote(c: char) { c == '"' || c == '\'' }

  /** A '#' starts a comment only before a blank, a newline or the end. */
  predicate CommentAt(s: string, i: nat)
    requires i < |s|
  {
    s[i] == '#' && (i + 1 == |s| || IsBlank(s[i + 1]) || s[i + 1] == '\n')
  }

  /** What ends an unquoted word without an error. */
  predicate AtomBreak(s: string, i: nat)
    requires i < |s|
  {
    IsBlank(s[i]) || s[i] == '\n' || s[i] == ';' || CommentAt(s, i)
  }

  /** What cannot appear unescaped inside an unquoted word. */
  predicate Misplaced(c: char) { IsQuote(c) || c == '{' || c == '}' }

  predicate IsPunctuation(c: char) { c == '\n' || c == ';' || c == '{' || c == '}' }

  function PunctuationKind(c: char): TokenKind {
    if c == '\n' || c == ';' then Newline else if c == '{' then Open else Close
  }

  // ----- What the scanner computes -------------------------------------------

  /** The outcome of scanning one word: its decoded text, or an error, and the
      index reached. */
  datatype Scan = Scan(text: string, next: nat, error: Option<Error>)

  function AtomFrom(s: string, i: nat, text: string): (r: Scan)
    requires i <= |s|
    ensures i <= r.next <= |s|
    decreases |s| - i
  {
    if i == |s| || AtomBreak(s, i) then Scan(text, i, None)
    else if Misplaced(s[i]) then Scan(text, i, Some(Error(Span(i, 1), UnexpectedInWord(s[i]))))
    else if s[i] == '\\' then
      if i + 1 == |s| || s[i + 1] == '\n' then
        Scan(text, i + 1, Some(Error(Span(i, 1), BackslashAtLineEnd)))
      else AtomFrom(s, i + 2, text + [s[i + 1]])
    else AtomFrom(s, i + 1, text + [s[i]])
  }

  /** The inside of a quoted word; `start` is the index of its opening quote. */
  function QuotedFrom(s: string, start: nat, quote: char, i: nat, text: string): (r: Scan)
    requires start < i <= |s|
    ensures i <= r.next <= |s|
    decreases |s| - i
  {
    var unterminated := Some(Error(Span(start, 1),
      if quote == '"' then UnterminatedDouble else UnterminatedSingle));
    if i == |s| || s[i] == '\n' then Scan(text, i, unterminated)
    else if s[i] == quote then Scan(text, i + 1, None)
    else if s[i] == '\\' && quote == '"' then
      if i + 1 == |s| || s[i + 1] == '\n' then Scan(text, i + 1, unterminated)
      else QuotedFrom(s, start, quote, i + 2, text + [s[i + 1]])
    else QuotedFrom(s, start, quote, i + 1, text + [s[i]])
  }

  function WordFrom(s: string, i: nat): (r: Scan)
    requires i < |s| && !AtomBreak(s, i) && s[i] != '{' && s[i] != '}'
    ensures i < r.next <= |s|
  {
    if IsQuote(s[i]) then QuotedFrom(s, i, s[i], i + 1, []) else AtomFrom(s, i, [])
  }

  datatype Lexed = Lexed(tokens: seq<Token>, errors: seq<Error>)

  /** The tokens and the errors that the text from `i` on gives. After an error
      the rest of the line is dropped. */
  function LexFrom(s: string, i: nat): (r: Lexed)
    requires i <= |s|
    ensures |r.tokens| > 0
    decreases |s| - i
  {
    if i == |s| then Lexed([Token(EndOfInput, "", Span(i, 0))], [])
    else if IsBlank(s[i]) then LexFrom(s, i + 1)
    else if CommentAt(s, i) then LexFrom(s, Source.LineEnd(s, i))
    else if IsPunctuation(s[i]) then
      var rest := LexFrom(s, i + 1);
      rest.(tokens := [Token(PunctuationKind(s[i]), "", Span(i, 1))] + rest.tokens)
    else
      var word := WordFrom(s, i);
      match word.error
      case None =>
        var rest := LexFrom(s, word.next);
        rest.(tokens := [Token(Word, word.text, Span(i, word.next - i))] + rest.tokens)
      case Some(error) =>
        var rest := LexFrom(s, Source.LineEnd(s, word.next));
        rest.(errors := [error] + rest.errors)
  }

  /** `rest` is still to come after `tokens` and `errors` to make `all`. */
  predicate Pending(tokens: seq<Token>, errors: seq<Error>, rest: Lexed, all: Lexed) {
    tokens + rest.tokens == all.tokens && errors + rest.errors == all.errors
  }

  lemma PendingStep(tokens: seq<Token>, errors: seq<Error>, tokens': seq<Token>, errors': seq<Error>,
      rest: Lexed, rest': Lexed, all: Lexed)
    requires Pending(tokens, errors, rest, all)
    requires tokens <= tokens' && rest.tokens == tokens'[|tokens|..] + rest'.tokens
    requires errors <= errors' && rest.errors == errors'[|errors|..] + rest'.errors
    ensures Pending(tokens', errors', rest', all)
  {
    assert tokens' + rest'.tokens == tokens + rest.tokens;
    assert errors' + rest'.errors == errors + rest.errors;
  }

  /** What a word adds to what comes after it. */
  lemma WordStep(s: string, i: nat)
    requires i < |s| && !IsBlank(s[i]) && !CommentAt(s, i) && !IsPunctuation(s[i])
    ensures var word := WordFrom(s, i);
      var rest := LexFrom(s, if word.error.None? then word.next else Source.LineEnd(s, word.next));
      && LexFrom(s, i).tokens == (if word.error.None?
          then [Token(Word, word.text, Span(i, word.next - i))] else []) + rest.tokens
      && LexFrom(s, i).errors == (if word.error.Some? then [word.error.value] else []) + rest.errors
  {
  }

  class Scanner {
    const data: string
    const report: Report
    var tokens: seq<Token>
    var index: nat

    ghost predicate Valid()
      reads this, report
    {
      index <= |data| && report.Valid()
    }

    constructor (data: string, report: Report)
      requires report.Valid()
      ensures Valid() && this.data == data && this.report == report
      ensures tokens == [] && index == 0
    {
      this.data, this.report, tokens, index := data, report, [], 0;
    }

    method Emit(kind: TokenKind, value: string, span: Span)
      modifies this`tokens
      ensures tokens == old(tokens) + [Token(kind, value, span)]
    {
      tokens := tokens + [Token(kind, value, span)];
    }

    method SkipLine()
      requires Valid()
      modifies this`index
      ensures index == Source.LineEnd(data, old(index))
    {
      while index < |data| && data[index] != '\n'
        invariant old(index) <= index <= |data|
        invariant Source.LineEnd(data, index) == Source.LineEnd(data, old(index))
      {
        index := index + 1;
      }
    }

    /** What one word adds to the tokens and to the errors, and where it leaves the index. */
    twostate predicate Scanned(start: nat, scan: Scan)
      requires start <= scan.next <= |data|
      reads this, report
    {
      && Valid()
      && tokens == old(tokens) + (if scan.error.None?
          then [Token(Word, scan.text, Span(start, scan.next - start))] else [])
      && report.reported == old(report.reported) + (if scan.error.Some? then [scan.error.value] else [])
      && index == (if scan.error.None? then scan.next else Source.LineEnd(data, scan.next))
    }

    method LexAtom()
      requires Valid()
      modifies this`tokens, this`index, report
      ensures Scanned(old(index), AtomFrom(data, old(index), []))
    {
      var start := index;
      var text, error := ReadAtom();
      if error.Some? {
        report.Add(error.value.span, error.value.message);
        SkipLine();
      } else {
        Emit(Word, text, Span(start, index - start));
      }
    }

    /** The bytes up to the end of an unquoted word, or up to the error in it. */
    method ReadAtom() returns (text: string, error: Option<Error>)
      requires Valid()
      modifies this`index
      ensures index <= |data| && AtomFrom(data, old(index), []) == Scan(text, index, error)
    {
      ghost var start := index;
      text, error := "", None;
      while index < |data|
        invariant start <= index <= |data| && error == None
        invariant AtomFrom(data, start, []) == AtomFrom(data, index, text)
        decreases |data| - index
      {
        var value := data[index];
        if AtomBreak(data, index) {
          break;
        }
        if Misplaced(value) {
          error := Some(Error(Span(index, 1), UnexpectedInWord(value)));
          break;
        }
        if value == '\\' {
          index := index + 1;
          if index >= |data| || data[index] == '\n' {
            error := Some(Error(Span(index - 1, 1), BackslashAtLineEnd));
            break;
          }
          value := data[index];
        }
        text := text + [value];
        index := index + 1;
      }
    }

    method LexQuoted(quote: char)
      requires Valid() && index < |data|
      modifies this`tokens, this`index, report
      ensures Scanned(old(index), QuotedFrom(data, old(index), quote, old(index) + 1, []))
    {
      var start := index;
      var text, closed := ReadQuoted(quote);
      if closed {
        Emit(Word, text, Span(start, index - start));
      } else {
        report.Add(Span(start, 1), if quote == '"' then UnterminatedDouble else UnterminatedSingle);
        SkipLine();
      }
    }

    /** The bytes up to the closing quote. */
    method ReadQuoted(quote: char) returns (text: string, closed: bool)
      requires Valid() && index < |data|
      modifies this`index
      ensures index <= |data|
      ensures var scan := QuotedFrom(data, old(index), quote, old(index) + 1, []);
        scan == Scan(text, index, if closed then None else Some(Error(Span(old(index), 1),
          if quote == '"' then UnterminatedDouble else UnterminatedSingle)))
    {
      ghost var start := index;
      text, closed := "", false;
      index := index + 1;
      while index < |data|
        invariant start < index <= |data| && !closed
        invariant QuotedFrom(data, start, quote, start + 1, []) == QuotedFrom(data, start, quote, index, text)
        decreases |data| - index
      {
        var value := data[index];
        if value == '\n' {
          break;
        }
        if value == quote {
          index := index + 1;
          closed := true;
          break;
        }
        if value == '\\' && quote == '"' {
          index := index + 1;
          if index >= |data| || data[index] == '\n' {
            break;
          }
          value := data[index];
        }
        text := text + [value];
        index := index + 1;
      }
    }

    /** One round of the main loop: skip a blank or a comment, or lex one token. */
    method LexNext()
      requires Valid() && index < |data|
      modifies this`tokens, this`index, report
      ensures Valid() && old(index) < index
      ensures old(tokens) <= tokens && old(report.reported) <= report.reported
      ensures LexFrom(data, old(index)).tokens == tokens[|old(tokens)|..] + LexFrom(data, index).tokens
      ensures LexFrom(data, old(index)).errors
        == report.reported[|old(report.reported)|..] + LexFrom(data, index).errors
    {
      var value := data[index];
      if IsBlank(value) {
        index := index + 1;
      } else if CommentAt(data, index) {
        SkipLine();
      } else if IsPunctuation(value) {
        index := index + 1;
        Emit(PunctuationKind(value), "", Span(index - 1, 1));
      } else {
        LexWord();
      }
    }

    method LexWord()
      requires Valid() && index < |data|
      requires !IsBlank(data[index]) && !CommentAt(data, index) && !IsPunctuation(data[index])
      modifies this`tokens, this`index, report
      ensures Valid() && old(index) < index
      ensures old(tokens) <= tokens && old(report.reported) <= report.reported
      ensures LexFrom(data, old(index)).tokens == tokens[|old(tokens)|..] + LexFrom(data, index).tokens
      ensures LexFrom(data, old(index)).errors
        == report.reported[|old(report.reported)|..] + LexFrom(data, index).errors
    {
      if IsQuote(data[index]) {
        LexQuoted(data[index]);
      } else {
        LexAtom();
      }
      WordStep(data, old(index));
      assert Scanned(old(index), WordFrom(data, old(index)));
    }

    method Lex() returns (ok: bool)
      requires Valid() && index == 0 && tokens == [] && report.reported == []
      modifies this`tokens, this`index, report
      ensures Valid()
      ensures tokens == LexFrom(data, 0).tokens && report.reported == LexFrom(data, 0).errors
      ensures ok <==> LexFrom(data, 0).errors == []
    {
      while index < |data|
        invariant Valid()
        invariant Pending(tokens, report.reported, LexFrom(data, index), LexFrom(data, 0))
        decreases |data| - index
      {
        var before := index;
        ghost var tokens0, errors0 := tokens, report.reported;
        LexNext();
        PendingStep(tokens0, errors0, tokens, report.reported,
          LexFrom(data, before), LexFrom(data, index), LexFrom(data, 0));
      }
      Emit(EndOfInput, "", Span(|data|, 0));
      return |report.errors| == 0;
    }
  }

  // ----- The lexical grammar -------------------------------------------------

  /** Blanks and comments: what may stand between two tokens. */
  predicate Trivia(s: string, a: nat, b: nat)
    requires a <= b <= |s|
    decreases b - a
  {
    a == b
    || (IsBlank(s[a]) && Trivia(s, a + 1, b))
    || (CommentAt(s, a) && Source.LineEnd(s, a) <= b && Trivia(s, Source.LineEnd(s, a), b))
  }

  /** The text with every backslash dropped and the byte after it kept. */
  function Unescape(t: string): string {
    if t == [] then []
    else if t[0] == '\\' && |t| > 1 then [t[1]] + Unescape(t[2..])
    else [t[0]] + Unescape(t[1..])
  }

  /** s[a..b] is a run of plain bytes and escape pairs, none of them able to end
      or to spoil an unquoted word, and the word ends at b. */
  predicate AtomBody(s: string, a: nat, b: nat)
    requires a <= b <= |s|
    decreases b - a
  {
    if a == b then a == |s| || AtomBreak(s, a)
    else if AtomBreak(s, a) || Misplaced(s[a]) then false
    else if s[a] == '\\' then a + 2 <= b && s[a + 1] != '\n' && AtomBody(s, a + 2, b)
    else AtomBody(s, a + 1, b)
  }

  /** The same for the inside of a quoted word that closes at b. */
  predicate QuotedBody(s: string, a: nat, b: nat, quote: char)
    requires a <= b < |s|
    decreases b - a
  {
    if a == b then s[a] == quote
    else if s[a] == quote || s[a] == '\n' then false
    else if s[a] == '\\' && quote == '"' then a + 2 <= b && s[a + 1] != '\n' && QuotedBody(s, a + 2, b, quote)
    else QuotedBody(s, a + 1, b, quote)
  }

  /** One of the three forms of a word on s[a..b], and the value it denotes. */
  predicate IsWord(s: string, a: nat, b: nat, value: string)
    requires a <= b <= |s|
  {
    || (a < b && s[a] != '"' && s[a] != '\'' && AtomBody(s, a, b) && value == Unescape(s[a..b]))
    || (a + 2 <= b && s[a] == '"' && QuotedBody(s, a + 1, b - 1, '"') && value == Unescape(s[a + 1..b - 1]))
    || (a + 2 <= b && s[a] == '\'' && QuotedBody(s, a + 1, b - 1, '\'') && value == s[a + 1..b - 1])
  }

  predicate IsLexeme(s: string, t: Token)
    requires t.span.End() <= |s|
  {
    match t.kind
    case Word => IsWord(s, t.span.offset, t.span.End(), t.value)
    case EndOfInput => t.span == Span(|s|, 0) && t.value == ""
    case _ =>
      t.span.length == 1 && t.value == "" && IsPunctuation(s[t.span.offset])
      && t.kind == PunctuationKind(s[t.span.offset])
  }

  /** `ts` splits the text from `i` on into lexemes with only trivia around them,
      and its last token, and no other, is the end of the input. */
  predicate Tokenizes(s: string, i: nat, ts: seq<Token>)
    requires i <= |s|
    decreases |ts|
  {
    && |ts| > 0
    && i <= ts[0].span.offset && ts[0].span.End() <= |s|
    && Trivia(s, i, ts[0].span.offset)
    && IsLexeme(s, ts[0])
    && if ts[0].kind == EndOfInput then |ts| == 1 else Tokenizes(s, ts[0].span.End(), ts[1..])
  }

  // ----- The scanner obeys the grammar, and nothing else ----------------------

  lemma {:induction false} AtomSound(s: string, i: nat, text: string)
    requires i <= |s|
    ensures var r := AtomFrom(s, i, text);
      r.error.None? ==> AtomBody(s, i, r.next) && r.text == text + Unescape(s[i..r.next])
    decreases |s| - i
  {
    var r := AtomFrom(s, i, text);
    if r.error.None? && i < |s| && !AtomBreak(s, i) {
      var k := if s[i] == '\\' then 2 else 1;
      AtomSound(s, i + k, text + [s[i + k - 1]]);
      assert s[i..r.next][k..] == s[i + k..r.next];
    }
  }

  lemma {:induction false} AtomComplete(s: string, i: nat, b: nat, text: string)
    requires i <= b <= |s| && AtomBody(s, i, b)
    ensures AtomFrom(s, i, text) == Scan(text + Unescape(s[i..b]), b, None)
    decreases b - i
  {
    if i < b {
      var k := if s[i] == '\\' then 2 else 1;
      AtomComplete(s, i + k, b, text + [s[i + k - 1]]);
      assert s[i..b][k..] == s[i + k..b];
    }
  }

  /** The value that the inside of a quoted word denotes. */
  function QuotedValue(t: string, quote: char): string {
    if quote == '"' then Unescape(t) else t
  }

  lemma {:induction false} QuotedSound(s: string, start: nat, quote: char, i: nat, text: string)
    requires start < i <= |s| && IsQuote(quote)
    ensures var r := QuotedFrom(s, start, quote, i, text); r.error.None? ==>
      i < r.next && QuotedBody(s, i, r.next - 1, quote) && r.text == text + QuotedValue(s[i..r.next - 1], quote)
    decreases |s| - i
  {
    var r := QuotedFrom(s, start, quote, i, text);
    if r.error.None? && s[i] != quote {
      var k := if s[i] == '\\' && quote == '"' then 2 else 1;
      QuotedSound(s, start, quote, i + k, text + [s[i + k - 1]]);
      assert s[i..r.next - 1][k..] == s[i + k..r.next - 1];
    }
  }

  lemma {:induction false} QuotedComplete(s: string, start: nat, quote: char, i: nat, b: nat, text: string)
    requires start < i <= b < |s| && IsQuote(quote) && QuotedBody(s, i, b, quote)
    ensures QuotedFrom(s, start, quote, i, text) == Scan(text + QuotedValue(s[i..b], quote), b + 1, None)
    decreases b - i
  {
    if i < b {
      var k := if s[i] == '\\' && quote == '"' then 2 else 1;
      QuotedComplete(s, start, quote, i + k, b, text + [s[i + k - 1]]);
      QuotedStep(s, i, b, quote, text);
    } else {
      assert s[i..b] == "" && text + "" == text;
    }
  }

  /** The first byte or escape pair inside a quoted word, and the rest. */
  lemma QuotedStep(s: string, i: nat, b: nat, quote: char, text: string)
    requires i < b < |s| && QuotedBody(s, i, b, quote)
    ensures var k := if s[i] == '\\' && quote == '"' then 2 else 1;
      text + QuotedValue(s[i..b], quote) == text + [s[i + k - 1]] + QuotedValue(s[i + k..b], quote)
  {
    var k := if s[i] == '\\' && quote == '"' then 2 else 1;
    var t := s[i..b];
    assert t[0] == s[i] && t[k - 1] == s[i + k - 1] && t[k..] == s[i + k..b];
    ValueStep(t, k, quote);
    Associate(text, [t[k - 1]], QuotedValue(t[k..], quote));
  }

  lemma ValueStep(t: string, k: nat, quote: char)
    requires 1 <= k <= |t| && k == if t[0] == '\\' && quote == '"' then 2 else 1
    ensures QuotedValue(t, quote) == [t[k - 1]] + QuotedValue(t[k..], quote)
  {
    if quote != '"' {
      assert t == [t[0]] + t[1..];
    }
  }

  /** An error-free scan of a word finds exactly the one lexeme that starts there. */
  lemma WordExact(s: string, i: nat, b: nat, value: string)
    requires i < |s| && !AtomBreak(s, i) && s[i] != '{' && s[i] != '}' && i <= b <= |s|
    ensures WordFrom(s, i) == Scan(value, b, None) <==> IsWord(s, i, b, value)
  {
    var r := WordFrom(s, i);
    if IsQuote(s[i]) {
      QuotedSound(s, i, s[i], i + 1, []);
      if i + 2 <= b && QuotedBody(s, i + 1, b - 1, s[i]) {
        QuotedComplete(s, i, s[i], i + 1, b - 1, []);
      }
    } else {
      AtomSound(s, i, []);
      if i < b && AtomBody(s, i, b) {
        AtomComplete(s, i, b, []);
      }
    }
  }

  /** An error-free lex is a tokenization. */
  lemma {:induction false} LexSound(s: string, i: nat)
    requires i <= |s| && LexFrom(s, i).errors == []
    ensures Tokenizes(s, i, LexFrom(s, i).tokens)
    decreases |s| - i
  {
    var ts := LexFrom(s, i).tokens;
    if i == |s| {
    } else if IsBlank(s[i]) {
      LexSound(s, i + 1);
    } else if CommentAt(s, i) {
      LexSound(s, Source.LineEnd(s, i));
    } else if IsPunctuation(s[i]) {
      LexSound(s, i + 1);
      assert ts[1..] == LexFrom(s, i + 1).tokens;
    } else {
      WordStep(s, i);
      LexSound(s, WordFrom(s, i).next);
      WordSound(s, i);
    }
  }

  lemma WordSound(s: string, i: nat)
    requires i < |s| && !AtomBreak(s, i) && !IsPunctuation(s[i]) && WordFrom(s, i).error.None?
    requires Tokenizes(s, WordFrom(s, i).next, LexFrom(s, WordFrom(s, i).next).tokens)
    ensures Tokenizes(s, i, LexFrom(s, i).tokens)
  {
    var word := WordFrom(s, i);
    WordStep(s, i);
    WordExact(s, i, word.next, word.text);
    HeadAndTail(Token(Word, word.text, Span(i, word.next - i)), LexFrom(s, word.next).tokens);
  }

  /** A text has at most one tokenization, and the lexer finds it without an error. */
  lemma {:induction false} LexComplete(s: string, i: nat, ts: seq<Token>)
    requires i <= |s| && Tokenizes(s, i, ts)
    ensures LexFrom(s, i) == Lexed(ts, [])
    decreases |ts|, |s| - i
  {
    var t := ts[0];
    if i < t.span.offset {
      LexComplete(s, if IsBlank(s[i]) then i + 1 else Source.LineEnd(s, i), ts);
    } else if t.kind == EndOfInput {
      assert ts == [t];
    } else {
      assert ts == [t] + ts[1..];
      if t.kind == Word {
        assert !AtomBreak(s, i) && !IsPunctuation(s[i]);
        WordExact(s, i, t.span.End(), t.value);
      }
      LexComplete(s, t.span.End(), ts[1..]);
    }
  }

  /** The lexer reports no error exactly when the text is a sequence of lexemes
      separated by blanks and comments, and its tokens are then those lexemes. */
  lemma LexExact(s: string, ts: seq<Token>)
    ensures LexFrom(s, 0) == Lexed(ts, []) <==> Tokenizes(s, 0, ts)
  {
    if LexFrom(s, 0) == Lexed(ts, []) {
      LexSound(s, 0);
    }
    if Tokenizes(s, 0, ts) {
      LexComplete(s, 0, ts);
    }
  }

  // ----- Spans ----------------------------------------------------------------

  /** Spans lie within [lo, hi], in order and without overlap. */
  predicate SpansOrdered(ts: seq<Token>, lo: nat, hi: nat) {
    if ts == [] then lo <= hi
    else lo <= ts[0].span.offset && SpansOrdered(ts[1..], ts[0].span.End(), hi)
  }

  /** The input ends with the last token and with no other. */
  predicate EndsOnce(ts: seq<Token>) {
    |ts| > 0 && forall k :: 0 <= k < |ts| ==> (ts[k].kind == EndOfInput <==> k == |ts| - 1)
  }

  lemma {:induction false} SpansWeaken(ts: seq<Token>, lo: nat, lo': nat, hi: nat)
    requires lo' <= lo && SpansOrdered(ts, lo, hi)
    ensures SpansOrdered(ts, lo', hi)
  {
  }

  /** Even after errors the spans are ordered, disjoint and within the text, and
      only the last token is the end of the input. */
  lemma {:induction false} LexShape(s: string, i: nat)
    requires i <= |s|
    ensures SpansOrdered(LexFrom(s, i).tokens, i, |s|)
    ensures EndsOnce(LexFrom(s, i).tokens)
    decreases |s| - i
  {
    var ts := LexFrom(s, i).tokens;
    if i == |s| {
    } else if IsBlank(s[i]) {
      LexShape(s, i + 1);
      SpansWeaken(ts, i + 1, i, |s|);
    } else if CommentAt(s, i) {
      LexShape(s, Source.LineEnd(s, i));
      SpansWeaken(ts, Source.LineEnd(s, i), i, |s|);
    } else if IsPunctuation(s[i]) {
      LexShape(s, i + 1);
      assert ts[1..] == LexFrom(s, i + 1).tokens;
    } else {
      var word := WordFrom(s, i);
      if word.error.None? {
        LexShape(s, word.next);
        assert ts[1..] == LexFrom(s, word.next).tokens;
      } else {
        LexShape(s, Source.LineEnd(s, word.next));
        SpansWeaken(ts, Source.LineEnd(s, word.next), i, |s|);
      }
    }
  }
}
