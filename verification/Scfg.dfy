/** The data shared by the configuration front end (scfg.h, scfg_internal.h).
    A `string` stands for a C byte buffer, one `char` a byte. */
module Scfg {
  const MAX_ERRORS: nat := 20

  /** Nested blocks are rejected from this depth on; the top level has depth 0. */
  const MAX_DEPTH: nat := 64

  datatype Span = Span(offset: nat, length: nat) {
    function End(): nat { offset + length }
  }

  datatype TokenKind = Word | Open | Close | Newline | EndOfInput

  datatype Token = Token(kind: TokenKind, value: string, span: Span)

  /** One message for each place where the lexer or the parser reports an error. */
  datatype Message =
    | UnexpectedInWord(c: char)
    | BackslashAtLineEnd
    | UnterminatedDouble
    | UnterminatedSingle
    | NestedTooDeeply
    | NeverClosed
    | UnexpectedClose
    | ExpectedName

  datatype Error = Error(span: Span, message: Message)

  /** A directive; `T` is what it remembers of the templates it came from. */
  datatype Directive<T> = Directive(
    name: string,
    params: seq<string>,
    hasBlock: bool,
    children: seq<Directive<T>>,
    lineno: nat,
    trail: T,
    span: Span,
    nameSpan: Span,
    paramSpans: seq<Span>)

  /** The error list of one run. `reported` is every error ever added; only the
      first MAX_ERRORS of them are kept. */
  class Report {
    var errors: seq<Error>
    var truncated: bool
    ghost var reported: seq<Error>

    ghost predicate Valid()
      reads this
    {
      && errors == (if |reported| <= MAX_ERRORS then reported else reported[..MAX_ERRORS])
      && truncated == (|reported| > MAX_ERRORS)
    }

    constructor ()
      ensures Valid() && reported == []
    {
      errors := [];
      truncated := false;
      reported := [];
    }

    method Add(span: Span, message: Message)
      requires Valid()
      modifies this
      ensures Valid() && reported == old(reported) + [Error(span, message)]
    {
      if |errors| >= MAX_ERRORS {
        truncated := true;
      } else {
        errors := errors + [Error(span, message)];
      }
      reported := reported + [Error(span, message)];
    }
  }
}
