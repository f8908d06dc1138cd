/** What the parser does with braces that do not match (scfg_parse.c): where it goes on
    reading, and what each of its errors is about. */
module Recovery {
  import opened Scfg
  import opened Parser

  // ----- Braces ------------------------------------------------------------------

  /** How many blocks are open after ts[i], of `open` before it. */
  function Opened(ts: seq<Token>, i: nat, open: int): int
    requires i < |ts|
  {
    if ts[i].kind == Open then open + 1 else if ts[i].kind == Close then open - 1 else open
  }

  /** How many blocks are open after ts[i..k], of `open` before them. */
  function Level(ts: seq<Token>, i: nat, k: nat, open: int): int
    requires i <= k <= |ts|
    decreases k - i
  {
    if i == k then open else Level(ts, i + 1, k, Opened(ts, i, open))
  }

  /** How many blocks are still open where skipping stops. */
  function Left(ts: seq<Token>, i: nat, open: nat): int
    requires EndTerminated(ts) && i < |ts|
  {
    Level(ts, i, SkipBlock(ts, i, open), open)
  }

  /** Skipping stops at the first place where every block that was open is closed, or
      else at the end of the input. */
  lemma {:induction false} SkipIsBalanced(ts: seq<Token>, i: nat, open: nat)
    requires EndTerminated(ts) && i < |ts|
    ensures var r := SkipBlock(ts, i, open);
      && (forall k :: i <= k < r ==> ts[k].kind != EndOfInput && Level(ts, i, k, open) > 0)
      && (Left(ts, i, open) == 0 || (Left(ts, i, open) > 0 && ts[r].kind == EndOfInput))
    decreases |ts| - i
  {
    if open > 0 && ts[i].kind != EndOfInput {
      SkipIsBalanced(ts, i + 1, Opened(ts, i, open));
    }
  }

  /** Skipping a + b levels is skipping a and then b. */
  lemma {:induction false} SkipNested(ts: seq<Token>, i: nat, a: nat, b: nat)
    requires EndTerminated(ts) && i < |ts|
    ensures var m := SkipBlock(ts, i, a);
      && SkipBlock(ts, i, a + b) == SkipBlock(ts, m, b)
      && Left(ts, i, a + b) == if Left(ts, i, a) == 0 then Left(ts, m, b) else Left(ts, i, a) + b
    decreases |ts| - i
  {
    if a > 0 && ts[i].kind != EndOfInput {
      SkipNested(ts, i + 1, Opened(ts, i, a), b);
    }
  }

  lemma {:induction false} SkipWords(ts: seq<Token>, i: nat, open: nat)
    requires EndTerminated(ts) && i < |ts| && open > 0
    ensures var w := WordsEnd(ts, i);
      SkipBlock(ts, i, open) == SkipBlock(ts, w, open) && Left(ts, i, open) == Left(ts, w, open)
    decreases |ts| - i
  {
    if ts[i].kind == Word {
      SkipWords(ts, i + 1, open);
    }
  }

  // ----- Blocks end at their braces ------------------------------------------------

  /** Whatever else is wrong with it, a block ends at the brace that matches its own,
      and counts as closed exactly when there is one. */
  lemma {:induction false} BlockEndsAtItsBrace(data: string, ts: seq<Token>, i: nat, depth: nat)
    requires EndTerminated(ts) && i < |ts| && depth > 0
    ensures var r := ParseBlock(data, ts, i, depth);
      r.next == SkipBlock(ts, i, 1) && (r.closed <==> Left(ts, i, 1) == 0)
    decreases |ts| - i, 2
  {
    match ts[i].kind
    case Newline =>
      BlockEndsAtItsBrace(data, ts, i + 1, depth);
    case Open =>
      SkipNested(ts, i + 1, 1, 1);
      SkipIsBalanced(ts, i + 1, 1);
      BlockEndsAtItsBrace(data, ts, SkipBlock(ts, i + 1, 1), depth);
    case Word =>
      DirectiveKeepsLevel(data, ts, i, depth);
      BlockEndsAtItsBrace(data, ts, ParseDirective(data, ts, i, depth).next, depth);
    case Close =>
      assert SkipBlock(ts, i + 1, 0) == i + 1 && Level(ts, i + 1, i + 1, 0) == 0;
    case EndOfInput =>
      assert Level(ts, i, i, 1) == 1;
  }

  lemma {:induction false} BodyEndsAtItsBrace(data: string, ts: seq<Token>, w: nat, depth: nat)
    requires EndTerminated(ts) && w < |ts| && ts[w].kind == Open
    ensures ParseBody(data, ts, w, depth).next == SkipBlock(ts, w + 1, 1)
    decreases |ts| - w, 0
  {
    if depth + 1 < MAX_DEPTH {
      BlockEndsAtItsBrace(data, ts, w + 1, depth + 1);
    }
  }

  lemma {:induction false} DirectiveKeepsLevel(data: string, ts: seq<Token>, i: nat, depth: nat)
    requires EndTerminated(ts) && i < |ts| && ts[i].kind == Word
    ensures var m := ParseDirective(data, ts, i, depth).next;
      SkipBlock(ts, i, 1) == SkipBlock(ts, m, 1) && (Left(ts, i, 1) == 0 <==> Left(ts, m, 1) == 0)
    decreases |ts| - i, 1
  {
    var w := WordsEnd(ts, i);
    SkipWords(ts, i, 1);
    if ts[w].kind == Open {
      BodyEndsAtItsBrace(data, ts, w, depth);
      SkipNested(ts, w + 1, 1, 1);
      SkipIsBalanced(ts, w + 1, 1);
    }
  }

  // ----- Errors ----------------------------------------------------------------------

  predicate AfterWord(ts: seq<Token>, k: nat) {
    0 < k <= |ts| && ts[k - 1].kind == Word
  }

  /** What an error says is so of the token at k. */
  predicate IsTrueAt(ts: seq<Token>, k: nat, message: Message)
    requires EndTerminated(ts) && k < |ts|
  {
    match message
    case UnexpectedClose => ts[k].kind == Close
    case ExpectedName => ts[k].kind == Open && !AfterWord(ts, k)
    case NestedTooDeeply => ts[k].kind == Open && AfterWord(ts, k)
    case NeverClosed => ts[k].kind == Open && AfterWord(ts, k) && Left(ts, k + 1, 1) > 0
    case _ => false
  }

  ghost predicate Explained(ts: seq<Token>, e: Error)
    requires EndTerminated(ts)
  {
    exists k: nat :: k < |ts| && ts[k].span == e.span && IsTrueAt(ts, k, e.message)
  }

  ghost predicate AllExplained(ts: seq<Token>, errors: seq<Error>)
    requires EndTerminated(ts)
  {
    forall e :: e in errors ==> Explained(ts, e)
  }

  /** Every error of the parser is about a token of which it is true: a block that is
      said never to be closed has no matching brace in the rest of the file. */
  lemma {:induction false} ErrorsAreTrue(data: string, ts: seq<Token>, i: nat, depth: nat)
    requires EndTerminated(ts) && i < |ts| && (ts[i].kind == Open ==> !AfterWord(ts, i))
    ensures AllExplained(ts, ParseBlock(data, ts, i, depth).errors)
    decreases |ts| - i, 2
  {
    match ts[i].kind
    case Newline =>
      ErrorsAreTrue(data, ts, i + 1, depth);
    case Open =>
      assert IsTrueAt(ts, i, ExpectedName);
      SkipEnds(ts, i + 1, 1);
      ErrorsAreTrue(data, ts, SkipBlock(ts, i + 1, 1), depth);
    case Close =>
      assert IsTrueAt(ts, i, UnexpectedClose);
      if depth == 0 {
        ErrorsAreTrue(data, ts, i + 1, depth);
      }
    case Word =>
      DirectiveErrorsAreTrue(data, ts, i, depth);
      ErrorsAreTrue(data, ts, ParseDirective(data, ts, i, depth).next, depth);
    case EndOfInput =>
  }

  lemma {:induction false} SkipEnds(ts: seq<Token>, i: nat, open: nat)
    requires EndTerminated(ts) && i < |ts| && open > 0
    ensures var r := SkipBlock(ts, i, open); ts[r].kind == Open ==> i < r && ts[r - 1].kind == Close
    decreases |ts| - i
  {
    if ts[i].kind != EndOfInput && Opened(ts, i, open) > 0 {
      SkipEnds(ts, i + 1, Opened(ts, i, open));
    }
  }

  lemma {:induction false} DirectiveErrorsAreTrue(data: string, ts: seq<Token>, i: nat, depth: nat)
    requires EndTerminated(ts) && i < |ts| && ts[i].kind == Word
    ensures var one := ParseDirective(data, ts, i, depth);
      && AllExplained(ts, one.errors)
      && (ts[one.next].kind == Open ==> !AfterWord(ts, one.next))
    decreases |ts| - i, 1
  {
    var w := WordsEnd(ts, i);
    if ts[w].kind == Open {
      assert ts[w - 1].kind == Word;
      SkipEnds(ts, w + 1, 1);
      BodyEndsAtItsBrace(data, ts, w, depth);
      BodyErrorsAreTrue(data, ts, w, depth);
    }
  }

  lemma {:induction false} BodyErrorsAreTrue(data: string, ts: seq<Token>, w: nat, depth: nat)
    requires EndTerminated(ts) && w < |ts| && ts[w].kind == Open && AfterWord(ts, w)
    ensures AllExplained(ts, ParseBody(data, ts, w, depth).errors)
    decreases |ts| - w, 0
  {
    if depth + 1 >= MAX_DEPTH {
      assert IsTrueAt(ts, w, NestedTooDeeply);
    } else {
      ErrorsAreTrue(data, ts, w + 1, depth + 1);
      BlockEndsAtItsBrace(data, ts, w + 1, depth + 1);
      SkipIsBalanced(ts, w + 1, 1);
      assert Left(ts, w + 1, 1) > 0 ==> IsTrueAt(ts, w, NeverClosed);
    }
  }
}
