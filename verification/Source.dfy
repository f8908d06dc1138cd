/** The line table of a configuration file (scfg_source.c). */
module Source {
  import opened Options

  /** How many newlines `s` contains. */
  function Newlines(s: string): nat {
    if s == [] then 0 else Newlines(s[..|s| - 1]) + (if s[|s| - 1] == '\n' then 1 else 0)
  }

  /** Offsets past the end count as the end. */
  function Before(s: string, offset: nat): string {
    if offset <= |s| then s[..offset] else s
  }

  /** The line, counted from 1, that holds `offset`. */
  function LineOf(s: string, offset: nat): nat {
    1 + Newlines(Before(s, offset))
  }

  /** Where a line that ends with `s` begins: after the last newline of `s`. */
  function LineStart(s: string): (r: nat)
    ensures r <= |s|
    ensures '\n' !in s[r..]
    ensures r > 0 ==> s[r - 1] == '\n'
  {
    if s == [] then 0
    else if s[|s| - 1] == '\n' then |s|
    else
      var r := LineStart(s[..|s| - 1]);
      assert s[r..] == s[..|s| - 1][r..] + [s[|s| - 1]];
      r
  }

  /** The first newline at or after `i`, or the end of the text. */
  function LineEnd(s: string, i: nat): (r: nat)
    requires i <= |s|
    ensures i <= r <= |s|
    ensures '\n' !in s[i..r]
    ensures r < |s| ==> s[r] == '\n'
    decreases |s| - i
  {
    if i == |s| || s[i] == '\n' then i else LineEnd(s, i + 1)
  }

  lemma {:induction false} NewlinesMonotone(s: string, i: nat, j: nat)
    requires i <= j <= |s|
    ensures Newlines(s[..i]) <= Newlines(s[..j])
    decreases j
  {
    if i < j {
      assert s[..j][..j - 1] == s[..j - 1];
      NewlinesMonotone(s, i, j - 1);
    }
  }

  lemma NewlinesStep(s: string, i: nat)
    requires i < |s|
    ensures Newlines(s[..i + 1]) == Newlines(s[..i]) + (if s[i] == '\n' then 1 else 0)
  {
    assert s[..i + 1][..i] == s[..i];
  }

  /** Two offsets that end a newline-free stretch share their line. */
  lemma {:induction false} NoNewlineSameCount(s: string, i: nat, j: nat)
    requires i <= j <= |s|
    requires forall k :: i <= k < j ==> s[k] != '\n'
    ensures Newlines(s[..i]) == Newlines(s[..j])
    decreases j
  {
    if i < j {
      NewlinesStep(s, j - 1);
      NoNewlineSameCount(s, i, j - 1);
    }
  }

  /** What source_index promises: entry k is where line k + 1 starts. */
  ghost predicate IsLineTable(data: string, offsets: seq<nat>) {
    && |offsets| == Newlines(data) + 1
    && offsets[0] == 0
    && forall k :: 0 < k < |offsets| ==> StartsLine(data, offsets[k], k)
  }

  ghost predicate StartsLine(data: string, start: nat, k: nat) {
    && 0 < start <= |data|
    && data[start - 1] == '\n'
    && Newlines(data[..start]) == k
  }

  lemma TableEntryAtMost(data: string, offsets: seq<nat>, k: nat, offset: nat)
    requires IsLineTable(data, offsets) && k < |offsets| && offsets[k] <= offset
    ensures k <= Newlines(Before(data, offset))
  {
    if k > 0 {
      assert StartsLine(data, offsets[k], k);
      var j := if offset <= |data| then offset else |data|;
      NewlinesMonotone(data, offsets[k], j);
      assert data[..|data|] == data;
    }
  }

  lemma TableEntryAfter(data: string, offsets: seq<nat>, k: nat, offset: nat)
    requires IsLineTable(data, offsets) && 0 < k < |offsets| && offset < offsets[k]
    ensures Newlines(Before(data, offset)) < k
  {
    assert StartsLine(data, offsets[k], k);
    NewlinesStep(data, offsets[k] - 1);
    NewlinesMonotone(data, offset, offsets[k] - 1);
  }

  /** There is only one start of line k. */
  lemma OneStart(data: string, p: nat, q: nat, k: nat)
    requires StartsLine(data, p, k) && StartsLine(data, q, k)
    ensures p == q
  {
    if p < q {
      NewlinesStep(data, q - 1);
      NewlinesMonotone(data, p, q - 1);
    } else if q < p {
      NewlinesStep(data, p - 1);
      NewlinesMonotone(data, q, p - 1);
    }
  }

  /** The line of an offset starts where it starts, whatever comes after. */
  lemma LineStartStarts(data: string, j: nat)
    requires j <= |data|
    ensures var start, k := LineStart(data[..j]), Newlines(data[..j]);
      if start == 0 then k == 0 else StartsLine(data, start, k)
  {
    var text := data[..j];
    var start := LineStart(text);
    forall i | start <= i < j ensures data[i] != '\n' {
      assert data[i] == text[start..][i - start];
    }
    NoNewlineSameCount(data, start, j);
    if start > 0 {
      assert data[start - 1] == text[start - 1];
    }
  }

  /** The table entry of the line holding `offset` is that line's start. */
  lemma TableEntryIsLineStart(data: string, offsets: seq<nat>, offset: nat)
    requires IsLineTable(data, offsets)
    ensures Newlines(Before(data, offset)) < |offsets|
    ensures offsets[Newlines(Before(data, offset))] == LineStart(Before(data, offset))
  {
    var j := if offset <= |data| then offset else |data|;
    assert Before(data, offset) == data[..j] && data[..|data|] == data;
    NewlinesMonotone(data, j, |data|);
    LineStartStarts(data, j);
    var k, start := Newlines(data[..j]), LineStart(data[..j]);
    if start > 0 {
      StartsAfterNewline(data, start, k);
      assert StartsLine(data, offsets[k], k);
      OneStart(data, offsets[k], start, k);
    }
  }

  lemma StartsAfterNewline(data: string, start: nat, k: nat)
    requires StartsLine(data, start, k)
    ensures k > 0
  {
    NewlinesStep(data, start - 1);
  }

  class SourceText {
    const data: string
    var lineOffsets: array<nat>

    ghost predicate Valid()
      reads this, lineOffsets
    {
      IsLineTable(data, lineOffsets[..])
    }

    /** source_index: count the lines, then record where each of them starts. */
    constructor (text: string)
      ensures data == text && Valid() && fresh(lineOffsets)
    {
      data := text;
      new;
      var count := 1;
      for i := 0 to |text|
        invariant count == 1 + Newlines(text[..i])
      {
        NewlinesStep(text, i);
        if text[i] == '\n' {
          count := count + 1;
        }
      }
      assert text[..|text|] == text;
      var offsets := new nat[count];
      offsets[0] := 0;
      var next, i := 1, 0;
      while i < |text| && next < count
        invariant 0 <= i <= |text|
        invariant 1 <= next <= count && offsets[0] == 0
        invariant next == 1 + Newlines(text[..i])
        invariant forall k :: 0 < k < next ==> StartsLine(text, offsets[k], k)
      {
        NewlinesStep(text, i);
        if text[i] == '\n' {
          offsets[next] := i + 1;
          next := next + 1;
        }
        i := i + 1;
      }
      NewlinesMonotone(text, i, |text|);
      lineOffsets := offsets;
    }

    /** Binary search for the line and the column of an offset. */
    method Locate(offset: nat) returns (line: nat, column: nat)
      requires Valid()
      ensures line == LineOf(data, offset)
      ensures column == offset - LineStart(Before(data, offset)) + 1
    {
      var low, high := 0, lineOffsets.Length;
      while low + 1 < high
        invariant 0 <= low < high <= lineOffsets.Length
        invariant lineOffsets[low] <= offset
        invariant high < lineOffsets.Length ==> offset < lineOffsets[high]
      {
        var middle := low + (high - low) / 2;
        if lineOffsets[middle] <= offset {
          low := middle;
        } else {
          high := middle;
        }
      }
      TableEntryAtMost(data, lineOffsets[..], low, offset);
      if high < lineOffsets.Length {
        TableEntryAfter(data, lineOffsets[..], high, offset);
      }
      TableEntryIsLineStart(data, lineOffsets[..], offset);
      line := low + 1;
      column := offset - lineOffsets[low] + 1;
    }

    /** The text of a line, without its newline; `None` for a line that does not exist. */
    method LineText(line: int) returns (text: Option<string>)
      requires Valid()
      ensures text.Some? <==> 1 <= line <= 1 + Newlines(data)
      ensures text.Some? ==>
        exists start: nat, end: nat :: start <= end <= |data| && text.value == data[start..end]
          && '\n' !in text.value && Newlines(data[..start]) == line - 1
          && (start == 0 || data[start - 1] == '\n') && (end == |data| || data[end] == '\n')
    {
      if line < 1 || line > lineOffsets.Length {
        return None;
      }
      var start := lineOffsets[line - 1];
      assert line > 1 ==> StartsLine(data, lineOffsets[..][line - 1], line - 1);
      var end := start;
      while end < |data| && data[end] != '\n'
        invariant start <= end <= |data|
        invariant '\n' !in data[start..end]
      {
        end := end + 1;
      }
      return Some(data[start..end]);
    }
  }
}
