/** Suggestions for misspelt keys (parse.c): a one-row edit distance, and the
    nearest key. */
module EditDistance {
  import opened CStrings
  import opened Ints
  import opened Options

  const KEY_MAX: nat := 64

  /** The bytes that count: at most KEY_MAX, and none after a NUL. */
  function Prefix(s: string): (r: string)
    ensures |r| <= KEY_MAX
  {
    var c := CString(s);
    if |c| > KEY_MAX then c[..KEY_MAX] else c
  }

  // ----- Edit scripts ---------------------------------------------------------------

  datatype Edit = Insert(at: nat, c: char) | Delete(at: nat) | Substitute(at: nat, c: char)

  predicate Applies(e: Edit, s: string) {
    if e.Insert? then e.at <= |s| else e.at < |s|
  }

  function Apply(e: Edit, s: string): string
    requires Applies(e, s)
  {
    match e
    case Insert(at, c) => s[..at] + [c] + s[at..]
    case Delete(at) => s[..at] + s[at + 1..]
    case Substitute(at, c) => s[..at] + [c] + s[at + 1..]
  }

  /** The edits of `script`, one after the other, turn `a` into `b`. */
  predicate Turns(a: string, script: seq<Edit>, b: string)
    decreases |script|
  {
    if script == [] then a == b else Applies(script[0], a) && Turns(Apply(script[0], a), script[1..], b)
  }

  // ----- The distance, from shorter prefixes ---------------------------------------------

  /** The cost of substituting byte j of `b` for byte i of `a`, counted from one. */
  function Changed(a: string, b: string, i: nat, j: nat): nat
    requires 0 < i <= |a| && 0 < j <= |b|
  {
    if a[i - 1] == b[j - 1] then 0 else 1
  }

  /** The distance between the first i bytes of `a` and the first j bytes of `b`. */
  function Cell(a: string, b: string, i: nat, j: nat): nat
    requires i <= |a| && j <= |b|
  {
    if i == 0 then j
    else if j == 0 then i
    else
      Min(Min(Cell(a, b, i - 1, j - 1) + Changed(a, b, i, j), Cell(a, b, i - 1, j) + 1), Cell(a, b, i, j - 1) + 1)
  }

  function Distance(a: string, b: string): nat {
    Cell(a, b, |a|, |b|)
  }

  lemma {:induction false} CellBounds(a: string, b: string, i: nat, j: nat)
    requires i <= |a| && j <= |b|
    ensures i <= j + Cell(a, b, i, j) && j <= i + Cell(a, b, i, j) && Cell(a, b, i, j) <= i + j
    decreases i + j
  {
    if i > 0 && j > 0 {
      CellBounds(a, b, i - 1, j - 1);
      CellBounds(a, b, i - 1, j);
      CellBounds(a, b, i, j - 1);
    }
  }

  lemma CellNext(a: string, b: string, i: nat, j: nat)
    requires 0 < i <= |a| && 0 < j <= |b|
    ensures Cell(a, b, i, j) <= Cell(a, b, i - 1, j - 1) + Changed(a, b, i, j)
    ensures Cell(a, b, i, j) <= Cell(a, b, i - 1, j) + 1 && Cell(a, b, i, j) <= Cell(a, b, i, j - 1) + 1
  {
  }

  lemma {:induction false} Triangle(a: string, b: string, c: string, i: nat, j: nat, k: nat)
    requires i <= |a| && j <= |b| && k <= |c|
    ensures Cell(a, c, i, k) <= Cell(a, b, i, j) + Cell(b, c, j, k)
    decreases i + j + k, 2
  {
    if i == 0 {
      CellBounds(b, c, j, k);
    } else if j == 0 {
      CellBounds(a, c, i, k);
    } else if k == 0 {
      CellBounds(a, b, i, j);
    } else {
      TriangleStep(a, b, c, i, j, k);
    }
  }

  /** The same where the first distance ends with a substitution or a match, and the
      second with a deletion, or with a substitution or a match too. */
  lemma {:induction false} TriangleDelete(a: string, b: string, c: string, i: nat, j: nat, k: nat)
    requires 0 < i <= |a| && 0 < j <= |b| && 0 < k <= |c|
    ensures Cell(a, c, i, k) <= Cell(a, b, i - 1, j - 1) + Cell(b, c, j - 1, k) + 1
    decreases i + j + k, 0
  {
    CellNext(a, c, i, k);
    Triangle(a, b, c, i - 1, j - 1, k);
  }

  lemma {:induction false} TriangleSubstitute(a: string, b: string, c: string, i: nat, j: nat, k: nat)
    requires 0 < i <= |a| && 0 < j <= |b| && 0 < k <= |c|
    ensures Cell(a, c, i, k)
      <= Cell(a, b, i - 1, j - 1) + Changed(a, b, i, j) + Cell(b, c, j - 1, k - 1) + Changed(b, c, j, k)
    decreases i + j + k, 0
  {
    CellNext(a, c, i, k);
    Triangle(a, b, c, i - 1, j - 1, k - 1);
    assert Changed(a, c, i, k) <= Changed(a, b, i, j) + Changed(b, c, j, k);
  }

  /** The last edits of the two distances against the last edit of the third. */
  lemma {:induction false} TriangleStep(a: string, b: string, c: string, i: nat, j: nat, k: nat)
    requires 0 < i <= |a| && 0 < j <= |b| && 0 < k <= |c|
    ensures Cell(a, c, i, k) <= Cell(a, b, i, j) + Cell(b, c, j, k)
    decreases i + j + k, 1
  {
    var first, second := Cell(a, b, i, j), Cell(b, c, j, k);
    CellNext(a, c, i, k);
    if first == Cell(a, b, i - 1, j) + 1 {
      Triangle(a, b, c, i - 1, j, k);
    } else if second == Cell(b, c, j, k - 1) + 1 {
      Triangle(a, b, c, i, j, k - 1);
    } else if first == Cell(a, b, i, j - 1) + 1 {
      if second == Cell(b, c, j - 1, k) + 1 {
        Triangle(a, b, c, i, j - 1, k);
      } else {
        Triangle(a, b, c, i, j - 1, k - 1);
      }
    } else {
      TriangleDelete(a, b, c, i, j, k);
      TriangleSubstitute(a, b, c, i, j, k);
    }
  }

  // ----- No script is shorter than the distance ----------------------------------------

  lemma {:induction false} SamePrefix(a: string, b: string, i: nat)
    requires i <= |a| && i <= |b| && forall k :: 0 <= k < i ==> a[k] == b[k]
    ensures Cell(a, b, i, i) == 0
  {
    if i > 0 {
      SamePrefix(a, b, i - 1);
    }
  }

  lemma {:induction false} SameSuffix(a: string, b: string, i: nat, j: nat, n: nat)
    requires i + n <= |a| && j + n <= |b| && forall k :: i <= k < i + n ==> a[k] == b[k - i + j]
    ensures Cell(a, b, i + n, j + n) <= Cell(a, b, i, j)
  {
    if n > 0 {
      SameSuffix(a, b, i, j, n - 1);
      assert a[i + n - 1] == b[j + n - 1];
    }
  }

  /** An edit leaves what is before it and what is behind it as it was. */
  lemma ApplyKeeps(e: Edit, a: string)
    requires Applies(e, a)
    ensures var b, i, j := Apply(e, a), if e.Insert? then e.at else e.at + 1, if e.Delete? then e.at else e.at + 1;
      && |a| - i == |b| - j && e.at <= |b|
      && (forall k :: 0 <= k < e.at ==> a[k] == b[k]) && (forall k :: i <= k < |a| ==> a[k] == b[k - i + j])
  {
  }

  /** The cell behind one edit at the end of a common prefix. */
  lemma EditCell(a: string, b: string, at: nat, i: nat, j: nat)
    requires at <= i <= at + 1 && at <= j <= at + 1 && at < i + j - at
    requires i <= |a| && j <= |b| && Cell(a, b, at, at) == 0
    ensures Cell(a, b, i, j) <= 1
  {
  }

  lemma KeptCost(a: string, b: string, at: nat, i: nat, j: nat)
    requires at <= i <= at + 1 && at <= j <= at + 1 && at < i + j - at && i <= |a| && j <= |b|
    requires |a| - i == |b| - j && forall k :: 0 <= k < at ==> a[k] == b[k]
    requires forall k :: i <= k < |a| ==> a[k] == b[k - i + j]
    ensures Distance(a, b) <= 1
  {
    SamePrefix(a, b, at);
    EditCell(a, b, at, i, j);
    SameSuffix(a, b, i, j, |a| - i);
  }

  lemma EditCost(e: Edit, a: string)
    requires Applies(e, a)
    ensures Distance(a, Apply(e, a)) <= 1
  {
    ApplyKeeps(e, a);
    KeptCost(a, Apply(e, a), e.at, if e.Insert? then e.at else e.at + 1, if e.Delete? then e.at else e.at + 1);
  }

  lemma {:induction false} ScriptCost(a: string, script: seq<Edit>, b: string)
    requires Turns(a, script, b)
    ensures Distance(a, b) <= |script|
    decreases |script|
  {
    if script == [] {
      SamePrefix(a, a, |a|);
    } else {
      var next := Apply(script[0], a);
      EditCost(script[0], a);
      ScriptCost(next, script[1..], b);
      Triangle(a, next, b, |a|, |next|, |b|);
    }
  }

  // ----- Some script is as short as the distance ------------------------------------------

  lemma {:induction false} TurnsThen(a: string, script: seq<Edit>, b: string, e: Edit)
    requires Turns(a, script, b) && Applies(e, b)
    ensures Turns(a, script + [e], Apply(e, b))
    decreases |script|
  {
    if script == [] {
      assert (script + [e])[1..] == [];
    } else {
      TurnsThen(Apply(script[0], a), script[1..], b, e);
      assert (script + [e])[1..] == script[1..] + [e];
    }
  }

  lemma {:induction false} TurnsBefore(a: string, script: seq<Edit>, b: string, c: char)
    requires Turns(a, script, b)
    ensures Turns(a + [c], script, b + [c])
    decreases |script|
  {
    if script != [] {
      var e := script[0];
      assert Apply(e, a + [c]) == Apply(e, a) + [c];
      TurnsBefore(Apply(e, a), script[1..], b, c);
    }
  }

  lemma ThenInsert(a: string, script: seq<Edit>, i: string, c: char)
    requires Turns(a, script, i)
    ensures Turns(a, script + [Insert(|i|, c)], i + [c])
  {
    TurnsThen(a, script, i, Insert(|i|, c));
    assert Apply(Insert(|i|, c), i) == i + [c];
  }

  lemma ThenSubstitute(a: string, script: seq<Edit>, j: string, c: char, d: char)
    requires Turns(a, script, j + [c])
    ensures Turns(a, script + [Substitute(|j|, d)], j + [d])
  {
    TurnsThen(a, script, j + [c], Substitute(|j|, d));
    assert Apply(Substitute(|j|, d), j + [c]) == j + [d];
  }

  lemma DeleteFirst(i: string, c: char, script: seq<Edit>, b: string)
    requires Turns(i, script, b)
    ensures Turns(i + [c], [Delete(|i|)] + script, b)
  {
    assert Apply(Delete(|i|), i + [c]) == i;
    assert ([Delete(|i|)] + script)[1..] == script;
  }

  lemma {:induction false} ShortestScript(a: string, b: string, i: nat, j: nat) returns (script: seq<Edit>)
    requires i <= |a| && j <= |b|
    ensures Turns(a[..i], script, b[..j]) && |script| == Cell(a, b, i, j)
    decreases i + j
  {
    if i == 0 && j == 0 {
      return [];
    }
    assert i > 0 ==> a[..i] == a[..i - 1] + [a[i - 1]];
    assert j > 0 ==> b[..j] == b[..j - 1] + [b[j - 1]];
    if i == 0 || (j > 0 && Cell(a, b, i, j) == Cell(a, b, i, j - 1) + 1) {
      var rest := ShortestScript(a, b, i, j - 1);
      ThenInsert(a[..i], rest, b[..j - 1], b[j - 1]);
      script := rest + [Insert(j - 1, b[j - 1])];
    } else if j == 0 || Cell(a, b, i, j) == Cell(a, b, i - 1, j) + 1 {
      var rest := ShortestScript(a, b, i - 1, j);
      DeleteFirst(a[..i - 1], a[i - 1], rest, b[..j]);
      script := [Delete(i - 1)] + rest;
    } else {
      script := ShortestScript(a, b, i - 1, j - 1);
      TurnsBefore(a[..i - 1], script, b[..j - 1], a[i - 1]);
      if a[i - 1] != b[j - 1] {
        ThenSubstitute(a[..i], script, b[..j - 1], a[i - 1], b[j - 1]);
        script := script + [Substitute(j - 1, b[j - 1])];
      }
    }
  }

  /** The distance is the least number of single-byte insertions, deletions and
      substitutions: some script achieves it and none is shorter. */
  lemma DistanceIsLeast(a: string, b: string)
    ensures exists script :: Turns(a, script, b) && |script| == Distance(a, b)
    ensures forall script :: Turns(a, script, b) ==> Distance(a, b) <= |script|
  {
    var script := ShortestScript(a, b, |a|, |b|);
    assert a[..|a|] == a && b[..|b|] == b;
    forall script | Turns(a, script, b) ensures Distance(a, b) <= |script| {
      ScriptCost(a, script, b);
    }
  }

  // ----- The one-row algorithm -----------------------------------------------------------------

  /** Row i of the table of distances. */
  ghost function Row(a: string, b: string, i: nat): (r: seq<nat>)
    requires i <= |a|
    ensures |r| == |b| + 1
  {
    seq(|b| + 1, j requires 0 <= j <= |b| => Cell(a, b, i, j))
  }

  /** leme_config_edit_distance. `row` is the only storage. */
  method ComputeDistance(left: string, right: string) returns (distance: nat)
    ensures distance == Distance(Prefix(left), Prefix(right))
  {
    var a, b := Prefix(left), Prefix(right);
    var row := new nat[KEY_MAX + 1];
    for j := 0 to |b| + 1
      invariant forall k :: 0 <= k < j ==> row[k] == k
    {
      row[j] := j;
    }
    assert row[..|b| + 1] == Row(a, b, 0);
    var i := 1;
    while i <= |a|
      invariant 1 <= i <= |a| + 1
      invariant row[..|b| + 1] == Row(a, b, i - 1)
    {
      NextRow(row, a, b, i);
      i := i + 1;
    }
    assert row[|b|] == Row(a, b, |a|)[|b|];
    return row[|b|];
  }

  /** The inner loop: turns row i - 1 into row i, in place. */
  method NextRow(row: array<nat>, a: string, b: string, i: nat)
    requires 1 <= i <= |a| && |b| < row.Length
    requires row[..|b| + 1] == Row(a, b, i - 1)
    modifies row
    ensures row[..|b| + 1] == Row(a, b, i)
  {
    ghost var above, made := Row(a, b, i - 1), Row(a, b, i);
    assert forall k :: 0 <= k <= |b| ==> row[..|b| + 1][k] == row[k];
    var previous := row[0];
    row[0] := i;
    var j := 1;
    while j <= |b|
      invariant 1 <= j <= |b| + 1
      invariant previous == above[j - 1]
      invariant forall k :: 0 <= k < j ==> row[k] == made[k]
      invariant forall k :: j <= k <= |b| ==> row[k] == above[k]
    {
      var current := row[j];
      var cost := if a[i - 1] == b[j - 1] then previous else previous + 1;
      if row[j] + 1 < cost {
        cost := row[j] + 1;
      }
      if row[j - 1] + 1 < cost {
        cost := row[j - 1] + 1;
      }
      RowStep(a, b, i, j);
      row[j] := cost;
      previous := current;
      j := j + 1;
    }
  }

  lemma RowStep(a: string, b: string, i: nat, j: nat)
    requires 1 <= i <= |a| && 1 <= j <= |b|
    ensures var above, made := Row(a, b, i - 1), Row(a, b, i);
      made[j] == Min(Min(above[j - 1] + (if a[i - 1] == b[j - 1] then 0 else 1), above[j] + 1), made[j - 1] + 1)
  {
  }

  // ----- The nearest key -----------------------------------------------------------------------

  /** How far a suggestion may be: a third of what was written, and two at most. */
  function Limit(written: string): (limit: nat)
    ensures forall d: nat :: d <= limit <==> d <= 2 && 3 * d <= |Prefix(written)|
  {
    var third := |Prefix(written)| / 3;
    if third > 2 then 2 else third
  }

  function DistanceTo(written: string, key: string): nat {
    Distance(Prefix(written), Prefix(key))
  }

  /** `best` is the first of the least of the n distances, and within the limit. */
  ghost predicate IsNearest(distances: seq<nat>, n: nat, limit: nat, best: nat)
    requires n <= |distances|
  {
    && best < n && distances[best] <= limit
    && (forall k :: 0 <= k < n ==> distances[best] <= distances[k])
    && (forall k :: 0 <= k < best ==> distances[best] < distances[k])
  }

  ghost predicate Nearest(distances: seq<nat>, n: nat, limit: nat, best: Option<nat>)
    requires n <= |distances|
  {
    if best.None? then forall k :: 0 <= k < n ==> distances[k] > limit else IsNearest(distances, n, limit, best.value)
  }

  lemma NearestNext(distances: seq<nat>, n: nat, limit: nat, best: Option<nat>)
    requires n < |distances| && Nearest(distances, n, limit, best)
    ensures Nearest(distances, n + 1, limit,
      if distances[n] <= limit && (best.None? || distances[n] < distances[best.value]) then Some(n) else best)
  {
  }

  ghost function Distances(written: string, keys: seq<string>): (r: seq<nat>)
    ensures |r| == |keys|
    ensures forall k :: 0 <= k < |keys| ==> r[k] == DistanceTo(written, keys[k])
  {
    seq(|keys|, k requires 0 <= k < |keys| => DistanceTo(written, keys[k]))
  }

  /** leme_config_nearest_key: the earliest of the keys nearest to what was written,
      and none exactly when no key is near enough. */
  method NearestKey(written: string, keys: seq<string>) returns (best: Option<nat>)
    ensures best.Some? ==> 0 < Limit(written) && IsNearest(Distances(written, keys), |keys|, Limit(written), best.value)
    ensures best.None? <==>
      Limit(written) == 0 || forall k :: 0 <= k < |keys| ==> Distances(written, keys)[k] > Limit(written)
  {
    best := None;
    var bestDistance := 0;
    var limit := |Prefix(written)| / 3;
    if limit > 2 {
      limit := 2;
    }
    if limit == 0 {
      return;
    }
    var index := 0;
    ghost var distances := Distances(written, keys);
    while index < |keys|
      invariant index <= |keys|
      invariant Nearest(distances, index, limit, best)
      invariant best.Some? ==> bestDistance == distances[best.value]
    {
      var distance := ComputeDistance(written, keys[index]);
      assert distance == distances[index];
      NearestNext(distances, index, limit, best);
      if distance <= limit && (best.None? || distance < bestDistance) {
        best := Some(index);
        bestDistance := distance;
      }
      index := index + 1;
    }
  }
}
