/** The trail table: which for and if constructs a directive came out of
    (expand.c), and the two walks that print it (render.c). */
module Trails {
  import opened Seqs

  /** Node indices are 16-bit; the last value is never handed out. */
  const MAX_NODES: nat := 65535

  datatype Kind = For | If

  /** One enclosing construct: the loop variable and its value, or the left side
      of a condition and the branch taken. */
  datatype Frame = Frame(kind: Kind, variable: string, value: string)

  datatype Node = Node(parent: nat, frame: Frame)

  /** Parents come before their children; node 0 stands for "no construct". */
  ghost predicate Forest(nodes: seq<Node>) {
    |nodes| <= MAX_NODES && forall i :: 0 < i < |nodes| ==> nodes[i].parent < i
  }

  ghost predicate IsIndex(nodes: seq<Node>, i: nat) {
    i == 0 || i < |nodes|
  }

  /** The constructs around a node, innermost first. */
  ghost function Chain(nodes: seq<Node>, i: nat): seq<Frame>
    requires Forest(nodes)
  {
    if i == 0 || i >= |nodes| then [] else [nodes[i].frame] + Chain(nodes, nodes[i].parent)
  }

  /** Growing the table never changes what an index already means. */
  lemma {:induction false} ChainStable(nodes: seq<Node>, nodes': seq<Node>, i: nat)
    requires Forest(nodes) && Forest(nodes') && nodes <= nodes' && IsIndex(nodes, i)
    ensures Chain(nodes', i) == Chain(nodes, i)
  {
    if i > 0 {
      ChainStable(nodes, nodes', nodes[i].parent);
    }
  }

  class TrailTable {
    var nodes: seq<Node>
    var capacity: nat

    /** Whether a node was ever dropped because the table was full. */
    ghost var dropped: bool

    ghost predicate Valid()
      reads this
    {
      && Forest(nodes)
      && |nodes| <= capacity <= MAX_NODES
      && (dropped ==> |nodes| == MAX_NODES)
    }

    constructor ()
      ensures Valid() && nodes == [] && !dropped
    {
      nodes, capacity, dropped := [], 0, false;
    }

    /** leme_trail_push. A full table hands out its last index instead of a new one. */
    method Push(parent: nat, frame: Frame) returns (index: nat)
      requires Valid() && IsIndex(nodes, parent)
      modifies this
      ensures Valid() && old(nodes) <= nodes && (old(dropped) ==> dropped)
      ensures index < |nodes| && 0 < index
      ensures dropped == (old(dropped) || |old(nodes)| == MAX_NODES)
      ensures !dropped ==> Chain(nodes, index) == [frame] + Chain(old(nodes), parent)
      ensures |nodes| <= (if old(nodes) == [] then 1 else |old(nodes)|) + 1
    {
      if |nodes| == 0 {
        capacity := 16;
        nodes := [Node(0, Frame(For, "", ""))];
      }
      if |nodes| >= MAX_NODES {
        dropped := true;
        return |nodes| - 1;
      }
      if |nodes| >= capacity {
        var doubled := capacity * 2;
        capacity := if doubled > MAX_NODES then MAX_NODES else doubled;
      }
      ghost var before := nodes;
      index := |nodes|;
      nodes := nodes + [Node(parent, frame)];
      ChainStable(before, nodes, parent);
      if old(nodes) != [] {
        assert before == old(nodes);
      }
    }

    /** leme_trail_table_get. */
    method Get(index: nat) returns (found: bool, node: Node)
      ensures found <==> 0 < index < |nodes|
      ensures found ==> node == nodes[index]
    {
      if index == 0 || index >= |nodes| {
        return false, Node(0, Frame(For, "", ""));
      }
      return true, nodes[index];
    }

    method Finish()
      modifies this
      ensures Valid() && nodes == []
    {
      nodes, capacity, dropped := [], 0, false;
    }
  }

  // ----- Printing a trail ---------------------------------------------------------

  /** What snprintf leaves in the 512-byte piece buffer. */
  function Clip(text: string): string {
    if |text| > 511 then text[..511] else text
  }

  function CompactPiece(f: Frame): string {
    Clip((if f.kind == For then "for " + f.variable + " = \"" else "if " + f.variable + " == \"") + f.value + "\"")
  }

  /** The first piece of a chain, with what separates it from the pieces before. */
  function SeparatedPiece(f: Frame, first: bool): string {
    (if first then "" else ", ") + CompactPiece(f)
  }

  /** The pieces of a chain, separated by commas; `first` says that none precedes. */
  function CompactTrail(chain: seq<Frame>, first: bool): string {
    if chain == [] then "" else SeparatedPiece(chain[0], first) + CompactTrail(chain[1..], false)
  }

  /** The pieces come in the order of the chain, with a comma before each but the first. */
  lemma {:induction false} CompactJoins(chain: seq<Frame>, f: Frame, first: bool)
    ensures CompactTrail(chain + [f], first) == CompactTrail(chain, first)
      + (if first && chain == [] then "" else ", ") + CompactPiece(f)
    decreases |chain|
  {
    if chain == [] {
      assert [] + [f] == [f] && [f][1..] == [];
    } else {
      assert (chain + [f])[1..] == chain[1..] + [f];
      CompactJoins(chain[1..], f, false);
      Associate(SeparatedPiece(chain[0], first), CompactTrail(chain[1..], false) + ", ", CompactPiece(f));
      Associate(SeparatedPiece(chain[0], first), CompactTrail(chain[1..], false), ", ");
    }
  }

  lemma CompactStep(before: string, f: Frame, rest: seq<Frame>, first: bool)
    ensures before + CompactTrail([f] + rest, first) == before + SeparatedPiece(f, first) + CompactTrail(rest, false)
  {
    HeadAndTail(f, rest);
    Associate(before, SeparatedPiece(f, first), CompactTrail(rest, false));
  }

  /** The parenthesis that render_compact appends: it stops on every table, and it
      names the enclosing constructs from the innermost outwards. */
  method RenderCompact(trails: TrailTable, trail: nat) returns (text: string)
    requires trails.Valid()
    ensures text == if trail == 0 then "" else " (" + CompactTrail(Chain(trails.nodes, trail), true) + ")"
  {
    var current := trail;
    if current == 0 {
      return "";
    }
    text := " (";
    var first := true;
    while current != 0
      invariant text + CompactTrail(Chain(trails.nodes, current), first)
        == " (" + CompactTrail(Chain(trails.nodes, trail), true)
      decreases current
    {
      var found, node := trails.Get(current);
      if !found {
        break;
      }
      CompactStep(text, node.frame, Chain(trails.nodes, node.parent), first);
      text := text + SeparatedPiece(node.frame, first);
      first := false;
      current := node.parent;
    }
    text := text + ")";
  }

  /** The note that render_rich prints for one construct. */
  function Note(f: Frame, indent: nat): string {
    Clip(seq(indent, _ => ' ') +
      if f.kind == For then "= note: expanded from `for " + f.variable + "`, iteration \"" + f.value + "\"\n"
      else "= note: expanded from the " + f.value + " branch of `if " + f.variable + "`\n")
  }

  // A diagnostic that stands for several iterations of a loop lists them.

  /** The value of an iteration, by its node. */
  function ValueAt(nodes: seq<Node>, index: nat): string {
    if 0 < index < |nodes| then nodes[index].frame.value else ""
  }

  /** What stands before value `k` of `count`: commas, and "and" before the last. */
  function Separator(k: nat, count: nat): string {
    if k == 0 then "" else if count == 2 then " and " else if k == count - 1 then ", and " else ", "
  }

  /** The values from `k` on, quoted and separated. */
  function Listed(values: seq<string>, k: nat): string
    requires k <= |values|
    decreases |values| - k
  {
    if k == |values| then "" else Separator(k, |values|) + ("\"" + values[k] + "\"") + Listed(values, k + 1)
  }

  function Quoted(value: string): string {
    "\"" + value + "\""
  }

  /** Quoted values with commas between them. */
  function Commas(values: seq<string>): string {
    if values == [] then ""
    else if |values| == 1 then Quoted(values[0])
    else Commas(values[..|values| - 1]) + ", " + Quoted(values[|values| - 1])
  }

  /** Two values have "and" between them. */
  lemma ListedPair(a: string, b: string)
    ensures Listed([a, b], 0) == Quoted(a) + " and " + Quoted(b)
  {
    LastListed([a, b]);
    Associate(Quoted(a), " and ", Quoted(b));
  }

  /** More have commas between them, and ", and " before the last. */
  lemma ListedMany(values: seq<string>, last: nat)
    requires |values| == last + 1 > 2
    ensures Listed(values, 0) == Commas(values[..last]) + ", and " + Quoted(values[last])
  {
    LastListed(values);
    ListedSplits(values, last);
    Associate(Commas(values[..last]), ", and ", Quoted(values[last]));
  }

  lemma LastListed(values: seq<string>)
    requires values != []
    ensures var last := |values| - 1; Listed(values, last) == Separator(last, |values|) + Quoted(values[last])
  {
    assert Listed(values, |values|) == "";
  }

  lemma {:induction false} ListedSplits(values: seq<string>, k: nat)
    requires 0 < k < |values| && |values| > 2
    ensures Listed(values, 0) == Commas(values[..k]) + Listed(values, k)
  {
    ListedStep(Commas(values[..k - 1]), values, k - 1);
    assert values[..k][..k - 1] == values[..k - 1];
    if k == 1 {
      assert values[..1] == [values[0]] && Listed(values, 0) == "" + Listed(values, 0);
    } else {
      ListedSplits(values, k - 1);
    }
  }

  function ValuesAt(nodes: seq<Node>, iterations: seq<nat>): (values: seq<string>)
    ensures |values| == |iterations|
  {
    seq(|iterations|, k requires 0 <= k < |iterations| => ValueAt(nodes, iterations[k]))
  }

  /** leme_render_format_iterations. */
  method FormatIterations(trails: TrailTable, iterations: seq<nat>) returns (text: string)
    ensures text == Listed(ValuesAt(trails.nodes, iterations), 0)
  {
    text := "";
    ghost var values := ValuesAt(trails.nodes, iterations);
    for index := 0 to |iterations|
      invariant text + Listed(values, index) == Listed(values, 0)
    {
      var found, node := trails.Get(iterations[index]);
      var value := if found then node.frame.value else "";
      ListedStep(text, values, index);
      if index > 0 {
        if |iterations| == 2 {
          text := text + " and ";
        } else if index == |iterations| - 1 {
          text := text + ", and ";
        } else {
          text := text + ", ";
        }
      }
      text := text + ("\"" + value + "\"");
    }
  }

  lemma ListedStep(before: string, values: seq<string>, k: nat)
    requires k < |values|
    ensures before + Listed(values, k)
      == before + Separator(k, |values|) + ("\"" + values[k] + "\"") + Listed(values, k + 1)
    ensures before + "" == before
  {
    var sep, quoted, rest := Separator(k, |values|), "\"" + values[k] + "\"", Listed(values, k + 1);
    Associate(before, sep + quoted, rest);
    Associate(before, sep, quoted);
  }

  /** The note for the innermost construct when the diagnostic lists iterations: a
      single one is named by its own node, several by their values. */
  function MergedNote(nodes: seq<Node>, f: Frame, iterations: seq<nat>, indent: nat): string
    requires iterations != []
  {
    var only := if 0 < iterations[0] < |nodes| then nodes[iterations[0]].frame else f;
    Clip(seq(indent, _ => ' ') +
      if |iterations| == 1
      then "= note: expanded from `for " + only.variable + "`, iteration \"" + only.value + "\"\n"
      else
        "= note: expanded from `for " + f.variable + "`, iterations " + Listed(ValuesAt(nodes, iterations), 0) + "\n")
  }

  /** The notes of a chain; only the innermost one speaks of the iterations. */
  function Notes(nodes: seq<Node>, chain: seq<Frame>, innermost: bool, iterations: seq<nat>, indent: nat): seq<string> {
    if chain == [] then []
    else
      var note := if innermost && iterations != [] then MergedNote(nodes, chain[0], iterations, indent)
                  else Note(chain[0], indent);
      [note] + Notes(nodes, chain[1..], false, iterations, indent)
  }

  lemma NotesStep(before: seq<string>, nodes: seq<Node>, f: Frame, rest: seq<Frame>, innermost: bool,
      iterations: seq<nat>, indent: nat)
    ensures var note := if innermost && iterations != [] then MergedNote(nodes, f, iterations, indent)
                        else Note(f, indent);
      before + Notes(nodes, [f] + rest, innermost, iterations, indent)
      == before + [note] + Notes(nodes, rest, false, iterations, indent)
  {
    HeadAndTail(f, rest);
  }

  method RenderMergedNote(trails: TrailTable, node: Node, iterations: seq<nat>, indent: nat) returns (note: string)
    requires iterations != []
    ensures note == MergedNote(trails.nodes, node.frame, iterations, indent)
  {
    var margin := seq(indent, _ => ' ');
    if |iterations| == 1 {
      var found, only := trails.Get(iterations[0]);
      var frame := if found then only.frame else node.frame;
      note := Clip(margin
        + ("= note: expanded from `for " + frame.variable + "`, iteration \"" + frame.value + "\"\n"));
    } else {
      var listed := FormatIterations(trails, iterations);
      note := Clip(margin + ("= note: expanded from `for " + node.frame.variable + "`, iterations " + listed + "\n"));
    }
  }

  /** The notes of render_rich, innermost construct first. */
  method RenderNotes(trails: TrailTable, trail: nat, iterations: seq<nat>, indent: nat) returns (notes: seq<string>)
    requires trails.Valid()
    ensures notes == Notes(trails.nodes, Chain(trails.nodes, trail), true, iterations, indent)
  {
    notes := [];
    var current, innermost := trail, true;
    while current != 0
      invariant notes + Notes(trails.nodes, Chain(trails.nodes, current), innermost, iterations, indent)
        == Notes(trails.nodes, Chain(trails.nodes, trail), true, iterations, indent)
      decreases current
    {
      var found, node := trails.Get(current);
      if !found {
        break;
      }
      NotesStep(notes, trails.nodes, node.frame, Chain(trails.nodes, node.parent), innermost, iterations, indent);
      var note;
      if innermost && iterations != [] {
        note := RenderMergedNote(trails, node, iterations, indent);
      } else {
        note := Note(node.frame, indent);
      }
      notes := notes + [note];
      innermost := false;
      current := node.parent;
    }
  }
}
