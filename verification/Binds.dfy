/** Inheritance of key bindings (parse.c): a memoised depth-first search over
    named groups, with cycle detection, overriding and conflicts. */
module Binds {
  import opened Options

  datatype Key = Key(modifiers: nat, keysym: nat)

  /** `setsMode` tells whether the command switches the binding mode. */
  datatype Binding = Binding(key: Key, command: string, setsMode: bool)

  /** A group as it was parsed; the groups that are modes can be switched to. */
  datatype Group = Group(name: string, isMode: bool, escapeExits: bool, inherits: seq<string>, bindings: seq<Binding>)

  /** A resolved binding, and the group it was written in. */
  datatype Entry = Entry(binding: Binding, origin: nat)

  /** The first group of that name. */
  function Find(groups: seq<Group>, name: string): (r: Option<nat>)
    ensures r.Some? ==> r.value < |groups| && groups[r.value].name == name
    ensures r.Some? ==> forall k :: 0 <= k < r.value ==> groups[k].name != name
    ensures r.None? ==> forall k :: 0 <= k < |groups| ==> groups[k].name != name
  {
    if groups == [] then None
    else if groups[0].name == name then Some(0)
    else
      var r := Find(groups[1..], name);
      if r.None? then None else Some(r.value + 1)
  }

  // ----- What resolution promises, in terms of paths ------------------------------------

  ghost predicate HasKey(groups: seq<Group>, g: nat, key: Key) {
    g < |groups| && exists i :: 0 <= i < |groups[g].bindings| && groups[g].bindings[i].key == key
  }

  ghost predicate Inherits(groups: seq<Group>, g: nat, parent: nat) {
    g < |groups| && exists i :: 0 <= i < |groups[g].inherits| && Find(groups, groups[g].inherits[i]) == Some(parent)
  }

  /** A chain of inheritance. */
  ghost predicate Path(groups: seq<Group>, p: seq<nat>) {
    && |p| > 0 && p[0] < |groups|
    && (|p| == 1 || (Inherits(groups, p[0], p[1]) && Path(groups, p[1..])))
  }

  /** A chain along which `key` is written in the last group and in none before it. */
  ghost predicate Origin(groups: seq<Group>, p: seq<nat>, key: Key) {
    && Path(groups, p)
    && if |p| == 1 then HasKey(groups, p[0], key) else !HasKey(groups, p[0], key) && Origin(groups, p[1..], key)
  }

  ghost predicate Joins(p: seq<nat>, g: nat, h: nat) {
    |p| > 0 && p[0] == g && p[|p| - 1] == h
  }

  ghost predicate Reaches(groups: seq<Group>, g: nat, h: nat) {
    exists p :: Path(groups, p) && Joins(p, g, h)
  }

  /** `key`, seen from `g`, can come from `origin`. */
  ghost predicate Provides(groups: seq<Group>, g: nat, key: Key, origin: nat) {
    exists p :: Origin(groups, p, key) && Joins(p, g, origin)
  }

  ghost predicate OnCycle(groups: seq<Group>, g: nat) {
    exists parent :: Inherits(groups, g, parent) && Reaches(groups, parent, g)
  }

  ghost predicate ParentsExist(groups: seq<Group>, g: nat)
    requires g < |groups|
  {
    forall i :: 0 <= i < |groups[g].inherits| ==>
      var parent := Find(groups, groups[g].inherits[i]);
      parent.Some? && !groups[parent.value].isMode
  }

  /** No key reaches `g` from two different groups through its parents, even one
      that `g` writes itself. */
  ghost predicate ParentsAgree(groups: seq<Group>, g: nat) {
    forall a: nat, b: nat, key, o: nat, o': nat
      | Inherits(groups, g, a) && Inherits(groups, g, b) && Provides(groups, a, key, o) && Provides(groups, b, key, o')
      :: o == o'
  }

  /** Everything that can be reached from `g` is in order. */
  ghost predicate WellFormed(groups: seq<Group>, g: nat) {
    forall h: nat :: Reaches(groups, g, h) ==>
      h < |groups| && ParentsExist(groups, h) && !OnCycle(groups, h) && ParentsAgree(groups, h)
  }

  // ----- Paths ------------------------------------------------------------------------------

  lemma ReachesSelf(groups: seq<Group>, g: nat)
    requires g < |groups|
    ensures Reaches(groups, g, g)
  {
    assert Path(groups, [g]) && Joins([g], g, g);
  }

  lemma ReachesThrough(groups: seq<Group>, g: nat, parent: nat, h: nat)
    requires Inherits(groups, g, parent) && Reaches(groups, parent, h)
    ensures Reaches(groups, g, h)
  {
    var p :| Path(groups, p) && Joins(p, parent, h);
    var q := [g] + p;
    assert q[1..] == p;
    assert Path(groups, q) && Joins(q, g, h);
  }

  lemma ReachesStep(groups: seq<Group>, g: nat, h: nat) returns (parent: nat)
    requires Reaches(groups, g, h) && g != h
    ensures Inherits(groups, g, parent) && Reaches(groups, parent, h)
  {
    var p :| Path(groups, p) && Joins(p, g, h);
    parent := p[1];
    assert Path(groups, p[1..]) && Joins(p[1..], parent, h);
  }

  lemma OwnIsProvided(groups: seq<Group>, g: nat, key: Key, origin: nat)
    requires HasKey(groups, g, key)
    ensures Provides(groups, g, key, origin) <==> origin == g
  {
    assert Origin(groups, [g], key) && Joins([g], g, g);
    if Provides(groups, g, key, origin) {
      var p :| Origin(groups, p, key) && Joins(p, g, origin);
      assert |p| == 1;
    }
  }

  lemma ProvidedThrough(groups: seq<Group>, g: nat, parent: nat, key: Key, origin: nat)
    requires !HasKey(groups, g, key) && Inherits(groups, g, parent) && Provides(groups, parent, key, origin)
    ensures Provides(groups, g, key, origin)
  {
    var p :| Origin(groups, p, key) && Joins(p, parent, origin);
    var q := [g] + p;
    assert q[1..] == p;
    assert Origin(groups, q, key) && Joins(q, g, origin);
  }

  lemma ProvidedStep(groups: seq<Group>, g: nat, key: Key, origin: nat) returns (parent: nat)
    requires !HasKey(groups, g, key) && Provides(groups, g, key, origin)
    ensures Inherits(groups, g, parent) && Provides(groups, parent, key, origin)
  {
    var p :| Origin(groups, p, key) && Joins(p, g, origin);
    parent := p[1];
    assert Origin(groups, p[1..], key) && Joins(p[1..], parent, origin);
  }

  lemma {:induction false} OriginIsReached(groups: seq<Group>, g: nat, key: Key, origin: nat)
    requires Provides(groups, g, key, origin)
    ensures Reaches(groups, g, origin)
  {
    var p :| Origin(groups, p, key) && Joins(p, g, origin);
    assert Path(groups, p);
  }

  lemma WellFormedParent(groups: seq<Group>, g: nat, parent: nat)
    requires WellFormed(groups, g) && Inherits(groups, g, parent)
    ensures WellFormed(groups, parent)
  {
    forall h: nat | Reaches(groups, parent, h) ensures Reaches(groups, g, h) {
      ReachesThrough(groups, g, parent, h);
    }
  }

  // ----- Resolving without memory -------------------------------------------------------------

  /** The entry of a key. */
  function IndexOf(entries: seq<Entry>, key: Key): (r: Option<nat>)
    ensures r.Some? ==> r.value < |entries| && entries[r.value].binding.key == key
    ensures r.Some? ==> forall k :: 0 <= k < r.value ==> entries[k].binding.key != key
    ensures r.None? ==> forall k :: 0 <= k < |entries| ==> entries[k].binding.key != key
  {
    if entries == [] then None
    else if entries[0].binding.key == key then Some(0)
    else
      var r := IndexOf(entries[1..], key);
      if r.None? then None else Some(r.value + 1)
  }

  function OriginOf(entries: seq<Entry>, key: Key): Option<nat> {
    var i := IndexOf(entries, key);
    if i.None? then None else Some(entries[i.value].origin)
  }

  /** leme_bind_group_append for the group `self`. */
  function Append(entries: seq<Entry>, e: Entry, self: nat): Option<seq<Entry>> {
    var i := IndexOf(entries, e.binding.key);
    if i.None? then Some(entries + [e])
    else if entries[i.value].origin == e.origin then Some(entries)
    else if e.origin != self then None
    else Some(entries[i.value := e])
  }

  function AppendAll(entries: seq<Entry>, more: seq<Entry>, self: nat): Option<seq<Entry>>
    decreases |more|
  {
    if more == [] then Some(entries)
    else
      var first := Append(entries, more[0], self);
      if first.None? then None else AppendAll(first.value, more[1..], self)
  }

  function OwnEntries(bindings: seq<Binding>, g: nat): (r: seq<Entry>)
    ensures |r| == |bindings|
    ensures forall k :: 0 <= k < |bindings| ==> r[k] == Entry(bindings[k], g)
  {
    seq(|bindings|, k requires 0 <= k < |bindings| => Entry(bindings[k], g))
  }

  lemma {:induction false} FewerIndices(n: nat, s: set<nat>)
    requires forall k :: k in s ==> k < n
    ensures |s| <= n
    decreases n
  {
    if n > 0 {
      FewerIndices(n - 1, s - {n - 1});
    } else {
      assert s == {};
    }
  }

  ghost predicate InRange(groups: seq<Group>, visiting: set<nat>) {
    forall k :: k in visiting ==> k < |groups|
  }

  /** What `g` resolves to while the groups in `visiting` are being resolved;
      nothing if it leads back to one of them or breaks another rule. */
  ghost function Meaning(groups: seq<Group>, g: nat, visiting: set<nat>): Option<seq<Entry>>
    requires g < |groups| && InRange(groups, visiting)
    decreases |groups| - |visiting|, 1, 0
  {
    if g in visiting then None
    else
      FewerIndices(|groups|, visiting + {g});
      var inherited := Inherited(groups, g, visiting + {g}, 0, []);
      if inherited.None? then None
      else AppendAll(inherited.value, OwnEntries(groups[g].bindings, g), g)
  }

  /** The entries of the parents from number `i` on, added to `entries`. */
  ghost function Inherited(groups: seq<Group>, g: nat, visiting: set<nat>, i: nat, entries: seq<Entry>)
    : Option<seq<Entry>>
    requires g < |groups| && InRange(groups, visiting) && i <= |groups[g].inherits|
    decreases |groups| - |visiting|, 2, |groups[g].inherits| - i
  {
    if i == |groups[g].inherits| then Some(entries)
    else
      var parent := Find(groups, groups[g].inherits[i]);
      if parent.None? || groups[parent.value].isMode then None
      else
        var resolved := Meaning(groups, parent.value, visiting);
        if resolved.None? then None
        else
          var more := AppendAll(entries, resolved.value, g);
          if more.None? then None else Inherited(groups, g, visiting, i + 1, more.value)
  }

  // ----- Lists of entries -----------------------------------------------------------------------

  ghost predicate Distinct(entries: seq<Entry>) {
    forall i, j :: 0 <= i < j < |entries| ==> entries[i].binding.key != entries[j].binding.key
  }

  /** Every entry is a binding of the group it names. */
  ghost predicate Genuine(groups: seq<Group>, entries: seq<Entry>) {
    forall i :: 0 <= i < |entries| ==>
      entries[i].origin < |groups| && entries[i].binding in groups[entries[i].origin].bindings
  }

  lemma IndexIs(entries: seq<Entry>, i: nat)
    requires Distinct(entries) && i < |entries|
    ensures IndexOf(entries, entries[i].binding.key) == Some(i)
  {
  }

  lemma AppendOrigin(entries: seq<Entry>, e: Entry, self: nat, key: Key)
    requires Distinct(entries)
    ensures var r := Append(entries, e, self);
      var old' := OriginOf(entries, e.binding.key);
      && (r.None? <==> old'.Some? && old'.value != e.origin && e.origin != self)
      && (r.Some? ==> Distinct(r.value))
      && (r.Some? ==> OriginOf(r.value, key) == if key == e.binding.key then Some(e.origin) else OriginOf(entries, key))
  {
    var r := Append(entries, e, self);
    if r.Some? {
      var i, j := IndexOf(entries, key), IndexOf(entries, e.binding.key);
      if key == e.binding.key {
        IndexIs(r.value, if j.None? then |entries| else j.value);
      } else if i.Some? {
        assert r.value[i.value] == entries[i.value];
        IndexIs(r.value, i.value);
      } else {
        assert IndexOf(r.value, key).None?;
      }
    }
  }

  lemma AppendGenuine(groups: seq<Group>, entries: seq<Entry>, e: Entry, self: nat)
    requires Genuine(groups, entries) && Genuine(groups, [e])
    ensures var r := Append(entries, e, self); r.Some? ==> Genuine(groups, r.value)
  {
    assert [e][0] == e;
  }

  ghost predicate Compatible(a: seq<Entry>, b: seq<Entry>) {
    forall key :: OriginOf(a, key).Some? && OriginOf(b, key).Some? ==> OriginOf(a, key) == OriginOf(b, key)
  }

  ghost predicate MergedFrom(r: seq<Entry>, a: seq<Entry>, b: seq<Entry>) {
    forall key :: OriginOf(r, key) == if OriginOf(b, key).Some? then OriginOf(b, key) else OriginOf(a, key)
  }

  /** Merging a parent fails exactly on a key with two origins. */
  lemma {:induction false} AppendInherited(groups: seq<Group>, entries: seq<Entry>, more: seq<Entry>, self: nat)
    requires Distinct(entries) && Distinct(more) && forall k :: 0 <= k < |more| ==> more[k].origin != self
    requires Genuine(groups, entries) && Genuine(groups, more)
    ensures var r := AppendAll(entries, more, self);
      && (r.Some? <==> Compatible(entries, more))
      && (r.Some? ==> Distinct(r.value) && Genuine(groups, r.value) && MergedFrom(r.value, entries, more))
    decreases |more|
  {
    if more != [] {
      var e, rest := more[0], more[1..];
      var first := Append(entries, e, self);
      IndexIs(more, 0);
      forall key ensures OriginOf(more, key) == if key == e.binding.key then Some(e.origin) else OriginOf(rest, key) {
      }
      assert OriginOf(rest, e.binding.key).None?;
      AppendOrigin(entries, e, self, e.binding.key);
      if first.Some? {
        forall key ensures OriginOf(first.value, key)
          == if key == e.binding.key then Some(e.origin) else OriginOf(entries, key) {
          AppendOrigin(entries, e, self, key);
        }
        assert Genuine(groups, [e]);
        AppendGenuine(groups, entries, e, self);
        AppendInherited(groups, first.value, rest, self);
        assert Compatible(first.value, rest) <==> Compatible(entries, more);
      }
    }
  }

  ghost predicate Writes(bindings: seq<Binding>, key: Key) {
    exists i :: 0 <= i < |bindings| && bindings[i].key == key
  }

  /** `g` for the keys that are written here, and what is inherited for the rest. */
  ghost function OwnOr(bindings: seq<Binding>, key: Key, g: nat, inherited: seq<Entry>): Option<nat> {
    if Writes(bindings, key) then Some(g) else OriginOf(inherited, key)
  }

  /** A group's own bindings are always accepted and hide what was inherited. */
  lemma {:induction false} AppendOwn(groups: seq<Group>, entries: seq<Entry>, bindings: seq<Binding>, g: nat)
    requires Distinct(entries) && Genuine(groups, entries) && g < |groups|
    requires forall k :: 0 <= k < |bindings| ==> bindings[k] in groups[g].bindings
    ensures var r := AppendAll(entries, OwnEntries(bindings, g), g);
      && r.Some? && Distinct(r.value) && Genuine(groups, r.value)
      && forall key :: OriginOf(r.value, key) == OwnOr(bindings, key, g, entries)
    decreases |bindings|
  {
    if bindings != [] {
      var e, rest := Entry(bindings[0], g), bindings[1..];
      var first := Append(entries, e, g);
      assert OwnEntries(bindings, g)[1..] == OwnEntries(rest, g);
      AppendOrigin(entries, e, g, e.binding.key);
      forall key ensures OriginOf(first.value, key)
        == if key == e.binding.key then Some(g) else OriginOf(entries, key) {
        AppendOrigin(entries, e, g, key);
      }
      assert Genuine(groups, [e]);
      AppendGenuine(groups, entries, e, g);
      AppendOwn(groups, first.value, rest, g);
      forall key ensures Writes(bindings, key) <==> key == e.binding.key || Writes(rest, key) {
        if Writes(rest, key) {
          var i :| 0 <= i < |rest| && rest[i].key == key;
          assert bindings[i + 1].key == key;
        }
        if Writes(bindings, key) && key != e.binding.key {
          var i :| 0 <= i < |bindings| && bindings[i].key == key;
          assert rest[i - 1].key == key;
        }
      }
    }
  }

  // ----- Resolution keeps its promise -----------------------------------------------------------

  ghost predicate Avoids(groups: seq<Group>, g: nat, visiting: set<nat>) {
    forall h: nat :: Reaches(groups, g, h) ==> h !in visiting
  }

  /** The entries are exactly what the paths from `g` provide. */
  ghost predicate Provided(groups: seq<Group>, g: nat, entries: seq<Entry>) {
    forall key, o: nat :: Provides(groups, g, key, o) <==> OriginOf(entries, key) == Some(o)
  }

  /** Some parent from number `i` on provides `key` from `o`. */
  ghost predicate ParentProvides(groups: seq<Group>, g: nat, i: nat, key: Key, o: nat) {
    g < |groups| && exists j :: i <= j < |groups[g].inherits| && ProvidedBy(groups, groups[g].inherits[j], key, o)
  }

  ghost predicate ProvidedBy(groups: seq<Group>, name: string, key: Key, o: nat) {
    var parent := Find(groups, name);
    parent.Some? && Provides(groups, parent.value, key, o)
  }

  /** The parents from number `i` on are in order, and clear of `visiting`. */
  ghost predicate GoodParents(groups: seq<Group>, g: nat, i: nat, visiting: set<nat>)
    requires g < |groups|
  {
    forall j :: i <= j < |groups[g].inherits| ==> GoodParent(groups, groups[g].inherits[j], visiting)
  }

  ghost predicate GoodParent(groups: seq<Group>, name: string, visiting: set<nat>) {
    var parent := Find(groups, name);
    parent.Some? && !groups[parent.value].isMode && WellFormed(groups, parent.value)
    && Avoids(groups, parent.value, visiting)
  }

  lemma ParentProvidesStep(groups: seq<Group>, g: nat, i: nat, key: Key, o: nat)
    requires g < |groups| && i < |groups[g].inherits|
    ensures ParentProvides(groups, g, i, key, o)
      <==> ProvidedBy(groups, groups[g].inherits[i], key, o) || ParentProvides(groups, g, i + 1, key, o)
  {
    if ParentProvides(groups, g, i, key, o) {
      var j :| i <= j < |groups[g].inherits| && ProvidedBy(groups, groups[g].inherits[j], key, o);
      assert j == i || i + 1 <= j;
    }
  }

  /** No origin of a parent's entry is a group being resolved. */
  lemma OriginsAvoid(groups: seq<Group>, parent: nat, entries: seq<Entry>, visiting: set<nat>)
    requires Provided(groups, parent, entries) && Avoids(groups, parent, visiting) && Distinct(entries)
    ensures forall k :: 0 <= k < |entries| ==> entries[k].origin !in visiting
  {
    forall k | 0 <= k < |entries| ensures entries[k].origin !in visiting {
      IndexIs(entries, k);
      assert OriginOf(entries, entries[k].binding.key) == Some(entries[k].origin);
      OriginIsReached(groups, parent, entries[k].binding.key, entries[k].origin);
    }
  }

  /** Two origins for one key, among the entries so far and the parents to come,
      are never accepted. */
  ghost predicate OneOrigin(groups: seq<Group>, g: nat, i: nat, entries: seq<Entry>) {
    && (forall key, o: nat :: ParentProvides(groups, g, i, key, o) && OriginOf(entries, key).Some? ==>
      OriginOf(entries, key) == Some(o))
    && (forall key, o: nat, o': nat ::
      ParentProvides(groups, g, i, key, o) && ParentProvides(groups, g, i, key, o') ==> o == o')
  }

  ghost predicate FromParents(groups: seq<Group>, g: nat, i: nat, entries: seq<Entry>, r: seq<Entry>) {
    forall key, o: nat :: OriginOf(r, key) == Some(o)
      <==> OriginOf(entries, key) == Some(o) || ParentProvides(groups, g, i, key, o)
  }

  lemma {:induction false} InheritedSound(groups: seq<Group>, g: nat, visiting: set<nat>, i: nat, entries: seq<Entry>)
    requires g < |groups| && InRange(groups, visiting) && i <= |groups[g].inherits| && g in visiting
    requires Distinct(entries) && Genuine(groups, entries)
    requires Inherited(groups, g, visiting, i, entries).Some?
    ensures var r := Inherited(groups, g, visiting, i, entries).value;
      Distinct(r) && Genuine(groups, r) && FromParents(groups, g, i, entries, r)
    ensures GoodParents(groups, g, i, visiting) && OneOrigin(groups, g, i, entries)
    decreases |groups| - |visiting|, 2, |groups[g].inherits| - i
  {
    var r := Inherited(groups, g, visiting, i, entries).value;
    if i < |groups[g].inherits| {
      var name := groups[g].inherits[i];
      var parent := Find(groups, name).value;
      var resolved := Meaning(groups, parent, visiting).value;
      MeaningSound(groups, parent, visiting);
      OriginsAvoid(groups, parent, resolved, visiting);
      AppendInherited(groups, entries, resolved, g);
      var more := AppendAll(entries, resolved, g).value;
      InheritedSound(groups, g, visiting, i + 1, more);
      assert GoodParent(groups, name, visiting);
      OriginsStep(groups, g, i, entries, resolved, more, r);
    }
  }

  /** What holds for the parents after number `i` holds for number `i` as well. */
  lemma OriginsStep(groups: seq<Group>, g: nat, i: nat, entries: seq<Entry>, resolved: seq<Entry>, more: seq<Entry>,
      r: seq<Entry>)
    requires g < |groups| && i < |groups[g].inherits| && Find(groups, groups[g].inherits[i]).Some?
    requires Provided(groups, Find(groups, groups[g].inherits[i]).value, resolved)
    requires MergedFrom(more, entries, resolved) && Compatible(entries, resolved)
    requires FromParents(groups, g, i + 1, more, r) && OneOrigin(groups, g, i + 1, more)
    ensures FromParents(groups, g, i, entries, r) && OneOrigin(groups, g, i, entries)
  {
    forall key, o: nat
      ensures ParentProvides(groups, g, i, key, o) <==>
        OriginOf(resolved, key) == Some(o) || ParentProvides(groups, g, i + 1, key, o)
    {
      ParentProvidesStep(groups, g, i, key, o);
    }
    forall key, o: nat
      ensures OriginOf(r, key) == Some(o) <==> OriginOf(entries, key) == Some(o) || ParentProvides(groups, g, i, key, o)
      ensures ParentProvides(groups, g, i, key, o) && OriginOf(entries, key).Some? ==> OriginOf(entries, key) == Some(o)
      ensures ParentProvides(groups, g, i, key, o) ==> OriginOf(r, key) == Some(o)
    {
      assert OriginOf(more, key)
        == if OriginOf(resolved, key).Some? then OriginOf(resolved, key) else OriginOf(entries, key);
    }
  }

  lemma {:induction false} MeaningSound(groups: seq<Group>, g: nat, visiting: set<nat>)
    requires g < |groups| && InRange(groups, visiting) && Meaning(groups, g, visiting).Some?
    ensures var entries := Meaning(groups, g, visiting).value;
      Distinct(entries) && Genuine(groups, entries) && Provided(groups, g, entries)
    ensures WellFormed(groups, g) && Avoids(groups, g, visiting)
    decreases |groups| - |visiting|, 1, 0
  {
    var inner := visiting + {g};
    FewerIndices(|groups|, inner);
    InheritedSound(groups, g, inner, 0, []);
    var inherited := Inherited(groups, g, inner, 0, []).value;
    AppendOwn(groups, inherited, groups[g].bindings, g);
    var entries := Meaning(groups, g, visiting).value;
    ProvidedHere(groups, g, inherited, entries);
    WellFormedHere(groups, g, inner);
  }

  lemma ParentProvidesIs(groups: seq<Group>, g: nat, key: Key, o: nat)
    requires g < |groups|
    ensures ParentProvides(groups, g, 0, key, o)
      <==> exists parent: nat :: Inherits(groups, g, parent) && Provides(groups, parent, key, o)
  {
    if ParentProvides(groups, g, 0, key, o) {
      var j :| 0 <= j < |groups[g].inherits| && ProvidedBy(groups, groups[g].inherits[j], key, o);
      assert Inherits(groups, g, Find(groups, groups[g].inherits[j]).value);
    }
    if parent: nat :| Inherits(groups, g, parent) && Provides(groups, parent, key, o) {
      var j :| 0 <= j < |groups[g].inherits| && Find(groups, groups[g].inherits[j]) == Some(parent);
      assert ProvidedBy(groups, groups[g].inherits[j], key, o);
    }
  }

  /** Own bindings over inherited ones are what the paths provide. */
  lemma ProvidedHere(groups: seq<Group>, g: nat, inherited: seq<Entry>, entries: seq<Entry>)
    requires g < |groups| && FromParents(groups, g, 0, [], inherited)
    requires forall key :: OriginOf(entries, key) == OwnOr(groups[g].bindings, key, g, inherited)
    ensures Provided(groups, g, entries)
  {
    forall key, o: nat ensures Provides(groups, g, key, o) <==> OriginOf(entries, key) == Some(o) {
      assert HasKey(groups, g, key) <==> Writes(groups[g].bindings, key);
      if HasKey(groups, g, key) {
        OwnIsProvided(groups, g, key, o);
      } else {
        ParentProvidesIs(groups, g, key, o);
        if Provides(groups, g, key, o) {
          var parent := ProvidedStep(groups, g, key, o);
        }
        if parent: nat :| Inherits(groups, g, parent) && Provides(groups, parent, key, o) {
          ProvidedThrough(groups, g, parent, key, o);
        }
      }
    }
  }

  lemma GoodParentOf(groups: seq<Group>, g: nat, visiting: set<nat>, parent: nat)
    requires g < |groups| && GoodParents(groups, g, 0, visiting) && Inherits(groups, g, parent)
    ensures parent < |groups| && !groups[parent].isMode
    ensures WellFormed(groups, parent) && Avoids(groups, parent, visiting)
  {
    var j :| 0 <= j < |groups[g].inherits| && Find(groups, groups[g].inherits[j]) == Some(parent);
    assert GoodParent(groups, groups[g].inherits[j], visiting);
  }

  /** If the parents are in order, lead neither to `visiting` nor back to `g`, and
      agree, then `g` is in order. */
  lemma WellFormedHere(groups: seq<Group>, g: nat, visiting: set<nat>)
    requires g < |groups| && g in visiting && GoodParents(groups, g, 0, visiting) && OneOrigin(groups, g, 0, [])
    ensures WellFormed(groups, g) && Avoids(groups, g, visiting - {g})
  {
    forall h: nat | Reaches(groups, g, h) && h != g
      ensures h !in visiting && h < |groups| && ParentsExist(groups, h)
      ensures !OnCycle(groups, h) && ParentsAgree(groups, h)
    {
      var parent := ReachesStep(groups, g, h);
      GoodParentOf(groups, g, visiting, parent);
    }
    forall i | 0 <= i < |groups[g].inherits|
      ensures var parent := Find(groups, groups[g].inherits[i]); parent.Some? && !groups[parent.value].isMode
    {
      assert GoodParent(groups, groups[g].inherits[i], visiting);
    }
    if OnCycle(groups, g) {
      var parent: nat :| Inherits(groups, g, parent) && Reaches(groups, parent, g);
      GoodParentOf(groups, g, visiting, parent);
    }
    forall a: nat, b: nat, key, o: nat, o': nat
      | Inherits(groups, g, a) && Inherits(groups, g, b) && Provides(groups, a, key, o) && Provides(groups, b, key, o')
      ensures o == o'
    {
      ParentProvidesIs(groups, g, key, o);
      ParentProvidesIs(groups, g, key, o');
    }
  }

  /** Whatever is in order resolves. */
  lemma {:induction false} MeaningComplete(groups: seq<Group>, g: nat, visiting: set<nat>)
    requires g < |groups| && InRange(groups, visiting) && WellFormed(groups, g) && Avoids(groups, g, visiting)
    ensures Meaning(groups, g, visiting).Some?
    decreases |groups| - |visiting|, 1, 0
  {
    var inner := visiting + {g};
    FewerIndices(|groups|, inner);
    ReachesSelf(groups, g);
    forall j | 0 <= j < |groups[g].inherits| ensures GoodParent(groups, groups[g].inherits[j], inner) {
      var parent := Find(groups, groups[g].inherits[j]).value;
      assert Inherits(groups, g, parent);
      WellFormedParent(groups, g, parent);
      forall h: nat | Reaches(groups, parent, h) ensures h !in inner {
        ReachesThrough(groups, g, parent, h);
      }
    }
    forall key, o: nat, o': nat | ParentProvides(groups, g, 0, key, o) && ParentProvides(groups, g, 0, key, o')
      ensures o == o'
    {
      ParentProvidesIs(groups, g, key, o);
      ParentProvidesIs(groups, g, key, o');
    }
    InheritedComplete(groups, g, inner, 0, []);
    InheritedSound(groups, g, inner, 0, []);
    AppendOwn(groups, Inherited(groups, g, inner, 0, []).value, groups[g].bindings, g);
  }

  lemma {:induction false} InheritedComplete(groups: seq<Group>, g: nat, visiting: set<nat>, i: nat,
      entries: seq<Entry>)
    requires g < |groups| && InRange(groups, visiting) && i <= |groups[g].inherits| && g in visiting
    requires Distinct(entries) && Genuine(groups, entries)
    requires GoodParents(groups, g, i, visiting) && OneOrigin(groups, g, i, entries)
    ensures Inherited(groups, g, visiting, i, entries).Some?
    decreases |groups| - |visiting|, 2, |groups[g].inherits| - i
  {
    if i < |groups[g].inherits| {
      var name := groups[g].inherits[i];
      var parent := Find(groups, name).value;
      assert GoodParent(groups, name, visiting);
      MeaningComplete(groups, parent, visiting);
      MeaningSound(groups, parent, visiting);
      var resolved := Meaning(groups, parent, visiting).value;
      OriginsAvoid(groups, parent, resolved, visiting);
      forall key | OriginOf(resolved, key).Some?
        ensures ParentProvides(groups, g, i, key, OriginOf(resolved, key).value)
      {
        assert Provides(groups, parent, key, OriginOf(resolved, key).value);
        assert ProvidedBy(groups, name, key, OriginOf(resolved, key).value);
      }
      assert Compatible(entries, resolved);
      AppendInherited(groups, entries, resolved, g);
      var more := AppendAll(entries, resolved, g).value;
      OneOriginStep(groups, g, i, entries, resolved, more);
      InheritedComplete(groups, g, visiting, i + 1, more);
    }
  }

  lemma OneOriginStep(groups: seq<Group>, g: nat, i: nat, entries: seq<Entry>, resolved: seq<Entry>, more: seq<Entry>)
    requires g < |groups| && i < |groups[g].inherits| && Find(groups, groups[g].inherits[i]).Some?
    requires Provided(groups, Find(groups, groups[g].inherits[i]).value, resolved)
    requires MergedFrom(more, entries, resolved) && OneOrigin(groups, g, i, entries)
    ensures OneOrigin(groups, g, i + 1, more)
  {
    var n := i + 1;
    forall key, o: nat | ParentProvides(groups, g, n, key, o)
      ensures OriginOf(more, key).Some? ==> OriginOf(more, key) == Some(o)
    {
      ParentProvidesStep(groups, g, i, key, o);
      if OriginOf(resolved, key).Some? {
        ParentProvidesStep(groups, g, i, key, OriginOf(resolved, key).value);
      }
    }
    forall key, o: nat, o': nat | ParentProvides(groups, g, n, key, o) && ParentProvides(groups, g, n, key, o')
      ensures o == o'
    {
      ParentProvidesStep(groups, g, i, key, o);
      ParentProvidesStep(groups, g, i, key, o');
    }
  }

  /** What a group resolves to does not depend on what else is being resolved. */
  lemma {:induction false} MeaningUnique(groups: seq<Group>, g: nat, u: set<nat>, v: set<nat>)
    requires g < |groups| && InRange(groups, u) && InRange(groups, v)
    requires Meaning(groups, g, u).Some? && Meaning(groups, g, v).Some?
    ensures Meaning(groups, g, u) == Meaning(groups, g, v)
    decreases |groups| - |u|, 1, 0
  {
    FewerIndices(|groups|, u + {g});
    InheritedUnique(groups, g, u + {g}, v + {g}, 0, []);
  }

  lemma {:induction false} InheritedUnique(groups: seq<Group>, g: nat, u: set<nat>, v: set<nat>, i: nat,
      entries: seq<Entry>)
    requires g < |groups| && InRange(groups, u) && InRange(groups, v) && i <= |groups[g].inherits|
    requires Inherited(groups, g, u, i, entries).Some? && Inherited(groups, g, v, i, entries).Some?
    ensures Inherited(groups, g, u, i, entries) == Inherited(groups, g, v, i, entries)
    decreases |groups| - |u|, 2, |groups[g].inherits| - i
  {
    if i < |groups[g].inherits| {
      var parent := Find(groups, groups[g].inherits[i]).value;
      MeaningUnique(groups, parent, u, v);
      InheritedUnique(groups, g, u, v, i + 1, AppendAll(entries, Meaning(groups, parent, u).value, g).value);
    }
  }

  // ----- The search -----------------------------------------------------------------------------

  datatype Progress = Unvisited | Resolving | Resolved

  /** How many groups are still to be visited. */
  function Unvisiteds(state: seq<Progress>): nat {
    if state == [] then 0 else (if state[0] == Unvisited then 1 else 0) + Unvisiteds(state[1..])
  }

  lemma {:induction false} UnvisitedsUpdate(state: seq<Progress>, i: nat, p: Progress)
    requires i < |state|
    ensures Unvisiteds(state[i := p])
      == Unvisiteds(state) - (if state[i] == Unvisited then 1 else 0) + (if p == Unvisited then 1 else 0)
  {
    if i > 0 {
      assert state[i := p][1..] == state[1..][i - 1 := p];
      UnvisitedsUpdate(state[1..], i - 1, p);
    } else {
      assert state[i := p][1..] == state[1..];
    }
  }

  lemma {:induction false} UnvisitedsMonotone(s: seq<Progress>, t: seq<Progress>)
    requires |s| == |t| && forall k :: 0 <= k < |s| ==> (t[k] == Unvisited ==> s[k] == Unvisited)
    ensures Unvisiteds(t) <= Unvisiteds(s)
  {
    if s != [] {
      UnvisitedsMonotone(s[1..], t[1..]);
    }
  }

  ghost function ResolvingSet(state: seq<Progress>): set<nat> {
    set k: nat | k < |state| && state[k] == Resolving
  }

  class BindScope {
    const groups: seq<Group>
    var state: seq<Progress>
    var resolved: seq<seq<Entry>>

    /** What is resolved is final, and all that it inherits from is resolved too. */
    ghost predicate Valid()
      reads this
    {
      && |state| == |resolved| == |groups|
      && (forall g :: 0 <= g < |groups| && state[g] == Resolved ==> Meaning(groups, g, {}) == Some(resolved[g]))
      && (forall g: nat, p: nat ::
        g < |groups| && state[g] == Resolved && Inherits(groups, g, p) ==> state[p] == Resolved)
      && (forall g :: 0 <= g < |groups| && state[g] == Unvisited ==> resolved[g] == [])
    }

    constructor (groups: seq<Group>)
      ensures Valid() && this.groups == groups
      ensures state == seq(|groups|, _ => Unvisited)
    {
      this.groups := groups;
      state := seq(|groups|, _ => Unvisited);
      resolved := seq(|groups|, _ => []);
    }

    /** The groups being resolved stay as they are; visited groups are not visited again. */
    twostate predicate Kept()
      reads this
    {
      && |state| == |old(state)| == |resolved| == |old(resolved)|
      && (forall k :: 0 <= k < |state| && old(state[k]) != Unvisited ==>
        state[k] == old(state[k]) && resolved[k] == old(resolved[k]))
    }

    lemma {:induction false} ResolvedPath(p: seq<nat>)
      requires Valid() && Path(groups, p) && state[p[0]] == Resolved
      ensures p[|p| - 1] < |groups| && state[p[|p| - 1]] == Resolved
      decreases |p|
    {
      if |p| > 1 {
        ResolvedPath(p[1..]);
      }
    }

    /** The memo of a resolved group answers for any set of groups being resolved. */
    lemma MemoAnswers(g: nat)
      requires Valid() && g < |groups| && state[g] == Resolved
      ensures InRange(groups, ResolvingSet(state))
      ensures Meaning(groups, g, ResolvingSet(state)) == Some(resolved[g])
    {
      MeaningSound(groups, g, {});
      forall h: nat | Reaches(groups, g, h) ensures h !in ResolvingSet(state) {
        var p :| Path(groups, p) && Joins(p, g, h);
        ResolvedPath(p);
      }
      MeaningComplete(groups, g, ResolvingSet(state));
      MeaningUnique(groups, g, ResolvingSet(state), {});
    }

    /** The loop of leme_bind_group_append over one more entry. */
    method AppendTo(g: nat, e: Entry) returns (ok: bool)
      requires g < |groups| == |resolved|
      modifies this`resolved
      ensures |resolved| == |groups| && forall k :: 0 <= k < |groups| && k != g ==> resolved[k] == old(resolved[k])
      ensures var r := Append(old(resolved[g]), e, g); if ok then r == Some(resolved[g]) else r == None
    {
      var entries, index := resolved[g], 0;
      while index < |entries| && entries[index].binding.key != e.binding.key
        invariant index <= |entries|
        invariant forall k :: 0 <= k < index ==> entries[k].binding.key != e.binding.key
      {
        index := index + 1;
      }
      if index == |entries| {
        resolved := resolved[g := entries + [e]];
        return true;
      }
      assert IndexOf(entries, e.binding.key) == Some(index);
      if entries[index].origin == e.origin {
        return true;
      }
      if e.origin != g {
        return false;
      }
      resolved := resolved[g := entries[index := e]];
      ok := true;
    }

    method AppendAllTo(g: nat, more: seq<Entry>) returns (ok: bool)
      requires g < |groups| == |resolved|
      modifies this`resolved
      ensures |resolved| == |groups| && forall k :: 0 <= k < |groups| && k != g ==> resolved[k] == old(resolved[k])
      ensures var r := AppendAll(old(resolved[g]), more, g); if ok then r == Some(resolved[g]) else r == None
    {
      var entry := 0;
      assert more[0..] == more;
      while entry < |more|
        invariant entry <= |more| && |resolved| == |groups|
        invariant forall k :: 0 <= k < |groups| && k != g ==> resolved[k] == old(resolved[k])
        invariant AppendAll(resolved[g], more[entry..], g) == AppendAll(old(resolved[g]), more, g)
      {
        assert more[entry..][1..] == more[entry + 1..];
        ok := AppendTo(g, more[entry]);
        if !ok {
          return;
        }
        entry := entry + 1;
      }
      ok := true;
    }

    method FindGroup(name: string) returns (group: Option<nat>)
      ensures group == Find(groups, name)
    {
      var index := 0;
      while index < |groups|
        invariant index <= |groups|
        invariant forall k :: 0 <= k < index ==> groups[k].name != name
      {
        if groups[index].name == name {
          return Some(index);
        }
        index := index + 1;
      }
      return None;
    }

    /** What one parent, by its name, adds to `entries`. */
    ghost function OneMore(name: string, g: nat, visiting: set<nat>, entries: seq<Entry>): Option<seq<Entry>>
      requires InRange(groups, visiting)
    {
      var parent := Find(groups, name);
      if parent.None? || groups[parent.value].isMode then None
      else
        var more := Meaning(groups, parent.value, visiting);
        if more.None? then None else AppendAll(entries, more.value, g)
    }

    /** Resolves one parent of `g` and takes over what it resolves to. */
    method ResolveParent(g: nat, name: string) returns (ok: bool)
      requires Valid() && g < |groups| && state[g] == Resolving
      modifies this
      ensures KeptBut(g) && InRange(groups, ResolvingSet(old(state)))
      ensures var r := OneMore(name, g, ResolvingSet(old(state)), old(resolved[g]));
        if ok then r == Some(resolved[g]) else r == None
      ensures ok ==> Valid() && ResolvingSet(state) == ResolvingSet(old(state))
      ensures ok ==> Unvisiteds(state) <= old(Unvisiteds(state))
      ensures ok ==> state[Find(groups, name).value] == Resolved && StillResolved()
      decreases Unvisiteds(state), 1
    {
      ghost var before := state;
      var found := FindGroup(name);
      if found.None? || groups[found.value].isMode || state[found.value] == Resolving {
        return false;
      }
      ok := Resolve(found.value);
      if ok {
        MemoAnswers(found.value);
        UnvisitedsMonotone(before, state);
        ok := AppendAllTo(g, resolved[found.value]);
      }
    }

    twostate predicate StillResolved()
      reads this
    {
      |state| == |old(state)| && forall k :: 0 <= k < |state| && old(state[k]) == Resolved ==> state[k] == Resolved
    }

    /** Resolves the parents of `g` in turn. */
    method ResolveParents(g: nat) returns (ok: bool)
      requires Valid() && g < |groups| && state[g] == Resolving && resolved[g] == []
      modifies this
      ensures KeptBut(g) && InRange(groups, ResolvingSet(old(state)))
      ensures var r := Inherited(groups, g, ResolvingSet(old(state)), 0, []);
        if ok then r == Some(resolved[g]) else r == None
      ensures ok ==> Valid() && state[g] == Resolving && ResolvingSet(state) == ResolvingSet(old(state))
      ensures ok ==> ParentsResolved(g, |groups[g].inherits|)
      decreases Unvisiteds(state), 2
    {
      ghost var visiting := ResolvingSet(state);
      var index := 0;
      while index < |groups[g].inherits|
        invariant index <= |groups[g].inherits|
        invariant Valid() && state[g] == Resolving && ResolvingSet(state) == visiting
        invariant Unvisiteds(state) <= old(Unvisiteds(state))
        invariant KeptBut(g) && ParentsResolved(g, index)
        invariant Inherited(groups, g, visiting, index, resolved[g]) == Inherited(groups, g, visiting, 0, [])
      {
        ghost var before := state;
        ok := ResolveParent(g, groups[g].inherits[index]);
        if !ok {
          return;
        }
        ParentsNext(g, index, before);
        index := index + 1;
      }
      ok := true;
    }

    lemma ParentsNext(g: nat, n: nat, before: seq<Progress>)
      requires g < |groups| && n < |groups[g].inherits| && |before| == |state| == |groups|
      requires forall i :: 0 <= i < n ==> IsResolved(before, groups[g].inherits[i])
      requires forall k :: 0 <= k < |state| && before[k] == Resolved ==> state[k] == Resolved
      requires IsResolved(state, groups[g].inherits[n])
      ensures ParentsResolved(g, n + 1)
    {
      forall i | 0 <= i < n + 1
        ensures IsResolved(state, groups[g].inherits[i])
      {
        assert i < n ==> IsResolved(before, groups[g].inherits[i]);
      }
    }

    /** The group of that name exists, and is resolved. */
    ghost predicate IsResolved(progress: seq<Progress>, name: string)
      requires |progress| == |groups|
    {
      var p := Find(groups, name);
      p.Some? && progress[p.value] == Resolved
    }

    ghost predicate ParentsResolved(g: nat, n: nat)
      requires g < |groups| && n <= |groups[g].inherits| && |state| == |groups|
      reads this
    {
      forall i :: 0 <= i < n ==> IsResolved(state, groups[g].inherits[i])
    }

    twostate predicate KeptBut(g: nat)
      reads this
    {
      && |state| == |old(state)| == |resolved| == |old(resolved)| == |groups|
      && (forall k :: 0 <= k < |state| && old(state[k]) != Unvisited ==>
        state[k] == old(state[k]) && (k != g ==> resolved[k] == old(resolved[k])))
    }

    /** leme_bind_group_resolve: it stops on every graph, because a group is visited
        once, and it succeeds exactly when the search without memory does. */
    method Resolve(g: nat) returns (ok: bool)
      requires Valid() && g < |groups|
      modifies this
      ensures Kept() && InRange(groups, ResolvingSet(old(state)))
      ensures ok <==> Meaning(groups, g, ResolvingSet(old(state))).Some?
      ensures ok ==> Valid() && state[g] == Resolved && ResolvingSet(state) == ResolvingSet(old(state))
      decreases Unvisiteds(state), 0
    {
      ghost var visiting := ResolvingSet(state);
      if state[g] == Resolved {
        MemoAnswers(g);
        return true;
      }
      if state[g] == Resolving {
        return false;
      }
      UnvisitedsUpdate(state, g, Resolving);
      state := state[g := Resolving];
      assert ResolvingSet(state) == visiting + {g};
      ok := Gather(g, visiting);
      if ok {
        MeaningOnItsOwn(groups, g, visiting);
        Settle(g, visiting);
      }
    }

    /** A group whose parents are resolved, and whose entries are complete, is resolved. */
    method Settle(g: nat, ghost visiting: set<nat>)
      requires Valid() && g < |groups| && state[g] == Resolving && Meaning(groups, g, {}) == Some(resolved[g])
      requires ParentsResolved(g, |groups[g].inherits|)
      requires ResolvingSet(state) == visiting + {g} && g !in visiting
      modifies this`state
      ensures Valid() && state == old(state)[g := Resolved] && ResolvingSet(state) == visiting
    {
      state := state[g := Resolved];
      assert ResolvingSet(state) == visiting;
    }

    /** The entries of the parents, and then its own. */
    method Gather(g: nat, ghost visiting: set<nat>) returns (ok: bool)
      requires Valid() && g < |groups| && state[g] == Resolving && resolved[g] == []
      requires ResolvingSet(state) == visiting + {g} && g !in visiting && InRange(groups, visiting)
      modifies this
      ensures KeptBut(g)
      ensures if ok then Meaning(groups, g, visiting) == Some(resolved[g]) else Meaning(groups, g, visiting) == None
      ensures ok ==> Valid() && state[g] == Resolving && ResolvingSet(state) == ResolvingSet(old(state))
      ensures ok ==> ParentsResolved(g, |groups[g].inherits|)
      decreases Unvisiteds(state), 3
    {
      ok := ResolveParents(g);
      if ok {
        ok := AppendAllTo(g, OwnEntries(groups[g].bindings, g));
      }
    }

    /** leme_config_materialize_mode: a mode that keeps Escape must bind a command
        that leaves it, unless it binds nothing at all. */
    method Materialize(g: nat) returns (mode: Option<Mode>)
      requires g < |groups| == |resolved|
      ensures mode == if KeepsExit(groups[g], resolved[g])
        then Some(Mode(groups[g].name, groups[g].escapeExits, resolved[g])) else None
    {
      var group, entries := groups[g], resolved[g];
      if |entries| == 0 {
        return Some(Mode(group.name, group.escapeExits, []));
      }
      var hasExit, index := false, 0;
      while index < |entries|
        invariant index <= |entries|
        invariant hasExit <==> exists i :: 0 <= i < index && entries[i].binding.setsMode
      {
        if entries[index].binding.setsMode {
          hasExit := true;
        }
        index := index + 1;
      }
      return if !group.escapeExits && !hasExit then None else Some(Mode(group.name, group.escapeExits, entries));
    }

    method ResolveMode(g: nat) returns (mode: Option<Mode>)
      requires Valid() && g < |groups| && ResolvingSet(state) == {}
      modifies this
      ensures mode == ModeOf(groups, g)
      ensures mode.Some? ==> Valid() && ResolvingSet(state) == {}
    {
      var ok := Resolve(g);
      if !ok {
        return None;
      }
      mode := Materialize(g);
    }

    /** leme_config_resolve_binds: only what a mode can reach is ever looked at. */
    method ResolveModes() returns (ok: bool, modes: seq<Mode>)
      requires Valid() && forall g :: 0 <= g < |groups| ==> state[g] == Unvisited
      modifies this
      ensures ok <==> ModesFine(groups, |groups|)
      ensures ok ==> modes == ModesFrom(groups, 0)
    {
      modes := [];
      var index := 0;
      assert ResolvingSet(state) == {};
      while index < |groups|
        invariant index <= |groups| && Valid() && ResolvingSet(state) == {}
        invariant ModesFine(groups, index)
        invariant modes + ModesFrom(groups, index) == ModesFrom(groups, 0)
      {
        ModesNext(groups, index, modes);
        FineNext(groups, index);
        if groups[index].isMode {
          var mode := ResolveMode(index);
          if mode.None? {
            return false, modes;
          }
          modes := modes + [mode.value];
        }
        index := index + 1;
      }
      ok := true;
    }
  }

  datatype Mode = Mode(name: string, escapeExits: bool, bindings: seq<Entry>)

  ghost predicate KeepsExit(group: Group, entries: seq<Entry>) {
    group.escapeExits || entries == [] || exists i :: 0 <= i < |entries| && entries[i].binding.setsMode
  }

  ghost function ModeOf(groups: seq<Group>, g: nat): Option<Mode>
    requires g < |groups|
  {
    var entries := Meaning(groups, g, {});
    if entries.None? || !KeepsExit(groups[g], entries.value) then None
    else Some(Mode(groups[g].name, groups[g].escapeExits, entries.value))
  }

  /** Every mode among the first n groups comes out. */
  ghost predicate ModesFine(groups: seq<Group>, n: nat)
    requires n <= |groups|
  {
    forall g: nat :: g < n && groups[g].isMode ==> ModeOf(groups, g).Some?
  }

  lemma FineNext(groups: seq<Group>, i: nat)
    requires i < |groups| && ModesFine(groups, i)
    ensures ModesFine(groups, i + 1) == (groups[i].isMode ==> ModeOf(groups, i).Some?)
    ensures groups[i].isMode && ModeOf(groups, i).None? ==> !ModesFine(groups, |groups|)
  {
  }

  lemma ModesNext(groups: seq<Group>, i: nat, modes: seq<Mode>)
    requires i < |groups|
    ensures var mode := ModeOf(groups, i);
      if !groups[i].isMode then ModesFrom(groups, i) == ModesFrom(groups, i + 1)
      else mode.Some? ==> modes + ModesFrom(groups, i) == (modes + [mode.value]) + ModesFrom(groups, i + 1)
  {
    assert [] + ModesFrom(groups, i + 1) == ModesFrom(groups, i + 1);
  }

  /** The modes among the groups from `i` on, in their order. */
  ghost function ModesFrom(groups: seq<Group>, i: nat): seq<Mode>
    requires i <= |groups|
    decreases |groups| - i
  {
    if i == |groups| then []
    else
      (if groups[i].isMode && ModeOf(groups, i).Some? then [ModeOf(groups, i).value] else [])
      + ModesFrom(groups, i + 1)
  }

  /** A mode comes out exactly when everything it can reach is in order and it keeps
      a way out. Its bindings have distinct keys, are bindings of the groups they
      name, and are exactly those that the paths of inheritance provide. */
  lemma ModeExact(groups: seq<Group>, g: nat)
    requires g < |groups|
    ensures var entries := Meaning(groups, g, {});
      && (entries.Some? <==> WellFormed(groups, g))
      && (entries.Some? ==>
        Distinct(entries.value) && Genuine(groups, entries.value) && Provided(groups, g, entries.value))
      && ModeOf(groups, g) == if entries.Some? && KeepsExit(groups[g], entries.value)
        then Some(Mode(groups[g].name, groups[g].escapeExits, entries.value)) else None
  {
    if WellFormed(groups, g) {
      MeaningComplete(groups, g, {});
    }
    if Meaning(groups, g, {}).Some? {
      MeaningSound(groups, g, {});
    }
  }

  ghost predicate ProvidesKey(groups: seq<Group>, g: nat, key: Key) {
    exists o: nat :: Provides(groups, g, key, o)
  }

  /** Some binding that the paths provide switches the mode. */
  ghost predicate Switches(groups: seq<Group>, g: nat) {
    exists o: nat, b :: o < |groups| && b in groups[o].bindings && Provides(groups, g, b.key, o) && b.setsMode
  }

  /** No mode is a trap: one whose groups are in order is refused exactly when it binds
      something, Escape does not leave it and nothing it binds does. */
  lemma RefusedExactly(groups: seq<Group>, g: nat)
    requires g < |groups| && WellFormed(groups, g)
    requires forall o :: 0 <= o < |groups| ==> DistinctKeys(groups[o].bindings)
    ensures ModeOf(groups, g).None? <==>
      !groups[g].escapeExits && (exists key :: ProvidesKey(groups, g, key)) && !Switches(groups, g)
  {
    ModeExact(groups, g);
    var entries := Meaning(groups, g, {}).value;
    if entries != [] {
      IndexIs(entries, 0);
      assert Provides(groups, g, entries[0].binding.key, entries[0].origin);
      assert ProvidesKey(groups, g, entries[0].binding.key);
    } else {
      forall key ensures !ProvidesKey(groups, g, key) {
        assert OriginOf(entries, key) == None;
      }
    }
    SwitchIsKept(groups, g, entries);
  }

  lemma SwitchIsKept(groups: seq<Group>, g: nat, entries: seq<Entry>)
    requires Distinct(entries) && Genuine(groups, entries) && Provided(groups, g, entries)
    requires forall o :: 0 <= o < |groups| ==> DistinctKeys(groups[o].bindings)
    ensures Switches(groups, g) <==> exists i :: 0 <= i < |entries| && entries[i].binding.setsMode
  {
    forall i | 0 <= i < |entries| && entries[i].binding.setsMode ensures Switches(groups, g) {
      IndexIs(entries, i);
      var o, b := entries[i].origin, entries[i].binding;
      assert Provides(groups, g, b.key, o) && b in groups[o].bindings;
    }
    if Switches(groups, g) {
      var o: nat, b :| o < |groups| && b in groups[o].bindings && Provides(groups, g, b.key, o) && b.setsMode;
      var i := IndexOf(entries, b.key).value;
      assert entries[i].origin == o && entries[i].binding in groups[o].bindings;
      assert entries[i].binding == b;
    }
  }

  /** Two parents that disagree on a key make a group fail, even when it writes the
      key itself: the parents come first. */
  lemma OwnBindingDoesNotSettleConflict(groups: seq<Group>, g: nat, a: nat, b: nat, key: Key, o: nat, o': nat)
    requires g < |groups| && Inherits(groups, g, a) && Inherits(groups, g, b) && HasKey(groups, g, key)
    requires Provides(groups, a, key, o) && Provides(groups, b, key, o') && o != o'
    ensures Meaning(groups, g, {}).None?
  {
    if Meaning(groups, g, {}).Some? {
      MeaningSound(groups, g, {});
      ReachesSelf(groups, g);
    }
  }

  // ----- Reading the bindings of a group ---------------------------------------------------------

  /** An entry of a block: its key, if it parses, and its command, if that does. */
  datatype Written = Written(key: Option<Key>, command: Option<(string, bool)>)

  /** A complete binding whose key no complete binding before it has. */
  ghost predicate IsFirst(entries: seq<Written>, i: nat) {
    && i < |entries| && entries[i].key.Some? && entries[i].command.Some?
    && forall j :: 0 <= j < i && entries[j].command.Some? ==> entries[j].key != entries[i].key
  }

  function AsBinding(entry: Written): Binding
    requires entry.key.Some? && entry.command.Some?
  {
    Binding(entry.key.value, entry.command.value.0, entry.command.value.1)
  }

  /** The bindings at the places `at`. */
  ghost predicate TakenFrom(bindings: seq<Binding>, entries: seq<Written>, at: seq<nat>) {
    && |at| == |bindings|
    && (forall i, j :: 0 <= i < j < |at| ==> at[i] < at[j])
    && forall i :: 0 <= i < |at| ==> IsFirst(entries, at[i]) && bindings[i] == AsBinding(entries[at[i]])
  }

  method IsDuplicate(bindings: seq<Binding>, key: Key) returns (duplicate: bool)
    ensures duplicate <==> Writes(bindings, key)
  {
    var previous := 0;
    while previous < |bindings|
      invariant previous <= |bindings|
      invariant forall i :: 0 <= i < previous ==> bindings[i].key != key
    {
      if bindings[previous].key == key {
        return true;
      }
      previous := previous + 1;
    }
    return false;
  }

  /** The duplicate check of parse_bind_block: of the complete bindings the first of
      each key is kept, in order, and no other. */
  method ReadBindings(entries: seq<Written>) returns (bindings: seq<Binding>, ghost at: seq<nat>)
    ensures TakenFrom(bindings, entries, at)
    ensures forall i :: 0 <= i < |entries| && IsFirst(entries, i) ==> i in at
    ensures DistinctKeys(bindings)
  {
    bindings, at := [], [];
    var index := 0;
    while index < |entries|
      invariant index <= |entries| && ReadUpTo(bindings, entries, at, index)
    {
      var entry := entries[index];
      var duplicate := false;
      if entry.key.Some? {
        duplicate := IsDuplicate(bindings, entry.key.value);
      }
      if entry.key.Some? && !duplicate && entry.command.Some? {
        KeepNext(bindings, entries, at, index);
        bindings := bindings + [AsBinding(entry)];
        at := at + [index];
      } else {
        DropNext(bindings, entries, at, index);
      }
      index := index + 1;
    }
  }

  /** The state of that loop before entry n. */
  ghost predicate ReadUpTo(bindings: seq<Binding>, entries: seq<Written>, at: seq<nat>, n: nat)
    requires n <= |entries|
  {
    && TakenFrom(bindings, entries, at) && DistinctKeys(bindings)
    && (forall i :: 0 <= i < |at| ==> at[i] < n)
    && (forall i :: 0 <= i < n && IsFirst(entries, i) ==> i in at)
    && (forall i :: 0 <= i < n && entries[i].key.Some? && entries[i].command.Some? ==>
      Writes(bindings, entries[i].key.value))
  }

  lemma KeepNext(bindings: seq<Binding>, entries: seq<Written>, at: seq<nat>, n: nat)
    requires n < |entries| && ReadUpTo(bindings, entries, at, n)
    requires entries[n].key.Some? && entries[n].command.Some? && !Writes(bindings, entries[n].key.value)
    ensures ReadUpTo(bindings + [AsBinding(entries[n])], entries, at + [n], n + 1)
  {
    var more := bindings + [AsBinding(entries[n])];
    assert more[|bindings|].key == entries[n].key.value;
    forall key | Writes(bindings, key) ensures Writes(more, key) {
      var i :| 0 <= i < |bindings| && bindings[i].key == key;
      assert more[i].key == key;
    }
    assert IsFirst(entries, n);
  }

  lemma DropNext(bindings: seq<Binding>, entries: seq<Written>, at: seq<nat>, n: nat)
    requires n < |entries| && ReadUpTo(bindings, entries, at, n)
    requires entries[n].key.Some? && entries[n].command.Some? ==> Writes(bindings, entries[n].key.value)
    ensures ReadUpTo(bindings, entries, at, n + 1)
  {
    if entries[n].key.Some? && entries[n].command.Some? {
      var i :| 0 <= i < |bindings| && bindings[i].key == entries[n].key.value;
      assert entries[at[i]].key == entries[n].key && at[i] < n;
    }
  }

  /** Own keys are distinct. */
  ghost predicate DistinctKeys(bindings: seq<Binding>) {
    forall i, j :: 0 <= i < j < |bindings| ==> bindings[i].key != bindings[j].key
  }

  lemma MeaningOnItsOwn(groups: seq<Group>, g: nat, visiting: set<nat>)
    requires g < |groups| && InRange(groups, visiting) && Meaning(groups, g, visiting).Some?
    ensures Meaning(groups, g, {}) == Meaning(groups, g, visiting)
  {
    MeaningSound(groups, g, visiting);
    MeaningComplete(groups, g, {});
    MeaningUnique(groups, g, {}, visiting);
  }
}
