/** Nested configuration dictionaries on the heap: reading a dotted key and setting one in
    place, and the loop that applies a list of recommendations to the configuration file. */
module ConfigObjects {
  import opened ConfigTree

  datatype Entry = Plain(s: Scalar) | Nested(d: Dict)

  /** A mutable dictionary. `contents` is the tree it and the dictionaries below it stand for;
      a dictionary hangs under one key of one other, one level above it. */
  class Dict {
    var entries: map<string, Entry>
    ghost var contents: map<string, Tree>
    ghost const parent: Dict?
    ghost const slot: string
    ghost const level: nat

    constructor (ghost parent: Dict?, ghost slot: string, ghost level: nat)
      ensures entries == map[] && contents == map[]
      ensures this.parent == parent && this.slot == slot && this.level == level
    {
      entries, contents := map[], map[];
      this.parent, this.slot, this.level := parent, slot, level;
    }
  }

  ghost function TreeOf(e: Entry): Tree
    reads (if e.Nested? then {e.d} else {})`contents
  {
    if e.Plain? then Leaf(e.s) else Branch(e.d.contents)
  }

  ghost predicate HangsUnder(c: Dict, d: Dict, key: string) {
    c.parent == d && c.slot == key && c.level == d.level + 1
  }

  /** A dictionary holds the entries of `m`. */
  ghost predicate Holds(nodes: set<Dict>, d: Dict, m: map<string, Tree>)
    reads d`entries, nodes`contents
  {
    && m.Keys == d.entries.Keys
    && forall k :: k in d.entries ==>
         && (d.entries[k].Nested? ==> d.entries[k].d in nodes && HangsUnder(d.entries[k].d, d, k))
         && m[k] == TreeOf(d.entries[k])
  }

  /** A tree without sharing whose dictionaries are among `nodes`. */
  ghost predicate Valid(root: Dict, nodes: set<Dict>)
    reads root, nodes
  {
    && root in nodes && root.level == 0
    && forall d :: d in nodes ==> Holds(nodes, d, d.contents)
  }

  method GetNestedValue(root: Dict, ghost nodes: set<Dict>, keyPath: string) returns (value: Entry)
    requires Valid(root, nodes)
    ensures value.Nested? ==> value.d in nodes
    ensures TreeOf(value) == Get(Branch(root.contents), Parts(keyPath))
  {
    var parts := Parts(keyPath);
    value := Nested(root);
    for k := 0 to |parts|
      invariant value.Nested? ==> value.d in nodes
      invariant Get(TreeOf(value), parts[k..]) == Get(Branch(root.contents), parts)
    {
      if !value.Nested? { return Plain(Null); }
      var current := value.d;
      assert Holds(nodes, current, current.contents);
      assert parts[k..][1..] == parts[k + 1..];
      value := if parts[k] in current.entries then current.entries[parts[k]] else Plain(Null);
    }
  }

  /** The walk down to a key: every dictionary stands for its contents but the current one,
      which still holds what it held while its contents are already the promised ones. */
  ghost predicate Walking(nodes: set<Dict>, current: Dict, was: map<string, Tree>)
    reads current, nodes
  {
    && current in nodes
    && Holds(nodes, current, was)
    && forall d :: d in nodes && d != current ==> Holds(nodes, d, d.contents)
  }

  /** Puts an entry into a dictionary that has no other promise to keep than `was`. */
  method Hang(d: Dict, ghost nodes: set<Dict>, ghost was: map<string, Tree>,
        key: string, e: Entry, ghost below: set<Dict>)
    requires Walking(nodes, d, was) && d !in below
    requires forall x :: x in below ==> Holds(below, x, x.contents)
    requires e.Nested? ==> e.d in below && HangsUnder(e.d, d, key)
    modifies d`entries
    ensures Walking(nodes + below, d, was[key := TreeOf(e)]) && d.entries == old(d.entries)[key := e]
  {
    d.entries := d.entries[key := e];
  }

  lemma BareWalk(d: Dict)
    requires d.entries == map[]
    ensures Walking({d}, d, map[])
  {
  }

  lemma WalkedWell(d: Dict, nodes: set<Dict>)
    requires Walking(nodes, d, d.contents)
    ensures d in nodes && forall x :: x in nodes ==> Holds(nodes, x, x.contents)
  {
  }

  lemma WalkedTo(d: Dict, nodes: set<Dict>, was: map<string, Tree>, key: string)
    requires Walking(nodes, d, was)
    ensures if key in d.entries && d.entries[key].Nested?
      then d.entries[key].d in nodes && key in was && was[key] == Branch(d.entries[key].d.contents)
      else !Child(was, key).Branch?
  {
  }

  /** The nested dictionary under `part`, made if there is none. */
  method NestedUnder(current: Dict, ghost nodes: set<Dict>, ghost was: map<string, Tree>, part: string)
    returns (child: Dict, ghost after: set<Dict>, ghost has: map<string, Tree>)
    requires Walking(nodes, current, was)
    modifies current`entries
    ensures Walking(after, current, has)
    ensures nodes <= after <= nodes + {child} && child in after && (child in nodes || fresh(child))
    ensures part in current.entries && current.entries[part] == Nested(child)
    ensures has == was[part := Branch(Entries(Child(was, part)))] && child.contents == Entries(Child(was, part))
  {
    WalkedTo(current, nodes, was, part);
    hide Holds, Walking;
    if part !in current.entries || !current.entries[part].Nested? {
      child := new Dict(current, part, current.level + 1);
      BareWalk(child);
      WalkedWell(child, {child});
      Hang(current, nodes, was, part, Nested(child), {child});
      after, has := nodes + {child}, was[part := Branch(map[])];
    } else {
      child := current.entries[part].d;
      after, has := nodes, was;
    }
  }

  /** Promises the nested dictionary its new contents, which keeps the promise of the current one. */
  ghost method Promise(current: Dict, child: Dict, nodes: set<Dict>,
            has: map<string, Tree>, part: string, m: map<string, Tree>)
    requires Walking(nodes, current, has)
    requires part in current.entries && current.entries[part] == Nested(child)
    requires current.contents == has[part := Branch(m)]
    modifies child`contents
    ensures child.contents == m && child.level > current.level
    ensures Walking(nodes, child, old(child.contents))
  {
    child.contents := m;
  }

  ghost method BeginWalk(root: Dict, nodes: set<Dict>, m: map<string, Tree>)
    requires Valid(root, nodes)
    modifies root`contents
    ensures root.contents == m && Walking(nodes, root, old(root.contents))
  {
    root.contents := m;
  }

  /** Builds the dictionaries of a tree, on top one that hangs where it is told to. */
  method LoadUnder(m: map<string, Tree>, ghost parent: Dict?, ghost slot: string, ghost level: nat)
    returns (d: Dict, ghost nodes: set<Dict>)
    ensures d in nodes && fresh(nodes)
    ensures d.parent == parent && d.slot == slot && d.level == level && d.contents == m
    ensures forall x :: x in nodes ==> Holds(nodes, x, x.contents)
    decreases Branch(m), 0
  {
    d := new Dict(parent, slot, level);
    d.contents := m;
    nodes := {d};
    var todo := m.Keys;
    hide Holds, Walking;
    BareWalk(d);
    assert m - m.Keys == map[];
    while todo != {}
      invariant todo <= m.Keys && fresh(nodes) && d.contents == m
      invariant Walking(nodes, d, m - todo)
      decreases todo
    {
      var key :| key in todo;
      var entry, below := LoadEntry(m[key], d, key);
      Hang(d, nodes, m - todo, key, entry, below);
      OneLess(m, todo, key);
      nodes, todo := nodes + below, todo - {key};
    }
    assert m - {} == m;
    WalkedWell(d, nodes);
  }

  method LoadEntry(t: Tree, d: Dict, key: string) returns (entry: Entry, ghost below: set<Dict>)
    ensures TreeOf(entry) == t && fresh(below) && (entry.Nested? ==> entry.d in below && HangsUnder(entry.d, d, key))
    ensures forall x :: x in below ==> Holds(below, x, x.contents)
    decreases t
  {
    below := {};
    match t
    case Leaf(s) => entry := Plain(s);
    case Branch(m) =>
      var child;
      child, below := LoadUnder(m, d, key, d.level + 1);
      entry := Nested(child);
  }

  lemma OneLess<V>(m: map<string, V>, todo: set<string>, key: string)
    requires key in todo && todo <= m.Keys
    ensures (m - todo)[key := m[key]] == m - (todo - {key})
  {
  }

  method SetNestedValue(root: Dict, ghost nodes: set<Dict>, keyPath: string, value: Tree)
    returns (ghost after: set<Dict>)
    requires Valid(root, nodes)
    modifies nodes
    ensures Valid(root, after) && nodes <= after && fresh(after - nodes)
    ensures root.contents == Set(old(root.contents), Parts(keyPath), value)
  {
    hide Holds, Walking;
    var parts := Parts(keyPath);
    var current := root;
    after := nodes;
    ghost var was := root.contents;
    BeginWalk(root, nodes, Set(was, parts, value));
    var k := 0;
    while k < |parts| - 1
      invariant 0 <= k < |parts|
      invariant root in after && current in after && nodes <= after && fresh(after - nodes)
      invariant Walking(after, current, was)
      invariant root.contents == Set(old(root.contents), parts, value)
      invariant current.contents == Set(was, parts[k..], value)
    {
      assert parts[k..][1..] == parts[k + 1..];
      ghost var m := Set(Entries(Child(was, parts[k])), parts[k + 1..], value);
      var child;
      child, after, was := NestedUnder(current, after, was, parts[k]);
      ghost var has := child.contents;
      Promise(current, child, after, was, parts[k], m);
      current, was := child, has;
      k := k + 1;
    }
    assert parts[k..] == [parts[k]];
    var entry, below := LoadEntry(value, current, parts[k]);
    Hang(current, after, was, parts[k], entry, below);
    after := after + below;
    WalkedWell(current, after);
    WellValid(root, after);
  }

  lemma WellValid(root: Dict, nodes: set<Dict>)
    requires root in nodes && root.level == 0 && forall x :: x in nodes ==> Holds(nodes, x, x.contents)
    ensures Valid(root, nodes)
  {
  }

  method Dump(d: Dict, ghost nodes: set<Dict>) returns (m: map<string, Tree>)
    requires d in nodes && forall x :: x in nodes ==> Holds(nodes, x, x.contents)
    ensures m == d.contents
    decreases Branch(d.contents)
  {
    m := map[];
    var todo := d.entries.Keys;
    assert Holds(nodes, d, d.contents);
    while todo != {}
      invariant todo <= d.entries.Keys && m == d.contents - todo
      decreases todo
    {
      var key :| key in todo;
      var below := DumpEntry(d, nodes, key);
      m := m[key := below];
      OneLess(d.contents, todo, key);
      todo := todo - {key};
    }
    assert d.contents - {} == d.contents;
  }

  method DumpEntry(d: Dict, ghost nodes: set<Dict>, key: string) returns (t: Tree)
    requires d in nodes && key in d.entries && forall x :: x in nodes ==> Holds(nodes, x, x.contents)
    ensures key in d.contents && t == d.contents[key]
    decreases Branch(d.contents), 0
  {
    assert Holds(nodes, d, d.contents);
    match d.entries[key]
    case Plain(s) => t := Leaf(s);
    case Nested(child) =>
      var m := Dump(child, nodes);
      t := Branch(m);
  }

  /** The configuration file and the document in it. */
  class ConfigFile {
    var document: map<string, Tree>

    constructor (document: map<string, Tree>)
      ensures this.document == document
    {
      this.document := document;
    }

    /** Loads the document, sets the value in place, dumps it and replaces the file; a failed
        write changes nothing. */
    method ApplyConfigChange(keyPath: string, value: Scalar, writable: bool) returns (previous: Tree)
      modifies this
      ensures previous == Get(Branch(old(document)), Parts(keyPath))
      ensures document == if writable then Set(old(document), Parts(keyPath), Leaf(value)) else old(document)
    {
      var raw, nodes := LoadUnder(document, null, "", 0);
      var entry := GetNestedValue(raw, nodes, keyPath);
      if entry.Nested? {
        var m := Dump(entry.d, nodes);
        previous := Branch(m);
      } else {
        previous := Leaf(entry.s);
      }
      nodes := SetNestedValue(raw, nodes, keyPath, Leaf(value));
      var content := Dump(raw, nodes);
      if writable { document := content; }
    }

    /** Applies recommendations one by one. `writable` says which of the writes succeed, and
        `between` what other confirmations wrote while this one was suspended before each. */
    method ExecuteThresholdTuning(changes: seq<Change>, writable: seq<bool>, between: seq<seq<Change>>)
      returns (applied: seq<Change>, failed: seq<Change>)
      requires |writable| == |between| == |changes|
      modifies this
      ensures applied == Chosen(changes, writable, true, |changes|)
      ensures failed == Chosen(changes, writable, false, |changes|)
      ensures var writes := Written(changes, writable, between, |changes|);
        document == ApplyAll(old(document), writes, |writes|)
    {
      hide ApplyAll, Set, Written;
      applied, failed := [], [];
      NothingWritten(document, changes, writable, between);
      for k := 0 to |changes|
        invariant applied == Chosen(changes, writable, true, k) && failed == Chosen(changes, writable, false, k)
        invariant var writes := Written(changes, writable, between, k);
          document == ApplyAll(old(document), writes, |writes|)
      {
        Suspended(between[k]);
        WrittenStep(old(document), changes, writable, between, k);
        var _ := ApplyConfigChange(changes[k].key, changes[k].value, writable[k]);
        if writable[k] {
          applied := applied + [changes[k]];
        } else {
          failed := failed + [changes[k]];
        }
      }
    }

    /** What others write to the file in the meantime, each change as a whole. */
    method Suspended(others: seq<Change>)
      modifies this
      ensures document == ApplyAll(old(document), others, |others|)
    {
      for k := 0 to |others|
        invariant document == ApplyAll(old(document), others, k)
      {
        var _ := ApplyConfigChange(others[k].key, others[k].value, true);
      }
    }
  }

  /** The changes among the first `n` whose writes went as `ok` says, in order. */
  function Chosen(changes: seq<Change>, writable: seq<bool>, ok: bool, n: nat): seq<Change>
    requires n <= |changes| == |writable|
  {
    if n == 0 then [] else
      Chosen(changes, writable, ok, n - 1) + (if writable[n - 1] == ok then [changes[n - 1]] else [])
  }

  /** The positions a list of changes was chosen from. */
  ghost predicate ChosenAt(changes: seq<Change>, writable: seq<bool>, ok: bool, n: nat, at: seq<nat>)
    requires n <= |changes| == |writable|
  {
    && |at| == |Chosen(changes, writable, ok, n)|
    && (forall i :: 0 <= i < |at| ==> at[i] < n && writable[at[i]] == ok
                                      && Chosen(changes, writable, ok, n)[i] == changes[at[i]])
    && (forall i, j :: 0 <= i < j < |at| ==> at[i] < at[j])
    && (forall k :: 0 <= k < n && writable[k] == ok ==> k in at)
  }

  /** A list chosen holds exactly the changes whose writes went so, in their order. */
  lemma {:induction false} ChosenFrom(changes: seq<Change>, writable: seq<bool>, ok: bool, n: nat)
    returns (at: seq<nat>)
    requires n <= |changes| == |writable|
    ensures ChosenAt(changes, writable, ok, n, at)
  {
    at := [];
    if n > 0 {
      at := ChosenFrom(changes, writable, ok, n - 1);
      if writable[n - 1] == ok {
        ghost var before := at;
        at := at + [n - 1];
        assert forall k :: k in before ==> k in at;
        assert at[|before|] == n - 1;
      }
    }
  }

  /** With nothing written in between, what is written are the changes that are reported applied. */
  lemma {:induction false} WrittenAlone(changes: seq<Change>, writable: seq<bool>, between: seq<seq<Change>>, n: nat)
    requires n <= |changes| == |writable| == |between|
    requires forall k :: 0 <= k < |between| ==> between[k] == []
    ensures Written(changes, writable, between, n) == Chosen(changes, writable, true, n)
  {
    if n > 0 { WrittenAlone(changes, writable, between, n - 1); }
  }

  /** All that is written until the first `n` changes are through, in order. */
  function Written(changes: seq<Change>, writable: seq<bool>, between: seq<seq<Change>>, n: nat): seq<Change>
    requires n <= |changes| == |writable| == |between|
  {
    if n == 0 then [] else
      Written(changes, writable, between, n - 1) + between[n - 1] + (if writable[n - 1] then [changes[n - 1]] else [])
  }

  lemma {:induction false} ApplyAllPrefix(m: map<string, Tree>, changes: seq<Change>, more: seq<Change>, n: nat)
    requires n <= |changes|
    ensures ApplyAll(m, changes + more, n) == ApplyAll(m, changes, n)
  {
    if n > 0 { ApplyAllPrefix(m, changes, more, n - 1); }
  }

  lemma {:induction false} ApplyAllAppend(m: map<string, Tree>, changes: seq<Change>, more: seq<Change>, n: nat)
    requires n <= |more|
    ensures ApplyAll(m, changes + more, |changes| + n) == ApplyAll(ApplyAll(m, changes, |changes|), more, n)
  {
    if n == 0 { ApplyAllPrefix(m, changes, more, |changes|); } else { ApplyAllAppend(m, changes, more, n - 1); }
  }

  lemma NothingWritten(m: map<string, Tree>, changes: seq<Change>, writable: seq<bool>, between: seq<seq<Change>>)
    requires |changes| == |writable| == |between|
    ensures Written(changes, writable, between, 0) == [] && ApplyAll(m, [], 0) == m
  {
  }

  lemma WrittenStep(m: map<string, Tree>, changes: seq<Change>, writable: seq<bool>, between: seq<seq<Change>>, k: nat)
    requires k < |changes| == |writable| == |between|
    ensures var writes, more := Written(changes, writable, between, k), Written(changes, writable, between, k + 1);
      var meanwhile := ApplyAll(ApplyAll(m, writes, |writes|), between[k], |between[k]|);
      ApplyAll(m, more, |more|) ==
        if writable[k] then Set(meanwhile, PathOf(changes[k]), Leaf(changes[k].value)) else meanwhile
  {
    hide Set;
    var writes := Written(changes, writable, between, k);
    ApplyAllAppend(m, writes, between[k], |between[k]|);
    var both := writes + between[k];
    if writable[k] {
      ApplyAllAppend(m, both, [changes[k]], 1);
      assert ApplyAll(ApplyAll(m, both, |both|), [changes[k]], 0) == ApplyAll(m, both, |both|);
    } else {
      assert both + [] == both;
    }
  }
}
