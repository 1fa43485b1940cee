/** Configuration trees and the dotted paths into them. */
module ConfigTree {
  datatype Scalar = Null | Flag(b: bool) | Number(n: real) | Word(s: string) | Words(items: seq<string>)

  datatype Tree = Leaf(s: Scalar) | Branch(m: map<string, Tree>)

  type Path = seq<string>

  /** The parts of a dotted key: at least one, possibly empty. */
  function Parts(key: string): (p: Path)
    ensures p != []
  {
    if key == "" then [""]
    else
      var rest := Parts(key[1..]);
      if key[0] == '.' then [""] + rest else [[key[0]] + rest[0]] + rest[1..]
  }

  function Join(p: Path): string
    requires p != []
  {
    if |p| == 1 then p[0] else p[0] + "." + Join(p[1..])
  }

  /** Different keys have different parts: a key is its parts joined. */
  lemma {:induction false} JoinParts(key: string)
    ensures Join(Parts(key)) == key
  {
    if key != "" {
      var rest := Parts(key[1..]);
      JoinParts(key[1..]);
      if key[0] == '.' {
        assert Parts(key)[1..] == rest;
      } else {
        assert Parts(key)[1..] == rest[1..];
      }
    }
  }

  ghost predicate Dotless(p: Path) { forall i :: 0 <= i < |p| ==> '.' !in p[i] }

  /** A key is split at every dot. */
  lemma {:induction false} PartsAreDotless(key: string)
    ensures Dotless(Parts(key))
  {
    if key != "" { PartsAreDotless(key[1..]); }
  }

  lemma {:induction false} PartsOf(first: string, rest: string)
    requires '.' !in first
    ensures Parts(first) == [first]
    ensures Parts(first + "." + rest) == [first] + Parts(rest)
  {
    if first == "" {
      assert first + "." + rest == "." + rest && ("." + rest)[1..] == rest;
    } else {
      PartsOf(first[1..], rest);
      assert (first + "." + rest)[1..] == first[1..] + "." + rest;
      assert first == [first[0]] + first[1..];
    }
  }

  /** Parts without dots are given back by the key they are joined to. */
  lemma {:induction false} PartsJoined(p: Path)
    requires p != [] && Dotless(p)
    ensures Parts(Join(p)) == p
  {
    if |p| == 1 {
      PartsOf(p[0], "");
    } else {
      PartsJoined(p[1..]);
      PartsOf(p[0], Join(p[1..]));
      assert p == [p[0]] + p[1..];
    }
  }

  /** The value at a path, null where the tree has none. */
  function Get(t: Tree, p: Path): Tree {
    if p == [] then t
    else if t.Branch? && p[0] in t.m then Get(t.m[p[0]], p[1..])
    else Leaf(Null)
  }

  function Entries(t: Tree): map<string, Tree> { if t.Branch? then t.m else map[] }

  function Child(m: map<string, Tree>, key: string): Tree { if key in m then m[key] else Leaf(Null) }

  /** The tree with a value put at a path; what is in the way and no dictionary is replaced. */
  function Set(m: map<string, Tree>, p: Path, v: Tree): map<string, Tree>
    requires p != []
    decreases p
  {
    m[p[0] := if |p| == 1 then v else Branch(Set(Entries(Child(m, p[0])), p[1..], v))]
  }

  predicate Comparable(p: Path, q: Path) { p <= q || q <= p }

  /** A value put at a path is what is found there, and inside it what it holds. */
  lemma {:induction false} GetAtSet(m: map<string, Tree>, p: Path, v: Tree, more: Path)
    requires p != []
    ensures Get(Branch(Set(m, p, v)), p + more) == Get(v, more)
    decreases p
  {
    if |p| == 1 {
      assert (p + more)[1..] == more;
    } else {
      GetAtSet(Entries(Child(m, p[0])), p[1..], v, more);
      assert (p + more)[1..] == p[1..] + more;
    }
  }

  /** Above the path the value is put into what was there. */
  lemma {:induction false} GetAboveSet(m: map<string, Tree>, p: Path, more: Path, v: Tree)
    requires more != []
    ensures Get(Branch(Set(m, p + more, v)), p) == Branch(Set(Entries(Get(Branch(m), p)), more, v))
    decreases p
  {
    if p == [] {
      assert p + more == more;
    } else {
      assert (p + more)[1..] == p[1..] + more;
      GetAboveSet(Entries(Child(m, p[0])), p[1..], more, v);
      if !Child(m, p[0]).Branch? && p[1..] != [] { GetOfLeaf(p[1..]); }
    }
  }

  lemma GetOfLeaf(p: Path)
    ensures p != [] ==> Get(Branch(map[]), p) == Leaf(Null)
  {
  }

  /** At every other path nothing changes, even when an entry in the way was replaced. */
  lemma {:induction false} GetBesideSet(m: map<string, Tree>, p: Path, v: Tree, q: Path)
    requires p != [] && !Comparable(p, q)
    ensures Get(Branch(Set(m, p, v)), q) == Get(Branch(m), q)
    decreases p
  {
    if p[0] == q[0] {
      assert p == [p[0]] + p[1..] && q == [q[0]] + q[1..];
      GetBesideSet(Entries(Child(m, p[0])), p[1..], v, q[1..]);
      if !Child(m, p[0]).Branch? && q[1..] != [] { GetOfLeaf(q[1..]); }
    }
  }

  // ----- a list of changes

  datatype Change = Change(key: string, value: Scalar)

  function PathOf(change: Change): (p: Path)
    ensures p != []
  {
    Parts(change.key)
  }

  predicate Proper(changes: seq<Change>) {
    forall i :: 0 <= i < |changes| ==> changes[i].value != Null
  }

  /** The tree after the first `n` changes. */
  function ApplyAll(m: map<string, Tree>, changes: seq<Change>, n: nat): map<string, Tree>
    requires n <= |changes|
  {
    if n == 0 then m else Set(ApplyAll(m, changes, n - 1), PathOf(changes[n - 1]), Leaf(changes[n - 1].value))
  }

  /** Putting a scalar at a comparable but different path leaves no scalar behind. */
  lemma ScalarLost(m: map<string, Tree>, p: Path, v: Scalar, q: Path)
    requires p != [] && p != q && Comparable(p, q)
    ensures var t := Get(Branch(Set(m, p, Leaf(v))), q); t == Leaf(Null) || t.Branch?
  {
    if p <= q {
      var more := q[|p|..];
      assert q == p + more;
      GetAtSet(m, p, Leaf(v), more);
    } else {
      var more := p[|q|..];
      assert p == q + more;
      GetAboveSet(m, q, more, Leaf(v));
    }
  }

  ghost predicate Disturbed(changes: seq<Change>, i: nat, n: nat)
    requires i < |changes| && n <= |changes|
  {
    exists j :: i < j < n && Comparable(PathOf(changes[j]), PathOf(changes[i]))
  }

  lemma {:induction false} AfterChanges(m: map<string, Tree>, changes: seq<Change>, i: nat, n: nat)
    requires i < n <= |changes| && Proper(changes)
    requires forall j :: i < j < |changes| ==> PathOf(changes[j]) != PathOf(changes[i])
    ensures var t := Get(Branch(ApplyAll(m, changes, n)), PathOf(changes[i]));
      if Disturbed(changes, i, n) then t == Leaf(Null) || t.Branch? else t == Leaf(changes[i].value)
    decreases n
  {
    var path := PathOf(changes[i]);
    if n == i + 1 {
      GetAtSet(ApplyAll(m, changes, i), path, Leaf(changes[i].value), []);
      assert path + [] == path;
    } else {
      AfterChanges(m, changes, i, n - 1);
      var last := changes[n - 1];
      var before := ApplyAll(m, changes, n - 1);
      if Comparable(PathOf(last), path) {
        ScalarLost(before, PathOf(last), last.value, path);
      } else {
        GetBesideSet(before, PathOf(last), Leaf(last.value), path);
        assert forall j :: i < j < n && Comparable(PathOf(changes[j]), path) ==> j < n - 1;
      }
    }
  }

  /** Exactly when a list of changes leaves a key at the last value given for it: when no later
      change has a key whose path is a proper prefix or a proper extension of its path. */
  lemma LastValueIff(m: map<string, Tree>, changes: seq<Change>, i: nat)
    requires i < |changes| && Proper(changes)
    requires forall j :: i < j < |changes| ==> changes[j].key != changes[i].key
    ensures Get(Branch(ApplyAll(m, changes, |changes|)), PathOf(changes[i])) == Leaf(changes[i].value)
      <==> forall j :: i < j < |changes| ==> !Comparable(PathOf(changes[j]), PathOf(changes[i]))
  {
    hide Comparable;
    forall j | i < j < |changes| ensures PathOf(changes[j]) != PathOf(changes[i]) {
      JoinParts(changes[i].key);
      JoinParts(changes[j].key);
    }
    AfterChanges(m, changes, i, |changes|);
  }
}
