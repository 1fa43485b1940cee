/** Configuration changes confirmed at the same time. Each runs on a thread of its own: it loads
    the file, works on its copy, and replaces the file. Here any number of them interleave. */
module ConfigRaces {
  import opened ConfigTree

  /** The two moments a change touches the file. Changes are numbered jobs. */
  datatype Step = Load(job: nat) | Replace(job: nat)

  datatype File = File(document: map<string, Tree>, copies: map<nat, map<string, Tree>>)

  function Made(m: map<string, Tree>, change: Change): map<string, Tree> { Set(m, PathOf(change), Leaf(change.value)) }

  function After(m: map<string, Tree>, changes: nat -> Change, steps: seq<Step>, n: nat): File
    requires n <= |steps|
  {
    if n == 0 then File(m, map[]) else
      var f := After(m, changes, steps, n - 1);
      match steps[n - 1]
      case Load(j) => f.(copies := f.copies[j := f.document])
      case Replace(j) =>
        if j !in f.copies then f
        else File(Made(f.copies[j], changes(j)), f.copies - {j})
  }

  /** Where the copy of a job was loaded that it has after `n` steps; `n` if it has none. */
  function LoadedAt(steps: seq<Step>, j: nat, n: nat): (l: nat)
    requires n <= |steps|
    ensures l <= n && (l < n ==> steps[l] == Load(j))
  {
    if n == 0 then 0
    else if steps[n - 1] == Load(j) then n - 1
    else if steps[n - 1] == Replace(j) || LoadedAt(steps, j, n - 1) == n - 1 then n
    else LoadedAt(steps, j, n - 1)
  }

  /** The jobs that replaced the file in the first `n` steps, in order. */
  function Replacing(steps: seq<Step>, n: nat): seq<nat>
    requires n <= |steps|
  {
    if n == 0 then [] else
      var j := steps[n - 1].job;
      Replacing(steps, n - 1)
      + (if steps[n - 1].Replace? && LoadedAt(steps, j, n - 1) < n - 1 then [j] else [])
  }

  /** The jobs whose changes are in the file, in the order they were made to it. */
  function Surviving(steps: seq<Step>, n: nat): seq<nat>
    requires n <= |steps|
    decreases n
  {
    if n == 0 then [] else
      var j := steps[n - 1].job;
      if steps[n - 1].Replace? && LoadedAt(steps, j, n - 1) < n - 1
      then Surviving(steps, LoadedAt(steps, j, n - 1)) + [j]
      else Surviving(steps, n - 1)
  }

  /** The document with the changes of some jobs made to it, one after the other. */
  function AllMade(m: map<string, Tree>, changes: nat -> Change, jobs: seq<nat>): map<string, Tree> {
    if jobs == [] then m else
      var n := |jobs| - 1;
      Made(AllMade(m, changes, jobs[..n]), changes(jobs[n]))
  }

  lemma {:induction false} CopyIsLoaded(m: map<string, Tree>, changes: nat -> Change, steps: seq<Step>, j: nat, n: nat)
    requires n <= |steps|
    ensures var f, l := After(m, changes, steps, n), LoadedAt(steps, j, n);
      (j in f.copies <==> l < n) && (l < n ==> f.copies[j] == After(m, changes, steps, l).document)
  {
    if n > 0 { CopyIsLoaded(m, changes, steps, j, n - 1); }
  }

  /** In every interleaving the file holds exactly the surviving changes. */
  lemma {:induction false} FileHoldsSurvivors(m: map<string, Tree>, changes: nat -> Change, steps: seq<Step>, n: nat)
    requires n <= |steps|
    ensures After(m, changes, steps, n).document == AllMade(m, changes, Surviving(steps, n))
    decreases n
  {
    hide Made, After, AllMade, LoadedAt;
    if n == 0 {
      NothingMade(m, changes, steps);
    } else {
      var j := steps[n - 1].job;
      var l := LoadedAt(steps, j, n - 1);
      DocumentStep(m, changes, steps, n);
      if steps[n - 1].Replace? && l < n - 1 {
        FileHoldsSurvivors(m, changes, steps, l);
        OneMoreMade(m, changes, Surviving(steps, l), j);
      } else {
        FileHoldsSurvivors(m, changes, steps, n - 1);
      }
    }
  }

  lemma NothingMade(m: map<string, Tree>, changes: nat -> Change, steps: seq<Step>)
    ensures After(m, changes, steps, 0).document == AllMade(m, changes, []) == m
  {
  }

  lemma OneMoreMade(m: map<string, Tree>, changes: nat -> Change, jobs: seq<nat>, j: nat)
    ensures AllMade(m, changes, jobs + [j]) == Made(AllMade(m, changes, jobs), changes(j))
  {
    assert (jobs + [j])[..|jobs|] == jobs;
  }

  /** A step replaces the document by a copy with its change made, or leaves it. */
  lemma DocumentStep(m: map<string, Tree>, changes: nat -> Change, steps: seq<Step>, n: nat)
    requires 0 < n <= |steps|
    ensures var j := steps[n - 1].job;
      var l := LoadedAt(steps, j, n - 1);
      After(m, changes, steps, n).document ==
        if steps[n - 1].Replace? && l < n - 1 then Made(After(m, changes, steps, l).document, changes(j))
        else After(m, changes, steps, n - 1).document
  {
    hide Made, LoadedAt;
    CopyIsLoaded(m, changes, steps, steps[n - 1].job, n - 1);
  }

  /** No job replaced the file while another one worked on a copy that it went on to use. */
  ghost predicate Serial(steps: seq<Step>, n: nat)
    requires n <= |steps|
  {
    forall i :: 0 <= i < n ==> Undisturbed(steps, i)
  }

  ghost predicate Undisturbed(steps: seq<Step>, i: nat)
    requires i < |steps|
  {
    var l := LoadedAt(steps, steps[i].job, i);
    steps[i].Replace? && l < i ==> Replacing(steps, l) == Replacing(steps, i)
  }

  lemma SerialStep(steps: seq<Step>, n: nat)
    requires 0 < n <= |steps|
    ensures Serial(steps, n) <==> Serial(steps, n - 1) && Undisturbed(steps, n - 1)
    ensures forall l :: 0 <= l < n && Serial(steps, n) ==> Serial(steps, l)
  {
  }

  lemma {:induction false} ReplacingGrows(steps: seq<Step>, l: nat, n: nat)
    requires l <= n <= |steps|
    ensures |Replacing(steps, l)| <= |Replacing(steps, n)|
    ensures |Replacing(steps, l)| == |Replacing(steps, n)| ==>
      Replacing(steps, l) == Replacing(steps, n) && Surviving(steps, l) == Surviving(steps, n)
      && (Serial(steps, l) ==> Serial(steps, n))
    decreases n
  {
    hide Serial, LoadedAt;
    if l < n {
      ReplacingGrows(steps, l, n - 1);
      SerialStep(steps, n);
    }
  }

  lemma {:induction false} SurvivorsAreFewer(steps: seq<Step>, n: nat)
    requires n <= |steps|
    ensures |Surviving(steps, n)| <= |Replacing(steps, n)|
    ensures |Surviving(steps, n)| == |Replacing(steps, n)| <==> Serial(steps, n)
    ensures Serial(steps, n) ==> Surviving(steps, n) == Replacing(steps, n)
    decreases n
  {
    if n > 0 {
      SurvivorsAreFewer(steps, n - 1);
      hide Serial;
      SerialStep(steps, n);
      var l := LoadedAt(steps, steps[n - 1].job, n - 1);
      if steps[n - 1].Replace? && l < n - 1 {
        SurvivorsAreFewer(steps, l);
        ReplacingGrows(steps, l, n - 1);
      }
    }
  }

  /** Exactly when no confirmed change is lost: when none replaces the file between another
      one's load and replacement. Otherwise fewer changes are in the file than were made. */
  lemma NoneLostIff(steps: seq<Step>)
    ensures Surviving(steps, |steps|) == Replacing(steps, |steps|) <==> Serial(steps, |steps|)
    ensures !Serial(steps, |steps|) ==> |Surviving(steps, |steps|)| < |Replacing(steps, |steps|)|
  {
    SurvivorsAreFewer(steps, |steps|);
  }

  /** Two changes of unrelated keys that overlap: both are confirmed, the first is lost. */
  lemma LostUpdate(m: map<string, Tree>, first: Change, second: Change)
    requires !Comparable(PathOf(first), PathOf(second))
    ensures var f := After(m, j => if j == 0 then first else second, [Load(0), Load(1), Replace(0), Replace(1)], 4);
      Get(Branch(f.document), PathOf(first)) == Get(Branch(m), PathOf(first))
      && Get(Branch(f.document), PathOf(second)) == Leaf(second.value)
  {
    var changes: nat -> Change := j => if j == 0 then first else second;
    var steps := [Load(0), Load(1), Replace(0), Replace(1)];
    assert After(m, changes, steps, 0) == File(m, map[]);
    assert After(m, changes, steps, 1) == File(m, map[0 := m]);
    assert After(m, changes, steps, 2) == File(m, map[0 := m, 1 := m]);
    assert 1 in After(m, changes, steps, 3).copies && After(m, changes, steps, 3).copies[1] == m;
    GetBesideSet(m, PathOf(second), Leaf(second.value), PathOf(first));
    GetAtSet(m, PathOf(second), Leaf(second.value), []);
    assert PathOf(second) + [] == PathOf(second);
  }
}
