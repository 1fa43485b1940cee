/** Recursive merge of configuration overrides, and enabling features by merging theirs. */
module DeepMerge {
  import opened ConfigTree

  type Config = map<string, Tree>

  function Merge(base: Config, override: Config): (r: Config)
    ensures r.Keys == base.Keys + override.Keys
    decreases Branch(override), 0
  {
    map k | k in base.Keys + override.Keys ::
      if k !in override then base[k] else if k in base then Over(base[k], override[k]) else override[k]
  }

  function Over(b: Tree, o: Tree): Tree
    decreases o, 1
  {
    if b.Branch? && o.Branch? then Branch(Merge(b.m, o.m)) else o
  }

  method DeepMerge(base: Config, override: Config) returns (result: Config)
    ensures result == Merge(base, override)
    decreases Branch(override)
  {
    result := base;
    var todo := override.Keys;
    while todo != {}
      invariant todo <= override.Keys && result.Keys == base.Keys + (override.Keys - todo)
      invariant forall k :: k in result ==>
        result[k] == if k in todo || k !in override then base[k] else Merge(base, override)[k]
      decreases todo
    {
      var key :| key in todo;
      var value := override[key];
      if key in result && result[key].Branch? && value.Branch? {
        var merged := DeepMerge(result[key].m, value.m);
        result := result[key := Branch(merged)];
      } else {
        result := result[key := value];
      }
      todo := todo - {key};
    }
  }

  // ----- idempotence and lookups

  lemma {:induction false} Idempotent(b: Config, o: Config)
    ensures Merge(Merge(b, o), o) == Merge(b, o)
    decreases Branch(o)
  {
    forall k | k in o ensures Merge(Merge(b, o), o)[k] == Merge(b, o)[k] {
      if o[k].Branch? {
        if k in b && b[k].Branch? { Idempotent(b[k].m, o[k].m); } else { SelfMerge(o[k].m); }
      }
    }
  }

  lemma {:induction false} SelfMerge(o: Config)
    ensures Merge(o, o) == o
    decreases Branch(o)
  {
    forall k | k in o ensures Merge(o, o)[k] == o[k] {
      if o[k].Branch? { SelfMerge(o[k].m); }
    }
  }

  /** What a path leads to: a tree, a dictionary without the next key, or a leaf on the way. */
  datatype Found = At(t: Tree) | Missing | Blocked

  function Look(t: Tree, p: Path): Found {
    if p == [] then At(t)
    else if t.Leaf? then Blocked
    else if p[0] !in t.m then Missing
    else Look(t.m[p[0]], p[1..])
  }

  /** The full lookup law: the override's leaf where it has one, the base's value where the
      override has no entry on the way, the two merged where both have dictionaries. */
  lemma {:induction false} LookMerged(b: Tree, o: Tree, p: Path)
    ensures var merged, mine, theirs := Look(Over(b, o), p), Look(o, p), Look(b, p);
      match mine {
        case At(t) => merged == At(if theirs.At? then Over(theirs.t, t) else t)
        case Blocked => merged == Blocked
        case Missing => if b.Branch? && theirs.At? then merged == theirs else !merged.At?
      }
    decreases p
  {
    if p != [] && b.Branch? && o.Branch? {
      if p[0] in o.m && p[0] in b.m { LookMerged(b.m[p[0]], o.m[p[0]], p[1..]); }
    } else if p != [] && o.Branch? && p[0] in o.m {
    }
  }

  // ----- order of overrides

  ghost predicate Compatible(x: Config, y: Config)
    decreases Branch(x), 0
  {
    forall k :: k in x && k in y ==> Agree(x[k], y[k])
  }

  ghost predicate Agree(x: Tree, y: Tree)
    decreases x, 1
  {
    if x.Branch? && y.Branch? then Compatible(x.m, y.m) else x == y
  }

  lemma {:induction false} CommuteOnto(b: Config, x: Config, y: Config)
    requires Compatible(x, y)
    ensures Merge(Merge(b, x), y) == Merge(Merge(b, y), x)
    decreases Branch(x)
  {
    forall k | k in x && k in y ensures Merge(Merge(b, x), y)[k] == Merge(Merge(b, y), x)[k] {
      assert Agree(x[k], y[k]);
      if x[k].Branch? {
        if k in b && b[k].Branch? {
          CommuteOnto(b[k].m, x[k].m, y[k].m);
        } else {
          Commute(x[k].m, y[k].m);
        }
      }
    }
  }

  lemma {:induction false} Commute(x: Config, y: Config)
    requires Compatible(x, y)
    ensures Merge(x, y) == Merge(y, x)
    decreases Branch(x)
  {
    forall k | k in x && k in y ensures Merge(x, y)[k] == Merge(y, x)[k] {
      assert Agree(x[k], y[k]);
      if x[k].Branch? { Commute(x[k].m, y[k].m); }
    }
  }

  lemma {:induction false} CommutingAgree(x: Config, y: Config)
    requires Merge(x, y) == Merge(y, x)
    ensures Compatible(x, y)
    decreases Branch(x)
  {
    forall k | k in x && k in y ensures Agree(x[k], y[k]) {
      assert Over(x[k], y[k]) == Merge(x, y)[k] == Merge(y, x)[k] == Over(y[k], x[k]);
      if x[k].Branch? && y[k].Branch? { CommutingAgree(x[k].m, y[k].m); }
    }
  }

  lemma EmptyBase(x: Config)
    ensures Merge(map[], x) == x
  {
  }

  /** Two overrides can be merged in either order onto every base exactly when they agree on
      every leaf they share and neither has a leaf where the other has a dictionary. */
  lemma OrderIrrelevantIff(x: Config, y: Config)
    ensures (forall b :: Merge(Merge(b, x), y) == Merge(Merge(b, y), x)) <==> Compatible(x, y)
  {
    if Compatible(x, y) {
      forall b ensures Merge(Merge(b, x), y) == Merge(Merge(b, y), x) { CommuteOnto(b, x, y); }
    } else {
      var none: Config := map[];
      EmptyBase(x);
      EmptyBase(y);
      if Merge(Merge(none, x), y) == Merge(Merge(none, y), x) { CommutingAgree(x, y); }
      assert Merge(Merge(none, x), y) != Merge(Merge(none, y), x);
    }
  }

  function Fold(b: Config, overrides: seq<Config>): Config
    decreases overrides
  {
    if overrides == [] then b else Fold(Merge(b, overrides[0]), overrides[1..])
  }

  ghost predicate AllCompatible(overrides: seq<Config>) {
    forall x, y :: x in overrides && y in overrides ==> Compatible(x, y)
  }

  lemma {:induction false} MoveToFront(b: Config, before: seq<Config>, x: Config, after: seq<Config>)
    requires AllCompatible(before + [x] + after)
    ensures Fold(b, before + [x] + after) == Fold(Merge(b, x), before + after)
    decreases before
  {
    var all := before + [x] + after;
    if before == [] {
      assert all[0] == x && all[1..] == before + after;
    } else {
      var y, rest := before[0], before[1..];
      assert all[0] == y && all[1..] == rest + [x] + after;
      assert forall z :: z in rest + [x] + after ==> z in all;
      MoveToFront(Merge(b, y), rest, x, after);
      assert x in all && y in all;
      CommuteOnto(b, y, x);
      assert (before + after)[0] == y && (before + after)[1..] == rest + after;
    }
  }

  lemma SplitAround<T>(s: seq<T>, x: T) returns (before: seq<T>, after: seq<T>)
    requires x in multiset(s)
    ensures s == before + [x] + after && multiset(s) == multiset(before + after) + multiset{x}
  {
    var i :| 0 <= i < |s| && s[i] == x;
    before, after := s[..i], s[i + 1..];
    assert s == before + [x] + after;
  }

  lemma RemoveSame<T>(xs: seq<T>, ys: multiset<T>)
    requires xs != [] && multiset(xs) == ys + multiset{xs[0]}
    ensures multiset(xs[1..]) == ys
  {
    assert xs == [xs[0]] + xs[1..];
    assert multiset(xs) == multiset{xs[0]} + multiset(xs[1..]);
    assert multiset(xs[1..]) == multiset(xs) - multiset{xs[0]} == ys;
  }

  lemma SameMember<T>(xs: seq<T>, ys: seq<T>, z: T)
    requires multiset(xs) == multiset(ys) && z in ys
    ensures z in xs
  {
    assert z in multiset(xs);
  }

  /** Pairwise compatible overrides can be folded in any order with the same result. */
  lemma {:induction false} AnyOrder(b: Config, xs: seq<Config>, ys: seq<Config>)
    requires multiset(xs) == multiset(ys) && AllCompatible(xs)
    ensures Fold(b, xs) == Fold(b, ys)
    decreases xs
  {
    hide Compatible, Merge;
    if xs == [] {
      assert |ys| == |multiset(ys)| == 0;
    } else {
      assert xs[0] in multiset(xs);
      forall x, y | x in ys && y in ys ensures Compatible(x, y) {
        SameMember(xs, ys, x);
        SameMember(xs, ys, y);
      }
      var before, after := SplitAround(ys, xs[0]);
      RemoveSame(xs, multiset(before + after));
      MoveToFront(b, before, xs[0], after);
      AnyOrder(Merge(b, xs[0]), xs[1..], before + after);
    }
  }

  lemma {:induction false} Absorb(b: Config, overrides: seq<Config>, x: Config)
    requires Merge(b, x) == b && forall y :: y in overrides ==> Compatible(x, y)
    ensures Merge(Fold(b, overrides), x) == Fold(b, overrides)
    decreases overrides
  {
    if overrides != [] {
      CommuteOnto(b, x, overrides[0]);
      Absorb(Merge(b, overrides[0]), overrides[1..], x);
    }
  }

  lemma {:induction false} AbsorbEach(b: Config, overrides: seq<Config>, x: Config)
    requires AllCompatible(overrides) && x in overrides
    ensures Merge(Fold(b, overrides), x) == Fold(b, overrides)
    decreases overrides
  {
    if x == overrides[0] {
      Idempotent(b, x);
      Absorb(Merge(b, x), overrides[1..], x);
    } else {
      AbsorbEach(Merge(b, overrides[0]), overrides[1..], x);
    }
  }

  lemma {:induction false} AbsorbedFold(b: Config, overrides: seq<Config>)
    requires forall x :: x in overrides ==> Merge(b, x) == b
    ensures Fold(b, overrides) == b
    decreases overrides
  {
    if overrides != [] { AbsorbedFold(b, overrides[1..]); }
  }

  /** Folding pairwise compatible overrides a second time changes nothing. */
  lemma FoldAgain(b: Config, overrides: seq<Config>)
    requires AllCompatible(overrides)
    ensures Fold(Fold(b, overrides), overrides) == Fold(b, overrides)
  {
    forall x | x in overrides ensures Merge(Fold(b, overrides), x) == Fold(b, overrides) {
      AbsorbEach(b, overrides, x);
    }
    AbsorbedFold(Fold(b, overrides), overrides);
  }

  // ----- setting a path is merging an override with only that path

  function Single(p: Path, v: Scalar): Config
    requires p != []
    decreases p
  {
    map[p[0] := if |p| == 1 then Leaf(v) else Branch(Single(p[1..], v))]
  }

  lemma {:induction false} SetIsMerge(m: Config, p: Path, v: Scalar)
    requires p != []
    ensures Set(m, p, Leaf(v)) == Merge(m, Single(p, v))
    decreases p
  {
    if |p| > 1 {
      SetIsMerge(Entries(Child(m, p[0])), p[1..], v);
      EmptyBase(Single(p[1..], v));
    }
  }

  // ----- the features of the setup wizard

  const LYNIS_REPORT_PATH := "/var/lib/sentinel/lynis-report.dat"
  const LYNIS_ARGS := ["audit", "system", "--quick", "--no-colors", "--report-file", LYNIS_REPORT_PATH]

  function Enabled(rest: Config): Tree { Branch(rest["enabled" := Leaf(Flag(true))]) }

  /** The override of a feature, where it has one. */
  function FeatureConfig(feature: string): Config {
    match feature
    case "firewall" => map["tools" := Branch(map["firewall" := Enabled(map[])])]
    case "gpu" => map["monitors" := Branch(map["gpu" := Enabled(map[])])]
    case "harden" =>
      map["tools" := Branch(map["hardening" :=
        Enabled(map["benchmarks" := Branch(map["cis_level_1" := Leaf(Flag(true))])])])]
    case "snapshot" =>
      map["updates" := Branch(map["self_update" :=
        Branch(map["snapshots" := Branch(map["backend" := Leaf(Word("auto"))])])])]
    case "vulnscan" =>
      map["tools" := Branch(map["vulnscan" :=
        Enabled(map["report_path" := Leaf(Word(LYNIS_REPORT_PATH)),
                    "lynis_args" := Leaf(Words(LYNIS_ARGS))])])]
    case "prometheus" => map["metrics_export" := Branch(map["prometheus" := Enabled(map[])])]
    case _ => map[]
  }

  predicate HasConfig(feature: string) {
    feature in ["firewall", "gpu", "harden", "snapshot", "vulnscan", "prometheus"]
  }

  lemma {:induction false} SelfCompatible(x: Config)
    ensures Compatible(x, x)
    decreases Branch(x)
  {
    forall k | k in x ensures Agree(x[k], x[k]) {
      if x[k].Branch? { SelfCompatible(x[k].m); }
    }
  }

  /** The features' overrides never conflict. */
  lemma FeaturesCompatible(f: string, g: string)
    ensures Compatible(FeatureConfig(f), FeatureConfig(g))
  {
    if f == g {
      SelfCompatible(FeatureConfig(f));
    } else {
      forall k | k in FeatureConfig(f) && k in FeatureConfig(g)
        ensures Agree(FeatureConfig(f)[k], FeatureConfig(g)[k])
      {
        assert k == "tools";
      }
    }
  }

  function Overrides(features: seq<string>): (r: seq<Config>)
    ensures |r| == |features| && forall i :: 0 <= i < |r| ==> r[i] == FeatureConfig(features[i])
  {
    seq(|features|, i requires 0 <= i < |features| => FeatureConfig(features[i]))
  }

  lemma MergeNothing(b: Config)
    ensures Merge(b, map[]) == b
  {
  }

  method EnableFeatures(config: Config, features: seq<string>) returns (result: Config)
    ensures result == Fold(config, Overrides(features))
  {
    result := config;
    ghost var all := Overrides(features);
    for k := 0 to |features|
      invariant Fold(result, all[k..]) == Fold(config, all)
    {
      assert all[k..][0] == FeatureConfig(features[k]) && all[k..][1..] == all[k + 1..];
      if HasConfig(features[k]) {
        result := DeepMerge(result, FeatureConfig(features[k]));
      } else {
        MergeNothing(result);
      }
    }
  }

  lemma OverridesCompatible(features: seq<string>)
    ensures AllCompatible(Overrides(features))
  {
    forall x, y | x in Overrides(features) && y in Overrides(features) ensures Compatible(x, y) {
      var i :| 0 <= i < |features| && Overrides(features)[i] == x;
      var j :| 0 <= j < |features| && Overrides(features)[j] == y;
      FeaturesCompatible(features[i], features[j]);
    }
  }

  lemma OverridesAround(before: seq<string>, f: string, after: seq<string>)
    ensures multiset(Overrides(before + [f] + after))
      == multiset(Overrides(before + after)) + multiset{FeatureConfig(f)}
  {
    hide FeatureConfig;
    assert Overrides(before + [f] + after) == Overrides(before) + [FeatureConfig(f)] + Overrides(after);
    assert Overrides(before + after) == Overrides(before) + Overrides(after);
  }

  lemma {:induction false} SameOverrides(fs: seq<string>, gs: seq<string>)
    requires multiset(fs) == multiset(gs)
    ensures multiset(Overrides(fs)) == multiset(Overrides(gs))
    decreases fs
  {
    hide FeatureConfig;
    if fs == [] {
      assert |gs| == |multiset(gs)| == 0;
    } else {
      SameMember(gs, fs, fs[0]);
      var before, after := SplitAround(gs, fs[0]);
      RemoveSame(fs, multiset(before + after));
      SameOverrides(fs[1..], before + after);
      OverridesAround([], fs[0], fs[1..]);
      assert fs == [] + [fs[0]] + fs[1..] && [] + fs[1..] == fs[1..];
      OverridesAround(before, fs[0], after);
    }
  }

  /** The configuration written for a choice of features depends neither on their order nor on
      how often the step is run. */
  lemma FeatureOrderIrrelevant(config: Config, fs: seq<string>, gs: seq<string>)
    requires multiset(fs) == multiset(gs)
    ensures Fold(config, Overrides(fs)) == Fold(config, Overrides(gs))
    ensures Fold(Fold(config, Overrides(fs)), Overrides(gs)) == Fold(config, Overrides(fs))
  {
    hide FeatureConfig;
    OverridesCompatible(fs);
    OverridesCompatible(gs);
    SameOverrides(fs, gs);
    AnyOrder(config, Overrides(fs), Overrides(gs));
    FoldAgain(config, Overrides(gs));
  }

  // ----- what the features set

  lemma LookLeaf(b: Config, x: Config, p: Path, s: Scalar)
    requires Merge(b, x) == b && Look(Branch(x), p) == At(Leaf(s))
    ensures Look(Branch(b), p) == At(Leaf(s))
  {
    LookMerged(Branch(b), Branch(x), p);
    assert Over(Branch(b), Branch(x)) == Branch(b);
  }

  /** Every leaf of an enabled feature's override is in the configuration written. */
  lemma SettingsTakeEffect(config: Config, features: seq<string>, f: string, p: Path, s: Scalar)
    requires f in features && Look(Branch(FeatureConfig(f)), p) == At(Leaf(s))
    ensures Look(Branch(Fold(config, Overrides(features))), p) == At(Leaf(s))
  {
    hide FeatureConfig, Merge, Look;
    OverridesCompatible(features);
    var i :| 0 <= i < |features| && features[i] == f;
    assert Overrides(features)[i] == FeatureConfig(f);
    AbsorbEach(config, Overrides(features), FeatureConfig(f));
    LookLeaf(Fold(config, Overrides(features)), FeatureConfig(f), p, s);
  }

  /** A path no override says anything about leads to what it led to before. */
  lemma {:induction false} OthersKept(b: Config, overrides: seq<Config>, p: Path)
    requires forall x :: x in overrides ==> Look(Branch(x), p) == Missing
    requires Look(Branch(b), p).At?
    ensures Look(Branch(Fold(b, overrides)), p) == Look(Branch(b), p)
    decreases overrides
  {
    hide Look, Merge;
    if overrides != [] {
      LookMerged(Branch(b), Branch(overrides[0]), p);
      OthersKept(Merge(b, overrides[0]), overrides[1..], p);
    }
  }

  /** What each feature is enabled by: where, and with which value. */
  const FEATURE_SETTINGS: seq<(string, Path, Scalar)> := [
    ("firewall", ["tools", "firewall", "enabled"], Flag(true)),
    ("gpu", ["monitors", "gpu", "enabled"], Flag(true)),
    ("harden", ["tools", "hardening", "enabled"], Flag(true)),
    ("harden", ["tools", "hardening", "benchmarks", "cis_level_1"], Flag(true)),
    ("snapshot", ["updates", "self_update", "snapshots", "backend"], Word("auto")),
    ("vulnscan", ["tools", "vulnscan", "enabled"], Flag(true)),
    ("vulnscan", ["tools", "vulnscan", "report_path"], Word("/var/lib/sentinel/lynis-report.dat")),
    ("vulnscan", ["tools", "vulnscan", "lynis_args"],
     Words(["audit", "system", "--quick", "--no-colors", "--report-file", "/var/lib/sentinel/lynis-report.dat"])),
    ("prometheus", ["metrics_export", "prometheus", "enabled"], Flag(true))
  ]

  lemma Look3(t: Tree, a: string, b: string, c: string)
    requires t.Branch? && a in t.m && t.m[a].Branch? && b in t.m[a].m && t.m[a].m[b].Branch? && c in t.m[a].m[b].m
    ensures Look(t, [a, b, c]) == At(t.m[a].m[b].m[c])
  {
    assert [a, b, c][1..] == [b, c] && [b, c][1..] == [c] && [c][1..] == [];
    assert Look(t.m[a].m[b], [c]) == At(t.m[a].m[b].m[c]);
    assert Look(t.m[a], [b, c]) == Look(t.m[a].m[b], [c]);
  }

  lemma Look4(t: Tree, a: string, b: string, c: string, d: string)
    requires t.Branch? && a in t.m && t.m[a].Branch? && b in t.m[a].m && t.m[a].m[b].Branch?
    requires c in t.m[a].m[b].m && t.m[a].m[b].m[c].Branch? && d in t.m[a].m[b].m[c].m
    ensures Look(t, [a, b, c, d]) == At(t.m[a].m[b].m[c].m[d])
  {
    assert [a, b, c, d][1..] == [b, c, d];
    Look3(t.m[a], b, c, d);
  }

  lemma FeatureLeaves(k: nat)
    requires k < |FEATURE_SETTINGS|
    ensures var (f, p, s) := FEATURE_SETTINGS[k]; Look(Branch(FeatureConfig(f)), p) == At(Leaf(s))
  {
    hide Look;
    var (f, p, s) := FEATURE_SETTINGS[k];
    var t := Branch(FeatureConfig(f));
    if |p| == 3 {
      assert p == [p[0], p[1], p[2]];
      Look3(t, p[0], p[1], p[2]);
    } else {
      assert p == [p[0], p[1], p[2], p[3]];
      Look4(t, p[0], p[1], p[2], p[3]);
    }
  }

  lemma LeafBelow(t: Tree, p: Path, s: Scalar)
    requires Look(t, p) == At(Leaf(s))
    ensures t.Leaf? ==> p == [] && t.s == s
    ensures t.Branch? ==> p != [] && p[0] in t.m && Look(t.m[p[0]], p[1..]) == At(Leaf(s)) && p == [p[0]] + p[1..]
  {
  }

  /** A leaf three or four levels down: the path that leads to it, and the tree it is in. */
  lemma LeafAt(t: Tree, p: Path, s: Scalar) returns (inner: Tree)
    requires Look(t, p) == At(Leaf(s)) && t.Branch?
    requires forall a :: a in t.m ==> t.m[a].Branch? && forall b :: b in t.m[a].m ==> t.m[a].m[b].Branch?
    ensures |p| >= 3 && p[0] in t.m && p[1] in t.m[p[0]].m && inner == t.m[p[0]].m[p[1]] && p[2] in inner.m
    ensures if inner.m[p[2]].Leaf? then |p| == 3 && inner.m[p[2]].s == s
            else |p| >= 4 && p[3] in inner.m[p[2]].m && Look(inner.m[p[2]].m[p[3]], p[4..]) == At(Leaf(s))
  {
    hide Look;
    LeafBelow(t, p, s);
    LeafBelow(t.m[p[0]], p[1..], s);
    inner := t.m[p[0]].m[p[1]];
    assert p[1..][1..] == p[2..];
    LeafBelow(inner, p[2..], s);
    assert p[2..][1..] == p[3..];
    LeafBelow(inner.m[p[2]], p[3..], s);
    if inner.m[p[2]].Branch? { assert p[3..][1..] == p[4..]; }
  }

  ghost predicate IsSetting(f: string, p: Path, s: Scalar) {
    exists k :: 0 <= k < |FEATURE_SETTINGS| && FEATURE_SETTINGS[k] == (f, p, s)
  }

  /** A feature's override has no other leaves than those it is enabled by. */
  lemma NothingElse(f: string, p: Path, s: Scalar)
    requires Look(Branch(FeatureConfig(f)), p) == At(Leaf(s))
    ensures IsSetting(f, p, s)
  {
    var t := Branch(FeatureConfig(f));
    hide Look;
    if !HasConfig(f) { LeafBelow(t, p, s); }
    var inner := LeafAt(t, p, s);
    if inner.m[p[2]].Branch? {
      LeafBelow(inner.m[p[2]].m[p[3]], p[4..], s);
      assert p == [p[0], p[1], p[2], p[3]];
    } else {
      assert p == [p[0], p[1], p[2]];
    }
    var k := match f
      case "firewall" => 0
      case "gpu" => 1
      case "harden" => if |p| == 3 then 2 else 3
      case "snapshot" => 4
      case "vulnscan" => if p[2] == "enabled" then 5 else if p[2] == "report_path" then 6 else 7
      case _ => 8;
    assert FEATURE_SETTINGS[k] == (f, p, s);
  }

  /** Enabling a feature sets what it is enabled by, whatever else is enabled and whatever the
      configuration said before. */
  lemma FeatureEnabled(config: Config, features: seq<string>, k: nat)
    requires k < |FEATURE_SETTINGS| && FEATURE_SETTINGS[k].0 in features
    ensures var (_, p, s) := FEATURE_SETTINGS[k]; Look(Branch(Fold(config, Overrides(features))), p) == At(Leaf(s))
  {
    hide FeatureConfig, Look, Fold;
    var (f, p, s) := FEATURE_SETTINGS[k];
    FeatureLeaves(k);
    SettingsTakeEffect(config, features, f, p, s);
  }
}
