/**
 * `DataVisualizer` of src/data_ops/data_visualizer.py: the registry of
 * scenarios keyed by a sanitised name, and the plotting decisions of
 * `plot_comparison` that do not draw anything.
 */
module DataViz {
  import opened Wrappers
  import opened Dicts
  import opened PyStrings

  /** A result value: a list whose elements may be `None`, or anything that is not a list. */
  datatype Value = List(items: seq<Option<real>>) | NotList

  /** A registry entry: `{'results': results, 'label': label}`. */
  datatype Scenario = Scenario(results: Dict<string, Value>, legend: string)

  const ReferenceKey: string := "reference_profile"
  const FallbackName: string := "all_scenarios"

  // ---------------------------------------------------------------------
  // The registry key

  /** `os.path.basename(p)`: what follows the last `/`. */
  function Basename(p: string): (r: string)
    ensures '/' !in r
    ensures |r| <= |p| && r == p[|p| - |r|..]
    ensures |r| < |p| ==> p[|p| - |r| - 1] == '/'
  {
    match LastIndexOf(p, '/')
    case None => p
    case Some(i) => p[i + 1..]
  }

  predicate AllDots(s: string) {
    forall j :: 0 <= j < |s| ==> s[j] == '.'
  }

  /**
   * `os.path.splitext(p)[0]` for a name without `/`: cut at the last `.`,
   * unless only dots precede it (`.env` keeps its dot).
   */
  function SplitextRoot(p: string): (r: string)
    ensures |r| <= |p| && r == p[..|r|]
    ensures r != p ==> p[|r|] == '.' && '.' !in p[|r| + 1..] && !AllDots(r)
    ensures r == p ==> '.' !in p || AllDots(p[..LastIndexOf(p, '.').value])
  {
    match LastIndexOf(p, '.')
    case None => p
    case Some(d) => if !AllDots(p[..d]) then p[..d] else p
  }

  /** The key `add_scenario` derives from a scenario name. */
  function ScenarioKey(name: string): (key: string)
    ensures ' ' !in key && '/' !in key
  {
    var base := Basename(name);
    var root := SplitextRoot(base);
    assert '/' !in root by {
      assert forall j :: 0 <= j < |root| ==> root[j] == base[j];
    }
    ReplaceRemovesChar(root, ' ', "_");
    ReplaceKeepsAbsent(root, " ", "_", '/');
    Replace(root, " ", "_")
  }

  /** `label if label else key`. */
  function StoredLabel(legend: Option<string>, key: string): string {
    if legend.Some? && legend.value != "" then legend.value else key
  }

  /** The basename of `dir/base` is `base` when `base` holds no `/`. */
  lemma BasenameAfterSlash(dir: string, base: string)
    requires '/' !in base
    ensures Basename(dir + "/" + base) == base
  {
    assert dir + "/" + base == dir + ['/'] + base;
    LastIndexOfBefore(dir, '/', base);
  }

  /** The root of `stem.ext` is `stem` when the extension holds no dot and the stem is not only dots. */
  lemma RootBeforeDot(stem: string, ext: string)
    requires '.' !in ext && !AllDots(stem)
    ensures SplitextRoot(stem + "." + ext) == stem
  {
    var base := stem + "." + ext;
    assert base == stem + ['.'] + ext;
    LastIndexOfBefore(stem, '.', ext);
    assert base[..|stem|] == stem;
  }

  /** A name made of dots, a final dot and an extension keeps the whole name as its root. */
  lemma RootOfHiddenName(dots: string, ext: string)
    requires AllDots(dots) && '.' !in ext
    ensures SplitextRoot(dots + "." + ext) == dots + "." + ext
  {
    var base := dots + "." + ext;
    assert base == dots + ['.'] + ext;
    LastIndexOfBefore(dots, '.', ext);
    assert base[..|dots|] == dots;
  }

  /**
   * A name `dir/stem.ext`, with an extension free of dots and a stem that is
   * not only dots, gets the key `stem` with spaces turned into underscores.
   */
  lemma KeyDropsDirAndExtension(dir: string, stem: string, ext: string)
    requires '/' !in stem && '/' !in ext && '.' !in ext && !AllDots(stem)
    ensures ScenarioKey(dir + "/" + stem + "." + ext) == Replace(stem, " ", "_")
  {
    var base := stem + "." + ext;
    Regroup(dir + "/", stem, ".", ext);
    KeyOfPath(dir, base);
    RootBeforeDot(stem, ext);
  }

  /** The key of `dir/base` is the root of `base` with spaces turned into underscores. */
  lemma KeyOfPath(dir: string, base: string)
    requires '/' !in base
    ensures ScenarioKey(dir + "/" + base) == Replace(SplitextRoot(base), " ", "_")
  {
    BasenameAfterSlash(dir, base);
  }

  /** A hidden file `dir/...ext` (only dots before its last dot) keeps its whole name. */
  lemma HiddenFileKeepsName(dir: string, dots: string, ext: string)
    requires AllDots(dots) && '/' !in ext && '.' !in ext && ' ' !in ext
    ensures ScenarioKey(dir + "/" + dots + "." + ext) == dots + "." + ext
  {
    var base := dots + "." + ext;
    Regroup(dir + "/", dots, ".", ext);
    assert '/' !in dots && ' ' !in dots;
    KeyOfPath(dir, base);
    RootOfHiddenName(dots, ext);
    ReplaceAbsent(base, ' ', "_");
  }

  lemma SpaceInExampleStem()
    ensures Replace("x y", " ", "_") == "x_y"
  {
    assert "x y"[..1] == "x" && "x y"[1..] == " y" && " y"[..1] == " " && " y"[1..] == "y";
    assert Replace("y", " ", "_") == "y";
    assert Replace(" y", " ", "_") == "_" + Replace("y", " ", "_");
  }

  lemma KeyOfFirstExample()
    ensures ScenarioKey("a/x y.csv") == "x_y"
  {
    assert "x y"[0] != '.';
    assert "a/x y.csv" == "a" + "/" + "x y" + "." + "csv";
    KeyDropsDirAndExtension("a", "x y", "csv");
    SpaceInExampleStem();
  }

  lemma KeyOfSecondExample()
    ensures ScenarioKey("b/x_y.json") == "x_y"
  {
    var stem := "x_y";
    assert stem[0] != '.' && ' ' !in stem;
    assert "b/x_y.json" == "b" + "/" + stem + "." + "json";
    ReplaceAbsent(stem, ' ', "_");
    KeyDropsDirAndExtension("b", stem, "json");
  }

  /**
   * Different names can share a key: registering the second then overwrites
   * the entry of the first where it stands.
   */
  lemma NamesCanCollide(registry: Dict<string, Scenario>, first: Scenario, second: Scenario)
    ensures ScenarioKey("a/x y.csv") == ScenarioKey("b/x_y.json") == "x_y"
    ensures Set(Set(registry, ScenarioKey("a/x y.csv"), first), ScenarioKey("b/x_y.json"), second)
      == Set(registry, "x_y", second)
  {
    KeyOfFirstExample();
    KeyOfSecondExample();
    SetOverwrite(registry, "x_y", first, second);
  }

  // ---------------------------------------------------------------------
  // What plot_comparison looks at

  /** `any(v is not None for v in values)`. */
  function AnyNotNone(values: seq<Option<real>>): (b: bool)
    ensures b <==> exists i :: 0 <= i < |values| && values[i].Some?
  {
    if values == [] then false
    else if values[0].Some? then true
    else
      var b := AnyNotNone(values[1..]);
      assert forall i :: 1 <= i < |values| ==> values[1..][i - 1] == values[i];
      b
  }

  /** `isinstance(v, list) and any(x is not None for x in v)`, where a missing key reads as `None`. */
  predicate HasData(v: Option<Value>) {
    v.Some? && v.value.List? && AnyNotNone(v.value.items)
  }

  /**
   * The positions of the scenarios whose label is truthy (non-empty): all of
   * them, each once, in registry order.
   */
  function TruthyIndices(scenarios: Dict<string, Scenario>): (idx: seq<nat>)
    ensures forall i :: 0 <= i < |idx| ==> idx[i] < |scenarios| && scenarios[idx[i]].1.legend != ""
    ensures forall i, j :: 0 <= i < j < |idx| ==> idx[i] < idx[j]
    ensures forall j :: 0 <= j < |scenarios| && scenarios[j].1.legend != "" ==> j in idx
  {
    if scenarios == [] then []
    else
      var n := |scenarios| - 1;
      var p := scenarios[..n];
      var prev := TruthyIndices(p);
      assert forall j :: 0 <= j < n ==> p[j] == scenarios[j];
      if scenarios[n].1.legend != "" then prev + [n] else prev
  }

  /**
   * `[s['label'] for s in scenarios.values() if s.get('label')]`: exactly
   * the truthy labels, in registry order.
   */
  function TruthyLabels(scenarios: Dict<string, Scenario>): (labels: seq<string>)
    ensures |labels| == |TruthyIndices(scenarios)|
    ensures forall i :: 0 <= i < |labels| ==> labels[i] == scenarios[TruthyIndices(scenarios)[i]].1.legend
    ensures forall i :: 0 <= i < |labels| ==> labels[i] != ""
  {
    if scenarios == [] then []
    else
      var n := |scenarios| - 1;
      var p := scenarios[..n];
      var rest := TruthyLabels(p);
      assert forall j :: 0 <= j < n ==> p[j] == scenarios[j];
      if scenarios[n].1.legend != "" then rest + [scenarios[n].1.legend] else rest
  }

  /** Spaces become `_`, slashes and backslashes become `-`. */
  function SanitizeForPath(s: string): (r: string)
    ensures ' ' !in r && '/' !in r && '\\' !in r
  {
    var r1 := Replace(s, " ", "_");
    ReplaceRemovesChar(s, ' ', "_");
    var r2 := Replace(r1, "/", "-");
    ReplaceRemovesChar(r1, '/', "-");
    ReplaceKeepsAbsent(r1, "/", "-", ' ');
    ReplaceRemovesChar(r2, '\\', "-");
    ReplaceKeepsAbsent(r2, "\\", "-", ' ');
    ReplaceKeepsAbsent(r2, "\\", "-", '/');
    Replace(r2, "\\", "-")
  }

  /** A string with no space, slash or backslash is left as it is. */
  lemma SanitizeClean(s: string)
    requires ' ' !in s && '/' !in s && '\\' !in s
    ensures SanitizeForPath(s) == s
  {
    ReplaceAbsent(s, ' ', "_");
    ReplaceAbsent(s, '/', "-");
    ReplaceAbsent(s, '\\', "-");
  }

  /** The label part of a comparison plot's file name. */
  function FilenameLabelOf(scenarios: Dict<string, Scenario>): string {
    var joined := Join("_", TruthyLabels(scenarios));
    SanitizeForPath(if joined == "" then FallbackName else joined)
  }

  class DataVisualizer {
    var scenarios: Dict<string, Scenario>
    var question: Option<string>

    constructor(question: Option<string>)
      ensures scenarios == [] && this.question == question
    {
      scenarios := [];
      this.question := question;
    }

    /**
     * `add_scenario`: the name is reduced to its basename, stripped of its
     * extension and given underscores for spaces; exactly that key is
     * written, and the label falls back to the key.
     */
    method AddScenario(name: string, results: Dict<string, Value>, legend: Option<string>)
      modifies this
      ensures scenarios == Set(old(scenarios), ScenarioKey(name), Scenario(results, StoredLabel(legend, ScenarioKey(name))))
      ensures question == old(question)
    {
      var key := Basename(name);
      key := SplitextRoot(key);
      key := Replace(key, " ", "_");
      scenarios := Set(scenarios, key, Scenario(results, if legend.Some? && legend.value != "" then legend.value else key));
    }

    /** The all-`None` test: a key is skipped exactly when no scenario holds data for it. */
    method SkipKey(k: string) returns (allNone: bool)
      ensures allNone <==> forall i :: 0 <= i < |scenarios| ==> !HasData(Get(scenarios[i].1.results, k))
    {
      var all := scenarios;
      allNone := true;
      var i := 0;
      while i < |all|
        invariant 0 <= i <= |all|
        invariant allNone
        invariant forall j :: 0 <= j < i ==> !HasData(Get(all[j].1.results, k))
      {
        var values := Get(all[i].1.results, k);
        if HasData(values) {
          allNone := false;
          break;
        }
        i := i + 1;
      }
    }

    /** The reference profile: that of the first scenario, in registry order, holding one with data. */
    method ReferenceProfile() returns (profile: Option<seq<Option<real>>>)
      ensures profile.None? <==> forall i :: 0 <= i < |scenarios| ==> !HasData(Get(scenarios[i].1.results, ReferenceKey))
      ensures profile.Some? ==> exists i :: (0 <= i < |scenarios|
        && Get(scenarios[i].1.results, ReferenceKey) == Some(List(profile.value))
        && AnyNotNone(profile.value)
        && forall j :: 0 <= j < i ==> !HasData(Get(scenarios[j].1.results, ReferenceKey)))
    {
      var all := scenarios;
      profile := None;
      var i := 0;
      while i < |all|
        invariant 0 <= i <= |all|
        invariant profile.None?
        invariant forall j :: 0 <= j < i ==> !HasData(Get(all[j].1.results, ReferenceKey))
      {
        var refProfile := Get(all[i].1.results, ReferenceKey);
        if HasData(refProfile) {
          profile := Some(refProfile.value.items);
          assert Get(all[i].1.results, ReferenceKey) == Some(List(profile.value));
          break;
        }
        i := i + 1;
      }
    }

    /** The label part of the saved file name, as the source builds it by reassignment. */
    method FilenameLabel() returns (names: string)
      ensures names == FilenameLabelOf(scenarios)
      ensures ' ' !in names && '/' !in names && '\\' !in names
    {
      names := Join("_", TruthyLabels(scenarios));
      if names == "" {
        names := FallbackName;
      }
      ghost var joined := names;
      names := Replace(names, " ", "_");
      names := Replace(names, "/", "-");
      names := Replace(names, "\\", "-");
      assert names == SanitizeForPath(joined);
    }
  }

  /** With no truthy label the file name falls back to `all_scenarios`. */
  lemma NoLabelsFallback(scenarios: Dict<string, Scenario>)
    requires forall i :: 0 <= i < |scenarios| ==> scenarios[i].1.legend == ""
    ensures FilenameLabelOf(scenarios) == FallbackName
  {
    NoTruthyLabels(scenarios);
    FallbackClean();
  }

  lemma FallbackClean()
    ensures SanitizeForPath(FallbackName) == FallbackName
  {
    var f := FallbackName;
    assert ' ' !in f && '/' !in f && '\\' !in f;
    SanitizeClean(f);
  }

  lemma NoTruthyLabels(scenarios: Dict<string, Scenario>)
    requires forall i :: 0 <= i < |scenarios| ==> scenarios[i].1.legend == ""
    ensures TruthyLabels(scenarios) == []
  {
    var idx := TruthyIndices(scenarios);
    assert |idx| == 0 by {
      if |idx| > 0 {
        assert false;
      }
    }
  }

  /** Clean labels are joined with `_` and otherwise left as they are. */
  lemma CleanLabelsJoined(scenarios: Dict<string, Scenario>)
    requires TruthyLabels(scenarios) != []
    requires forall i :: 0 <= i < |scenarios| ==>
      ' ' !in scenarios[i].1.legend && '/' !in scenarios[i].1.legend && '\\' !in scenarios[i].1.legend
    ensures FilenameLabelOf(scenarios) == Join("_", TruthyLabels(scenarios))
  {
    var labels := TruthyLabels(scenarios);
    LabelsFrom(scenarios);
    forall i | 0 <= i < |labels| ensures ' ' !in labels[i] && '/' !in labels[i] && '\\' !in labels[i] {
      assert LabelOfSome(scenarios, labels[i]);
    }
    CleanJoin(labels);
  }

  /** Non-empty parts free of space, slash and backslash join into a non-empty string that sanitising leaves alone. */
  lemma CleanJoin(labels: seq<string>)
    requires labels != [] && labels[0] != ""
    requires forall i :: 0 <= i < |labels| ==> ' ' !in labels[i] && '/' !in labels[i] && '\\' !in labels[i]
    ensures Join("_", labels) != "" && SanitizeForPath(Join("_", labels)) == Join("_", labels)
  {
    JoinKeepsAbsent("_", labels, ' ');
    JoinKeepsAbsent("_", labels, '/');
    JoinKeepsAbsent("_", labels, '\\');
    JoinNonEmpty("_", labels);
    SanitizeClean(Join("_", labels));
  }

  /** `l` is the label of one of the scenarios. */
  ghost predicate LabelOfSome(scenarios: Dict<string, Scenario>, l: string) {
    exists j :: 0 <= j < |scenarios| && scenarios[j].1.legend == l
  }

  /** Every truthy label is the label of some scenario. */
  lemma LabelsFrom(scenarios: Dict<string, Scenario>)
    ensures forall i :: 0 <= i < |TruthyLabels(scenarios)| ==> LabelOfSome(scenarios, TruthyLabels(scenarios)[i])
  {
    var labels, idx := TruthyLabels(scenarios), TruthyIndices(scenarios);
    forall i | 0 <= i < |labels| ensures LabelOfSome(scenarios, labels[i]) {
      assert scenarios[idx[i]].1.legend == labels[i];
    }
  }
}
