/**
 * The pure helpers of the scenario tooling: scenario selection by
 * case-insensitive name, the (currently trivial) unique-filename helper and
 * the path under which a scenario's dual values are written.
 */
module Utils {
  import opened Wrappers
  import opened Dicts
  import opened PyStrings

  // ---------------------------------------------------------------------
  // get_unique_filename

  /**
   * `get_unique_filename(base_name)`: the function returns before its
   * uniquifying loop, so the name comes back unchanged.
   */
  function GetUniqueFilename(baseName: string): (r: string)
    ensures r == baseName
  {
    baseName
  }

  // ---------------------------------------------------------------------
  // select_scenarios

  /** The `keys` argument: one name, or a list of names. */
  datatype Selector = Name(name: string) | Names(names: seq<string>)

  /** The three spellings that select everything; the test is case-sensitive. */
  predicate IsAll(keys: Selector) {
    keys == Name("All") || keys == Names(["All"]) || keys == Names(["all"])
  }

  /** A single name is treated as a one-element list. */
  function Requested(keys: Selector): seq<string> {
    match keys
    case Name(n) => [n]
    case Names(ns) => ns
  }

  /** The key of `d`, latest in iteration order, whose lower-case form is `l`. */
  function LastWithLower<V>(d: Dict<string, V>, l: string): (r: Option<string>)
    ensures r.Some? ==> r.value in Keys(d) && Lower(r.value) == l
    ensures r.None? <==> forall i :: 0 <= i < |d| ==> Lower(d[i].0) != l
  {
    if d == [] then None
    else if Lower(d[|d| - 1].0) == l then
      assert Keys(d)[|d| - 1] == d[|d| - 1].0;
      Some(d[|d| - 1].0)
    else
      var r := LastWithLower(d[..|d| - 1], l);
      LowerAbsentPrefix(d, d[..|d| - 1], l);
      r
  }

  /** What `LastWithLower` needs of the prefix when the last key does not match. */
  lemma LowerAbsentPrefix<V>(d: Dict<string, V>, p: Dict<string, V>, l: string)
    requires d != [] && p == d[..|d| - 1] && Lower(d[|d| - 1].0) != l
    ensures (forall i :: 0 <= i < |d| ==> Lower(d[i].0) != l) <==> (forall i :: 0 <= i < |p| ==> Lower(p[i].0) != l)
    ensures forall k :: k in Keys(p) ==> k in Keys(d)
  {
    var n := |d| - 1;
    forall i | 0 <= i < n ensures p[i] == d[i] { }
    if forall i :: 0 <= i < n ==> Lower(p[i].0) != l {
      forall i | 0 <= i < |d| ensures Lower(d[i].0) != l {
        if i < n {
          assert Lower(p[i].0) != l;
        } else {
          assert i == n;
        }
      }
    }
    KeysPrefix(d, n);
  }

  /**
   * `lower_map = {k.lower(): k for k in d}`: a later key with the same
   * lower-case form overwrites an earlier one.
   */
  function LowerMap<V>(d: Dict<string, V>): (m: Dict<string, string>)
    ensures forall l :: Get(m, l) == LastWithLower(d, l)
  {
    if d == [] then []
    else
      var p := d[..|d| - 1];
      var m := Set(LowerMap(p), Lower(d[|d| - 1].0), d[|d| - 1].0);
      assert forall l :: LastWithLower(d, l) == if Lower(d[|d| - 1].0) == l then Some(d[|d| - 1].0) else LastWithLower(p, l);
      m
  }

  /** `selected` after the loop has run over `names`. */
  function Selection<V>(d: Dict<string, V>, names: seq<string>): Dict<string, V> {
    if names == [] then []
    else
      var prev := Selection(d, names[..|names| - 1]);
      match Get(LowerMap(d), Lower(names[|names| - 1]))
      case None => prev
      case Some(orig) => Set(prev, orig, Get(d, orig).value)
  }

  /** `select_scenarios(d, keys)`. */
  function Select<V>(d: Dict<string, V>, keys: Selector): Dict<string, V> {
    if IsAll(keys) then d else Selection(d, Requested(keys))
  }

  /** The same, with the source's loop over the requested names. */
  method SelectScenarios<V>(d: Dict<string, V>, keys: Selector) returns (r: Dict<string, V>)
    ensures r == Select(d, keys)
  {
    if IsAll(keys) {
      return d;
    }
    var names := Requested(keys);
    var lowerMap := LowerMap(d);
    var selected: Dict<string, V> := [];
    for i := 0 to |names|
      invariant selected == Selection(d, names[..i])
    {
      SelectionPrefixStep(d, names, i);
      var kLower := Lower(names[i]);
      match Get(lowerMap, kLower) {
        case Some(orig) =>
          selected := Set(selected, orig, Get(d, orig).value);
        case None =>
      }
    }
    assert names[..|names|] == names;
    return selected;
  }

  /** One more requested name is one more step of the loop. */
  lemma SelectionPrefixStep<V>(d: Dict<string, V>, names: seq<string>, i: nat)
    requires i < |names|
    ensures Get(LowerMap(d), Lower(names[i])).None? ==> Selection(d, names[..i + 1]) == Selection(d, names[..i])
    ensures Get(LowerMap(d), Lower(names[i])).Some? ==>
      var orig := Get(LowerMap(d), Lower(names[i])).value;
      Get(d, orig).Some? && Selection(d, names[..i + 1]) == Set(Selection(d, names[..i]), orig, Get(d, orig).value)
  {
    assert names[..i + 1][..i] == names[..i] && names[..i + 1][i] == names[i];
  }

  /** Some requested name selects `k`: it lower-cases to `k`'s form and `k` is the latest such key. */
  ghost predicate Requests<V>(d: Dict<string, V>, names: seq<string>, k: string) {
    exists j :: 0 <= j < |names| && LastWithLower(d, Lower(names[j])) == Some(k)
  }

  lemma RequestsSnoc<V>(d: Dict<string, V>, names: seq<string>, n: string, k: string)
    ensures Requests(d, names + [n], k) <==> Requests(d, names, k) || LastWithLower(d, Lower(n)) == Some(k)
  {
    var s := names + [n];
    if Requests(d, s, k) {
      var j :| 0 <= j < |s| && LastWithLower(d, Lower(s[j])) == Some(k);
      if j < |names| {
        assert s[j] == names[j];
      }
    }
    if Requests(d, names, k) {
      var j :| 0 <= j < |names| && LastWithLower(d, Lower(names[j])) == Some(k);
      assert s[j] == names[j];
    }
    if LastWithLower(d, Lower(n)) == Some(k) {
      assert s[|names|] == n;
    }
  }

  /**
   * Every selected key is a key of `d` holding the value `d` holds for it,
   * and a key is selected exactly when some requested name lower-cases to
   * its lower-case form and it is the latest key of `d` with that form.
   */
  lemma {:induction false} SelectionSpec<V>(d: Dict<string, V>, names: seq<string>)
    ensures forall k :: Get(Selection(d, names), k).Some? ==> Get(Selection(d, names), k) == Get(d, k)
    ensures forall k :: Get(Selection(d, names), k).Some? <==> Requests(d, names, k)
  {
    if names != [] {
      var p := names[..|names| - 1];
      var n := names[|names| - 1];
      assert names == p + [n];
      SelectionSpec(d, p);
      forall k ensures Get(Selection(d, names), k).Some? <==> Requests(d, names, k) {
        RequestsSnoc(d, p, n, k);
      }
    }
  }

  /** Selection never adds the same key twice. */
  lemma {:induction false} SelectionDistinct<V>(d: Dict<string, V>, names: seq<string>)
    ensures DistinctKeys(Selection(d, names))
  {
    if names != [] {
      var prev := Selection(d, names[..|names| - 1]);
      SelectionDistinct(d, names[..|names| - 1]);
      match Get(LowerMap(d), Lower(names[|names| - 1])) {
        case None =>
        case Some(orig) => SetDistinct(prev, orig, Get(d, orig).value);
      }
    }
  }

  /** A key of `d` shadowed by a later key differing only in case is never selected. */
  lemma {:induction false} ShadowedByLater<V>(d: Dict<string, V>, i: nat, j: nat)
    requires DistinctKeys(d) && i < j < |d| && Lower(d[i].0) == Lower(d[j].0)
    ensures forall l :: LastWithLower(d, l) != Some(d[i].0)
  {
    forall l ensures LastWithLower(d, l) != Some(d[i].0) {
      if l == Lower(d[i].0) {
        if j < |d| - 1 && Lower(d[|d| - 1].0) != l {
          var p := d[..|d| - 1];
          assert p[i] == d[i] && p[j] == d[j];
          ShadowedByLater(p, i, j);
        }
      } else if LastWithLower(d, l).Some? {
        assert Lower(LastWithLower(d, l).value) == l;
      }
    }
  }

  /**
   * Selecting by name: every selected entry is an entry of `d`; a key is
   * selected exactly when a requested name matches it case-insensitively
   * and no later key of `d` does; unknown names are ignored.
   */
  lemma SelectSpec<V>(d: Dict<string, V>, keys: Selector)
    requires !IsAll(keys)
    ensures DistinctKeys(Select(d, keys))
    ensures forall k :: Get(Select(d, keys), k).Some? ==> Get(Select(d, keys), k) == Get(d, k)
    ensures forall k :: Get(Select(d, keys), k).Some? <==> Requests(d, Requested(keys), k)
  {
    SelectionSpec(d, Requested(keys));
    SelectionDistinct(d, Requested(keys));
  }

  /** Of two keys of `d` that differ only in case, the earlier one is never selected. */
  lemma ShadowedNotSelected<V>(d: Dict<string, V>, keys: Selector, i: nat, j: nat)
    requires !IsAll(keys)
    requires DistinctKeys(d) && i < j < |d| && Lower(d[i].0) == Lower(d[j].0)
    ensures Get(Select(d, keys), d[i].0).None?
  {
    SelectionSpec(d, Requested(keys));
    ShadowedByLater(d, i, j);
  }

  /**
   * The "select everything" test is case-sensitive: `"all"` and `["ALL"]`
   * are ordinary names, and `"all"` is not the same as `["all"]`.
   */
  lemma AllIsCaseSensitive()
    ensures Select([("A", 1)], Names(["all"])) == [("A", 1)]
    ensures Select([("A", 1)], Name("All")) == [("A", 1)]
    ensures Select([("A", 1)], Name("all")) == []
    ensures Select([("A", 1)], Names(["ALL"])) == []
  {
    var d := [("A", 1)];
    assert d[..0] == [];
    assert Lower("A") == "a";
    assert LastWithLower(d, "all") == None;
    assert Lower("all") == "all" && Lower("ALL") == "all";
    assert ["all"][..0] == [] && ["ALL"][..0] == [];
  }

  // ---------------------------------------------------------------------
  // The dual-values file name

  /** The path before any suffix: `txt/{question}/duals_{name with spaces as underscores}`. */
  function DualsStem(question: string, name: string): string {
    "txt/" + question + "/duals_" + Replace(name, " ", "_")
  }

  /** The dual-values file name, one `str.replace` after another. */
  function DualsPath(question: string, name: string, varyTariff: bool, fixedDa: Option<string>): string {
    var f0 := DualsStem(question, name) + ".txt";
    var f1 := if varyTariff then Replace(f0, ".txt", "_varytariff.txt") else f0;
    if fixedDa.Some? then Replace(f1, ".txt", "_fixedDA" + fixedDa.value + ".txt") else f1
  }

  /** The same, as the source's step-by-step reassignment of `filename`. */
  method DualsFilename(question: string, name: string, varyTariff: bool, fixedDa: Option<string>)
    returns (filename: string)
    ensures filename == DualsPath(question, name, varyTariff, fixedDa)
  {
    filename := "txt/" + question + "/duals_" + Replace(name, " ", "_") + ".txt";
    if varyTariff {
      filename := Replace(filename, ".txt", "_varytariff.txt");
    }
    if fixedDa.Some? {
      filename := Replace(filename, ".txt", "_fixedDA" + fixedDa.value + ".txt");
    }
  }

  /** The scenario part of the name holds no space. */
  lemma DualsNameHasNoSpace(name: string)
    ensures ' ' !in Replace(name, " ", "_")
  {
    ReplaceRemovesChar(name, ' ', "_");
  }

  /** Replacing `.txt` in a stem free of `.txt` only rewrites the suffix. */
  lemma SuffixStep(stem: string, ins: string)
    requires !Occurs(stem, ".txt")
    ensures Replace(stem + ".txt", ".txt", ins + ".txt") == stem + ins + ".txt"
  {
    TxtOnlySuffix(stem);
    ReplaceOnlySuffix(stem, ".txt", ins + ".txt");
  }

  /** A string starting with `_` and free of `.txt` keeps a `.txt`-free stem free of it. */
  lemma ExtendStem(stem: string, ins: string)
    requires !Occurs(stem, ".txt") && !Occurs(ins, ".txt") && ins != [] && ins[0] == '_'
    ensures !Occurs(stem + ins, ".txt")
  {
    assert ins[0] !in ".txt";
    ConcatNoOccurrence(stem, ins, ".txt");
  }

  /**
   * When the stem does not contain `.txt`, the suffixes land just before
   * the final `.txt`: first `_varytariff`, then
   * `_fixedDA{fixed_da}`.
   */
  lemma DualsPathSuffixes(question: string, name: string, varyTariff: bool, fixedDa: Option<string>)
    requires !Occurs(DualsStem(question, name), ".txt")
    ensures DualsPath(question, name, varyTariff, fixedDa)
      == DualsStem(question, name)
         + (if varyTariff then "_varytariff" else "")
         + (if fixedDa.Some? then "_fixedDA" + fixedDa.value else "")
         + ".txt"
  {
    var stem := DualsStem(question, name);
    var f0 := stem + ".txt";
    var f1 := if varyTariff then Replace(f0, ".txt", "_varytariff.txt") else f0;
    var s1 := stem + (if varyTariff then "_varytariff" else "");
    if varyTariff {
      assert "_varytariff.txt" == "_varytariff" + ".txt";
      SuffixStep(stem, "_varytariff");
      MissingCharNoOccurrence("_varytariff", ".txt", 0);
      ExtendStem(stem, "_varytariff");
    } else {
      assert s1 == stem;
    }
    assert f1 == s1 + ".txt" && !Occurs(s1, ".txt");
    if fixedDa.Some? {
      var ins := "_fixedDA" + fixedDa.value;
      assert "_fixedDA" + fixedDa.value + ".txt" == ins + ".txt";
      SuffixStep(s1, ins);
      assert DualsPath(question, name, varyTariff, fixedDa) == s1 + ins + ".txt";
    } else {
      assert DualsPath(question, name, varyTariff, fixedDa) == s1 + ".txt";
      assert s1 + "" == s1;
    }
  }

  /**
   * Every `.txt` is rewritten, not only the suffix: a scenario name that
   * itself ends in `.txt` gets the `_varytariff` suffix twice.
   */
  lemma DualsPathRewritesEveryTxt(question: string, base: string)
    requires '.' !in question && '.' !in base && ' ' !in base
    ensures DualsPath(question, base + ".txt", true, None)
      == "txt/" + question + "/duals_" + base + "_varytariff.txt" + "_varytariff.txt"
  {
    var name := base + ".txt";
    FirstCharAbsent(name, [], " ");
    assert name + [] == name;
    ReplacePrefixFree(name, [], " ", "_");
    assert Replace(name, " ", "_") == name;
    var prefix := "txt/" + question + "/duals_" + base;
    var f0 := DualsStem(question, name) + ".txt";
    assert f0 == prefix + (".txt" + ".txt");
    FirstCharAbsent(prefix, ".txt" + ".txt", ".txt");
    ReplacePrefixFree(prefix, ".txt" + ".txt", ".txt", "_varytariff.txt");
    ReplaceTwice(".txt", "_varytariff.txt");
  }
}
