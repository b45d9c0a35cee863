/**
 * `Runner._results_flat_to_lists` of src/runner/runner.py: result keys of
 * the form `<base>_<digits>` are regrouped into one list per base, ordered
 * by index; every other key is carried over as it is.
 */
module Runner {
  import opened Wrappers
  import opened Dicts
  import opened PyStrings

  // ---------------------------------------------------------------------
  // The key pattern: re.match(r"(.+)_([0-9]+)$", k)

  predicate IsDigit(c: char) { '0' <= c <= '9' }

  predicate AllDigits(s: string) { forall i :: 0 <= i < |s| ==> IsDigit(s[i]) }

  /** `int(ds)` for a string of ASCII digits; leading zeros add nothing. */
  function DigitsValue(ds: string): nat
    requires AllDigits(ds)
  {
    if ds == [] then 0 else DigitsValue(ds[..|ds| - 1]) * 10 + (ds[|ds| - 1] as int - '0' as int)
  }

  /** The part of `k` before the position where `$` matches: it also matches ahead of one final newline. */
  function MatchBody(k: string): string {
    if |k| > 0 && k[|k| - 1] == '\n' then k[..|k| - 1] else k
  }

  /**
   * The groups of the pattern, the index converted by `int`. Since the digits
   * must run to the end, the separator can only be the last `_`; `.` does not
   * match a newline, so the base holds none.
   */
  function ParseIndexedKey(k: string): Option<(string, nat)> {
    var body := MatchBody(k);
    match LastIndexOf(body, '_')
    case None => None
    case Some(u) =>
      if 1 <= u && u + 1 < |body| && AllDigits(body[u + 1..]) && '\n' !in body[..u] then
        Some((body[..u], DigitsValue(body[u + 1..])))
      else None
  }

  /**
   * A key that matches is a non-empty base without newline, `_`, and a
   * non-empty run of digits whose value is the index, possibly followed by
   * one newline.
   */
  lemma ParseSound(k: string)
    requires ParseIndexedKey(k).Some?
    ensures var (b, i) := ParseIndexedKey(k).value;
      b != [] && '\n' !in b
      && exists ds :: ds != [] && AllDigits(ds) && DigitsValue(ds) == i && (k == b + "_" + ds || k == b + "_" + ds + "\n")
  {
    var body := MatchBody(k);
    var u := LastIndexOf(body, '_').value;
    var ds := body[u + 1..];
    assert body == body[..u] + "_" + ds;
    assert k == body || k == body + "\n";
  }

  /**
   * A non-empty base without newline, `_`, and a non-empty digit string
   * parse back to that base and the digits' value, with or without one
   * final newline.
   */
  lemma ParseSplit(b: string, ds: string)
    requires b != [] && '\n' !in b && ds != [] && AllDigits(ds)
    ensures ParseIndexedKey(b + "_" + ds) == Some((b, DigitsValue(ds)))
    ensures ParseIndexedKey(b + "_" + ds + "\n") == Some((b, DigitsValue(ds)))
  {
    var body := b + "_" + ds;
    assert IsDigit(ds[|ds| - 1]);
    assert MatchBody(body) == body;
    assert MatchBody(body + "\n") == body;
    forall i | 0 <= i < |ds| ensures ds[i] != '_' {
      assert IsDigit(ds[i]);
    }
    LastIndexOfBefore(b, '_', ds);
    assert body[..|b|] == b && body[|b| + 1..] == ds;
  }

  /** The base is greedy: `a_1_2` is index 2 of base `a_1`. */
  lemma ParseGreedyBase()
    ensures ParseIndexedKey("a_1_2") == Some(("a_1", 2))
  {
    var b, d := "a_1", "2";
    assert "a_1_2" == b + "_" + d;
    assert '\n' !in b && d[..0] == [] && DigitsValue(d) == 2;
    ParseSplit(b, d);
  }

  /** Leading zeros parse away: `p_07` is index 7 of base `p`. */
  lemma ParseLeadingZero()
    ensures ParseIndexedKey("p_07") == Some(("p", 7))
  {
    var b, d := "p", "07";
    assert "p_07" == b + "_" + d;
    LeadingZeroValue();
    ParseSplit(b, d);
  }

  lemma LeadingZeroValue()
    ensures DigitsValue("07") == 7
  {
    var z := "0";
    assert "07"[..1] == z && z[..0] == "";
    assert DigitsValue(z) == 0;
  }

  /**
   * A key whose last `_` is not followed by digits only is not indexed, and
   * is carried over under its own name with its value.
   */
  lemma ParseUnindexed<V>(v: V)
    ensures ParseIndexedKey("p_import") == None
    ensures FlatToLists([("p_import", v)]) == Ok([("p_import", Kept(v))])
  {
    assert "p_import" == "p" + ['_'] + "import";
    LastIndexOfBefore("p", '_', "import");
    assert "p_import"[2..][0] == 'i';
    SinglePlainKey("p_import", v);
  }

  /** A lone key without index comes out unchanged. */
  lemma SinglePlainKey<V>(k: string, v: V)
    requires ParseIndexedKey(k).None?
    ensures FlatToLists([(k, v)]) == Ok([(k, Kept(v))])
  {
    var s := [(k, v)];
    assert s[..0] == [];
    var g := [(k, Plain(v))];
    assert Grouped(s) == Ok(g);
    assert Convert(g)[0] == (k, Kept(v));
    assert Convert(g) == [(k, Kept(v))];
    assert FlatToLists(s) == Ok(Convert(g));
  }

  // ---------------------------------------------------------------------
  // The stable sort of `values.sort(key=lambda x: x[0])`

  predicate SortedByIndex<V>(s: seq<(nat, V)>) {
    forall i, j :: 0 <= i < j < |s| ==> s[i].0 <= s[j].0
  }

  predicate IndicesAtLeast<V>(s: seq<(nat, V)>, lo: nat) {
    forall i :: 0 <= i < |s| ==> lo <= s[i].0
  }

  /** Insert `e` after every entry whose index is at most its own. */
  function Insert<V>(e: (nat, V), s: seq<(nat, V)>): (r: seq<(nat, V)>)
    ensures |r| == |s| + 1
  {
    if s == [] then [e]
    else if e.0 < s[0].0 then [e] + s
    else [s[0]] + Insert(e, s[1..])
  }

  lemma {:induction false} InsertAtLeast<V>(e: (nat, V), s: seq<(nat, V)>, lo: nat)
    requires IndicesAtLeast(s, lo) && lo <= e.0
    ensures IndicesAtLeast(Insert(e, s), lo)
  {
    if s != [] && e.0 >= s[0].0 {
      InsertAtLeast(e, s[1..], lo);
    }
  }

  /** Python's stable `list.sort` keyed on the index. */
  function SortByIndex<V>(s: seq<(nat, V)>): seq<(nat, V)> {
    if s == [] then [] else Insert(s[|s| - 1], SortByIndex(s[..|s| - 1]))
  }

  /** The entries with index `j`, in order. */
  function WithIndex<V>(s: seq<(nat, V)>, j: nat): seq<(nat, V)> {
    if s == [] then [] else (if s[0].0 == j then [s[0]] else []) + WithIndex(s[1..], j)
  }

  lemma {:induction false} WithIndexAppend<V>(a: seq<(nat, V)>, b: seq<(nat, V)>, j: nat)
    ensures WithIndex(a + b, j) == WithIndex(a, j) + WithIndex(b, j)
  {
    if a != [] {
      assert (a + b)[0] == a[0] && (a + b)[1..] == a[1..] + b;
      WithIndexAppend(a[1..], b, j);
    } else {
      assert a + b == b;
    }
  }

  lemma {:induction false} WithIndexNone<V>(s: seq<(nat, V)>, j: nat)
    requires IndicesAtLeast(s, j + 1)
    ensures WithIndex(s, j) == []
  {
    if s != [] {
      WithIndexNone(s[1..], j);
    }
  }

  lemma {:induction false} InsertSorted<V>(e: (nat, V), s: seq<(nat, V)>)
    requires SortedByIndex(s)
    ensures SortedByIndex(Insert(e, s))
  {
    if s != [] && e.0 >= s[0].0 {
      InsertSorted(e, s[1..]);
      var r := Insert(e, s[1..]);
      InsertAtLeast(e, s[1..], s[0].0);
      var t := [s[0]] + r;
      assert t[1..] == r && t[0] == s[0];
      forall i, j | 0 <= i < j < |t| ensures t[i].0 <= t[j].0 {
        if i > 0 {
          assert t[i] == r[i - 1] && t[j] == r[j - 1];
        } else {
          assert t[j] == r[j - 1];
        }
      }
    }
  }

  lemma {:induction false} InsertStable<V>(e: (nat, V), s: seq<(nat, V)>, j: nat)
    requires SortedByIndex(s)
    ensures WithIndex(Insert(e, s), j) == WithIndex(s, j) + (if e.0 == j then [e] else [])
  {
    if s == [] {
      assert WithIndex([e], j) == (if e.0 == j then [e] else []) + WithIndex([e][1..], j);
    } else if e.0 < s[0].0 {
      var t := [e] + s;
      assert t[0] == e && t[1..] == s;
      if e.0 == j {
        WithIndexNone(s, j);
      }
    } else {
      InsertStable(e, s[1..], j);
      var t := [s[0]] + Insert(e, s[1..]);
      assert t[0] == s[0] && t[1..] == Insert(e, s[1..]);
    }
  }

  /**
   * The sort orders by index, keeps every entry, and is stable: the entries
   * of each index keep their input order.
   */
  lemma {:induction false} SortByIndexSpec<V>(s: seq<(nat, V)>)
    ensures |SortByIndex(s)| == |s|
    ensures SortedByIndex(SortByIndex(s))
    ensures forall j: nat :: WithIndex(SortByIndex(s), j) == WithIndex(s, j)
  {
    if s != [] {
      var p, e := s[..|s| - 1], s[|s| - 1];
      SortByIndexSpec(p);
      InsertSorted(e, SortByIndex(p));
      forall j: nat ensures WithIndex(SortByIndex(s), j) == WithIndex(s, j) {
        InsertStable(e, SortByIndex(p), j);
        assert s == p + [e];
        WithIndexAppend(p, [e], j);
        assert WithIndex([e], j) == (if e.0 == j then [e] else []) + WithIndex([e][1..], j);
      }
    }
  }

  /** `[v for _, v in values]`. */
  function Values<V>(s: seq<(nat, V)>): (r: seq<V>)
    ensures |r| == |s| && forall i :: 0 <= i < |s| ==> r[i] == s[i].1
  {
    seq(|s|, i requires 0 <= i < |s| => s[i].1)
  }

  // ---------------------------------------------------------------------
  // Grouping (lines 25-33) and conversion (lines 35-42)

  /** An entry of `grouped`: a list of `(idx, v)` tuples, or a value stored as it is. */
  datatype Group<V> = Tuples(entries: seq<(nat, V)>) | Plain(value: V)

  /** An entry of the output: a list of values, or a value carried over. */
  datatype Series<V> = Listed(items: seq<V>) | Kept(value: V)

  /** `grouped[base].append(...)` on a value stored as it is. */
  datatype FlatError = AttributeError(base: string)

  /** One iteration of the first loop. */
  function Step<V>(g: Dict<string, Group<V>>, k: string, v: V): Result<Dict<string, Group<V>>, FlatError> {
    match ParseIndexedKey(k)
    case Some((base, idx)) =>
      var current: Option<Group<V>> := Get(g, base);
      (match current
       case None => Ok(Set(g, base, Tuples([(idx, v)])))
       case Some(Tuples(es)) => Ok(Set(g, base, Tuples(es + [(idx, v)])))
       case Some(Plain(_)) => Err(AttributeError(base)))
    case None => Ok(Set(g, k, Plain(v)))
  }

  /** `grouped` after the first loop has run over `s`. */
  function Grouped<V>(s: Dict<string, V>): Result<Dict<string, Group<V>>, FlatError> {
    if s == [] then Ok([])
    else match Grouped(s[..|s| - 1])
      case Err(e) => Err(e)
      case Ok(g) => Step(g, s[|s| - 1].0, s[|s| - 1].1)
  }

  function ToSeries<V>(g: Group<V>): Series<V> {
    match g
    case Tuples(es) => Listed(Values(SortByIndex(es)))
    case Plain(v) => Kept(v)
  }

  /** The second loop: each group in order, sorted and stripped of its indices. */
  function Convert<V>(g: Dict<string, Group<V>>): (out: Dict<string, Series<V>>)
    ensures |out| == |g| && forall i :: 0 <= i < |g| ==> out[i] == (g[i].0, ToSeries(g[i].1))
  {
    seq(|g|, i requires 0 <= i < |g| => (g[i].0, ToSeries(g[i].1)))
  }

  /** `_results_flat_to_lists(results)`. */
  function FlatToLists<V>(results: Dict<string, V>): Result<Dict<string, Series<V>>, FlatError> {
    match Grouped(results)
    case Err(e) => Err(e)
    case Ok(g) => Ok(Convert(g))
  }

  /** The body of the first loop for one entry `k: v` of `results`. */
  method AddEntry<V>(grouped: Dict<string, Group<V>>, k: string, v: V) returns (r: Result<Dict<string, Group<V>>, FlatError>)
    ensures r == Step(grouped, k, v)
  {
    match ParseIndexedKey(k) {
      case Some((base, idx)) =>
        var current: Option<Group<V>> := Get(grouped, base);
        match current {
          case None =>
            r := Ok(Set(grouped, base, Tuples([(idx, v)])));
          case Some(Tuples(values)) =>
            r := Ok(Set(grouped, base, Tuples(values + [(idx, v)])));
          case Some(Plain(_)) =>
            r := Err(AttributeError(base));
        }
      case None =>
        r := Ok(Set(grouped, k, Plain(v)));
    }
  }

  /** The first loop of `_results_flat_to_lists`: collect `(idx, value)` pairs per base name. */
  method GroupFlat<V>(results: Dict<string, V>) returns (r: Result<Dict<string, Group<V>>, FlatError>)
    ensures r == Grouped(results)
  {
    var grouped: Dict<string, Group<V>> := [];
    var n := 0;
    while n < |results|
      invariant 0 <= n <= |results|
      invariant Grouped(results[..n]) == Ok(grouped)
    {
      var k, v := results[n].0, results[n].1;
      GroupedPrefixStep(results, n);
      var next := AddEntry(grouped, k, v);
      if next.Err? {
        GroupedErrPersists(results, n + 1);
        return next;
      }
      grouped := next.value;
      n := n + 1;
    }
    assert results[..|results|] == results;
    return Ok(grouped);
  }

  /** One more entry of `results` is one more step of the first loop. */
  lemma GroupedPrefixStep<V>(results: Dict<string, V>, n: nat)
    requires n < |results| && Grouped(results[..n]).Ok?
    ensures Grouped(results[..n + 1]) == Step(Grouped(results[..n]).value, results[n].0, results[n].1)
  {
    assert results[..n + 1][..n] == results[..n] && results[..n + 1][n] == results[n];
  }

  /** The second loop of `_results_flat_to_lists`: sort each group by index and drop the indices. */
  method ConvertGroups<V>(grouped: Dict<string, Group<V>>) returns (out: Dict<string, Series<V>>)
    requires DistinctKeys(grouped)
    ensures out == Convert(grouped)
  {
    out := [];
    var j := 0;
    while j < |grouped|
      invariant 0 <= j <= |grouped|
      invariant out == Convert(grouped[..j])
    {
      var base, values := grouped[j].0, grouped[j].1;
      var series: Series<V>;
      match values {
        case Tuples(es) =>
          var sorted := SortByIndex(es);
          series := Listed(Values(sorted));
        case Plain(v) =>
          series := Kept(v);
      }
      assert series == ToSeries(values);
      ConvertStep(grouped, j);
      SetNew(out, base, series);
      out := Set(out, base, series);
      j := j + 1;
    }
    assert grouped[..|grouped|] == grouped;
  }

  /** The next group's name is new to the output, which grows by that group's series. */
  lemma ConvertStep<V>(grouped: Dict<string, Group<V>>, j: nat)
    requires DistinctKeys(grouped) && j < |grouped|
    ensures grouped[j].0 !in Keys(Convert(grouped[..j]))
    ensures Convert(grouped[..j + 1]) == Convert(grouped[..j]) + [(grouped[j].0, ToSeries(grouped[j].1))]
  {
    var out := Convert(grouped[..j]);
    forall i | 0 <= i < |out| ensures Keys(out)[i] != grouped[j].0 {
      assert out[i].0 == grouped[i].0;
    }
  }

  /** `_results_flat_to_lists(results)`, as the two loops of the source. */
  method ResultsFlatToLists<V>(results: Dict<string, V>) returns (r: Result<Dict<string, Series<V>>, FlatError>)
    ensures r == FlatToLists(results)
  {
    var grouped :- GroupFlat(results);
    GroupedSpec(results);
    var out := ConvertGroups(grouped);
    return Ok(out);
  }

  lemma {:induction false} GroupedErrPersists<V>(s: Dict<string, V>, n: nat)
    requires n <= |s| && Grouped(s[..n]).Err?
    ensures Grouped(s) == Grouped(s[..n])
    decreases |s| - n
  {
    if n < |s| {
      var p := s[..|s| - 1];
      assert p[..n] == s[..n];
      GroupedErrPersists(p, n);
    } else {
      assert s[..n] == s;
    }
  }

  // ---------------------------------------------------------------------
  // What the regrouping means

  /** The `(idx, v)` pairs of the keys with base `b`, in input order. */
  function GroupOf<V>(s: Dict<string, V>, b: string): seq<(nat, V)> {
    if s == [] then []
    else
      var last := match ParseIndexedKey(s[|s| - 1].0)
        case Some((base, idx)) => if base == b then [(idx, s[|s| - 1].1)] else []
        case None => [];
      GroupOf(s[..|s| - 1], b) + last
  }

  /** The value of the last key equal to `b` that carries no index. */
  function PlainOf<V>(s: Dict<string, V>, b: string): Option<V> {
    if s == [] then None
    else if ParseIndexedKey(s[|s| - 1].0).None? && s[|s| - 1].0 == b then Some(s[|s| - 1].1)
    else PlainOf(s[..|s| - 1], b)
  }

  /** No indexed key comes after a key without index that equals its base. */
  predicate NoAppendToPlain<V>(s: Dict<string, V>) {
    forall i, j :: 0 <= i < j < |s| && ParseIndexedKey(s[i].0).None? && ParseIndexedKey(s[j].0).Some?
      ==> ParseIndexedKey(s[j].0).value.0 != s[i].0
  }

  /** What `grouped` holds for `b`: the plain value if there is one, else the tuples of its group. */
  function ExpectedGroup<V>(s: Dict<string, V>, b: string): Option<Group<V>> {
    if PlainOf(s, b).Some? then Some(Plain(PlainOf(s, b).value))
    else if GroupOf(s, b) != [] then Some(Tuples(GroupOf(s, b)))
    else None
  }

  /** `g` is a dict holding, for every name, what `ExpectedGroup` says of `s`. */
  ghost predicate GroupsExpected<V>(g: Dict<string, Group<V>>, s: Dict<string, V>) {
    DistinctKeys(g) && forall b :: Get(g, b) == ExpectedGroup(s, b)
  }

  lemma {:induction false} PlainOfNoneIf<V>(s: Dict<string, V>, b: string)
    requires forall i :: 0 <= i < |s| ==> !(ParseIndexedKey(s[i].0).None? && s[i].0 == b)
    ensures PlainOf(s, b).None?
  {
    if s != [] {
      var p := s[..|s| - 1];
      forall i | 0 <= i < |p| ensures !(ParseIndexedKey(p[i].0).None? && p[i].0 == b) {
        assert p[i] == s[i];
      }
      PlainOfNoneIf(p, b);
    }
  }

  lemma {:induction false} PlainOfNoneOnlyIf<V>(s: Dict<string, V>, b: string)
    requires PlainOf(s, b).None?
    ensures forall i :: 0 <= i < |s| ==> !(ParseIndexedKey(s[i].0).None? && s[i].0 == b)
  {
    if s != [] {
      var n := |s| - 1;
      var p := s[..n];
      assert !(ParseIndexedKey(s[n].0).None? && s[n].0 == b) && PlainOf(p, b).None?;
      PlainOfNoneOnlyIf(p, b);
      forall i | 0 <= i < |s| ensures !(ParseIndexedKey(s[i].0).None? && s[i].0 == b) {
        if i < n {
          assert p[i] == s[i];
          assert !(ParseIndexedKey(p[i].0).None? && p[i].0 == b);
        } else {
          assert i == n;
        }
      }
    }
  }

  /** `PlainOf` finds nothing exactly when no key without index equals `b`. */
  lemma PlainOfNone<V>(s: Dict<string, V>, b: string)
    ensures PlainOf(s, b).None? <==> forall i :: 0 <= i < |s| ==> !(ParseIndexedKey(s[i].0).None? && s[i].0 == b)
  {
    if PlainOf(s, b).None? {
      PlainOfNoneOnlyIf(s, b);
    } else if forall i :: 0 <= i < |s| ==> !(ParseIndexedKey(s[i].0).None? && s[i].0 == b) {
      PlainOfNoneIf(s, b);
    }
  }

  lemma NoAppendToPlainSnoc<V>(p: Dict<string, V>, k: string, v: V)
    ensures NoAppendToPlain(p + [(k, v)]) <==>
      NoAppendToPlain(p) && (ParseIndexedKey(k).Some? ==> PlainOf(p, ParseIndexedKey(k).value.0).None?)
  {
    var s := p + [(k, v)];
    assert forall i :: 0 <= i < |p| ==> s[i] == p[i];
    assert s[|p|] == (k, v);
    if ParseIndexedKey(k).Some? {
      PlainOfNone(p, ParseIndexedKey(k).value.0);
    }
    if NoAppendToPlain(s) {
      forall i, j | 0 <= i < j < |p| && ParseIndexedKey(p[i].0).None? && ParseIndexedKey(p[j].0).Some?
        ensures ParseIndexedKey(p[j].0).value.0 != p[i].0
      {
        assert s[i] == p[i] && s[j] == p[j];
      }
      if ParseIndexedKey(k).Some? {
        forall i | 0 <= i < |p| ensures !(ParseIndexedKey(p[i].0).None? && p[i].0 == ParseIndexedKey(k).value.0) {
          assert s[i] == p[i];
        }
      }
    }
    if NoAppendToPlain(p) && (ParseIndexedKey(k).Some? ==> PlainOf(p, ParseIndexedKey(k).value.0).None?) {
      forall i, j | 0 <= i < j < |s| && ParseIndexedKey(s[i].0).None? && ParseIndexedKey(s[j].0).Some?
        ensures ParseIndexedKey(s[j].0).value.0 != s[i].0
      {
        if j == |p| {
          assert !(ParseIndexedKey(p[i].0).None? && p[i].0 == ParseIndexedKey(k).value.0);
        }
      }
    }
  }

  /** Appending an indexed entry changes what `grouped` should hold only for its base. */
  lemma ExpectedGroupSnocIndexed<V>(p: Dict<string, V>, k: string, v: V, b: string)
    requires ParseIndexedKey(k).Some?
    ensures b != ParseIndexedKey(k).value.0 ==> ExpectedGroup(p + [(k, v)], b) == ExpectedGroup(p, b)
    ensures b == ParseIndexedKey(k).value.0 && PlainOf(p, b).None? ==>
      ExpectedGroup(p + [(k, v)], b) == Some(Tuples(GroupOf(p, b) + [(ParseIndexedKey(k).value.1, v)]))
  {
    var s := p + [(k, v)];
    assert s[..|s| - 1] == p && s[|s| - 1] == (k, v);
    var (base, idx) := ParseIndexedKey(k).value;
    assert PlainOf(s, b) == PlainOf(p, b);
    assert GroupOf(s, b) == GroupOf(p, b) + (if base == b then [(idx, v)] else []);
    if b != base {
      assert GroupOf(p, b) + [] == GroupOf(p, b);
    }
  }

  /** Appending an entry without index changes what `grouped` should hold only for its own key. */
  lemma ExpectedGroupSnocPlain<V>(p: Dict<string, V>, k: string, v: V, b: string)
    requires ParseIndexedKey(k).None?
    ensures b != k ==> ExpectedGroup(p + [(k, v)], b) == ExpectedGroup(p, b)
    ensures ExpectedGroup(p + [(k, v)], k) == Some(Plain(v))
  {
    var s := p + [(k, v)];
    assert s[..|s| - 1] == p && s[|s| - 1] == (k, v);
    assert GroupOf(s, b) == GroupOf(p, b);
  }

  /** What the first loop stores for an indexed key whose base has no plain value. */
  lemma GroupedSnocIndexedStep<V>(p: Dict<string, V>, g: Dict<string, Group<V>>, k: string, v: V)
    requires Grouped(p) == Ok(g)
    requires forall b :: Get(g, b) == ExpectedGroup(p, b)
    requires ParseIndexedKey(k).Some? && PlainOf(p, ParseIndexedKey(k).value.0).None?
    ensures Grouped(p + [(k, v)])
      == Ok(Set(g, ParseIndexedKey(k).value.0, Tuples(GroupOf(p, ParseIndexedKey(k).value.0) + [(ParseIndexedKey(k).value.1, v)])))
  {
    var s := p + [(k, v)];
    assert s[..|s| - 1] == p && s[|s| - 1] == (k, v);
    var (base, idx) := ParseIndexedKey(k).value;
    assert Get(g, base) == ExpectedGroup(p, base);
    if GroupOf(p, base) == [] {
      assert GroupOf(p, base) + [(idx, v)] == [(idx, v)];
    }
  }

  /** One step of the first loop on an indexed key whose base has no plain value. */
  lemma GroupedSnocIndexed<V>(p: Dict<string, V>, g: Dict<string, Group<V>>, k: string, v: V)
    requires Grouped(p) == Ok(g) && DistinctKeys(g)
    requires forall b :: Get(g, b) == ExpectedGroup(p, b)
    requires ParseIndexedKey(k).Some? && PlainOf(p, ParseIndexedKey(k).value.0).None?
    ensures Grouped(p + [(k, v)]).Ok? && DistinctKeys(Grouped(p + [(k, v)]).value)
    ensures forall b :: Get(Grouped(p + [(k, v)]).value, b) == ExpectedGroup(p + [(k, v)], b)
  {
    var s := p + [(k, v)];
    var (base, idx) := ParseIndexedKey(k).value;
    var x := Tuples(GroupOf(p, base) + [(idx, v)]);
    GroupedSnocIndexedStep(p, g, k, v);
    SetDistinct(g, base, x);
    forall b ensures Get(Set(g, base, x), b) == ExpectedGroup(s, b) {
      ExpectedGroupSnocIndexed(p, k, v, b);
      if b != base {
        assert Get(g, b) == ExpectedGroup(p, b);
      }
    }
  }

  /** One step of the first loop on a key without index. */
  lemma GroupedSnocPlain<V>(p: Dict<string, V>, g: Dict<string, Group<V>>, k: string, v: V)
    requires Grouped(p) == Ok(g) && DistinctKeys(g)
    requires forall b :: Get(g, b) == ExpectedGroup(p, b)
    requires ParseIndexedKey(k).None?
    ensures Grouped(p + [(k, v)]).Ok? && DistinctKeys(Grouped(p + [(k, v)]).value)
    ensures forall b :: Get(Grouped(p + [(k, v)]).value, b) == ExpectedGroup(p + [(k, v)], b)
  {
    var s := p + [(k, v)];
    assert s[..|s| - 1] == p && s[|s| - 1] == (k, v);
    assert Grouped(s) == Ok(Set(g, k, Plain(v)));
    SetDistinct(g, k, Plain(v));
    forall b ensures Get(Set(g, k, Plain(v)), b) == ExpectedGroup(s, b) {
      ExpectedGroupSnocPlain(p, k, v, b);
      if b != k {
        assert Get(g, b) == ExpectedGroup(p, b);
      }
    }
  }

  /**
   * The first loop fails exactly when an indexed key follows a key without
   * index equal to its base; otherwise `grouped` is a dict holding, for each
   * name, `ExpectedGroup`.
   */
  lemma {:induction false} GroupedSpec<V>(s: Dict<string, V>)
    ensures Grouped(s).Ok? <==> NoAppendToPlain(s)
    ensures Grouped(s).Ok? ==> DistinctKeys(Grouped(s).value)
    ensures Grouped(s).Ok? ==> forall b :: Get(Grouped(s).value, b) == ExpectedGroup(s, b)
  {
    if s != [] {
      var p, k, v := s[..|s| - 1], s[|s| - 1].0, s[|s| - 1].1;
      assert s == p + [(k, v)];
      GroupedSpec(p);
      NoAppendToPlainSnoc(p, k, v);
      if Grouped(p).Ok? {
        var g := Grouped(p).value;
        if ParseIndexedKey(k).None? {
          GroupedSnocPlain(p, g, k, v);
        } else if PlainOf(p, ParseIndexedKey(k).value.0).None? {
          GroupedSnocIndexed(p, g, k, v);
        } else {
          var base := ParseIndexedKey(k).value.0;
          assert Get(g, base) == ExpectedGroup(p, base);
          assert Grouped(s) == Err(AttributeError(base));
        }
      }
    }
  }

  /**
   * One iteration of the first loop, after the entries `seen`, extends the
   * grouping by one entry: it fails exactly when the key is indexed and its
   * base is a key without index already seen; otherwise every name holds
   * what `ExpectedGroup` says of the entries so far.
   */
  lemma StepExtendsGrouping<V>(seen: Dict<string, V>, g: Dict<string, Group<V>>, k: string, v: V)
    requires Grouped(seen) == Ok(g)
    ensures Step(g, k, v) == Grouped(seen + [(k, v)])
    ensures Step(g, k, v).Err? <==> ParseIndexedKey(k).Some? && PlainOf(seen, ParseIndexedKey(k).value.0).Some?
    ensures Step(g, k, v).Ok? ==> GroupsExpected(Step(g, k, v).value, seen + [(k, v)])
  {
    var s := seen + [(k, v)];
    assert s[..|s| - 1] == seen && s[|s| - 1] == (k, v);
    GroupedSpec(seen);
    GroupedSpec(s);
  }

  lemma {:induction false} ConvertGet<V>(g: Dict<string, Group<V>>, b: string)
    ensures Get(Convert(g), b) == match Get(g, b) case None => None case Some(x) => Some(ToSeries(x))
  {
    if g != [] {
      assert Convert(g)[1..] == Convert(g[1..]);
      ConvertGet(g[1..], b);
    }
  }

  /** What the output holds for `b`. */
  function ExpectedSeries<V>(s: Dict<string, V>, b: string): Option<Series<V>> {
    match ExpectedGroup(s, b)
    case None => None
    case Some(x) => Some(ToSeries(x))
  }

  /**
   * The regrouping fails exactly when an indexed key follows a plain key equal
   * to its base. Otherwise the output is a dict in which a plain key keeps its
   * value and each other base holds the values of its keys, ordered stably
   * by index.
   */
  lemma FlatToListsSpec<V>(results: Dict<string, V>)
    ensures FlatToLists(results).Ok? <==> NoAppendToPlain(results)
    ensures FlatToLists(results).Ok? ==> DistinctKeys(FlatToLists(results).value)
    ensures FlatToLists(results).Ok? ==> forall b :: Get(FlatToLists(results).value, b) == ExpectedSeries(results, b)
  {
    GroupedSpec(results);
    if Grouped(results).Ok? {
      var g := Grouped(results).value;
      var out := Convert(g);
      assert Keys(out) == Keys(g);
      forall b ensures Get(out, b) == ExpectedSeries(results, b) {
        ConvertGet(g, b);
      }
    }
  }

  /** In a dict (keys distinct) the plain value recorded for a key without index is that key's own value. */
  lemma {:induction false} PlainOfAt<V>(s: Dict<string, V>, i: nat)
    requires DistinctKeys(s) && i < |s| && ParseIndexedKey(s[i].0).None?
    ensures PlainOf(s, s[i].0) == Some(s[i].1)
  {
    if i < |s| - 1 {
      var p := s[..|s| - 1];
      assert p[i] == s[i];
      PlainOfAt(p, i);
    }
  }

  /** A key without a trailing `_digits` keeps its key and its value. */
  lemma PlainKeyKept<V>(results: Dict<string, V>, i: nat)
    requires DistinctKeys(results) && NoAppendToPlain(results)
    requires i < |results| && ParseIndexedKey(results[i].0).None?
    ensures FlatToLists(results).Ok?
    ensures Get(FlatToLists(results).value, results[i].0) == Some(Kept(results[i].1))
  {
    FlatToListsSpec(results);
    PlainOfAt(results, i);
  }

  /** `GroupOf(s, b)` holds exactly the `(index, value)` pairs of the keys whose base is `b`. */
  /** Entry `i` of `s` has base `b`, index `n` and value `v`. */
  ghost predicate EntryOfGroup<V>(s: Dict<string, V>, i: int, b: string, n: nat, v: V) {
    0 <= i < |s| && s[i].1 == v && ParseIndexedKey(s[i].0) == Some((b, n))
  }

  /** The last entry adds to the group of `b` exactly when it is an indexed key with base `b`. */
  lemma GroupOfSnocIn<V>(s: Dict<string, V>, b: string, n: nat, v: V)
    requires s != []
    ensures (n, v) in GroupOf(s, b) <==> (n, v) in GroupOf(s[..|s| - 1], b) || EntryOfGroup(s, |s| - 1, b, n, v)
  {
  }

  lemma {:induction false} GroupOfHas<V>(s: Dict<string, V>, b: string, n: nat, v: V)
    requires (n, v) in GroupOf(s, b)
    ensures exists i :: EntryOfGroup(s, i, b, n, v)
  {
    var p := s[..|s| - 1];
    GroupOfSnocIn(s, b, n, v);
    if (n, v) in GroupOf(p, b) {
      GroupOfHas(p, b, n, v);
      var i :| EntryOfGroup(p, i, b, n, v);
      assert s[i] == p[i];
      assert EntryOfGroup(s, i, b, n, v);
    } else {
      assert EntryOfGroup(s, |p|, b, n, v);
    }
  }

  lemma {:induction false} GroupOfGets<V>(s: Dict<string, V>, b: string, n: nat, v: V, i: int)
    requires EntryOfGroup(s, i, b, n, v)
    ensures (n, v) in GroupOf(s, b)
  {
    var p := s[..|s| - 1];
    GroupOfSnocIn(s, b, n, v);
    if i < |p| {
      assert p[i] == s[i];
      assert EntryOfGroup(p, i, b, n, v);
      GroupOfGets(p, b, n, v, i);
    } else {
      assert i == |s| - 1;
    }
  }

  /** A pair is in the group of `b` exactly when some entry of `results` is an indexed key of base `b` and index `n` with value `v`. */
  lemma GroupOfMembers<V>(s: Dict<string, V>, b: string, n: nat, v: V)
    ensures (n, v) in GroupOf(s, b) <==> exists i :: EntryOfGroup(s, i, b, n, v)
  {
    if (n, v) in GroupOf(s, b) {
      GroupOfHas(s, b, n, v);
    }
    if exists i :: EntryOfGroup(s, i, b, n, v) {
      var i :| EntryOfGroup(s, i, b, n, v);
      GroupOfGets(s, b, n, v, i);
    }
  }

  /**
   * A base with no plain key of the same name becomes the list of its keys'
   * values, as many as there are keys, sorted by index and stable among
   * equal indices.
   */
  lemma IndexedGroupListed<V>(results: Dict<string, V>, b: string)
    requires NoAppendToPlain(results)
    requires PlainOf(results, b).None? && GroupOf(results, b) != []
    ensures FlatToLists(results).Ok?
    ensures var sorted := SortByIndex(GroupOf(results, b));
      && Get(FlatToLists(results).value, b) == Some(Listed(Values(sorted)))
      && |Values(sorted)| == |GroupOf(results, b)|
      && SortedByIndex(sorted)
      && forall j: nat :: WithIndex(sorted, j) == WithIndex(GroupOf(results, b), j)
  {
    FlatToListsSpec(results);
    SortByIndexSpec(GroupOf(results, b));
  }

  lemma DocKey0(b: string)
    requires b != [] && '\n' !in b
    ensures ParseIndexedKey(b + "_0") == Some((b, 0))
  {
    var d := "0";
    assert b + "_0" == b + "_" + d;
    assert d[..0] == [] && DigitsValue(d) == 0;
    ParseSplit(b, d);
  }

  lemma DocKey1(b: string)
    requires b != [] && '\n' !in b
    ensures ParseIndexedKey(b + "_1") == Some((b, 1))
  {
    var d := "1";
    assert b + "_1" == b + "_" + d;
    assert d[..0] == [] && DigitsValue(d) == 1;
    ParseSplit(b, d);
  }

  lemma DocGroupedFirst(b: string, v0: real)
    requires b != [] && '\n' !in b
    ensures Grouped([(b + "_0", v0)]) == Ok([(b, Tuples([(0, v0)]))])
  {
    DocKey0(b);
    var s: Dict<string, real> := [(b + "_0", v0)];
    var g0: Dict<string, Group<real>> := [];
    assert s[..0] == [];
    assert Grouped(s[..0]) == Ok(g0);
    assert Step(g0, b + "_0", v0) == Ok([(b, Tuples([(0, v0)]))]);
  }

  lemma DocGrouped(b: string, v0: real, v1: real)
    requires b != [] && '\n' !in b
    ensures Grouped([(b + "_0", v0), (b + "_1", v1)]) == Ok([(b, Tuples([(0, v0), (1, v1)]))])
  {
    var s: Dict<string, real> := [(b + "_0", v0), (b + "_1", v1)];
    var e1: seq<(nat, real)> := [(0, v0)];
    var e2: seq<(nat, real)> := e1 + [(1, v1)];
    var g1: Dict<string, Group<real>> := [(b, Tuples(e1))];
    assert s[..1] == [(b + "_0", v0)] && s[..2] == s;
    DocGroupedFirst(b, v0);
    GroupedPrefixStep(s, 1);
    DocKey1(b);
    assert Get(g1, b) == Some(Tuples(e1));
    StepAppends(g1, b + "_1", v1, b, 1, e1);
    DocSetFirst(g1, b, Tuples(e2));
    DocPairs(v0, v1);
  }

  lemma DocPairs(v0: real, v1: real)
    ensures var e: seq<(nat, real)> := [(0, v0)]; e + [(1, v1)] == [(0, v0), (1, v1)]
  {
  }

  /** An indexed key whose base already holds tuples adds its pair at the end. */
  lemma StepAppends<V>(g: Dict<string, Group<V>>, k: string, v: V, b: string, n: nat, es: seq<(nat, V)>)
    requires ParseIndexedKey(k) == Some((b, n)) && Get(g, b) == Some(Tuples(es))
    ensures Step(g, k, v) == Ok(Set(g, b, Tuples(es + [(n, v)])))
  {
  }

  lemma DocSetFirst<V>(g: Dict<string, V>, b: string, x: V)
    requires |g| == 1 && g[0].0 == b
    ensures Set(g, b, x) == [(b, x)]
  {
    assert g[1..] == [];
  }

  lemma DocSorted(v0: real, v1: real)
    ensures SortByIndex([(0, v0), (1, v1)]) == [(0, v0), (1, v1)]
  {
    var es: seq<(nat, real)> := [(0, v0), (1, v1)];
    assert es[..1] == [(0, v0)] && es[..1][..0] == [];
    assert SortByIndex(es[..1]) == [(0, v0)];
    var one: seq<(nat, real)> := [(0, v0)];
    assert one[1..] == [];
    assert Insert((1, v1), one) == [(0, v0)] + Insert((1, v1), []);
  }

  lemma DocConverted(b: string, v0: real, v1: real)
    ensures Convert([(b, Tuples([(0, v0), (1, v1)]))]) == [(b, Listed([v0, v1]))]
  {
    var es: seq<(nat, real)> := [(0, v0), (1, v1)];
    DocSorted(v0, v1);
    assert Values(es) == [v0, v1];
    var g: Dict<string, Group<real>> := [(b, Tuples(es))];
    assert Convert(g)[0] == (b, Listed([v0, v1])) && |Convert(g)| == 1;
  }

  /**
   * The example of the source's documentation comment, for any base in place
   * of `p_import`: `{b_0: v0, b_1: v1}` becomes `{b: [v0, v1]}`.
   */
  lemma DocExample(b: string, v0: real, v1: real)
    requires b != [] && '\n' !in b
    ensures FlatToLists([(b + "_0", v0), (b + "_1", v1)]) == Ok([(b, Listed([v0, v1]))])
  {
    DocGrouped(b, v0, v1);
    DocConverted(b, v0, v1);
  }

  // ---------------------------------------------------------------------
  // Every value lands in the output once

  /** No key without index equals the base of an indexed key, in either order. */
  predicate NoClash<V>(s: Dict<string, V>) {
    forall i, j :: 0 <= i < |s| && 0 <= j < |s| && ParseIndexedKey(s[i].0).None? && ParseIndexedKey(s[j].0).Some?
      ==> ParseIndexedKey(s[j].0).value.0 != s[i].0
  }

  function GroupSize<V>(x: Group<V>): nat {
    match x
    case Tuples(es) => |es|
    case Plain(_) => 1
  }

  /** How many input values `grouped` holds. */
  function GroupsSize<V>(g: Dict<string, Group<V>>): nat {
    if g == [] then 0 else GroupSize(g[0].1) + GroupsSize(g[1..])
  }

  /** How many values the output holds: a list counts its items, a kept value counts once. */
  function OutputSize<V>(out: Dict<string, Series<V>>): nat {
    if out == [] then 0
    else (match out[0].1 case Listed(items) => |items| case Kept(_) => 1) + OutputSize(out[1..])
  }

  lemma {:induction false} SetGroupsSize<V>(g: Dict<string, Group<V>>, k: string, x: Group<V>)
    ensures GroupsSize(Set(g, k, x)) + (match Get(g, k) case None => 0 case Some(prev) => GroupSize(prev))
      == GroupsSize(g) + GroupSize(x)
  {
    if g != [] && g[0].0 != k {
      var rest := Set(g[1..], k, x);
      assert Set(g, k, x) == [g[0]] + rest;
      assert ([g[0]] + rest)[1..] == rest;
      SetGroupsSize(g[1..], k, x);
    } else if g != [] {
      assert ([(k, x)] + g[1..])[1..] == g[1..];
    }
  }

  lemma {:induction false} OutputSizeConvert<V>(g: Dict<string, Group<V>>)
    ensures OutputSize(Convert(g)) == GroupsSize(g)
  {
    if g != [] {
      assert Convert(g)[1..] == Convert(g[1..]);
      OutputSizeConvert(g[1..]);
      match g[0].1 {
        case Tuples(es) => SortByIndexSpec(es);
        case Plain(_) =>
      }
    }
  }

  lemma NoClashPrefix<V>(p: Dict<string, V>, k: string, v: V)
    requires NoClash(p + [(k, v)]) && DistinctKeys(p + [(k, v)])
    ensures NoClash(p) && DistinctKeys(p)
  {
    var s := p + [(k, v)];
    assert forall i :: 0 <= i < |p| ==> s[i] == p[i];
  }

  lemma {:induction false} GroupOfEmpty<V>(s: Dict<string, V>, b: string)
    requires forall i :: 0 <= i < |s| ==> ParseIndexedKey(s[i].0).None? || ParseIndexedKey(s[i].0).value.0 != b
    ensures GroupOf(s, b) == []
  {
    if s != [] {
      var p := s[..|s| - 1];
      assert forall i :: 0 <= i < |p| ==> p[i] == s[i];
      GroupOfEmpty(p, b);
    }
  }

  /** The group of a key without index is empty when no indexed key has it as base. */
  lemma NoGroupForPlainKey<V>(p: Dict<string, V>, k: string, v: V)
    requires NoClash(p + [(k, v)]) && ParseIndexedKey(k).None?
    ensures GroupOf(p, k) == []
  {
    var s := p + [(k, v)];
    forall i | 0 <= i < |p| ensures ParseIndexedKey(p[i].0).None? || ParseIndexedKey(p[i].0).value.0 != k {
      assert s[i] == p[i] && s[|p|] == (k, v);
    }
    GroupOfEmpty(p, k);
  }

  /** One more entry adds exactly one value to `grouped`. */
  lemma GroupedSizeSnoc<V>(p: Dict<string, V>, k: string, v: V)
    requires NoClash(p + [(k, v)]) && DistinctKeys(p + [(k, v)])
    requires Grouped(p).Ok? && GroupsSize(Grouped(p).value) == |p|
    ensures Grouped(p + [(k, v)]).Ok? && GroupsSize(Grouped(p + [(k, v)]).value) == |p| + 1
  {
    NoClashPrefix(p, k, v);
    GroupedSpec(p);
    if ParseIndexedKey(k).Some? {
      GroupedSizeSnocIndexed(p, k, v);
    } else {
      GroupedSizeSnocPlain(p, k, v);
    }
  }

  lemma GroupedSizeSnocIndexed<V>(p: Dict<string, V>, k: string, v: V)
    requires ParseIndexedKey(k).Some?
    requires NoClash(p + [(k, v)])
    requires Grouped(p).Ok? && GroupsSize(Grouped(p).value) == |p|
    requires forall b :: Get(Grouped(p).value, b) == ExpectedGroup(p, b)
    ensures Grouped(p + [(k, v)]).Ok? && GroupsSize(Grouped(p + [(k, v)]).value) == |p| + 1
  {
    var s := p + [(k, v)];
    var g := Grouped(p).value;
    var base, idx := ParseIndexedKey(k).value.0, ParseIndexedKey(k).value.1;
    var x := Tuples(GroupOf(p, base) + [(idx, v)]);
    forall i | 0 <= i < |p| ensures !(ParseIndexedKey(p[i].0).None? && p[i].0 == base) {
      assert s[i] == p[i] && s[|p|] == (k, v);
    }
    PlainOfNone(p, base);
    GroupedSnocIndexedStep(p, g, k, v);
    assert Grouped(s) == Ok(Set(g, base, x));
    SetGroupsSize(g, base, x);
    if GroupOf(p, base) == [] {
      assert Get(g, base) == None;
    } else {
      assert Get(g, base) == Some(Tuples(GroupOf(p, base)));
    }
  }

  lemma GroupedSizeSnocPlain<V>(p: Dict<string, V>, k: string, v: V)
    requires ParseIndexedKey(k).None?
    requires NoClash(p + [(k, v)]) && DistinctKeys(p + [(k, v)]) && NoAppendToPlain(p)
    requires Grouped(p).Ok? && GroupsSize(Grouped(p).value) == |p| && DistinctKeys(Grouped(p).value)
    requires forall b :: Get(Grouped(p).value, b) == ExpectedGroup(p, b)
    ensures Grouped(p + [(k, v)]).Ok? && GroupsSize(Grouped(p + [(k, v)]).value) == |p| + 1
  {
    var s := p + [(k, v)];
    var g := Grouped(p).value;
    assert s[..|s| - 1] == p && s[|s| - 1] == (k, v);
    forall i | 0 <= i < |p| ensures p[i].0 != k {
      assert s[i] == p[i] && s[|p|] == (k, v);
    }
    PlainOfNone(p, k);
    NoGroupForPlainKey(p, k, v);
    assert Get(g, k) == ExpectedGroup(p, k) == None;
    assert Grouped(s) == Ok(Set(g, k, Plain(v)));
    SetGroupsSize(g, k, Plain(v));
  }

  lemma {:induction false} GroupedSize<V>(s: Dict<string, V>)
    requires NoClash(s) && DistinctKeys(s)
    ensures Grouped(s).Ok? && GroupsSize(Grouped(s).value) == |s|
  {
    if s != [] {
      var p, k, v := s[..|s| - 1], s[|s| - 1].0, s[|s| - 1].1;
      assert s == p + [(k, v)];
      NoClashPrefix(p, k, v);
      GroupedSize(p);
      GroupedSizeSnoc(p, k, v);
    }
  }

  /**
   * When keys are distinct and no key without index equals an indexed base,
   * the output holds exactly as many values as the input.
   */
  lemma EveryValueOnce<V>(results: Dict<string, V>)
    requires NoClash(results) && DistinctKeys(results)
    ensures FlatToLists(results).Ok? && OutputSize(FlatToLists(results).value) == |results|
  {
    GroupedSize(results);
    OutputSizeConvert(Grouped(results).value);
  }
}
