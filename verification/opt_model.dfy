/**
 * The dispatch program of src/opt_model/opt_model.py: normalisation of the
 * per-hour parameters, the linear constraint system with its big-M
 * import/export exclusivity, and the profit objective -- everything the
 * builder states before it calls the solver, over exact reals.
 */
module OptModel {
  import opened Wrappers

  /** A parameter as read from the scenario JSON. */
  datatype Param = Null | Scalar(x: real) | List(items: seq<real>)

  /** The exceptions raised while the inputs are read. */
  datatype DataError =
    | KeyError(key: string)                    // parameter absent or None
    | ValueError(key: string, expected: nat)   // list of the wrong length
    | TypeError(key: string)                   // len() of None or of a number

  const PvKey: string := "hourly_profile_ratio"
  const ImportTariffKey: string := "import_tariff_DKK/kWh"
  const ExportTariffKey: string := "export_tariff_DKK/kWh"
  const PriceKey: string := "energy_price_DKK_per_kWh"
  const MaxImportKey: string := "max_import_kW"
  const MaxExportKey: string := "max_export_kW"
  const MaxLoadKey: string := "max_load_kWh_per_hour"

  /** The horizon used when the PV profile is absent. */
  const DefaultHours: nat := 24

  /** `[v] * n`. */
  function Repeat(v: real, n: nat): (r: seq<real>)
    ensures |r| == n && forall t :: 0 <= t < n ==> r[t] == v
  {
    seq(n, _ => v)
  }

  /** `ensure_list(d, key, num_hours)`. */
  function EnsureList(d: map<string, Param>, key: string, numHours: nat): (r: Result<seq<real>, DataError>)
    ensures (key !in d || d[key].Null?) <==> r == Err(KeyError(key))
    ensures (r.Err? && r.error.ValueError?) <==> (key in d && d[key].List? && |d[key].items| != numHours)
    ensures r.Err? ==> r.error.KeyError? || r.error == ValueError(key, numHours)
    ensures r.Ok? ==> |r.value| == numHours && key in d
    ensures r.Ok? && d[key].List? ==> r.value == d[key].items
    ensures r.Ok? && d[key].Scalar? ==> forall t :: 0 <= t < numHours ==> r.value[t] == d[key].x
  {
    if key !in d then Err(KeyError(key))
    else match d[key]
      case Null => Err(KeyError(key))
      case List(items) => if |items| != numHours then Err(ValueError(key, numHours)) else Ok(items)
      case Scalar(x) => Ok(Repeat(x, numHours))
  }

  /** `len(der.get("hourly_profile_ratio", [1]*24))`. */
  function Horizon(der: map<string, Param>): Result<nat, DataError> {
    if PvKey !in der then Ok(DefaultHours)
    else match der[PvKey]
      case List(items) => Ok(|items|)
      case _ => Err(TypeError(PvKey))
  }

  /** The normalised inputs of the program. */
  datatype Inputs = Inputs(
    pv: seq<real>,        // P_pv: available PV per hour
    phiImp: seq<real>,    // import tariff
    phiExp: seq<real>,    // export tariff
    price: seq<real>,     // day-ahead price
    pTotal: real,         // required total load
    pDownMax: seq<real>,  // import limit
    pUpMax: seq<real>,    // export limit
    pLoadMax: seq<real>)  // hourly load limit
  {
    function Hours(): nat { |pv| }

    /** Every per-hour series covers the horizon. */
    predicate WellFormed() {
      |phiImp| == |pv| && |phiExp| == |pv| && |price| == |pv|
      && |pDownMax| == |pv| && |pUpMax| == |pv| && |pLoadMax| == |pv|
    }
  }

  /**
   * Lines 21-33: the horizon, then each series in the order the source reads
   * them; the first failure is the one raised.
   */
  function LoadInputs(der: map<string, Param>, bus: map<string, Param>, load: map<string, Param>,
                      pTotal: real): (r: Result<Inputs, DataError>)
    ensures r.Ok? <==>
      Horizon(der).Ok?
      && EnsureList(der, PvKey, Horizon(der).value).Ok?
      && EnsureList(bus, ImportTariffKey, Horizon(der).value).Ok?
      && EnsureList(bus, ExportTariffKey, Horizon(der).value).Ok?
      && EnsureList(bus, PriceKey, Horizon(der).value).Ok?
      && EnsureList(bus, MaxImportKey, Horizon(der).value).Ok?
      && EnsureList(bus, MaxExportKey, Horizon(der).value).Ok?
      && EnsureList(load, MaxLoadKey, Horizon(der).value).Ok?
    ensures r.Ok? ==> r.value.WellFormed() && r.value.pTotal == pTotal
    ensures r.Ok? ==> PvKey in der && der[PvKey] == List(r.value.pv) && Horizon(der) == Ok(|r.value.pv|)
    ensures r.Ok? ==>
      && EnsureList(bus, ImportTariffKey, |r.value.pv|) == Ok(r.value.phiImp)
      && EnsureList(bus, ExportTariffKey, |r.value.pv|) == Ok(r.value.phiExp)
      && EnsureList(bus, PriceKey, |r.value.pv|) == Ok(r.value.price)
      && EnsureList(bus, MaxImportKey, |r.value.pv|) == Ok(r.value.pDownMax)
      && EnsureList(bus, MaxExportKey, |r.value.pv|) == Ok(r.value.pUpMax)
      && EnsureList(load, MaxLoadKey, |r.value.pv|) == Ok(r.value.pLoadMax)
    ensures r.Err? ==> Horizon(der).Err? || r.error.KeyError? || r.error.ValueError?
  {
    var n :- Horizon(der);
    var pv :- EnsureList(der, PvKey, n);
    var phiImp :- EnsureList(bus, ImportTariffKey, n);
    var phiExp :- EnsureList(bus, ExportTariffKey, n);
    var price :- EnsureList(bus, PriceKey, n);
    var pDownMax :- EnsureList(bus, MaxImportKey, n);
    var pUpMax :- EnsureList(bus, MaxExportKey, n);
    var pLoadMax :- EnsureList(load, MaxLoadKey, n);
    Ok(Inputs(pv, phiImp, phiExp, price, pTotal, pDownMax, pUpMax, pLoadMax))
  }

  /** Without a PV profile the horizon defaults to 24, but the read that follows still fails. */
  lemma MissingPvProfile(der: map<string, Param>, bus: map<string, Param>, load: map<string, Param>, pTotal: real)
    requires PvKey !in der
    ensures Horizon(der) == Ok(DefaultHours)
    ensures LoadInputs(der, bus, load, pTotal) == Err(KeyError(PvKey))
  {
  }

  /**
   * The PV profile defines the horizon, so its own read never fails on length
   * and is never a broadcast scalar: either the horizon call raises, or the
   * profile is returned as it is.
   */
  lemma PvProfileDefinesHorizon(der: map<string, Param>)
    requires PvKey in der
    ensures Horizon(der).Ok? <==> der[PvKey].List?
    ensures Horizon(der).Ok? ==> EnsureList(der, PvKey, Horizon(der).value) == Ok(der[PvKey].items)
  {
  }

  // ---------------------------------------------------------------------
  // The constraint system (lines 45-71)

  /** A point of the program: one value per variable and hour. */
  datatype Dispatch = Dispatch(
    pImport: seq<real>,
    pExport: seq<real>,
    pLoad: seq<real>,
    pPvActual: seq<real>,
    y: seq<real>)  // the binary import indicator

  function Max(a: real, b: real): real { if a >= b then a else b }

  /** Line 50: `M[t] = max(P_down_max[t], P_up_max[t])`. */
  function BigM(inp: Inputs): (m: seq<real>)
    requires inp.WellFormed()
    ensures |m| == inp.Hours()
    ensures forall t :: 0 <= t < |m| ==> m[t] >= inp.pDownMax[t] && m[t] >= inp.pUpMax[t]
    ensures forall t :: 0 <= t < |m| ==> m[t] == inp.pDownMax[t] || m[t] == inp.pUpMax[t]
  {
    seq(inp.Hours(), t requires 0 <= t < inp.Hours() => Max(inp.pDownMax[t], inp.pUpMax[t]))
  }

  /** Every variable has one value per hour of a well-formed input. */
  predicate Shaped(inp: Inputs, x: Dispatch) {
    inp.WellFormed()
    && |x.pImport| == inp.Hours() && |x.pExport| == inp.Hours() && |x.pLoad| == inp.Hours()
    && |x.pPvActual| == inp.Hours() && |x.y| == inp.Hours()
  }

  /** Lines 53-56: the variable bounds of hour `t`. */
  predicate WithinBounds(inp: Inputs, x: Dispatch, t: nat)
    requires Shaped(inp, x) && t < inp.Hours()
  {
    0.0 <= x.pImport[t] <= inp.pDownMax[t]
    && 0.0 <= x.pExport[t] <= inp.pUpMax[t]
    && 0.0 <= x.pLoad[t] <= inp.pLoadMax[t]
    && 0.0 <= x.pPvActual[t] <= inp.pv[t]
  }

  /** Line 71: import plus used PV equals load plus export. */
  predicate Balanced(x: Dispatch, t: nat)
    requires t < |x.pImport| && t < |x.pExport| && t < |x.pLoad| && t < |x.pPvActual|
  {
    x.pImport[t] + x.pPvActual[t] == x.pLoad[t] + x.pExport[t]
  }

  /** Lines 57-59: `y[t]` is binary and gates import against export. */
  predicate IndicatorRows(inp: Inputs, x: Dispatch, t: nat)
    requires Shaped(inp, x) && t < inp.Hours()
  {
    var m := BigM(inp);
    (x.y[t] == 0.0 || x.y[t] == 1.0)
    && x.pImport[t] <= m[t] * x.y[t]
    && x.pExport[t] <= m[t] * (1.0 - x.y[t])
  }

  /** `quicksum`. */
  function Sum(s: seq<real>): real {
    if s == [] then 0.0 else Sum(s[..|s| - 1]) + s[|s| - 1]
  }

  /** Every row of the program except the indicator rows. */
  predicate FlowsFeasible(inp: Inputs, x: Dispatch) {
    Shaped(inp, x)
    && (forall t :: 0 <= t < inp.Hours() ==> WithinBounds(inp, x, t))
    && (forall t :: 0 <= t < inp.Hours() ==> Balanced(x, t))
    && Sum(x.pLoad) == inp.pTotal   // line 68
  }

  /** The whole constraint system built by `build_and_solve`. */
  predicate Feasible(inp: Inputs, x: Dispatch) {
    FlowsFeasible(inp, x)
    && forall t :: 0 <= t < inp.Hours() ==> IndicatorRows(inp, x, t)
  }

  /** The grid is never used in both directions in the same hour. */
  predicate Exclusive(x: Dispatch) {
    |x.pExport| == |x.pImport|
    && forall t :: 0 <= t < |x.pImport| ==> x.pImport[t] == 0.0 || x.pExport[t] == 0.0
  }

  /** With a binary `y`, every feasible point imports or exports nothing in each hour. */
  lemma FeasibleIsExclusive(inp: Inputs, x: Dispatch)
    requires Feasible(inp, x)
    ensures Exclusive(x)
  {
    var m := BigM(inp);
    forall t | 0 <= t < inp.Hours() ensures x.pImport[t] == 0.0 || x.pExport[t] == 0.0 {
      assert WithinBounds(inp, x, t) && IndicatorRows(inp, x, t);
      if x.y[t] == 0.0 {
        assert m[t] * x.y[t] == 0.0;
      } else {
        assert m[t] * (1.0 - x.y[t]) == 0.0;
      }
    }
  }

  /** The indicator that the solver can pick for given flows: 1 exactly when importing. */
  function IndicatorFor(pImport: seq<real>): (y: seq<real>)
    ensures |y| == |pImport|
    ensures forall t :: 0 <= t < |y| ==> y[t] == (if pImport[t] > 0.0 then 1.0 else 0.0)
  {
    seq(|pImport|, t requires 0 <= t < |pImport| => if pImport[t] > 0.0 then 1.0 else 0.0)
  }

  /**
   * Because `M[t]` is at least both grid limits, the big-M rows cut off no
   * point that respects the bounds and the other rows and uses the grid in
   * at most one direction per hour: such flows are feasible with `IndicatorFor`.
   */
  lemma BigMExcludesNothingExclusive(inp: Inputs, x: Dispatch)
    requires FlowsFeasible(inp, x) && Exclusive(x)
    ensures Feasible(inp, x.(y := IndicatorFor(x.pImport)))
  {
    var x' := x.(y := IndicatorFor(x.pImport));
    var m := BigM(inp);
    assert Shaped(inp, x');
    forall t | 0 <= t < inp.Hours() ensures WithinBounds(inp, x', t) && Balanced(x', t) && IndicatorRows(inp, x', t) {
      assert WithinBounds(inp, x, t) && Balanced(x, t);
      if x.pImport[t] > 0.0 {
        assert x'.y[t] == 1.0 && x.pExport[t] == 0.0;
        assert m[t] * x'.y[t] == m[t];
      } else {
        assert x'.y[t] == 0.0 && x.pImport[t] == 0.0;
        assert m[t] * (1.0 - x'.y[t]) == m[t];
      }
    }
  }

  /** `curtailment[t] = P_pv[t] - p_pv_actual[t]`. */
  function Curtailment(inp: Inputs, x: Dispatch): (c: seq<real>)
    requires Shaped(inp, x)
    ensures |c| == inp.Hours()
  {
    seq(inp.Hours(), t requires 0 <= t < inp.Hours() => inp.pv[t] - x.pPvActual[t])
  }

  /** On a feasible point curtailment is never negative and never exceeds the available PV. */
  lemma CurtailmentBounds(inp: Inputs, x: Dispatch)
    requires Feasible(inp, x)
    ensures forall t :: 0 <= t < inp.Hours() ==> 0.0 <= Curtailment(inp, x)[t] <= inp.pv[t]
  {
    forall t | 0 <= t < inp.Hours() ensures 0.0 <= Curtailment(inp, x)[t] <= inp.pv[t] {
      assert WithinBounds(inp, x, t);
    }
  }

  /** Hour by hour `a + b == c + d` adds up over the horizon. */
  lemma {:induction false} SumPointwise(a: seq<real>, b: seq<real>, c: seq<real>, d: seq<real>)
    requires |a| == |b| == |c| == |d|
    requires forall t :: 0 <= t < |a| ==> a[t] + b[t] == c[t] + d[t]
    ensures Sum(a) + Sum(b) == Sum(c) + Sum(d)
  {
    if a != [] {
      var n := |a| - 1;
      SumPointwise(a[..n], b[..n], c[..n], d[..n]);
    }
  }

  /**
   * Summing the hourly balances and using the total-load row:
   * total import plus used PV equals the required load plus total export.
   */
  lemma AggregateBalance(inp: Inputs, x: Dispatch)
    requires Feasible(inp, x)
    ensures Sum(x.pImport) + Sum(x.pPvActual) == inp.pTotal + Sum(x.pExport)
  {
    forall t | 0 <= t < inp.Hours() ensures x.pImport[t] + x.pPvActual[t] == x.pLoad[t] + x.pExport[t] {
      assert Balanced(x, t);
    }
    SumPointwise(x.pImport, x.pPvActual, x.pLoad, x.pExport);
  }

  // ---------------------------------------------------------------------
  // The objective (lines 63-66)

  /** The cash flow of hour `t`: export sold at price minus export tariff, import bought at price plus import tariff. */
  function HourlyProfit(inp: Inputs, x: Dispatch, t: nat): real
    requires Shaped(inp, x) && t < inp.Hours()
  {
    (inp.price[t] - inp.phiExp[t]) * x.pExport[t] - (inp.price[t] + inp.phiImp[t]) * x.pImport[t]
  }

  function HourlyProfits(inp: Inputs, x: Dispatch): (s: seq<real>)
    requires Shaped(inp, x)
    ensures |s| == inp.Hours()
  {
    seq(inp.Hours(), t requires 0 <= t < inp.Hours() => HourlyProfit(inp, x, t))
  }

  /** The objective that the solver maximises. */
  function Profit(inp: Inputs, x: Dispatch): real
    requires Shaped(inp, x)
  {
    Sum(HourlyProfits(inp, x))
  }

  /** Lines 63-66: the terms are appended hour by hour, then summed. */
  method Objective(inp: Inputs, x: Dispatch) returns (total: real)
    requires Shaped(inp, x)
    ensures total == Profit(inp, x)
  {
    var objTerms: seq<real> := [];
    var t := 0;
    while t < inp.Hours()
      invariant 0 <= t <= inp.Hours()
      invariant objTerms == HourlyProfits(inp, x)[..t]
    {
      var term := (inp.price[t] - inp.phiExp[t]) * x.pExport[t] - (inp.price[t] + inp.phiImp[t]) * x.pImport[t];
      assert term == HourlyProfits(inp, x)[t];
      assert HourlyProfits(inp, x)[..t + 1] == HourlyProfits(inp, x)[..t] + [term];
      objTerms := objTerms + [term];
      t := t + 1;
    }
    assert objTerms == HourlyProfits(inp, x);
    total := Sum(objTerms);
  }

  /** The market value of the net export. */
  function MarketValues(inp: Inputs, x: Dispatch): (s: seq<real>)
    requires Shaped(inp, x)
    ensures |s| == inp.Hours()
  {
    seq(inp.Hours(), t requires 0 <= t < inp.Hours() => inp.price[t] * (x.pExport[t] - x.pImport[t]))
  }

  /** The tariffs paid to the grid operator. */
  function TariffCosts(inp: Inputs, x: Dispatch): (s: seq<real>)
    requires Shaped(inp, x)
    ensures |s| == inp.Hours()
  {
    seq(inp.Hours(), t requires 0 <= t < inp.Hours() => inp.phiExp[t] * x.pExport[t] + inp.phiImp[t] * x.pImport[t])
  }

  /** The objective is the market value of the net export minus the tariffs. */
  lemma ProfitSplit(inp: Inputs, x: Dispatch)
    requires Shaped(inp, x)
    ensures Profit(inp, x) == Sum(MarketValues(inp, x)) - Sum(TariffCosts(inp, x))
  {
    var p, tc, mv := HourlyProfits(inp, x), TariffCosts(inp, x), MarketValues(inp, x);
    var zero := Repeat(0.0, inp.Hours());
    forall t | 0 <= t < inp.Hours() ensures p[t] + tc[t] == mv[t] + zero[t] {
      assert p[t] == HourlyProfit(inp, x, t);
    }
    SumPointwise(p, tc, mv, zero);
    SumOfZeros(inp.Hours());
  }

  lemma {:induction false} SumOfZeros(n: nat)
    ensures Sum(Repeat(0.0, n)) == 0.0
  {
    if n > 0 {
      assert Repeat(0.0, n)[..n - 1] == Repeat(0.0, n - 1);
      SumOfZeros(n - 1);
    }
  }

  /** A constant factor comes out of a sum. */
  lemma {:induction false} SumScale(s: seq<real>, r: seq<real>, k: real)
    requires |r| == |s| && forall t :: 0 <= t < |s| ==> r[t] == k * s[t]
    ensures Sum(r) == k * Sum(s)
  {
    if s != [] {
      var n := |s| - 1;
      SumScale(s[..n], r[..n], k);
    }
  }

  /** Without tariffs nothing is paid to the grid operator. */
  lemma NoTariffsNoCost(inp: Inputs, x: Dispatch)
    requires Shaped(inp, x)
    requires forall t :: 0 <= t < inp.Hours() ==> inp.phiImp[t] == 0.0 && inp.phiExp[t] == 0.0
    ensures Sum(TariffCosts(inp, x)) == 0.0
  {
    var tc, zero := TariffCosts(inp, x), Repeat(0.0, inp.Hours());
    assert tc == zero;
    SumOfZeros(inp.Hours());
  }

  /** Total net export: what is exported minus what is imported. */
  lemma SumNetExport(x: Dispatch, net: seq<real>)
    requires |net| == |x.pImport| == |x.pExport|
    requires forall t :: 0 <= t < |net| ==> net[t] == x.pExport[t] - x.pImport[t]
    ensures Sum(net) == Sum(x.pExport) - Sum(x.pImport)
  {
    var zero := Repeat(0.0, |net|);
    SumPointwise(net, x.pImport, x.pExport, zero);
    SumOfZeros(|net|);
  }

  /**
   * With one flat price `c` and no tariffs, every feasible point earns
   * `c` times the used PV beyond the required load.
   */
  lemma FlatPriceProfit(inp: Inputs, x: Dispatch, c: real)
    requires Feasible(inp, x)
    requires forall t :: 0 <= t < inp.Hours() ==> inp.price[t] == c && inp.phiImp[t] == 0.0 && inp.phiExp[t] == 0.0
    ensures Profit(inp, x) == c * (Sum(x.pPvActual) - inp.pTotal)
  {
    var mv := MarketValues(inp, x);
    var net := seq(inp.Hours(), t requires 0 <= t < inp.Hours() => x.pExport[t] - x.pImport[t]);
    FlatMarketValues(inp, x, c, net);
    ProfitSplit(inp, x);
    NoTariffsNoCost(inp, x);
    assert Profit(inp, x) == Sum(mv);
    SumScale(net, mv, c);
    assert Sum(mv) == c * Sum(net);
    NetExportIsSurplus(inp, x, net);
    ScaleEqual(c, Sum(net), Sum(x.pPvActual) - inp.pTotal);
  }

  /** At a flat price the market value of each hour is that price times the net export. */
  lemma FlatMarketValues(inp: Inputs, x: Dispatch, c: real, net: seq<real>)
    requires Shaped(inp, x)
    requires forall t :: 0 <= t < inp.Hours() ==> inp.price[t] == c
    requires |net| == inp.Hours() && forall t :: 0 <= t < |net| ==> net[t] == x.pExport[t] - x.pImport[t]
    ensures forall t :: 0 <= t < |net| ==> MarketValues(inp, x)[t] == c * net[t]
  {
    var mv := MarketValues(inp, x);
    forall t | 0 <= t < |net| ensures mv[t] == c * net[t] {
      assert inp.price[t] == c;
    }
  }

  /** On a feasible point the total net export is the used PV beyond the required load. */
  lemma NetExportIsSurplus(inp: Inputs, x: Dispatch, net: seq<real>)
    requires Feasible(inp, x)
    requires |net| == inp.Hours() && forall t :: 0 <= t < |net| ==> net[t] == x.pExport[t] - x.pImport[t]
    ensures Sum(net) == Sum(x.pPvActual) - inp.pTotal
  {
    SumNetExport(x, net);
    AggregateBalance(inp, x);
  }

  lemma ScaleEqual(c: real, a: real, b: real)
    requires a == b
    ensures c * a == c * b
  {
  }

  // ---------------------------------------------------------------------
  // Solve and extraction (lines 73-89)

  /** What the solver reports: an optimal point and its objective value, or any other status. */
  datatype SolverOutcome = Optimal(point: Dispatch, objVal: real) | NotOptimal

  /** The result mapping of lines 76-82. */
  type Results = map<string, seq<real>>

  /**
   * Lines 75-89: an optimal status yields the variable values and the
   * objective; any other status falls through and yields `None`.
   */
  function Extract(outcome: SolverOutcome): (r: Option<(Results, real)>)
    ensures r.Some? <==> outcome.Optimal?
    ensures r.Some? ==> r.value.0.Keys == {"p_import", "p_export", "p_load", "p_pv_actual", "y"}
    ensures r.Some? ==>
      && r.value.1 == outcome.objVal
      && r.value.0["p_import"] == outcome.point.pImport && r.value.0["p_export"] == outcome.point.pExport
      && r.value.0["p_load"] == outcome.point.pLoad && r.value.0["p_pv_actual"] == outcome.point.pPvActual
      && r.value.0["y"] == outcome.point.y
  {
    match outcome
    case NotOptimal => None
    case Optimal(x, obj) =>
      Some((map["p_import" := x.pImport, "p_export" := x.pExport, "p_load" := x.pLoad,
                "p_pv_actual" := x.pPvActual, "y" := x.y], obj))
  }

  /**
   * What the external solver promises about an optimal outcome: the point
   * satisfies every row, its objective value is the profit, and no feasible
   * point earns more.
   */
  ghost predicate SolverContract(inp: Inputs, outcome: SolverOutcome) {
    outcome.Optimal? ==>
      Feasible(inp, outcome.point)
      && outcome.objVal == Profit(inp, outcome.point)
      && forall z :: Feasible(inp, z) ==> Profit(inp, z) <= outcome.objVal
  }

  /** `build_and_solve`: read the inputs, then hand the program to the solver. */
  function BuildAndSolve(der: map<string, Param>, bus: map<string, Param>, load: map<string, Param>,
                         pTotal: real, solve: Inputs -> SolverOutcome): (r: Result<Option<(Results, real)>, DataError>)
    ensures r.Err? <==> LoadInputs(der, bus, load, pTotal).Err?
    ensures r.Err? ==> r.error == LoadInputs(der, bus, load, pTotal).error
    ensures r.Ok? ==> r.value == Extract(solve(LoadInputs(der, bus, load, pTotal).value))
    ensures r.Ok? ==> (r.value.None? <==> solve(LoadInputs(der, bus, load, pTotal).value).NotOptimal?)
  {
    var inp :- LoadInputs(der, bus, load, pTotal);
    Ok(Extract(solve(inp)))
  }

  /**
   * Every dispatch the builder returns under an honest solver uses the grid in
   * one direction per hour, curtails nothing negative, and balances in total.
   */
  lemma ReturnedDispatch(der: map<string, Param>, bus: map<string, Param>, load: map<string, Param>,
                         pTotal: real, solve: Inputs -> SolverOutcome)
    requires LoadInputs(der, bus, load, pTotal).Ok?
    requires SolverContract(LoadInputs(der, bus, load, pTotal).value, solve(LoadInputs(der, bus, load, pTotal).value))
    requires BuildAndSolve(der, bus, load, pTotal, solve).Ok? && BuildAndSolve(der, bus, load, pTotal, solve).value.Some?
    ensures var x := solve(LoadInputs(der, bus, load, pTotal).value).point;
      var inp := LoadInputs(der, bus, load, pTotal).value;
      Exclusive(x)
      && (forall t :: 0 <= t < inp.Hours() ==> 0.0 <= Curtailment(inp, x)[t] <= inp.pv[t])
      && Sum(x.pImport) + Sum(x.pPvActual) == pTotal + Sum(x.pExport)
  {
    var inp := LoadInputs(der, bus, load, pTotal).value;
    var x := solve(inp).point;
    FeasibleIsExclusive(inp, x);
    CurtailmentBounds(inp, x);
    AggregateBalance(inp, x);
  }
}
