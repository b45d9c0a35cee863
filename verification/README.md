# Energy-dispatch helpers: a Dafny model

This project models the sequential core of a small energy-dispatch
repository. Its optimiser hands a linear program to Gurobi, and the model
covers the logic around that call:

- **`opt_model.dfy`** (module `OptModel`) models `src/opt_model/opt_model.py`.
  - `ensure_list`, which normalises a per-hour parameter: it raises on a
    missing value or a wrong length and broadcasts a scalar.
  - The horizon and the order in which `build_and_solve` reads its inputs.
  - The constraint system `build_and_solve` hands to the solver, stated
    over exact reals as `Feasible`. It has the variable bounds, the big-M
    import/export exclusivity with a binary indicator, the total-load row
    and the hourly balance.
  - The profit objective (`Profit`), plus the extraction of results after
    the solver reports its status. The solver itself is a function
    parameter, constrained only by what an optimal answer promises.
- **`runner.dfy`** (module `Runner`) models `Runner._results_flat_to_lists`
  of `src/runner/runner.py`.
  - The key pattern `(.+)_([0-9]+)$` under `re.match`.
  - The first loop, which fills `grouped`.
  - The stable sort by index.
  - The second loop, which builds `out`.
  - Each loop is a method proved against a specification function. That
    function is then characterised key by key.
- **`utils.dfy`** (module `Utils`) models `src/utils/utils.py`.
  - `select_scenarios`, as a loop proved against its specification.
  - `get_unique_filename`.
  - The path of the dual-values file built in `print_all_scenarios`.
- **`data_visualizer.dfy`** (module `DataViz`) models the `DataVisualizer`
  class of `src/data_ops/data_visualizer.py`.
  - The constructor, and `add_scenario` with its key sanitisation.
  - Three decisions `plot_comparison` takes before drawing: which keys to
    skip, which reference profile to draw, and the label part of the saved
    file name.
- **Support modules:**
  - `wrappers.dfy` has `Option` and `Result`.
  - `dicts.dfy` models a Python dict as an insertion-ordered sequence of
    pairs. Assignment overwrites in place or appends.
  - `pystrings.dfy` has `str.replace`, ASCII `lower`, `join` and the
    occurrence lemmas about them.

Where the source's own comments and its code disagree, the model follows
the code:

- The docstring of `select_scenarios` (src/utils/utils.py:156) calls the
  "All" shortcut case-insensitive. The test at line 159 compares exactly,
  so `"ALL"` and the string `"all"` are ordinary names; `Utils.AllIsCaseSensitive`
  states this.
- The same docstring promises a new dict. For the shortcut, the code
  returns `d` itself.

## Model

| member | source | states |
|---|---|---|
| OptModel.EnsureList | src/opt_model/opt_model.py:8-17 | a KeyError exactly when the key is absent or None; a ValueError exactly when the value is a list of the wrong length; on success the result has `num_hours` entries, a list comes back unchanged and a scalar is repeated in every hour |
| OptModel.Horizon | src/opt_model/opt_model.py:21 | defines the horizon: 24 when the PV profile is absent, its length when it is a list, and a TypeError from `len` when it is None or a number |
| OptModel.Repeat | src/opt_model/opt_model.py:17 | `[v] * n` has length `n` and holds `v` everywhere |
| OptModel.LoadInputs | src/opt_model/opt_model.py:21-33 | succeeds exactly when the horizon and all eight `ensure_list` reads succeed; then every series is its key's `ensure_list` read over the horizon, the horizon is the length of the PV profile, the PV series is that profile, and `P_total` is the one given; a failure is the horizon's error, a KeyError or a ValueError |
| OptModel.MissingPvProfile | src/opt_model/opt_model.py:21-24 | without a PV profile the horizon defaults to 24, and the read of that profile then raises a KeyError |
| OptModel.PvProfileDefinesHorizon | src/opt_model/opt_model.py:21-24 | with a PV profile present, the horizon is computed exactly when it is a list, and then its own read returns it unchanged |
| OptModel.BigM | src/opt_model/opt_model.py:50 | `M[t]` is at least both grid limits and equal to one of them |
| OptModel.WithinBounds | src/opt_model/opt_model.py:53-56 | defines the variable bounds of one hour: each flow between 0 and its limit, used PV at most the available PV |
| OptModel.IndicatorRows | src/opt_model/opt_model.py:57-59 | defines the indicator rows of one hour: `y[t]` is 0 or 1, import at most `M[t]·y[t]`, export at most `M[t]·(1 - y[t])` |
| OptModel.Balanced | src/opt_model/opt_model.py:70-71 | defines the hourly balance: import plus used PV equals load plus export |
| OptModel.FlowsFeasible | src/opt_model/opt_model.py:52-71 | defines every row except the indicator rows: bounds and balance in every hour, and the total-load row `Σ p_load = P_total` |
| OptModel.Feasible | src/opt_model/opt_model.py:52-71 | defines the whole constraint system that `build_and_solve` hands to the solver |
| OptModel.FeasibleIsExclusive | src/opt_model/opt_model.py:57-59 | with `y[t]` binary, every feasible point has zero import or zero export in each hour |
| OptModel.BigMExcludesNothingExclusive | src/opt_model/opt_model.py:50-59 | flows that satisfy the bounds, the balance and the load row and use the grid in at most one direction per hour become feasible with the indicator set to 1 exactly on importing hours, so the big-M rows cut off nothing else |
| OptModel.CurtailmentBounds | src/opt_model/opt_model.py:56 | on a feasible point the curtailment `P_pv[t] - p_pv_actual[t]` lies between 0 and `P_pv[t]` |
| OptModel.AggregateBalance | src/opt_model/opt_model.py:68-71 | on a feasible point total import plus used PV equals the required load plus total export |
| OptModel.HourlyProfit | src/opt_model/opt_model.py:65 | defines the objective term of one hour: `(price - phi_exp)·export - (price + phi_imp)·import` |
| OptModel.Profit | src/opt_model/opt_model.py:63-66 | defines the objective that is maximised: the sum of the hourly terms |
| OptModel.Objective | src/opt_model/opt_model.py:63-66 | appending one term per hour and summing gives exactly `Profit`, the sum over hours of `(price - phi_exp)·export - (price + phi_imp)·import` |
| OptModel.ProfitSplit | src/opt_model/opt_model.py:63-66 | the objective equals the market value of the net export minus the tariffs paid |
| OptModel.NoTariffsNoCost | src/opt_model/opt_model.py:63-66 | with zero tariffs nothing is paid to the grid |
| OptModel.FlatPriceProfit | src/opt_model/opt_model.py:63-71 | with one flat price `c` and no tariffs, every feasible point earns `c·(Σ used PV - P_total)` |
| OptModel.NetExportIsSurplus | src/opt_model/opt_model.py:68-71 | on a feasible point the total net export is the used PV beyond the required load |
| OptModel.Extract | src/opt_model/opt_model.py:75-89 | a result exists exactly when the status is optimal; it then holds the five variable series under their names, and the objective value |
| OptModel.SolverContract | src/opt_model/opt_model.py:66-75 | defines what an optimal status promises: the point is feasible, its objective value is its profit, and no feasible point earns more |
| OptModel.BuildAndSolve | src/opt_model/opt_model.py:19-89 | fails exactly when reading the inputs fails, with that read's error; otherwise the result is what `Extract` makes of the solver's outcome on the inputs read, and none exactly when the status is not optimal |
| OptModel.ReturnedDispatch | src/opt_model/opt_model.py:50-89 | any dispatch returned under a solver that honours the constraints is exclusive, curtails between 0 and the available PV, and balances in total |
| Runner.ParseIndexedKey | src/runner/runner.py:26-30 | defines the match of `(.+)_([0-9]+)$`: split at the last `_` of the key (less one final newline), digits only after it, a non-empty base without newline before it, index `int` of the digits |
| Runner.ParseSound | src/runner/runner.py:26-30 | a matching key is a non-empty base without newline, `_` and a non-empty digit run whose value is the index, possibly followed by one newline |
| Runner.ParseSplit | src/runner/runner.py:26-30 | every such base, `_` and digit run parse back to that base and the digits' value |
| Runner.ParseGreedyBase | src/runner/runner.py:26-30 | `a_1_2` has base `a_1` and index 2 |
| Runner.ParseLeadingZero | src/runner/runner.py:30 | `p_07` has index 7 |
| Runner.ParseUnindexed | src/runner/runner.py:28-33 | `p_import` does not match, and `{p_import: v}` comes out as `{p_import: v}` |
| Runner.SinglePlainKey | src/runner/runner.py:32-41 | a lone key without index is carried over under its own name with its value |
| Runner.SortByIndexSpec | src/runner/runner.py:38 | the sort keeps the length, orders by index, and keeps the input order among equal indices (stable) |
| Runner.Step | src/runner/runner.py:28-33 | defines one iteration of the first loop: append `(idx, v)` to the base's list, creating it if absent, raise AttributeError if the base holds a plain value, or store a plain key's value |
| Runner.Grouped | src/runner/runner.py:25-33 | defines `grouped` after the first loop: `Step` over the entries in order, stopping at the first error |
| Runner.Convert | src/runner/runner.py:35-41 | returns the groups in order, each tuple list sorted and stripped of its indices, each other value carried over; the ensures fix every position |
| Runner.FlatToLists | src/runner/runner.py:17-42 | defines the whole function: grouping, then conversion |
| Runner.StepExtendsGrouping | src/runner/runner.py:28-33 | one iteration of the first loop (the body of `GroupFlat`) extends the grouping of the entries seen so far by one entry; it fails exactly when the key is indexed and its base is a key without index already seen, and otherwise every name holds the last plain value or the `(idx, v)` pairs of its base in input order |
| Runner.GroupFlat | src/runner/runner.py:25-33 | the first loop computes `Grouped` of the whole input, and stops at the first append onto a plain value |
| Runner.ConvertGroups | src/runner/runner.py:35-41 | the second loop builds the output in the groups' order: each tuple list sorted and stripped of indices, each other value carried over |
| Runner.ResultsFlatToLists | src/runner/runner.py:17-42 | the whole function computes `FlatToLists` |
| Runner.GroupedSpec | src/runner/runner.py:25-33 | grouping fails exactly when an indexed key follows a plain key equal to its base; otherwise every key of `grouped` is distinct and holds the last plain value or the `(idx, v)` pairs of its base in input order |
| Runner.FlatToListsSpec | src/runner/runner.py:25-42 | the function fails exactly in that case; otherwise the output has distinct keys and each holds the expected series of its base |
| Runner.PlainKeyKept | src/runner/runner.py:32-41 | a key without trailing `_digits` is in the output under the same key with its value unchanged |
| Runner.IndexedGroupListed | src/runner/runner.py:36-39 | each indexed base becomes a list with one value per key of its group, sorted by index and stable among equal indices; gaps are not filled |
| Runner.GroupOfMembers | src/runner/runner.py:27-31 | a pair `(n, v)` is in a base's group exactly when some input key of that base has index `n` and value `v` |
| Runner.DocExample | src/runner/runner.py:20-21 | `{b_0: v0, b_1: v1}` becomes `{b: [v0, v1]}`, the docstring's example for any base |
| Runner.EveryValueOnce | src/runner/runner.py:25-42 | when no plain key equals an indexed base and keys are distinct, the output holds as many values as the input |
| Utils.GetUniqueFilename | src/utils/utils.py:6-19 | the name is returned unchanged |
| Utils.LowerMap | src/utils/utils.py:164 | the map sends each lower-case form to the latest key of `d` with that form |
| Utils.IsAll | src/utils/utils.py:159 | defines the shortcut test: exactly `"All"`, `["All"]` or `["all"]` |
| Utils.Requested | src/utils/utils.py:161-162 | defines how a single name becomes a one-element list |
| Utils.Selection | src/utils/utils.py:165-169 | defines `selected` after the loop over the requested names |
| Utils.Select | src/utils/utils.py:153-170 | defines `select_scenarios`: `d` itself for the shortcut, else the selection |
| Utils.SelectScenarios | src/utils/utils.py:153-170 | the loop over requested names computes `Select`: all of `d` for the three "All" spellings, else the selection by name |
| Utils.SelectionSpec | src/utils/utils.py:164-169 | every selected key holds the value `d` holds for it, and a key is selected exactly when some requested name matches it case-insensitively and no later key of `d` does |
| Utils.SelectSpec | src/utils/utils.py:161-169 | the same for `select_scenarios`, with a single name read as a one-element list; the result has no duplicate key; unknown names are ignored |
| Utils.ShadowedNotSelected | src/utils/utils.py:164 | of two keys of `d` differing only in case, the earlier one is never selected |
| Utils.AllIsCaseSensitive | src/utils/utils.py:159-162 | `"All"` and `["all"]` return `d`, while `"all"` and `["ALL"]` are ordinary names |
| Utils.DualsFilename | src/utils/utils.py:105-110 | the step-by-step reassignment computes `DualsPath` |
| Utils.DualsPath | src/utils/utils.py:105-110 | defines the path as the source's chain of `replace` calls |
| Utils.DualsNameHasNoSpace | src/utils/utils.py:105 | the scenario part of the path holds no space |
| Utils.DualsPathSuffixes | src/utils/utils.py:105-110 | when the stem does not contain `.txt`, for any `fixed_da`, the path is `txt/{question}/duals_{name}` then `_varytariff` if asked, then `_fixedDA{v}` if given, then `.txt` |
| Utils.DualsPathRewritesEveryTxt | src/utils/utils.py:106-108 | every `.txt` is rewritten: a name ending in `.txt` gets `_varytariff` twice |
| DataViz.Basename | src/data_ops/data_visualizer.py:21 | the basename is the suffix after the last `/` and holds no `/` |
| DataViz.SplitextRoot | src/data_ops/data_visualizer.py:22 | the root is a prefix; when shorter it ends just before the last `.` and is not only dots; otherwise the name has no dot or only dots before its last one |
| DataViz.ScenarioKey | src/data_ops/data_visualizer.py:21-23 | the key holds no space and no `/` |
| DataViz.StoredLabel | src/data_ops/data_visualizer.py:26 | defines the stored label: the label if truthy, else the key |
| DataViz.KeyDropsDirAndExtension | src/data_ops/data_visualizer.py:21-23 | `dir/stem.ext` gets the key `stem` with spaces as underscores |
| DataViz.HiddenFileKeepsName | src/data_ops/data_visualizer.py:22 | a name made of dots, a dot and an extension keeps its whole name |
| DataViz.NamesCanCollide | src/data_ops/data_visualizer.py:21-27 | `a/x y.csv` and `b/x_y.json` share the key `x_y`, and writing the second entry after the first leaves the registry as if only the second had been written |
| DataViz.DataVisualizer.constructor | src/data_ops/data_visualizer.py:8-10 | the registry starts empty and the question is stored |
| DataViz.DataVisualizer.AddScenario | src/data_ops/data_visualizer.py:12-27 | exactly the entry under the sanitised key is written (in place if present, appended otherwise) with the results and the label, or the key when the label is falsy; nothing else changes |
| DataViz.AnyNotNone | src/data_ops/data_visualizer.py:78 | true exactly when some element is not None |
| DataViz.HasData | src/data_ops/data_visualizer.py:78 | defines the data test: present, a list, and some element not None |
| DataViz.DataVisualizer.SkipKey | src/data_ops/data_visualizer.py:75-83 | a key is skipped exactly when no scenario holds a list with a non-None element for it |
| DataViz.DataVisualizer.ReferenceProfile | src/data_ops/data_visualizer.py:67-72 | no profile exactly when no scenario has a usable one; otherwise it is the first scenario's profile, in registry order, that is a list with a non-None element |
| DataViz.TruthyIndices | src/data_ops/data_visualizer.py:115 | the positions of the truthy labels: each one's label is non-empty, they increase, and every position with a non-empty label is among them |
| DataViz.TruthyLabels | src/data_ops/data_visualizer.py:115 | the list holds, position by position, the labels at `TruthyIndices`: every non-empty label, once, in registry order, and nothing else |
| DataViz.SanitizeForPath | src/data_ops/data_visualizer.py:119 | the result holds no space, `/` or `\` |
| DataViz.SanitizeClean | src/data_ops/data_visualizer.py:119 | a string without those characters is left unchanged |
| DataViz.DataVisualizer.FilenameLabel | src/data_ops/data_visualizer.py:115-119 | the reassignments compute `FilenameLabelOf`, free of space, `/` and `\` |
| DataViz.FilenameLabelOf | src/data_ops/data_visualizer.py:115-119 | defines the label part: join the truthy labels with `_`, fall back to `all_scenarios`, then sanitise |
| DataViz.NoLabelsFallback | src/data_ops/data_visualizer.py:115-117 | with no truthy label the file label is `all_scenarios` |
| DataViz.CleanLabelsJoined | src/data_ops/data_visualizer.py:115-119 | clean truthy labels are joined with `_` and otherwise kept |
| PyStrings.Replace | src/utils/utils.py:105 | defines `str.replace` with a non-empty pattern: every non-overlapping occurrence, scanning left to right |
| PyStrings.ReplaceRemovesChar | src/data_ops/data_visualizer.py:23 | replacing a one-character pattern by text without it leaves no such character |
| PyStrings.Lower | src/utils/utils.py:164 | `lower()` keeps the length and lowers each character, ASCII letters only |
| PyStrings.Join | src/data_ops/data_visualizer.py:115 | defines `sep.join(parts)` |
| PyStrings.LastIndexOf | src/data_ops/data_visualizer.py:21 | the position found holds the character and none follows it; no position means the character is absent |

## Left out

- The Gurobi model, its parameters, `m.optimize()` and the search for an optimum are a foreign solver. The solver is a function parameter; `OptModel.SolverContract` states what an optimal answer promises.
- Floating point: every quantity of the program is an exact `real`, so solver tolerances and rounding are not modelled.
- The debug and result printing in `build_and_solve` (src/opt_model/opt_model.py:35-40,84-88) is console output.
- OptModel.LoadInputs: `P_total` is a parameter. The nested lookup `usage_preference[0]["load_preferences"][0][...]` and its possible errors are not modelled.
- OptModel.EnsureList: `d.get` on a non-dict and values that are neither None, a number nor a list (a string, say) are not modelled.
- Battery, state of charge, discomfort and capacity sizing do not appear in src/opt_model/opt_model.py. `EnergySystemModel`, `Consumer`, `DER` and `Grid` are not part of this model.
- `run_single_simulation` and `run_all_simulations` are JSON reads and orchestration. So are `load_dataset`, `get_all_scenarios`, src/data_ops/data_loader.py and src/main.py.
- The printing functions of src/utils/utils.py and the file write in `print_all_scenarios` are I/O. `Utils.DualsFilename` covers only the name, not the `if duals:` guard.
- Utils.DualsFilename: `question` and `fixed_da` are taken as strings already formatted by the f-string; Python's `str()` of other values is not modelled.
- Utils.GetUniqueFilename: the loop after the early `return` is unreachable and is not modelled.
- Utils.SelectScenarios: for the "All" spellings Python returns `d` itself, so later changes to the result change `d`. The model's values cannot alias.
- `lower()`: `PyStrings.Lower` folds only ASCII letters. Full Unicode case mapping is not modelled.
- Runner.FlatToListsSpec: Python raises AttributeError on an append to a plain value only when that value is not itself a list. The model always raises there.
- Runner.ConvertGroups: the second loop also sorts and unpacks a plain value that is a non-empty list whose first element is a tuple. The model carries every plain value over as it is.
- Runner.EveryValueOnce: counts the output values rather than stating the output as a multiset of the input values.
- All matplotlib drawing, figure handling and directory creation in src/data_ops/data_visualizer.py, and `plot_scenario`.
- DataViz.DataVisualizer.AddScenario: the label is a string, and the truthiness test is non-emptiness. Other label objects are not modelled.
- DataViz.DataVisualizer.SkipKey: result values are a list of optional reals or "not a list"; the element type of a list is not modelled further.
- `os.path.basename` and `os.path.splitext` follow the POSIX rules. Windows separators are not modelled.
