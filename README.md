# cluster-workload-estimator in Dafny

This project models the scripts a cluster workload estimator uses to build its
simulations and to prepare the forecaster's data. The simulations run on the
YAFS fog-computing simulator.

- **Placement** (`placement.dfy`, tests/test7/simplePlacement.py). `CloudPlacement`
  is a tag-based placement policy. Its initial allocation walks the
  application's service keys in reversed order. Each scaled service reads the
  tag at its own position and looks up the devices carrying that tag. It then
  issues one deploy per requested replica, each deploy targeting every device
  found. Python's `IndexError` on a tag that is too short is the `failedAt`
  position.
- **Topology** (`topology.dfy`). These are the devices and links that
  `create_json_topology` produces. `find_IDs` is modelled as a filter on
  `mytag`. Python's `a * b ^ c` is `(a * b)` XOR `c`, so the IPT and
  instruction literals are evaluated with an explicit XOR.
- **Application assembly**. `create_application` fills a YAFS `Application`,
  modelled as the log of calls made on it (`application.dfy`). There are two
  versions:
  - `dict_assembly.dfy` covers tests/test5/test5.py. It uses a message
    dictionary, and a missing message name raises `KeyError`.
  - `scan_assembly.dfy` covers tests/test2/test2.py. It scans the message
    list twice per rule, so a missing name is skipped and duplicate names give
    several calls.
  
  The two versions are proved to agree on well-formed input.
- **Scenarios** (`scenario5.dfy`, `scenario2.dfy`). These are the literal
  topologies, modules, messages, transmission rules and placements of the two
  test scripts, with the well-formedness they satisfy. For each placement, the
  model proves the concrete deploys it issues.
- **Time series** (`timeseries.dfy`, tests/test4/functions.py):
  - row filtering of the simulator's message log;
  - the per-step memory series `ts_memory`;
  - history/target windowing (`univariate_data`);
  - `create_time_steps`;
  - the two flattenings used to plot true against predicted memory: `ms_val`
    and `avg_pred`.

Where the source changes state step by step, the model has methods with loops:

- the in-place list reversal;
- the replica loop;
- the call log of `Application`;
- the loops of `create_application`;
- `ts_memory`, `univariate_data` and `ms_val`;
- the `avg_pred` buffer, an `array<real>` rolled left after every window.

Each of these methods is proved against a specification function. The
properties are then proved as lemmas about those functions.

## Model

| member | source | states |
|---|---|---|
| Placement.CloudPlacement.constructor | tests/test7/simplePlacement.py:20-22 | the policy stores its name and tag; no services are scaled yet |
| Placement.CloudPlacement.ScaleService | tests/test5/test5.py:185-186 | the replica map is replaced; name and tag are unchanged |
| Placement.CloudPlacement.InitialAllocation | tests/test7/simplePlacement.py:24-36 | the deploys issued, and the position of a failing tag read, equal `Allocate` over the reversed service keys |
| Placement.ReverseInPlace | tests/test7/simplePlacement.py:28-29 | `list.reverse()` leaves the array holding the reversal of its old contents |
| Placement.TagAt | tests/test7/simplePlacement.py:33 | `self.tag[idx]` succeeds exactly when idx is below the tag's length; for a list it is the element, for a string the one-character string |
| Placement.Replicas | tests/test7/simplePlacement.py:35-36 | `range(0, n)` gives max(n, 0) deploys, all of the service onto the same cluster |
| Placement.CountReplicas | tests/test7/simplePlacement.py:35-36 | the replica loop deploys service s exactly n times when it runs for s with n > 0, otherwise never |
| Placement.AllocateStopsAtFailure | tests/test7/simplePlacement.py:31-36 | after an IndexError on the tag, the later services add nothing |
| Placement.AllocateFailsIffTagTooShort | tests/test7/simplePlacement.py:31-33 | allocation fails iff some scaled service sits at a position at or past the tag's length; it fails at the first such position |
| Placement.AllocateReadsScaledTagsOnly | tests/test7/simplePlacement.py:31-33 | the tag is read only at positions of scaled services: tags agreeing there give the same allocation |
| Placement.AllocateTrace | tests/test7/simplePlacement.py:31-36 | every deploy is traced to a scaled position read before any failure; it deploys that service onto the devices carrying that position's tag, in position order |
| Placement.AllocateReplicaCount | tests/test7/simplePlacement.py:31-36 | with distinct keys and no failure, each listed scaled service gets exactly `scaleServices[s]` deploys (none below 1); every other service gets none |
| Topology.FindIDs | tests/test7/simplePlacement.py:33-34 | the ids found for a tag are exactly those of the devices whose `mytag` is that tag; there are no more of them than devices |
| Topology.FindIDsDistinct | tests/test7/simplePlacement.py:34 | with distinct device ids, `find_IDs` lists each id once |
| Topology.FindIDsNone | tests/test7/simplePlacement.py:34 | a tag no device carries finds no device |
| Topology.FindIDsSingle | tests/test7/simplePlacement.py:33-34 | a tag carried by exactly one device finds exactly that device's id |
| Topology.XorLowBits | tests/test5/test5.py:85-91 | `a ^ b` is `a + b` when a is a multiple of 8 and b < 8, so `k * 10 ^ 6` is `10k + 6` when k is a multiple of 4 |
| Topology.XorHundredSix | tests/test5/test5.py:85-86 | `10 * 10 ^ 6` evaluates to 98 |
| Topology.XorThreeHundredSix | tests/test2/test2.py:136-139 | `30 * 10 ^ 6` evaluates to 298 |
| AppModel.Application.constructor | tests/test5/test5.py:46 | a new application has its name and no calls |
| AppModel.Application.SetModules | tests/test5/test5.py:49 | `set_modules` appends exactly its call to the log |
| AppModel.Application.AddSourceMessages | tests/test5/test5.py:63 | `add_source_messages` appends exactly its call to the log |
| AppModel.Application.AddServiceModule | tests/test5/test5.py:72 | `add_service_module` appends exactly its call to the log |
| AppModel.PopIndices | tests/test5/test5.py:61-63 | the positions of the records with `pop` set, strictly increasing and all present |
| AppModel.SourceCallsArePopMessages | tests/test5/test5.py:61-63 | one source registration per `pop` record, in input order, registering the message built from that record |
| AppModel.RegisterSources | tests/test2/test2.py:51-53 | the loop appends exactly the source registrations of the `pop` records |
| DictAssembly.BuildMessages | tests/test5/test5.py:52-54 | `messages_list` has one Message per record, in order, fields (std included) carried over |
| DictAssembly.MessagesList | tests/test5/test5.py:52-54 | the loop builds `messages_list` |
| DictAssembly.MessagesDict | tests/test5/test5.py:56-58 | the loop builds `messages_dict` |
| DictAssembly.IndexByNameKeys | tests/test5/test5.py:56-58 | the keys of `messages_dict` are exactly the names that occur |
| DictAssembly.IndexByNameLastWins | tests/test5/test5.py:56-58 | each name maps to the last message bearing it |
| DictAssembly.RuleCalls | tests/test5/test5.py:71-72 | one call per rule in rule order, threshold unchanged, iff every in and out name is a key; otherwise KeyError on the first rule missing one |
| DictAssembly.ServiceCalls | tests/test5/test5.py:66-72 | the module loop succeeds iff every rule of every processing module with an entry resolves |
| DictAssembly.MatchedRulesResolve | tests/test5/test5.py:66-72 | when every rule's in and out messages exist, no KeyError is raised |
| DictAssembly.RuleCallsStopAtError | tests/test5/test5.py:71-72 | a KeyError ends the rule loop with that error |
| DictAssembly.ServiceCallsStopAtError | tests/test5/test5.py:66-72 | a KeyError ends the module loop with that error |
| DictAssembly.ServiceCallsTrace | tests/test5/test5.py:66-72 | each call is traced to one rule of one processing module in (module, rule) order; every such rule occurs exactly once |
| DictAssembly.ServiceCallsIgnoreOtherEntries | tests/test5/test5.py:68-70 | `transmissions` entries not keyed by a processing module change nothing |
| DictAssembly.RegisterRules | tests/test5/test5.py:71-72 | the rule loop appends the rule calls, or stops with the KeyError |
| DictAssembly.RegisterServices | tests/test5/test5.py:66-72 | the module loop appends the service calls, or stops with the KeyError |
| DictAssembly.CreateApplication | tests/test5/test5.py:45-74 | the new application's call log is `set_modules`, the source registrations, then the rule registrations; on KeyError no application is returned |
| ScanAssembly.BuildMessages | tests/test2/test2.py:46-48 | one Message per record, in order, without a noise parameter |
| ScanAssembly.MatchOutCount | tests/test2/test2.py:62-64 | the innermost loop makes one call per output message bearing the rule's out name, if message_in bears its in name |
| ScanAssembly.MatchPairsCount | tests/test2/test2.py:61-64 | a rule yields (number of in-name matches) times (number of out-name matches) calls: none when a name is absent |
| ScanAssembly.MatchOutTrace | tests/test2/test2.py:62-64 | each innermost call is traced to the position of its output message, strictly increasing |
| ScanAssembly.MatchPairsTrace | tests/test2/test2.py:61-64 | the calls for a rule are exactly the matching (in, out) position pairs in increasing order, threshold unchanged |
| ScanAssembly.ServiceCallsOnlyEmitting | tests/test2/test2.py:56-59 | rule registrations are made only for processing modules that have an entry |
| ScanAssembly.RuleCallsFor | tests/test2/test2.py:60-64 | every call for a service's rules is a service-module call naming that service |
| ScanAssembly.ServiceCallsIgnoreOtherEntries | tests/test2/test2.py:56-59 | `transmissions` entries not keyed by a processing module change nothing |
| ScanAssembly.MatchPairsUnique | tests/test2/test2.py:60-64 | with unique names and both names present, a rule yields exactly the one call the dictionary version makes |
| ScanAssembly.RuleCallsAgree | tests/test2/test2.py:60-64 | with unique names and resolving rules, scanning and dictionary lookup register the same rules in the same order |
| ScanAssembly.ServiceCallsAgree | tests/test2/test2.py:56-64 | the same holds for the whole module loop |
| ScanAssembly.CreateApplicationAgrees | tests/test2/test2.py:25-66 | with unique names, no noise parameter and no KeyError in the dictionary version, both `create_application`s make identical call logs |
| ScanAssembly.RegisterOuts | tests/test2/test2.py:62-64 | the innermost loop appends its calls |
| ScanAssembly.RegisterPairs | tests/test2/test2.py:61-64 | the message_in loop appends its calls |
| ScanAssembly.RegisterRules | tests/test2/test2.py:60-64 | the rule loop appends its calls |
| ScanAssembly.RegisterServices | tests/test2/test2.py:56-64 | the module loop appends its calls |
| ScanAssembly.CreateApplication | tests/test2/test2.py:25-66 | the new application's call log is `set_modules`, the source registrations, then the scanned rule registrations |
| Test5Scenario.Literals5Topology | tests/test5/test5.py:85-91 | the IPT fixtures are the XOR values Python computes |
| Test5Scenario.Literals5Messages0 | tests/test5/test5.py:143-147 | the instruction fixtures are the XOR values Python computes |
| Test5Scenario.Literals5Messages1 | tests/test5/test5.py:145-146 | the instruction fixtures are the XOR values Python computes |
| Test5Scenario.Literals5Messages2 | tests/test5/test5.py:148-155 | the instruction fixtures are the XOR values Python computes |
| Test5Scenario.Literals5Messages3 | tests/test5/test5.py:156-159 | the instruction fixtures are the XOR values Python computes |
| Test5Scenario.Topology5Links | tests/test5/test5.py:85-108 | device ids are their positions, so distinct; every link joins declared devices |
| Test5Scenario.Topology5Tags | tests/test5/test5.py:87-89 | cloud1, cloud2 and cloud3 each tag exactly one device: 2, 3 and 4 |
| Test5Scenario.Messages1ReferenceModules | tests/test5/test5.py:131-155 | every message of app_1 runs between declared modules |
| Test5Scenario.Rules1MatchService | tests/test5/test5.py:143-169 | every rule of app_1 consumes a message addressed to its service and produces one sent from it |
| Test5Scenario.Names1Unique | tests/test5/test5.py:131-155 | module names and message names of app_1 are unique |
| Test5Scenario.Application1WellFormed | tests/test5/test5.py:131-169 | app_1 is well formed, thresholds in [0, 1] included |
| Test5Scenario.Messages2ReferenceModules | tests/test5/test5.py:136-159 | every message of app_2 runs between declared modules |
| Test5Scenario.Rules2MatchService | tests/test5/test5.py:156-171 | every rule of app_2 matches its service |
| Test5Scenario.Application2WellFormed | tests/test5/test5.py:136-171 | app_2 is well formed |
| Test5Scenario.PlaceTwo | tests/test7/simplePlacement.py:28-36 | with service keys [b, a], reversal walks a then b: two scaled services with one replica each and two tags give a one deploy onto the devices of the first tag, then b one onto those of the second |
| Test5Scenario.Placements5 | tests/test5/test5.py:182-191 | for either key order, each placement deploys each service once onto the one device tagged at its reversed position |
| Test5Scenario.Applications5Assemble | tests/test5/test5.py:173-177 | both applications are assembled without KeyError |
| Test2Scenario.Literals2 | tests/test2/test2.py:84-88 | the IPT and instruction fixtures are the XOR values Python computes |
| Test2Scenario.Topology2Links | tests/test2/test2.py:81-106 | device ids are their positions, so distinct; every link joins declared devices |
| Test2Scenario.Topology2Tags | tests/test2/test2.py:85-86 | cloud1 and cloud2 each tag exactly one device: 1 and 2 |
| Test2Scenario.Applications2WellFormed | tests/test2/test2.py:128-143 | both applications are well formed |
| Test2Scenario.Applications2Assemble | tests/test2/test2.py:145-149 | each application's log is `set_modules`, the sensor message as source, and one rule from it to the actuator message |
| Test2Scenario.OneRuleAssemble | tests/test2/test2.py:25-66 | for three modules with the service in the middle, a source message, a non-source message and one rule between them, the scanning assembly logs `set_modules`, the source registration, then exactly one rule registration |
| Test2Scenario.NoOneCharacterTag | tests/test2/test2.py:84-88 | no device of this topology carries a one-character tag |
| Test2Scenario.Placement2TargetsNoDevice | tests/test2/test2.py:156-161 | a string tag makes `tag[idx]` one character, so every deploy targets an empty cluster |
| Test2Scenario.Placements2 | tests/test2/test2.py:156-161 | each placement deploys its service once onto no device |
| TimeSeries.Select | tests/test4/functions.py:12 | a boolean-mask selection keeps exactly the rows satisfying the mask and no more rows |
| TimeSeries.SelectTrace | tests/test4/functions.py:12 | the selection is the subsequence of the kept rows: increasing positions, every kept row present |
| TimeSeries.SelectAppend | tests/test4/functions.py:12 | selecting a concatenation is concatenating the selections |
| TimeSeries.SelectNone | tests/test4/functions.py:21 | a mask no row satisfies selects nothing |
| TimeSeries.DataFromNode | tests/test4/functions.py:7-12 | the rows kept are exactly those whose destination is the node |
| TimeSeries.FilterTime | tests/test4/functions.py:15-21 | the rows kept are exactly those in flight at the time, both bounds strict |
| TimeSeries.MemoryAtIsActiveMemory | tests/test4/functions.py:31-36 | memory at t is the sum of the memory of the node's rows with time_in < t < time_out |
| TimeSeries.MemoryAtAppend | tests/test4/functions.py:31-36 | memory at t is additive over the log |
| TimeSeries.MemoryAtSingle | tests/test4/functions.py:31-36 | a single row contributes its memory exactly when it is for the node and in flight |
| TimeSeries.MemoryAtIgnoresOtherNodes | tests/test4/functions.py:31 | rows for other nodes change no node's series |
| TimeSeries.TsMemory | tests/test4/functions.py:24-40 | one sample per time step 0 .. simulation_time-1; entry t holds t and the memory in flight at t |
| TimeSeries.Clamp | tests/test4/functions.py:85-86 | a slice bound clamped into the sequence; in-range bounds are unchanged |
| TimeSeries.PySlice | tests/test4/functions.py:85-86 | Python's slice is the plain slice for in-range bounds and never longer than the sequence |
| TimeSeries.SamplesStopAtError | tests/test4/functions.py:82-86 | the first exception ends `univariate_data` |
| TimeSeries.SamplesShape | tests/test4/functions.py:82-86 | on success, one history and one target window per i in the range, of h and target values |
| TimeSeries.SamplesInRange | tests/test4/functions.py:82-86 | inside the dataset with h >= 1, sampling succeeds and the windows are the plain slices |
| TimeSeries.SamplesFailFrom | tests/test4/functions.py:82-86 | once the step at i fails (no history, or a window of the wrong length), the whole range fails with that exception |
| TimeSeries.SamplesNoHistory | tests/test4/functions.py:83-85 | with history_size 0, a non-empty range raises IndexError on `indices[0]` |
| TimeSeries.UnivariateWindows | tests/test4/functions.py:74-87 | in range, there are max(0, end - start - h) samples; sample k is `dataset[start+k : start+h+k]` and `dataset[start+h+k : start+h+k+target]` |
| TimeSeries.UnivariateData | tests/test4/functions.py:74-87 | the loop's result is the windowing specification, exceptions included |
| TimeSeries.CreateTimeSteps | tests/test4/functions.py:90-91 | max(length, 0) steps, step k being k - length, ending at -1 |
| TimeSeries.MsValShape | tests/test4/functions.py:123-131 | succeeds iff every window but the last is non-empty; gives the first values of the earlier windows then the whole last window |
| TimeSeries.MsValSliding | tests/test4/functions.py:123-131 | windows `series[i:i+f]` flatten back to `series[:n-1+f]` |
| TimeSeries.UnivariateLabelsFlatten | tests/test4/functions.py:123-131 | `ms_val` of the target windows is the contiguous stretch of the dataset they cover |
| TimeSeries.MsVal | tests/test4/functions.py:123-131 | the loops compute the flattening, IndexError included |
| TimeSeries.CountRows | tests/test4/functions.py:139-149 | a step with some window covering it is covered by at least one window |
| TimeSeries.CountRowsSettled | tests/test4/functions.py:141-149 | once windows 0 .. s are in, step s is covered by min(s+1, f) windows: the divisors `idx + 1` and `f_steps` |
| TimeSeries.StepSumSettled | tests/test4/functions.py:139-140 | windows starting after step s do not add to its sum |
| TimeSeries.AvgPredLength | tests/test4/functions.py:134-153 | n values for n >= f_steps windows; n - 1 + f_steps for fewer |
| TimeSeries.AddInto | tests/test4/functions.py:140 | `w += p` adds p slot by slot |
| TimeSeries.RollLeft | tests/test4/functions.py:150 | `np.roll(w, -1)` shifts left and wraps the first slot to the end |
| TimeSeries.EmitValues | tests/test4/functions.py:141-149 | the values appended for window idx are those read off the running sums by the three branches |
| TimeSeries.EmitAndShift | tests/test4/functions.py:141-151 | appends the window's values, and rolling the buffer left with a zeroed last slot leaves the pending sums for the next window |
| TimeSeries.AvgPred | tests/test4/functions.py:134-153 | the buffer loop computes `avg_pred` as written, IndexError for zero steps included |
| TimeSeries.StepSumConsistent | tests/test4/functions.py:139-149 | on windows of one series, a step's sum is its value times its window count |
| TimeSeries.AvgPredUpToIsForecast | tests/test4/functions.py:139-151 | the values appended by the first i iterations, none of them the flush, are the first i per-step averages |
| TimeSeries.AvgPredIsForecastPrefix | tests/test4/functions.py:139-151 | for n >= f_steps, `avg_pred` is the first n per-step averages |
| TimeSeries.AvgPredShorterThanMsVal | tests/test4/functions.py:139-151 | for n >= f_steps >= 2, `avg_pred` has f_steps - 1 fewer values than `ms_val` of same-shaped windows |
| TimeSeries.AvgPredDropsTail | tests/test4/functions.py:141-147 | concrete input where the flush never runs and the last step is lost |
| TimeSeries.AvgPredShortFlush | tests/test4/functions.py:143-147 | concrete input where the flush divides by the wrong count |
| TimeSeries.AvgForecast | tests/test4/functions.py:134-153 | the corrected average has n - 1 + f_steps values, one per forecast step |
| TimeSeries.EmitIsForecastAt | tests/test4/functions.py:141-149 | a window that appends one value (not the flush) appends exactly the per-step average of its step |
| TimeSeries.AvgForecastAt | tests/test4/functions.py:134-153 | on windows of one series, the corrected average at each step is that step's value |
| TimeSeries.AvgForecastExact | tests/test4/functions.py:134-153 | on windows of one series, the corrected average returns that series, equal to `ms_val` of the windows |

## Left out

- The YAFS library is not part of this model. `Sim`, `Topology.load`, `deploy_module`, populations, selectors, the simulation run and `Stats` are out. `find_IDs` is replaced by a filter of the devices on `mytag`. `deploy_module` is recorded as a `Deploy` value naming the service and the cluster.
- Placement.CloudPlacement.InitialAllocation: returns the deploys and the failing position instead of acting on a simulator. It does not record the `services[module]` argument.
- AppModel.Application.AddServiceModule: does not record the `fractional_selectivity` distribution argument, which is the same for every call.
- Python 2 dictionary key order is not modelled. The order of `services.keys()` is an input, and the scenario lemmas cover every order of the two keys. `transmissions` is a map, because both versions only compare its keys with the module name.
- The `main` functions beyond the scenario literals are left out: populations, the selector, the run, result paths, logging and timing.
- The placement scenario of tests/test2/test2.py is checked against the `CloudPlacement` of tests/test7/simplePlacement.py. The copy of simplePlacement next to test2 is not part of this model.
- Floating-point numbers are exact reals. There is no rounding in `avg_pred` or in the thresholds. The memory column is an integer.
- TimeSeries.TsMemory: returns the samples as a sequence of (time, memory) pairs, not a pandas DataFrame. The progress bar is left out.
- TimeSeries.UnivariateData: `history_size` and `target_size` are natural numbers. Negative sizes are not modelled. The trailing unit axis that `np.reshape(..., (n, 1))` adds is dropped, so each window is a flat sequence.
- `avg_pred` takes its input as a sequence of rows of equal length (`Uniform`), because a NumPy 2-D array cannot be ragged.
- `ts_memory_ds` is not modelled, because it samples on a floating-point grid from `np.arange`. `plot_ts`, `show_plot`, `line_plot` and the analysis scripts are plotting only. tests/test1/test1.py is not part of this model.

## Findings

| source | as written | input that shows it | evidently intended | confidence | as-written member | corrected member |
|---|---|---|---|---|---|---|
| tests/test4/functions.py:141-147 | `idx >= f_steps - 1` is tested before `idx == len(y_pred) - 1`. With at least f_steps windows the flush branch never runs, so the last f_steps - 1 forecast steps are dropped. The result then has n values, while `ms_val` of the true windows has n - 1 + f_steps (the two are plotted together at tests/test5/analysis.py:95-98) | `y_pred = [[1, 1], [1, 1]]`: returns `[1, 1]`, while `ms_val` gives `[1, 1, 1]` | one average per forecast step, n - 1 + f_steps values aligned with `ms_val` | not executed; high | TimeSeries.AvgPredDropsTail | TimeSeries.AvgForecastExact |
| tests/test4/functions.py:143-147 | with fewer windows than steps, the flush divides step idx + j by f_steps - j rather than by the number of windows that forecast that step | `y_pred = [[2, 4]]`: returns `[1, 4]` | `[2, 4]`, each step averaged over the windows that cover it | not executed; medium | TimeSeries.AvgPredShortFlush | TimeSeries.AvgForecastExact |
