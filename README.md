# compareHypotheses in Dafny

compareHypotheses reads the fit results of one physics event sample under
several kinematic-fit hypotheses. Each hypothesis is a tree of rows ("combos"):
event ID, run ID, beam ID, chi-square (`kin_chisq`) and degrees of freedom
(`kin_ndf`). The program has three stages.

1. It reduces every tree to the best combo per key. The key is the event ID, or the (event ID, beam ID) pair.
2. It matches the primary tree's best combos against every alternative tree's
   best combos. Rows must share the key and the run ID. Each match records the
   alternative's chi-square / ndf and bumps a 32-bit match counter.
3. It writes the primary tree's rows with one added column per
   alternative. A column holds the matched quality, or the no-match indicator
   185100000. Unless combos are preserved, only the rows whose chi-square equals
   the reduced entry's survive.

The model covers the newer revision (`compare_hypotheses.cpp/.h`: any number of
alternatives, two key schemes) and the older one (`compareHypotheses.cpp/.h`:
one alternative, event key only).

Modules, one per concern of the program:

- `Records`: the fixed-width integers, 32-bit wrap-around of the counter,
  the `combo` record and the quality quotient.
- `Reduction`: `filter_high_chi_sq_events` of both subclasses, exactly as
  written. This includes `operator[]` default insertion and the beam flag that
  `contains_event_id` reads. Beside it sits `Best`, the intended reduction, with
  its minimality, tie-break and key-set lemmas.
- `Matching`: the per-alternative match loop of `find_matches` and the loop over
  the alternatives, each proved against a match-map function.
- `Augmentation`: the `Define` and `Filter` lambdas of `write_to_file`,
  `chi_sqs_equal`, and the output and column names.
- `Hypotheses`: the classes `hypothesis_tree_base` (its two subclasses become the
  `kind` field) and `compare_hypotheses`. Their methods are proved against the
  functions above.
- `Legacy`: the older revision, `hypothesisTree` and `compareHypotheses`,
  with the 32-bit cut of `containsEventID`.
- `Scenarios`: worked examples. They take one primary tree with two candidates
  for one event through reduction, matching and output.

Where the header and the .cpp of the newer revision disagree, the model follows
the .cpp. The header still declares a single `tree2` and maps where the .cpp uses
the vector `alt_hypos` and vectors of maps. So `set_logging` and
`set_match_by_beam` act on every tree the manager owns.

## Model

| member | source | states |
|---|---|---|
| Records.Truncate | compareHypotheses.cpp:22 | passing an `unsigned long long` event ID to an `unsigned int` parameter keeps IDs below 2^32 unchanged |
| Records.TruncateIsMod | compareHypotheses.h:44 | the narrowing conversion is reduction modulo 2^32 |
| Records.Increment | compare_hypotheses.h:117 | `matches++` on a `uint` adds one below 2^32 - 1 and wraps to 0 from 2^32 - 1 |
| Records.AdvanceAdd | compare_hypotheses.cpp:180 | counting x matches and then y matches equals counting x + y |
| Records.AdvanceWraps | compare_hypotheses.cpp:216 | after n increments the counter is (start + n) mod 2^32 |
| Records.IncrementMod | compare_hypotheses.cpp:216 | one increment of a counter that holds a mod 2^32 leaves it holding a + 1 mod 2^32 |
| Records.Combo.SetChiSq | compare_hypotheses.h:27 | sets the chi-square and leaves the other four fields as they were |
| Records.Combo.SetEvent | compare_hypotheses.h:28 | sets the event ID and leaves the other fields |
| Records.Combo.SetRun | compare_hypotheses.h:29 | sets the run ID and leaves the other fields |
| Records.Combo.SetBeam | compare_hypotheses.h:30 | sets the beam ID and leaves the other fields |
| Records.Combo.SetNdf | compare_hypotheses.h:31 | sets the ndf and leaves the other fields |
| Records.RowsOf | compare_hypotheses.h:67-71 | row i of a tree is the combo built from entry i of each of the five parallel column vectors |
| Records.Columns.Rows | compare_hypotheses.cpp:27-33 | the columns read from a file yield one row per event entry |
| Records.WriteFields | compare_hypotheses.cpp:38-44 | the five setter calls of `update_combo_data` overwrite every field, so the entry becomes the row whatever it held |
| Records.Quality | compare_hypotheses.cpp:179 | the quotient chi-square / ndf is finite exactly when ndf is not zero |
| Records.Lookup | compare_hypotheses.cpp:70 | `operator[]` reads the stored entry of a present key and the all-zero combo for a missing one |
| Reduction.ContainsEventId | compare_hypotheses.cpp:18-24 | with the beam flag off, only the event component is looked up, in the by-event map; with it on, the whole pair is looked up, in the per-beam map |
| Reduction.Absorb | compare_hypotheses.cpp:67-74 | one filter step adds the row's key and no other; it leaves the other entries alone; it stores the row when the key was reported absent; otherwise it keeps the read entry unless that entry's chi-square is strictly greater |
| Reduction.BestComboPassStep | compare_hypotheses.cpp:64-75 | one more row of the by-event pass is one more filter step, with the placeholder beam 1851 in the lookup key |
| Reduction.BestPerBeamPassStep | compare_hypotheses.cpp:79-89 | one more row of the per-beam pass is one more filter step with the (event, beam) key |
| Reduction.BestKeys | compare_hypotheses.cpp:63-76 | the reduction holds exactly the keys of the rows, one entry per distinct key |
| Reduction.BestWinner | compare_hypotheses.cpp:61-62 | each key's entry is that key's first row of minimal chi-square, all five fields from that one row |
| Reduction.BestIsMinimal | compare_hypotheses.cpp:70-73 | every row's key is present, and no row of a key has a chi-square below the stored entry's |
| Reduction.TieKeepsEarlier | compare_hypotheses.cpp:70-71 | the strict comparison means that, of two rows with the same key and chi-square, the later one is stored only if an earlier row equals it field for field |
| Reduction.BestEntryKey | compare_hypotheses.cpp:63-90 | the entry stored under a key is a row of that key |
| Reduction.DistinctKeptWhole | compare_hypotheses.cpp:63-90 | over rows with pairwise distinct keys, every row is stored under its own key |
| Reduction.BestIdempotent | compare_hypotheses.cpp:63-90 | reducing the reduced table again, its entries listed once each in any order, gives the same table |
| Reduction.BestComboPass | compare_hypotheses.cpp:63-76 | the by-event pass as written, whatever the lookup answers, keeps every key it started with and leaves alone the entries of keys no row has |
| Reduction.BestPerBeamPass | compare_hypotheses.cpp:78-90 | the same for the per-beam pass and its (event, beam) keys |
| Reduction.BestComboPassIsBest | compare_hypotheses.cpp:63-76 | with the beam flag off, the by-event pass as written is the intended reduction keyed by event |
| Reduction.BestPerBeamPassIsBest | compare_hypotheses.cpp:78-90 | with the beam flag on, the per-beam pass as written is the intended reduction keyed by (event, beam) |
| Reduction.BestComboPassKeys | compare_hypotheses.cpp:63-76 | whatever the lookup answers, the by-event pass adds exactly the rows' event IDs |
| Reduction.BestPerBeamPassKeys | compare_hypotheses.cpp:78-90 | whatever the lookup answers, the per-beam pass adds exactly the rows' (event, beam) keys |
| Reduction.BeamFlagOnByEventKeepsLast | compare_hypotheses.h:50 | a by-event tree whose beam flag is switched on consults the unwritten per-beam map and keeps the last row of each event, not the best |
| Matching.MatchAgainst | compare_hypotheses.cpp:200-226 | for one alternative: a key is matched exactly when it is in both maps with equal run IDs; its value is the alternative's chi-square / ndf; the counter advances once per match |
| Matching.MatchAll | compare_hypotheses.cpp:158-192 | over the alternatives in order: the match maps are one per alternative, and the counter advances by their total size |
| Matching.MatchAllStep | compare_hypotheses.cpp:191 | pushing one more alternative's map extends the sequence of maps and the total count |
| Matching.MatchAgainstIsMatchMap | compare_hypotheses.cpp:206-215 | a map with the matched keys and qualities is the match map |
| Matching.MatchIgnoresBeam | compare_hypotheses.cpp:209-212 | changing the alternative entry's beam ID does not change whether it matches, because only run IDs are compared |
| Matching.MatchMapsIndependent | compare_hypotheses.cpp:200-228 | each alternative's match map depends on that alternative alone |
| Matching.MatchMapsSnoc | compare_hypotheses.cpp:227 | appending an alternative appends its map and adds its size to the total |
| Augmentation.ChiSqsEqual | compare_hypotheses.cpp:134-141 | two chi-squares are equal when they differ by strictly less than 1e-5 |
| Augmentation.ChiSqsEqualSymmetric | compare_hypotheses.cpp:136 | the tolerance test is symmetric and reflexive |
| Augmentation.MatchColumn | compare_hypotheses.cpp:269-278 | the column value is the matched quality of the row's key or, for an unmatched key, the indicator 185100000 |
| Augmentation.MatchColumnIsIndicator | compare_hypotheses.cpp:243 | the column holds the indicator exactly when the key is unmatched or its matched quality equals the indicator |
| Augmentation.AugmentRow | compare_hypotheses.cpp:250-280 | an output row carries the primary row and one column per alternative, column i from match map i |
| Augmentation.SameKeySameColumns | compare_hypotheses.cpp:256-266 | rows with the same (event, beam) key get identical added columns |
| Augmentation.KeepRow | compare_hypotheses.cpp:299-306 | the filter passes every row when combos are preserved; otherwise the row passes when its chi-square equals the reduced entry's; a key missing from the primary map makes `.at()` throw |
| Augmentation.RetainedMembers | compare_hypotheses.cpp:284-307 | a row is in the output exactly when it is the augmented form of a primary row that passes the filter |
| Augmentation.RetainedAll | compare_hypotheses.cpp:284-307 | the same characterisation for all output rows at once |
| Augmentation.Retained | compare_hypotheses.cpp:284-307 | the filtered output has no more rows than the primary tree, and each row one column per alternative |
| Augmentation.PassingFrom | compare_hypotheses.cpp:284-307 | the indices of passing rows from a given row on are in range |
| Augmentation.InOrderKeep | compare_hypotheses.cpp:289-304 | a passing row goes in front of the ordered output of the rows after it |
| Augmentation.RetainedFrom | compare_hypotheses.cpp:284-307 | from any row on, the output is the in-order subsequence of the passing rows: same count, increasing source indices, each passing row once and no failing row |
| Augmentation.RetainedInOrder | compare_hypotheses.cpp:284-307 | the whole output is the in-order subsequence of the passing primary rows |
| Augmentation.Augment | compare_hypotheses.cpp:284-310 | writing never fails with preserve on, and fails exactly when some row's filter lookup would throw |
| Augmentation.PreserveKeepsAll | compare_hypotheses.cpp:289 | with preserve on, the output has every primary row, in order |
| Augmentation.BestRowSurvives | compare_hypotheses.cpp:302-304 | after the reduction no filter lookup throws, and every key keeps at least one output row, namely its reduced best row |
| Augmentation.NatToString | compare_hypotheses.cpp:240 | the decimal text is non-empty, all digits, with no leading zero |
| Augmentation.ParseNatToString | compare_hypotheses.cpp:240 | the decimal text reads back as the number |
| Augmentation.OutputFileName | compare_hypotheses.cpp:239-241 | "placeholder" and "" become a name ending "_hypothesesMatched.root"; any other name is kept |
| Augmentation.DefaultNameRecoversCount | compare_hypotheses.cpp:240 | the default name is the number of alternatives in decimal followed by the suffix |
| Augmentation.BranchName | compare_hypotheses.cpp:252 | the added column's name is the alternative tree's name followed by "_chisq_ndf" |
| Hypotheses.HypothesisTree.constructor | compare_hypotheses.cpp:8-14 | a new tree has its name, the given beam flag, logging off, no rows and empty maps |
| Hypotheses.HypothesisTree.SetMatchByBeam | compare_hypotheses.h:49-50 | the flag reads back as set |
| Hypotheses.HypothesisTree.SetLogging | compare_hypotheses.h:52-53 | the flag reads back as set |
| Hypotheses.HypothesisTree.FillColumnVecs | compare_hypotheses.cpp:27-33 | the tree's rows become the rows of the columns read |
| Hypotheses.HypothesisTree.ContainsEventId | compare_hypotheses.cpp:18-24 | the tree's lookup answers as `Reduction.ContainsEventId` does on its flag and its two maps |
| Hypotheses.HypothesisTree.UpdateComboData | compare_hypotheses.cpp:36-59 | the entry of row index's key in the subclass's map becomes that row; the other map is unchanged |
| Hypotheses.HypothesisTree.FilterRowByEvent | compare_hypotheses.cpp:65-74 | one loop iteration of the by-event filter is one `Absorb` with the lookup's answer |
| Hypotheses.HypothesisTree.FilterRowByEventAndBeam | compare_hypotheses.cpp:80-88 | one loop iteration of the per-beam filter is one `Absorb` with the lookup's answer |
| Hypotheses.HypothesisTree.FilterHighChiSqEvents | compare_hypotheses.cpp:63-90 | the subclass's map becomes the pass as written over all rows; the other map is unchanged |
| Hypotheses.HypothesisTree.FilterByEvent | compare_hypotheses.cpp:63-76 | the by-event loop leaves the by-event map as the pass as written over all rows, and the per-beam map unchanged |
| Hypotheses.HypothesisTree.FilterByEventAndBeam | compare_hypotheses.cpp:78-90 | the per-beam loop leaves the per-beam map as the pass as written over all rows, and the by-event map unchanged |
| Hypotheses.HypothesisTree.Prepare | compare_hypotheses.cpp:123-124 | the tree holds the columns read and the maps its filter yields from them |
| Hypotheses.CompareHypotheses.constructor | compare_hypotheses.cpp:94-119 | the counter starts at 0; all trees are distinct, new, of the subclass the match type selects, one per alternative name, in order |
| Hypotheses.CompareHypotheses.SetLogging | compare_hypotheses.h:124-129 | the manager's flag and every tree's flag read back as set, and nothing else in the trees changes |
| Hypotheses.CompareHypotheses.SetPreserving | compare_hypotheses.h:131-132 | the preserve flag reads back as set |
| Hypotheses.CompareHypotheses.SetMatchByBeam | compare_hypotheses.h:134-139 | the manager's flag and every tree's flag read back as set; the trees keep their subclass and their data |
| Hypotheses.CompareHypotheses.PrepareData | compare_hypotheses.cpp:122-130 | the primary tree and every alternative tree hold their columns and their filtered maps |
| Hypotheses.CompareHypotheses.PrepareAlts | compare_hypotheses.cpp:126-129 | every alternative tree, in order, holds its columns and its filtered maps |
| Hypotheses.CompareHypotheses.FindMatches | compare_hypotheses.cpp:146-232 | if the log file fails to open while logging is on, nothing changes; otherwise one match map per alternative, in order, is appended to the vector the beam flag selects, and the counter advances by the total number of matches modulo 2^32 |
| Hypotheses.CompareHypotheses.MatchAllByBeam | compare_hypotheses.cpp:158-197 | the per-beam branch appends the per-beam match maps of all alternatives and counts them |
| Hypotheses.CompareHypotheses.MatchAllByEvent | compare_hypotheses.cpp:200-228 | the by-event branch appends the by-event match maps of all alternatives and counts them |
| Hypotheses.CompareHypotheses.WrittenRows | compare_hypotheses.cpp:250-307 | the snapshot's rows are exactly the primary rows passing the filter, with their columns; with preserve on they are all rows, in order |
| Hypotheses.CompareHypotheses.WrittenFails | compare_hypotheses.cpp:284-307 | the graph throws exactly when preserve is off and some primary row's key is missing from the primary map |
| Hypotheses.CompareHypotheses.WrittenOrderByEventAndBeam | compare_hypotheses.cpp:284-294 | per (event, beam): the rows written are the passing primary rows, in the primary tree's order, each once |
| Hypotheses.CompareHypotheses.WrittenOrderByEvent | compare_hypotheses.cpp:295-307 | per event: the rows written are the passing primary rows, in the primary tree's order, each once |
| Hypotheses.CompareHypotheses.WrittenOrder | compare_hypotheses.cpp:284-307 | under either scheme, the rows written are the passing primary rows in order |
| Hypotheses.CompareHypotheses.WrittenIndices | compare_hypotheses.cpp:284-307 | the indices of the rows the filter passes are row indices of the primary tree |
| Hypotheses.CompareHypotheses.WriteToFile | compare_hypotheses.cpp:238-311 | file name; one column name per alternative; the rows written are the passing primary rows with their columns, in the primary tree's order, each passing row once and no other; with preserve on, every row; writing fails exactly when preserve is off and some primary row's key is missing from the primary map |
| Hypotheses.FilteredTreeHasEveryKey | compare_hypotheses.cpp:291-304 | once a primary tree is filtered from empty maps, the subclass's own map has every row's key, whatever flag the pass ran with, so no `.at()` in the output filter throws |
| Hypotheses.SchemeOf | compare_hypotheses.cpp:100-118 | the match type selects the per-beam subclass when true and the by-event subclass when false |
| Hypotheses.HypothesisTree.IsMatchingByBeam | compare_hypotheses.h:49 | reads the tree's beam flag |
| Hypotheses.HypothesisTree.IsLogging | compare_hypotheses.h:52 | reads the tree's logging flag |
| Hypotheses.CompareHypotheses.IsLogging | compare_hypotheses.h:124 | reads the manager's logging flag |
| Hypotheses.CompareHypotheses.IsPreserving | compare_hypotheses.h:131 | reads the manager's preserve flag |
| Hypotheses.CompareHypotheses.IsMatchingByBeam | compare_hypotheses.h:134 | reads the manager's beam flag |
| Legacy.LegacyPassStep | compareHypotheses.cpp:46-54 | one more row of the older pass is one more filter step whose presence test uses the 32-bit cut of the event ID |
| Legacy.LegacyPass | compareHypotheses.cpp:45-55 | the older pass as written keeps every key it started with and leaves alone the entries of keys no row has |
| Legacy.LegacyPassKeys | compareHypotheses.cpp:45-55 | whatever the lookup answers, the older pass adds exactly the rows' event IDs |
| Legacy.LegacyPassIsBest | compareHypotheses.cpp:45-55 | while every event ID fits in 32 bits, the older pass is the intended reduction by event |
| Legacy.LegacyPassKeepsWorse | compareHypotheses.cpp:47 | for event 2^32 the later, worse row replaces the better one |
| Legacy.LegacyMatchMap | compareHypotheses.cpp:71-78 | the older matches are keys of tree1; a match whose key is in tree2 carries that entry's quotient, and one whose key is not carries the non-finite quotient of the default entry |
| Legacy.Visit | compareHypotheses.cpp:71-78 | one iteration adds at most key k to tree2's map and to the recorded matches, changes no other entry, and advances the counter by at most one, and by one whenever it changes the matches |
| Legacy.RunSnoc | compareHypotheses.cpp:71-83 | one more key of tree1 is one more visit |
| Legacy.VisitStep | compareHypotheses.cpp:72-78 | visiting one key of tree1 grows tree2's looked-up map and the matches by that key alone |
| Legacy.LookupStep | compareHypotheses.cpp:72-77 | visiting one key grows tree2's looked-up map by that key alone, when its cut-down ID is present |
| Legacy.MatchStep | compareHypotheses.cpp:73-78 | visiting one key grows the matches by that key alone, when it matches |
| Legacy.VisitPreserves | compareHypotheses.cpp:71-83 | one loop iteration takes the state after the visited keys to the state after one more key |
| Legacy.RunIsExpected | compareHypotheses.cpp:71-83 | visiting distinct keys in any order gives the state determined by the set of keys |
| Legacy.ExpectedAtStart | compareHypotheses.cpp:71 | before the loop, the state is the initial one |
| Legacy.LookedUpAll | compareHypotheses.cpp:71-83 | after all keys, the matches are the older match map and tree2's map is the map after the lookups |
| Legacy.CorrectedMatchMap | compareHypotheses.cpp:72-77 | the intended older match: key in both maps with equal run and beam IDs, which is the newer match further restricted to equal beams |
| Legacy.LegacyMatchIsCorrected | compareHypotheses.cpp:72-77 | while every key of tree1 fits in 32 bits, the older match is the intended one and tree2's map is untouched |
| Legacy.LegacyMissesWideMatch | compareHypotheses.cpp:72 | an identical event 2^32 in both trees is not matched |
| Legacy.LegacyMatchesPhantom | compareHypotheses.cpp:72-77 | event 2^32 in tree1 and event 0 in tree2: the default-inserted entry is matched with a non-finite quality and stays in tree2 |
| Legacy.LegacyTree.constructor | compareHypotheses.cpp:19 | a new tree has its name, no rows and an empty map |
| Legacy.LegacyTree.ContainsEventID | compareHypotheses.cpp:22-24 | the 32-bit ID, widened back, is a key of the map |
| Legacy.LegacyTree.FillColumnVecs | compareHypotheses.cpp:27-33 | the tree's rows become the rows of the columns read |
| Legacy.LegacyTree.UpdateComboData | compareHypotheses.cpp:36-42 | the entry of row index's event becomes that row |
| Legacy.LegacyTree.FilterRow | compareHypotheses.cpp:47-53 | one loop iteration is one `Absorb` whose presence test uses the cut-down ID |
| Legacy.LegacyTree.FilterHighChiSqEvents | compareHypotheses.cpp:45-55 | the map becomes the older pass over all rows |
| Legacy.LegacyOutputName | compareHypotheses.cpp:98-100 | only "placeholder" is replaced, by tree2's name followed by "_hypothesesMatched.root" |
| Legacy.EmptyNameKeptOnlyByLegacy | compareHypotheses.cpp:98 | the older revision keeps an empty output name, and the newer one replaces it |
| Legacy.LegacyCompare.constructor | compareHypotheses.cpp:57-58 | two distinct new trees and a zero counter |
| Legacy.LegacyCompare.PrepareData | compareHypotheses.cpp:88-93 | both trees hold their columns and their older-pass maps |
| Legacy.LegacyCompare.FindMatches | compareHypotheses.cpp:62-85 | if the log file fails to open, nothing changes; otherwise the older match map is added to the recorded matches, the counter advances by its size, and tree2 gains the default-inserted entries |
| Legacy.LegacyCompare.MatchAllKeys | compareHypotheses.cpp:71-83 | the loop over tree1's keys records the older match map, counts it and leaves tree2 as after the lookups |
| Legacy.LegacyCompare.VisitKey | compareHypotheses.cpp:72-78 | one key's visit is the `Visit` step on tree2's map, the matches and the counter |
| Legacy.LegacyCompare.WriteToFile | compareHypotheses.cpp:96-118 | every row of tree1, in order, with one column holding its event's recorded match or the indicator; the name as above |
| Scenarios.PrimaryReduced | compare_hypotheses.cpp:63-76 | the primary rows chi-square 5 then 3 for event 1 reduce to the chi-square 3 row |
| Scenarios.SingleReduced | compare_hypotheses.cpp:67-68 | a one-row tree stores its row |
| Scenarios.OutputRows | compare_hypotheses.cpp:284-307 | against the reduced map, the worse row is written only when combos are preserved, and the better row always is |
| Scenarios.OneColumn | compare_hypotheses.cpp:268-278 | with one alternative, a row carries the single column its event selects |
| Scenarios.ScenarioA | compare_hypotheses.cpp:200-228 | a matching alternative with chi-square 4 over ndf 2 gives one output row with quality 2 |
| Scenarios.ScenarioB | compare_hypotheses.cpp:210-212 | a run ID mismatch gives no match, a zero count and the indicator in the column |
| Scenarios.ScenarioC | compare_hypotheses.cpp:289 | preserving combos writes both primary rows, each with quality 2 |
| Scenarios.ScenarioD | compare_hypotheses.cpp:206 | an alternative without the event gives no match and the indicator |

## Left out

- Reading the ROOT files (`RDataFrame`, `Take`) and the `Snapshot` write are I/O.
  `FillColumnVecs` takes the columns as a parameter, and `WriteToFile` returns
  the snapshot's content as a value.
- The text written to "log_matches.txt", `std::cout` and `std::cerr` is left out.
  Whether the log file opens is the parameter `logOpens`.
- `float` arithmetic is modelled as real arithmetic: chi-squares, the quotient, the 1e-5 tolerance and the indicator. Rounding, NaN and infinities are left out. A zero ndf gives `NonFinite`, which stands for both an infinity and a NaN.
- Records.Quality: does not distinguish the infinity from the NaN that a zero ndf yields.
- Pointer ownership, `new`/`delete`, the destructor and virtual dispatch are left out.
  The two subclasses are the `kind` field of one class.
- `std::map` iterates in key order. The model's loops visit keys in any order. Only the log text depends on the order.
- `combo` is a value type in `std::map`, so it is modelled as a datatype. Its setters are functions that return the updated value.
- Hypotheses.CompareHypotheses.WriteToFile: `RDataFrame::Define` throws when the column name already exists, for instance when two alternatives share a tree name, as at compare_hypotheses.cpp:252-256. The snapshot does not model that failure, and its column names may repeat.
- Hypotheses.CompareHypotheses.WriteToFile: indexing past the end of the vector of match maps is undefined behaviour, so it is a precondition. So is the manager's `Valid()` (distinct trees).
- Legacy `compareHypotheses::setVerbose`: it returns no value from a `bool` function, and `verbose` is never initialised. The flag is read nowhere else, so it is not modelled.
- `main.cpp` and `run.py` (the command line and batch driver) are not part of this model.
- The header `compare_hypotheses.h` declares `tree2` and two maps where the .cpp uses a vector of trees and vectors of maps. The model follows the .cpp.

## Findings

| source | as written | input that shows it | evidently intended | confidence | as-written member | corrected member |
|---|---|---|---|---|---|---|
| compareHypotheses.cpp:47 | `containsEventID` takes an `unsigned int`, so the filter's presence test looks up the event ID modulo 2^32, while the entry read and written is keyed by the full 64-bit ID | two rows for event 2^32 with chi-square 1 then 5: the lookup asks for event 0, fails both times, and the worse row (5) is kept | keep the lowest chi-square per 64-bit event ID, as the newer revision's `contains_event_id` does with its full-width key | not executed | Legacy.LegacyPassKeepsWorse | Reduction.BestComboPassIsBest |
| compareHypotheses.cpp:72-77 | the match looks up tree1's key in tree2 cut to 32 bits, then reads `tree2.events[key]` with the full key, inserting a zero combo when it is missing | event 2^32 in both trees with equal run and beam IDs is not matched; event 2^32 (run 0, beam 0) in tree1 with only event 0 in tree2 is matched against an inserted zero combo, and a non-finite quality is recorded | match a key present in both maps with equal run and beam IDs, with no insertion into tree2 | not executed | Legacy.LegacyMissesWideMatch | Legacy.LegacyMatchIsCorrected |

The newer revision uses the corrected reduction. Its tree classes are proved
against `BestComboPass` and `BestPerBeamPass`, which `BestComboPassIsBest` and
`BestPerBeamPassIsBest` identify with the intended `Best`. `Legacy.LegacyMatchesPhantom`
is the second counterexample of the match row. `Legacy.LegacyPassIsBest` and
`Legacy.CorrectedMatchMap` state the intended behaviour of the older revision.
