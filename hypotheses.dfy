/** The newer revision: hypothesis trees that reduce their rows to one best
    combo per key, and the manager that matches the primary tree against every
    alternative tree and writes the augmented primary rows. */
module Hypotheses {
  import opened Records
  import opened Reduction
  import opened Matching
  import opened Augmentation

  function SchemeOf(matchType: bool): (s: Scheme)
    ensures s == ByEventAndBeam <==> matchType
    ensures s == ByEvent <==> !matchType
  {
    if matchType then ByEventAndBeam else ByEvent
  }

  /** Everything a tree holds apart from its two flags. */
  datatype TreeData = TreeData(events: seq<uint64>, runs: seq<uint32>, beams: seq<uint32>,
                               chiSqs: seq<real>, ndfs: seq<uint32>,
                               eventBeamAsKeyMap: map<BeamKey, Combo>, eventAsKeyMap: map<uint64, Combo>)

  /** `hypothesis_tree_base` with its two subclasses folded into `kind`. */
  class HypothesisTree {
    const kind: Scheme
    const treeName: string
    var matchByBestPerBeam: bool
    var logging: bool

    var eventColumnData: seq<uint64>
    var runColumnData: seq<uint32>
    var beamColumnData: seq<uint32>
    var chiSqColumnData: seq<real>
    var ndfColumnData: seq<uint32>

    var eventBeamAsKeyMap: map<BeamKey, Combo>
    var eventAsKeyMap: map<uint64, Combo>

    /** The five column vectors hold one entry per row. */
    predicate Valid()
      reads this
    {
      && |runColumnData| == |eventColumnData|
      && |beamColumnData| == |eventColumnData|
      && |chiSqColumnData| == |eventColumnData|
      && |ndfColumnData| == |eventColumnData|
    }

    function Rows(): seq<Combo>
      reads this
      requires Valid()
    {
      RowsOf(eventColumnData, runColumnData, beamColumnData, chiSqColumnData, ndfColumnData)
    }

    function Data(): TreeData
      reads this
    {
      TreeData(eventColumnData, runColumnData, beamColumnData, chiSqColumnData, ndfColumnData,
               eventBeamAsKeyMap, eventAsKeyMap)
    }

    constructor (treeName: string, kind: Scheme, matchType: bool)
      ensures this.treeName == treeName && this.kind == kind
      ensures matchByBestPerBeam == matchType && !logging
      ensures Valid() && Rows() == []
      ensures eventBeamAsKeyMap == map[] && eventAsKeyMap == map[]
    {
      this.treeName := treeName;
      this.kind := kind;
      matchByBestPerBeam := matchType;
      logging := false;
      eventColumnData, runColumnData, beamColumnData, chiSqColumnData, ndfColumnData := [], [], [], [], [];
      eventBeamAsKeyMap, eventAsKeyMap := map[], map[];
    }

    function IsMatchingByBeam(): (b: bool)
      reads this
      ensures b <==> matchByBestPerBeam
    {
      matchByBestPerBeam
    }

    method SetMatchByBeam(m: bool)
      modifies this`matchByBestPerBeam
      ensures IsMatchingByBeam() == m
    {
      matchByBestPerBeam := m;
    }

    function IsLogging(): (b: bool)
      reads this
      ensures b <==> logging
    {
      logging
    }

    method SetLogging(l: bool)
      modifies this`logging
      ensures IsLogging() == l
    {
      logging := l;
    }

    /** Installs the columns `fill_column_vecs` reads from the tree's file. */
    method FillColumnVecs(c: Columns)
      requires c.WellFormed()
      modifies this`eventColumnData, this`runColumnData, this`beamColumnData, this`chiSqColumnData, this`ndfColumnData
      ensures Valid() && Rows() == c.Rows()
    {
      eventColumnData, runColumnData, beamColumnData, chiSqColumnData, ndfColumnData := c.events, c.runs, c.beams, c.chiSqs, c.ndfs;
    }

    /** `contains_event_id`, reading the tree's beam flag. */
    function ContainsEventId(pairKey: BeamKey): (b: bool)
      reads this
      ensures b == Reduction.ContainsEventId(matchByBestPerBeam, eventAsKeyMap, eventBeamAsKeyMap, pairKey)
    {
      if !matchByBestPerBeam then pairKey.0 in eventAsKeyMap else pairKey in eventBeamAsKeyMap
    }

    /** `update_combo_data(index)`: the entry for row `index`'s key (event in the
        by-event subclass, (event, beam) in the per-beam one) becomes that row. */
    method UpdateComboData(index: nat)
      requires Valid() && index < |eventColumnData|
      modifies this`eventAsKeyMap, this`eventBeamAsKeyMap
      ensures kind == ByEvent ==>
                eventAsKeyMap == old(eventAsKeyMap)[Rows()[index].event := Rows()[index]]
                && eventBeamAsKeyMap == old(eventBeamAsKeyMap)
      ensures kind == ByEventAndBeam ==>
                eventBeamAsKeyMap == old(eventBeamAsKeyMap)[(Rows()[index].event, Rows()[index].beam) := Rows()[index]]
                && eventAsKeyMap == old(eventAsKeyMap)
    {
      var row := Combo(eventColumnData[index], runColumnData[index], beamColumnData[index],
                       chiSqColumnData[index], ndfColumnData[index]);
      if kind == ByEvent {
        var e := eventColumnData[index];
        eventAsKeyMap := eventAsKeyMap[e := WriteFields(Lookup(eventAsKeyMap, e), row)];
      } else {
        var pairKey := (eventColumnData[index], beamColumnData[index]);
        eventBeamAsKeyMap := eventBeamAsKeyMap[pairKey := WriteFields(Lookup(eventBeamAsKeyMap, pairKey), row)];
      }
    }

    /** The row's key under the manager's beam flag has no entry in the
        corresponding map. */
    predicate LacksEntry(matchByBeam: bool, r: Combo)
      reads this
    {
      if matchByBeam then (r.event, r.beam) !in eventBeamAsKeyMap else r.event !in eventAsKeyMap
    }

    /** The maps are what this tree's pass yields from the maps `m0` and `b0`
        over its rows. */
    predicate FilteredFrom(m0: map<uint64, Combo>, b0: map<BeamKey, Combo>)
      reads this
      requires Valid()
    {
      if kind == ByEvent
      then eventAsKeyMap == BestComboPass(matchByBestPerBeam, m0, b0, Rows()) && eventBeamAsKeyMap == b0
      else eventBeamAsKeyMap == BestPerBeamPass(matchByBestPerBeam, m0, b0, Rows()) && eventAsKeyMap == m0
    }

    /** The tree holds the rows of `c` and the maps its pass yields from `m0` and `b0`. */
    predicate Prepared(c: Columns, m0: map<uint64, Combo>, b0: map<BeamKey, Combo>)
      reads this
    {
      c.WellFormed() && Valid() && Rows() == c.Rows() && FilteredFrom(m0, b0)
    }

    /** The part of `prepare_data` that concerns one tree: its columns, then its filter. */
    method Prepare(c: Columns)
      requires c.WellFormed()
      modifies this`eventColumnData, this`runColumnData, this`beamColumnData, this`chiSqColumnData, this`ndfColumnData
      modifies this`eventAsKeyMap, this`eventBeamAsKeyMap
      ensures Prepared(c, old(eventAsKeyMap), old(eventBeamAsKeyMap))
    {
      FillColumnVecs(c);
      FilterHighChiSqEvents();
    }

    /** One iteration of the by-event filter for row `i`. */
    method FilterRowByEvent(i: nat)
      requires Valid() && kind == ByEvent && i < |eventColumnData|
      modifies this`eventAsKeyMap, this`eventBeamAsKeyMap
      ensures eventAsKeyMap == Absorb(old(eventAsKeyMap), Rows()[i].event, Rows()[i],
                                      old(ContainsEventId((Rows()[i].event, PLACEHOLDER_BEAM_ID))))
      ensures eventBeamAsKeyMap == old(eventBeamAsKeyMap)
    {
      var pairKey := (eventColumnData[i], PLACEHOLDER_BEAM_ID);
      if !ContainsEventId(pairKey) {
        UpdateComboData(i);
      } else {
        // operator[] default-constructs a missing entry before it is read
        var e := eventColumnData[i];
        var held := Lookup(eventAsKeyMap, e);
        eventAsKeyMap := eventAsKeyMap[e := held];
        if held.chiSq > chiSqColumnData[i] {
          UpdateComboData(i);
        }
      }
    }

    /** One iteration of the per-beam filter for row `i`. */
    method FilterRowByEventAndBeam(i: nat)
      requires Valid() && kind == ByEventAndBeam && i < |eventColumnData|
      modifies this`eventAsKeyMap, this`eventBeamAsKeyMap
      ensures eventBeamAsKeyMap == Absorb(old(eventBeamAsKeyMap), (Rows()[i].event, Rows()[i].beam), Rows()[i],
                                          old(ContainsEventId((Rows()[i].event, Rows()[i].beam))))
      ensures eventAsKeyMap == old(eventAsKeyMap)
    {
      var pairKey := (eventColumnData[i], beamColumnData[i]);
      if !ContainsEventId(pairKey) {
        UpdateComboData(i);
      } else {
        var held := Lookup(eventBeamAsKeyMap, pairKey);
        eventBeamAsKeyMap := eventBeamAsKeyMap[pairKey := held];
        if held.chiSq > chiSqColumnData[i] {
          UpdateComboData(i);
        }
      }
    }

    /** `filter_high_chi_sq_events`: one pass over the rows in order; a row is
        stored when `contains_event_id` reports its key absent, and otherwise
        replaces the stored entry only if that entry's chi-square is strictly
        greater. */
    method FilterHighChiSqEvents()
      requires Valid()
      modifies this`eventAsKeyMap, this`eventBeamAsKeyMap
      ensures kind == ByEvent ==>
                eventAsKeyMap == BestComboPass(matchByBestPerBeam, old(eventAsKeyMap), eventBeamAsKeyMap, Rows())
                && eventBeamAsKeyMap == old(eventBeamAsKeyMap)
      ensures kind == ByEventAndBeam ==>
                eventBeamAsKeyMap == BestPerBeamPass(matchByBestPerBeam, eventAsKeyMap, old(eventBeamAsKeyMap), Rows())
                && eventAsKeyMap == old(eventAsKeyMap)
    {
      if kind == ByEvent {
        FilterByEvent();
      } else {
        FilterByEventAndBeam();
      }
    }

    /** The loop of the by-event subclass's filter. */
    method FilterByEvent()
      requires Valid() && kind == ByEvent
      modifies this`eventAsKeyMap, this`eventBeamAsKeyMap
      ensures eventAsKeyMap == BestComboPass(matchByBestPerBeam, old(eventAsKeyMap), eventBeamAsKeyMap, Rows())
      ensures eventBeamAsKeyMap == old(eventBeamAsKeyMap)
    {
      var i := 0;
      while i < |eventColumnData|
        invariant 0 <= i <= |eventColumnData|
        invariant eventBeamAsKeyMap == old(eventBeamAsKeyMap)
        invariant eventAsKeyMap == BestComboPass(matchByBestPerBeam, old(eventAsKeyMap), eventBeamAsKeyMap, Rows()[..i])
      {
        BestComboPassStep(matchByBestPerBeam, old(eventAsKeyMap), eventBeamAsKeyMap, Rows(), i);
        FilterRowByEvent(i);
        i := i + 1;
      }
      assert Rows()[..i] == Rows();
    }

    /** The loop of the per-beam subclass's filter. */
    method FilterByEventAndBeam()
      requires Valid() && kind == ByEventAndBeam
      modifies this`eventAsKeyMap, this`eventBeamAsKeyMap
      ensures eventBeamAsKeyMap == BestPerBeamPass(matchByBestPerBeam, eventAsKeyMap, old(eventBeamAsKeyMap), Rows())
      ensures eventAsKeyMap == old(eventAsKeyMap)
    {
      var i := 0;
      while i < |eventColumnData|
        invariant 0 <= i <= |eventColumnData|
        invariant eventAsKeyMap == old(eventAsKeyMap)
        invariant eventBeamAsKeyMap == BestPerBeamPass(matchByBestPerBeam, eventAsKeyMap, old(eventBeamAsKeyMap), Rows()[..i])
      {
        BestPerBeamPassStep(matchByBestPerBeam, eventAsKeyMap, old(eventBeamAsKeyMap), Rows(), i);
        FilterRowByEventAndBeam(i);
        i := i + 1;
      }
      assert Rows()[..i] == Rows();
    }
  }

  /** A tree as the manager's constructor leaves it. */
  ghost predicate FreshTree(t: HypothesisTree, name: string, matchType: bool)
    reads t
  {
    && t.treeName == name && t.kind == SchemeOf(matchType)
    && t.matchByBestPerBeam == matchType && !t.logging
    && t.Valid() && t.Rows() == []
    && t.eventBeamAsKeyMap == map[] && t.eventAsKeyMap == map[]
  }

  /** What the output file holds: its name, the added column names and the rows
      (`None` when a filter lookup throws). */
  datatype Snapshot = Snapshot(fileName: string, branchNames: seq<string>, rows: Option<seq<AugmentedRow>>)

  /** `compare_hypotheses`: one primary tree, the alternative trees, the flags,
      the match counter and the vectors of match maps. */
  class CompareHypotheses {
    const tree1: HypothesisTree
    const altHypos: seq<HypothesisTree>
    const numHypos: nat
    var logging: bool
    var matchByBestPerBeam: bool
    var preserveCombos: bool
    var matches: uint32
    var matchedChiSqsByBeam: seq<map<BeamKey, Quotient>>
    var matchedChiSqs: seq<map<uint64, Quotient>>

    /** The trees are distinct objects, one per alternative. */
    ghost predicate Valid()
    {
      && |altHypos| == numHypos
      && tree1 !in altHypos
      && forall i, j :: 0 <= i < j < |altHypos| ==> altHypos[i] != altHypos[j]
    }

    constructor (primaryTree: string, altTrees: seq<string>, matchType: bool)
      ensures Valid() && numHypos == |altTrees|
      ensures fresh(tree1) && forall t :: t in altHypos ==> fresh(t)
      ensures FreshTree(tree1, primaryTree, matchType)
      ensures forall i :: 0 <= i < |altHypos| ==> FreshTree(altHypos[i], altTrees[i], matchType)
      ensures matches == 0 && matchByBestPerBeam == matchType
      ensures !logging && !preserveCombos
      ensures matchedChiSqsByBeam == [] && matchedChiSqs == []
    {
      var scheme := SchemeOf(matchType);
      var primary := new HypothesisTree(primaryTree, scheme, matchType);
      var alts: seq<HypothesisTree> := [];
      for j := 0 to |altTrees|
        invariant |alts| == j
        invariant primary !in alts
        invariant forall t :: t in alts ==> fresh(t)
        invariant forall i, k :: 0 <= i < k < j ==> alts[i] != alts[k]
        invariant FreshTree(primary, primaryTree, matchType)
        invariant forall i :: 0 <= i < j ==> FreshTree(alts[i], altTrees[i], matchType)
      {
        var t := new HypothesisTree(altTrees[j], scheme, matchType);
        alts := alts + [t];
      }
      tree1 := primary;
      altHypos := alts;
      numHypos := |altTrees|;
      matches := 0;
      matchByBestPerBeam := matchType;
      logging := false;
      preserveCombos := false;
      matchedChiSqsByBeam := [];
      matchedChiSqs := [];
    }

    function IsLogging(): (b: bool)
      reads this
      ensures b <==> logging
    {
      logging
    }

    /** `set_logging`: the flag of the manager and of every tree it owns. */
    method SetLogging(l: bool)
      requires Valid()
      modifies this`logging, tree1, altHypos
      ensures IsLogging() == l && tree1.IsLogging() == l
      ensures forall t :: t in altHypos ==> t.IsLogging() == l
      ensures tree1.matchByBestPerBeam == old(tree1.matchByBestPerBeam) && tree1.Data() == old(tree1.Data())
      ensures forall t :: t in altHypos ==> t.matchByBestPerBeam == old(t.matchByBestPerBeam) && t.Data() == old(t.Data())
    {
      logging := l;
      tree1.SetLogging(l);
      for j := 0 to |altHypos|
        invariant tree1.logging == l
        invariant forall i :: 0 <= i < j ==> altHypos[i].logging == l
        invariant tree1.matchByBestPerBeam == old(tree1.matchByBestPerBeam) && tree1.Data() == old(tree1.Data())
        invariant forall t :: t in altHypos ==> t.matchByBestPerBeam == old(t.matchByBestPerBeam) && t.Data() == old(t.Data())
        invariant logging == l
      {
        altHypos[j].SetLogging(l);
      }
    }

    function IsPreserving(): (b: bool)
      reads this
      ensures b <==> preserveCombos
    {
      preserveCombos
    }

    method SetPreserving(p: bool)
      modifies this`preserveCombos
      ensures IsPreserving() == p
    {
      preserveCombos := p;
    }

    function IsMatchingByBeam(): (b: bool)
      reads this
      ensures b <==> matchByBestPerBeam
    {
      matchByBestPerBeam
    }

    /** `set_match_by_beam`: the flag of the manager and of every tree it owns.
        The trees keep their subclass (`kind`). */
    method SetMatchByBeam(m: bool)
      requires Valid()
      modifies this`matchByBestPerBeam, tree1, altHypos
      ensures IsMatchingByBeam() == m && tree1.IsMatchingByBeam() == m
      ensures forall t :: t in altHypos ==> t.IsMatchingByBeam() == m
      ensures tree1.logging == old(tree1.logging) && tree1.Data() == old(tree1.Data())
      ensures forall t :: t in altHypos ==> t.logging == old(t.logging) && t.Data() == old(t.Data())
    {
      matchByBestPerBeam := m;
      tree1.SetMatchByBeam(m);
      for j := 0 to |altHypos|
        invariant tree1.matchByBestPerBeam == m
        invariant forall i :: 0 <= i < j ==> altHypos[i].matchByBestPerBeam == m
        invariant tree1.logging == old(tree1.logging) && tree1.Data() == old(tree1.Data())
        invariant forall t :: t in altHypos ==> t.logging == old(t.logging) && t.Data() == old(t.Data())
        invariant matchByBestPerBeam == m
      {
        altHypos[j].SetMatchByBeam(m);
      }
    }

    /** `prepare_data`: every tree, the primary one first, installs its columns
        and runs its filter. */
    method PrepareData(primary: Columns, alts: seq<Columns>)
      requires Valid() && primary.WellFormed()
      requires |alts| == |altHypos| && forall i :: 0 <= i < |alts| ==> alts[i].WellFormed()
      modifies tree1`eventColumnData, tree1`runColumnData, tree1`beamColumnData, tree1`chiSqColumnData,
               tree1`ndfColumnData, tree1`eventAsKeyMap, tree1`eventBeamAsKeyMap
      modifies altHypos`eventColumnData, altHypos`runColumnData, altHypos`beamColumnData, altHypos`chiSqColumnData,
               altHypos`ndfColumnData, altHypos`eventAsKeyMap, altHypos`eventBeamAsKeyMap
      ensures tree1.Prepared(primary, old(tree1.eventAsKeyMap), old(tree1.eventBeamAsKeyMap))
      ensures forall i :: 0 <= i < |altHypos| ==>
                altHypos[i].Prepared(alts[i], old(altHypos[i].eventAsKeyMap), old(altHypos[i].eventBeamAsKeyMap))
    {
      tree1.Prepare(primary);
      PrepareAlts(alts);
    }

    /** The loop of `prepare_data` over the alternative trees, in order. */
    method PrepareAlts(alts: seq<Columns>)
      requires Valid()
      requires |alts| == |altHypos| && forall i :: 0 <= i < |alts| ==> alts[i].WellFormed()
      modifies altHypos`eventColumnData, altHypos`runColumnData, altHypos`beamColumnData, altHypos`chiSqColumnData,
               altHypos`ndfColumnData, altHypos`eventAsKeyMap, altHypos`eventBeamAsKeyMap
      ensures forall i :: 0 <= i < |altHypos| ==>
                altHypos[i].Prepared(alts[i], old(altHypos[i].eventAsKeyMap), old(altHypos[i].eventBeamAsKeyMap))
    {
      ghost var em, bm := AltEventMaps(), AltBeamMaps();
      for j := 0 to |altHypos|
        invariant forall i :: 0 <= i < j ==> altHypos[i].Prepared(alts[i], em[i], bm[i])
        invariant forall i :: j <= i < |altHypos| ==>
                    altHypos[i].eventAsKeyMap == em[i] && altHypos[i].eventBeamAsKeyMap == bm[i]
      {
        altHypos[j].Prepare(alts[j]);
      }
    }

    /** The alternatives' per-beam maps, in order. */
    function AltBeamMaps(): (ms: seq<map<BeamKey, Combo>>)
      reads altHypos
      ensures |ms| == |altHypos| && forall i :: 0 <= i < |altHypos| ==> ms[i] == altHypos[i].eventBeamAsKeyMap
    {
      seq(|altHypos|, i reads altHypos requires 0 <= i < |altHypos| => altHypos[i].eventBeamAsKeyMap)
    }

    /** The alternatives' by-event maps, in order. */
    function AltEventMaps(): (ms: seq<map<uint64, Combo>>)
      reads altHypos
      ensures |ms| == |altHypos| && forall i :: 0 <= i < |altHypos| ==> ms[i] == altHypos[i].eventAsKeyMap
    {
      seq(|altHypos|, i reads altHypos requires 0 <= i < |altHypos| => altHypos[i].eventAsKeyMap)
    }

    /** `find_matches`. `logOpens` says whether "log_matches.txt" can be opened;
        when logging is on and it cannot, nothing changes. Otherwise one match map
        per alternative, in order, is appended to the vector the beam flag selects,
        and the 32-bit counter advances once per accepted key. */
    method FindMatches(logOpens: bool)
      requires Valid()
      modifies this`matches, this`matchedChiSqsByBeam, this`matchedChiSqs
      ensures logging && !logOpens ==>
                matches == old(matches) && matchedChiSqsByBeam == old(matchedChiSqsByBeam)
                && matchedChiSqs == old(matchedChiSqs)
      ensures !(logging && !logOpens) && matchByBestPerBeam ==>
                && matchedChiSqsByBeam == old(matchedChiSqsByBeam) + MatchMaps(tree1.eventBeamAsKeyMap, AltBeamMaps())
                && matchedChiSqs == old(matchedChiSqs)
                && matches == Advance(old(matches), TotalMatches(tree1.eventBeamAsKeyMap, AltBeamMaps()))
      ensures !(logging && !logOpens) && !matchByBestPerBeam ==>
                && matchedChiSqs == old(matchedChiSqs) + MatchMaps(tree1.eventAsKeyMap, AltEventMaps())
                && matchedChiSqsByBeam == old(matchedChiSqsByBeam)
                && matches == Advance(old(matches), TotalMatches(tree1.eventAsKeyMap, AltEventMaps()))
    {
      if logging && !logOpens {
        return;
      }
      if matchByBestPerBeam {
        MatchAllByBeam();
      } else {
        MatchAllByEvent();
      }
    }

    /** The per-beam branch of `find_matches`. */
    method MatchAllByBeam()
      modifies this`matches, this`matchedChiSqsByBeam
      ensures matchedChiSqsByBeam == old(matchedChiSqsByBeam) + MatchMaps(tree1.eventBeamAsKeyMap, AltBeamMaps())
      ensures matches == Advance(old(matches), TotalMatches(tree1.eventBeamAsKeyMap, AltBeamMaps()))
    {
      var maps, count := MatchAll(tree1.eventBeamAsKeyMap, AltBeamMaps(), matches);
      matchedChiSqsByBeam := matchedChiSqsByBeam + maps;
      matches := count;
    }

    /** The by-event branch of `find_matches`. */
    method MatchAllByEvent()
      modifies this`matches, this`matchedChiSqs
      ensures matchedChiSqs == old(matchedChiSqs) + MatchMaps(tree1.eventAsKeyMap, AltEventMaps())
      ensures matches == Advance(old(matches), TotalMatches(tree1.eventAsKeyMap, AltEventMaps()))
    {
      var maps, count := MatchAll(tree1.eventAsKeyMap, AltEventMaps(), matches);
      matchedChiSqs := matchedChiSqs + maps;
      matches := count;
    }

    /** The `Filter` lambda of `write_to_file` passes row `r`. */
    predicate RowWritten(r: Combo)
      reads this, tree1
    {
      if matchByBestPerBeam
      then KeepRow(preserveCombos, tree1.eventBeamAsKeyMap, EventBeamKey(r), r.chiSq) == Some(true)
      else KeepRow(preserveCombos, tree1.eventAsKeyMap, EventKey(r), r.chiSq) == Some(true)
    }

    /** Row `r` with the columns the `Define` lambdas give it. */
    function RowOut(r: Combo): AugmentedRow
      reads this, altHypos
      requires matchByBestPerBeam ==> |matchedChiSqsByBeam| >= |altHypos|
      requires !matchByBestPerBeam ==> |matchedChiSqs| >= |altHypos|
    {
      if matchByBestPerBeam
      then AugmentRow(r, EventBeamKey, matchedChiSqsByBeam[..|altHypos|])
      else AugmentRow(r, EventKey, matchedChiSqs[..|altHypos|])
    }

    /** The indices of the primary rows the `Filter` lambda passes, in increasing order. */
    function WrittenIndices(): (idx: seq<nat>)
      reads this, tree1
      requires tree1.Valid()
      ensures forall t :: 0 <= t < |idx| ==> idx[t] < |tree1.Rows()|
    {
      if matchByBestPerBeam
      then PassingFrom(tree1.Rows(), EventBeamKey, tree1.eventBeamAsKeyMap, preserveCombos, 0)
      else PassingFrom(tree1.Rows(), EventKey, tree1.eventAsKeyMap, preserveCombos, 0)
    }

    /** `out` holds the augmented primary rows at the increasing indices `idx`,
        which are exactly the rows the `Filter` lambda passes. */
    predicate WrittenInOrder(idx: seq<nat>, out: seq<AugmentedRow>)
      reads this, tree1, altHypos
      requires tree1.Valid()
      requires matchByBestPerBeam ==> |matchedChiSqsByBeam| >= |altHypos|
      requires !matchByBestPerBeam ==> |matchedChiSqs| >= |altHypos|
    {
      && |idx| == |out|
      && (forall t :: 0 <= t < |idx| ==> idx[t] < |tree1.Rows()| && out[t] == RowOut(tree1.Rows()[idx[t]]))
      && (forall s, t :: 0 <= s < t < |idx| ==> idx[s] < idx[t])
      && (forall j :: 0 <= j < |tree1.Rows()| ==> (j in idx <==> RowWritten(tree1.Rows()[j])))
    }

    /** What the retention and augmentation functions say about the rows of the snapshot. */
    lemma WrittenRows(rows: Option<seq<AugmentedRow>>)
      requires tree1.Valid()
      requires matchByBestPerBeam ==> |matchedChiSqsByBeam| >= |altHypos|
      requires !matchByBestPerBeam ==> |matchedChiSqs| >= |altHypos|
      requires matchByBestPerBeam ==>
                 rows == Augment(tree1.Rows(), EventBeamKey, tree1.eventBeamAsKeyMap, matchedChiSqsByBeam[..|altHypos|], preserveCombos)
      requires !matchByBestPerBeam ==>
                 rows == Augment(tree1.Rows(), EventKey, tree1.eventAsKeyMap, matchedChiSqs[..|altHypos|], preserveCombos)
      ensures rows.Some? ==>
                forall x :: x in rows.value <==>
                  exists i :: 0 <= i < |tree1.Rows()| && RowWritten(tree1.Rows()[i]) && x == RowOut(tree1.Rows()[i])
      ensures preserveCombos ==>
                && rows.Some? && |rows.value| == |tree1.Rows()|
                && forall i :: 0 <= i < |tree1.Rows()| ==> rows.value[i] == RowOut(tree1.Rows()[i])
    {
      var rs := tree1.Rows();
      if matchByBestPerBeam {
        var matched := matchedChiSqsByBeam[..|altHypos|];
        if rows.Some? {
          RetainedAll(rs, EventBeamKey, tree1.eventBeamAsKeyMap, matched, preserveCombos);
        }
        if preserveCombos {
          PreserveKeepsAll(rs, EventBeamKey, tree1.eventBeamAsKeyMap, matched);
        }
      } else {
        var matched := matchedChiSqs[..|altHypos|];
        if rows.Some? {
          RetainedAll(rs, EventKey, tree1.eventAsKeyMap, matched, preserveCombos);
        }
        if preserveCombos {
          PreserveKeepsAll(rs, EventKey, tree1.eventAsKeyMap, matched);
        }
      }
    }

    /** The graph throws exactly when the filter is on and some primary row has no entry in the reduced map. */
    lemma WrittenFails(rows: Option<seq<AugmentedRow>>)
      requires tree1.Valid()
      requires matchByBestPerBeam ==> |matchedChiSqsByBeam| >= |altHypos|
      requires !matchByBestPerBeam ==> |matchedChiSqs| >= |altHypos|
      requires matchByBestPerBeam ==>
                 rows == Augment(tree1.Rows(), EventBeamKey, tree1.eventBeamAsKeyMap, matchedChiSqsByBeam[..|altHypos|], preserveCombos)
      requires !matchByBestPerBeam ==>
                 rows == Augment(tree1.Rows(), EventKey, tree1.eventAsKeyMap, matchedChiSqs[..|altHypos|], preserveCombos)
      ensures rows.None? <==>
                !preserveCombos && exists r :: r in tree1.Rows() && tree1.LacksEntry(matchByBestPerBeam, r)
    {
      var rs := tree1.Rows();
      assert matchByBestPerBeam ==> forall i :: 0 <= i < |rs| ==>
        (EventBeamKey(rs[i]) in tree1.eventBeamAsKeyMap <==> !tree1.LacksEntry(true, rs[i]));
      assert !matchByBestPerBeam ==> forall i :: 0 <= i < |rs| ==>
        (EventKey(rs[i]) in tree1.eventAsKeyMap <==> !tree1.LacksEntry(false, rs[i]));
    }

    /** When matching per event and beam, the snapshot's rows come in the primary tree's order. */
    lemma WrittenOrderByEventAndBeam(rows: seq<AugmentedRow>)
      requires tree1.Valid() && matchByBestPerBeam && |matchedChiSqsByBeam| >= |altHypos|
      requires AllLookupsSucceed(tree1.Rows(), EventBeamKey, tree1.eventBeamAsKeyMap, preserveCombos)
      requires rows == Retained(tree1.Rows(), EventBeamKey, tree1.eventBeamAsKeyMap, matchedChiSqsByBeam[..|altHypos|], preserveCombos)
      ensures WrittenInOrder(WrittenIndices(), rows)
    {
      RetainedInOrder(tree1.Rows(), EventBeamKey, tree1.eventBeamAsKeyMap, matchedChiSqsByBeam[..|altHypos|], preserveCombos);
    }

    /** When matching per event, the snapshot's rows come in the primary tree's order. */
    lemma WrittenOrderByEvent(rows: seq<AugmentedRow>)
      requires tree1.Valid() && !matchByBestPerBeam && |matchedChiSqs| >= |altHypos|
      requires AllLookupsSucceed(tree1.Rows(), EventKey, tree1.eventAsKeyMap, preserveCombos)
      requires rows == Retained(tree1.Rows(), EventKey, tree1.eventAsKeyMap, matchedChiSqs[..|altHypos|], preserveCombos)
      ensures WrittenInOrder(WrittenIndices(), rows)
    {
      RetainedInOrder(tree1.Rows(), EventKey, tree1.eventAsKeyMap, matchedChiSqs[..|altHypos|], preserveCombos);
    }

    /** Whichever the scheme, the snapshot's rows come in the primary tree's order. */
    lemma WrittenOrder(rows: Option<seq<AugmentedRow>>)
      requires tree1.Valid()
      requires matchByBestPerBeam ==> |matchedChiSqsByBeam| >= |altHypos|
      requires !matchByBestPerBeam ==> |matchedChiSqs| >= |altHypos|
      requires matchByBestPerBeam ==>
                 rows == Augment(tree1.Rows(), EventBeamKey, tree1.eventBeamAsKeyMap, matchedChiSqsByBeam[..|altHypos|], preserveCombos)
      requires !matchByBestPerBeam ==>
                 rows == Augment(tree1.Rows(), EventKey, tree1.eventAsKeyMap, matchedChiSqs[..|altHypos|], preserveCombos)
      ensures rows.Some? ==> WrittenInOrder(WrittenIndices(), rows.value)
    {
      if rows.Some? {
        if matchByBestPerBeam {
          WrittenOrderByEventAndBeam(rows.value);
        } else {
          WrittenOrderByEvent(rows.value);
        }
      }
    }

    /** `write_to_file`: the output name, one column per alternative named after
        its tree, and the primary tree's rows with the columns defined from the
        first `|altHypos|` match maps and the retention filter applied. Indexing
        past the end of the vector of match maps is undefined in the source, hence
        the requirement. */
    function WriteToFile(outFile: string): (s: Snapshot)
      reads this, tree1, altHypos
      requires Valid() && tree1.Valid()
      requires matchByBestPerBeam ==> |matchedChiSqsByBeam| >= |altHypos|
      requires !matchByBestPerBeam ==> |matchedChiSqs| >= |altHypos|
      ensures s.fileName == OutputFileName(outFile, numHypos)
      ensures |s.branchNames| == |altHypos|
      ensures forall i :: 0 <= i < |altHypos| ==> s.branchNames[i] == BranchName(altHypos[i].treeName)
      ensures s.rows.None? <==>
                !preserveCombos && exists r :: r in tree1.Rows() && tree1.LacksEntry(matchByBestPerBeam, r)
      ensures s.rows.Some? ==>
                forall x :: x in s.rows.value <==>
                  exists i :: 0 <= i < |tree1.Rows()| && RowWritten(tree1.Rows()[i]) && x == RowOut(tree1.Rows()[i])
      ensures s.rows.Some? ==> WrittenInOrder(WrittenIndices(), s.rows.value)
      ensures preserveCombos ==>
                && s.rows.Some? && |s.rows.value| == |tree1.Rows()|
                && forall i :: 0 <= i < |tree1.Rows()| ==> s.rows.value[i] == RowOut(tree1.Rows()[i])
    {
      var names := seq(|altHypos|, i reads altHypos requires 0 <= i < |altHypos| => BranchName(altHypos[i].treeName));
      var rows :=
        if matchByBestPerBeam
        then Augment(tree1.Rows(), EventBeamKey, tree1.eventBeamAsKeyMap, matchedChiSqsByBeam[..|altHypos|], preserveCombos)
        else Augment(tree1.Rows(), EventKey, tree1.eventAsKeyMap, matchedChiSqs[..|altHypos|], preserveCombos);
      WrittenRows(rows);
      WrittenFails(rows);
      WrittenOrder(rows);
      Snapshot(OutputFileName(outFile, numHypos), names, rows)
    }
  }

  /** Once the primary tree has been filtered from empty maps, whatever its flag,
      every filter lookup in `write_to_file` succeeds for the subclass's own map. */
  lemma FilteredTreeHasEveryKey(matchByBeam: bool, beamMap: map<BeamKey, Combo>,
                                eventMap: map<uint64, Combo>, rows: seq<Combo>)
    ensures AllLookupsSucceed(rows, EventKey, BestComboPass(matchByBeam, map[], beamMap, rows), false)
    ensures AllLookupsSucceed(rows, EventBeamKey, BestPerBeamPass(matchByBeam, eventMap, map[], rows), false)
  {
    BestComboPassKeys(matchByBeam, map[], beamMap, rows);
    BestPerBeamPassKeys(matchByBeam, eventMap, map[], rows);
    assert forall i :: 0 <= i < |rows| ==> EventKey(rows[i]) in KeysOf(rows, EventKey);
    assert forall i :: 0 <= i < |rows| ==> EventBeamKey(rows[i]) in KeysOf(rows, EventBeamKey);
  }
}
