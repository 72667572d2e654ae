/** The older single-alternative revision: one tree keyed by event ID whose
    lookup takes a 32-bit event ID, a match that compares run and beam IDs, one
    match map, and an output column with no retention filter. */
module Legacy {
  import opened Records
  import opened Reduction
  import opened Matching
  import opened Augmentation

  /** `filterHighChiSqEvents` as written: the presence test looks up the event ID
      cut down to 32 bits (`containsEventID` takes an `unsigned int`), while the
      entry read and written is keyed by the full 64-bit ID. */
  function LegacyPass(m: map<uint64, Combo>, rows: seq<Combo>): (r: map<uint64, Combo>)
    ensures m.Keys <= r.Keys
    ensures forall j :: j in m && j !in KeysOf(rows, EventKey) ==> r[j] == m[j]
    decreases |rows|
  {
    if rows == [] then m
    else
      KeysOfSnoc(rows, EventKey);
      var prev := LegacyPass(m, rows[..|rows| - 1]);
      var r := rows[|rows| - 1];
      Absorb(prev, r.event, r, Truncate(r.event) as uint64 in prev)
  }

  /** One more row of the pass is one more `Absorb`. */
  lemma LegacyPassStep(m: map<uint64, Combo>, rows: seq<Combo>, i: int)
    requires 0 <= i < |rows|
    ensures var prev := LegacyPass(m, rows[..i]);
            LegacyPass(m, rows[..i + 1]) == Absorb(prev, rows[i].event, rows[i], Truncate(rows[i].event) as uint64 in prev)
  {
    assert rows[..i + 1][..i] == rows[..i];
  }

  /** Whatever the lookup answers, the pass leaves one entry per event ID of the rows. */
  lemma {:induction false} LegacyPassKeys(m: map<uint64, Combo>, rows: seq<Combo>)
    ensures LegacyPass(m, rows).Keys == m.Keys + KeysOf(rows, EventKey)
    decreases |rows|
  {
    if rows != [] {
      LegacyPassKeys(m, rows[..|rows| - 1]);
      KeysOfSnoc(rows, EventKey);
    }
  }

  /** The keys of `m` and the event IDs of the rows all fit in 32 bits. */
  predicate Narrow(m: map<uint64, Combo>, rows: seq<Combo>)
  {
    (forall k :: k in m ==> k as int < TWO_TO_32)
    && forall i :: 0 <= i < |rows| ==> rows[i].event as int < TWO_TO_32
  }

  /** While every event ID fits in 32 bits the cut-down lookup is harmless: the
      pass is the intended reduction by event. */
  lemma {:induction false} LegacyPassIsBest(m: map<uint64, Combo>, rows: seq<Combo>)
    requires Narrow(m, rows)
    ensures LegacyPass(m, rows) == Best(m, rows, EventKey)
    decreases |rows|
  {
    if rows != [] {
      var pre := rows[..|rows| - 1];
      assert Narrow(m, pre) by {
        assert forall i :: 0 <= i < |pre| ==> pre[i] == rows[i];
      }
      LegacyPassIsBest(m, pre);
      var r := rows[|rows| - 1];
      assert Truncate(r.event) == r.event as int as uint32;
    }
  }

  /** Two rows of event 2^32, chi-square 1 then 5. */
  function WideRows(): seq<Combo>
  {
    [Combo(0x1_0000_0000, 7, 3, 1.0, 1), Combo(0x1_0000_0000, 7, 3, 5.0, 1)]
  }

  /** Counterexample: for event 2^32 the lookup asks for event 0, never finds it,
      and so the later, worse row overwrites the better one. */
  lemma LegacyPassKeepsWorse()
    ensures LegacyPass(map[], WideRows())[0x1_0000_0000].chiSq == 5.0
    ensures Best(map[], WideRows(), EventKey)[0x1_0000_0000].chiSq == 1.0
  {
    var rows := WideRows();
    var first := rows[..1];
    assert first[..|first| - 1] == [] && first[|first| - 1] == rows[0];
    assert rows[..|rows| - 1] == first;
    assert Truncate(0x1_0000_0000) == 0;
    assert LegacyPass(map[], first) == map[0x1_0000_0000 := rows[0]];
    assert Best(map[], first, EventKey) == map[0x1_0000_0000 := rows[0]];
  }

  /** The matches `findMatches` records: the cut-down lookup must hit and the
      entry `tree2.events[k]` reads, default-constructed when missing, must agree
      on run and beam IDs. A match whose full key is missing from tree2 is
      recorded against the default entry, whose quotient is not finite. */
  function LegacyMatchMap(primary: map<uint64, Combo>, alt: map<uint64, Combo>): (r: map<uint64, Quotient>)
    ensures r.Keys <= primary.Keys
    ensures forall k :: k in r && k in alt ==> r[k] == Quality(alt[k])
    ensures forall k :: k in r && k !in alt ==> r[k] == NonFinite
  {
    map k | k in primary && Truncate(k) as uint64 in alt
                          && Lookup(alt, k).run == primary[k].run
                          && Lookup(alt, k).beam == primary[k].beam
              :: Quality(Lookup(alt, k))
  }

  /** The keys `findMatches` reads through `operator[]`: each key of tree1 whose
      cut-down ID is in tree2. */
  function Touched(primary: map<uint64, Combo>, alt: map<uint64, Combo>): set<uint64>
  {
    set k | k in primary && Truncate(k) as uint64 in alt
  }

  /** Tree2's map after `findMatches`: every touched key is present, the missing
      ones as `Zero`. */
  function AfterLookups(primary: map<uint64, Combo>, alt: map<uint64, Combo>): map<uint64, Combo>
  {
    map k | k in alt.Keys + Touched(primary, alt) :: Lookup(alt, k)
  }

  /** The matches among the keys `done` of tree1 visited so far. */
  function MatchesAmong(primary: map<uint64, Combo>, alt: map<uint64, Combo>, done: set<uint64>): map<uint64, Quotient>
  {
    map k | k in done && k in LegacyMatchMap(primary, alt) :: LegacyMatchMap(primary, alt)[k]
  }

  /** Tree2's map once the keys `done` of tree1 have been visited. */
  function LookedUp(primary: map<uint64, Combo>, alt: map<uint64, Combo>, done: set<uint64>): map<uint64, Combo>
  {
    map k | k in alt.Keys + (Touched(primary, alt) * done) :: Lookup(alt, k)
  }

  /** Visiting key `k` of tree1: the keys inserted so far are all 2^32 or more, so
      the cut-down lookup and the entry read see tree2's original map, and both
      the matches and tree2's map grow by `k` alone. */
  lemma VisitStep(primary: map<uint64, Combo>, alt: map<uint64, Combo>, done: set<uint64>, k: uint64)
    requires k in primary && k !in done
    ensures var t := LookedUp(primary, alt, done);
            && (Truncate(k) as uint64 in t <==> Truncate(k) as uint64 in alt)
            && Lookup(t, k) == Lookup(alt, k)
            && LookedUp(primary, alt, done + {k})
               == if Truncate(k) as uint64 in alt then t[k := Lookup(alt, k)] else t
    ensures var m := MatchesAmong(primary, alt, done);
            && k !in m
            && MatchesAmong(primary, alt, done + {k})
               == if k in LegacyMatchMap(primary, alt) then m[k := LegacyMatchMap(primary, alt)[k]] else m
  {
    LookupStep(primary, alt, done, k);
    MatchStep(primary, alt, done, k);
  }

  /** The tree2 half of `VisitStep`. */
  lemma LookupStep(primary: map<uint64, Combo>, alt: map<uint64, Combo>, done: set<uint64>, k: uint64)
    requires k in primary && k !in done
    ensures var t := LookedUp(primary, alt, done);
            && (Truncate(k) as uint64 in t <==> Truncate(k) as uint64 in alt)
            && Lookup(t, k) == Lookup(alt, k)
            && LookedUp(primary, alt, done + {k})
               == if Truncate(k) as uint64 in alt then t[k := Lookup(alt, k)] else t
  {
  }

  /** The matches half of `VisitStep`. */
  lemma MatchStep(primary: map<uint64, Combo>, alt: map<uint64, Combo>, done: set<uint64>, k: uint64)
    requires k in primary && k !in done
    ensures var m := MatchesAmong(primary, alt, done);
            && k !in m
            && MatchesAmong(primary, alt, done + {k})
               == if k in LegacyMatchMap(primary, alt) then m[k := LegacyMatchMap(primary, alt)[k]] else m
  {
  }

  /** Updating the right operand of a map union updates the union. */
  lemma UnionUpdate<K, V>(a: map<K, V>, b: map<K, V>, k: K, v: V)
    ensures (a + b)[k := v] == a + b[k := v]
  {
  }

  /** Tree2's map, the recorded matches and the counter, as `findMatches` goes. */
  datatype Tally = Tally(lookedUp: map<uint64, Combo>, recorded: map<uint64, Quotient>, count: uint32)

  /** The body of `findMatches`' loop for tree1's key `k` with entry `pair`. */
  function Visit(pair: Combo, k: uint64, s: Tally): (t: Tally)
    ensures s.lookedUp.Keys <= t.lookedUp.Keys <= s.lookedUp.Keys + {k}
    ensures s.recorded.Keys <= t.recorded.Keys <= s.recorded.Keys + {k}
    ensures forall j :: j in s.lookedUp ==> t.lookedUp[j] == s.lookedUp[j]
    ensures forall j :: j in s.recorded && j != k ==> t.recorded[j] == s.recorded[j]
    ensures t.count == s.count || t.count == Increment(s.count)
    ensures t.recorded != s.recorded ==> t.count == Increment(s.count)
  {
    if Truncate(k) as uint64 !in s.lookedUp then s
    else
      // operator[] default-constructs a missing entry before it is read
      var entry := Lookup(s.lookedUp, k);
      var t := s.lookedUp[k := entry];
      if entry.run == pair.run && entry.beam == pair.beam
      then Tally(t, s.recorded[k := Quality(entry)], Increment(s.count))
      else Tally(t, s.recorded, s.count)
  }

  /** The visits of tree1's keys `keys`, in that order. */
  function Run(primary: map<uint64, Combo>, keys: seq<uint64>, s: Tally): Tally
    requires forall i :: 0 <= i < |keys| ==> keys[i] in primary
    decreases |keys|
  {
    if keys == [] then s
    else
      var k := keys[|keys| - 1];
      Visit(primary[k], k, Run(primary, keys[..|keys| - 1], s))
  }

  /** One more key is one more visit. */
  lemma RunSnoc(primary: map<uint64, Combo>, keys: seq<uint64>, k: uint64, s: Tally)
    requires forall i :: 0 <= i < |keys| ==> keys[i] in primary
    requires k in primary
    ensures forall i :: 0 <= i < |keys + [k]| ==> (keys + [k])[i] in primary
    ensures Run(primary, keys + [k], s) == Visit(primary[k], k, Run(primary, keys, s))
  {
    assert (keys + [k])[..|keys|] == keys;
  }

  /** The state once the keys `done` of tree1 have been visited, in any order. */
  function Expected(primary: map<uint64, Combo>, alt: map<uint64, Combo>, base: map<uint64, Quotient>,
                    start: uint32, done: set<uint64>): Tally
  {
    var m := MatchesAmong(primary, alt, done);
    Tally(LookedUp(primary, alt, done), base + m, Advance(start, |m|))
  }

  /** One visit takes the state for `done` to the state for `done + {k}`. */
  lemma VisitPreserves(primary: map<uint64, Combo>, alt: map<uint64, Combo>, base: map<uint64, Quotient>,
                       start: uint32, done: set<uint64>, k: uint64)
    requires k in primary && k !in done
    ensures Visit(primary[k], k, Expected(primary, alt, base, start, done))
            == Expected(primary, alt, base, start, done + {k})
  {
    VisitStep(primary, alt, done, k);
    var t := LookedUp(primary, alt, done);
    var m := MatchesAmong(primary, alt, done);
    var lmm := LegacyMatchMap(primary, alt);
    var after := Expected(primary, alt, base, start, done + {k});
    if k in lmm {
      UnionUpdate(base, m, k, lmm[k]);
      assert |m[k := lmm[k]]| == |m| + 1;
      assert after == Tally(t[k := Lookup(alt, k)], (base + m)[k := lmm[k]], Increment(Advance(start, |m|)));
    } else {
      assert after.recorded == base + m && after.count == Advance(start, |m|);
    }
  }

  function SetOf(keys: seq<uint64>): set<uint64>
  {
    set i | 0 <= i < |keys| :: keys[i]
  }

  lemma SetOfSnoc(keys: seq<uint64>, k: uint64)
    ensures SetOf(keys + [k]) == SetOf(keys) + {k}
  {
    var ks := keys + [k];
    assert forall i :: 0 <= i < |keys| ==> ks[i] == keys[i];
    assert ks[|keys|] == k;
  }

  /** Visiting distinct keys of tree1 in any order yields the state for the set of them. */
  lemma {:induction false} RunIsExpected(primary: map<uint64, Combo>, alt: map<uint64, Combo>,
                                         base: map<uint64, Quotient>, start: uint32, keys: seq<uint64>)
    requires forall i :: 0 <= i < |keys| ==> keys[i] in primary
    requires forall i, j :: 0 <= i < j < |keys| ==> keys[i] != keys[j]
    ensures Run(primary, keys, Tally(alt, base, start)) == Expected(primary, alt, base, start, SetOf(keys))
    decreases |keys|
  {
    if keys == [] {
      ExpectedAtStart(primary, alt, base, start);
      assert SetOf(keys) == {};
    } else {
      var n := |keys| - 1;
      var pre := keys[..n];
      var k := keys[n];
      assert keys == pre + [k];
      assert forall i :: 0 <= i < n ==> pre[i] == keys[i];
      RunIsExpected(primary, alt, base, start, pre);
      SetOfSnoc(pre, k);
      VisitPreserves(primary, alt, base, start, SetOf(pre), k);
    }
  }

  /** Before any key is visited, the state is the initial one. */
  lemma ExpectedAtStart(primary: map<uint64, Combo>, alt: map<uint64, Combo>, base: map<uint64, Quotient>, start: uint32)
    ensures Expected(primary, alt, base, start, {}) == Tally(alt, base, start)
  {
    assert LookedUp(primary, alt, {}) == alt;
    assert MatchesAmong(primary, alt, {}) == map[];
    assert base + map[] == base;
  }

  /** Once every key of tree1 has been visited. */
  lemma LookedUpAll(primary: map<uint64, Combo>, alt: map<uint64, Combo>)
    ensures LookedUp(primary, alt, primary.Keys) == AfterLookups(primary, alt)
    ensures MatchesAmong(primary, alt, primary.Keys) == LegacyMatchMap(primary, alt)
  {
  }

  /** The match intended by the older revision: the key in both maps, equal run
      IDs and equal beam IDs. */
  function CorrectedMatchMap(primary: map<uint64, Combo>, alt: map<uint64, Combo>): (r: map<uint64, Quotient>)
    ensures forall k :: k in r <==> k in MatchMap(primary, alt) && alt[k].beam == primary[k].beam
    ensures forall k :: k in r ==> r[k] == MatchMap(primary, alt)[k]
  {
    map k | k in primary && k in alt && alt[k].run == primary[k].run && alt[k].beam == primary[k].beam
              :: Quality(alt[k])
  }

  /** While every key of tree1 fits in 32 bits, the recorded matches are the
      intended ones and tree2's map is left as it was. */
  lemma LegacyMatchIsCorrected(primary: map<uint64, Combo>, alt: map<uint64, Combo>)
    requires forall k :: k in primary ==> k as int < TWO_TO_32
    ensures LegacyMatchMap(primary, alt) == CorrectedMatchMap(primary, alt)
    ensures AfterLookups(primary, alt) == alt
  {
    assert forall k :: k in primary ==> Truncate(k) as uint64 == k;
  }

  /** Counterexample: the same event 2^32 with the same run and beam in both
      trees is not matched, because tree2 is asked for event 0. */
  lemma LegacyMissesWideMatch()
    ensures var c := Combo(0x1_0000_0000, 7, 3, 1.0, 1);
            LegacyMatchMap(map[0x1_0000_0000 := c], map[0x1_0000_0000 := c]) == map[]
            && 0x1_0000_0000 in CorrectedMatchMap(map[0x1_0000_0000 := c], map[0x1_0000_0000 := c])
  {
    assert Truncate(0x1_0000_0000) == 0;
  }

  /** Counterexample: event 2^32 with run 0 and beam 0 in tree1, and event 0 in
      tree2, is matched against the default-constructed entry for 2^32, which
      `findMatches` itself inserts into tree2. */
  lemma LegacyMatchesPhantom()
    ensures var primary := map[0x1_0000_0000 := Combo(0x1_0000_0000, 0, 0, 1.0, 1)];
            var alt := map[0 := Combo(0, 5, 5, 2.0, 1)];
            && LegacyMatchMap(primary, alt) == map[0x1_0000_0000 := NonFinite]
            && CorrectedMatchMap(primary, alt) == map[]
            && AfterLookups(primary, alt) == alt[0x1_0000_0000 := Zero]
  {
    assert Truncate(0x1_0000_0000) == 0;
  }

  /** `hypothesisTree`. */
  class LegacyTree {
    const treeName: string
    var eventColumnData: seq<uint64>
    var runColumnData: seq<uint32>
    var beamColumnData: seq<uint32>
    var chiSqColumnData: seq<real>
    var ndfColumnData: seq<uint32>
    var events: map<uint64, Combo>

    predicate Valid()
      reads this
    {
      && |runColumnData| == |eventColumnData|
      && |beamColumnData| == |eventColumnData|
      && |chiSqColumnData| == |eventColumnData|
      && |ndfColumnData| == |eventColumnData|
    }

    function Rows(): seq<Combo>
      reads this
      requires Valid()
    {
      RowsOf(eventColumnData, runColumnData, beamColumnData, chiSqColumnData, ndfColumnData)
    }

    constructor (treeName: string)
      ensures this.treeName == treeName
      ensures Valid() && Rows() == [] && events == map[]
    {
      this.treeName := treeName;
      eventColumnData, runColumnData, beamColumnData, chiSqColumnData, ndfColumnData := [], [], [], [], [];
      events := map[];
    }

    /** `containsEventID(unsigned int)`: the 32-bit ID, widened back, is a key. */
    function ContainsEventID(key: uint32): (b: bool)
      reads this
      ensures b <==> key as int as uint64 in events
    {
      key as int as uint64 in events
    }

    /** Installs the columns `fillColumnVecs` reads from the tree's file. */
    method FillColumnVecs(c: Columns)
      requires c.WellFormed()
      modifies this`eventColumnData, this`runColumnData, this`beamColumnData, this`chiSqColumnData, this`ndfColumnData
      ensures Valid() && Rows() == c.Rows()
    {
      eventColumnData, runColumnData, beamColumnData, chiSqColumnData, ndfColumnData := c.events, c.runs, c.beams, c.chiSqs, c.ndfs;
    }

    /** `updateComboData(index)`: the entry of row `index`'s event becomes that row. */
    method UpdateComboData(index: nat)
      requires Valid() && index < |eventColumnData|
      modifies this`events
      ensures events == old(events)[Rows()[index].event := Rows()[index]]
    {
      var e := eventColumnData[index];
      var row := Combo(e, runColumnData[index], beamColumnData[index], chiSqColumnData[index], ndfColumnData[index]);
      events := events[e := WriteFields(Lookup(events, e), row)];
    }

    /** One iteration of `filterHighChiSqEvents` for row `i`. */
    method FilterRow(i: nat)
      requires Valid() && i < |eventColumnData|
      modifies this`events
      ensures events == Absorb(old(events), Rows()[i].event, Rows()[i], Truncate(Rows()[i].event) as uint64 in old(events))
    {
      var e := eventColumnData[i];
      if !ContainsEventID(Truncate(e)) {
        UpdateComboData(i);
      } else {
        // operator[] default-constructs a missing entry before it is read
        var held := Lookup(events, e);
        events := events[e := held];
        if held.chiSq > chiSqColumnData[i] {
          UpdateComboData(i);
        }
      }
    }

    /** `filterHighChiSqEvents`: one pass over the rows; the event ID is passed to
        `containsEventID` and so cut down to 32 bits. */
    method FilterHighChiSqEvents()
      requires Valid()
      modifies this`events
      ensures events == LegacyPass(old(events), Rows())
    {
      var i := 0;
      while i < |eventColumnData|
        invariant 0 <= i <= |eventColumnData|
        invariant events == LegacyPass(old(events), Rows()[..i])
      {
        LegacyPassStep(old(events), Rows(), i);
        FilterRow(i);
        i := i + 1;
      }
      assert Rows()[..i] == Rows();
    }
  }

  /** What `writeToFile` writes: its name, the added column's name and every row
      of tree1 with that column. */
  datatype LegacySnapshot = LegacySnapshot(fileName: string, branchName: string, rows: seq<AugmentedRow>)

  /** The older output name: only "placeholder" is replaced, by tree2's name. */
  function LegacyOutputName(outFile: string, tree2Name: string): (name: string)
    ensures outFile != "placeholder" ==> name == outFile
    ensures outFile == "placeholder" ==>
              |name| == |tree2Name| + |MATCHED_SUFFIX| &&
              name[..|tree2Name|] == tree2Name && name[|tree2Name|..] == MATCHED_SUFFIX
  {
    if outFile == "placeholder" then tree2Name + MATCHED_SUFFIX else outFile
  }

  /** Unlike the newer revision, the older one keeps an empty output name. */
  lemma EmptyNameKeptOnlyByLegacy(tree2Name: string, numHypos: nat)
    ensures LegacyOutputName("", tree2Name) == ""
    ensures OutputFileName("", numHypos) != ""
  {
  }

  /** `compareHypotheses`: two trees, the match counter and one match map. */
  class LegacyCompare {
    const tree1: LegacyTree
    const tree2: LegacyTree
    var matches: uint32
    var matchedChiSqs: map<uint64, Quotient>

    ghost predicate Valid()
    {
      tree1 != tree2
    }

    constructor (t1: string, t2: string)
      ensures Valid() && fresh(tree1) && fresh(tree2)
      ensures tree1.treeName == t1 && tree1.Valid() && tree1.Rows() == [] && tree1.events == map[]
      ensures tree2.treeName == t2 && tree2.Valid() && tree2.Rows() == [] && tree2.events == map[]
      ensures matches == 0 && matchedChiSqs == map[]
    {
      tree1 := new LegacyTree(t1);
      tree2 := new LegacyTree(t2);
      matches := 0;
      matchedChiSqs := map[];
    }

    /** `prepareData`: both trees install their columns and run their filter. */
    method PrepareData(c1: Columns, c2: Columns)
      requires Valid() && c1.WellFormed() && c2.WellFormed()
      modifies tree1, tree2
      ensures tree1.Valid() && tree1.Rows() == c1.Rows() && tree1.events == LegacyPass(old(tree1.events), c1.Rows())
      ensures tree2.Valid() && tree2.Rows() == c2.Rows() && tree2.events == LegacyPass(old(tree2.events), c2.Rows())
    {
      tree1.FillColumnVecs(c1);
      tree1.FilterHighChiSqEvents();
      tree2.FillColumnVecs(c2);
      tree2.FilterHighChiSqEvents();
    }

    /** `findMatches`. `logOpens` says whether "log_matches.txt" can be opened;
        when it cannot, nothing changes. Otherwise the matches are recorded
        (overwriting earlier values for the same event), the 32-bit counter
        advances once per match, and tree2's map gains the entries `operator[]`
        default-constructs. */
    method FindMatches(logOpens: bool)
      requires Valid()
      modifies this`matches, this`matchedChiSqs, tree2`events
      ensures !logOpens ==>
                matches == old(matches) && matchedChiSqs == old(matchedChiSqs) && tree2.events == old(tree2.events)
      ensures logOpens ==>
                && matchedChiSqs == old(matchedChiSqs) + LegacyMatchMap(tree1.events, old(tree2.events))
                && matches == Advance(old(matches), |LegacyMatchMap(tree1.events, old(tree2.events))|)
                && tree2.events == AfterLookups(tree1.events, old(tree2.events))
    {
      if logOpens {
        MatchAllKeys();
      }
    }

    /** The loop of `findMatches` over tree1's keys. */
    method MatchAllKeys()
      requires Valid()
      modifies this`matches, this`matchedChiSqs, tree2`events
      ensures matchedChiSqs == old(matchedChiSqs) + LegacyMatchMap(tree1.events, old(tree2.events))
      ensures matches == Advance(old(matches), |LegacyMatchMap(tree1.events, old(tree2.events))|)
      ensures tree2.events == AfterLookups(tree1.events, old(tree2.events))
    {
      ghost var alt := tree2.events;
      ghost var primary := tree1.events;
      ghost var visited: seq<uint64> := [];
      var todo := tree1.events.Keys;
      while todo != {}
        invariant tree1.events == primary && todo <= primary.Keys
        invariant forall i :: 0 <= i < |visited| ==> visited[i] in primary && visited[i] !in todo
        invariant forall i, j :: 0 <= i < j < |visited| ==> visited[i] != visited[j]
        invariant forall x :: x in primary && x !in todo ==> x in SetOf(visited)
        invariant Tally(tree2.events, matchedChiSqs, matches)
                  == Run(primary, visited, Tally(alt, old(matchedChiSqs), old(matches)))
        decreases todo
      {
        var k :| k in todo;
        VisitKey(k);
        RunSnoc(primary, visited, k, Tally(alt, old(matchedChiSqs), old(matches)));
        SetOfSnoc(visited, k);
        visited := visited + [k];
        todo := todo - {k};
      }
      RunIsExpected(primary, alt, old(matchedChiSqs), old(matches), visited);
      assert SetOf(visited) == primary.Keys;
      LookedUpAll(primary, alt);
    }

    /** The body of `findMatches`' loop for tree1's key `k`. */
    method VisitKey(k: uint64)
      requires Valid() && k in tree1.events
      modifies this`matches, this`matchedChiSqs, tree2`events
      ensures Tally(tree2.events, matchedChiSqs, matches)
              == Visit(tree1.events[k], k, old(Tally(tree2.events, matchedChiSqs, matches)))
    {
      if tree2.ContainsEventID(Truncate(k)) {
        // operator[] default-constructs a missing entry before it is read
        var entry := Lookup(tree2.events, k);
        tree2.events := tree2.events[k := entry];
        var pair := tree1.events[k];
        if entry.run == pair.run && entry.beam == pair.beam {
          matchedChiSqs := matchedChiSqs[k := Quality(entry)];
          matches := Increment(matches);
        }
      }
    }

    /** `writeToFile`: every row of tree1, in order, with one column holding the
        event's recorded match or the no-match indicator. */
    function WriteToFile(outFile: string): (s: LegacySnapshot)
      reads this, tree1, tree2
      requires tree1.Valid()
      ensures s.fileName == LegacyOutputName(outFile, tree2.treeName)
      ensures s.branchName == BranchName(tree2.treeName)
      ensures |s.rows| == |tree1.Rows()|
      ensures forall i :: 0 <= i < |s.rows| ==>
                s.rows[i].row == tree1.Rows()[i] && s.rows[i].columns == [MatchColumn(matchedChiSqs, tree1.Rows()[i].event)]
    {
      var rows := tree1.Rows();
      var matched := [matchedChiSqs];
      var out := seq(|rows|, i requires 0 <= i < |rows| => AugmentRow(rows[i], EventKey, matched));
      assert forall i :: 0 <= i < |out| ==> out[i].columns == [MatchColumn(matchedChiSqs, rows[i].event)];
      LegacySnapshot(LegacyOutputName(outFile, tree2.treeName), BranchName(tree2.treeName), out)
    }
  }
}
