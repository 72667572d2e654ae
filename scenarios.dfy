/** Worked examples of the newer revision in the by-event scheme: one primary
    tree holding two candidates for event 1 and one alternative tree. */
module Scenarios {
  import opened Records
  import opened Reduction
  import opened Matching
  import opened Augmentation

  const Worse: Combo := Combo(1, 10, 1, 5.0, 2)
  const Better: Combo := Combo(1, 10, 1, 3.0, 2)

  function PrimaryRows(): seq<Combo> { [Worse, Better] }

  /** The by-event filter of the primary tree, from empty maps. */
  lemma PrimaryReduced()
    ensures BestComboPass(false, map[], map[], PrimaryRows()) == map[1 := Better]
  {
    var rows := PrimaryRows();
    assert rows[..1][..0] == [] && rows[..1][0] == Worse;
    assert rows[..|rows| - 1] == rows[..1];
    assert BestComboPass(false, map[], map[], rows[..1]) == map[1 := Worse];
  }

  /** The filter of a one-row tree stores that row. */
  lemma SingleReduced(c: Combo)
    ensures BestComboPass(false, map[], map[], [c]) == map[c.event := c]
  {
    assert [c][..0] == [];
  }

  /** The output rows for the primary tree, reduced by event, against one alternative map. */
  function Output(alt: map<uint64, Combo>, preserve: bool): Option<seq<AugmentedRow>>
  {
    var primary := BestComboPass(false, map[], map[], PrimaryRows());
    Augment(PrimaryRows(), EventKey, primary, [MatchMap(primary, alt)], preserve)
  }

  /** Against the reduced primary map, the worse row is written only when combos
      are preserved; the better row always is. */
  lemma OutputRows(alt: map<uint64, Combo>, preserve: bool)
    ensures var primary := map[1 := Better];
            var matched := [MatchMap(primary, alt)];
            && (preserve ==> Output(alt, preserve)
                             == Some([AugmentRow(Worse, EventKey, matched), AugmentRow(Better, EventKey, matched)]))
            && (!preserve ==> Output(alt, preserve) == Some([AugmentRow(Better, EventKey, matched)]))
  {
    PrimaryReduced();
    var primary := map[1 := Better];
    var matched := [MatchMap(primary, alt)];
    var rows := PrimaryRows();
    assert AllLookupsSucceed(rows, EventKey, primary, preserve);
    assert rows[1..] == [Better] && rows[1..][1..] == [];
    assert Retained([], EventKey, primary, matched, preserve) == [];
    assert KeepRow(preserve, primary, 1, 3.0) == Some(true);
    assert Retained([Better], EventKey, primary, matched, preserve) == [AugmentRow(Better, EventKey, matched)];
    assert KeepRow(preserve, primary, 1, 5.0) == if preserve then Some(true) else Some(false);
    assert EventKey(Worse) == 1 && EventKey(Better) == 1;
    if preserve {
      assert Retained(rows, EventKey, primary, matched, preserve)
             == [AugmentRow(Worse, EventKey, matched)] + Retained([Better], EventKey, primary, matched, preserve);
      assert [AugmentRow(Worse, EventKey, matched)] + [AugmentRow(Better, EventKey, matched)]
             == [AugmentRow(Worse, EventKey, matched), AugmentRow(Better, EventKey, matched)];
    } else {
      assert Retained(rows, EventKey, primary, matched, preserve)
             == Retained([Better], EventKey, primary, matched, preserve);
    }
    assert Output(alt, preserve) == Some(Retained(rows, EventKey, primary, matched, preserve));
  }

  /** With one alternative the row carries one column. */
  lemma OneColumn(row: Combo, m: map<uint64, Quotient>)
    ensures AugmentRow(row, EventKey, [m]) == AugmentedRow(row, [MatchColumn(m, row.event)])
  {
    var a := AugmentRow(row, EventKey, [m]);
    assert a.columns == [MatchColumn(m, row.event)];
  }

  /** The alternative holds event 1 with run 10 and chi-square 4 over 2 degrees
      of freedom: one row survives, carrying quality 2. */
  lemma ScenarioA()
    ensures var alt := BestComboPass(false, map[], map[], [Combo(1, 10, 1, 4.0, 2)]);
            && MatchMap(map[1 := Better], alt) == map[1 := Finite(2.0)]
            && Output(alt, false) == Some([AugmentedRow(Better, [Finite(2.0)])])
  {
    var s := Combo(1, 10, 1, 4.0, 2);
    SingleReduced(s);
    var alt := map[1 := s];
    assert MatchMap(map[1 := Better], alt) == map[1 := Finite(2.0)];
    OutputRows(alt, false);
    OneColumn(Better, MatchMap(map[1 := Better], alt));
  }

  /** The same with run 11 in the alternative: no match, the indicator in the
      column and no count. */
  lemma ScenarioB(matches: uint32)
    ensures var alt := BestComboPass(false, map[], map[], [Combo(1, 11, 1, 4.0, 2)]);
            && MatchMap(map[1 := Better], alt) == map[]
            && TotalMatches(map[1 := Better], [alt]) == 0
            && Advance(matches, TotalMatches(map[1 := Better], [alt])) == matches
            && Output(alt, false) == Some([AugmentedRow(Better, [NoMatch])])
  {
    var s := Combo(1, 11, 1, 4.0, 2);
    SingleReduced(s);
    var alt := map[1 := s];
    assert MatchMap(map[1 := Better], alt) == map[];
    var none: seq<map<uint64, Combo>> := [];
    assert [alt][..0] == none;
    OutputRows(alt, false);
    OneColumn(Better, MatchMap(map[1 := Better], alt));
  }

  /** Scenario A with every combo preserved: both primary rows, each with
      quality 2. */
  lemma ScenarioC()
    ensures var alt := BestComboPass(false, map[], map[], [Combo(1, 10, 1, 4.0, 2)]);
            Output(alt, true) == Some([AugmentedRow(Worse, [Finite(2.0)]), AugmentedRow(Better, [Finite(2.0)])])
  {
    var s := Combo(1, 10, 1, 4.0, 2);
    SingleReduced(s);
    var alt := map[1 := s];
    assert MatchMap(map[1 := Better], alt) == map[1 := Finite(2.0)];
    OutputRows(alt, true);
    OneColumn(Worse, MatchMap(map[1 := Better], alt));
    OneColumn(Better, MatchMap(map[1 := Better], alt));
  }

  /** The alternative has no candidate for event 1 at all. */
  lemma ScenarioD()
    ensures var alt := BestComboPass(false, map[], map[], [Combo(2, 10, 1, 4.0, 2)]);
            && MatchMap(map[1 := Better], alt) == map[]
            && Output(alt, false) == Some([AugmentedRow(Better, [NoMatch])])
  {
    var s := Combo(2, 10, 1, 4.0, 2);
    SingleReduced(s);
    var alt := map[2 := s];
    assert MatchMap(map[1 := Better], alt) == map[];
    OutputRows(alt, false);
    OneColumn(Better, MatchMap(map[1 := Better], alt));
  }
}
