/** Output augmentation: the per-row column that carries an alternative's
    matched quality (or the no-match indicator), the retention filter that keeps
    only the best row of each key, and the output naming. */
module Augmentation {
  import opened Records
  import opened Reduction

  /** The column value written when a row's key has no match. */
  const NO_MATCH_INDICATOR: real := 185100000.0
  const NoMatch: Quotient := Finite(NO_MATCH_INDICATOR)

  /** Absolute tolerance of `chi_sqs_equal`. */
  const EPSILON: real := 0.00001

  const MATCHED_SUFFIX: string := "_hypothesesMatched.root"
  const BRANCH_SUFFIX: string := "_chisq_ndf"

  function Abs(x: real): real { if x < 0.0 then -x else x }

  /** `chi_sqs_equal`: the two values differ by strictly less than the tolerance. */
  function ChiSqsEqual(a: real, b: real): (r: bool)
    ensures r <==> b - EPSILON < a < b + EPSILON
  {
    Abs(a - b) < EPSILON
  }

  lemma ChiSqsEqualSymmetric(a: real, b: real)
    ensures ChiSqsEqual(a, b) == ChiSqsEqual(b, a)
    ensures ChiSqsEqual(a, a)
  {
  }

  /** The `Define` lambda for alternative i: the matched quality of the row's key,
      or the no-match indicator. */
  function MatchColumn<K>(matched: map<K, Quotient>, key: K): (q: Quotient)
    ensures key in matched ==> q == matched[key]
    ensures key !in matched ==> q == NoMatch
  {
    if key in matched then matched[key] else NoMatch
  }

  /** The column holds the indicator exactly when the key is unmatched or its
      matched quality happens to equal the indicator. */
  lemma MatchColumnIsIndicator<K>(matched: map<K, Quotient>, key: K)
    ensures MatchColumn(matched, key) == NoMatch <==> key !in matched || matched[key] == NoMatch
  {
  }

  /** A primary row with one appended column per alternative. */
  datatype AugmentedRow = AugmentedRow(row: Combo, columns: seq<Quotient>)

  function AugmentRow<K>(row: Combo, key: Combo -> K, matched: seq<map<K, Quotient>>): (a: AugmentedRow)
    ensures a.row == row && |a.columns| == |matched|
    ensures forall i :: 0 <= i < |matched| ==> a.columns[i] == MatchColumn(matched[i], key(row))
  {
    AugmentedRow(row, seq(|matched|, i requires 0 <= i < |matched| => MatchColumn(matched[i], key(row))))
  }

  /** Rows sharing a key carry the same columns: the match is per key, not per row. */
  lemma SameKeySameColumns<K>(r1: Combo, r2: Combo, key: Combo -> K, matched: seq<map<K, Quotient>>)
    requires key(r1) == key(r2)
    ensures AugmentRow(r1, key, matched).columns == AugmentRow(r2, key, matched).columns
  {
  }

  /** The `Filter` lambda. With `preserve` off it reads the primary entry with
      `.at()`, which throws for a missing key: that case is `None`. */
  function KeepRow<K>(preserve: bool, primary: map<K, Combo>, key: K, kinChiSq: real): (r: Option<bool>)
    ensures r.None? <==> !preserve && key !in primary
    ensures r == Some(true) <==> preserve || (key in primary && ChiSqsEqual(kinChiSq, primary[key].chiSq))
  {
    if preserve then Some(true)
    else if key !in primary then None
    else Some(ChiSqsEqual(kinChiSq, primary[key].chiSq))
  }

  datatype Option<T> = None | Some(value: T)

  /** Every row's filter can be evaluated without `.at()` throwing. */
  predicate AllLookupsSucceed<K>(rows: seq<Combo>, key: Combo -> K, primary: map<K, Combo>, preserve: bool)
  {
    forall i :: 0 <= i < |rows| ==> preserve || key(rows[i]) in primary
  }

  /** The rows the graph writes: every row of the unreduced primary tree, in
      order, that passes the filter, with its columns defined. */
  function Retained<K>(rows: seq<Combo>, key: Combo -> K, primary: map<K, Combo>,
                       matched: seq<map<K, Quotient>>, preserve: bool): (out: seq<AugmentedRow>)
    requires AllLookupsSucceed(rows, key, primary, preserve)
    ensures |out| <= |rows|
    ensures forall t :: 0 <= t < |out| ==> |out[t].columns| == |matched|
    decreases |rows|
  {
    if rows == [] then []
    else
      var rest := Retained(rows[1..], key, primary, matched, preserve);
      if KeepRow(preserve, primary, key(rows[0]), rows[0].chiSq) == Some(true)
      then [AugmentRow(rows[0], key, matched)] + rest
      else rest
  }

  /** The snapshot's rows, or `None` when a filter lookup throws. */
  function Augment<K>(rows: seq<Combo>, key: Combo -> K, primary: map<K, Combo>,
                      matched: seq<map<K, Quotient>>, preserve: bool): (r: Option<seq<AugmentedRow>>)
    ensures preserve ==> r.Some?
    ensures r.None? <==> exists i :: 0 <= i < |rows| && KeepRow(preserve, primary, key(rows[i]), rows[i].chiSq).None?
  {
    if AllLookupsSucceed(rows, key, primary, preserve)
    then Some(Retained(rows, key, primary, matched, preserve))
    else None
  }

  /** An output row is the augmented form of some primary row that passes the
      filter, and every such row is in the output. */
  lemma {:induction false} RetainedMembers<K>(rows: seq<Combo>, key: Combo -> K, primary: map<K, Combo>,
                                              matched: seq<map<K, Quotient>>, preserve: bool, x: AugmentedRow)
    requires AllLookupsSucceed(rows, key, primary, preserve)
    ensures x in Retained(rows, key, primary, matched, preserve) <==>
            exists i :: 0 <= i < |rows| && KeepRow(preserve, primary, key(rows[i]), rows[i].chiSq) == Some(true)
                        && x == AugmentRow(rows[i], key, matched)
    decreases |rows|
  {
    if rows != [] {
      var tail := rows[1..];
      assert forall i :: 0 <= i < |tail| ==> tail[i] == rows[i + 1];
      RetainedMembers(tail, key, primary, matched, preserve, x);
      if x in Retained(rows, key, primary, matched, preserve) && x != AugmentRow(rows[0], key, matched) {
        var i :| 0 <= i < |tail| && KeepRow(preserve, primary, key(tail[i]), tail[i].chiSq) == Some(true)
                 && x == AugmentRow(tail[i], key, matched);
        assert rows[i + 1] == tail[i];
      }
      if exists i :: 0 <= i < |rows| && KeepRow(preserve, primary, key(rows[i]), rows[i].chiSq) == Some(true)
                     && x == AugmentRow(rows[i], key, matched) {
        var i :| 0 <= i < |rows| && KeepRow(preserve, primary, key(rows[i]), rows[i].chiSq) == Some(true)
                 && x == AugmentRow(rows[i], key, matched);
        if i > 0 {
          assert tail[i - 1] == rows[i];
        }
      }
    }
  }

  /** `RetainedMembers` for every output row at once. */
  lemma RetainedAll<K>(rows: seq<Combo>, key: Combo -> K, primary: map<K, Combo>,
                       matched: seq<map<K, Quotient>>, preserve: bool)
    requires AllLookupsSucceed(rows, key, primary, preserve)
    ensures forall x :: x in Retained(rows, key, primary, matched, preserve) <==>
              exists i :: 0 <= i < |rows| && KeepRow(preserve, primary, key(rows[i]), rows[i].chiSq) == Some(true)
                          && x == AugmentRow(rows[i], key, matched)
  {
    forall x {
      RetainedMembers(rows, key, primary, matched, preserve, x);
    }
  }

  /** The indices, from `i` on and in increasing order, of the rows that pass the filter. */
  function PassingFrom<K>(rows: seq<Combo>, key: Combo -> K, primary: map<K, Combo>, preserve: bool, i: nat): (idx: seq<nat>)
    requires i <= |rows|
    ensures forall t :: 0 <= t < |idx| ==> i <= idx[t] < |rows|
    decreases |rows| - i
  {
    if i == |rows| then []
    else if KeepRow(preserve, primary, key(rows[i]), rows[i].chiSq) == Some(true)
    then [i] + PassingFrom(rows, key, primary, preserve, i + 1)
    else PassingFrom(rows, key, primary, preserve, i + 1)
  }

  /** `out` lists, in order, the augmented rows at the indices `idx`, which are
      increasing and are exactly the rows from `i` on that pass the filter. */
  predicate InOrder<K>(rows: seq<Combo>, key: Combo -> K, primary: map<K, Combo>, matched: seq<map<K, Quotient>>,
                       preserve: bool, i: nat, idx: seq<nat>, out: seq<AugmentedRow>)
  {
    && |idx| == |out|
    && (forall t :: 0 <= t < |idx| ==> i <= idx[t] < |rows| && out[t] == AugmentRow(rows[idx[t]], key, matched))
    && (forall s, t :: 0 <= s < t < |idx| ==> idx[s] < idx[t])
    && (forall j :: i <= j < |rows| ==> (j in idx <==> KeepRow(preserve, primary, key(rows[j]), rows[j].chiSq) == Some(true)))
  }

  /** A passing row `i` put in front of the in-order output from `i + 1` on. */
  lemma InOrderKeep<K>(rows: seq<Combo>, key: Combo -> K, primary: map<K, Combo>, matched: seq<map<K, Quotient>>,
                       preserve: bool, i: nat, tail: seq<nat>, rest: seq<AugmentedRow>)
    requires i < |rows| && KeepRow(preserve, primary, key(rows[i]), rows[i].chiSq) == Some(true)
    requires InOrder(rows, key, primary, matched, preserve, i + 1, tail, rest)
    ensures InOrder(rows, key, primary, matched, preserve, i, [i] + tail, [AugmentRow(rows[i], key, matched)] + rest)
  {
    var idx, out := [i] + tail, [AugmentRow(rows[i], key, matched)] + rest;
    assert forall t :: 0 < t < |idx| ==> idx[t] == tail[t - 1] && out[t] == rest[t - 1];
  }

  /** A failing row `i` adds nothing to the in-order output from `i + 1` on. */
  lemma InOrderSkip<K>(rows: seq<Combo>, key: Combo -> K, primary: map<K, Combo>, matched: seq<map<K, Quotient>>,
                       preserve: bool, i: nat, tail: seq<nat>, rest: seq<AugmentedRow>)
    requires i < |rows| && KeepRow(preserve, primary, key(rows[i]), rows[i].chiSq) != Some(true)
    requires InOrder(rows, key, primary, matched, preserve, i + 1, tail, rest)
    ensures InOrder(rows, key, primary, matched, preserve, i, tail, rest)
  {
  }

  /** The output from row `i` on is the in-order subsequence of the passing rows:
      each passing row appears once, at its place, and no other row appears. */
  lemma {:induction false} RetainedFrom<K>(rows: seq<Combo>, key: Combo -> K, primary: map<K, Combo>,
                                           matched: seq<map<K, Quotient>>, preserve: bool, i: nat)
    requires AllLookupsSucceed(rows, key, primary, preserve) && i <= |rows|
    ensures AllLookupsSucceed(rows[i..], key, primary, preserve)
    ensures InOrder(rows, key, primary, matched, preserve, i,
                    PassingFrom(rows, key, primary, preserve, i), Retained(rows[i..], key, primary, matched, preserve))
    decreases |rows| - i
  {
    assert forall j :: 0 <= j < |rows[i..]| ==> rows[i..][j] == rows[i + j];
    if i < |rows| {
      RetainedFrom(rows, key, primary, matched, preserve, i + 1);
      assert rows[i..][1..] == rows[i + 1..];
      var tail := PassingFrom(rows, key, primary, preserve, i + 1);
      var rest := Retained(rows[i + 1..], key, primary, matched, preserve);
      if KeepRow(preserve, primary, key(rows[i]), rows[i].chiSq) == Some(true) {
        InOrderKeep(rows, key, primary, matched, preserve, i, tail, rest);
      } else {
        InOrderSkip(rows, key, primary, matched, preserve, i, tail, rest);
      }
    }
  }

  /** The whole output is the in-order subsequence of the passing rows. */
  lemma RetainedInOrder<K>(rows: seq<Combo>, key: Combo -> K, primary: map<K, Combo>,
                           matched: seq<map<K, Quotient>>, preserve: bool)
    requires AllLookupsSucceed(rows, key, primary, preserve)
    ensures InOrder(rows, key, primary, matched, preserve, 0,
                    PassingFrom(rows, key, primary, preserve, 0), Retained(rows, key, primary, matched, preserve))
  {
    RetainedFrom(rows, key, primary, matched, preserve, 0);
    assert rows[0..] == rows;
  }

  /** With `preserve_combos` on, every row is written, in order. */
  lemma {:induction false} PreserveKeepsAll<K>(rows: seq<Combo>, key: Combo -> K, primary: map<K, Combo>,
                                               matched: seq<map<K, Quotient>>)
    ensures |Retained(rows, key, primary, matched, true)| == |rows|
    ensures forall i :: 0 <= i < |rows| ==> Retained(rows, key, primary, matched, true)[i] == AugmentRow(rows[i], key, matched)
    decreases |rows|
  {
    if rows != [] {
      PreserveKeepsAll(rows[1..], key, primary, matched);
    }
  }

  /** After the reduction, no filter lookup throws, and for every key the reduced
      row itself passes the filter, so each key keeps at least one output row. */
  lemma BestRowSurvives<K>(rows: seq<Combo>, key: Combo -> K, matched: seq<map<K, Quotient>>, k: K)
    requires k in Best(map[], rows, key)
    ensures AllLookupsSucceed(rows, key, Best(map[], rows, key), false)
    ensures exists i :: 0 <= i < |rows| && key(rows[i]) == k
                        && AugmentRow(rows[i], key, matched) in Retained(rows, key, Best(map[], rows, key), matched, false)
  {
    var primary := Best(map[], rows, key);
    BestKeys(map[], rows, key);
    assert forall i :: 0 <= i < |rows| ==> key(rows[i]) in KeysOf(rows, key);
    BestWinner(rows, key, k);
    var j :| FirstMinimal(rows, key, j) && key(rows[j]) == k && primary[k] == rows[j];
    assert KeepRow(false, primary, key(rows[j]), rows[j].chiSq) == Some(true);
    RetainedMembers(rows, key, primary, matched, false, AugmentRow(rows[j], key, matched));
  }

  /** The decimal text of a natural number, as `std::to_string` writes it. */
  function NatToString(n: nat): (s: string)
    ensures |s| >= 1
    ensures forall i :: 0 <= i < |s| ==> '0' <= s[i] <= '9'
    ensures |s| > 1 ==> s[0] != '0'
    decreases n
  {
    if n < 10 then [Digit(n)] else NatToString(n / 10) + [Digit(n % 10)]
  }

  function Digit(d: nat): (c: char)
    requires d < 10
    ensures '0' <= c <= '9'
  {
    (48 + d) as char
  }

  /** Reads a string of decimal digits back as a number. */
  function ParseDecimal(s: string): nat
    requires forall i :: 0 <= i < |s| ==> '0' <= s[i] <= '9'
    decreases |s|
  {
    if s == [] then 0 else ParseDecimal(s[..|s| - 1]) * 10 + (s[|s| - 1] as int - 48)
  }

  /** The decimal text reads back as the number written. */
  lemma {:induction false} ParseNatToString(n: nat)
    ensures ParseDecimal(NatToString(n)) == n
    decreases n
  {
    if n >= 10 {
      ParseNatToString(n / 10);
      var s := NatToString(n);
      assert s[..|s| - 1] == NatToString(n / 10);
    }
  }

  /** `write_to_file`'s output name: "placeholder" or the empty name become
      "<number of alternatives>_hypothesesMatched.root". */
  function OutputFileName(outFile: string, numHypos: nat): (name: string)
    ensures outFile != "placeholder" && outFile != "" ==> name == outFile
    ensures outFile == "placeholder" || outFile == "" ==>
              |name| > |MATCHED_SUFFIX| && name[|name| - |MATCHED_SUFFIX|..] == MATCHED_SUFFIX
  {
    if outFile == "placeholder" || outFile == "" then NatToString(numHypos) + MATCHED_SUFFIX else outFile
  }

  /** The default name gives back the number of alternatives. */
  lemma DefaultNameRecoversCount(outFile: string, numHypos: nat)
    requires outFile == "placeholder" || outFile == ""
    ensures var name := OutputFileName(outFile, numHypos);
            var digits := name[..|name| - |MATCHED_SUFFIX|];
            (forall i :: 0 <= i < |digits| ==> '0' <= digits[i] <= '9') && ParseDecimal(digits) == numHypos
  {
    var name := OutputFileName(outFile, numHypos);
    assert name[..|name| - |MATCHED_SUFFIX|] == NatToString(numHypos);
    ParseNatToString(numHypos);
  }

  /** The name of the column added for an alternative tree. */
  function BranchName(treeName: string): (b: string)
    ensures |b| == |treeName| + |BRANCH_SUFFIX| && b[..|treeName|] == treeName && b[|treeName|..] == BRANCH_SUFFIX
  {
    treeName + BRANCH_SUFFIX
  }
}
