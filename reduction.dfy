/** The best-candidate reduction: one forward pass over the rows of a tree that
    keeps, per key, the row with the lowest chi-square, replacing a stored entry
    only when a later row is strictly better. */
module Reduction {
  import opened Records

  /** The two tree subclasses: best combo per event, best combo per (event, beam). */
  datatype Scheme = ByEvent | ByEventAndBeam

  /** The beam ID the by-event pass pairs with every event ID before asking
      `contains_event_id`. */
  const PLACEHOLDER_BEAM_ID: uint32 := 1851

  function EventKey(c: Combo): uint64 { c.event }
  function EventBeamKey(c: Combo): BeamKey { (c.event, c.beam) }

  /** `contains_event_id`: with the beam flag off only the event component of the
      pair is looked up, in the by-event map; with it on the whole pair is looked
      up in the per-beam map. */
  function ContainsEventId(matchByBeam: bool, eventMap: map<uint64, Combo>,
                           beamMap: map<BeamKey, Combo>, key: BeamKey): (b: bool)
    ensures !matchByBeam ==> (b <==> key.0 in eventMap)
    ensures matchByBeam ==> (b <==> key in beamMap)
  {
    if !matchByBeam then key.0 in eventMap else key in beamMap
  }

  /** One iteration of `filter_high_chi_sq_events` for row `row` with key `k`, where
      `present` is what `contains_event_id` answered. When the key is reported
      present the entry is read through `operator[]`, which inserts `Zero` if the
      key is in fact missing; the row then replaces the entry only if the entry's
      chi-square is strictly greater. */
  function Absorb<K>(m: map<K, Combo>, k: K, row: Combo, present: bool): (r: map<K, Combo>)
    ensures r.Keys == m.Keys + {k}
    ensures forall j :: j in m && j != k ==> r[j] == m[j]
    ensures !present ==> r[k] == row
    ensures present ==> r[k] == if Lookup(m, k).chiSq > row.chiSq then row else Lookup(m, k)
  {
    if !present then m[k := WriteFields(Lookup(m, k), row)]
    else
      var held := Lookup(m, k);
      if held.chiSq > row.chiSq then m[k := WriteFields(held, row)] else m[k := held]
  }

  /** The reduction as intended: `contains_event_id` answers for the very map
      being filled, under the key function `key`. */
  function Best<K>(m: map<K, Combo>, rows: seq<Combo>, key: Combo -> K): map<K, Combo>
    decreases |rows|
  {
    if rows == [] then m
    else
      var prev := Best(m, rows[..|rows| - 1], key);
      var r := rows[|rows| - 1];
      Absorb(prev, key(r), r, key(r) in prev)
  }

  /** `hypothesis_tree_best_combo::filter_high_chi_sq_events` as written, over the
      rows in order, starting from `m`; `beamMap` is the tree's per-beam map, which
      this pass never writes but `contains_event_id` consults when the flag is on. */
  function BestComboPass(matchByBeam: bool, m: map<uint64, Combo>,
                         beamMap: map<BeamKey, Combo>, rows: seq<Combo>): (r: map<uint64, Combo>)
    ensures m.Keys <= r.Keys
    ensures forall j :: j in m && j !in KeysOf(rows, EventKey) ==> r[j] == m[j]
    decreases |rows|
  {
    if rows == [] then m
    else
      KeysOfSnoc(rows, EventKey);
      var prev := BestComboPass(matchByBeam, m, beamMap, rows[..|rows| - 1]);
      var r := rows[|rows| - 1];
      Absorb(prev, r.event, r,
             ContainsEventId(matchByBeam, prev, beamMap, (r.event, PLACEHOLDER_BEAM_ID)))
  }

  /** `hypothesis_tree_best_per_beam::filter_high_chi_sq_events` as written;
      `eventMap` is the tree's by-event map, consulted when the flag is off. */
  function BestPerBeamPass(matchByBeam: bool, eventMap: map<uint64, Combo>,
                           m: map<BeamKey, Combo>, rows: seq<Combo>): (r: map<BeamKey, Combo>)
    ensures m.Keys <= r.Keys
    ensures forall j :: j in m && j !in KeysOf(rows, EventBeamKey) ==> r[j] == m[j]
    decreases |rows|
  {
    if rows == [] then m
    else
      KeysOfSnoc(rows, EventBeamKey);
      var prev := BestPerBeamPass(matchByBeam, eventMap, m, rows[..|rows| - 1]);
      var r := rows[|rows| - 1];
      Absorb(prev, (r.event, r.beam), r,
             ContainsEventId(matchByBeam, eventMap, prev, (r.event, r.beam)))
  }

  /** One more row of the by-event pass is one more `Absorb`. */
  lemma BestComboPassStep(matchByBeam: bool, m: map<uint64, Combo>, beamMap: map<BeamKey, Combo>,
                          rows: seq<Combo>, i: int)
    requires 0 <= i < |rows|
    ensures var prev := BestComboPass(matchByBeam, m, beamMap, rows[..i]);
            BestComboPass(matchByBeam, m, beamMap, rows[..i + 1])
            == Absorb(prev, rows[i].event, rows[i],
                      ContainsEventId(matchByBeam, prev, beamMap, (rows[i].event, PLACEHOLDER_BEAM_ID)))
  {
    assert rows[..i + 1][..i] == rows[..i];
  }

  /** One more row of the per-beam pass is one more `Absorb`. */
  lemma BestPerBeamPassStep(matchByBeam: bool, eventMap: map<uint64, Combo>, m: map<BeamKey, Combo>,
                            rows: seq<Combo>, i: int)
    requires 0 <= i < |rows|
    ensures var prev := BestPerBeamPass(matchByBeam, eventMap, m, rows[..i]);
            BestPerBeamPass(matchByBeam, eventMap, m, rows[..i + 1])
            == Absorb(prev, (rows[i].event, rows[i].beam), rows[i],
                      ContainsEventId(matchByBeam, eventMap, prev, (rows[i].event, rows[i].beam)))
  {
    assert rows[..i + 1][..i] == rows[..i];
  }

  /** Row `j` is the earliest row holding the minimal chi-square among the rows
      with its key. */
  ghost predicate FirstMinimal<K>(rows: seq<Combo>, key: Combo -> K, j: int)
  {
    && 0 <= j < |rows|
    && (forall i :: 0 <= i < |rows| && key(rows[i]) == key(rows[j]) ==> rows[j].chiSq <= rows[i].chiSq)
    && (forall i :: 0 <= i < j && key(rows[i]) == key(rows[j]) ==> rows[j].chiSq < rows[i].chiSq)
  }

  /** The keys of the rows under `key`. */
  function KeysOf<K>(rows: seq<Combo>, key: Combo -> K): set<K>
  {
    set i | 0 <= i < |rows| :: key(rows[i])
  }

  lemma KeysOfSnoc<K>(rows: seq<Combo>, key: Combo -> K)
    requires rows != []
    ensures KeysOf(rows, key) == KeysOf(rows[..|rows| - 1], key) + {key(rows[|rows| - 1])}
  {
    var n := |rows| - 1;
    forall k | k in KeysOf(rows, key) ensures k in KeysOf(rows[..n], key) + {key(rows[n])} {
      var i :| 0 <= i < |rows| && key(rows[i]) == k;
      if i < n { assert key(rows[..n][i]) == k; }
    }
    forall k | k in KeysOf(rows[..n], key) ensures k in KeysOf(rows, key) {
      var i :| 0 <= i < n && key(rows[..n][i]) == k;
      assert key(rows[i]) == k;
    }
  }

  /** The reduction adds exactly the keys of the rows: one entry per distinct key. */
  lemma {:induction false} BestKeys<K>(m: map<K, Combo>, rows: seq<Combo>, key: Combo -> K)
    ensures Best(m, rows, key).Keys == m.Keys + KeysOf(rows, key)
    decreases |rows|
  {
    if rows != [] {
      BestKeys(m, rows[..|rows| - 1], key);
      KeysOfSnoc(rows, key);
    }
  }

  /** A first-minimal row stays first-minimal when a row is appended that has
      another key or a chi-square no lower. */
  lemma FirstMinimalKept<K>(pre: seq<Combo>, r: Combo, key: Combo -> K, j: int)
    requires FirstMinimal(pre, key, j)
    requires key(r) == key(pre[j]) ==> pre[j].chiSq <= r.chiSq
    ensures FirstMinimal(pre + [r], key, j)
  {
    var rows := pre + [r];
    assert forall i :: 0 <= i < |pre| ==> rows[i] == pre[i];
  }

  /** An appended row is first-minimal when every earlier row of its key is
      strictly worse (or there is none). */
  lemma FirstMinimalNew<K>(pre: seq<Combo>, r: Combo, key: Combo -> K)
    requires forall i :: 0 <= i < |pre| && key(pre[i]) == key(r) ==> r.chiSq < pre[i].chiSq
    ensures FirstMinimal(pre + [r], key, |pre|)
  {
    var rows := pre + [r];
    assert forall i :: 0 <= i < |pre| ==> rows[i] == pre[i];
  }

  /** From an empty map, the entry for each key is the row of that key that comes
      first among those of minimal chi-square: all five fields come from that one
      row. */
  lemma {:induction false} BestWinner<K>(rows: seq<Combo>, key: Combo -> K, k: K)
    requires k in Best(map[], rows, key)
    ensures exists j :: FirstMinimal(rows, key, j) && key(rows[j]) == k && Best(map[], rows, key)[k] == rows[j]
    decreases |rows|
  {
    var n := |rows| - 1;
    var pre := rows[..n];
    var r := rows[n];
    assert rows == pre + [r];
    var prev := Best(map[], pre, key);
    assert Best(map[], rows, key) == Absorb(prev, key(r), r, key(r) in prev);
    if k != key(r) {
      BestWinner(pre, key, k);
      var j :| FirstMinimal(pre, key, j) && key(pre[j]) == k && prev[k] == pre[j];
      FirstMinimalKept(pre, r, key, j);
      assert rows[j] == pre[j];
    } else if k !in prev {
      BestKeys(map[], pre, key);
      assert forall i :: 0 <= i < n ==> key(pre[i]) in KeysOf(pre, key);
      FirstMinimalNew(pre, r, key);
    } else {
      BestWinner(pre, key, k);
      var j :| FirstMinimal(pre, key, j) && key(pre[j]) == k && prev[k] == pre[j];
      if prev[k].chiSq > r.chiSq {
        FirstMinimalNew(pre, r, key);
      } else {
        FirstMinimalKept(pre, r, key, j);
        assert rows[j] == pre[j];
      }
    }
  }

  /** Minimality: no row of a key has a chi-square below the stored entry's. */
  lemma BestIsMinimal<K>(rows: seq<Combo>, key: Combo -> K, i: int)
    requires 0 <= i < |rows|
    ensures key(rows[i]) in Best(map[], rows, key)
    ensures Best(map[], rows, key)[key(rows[i])].chiSq <= rows[i].chiSq
  {
    BestKeys(map[], rows, key);
    assert key(rows[i]) in KeysOf(rows, key);
    BestWinner(rows, key, key(rows[i]));
    var j :| FirstMinimal(rows, key, j) && key(rows[j]) == key(rows[i])
             && Best(map[], rows, key)[key(rows[i])] == rows[j];
  }

  /** Tie-break: of two rows with the same key and the same chi-square, the later
      one is never the stored entry unless an earlier row equals it field for
      field (the replacement test is a strict `>`). */
  lemma TieKeepsEarlier<K>(rows: seq<Combo>, key: Combo -> K, i: int, j: int)
    requires 0 <= i < j < |rows|
    requires key(rows[i]) == key(rows[j]) && rows[i].chiSq == rows[j].chiSq
    ensures key(rows[j]) in Best(map[], rows, key)
    ensures Best(map[], rows, key)[key(rows[j])] == rows[j] ==> exists h :: 0 <= h < j && rows[h] == rows[j]
  {
    BestKeys(map[], rows, key);
    assert key(rows[j]) in KeysOf(rows, key);
    BestWinner(rows, key, key(rows[j]));
    var w :| FirstMinimal(rows, key, w) && key(rows[w]) == key(rows[j]) && Best(map[], rows, key)[key(rows[j])] == rows[w];
    if Best(map[], rows, key)[key(rows[j])] == rows[j] {
      assert w < j;
    }
  }

  /** The stored entry for a key is a row of that key. */
  lemma BestEntryKey<K>(rows: seq<Combo>, key: Combo -> K, k: K)
    requires k in Best(map[], rows, key)
    ensures key(Best(map[], rows, key)[k]) == k
  {
    BestWinner(rows, key, k);
  }

  /** Over rows with pairwise distinct keys the reduction keeps every row. */
  lemma DistinctKeptWhole<K>(vals: seq<Combo>, key: Combo -> K, t: int)
    requires forall s, u :: 0 <= s < u < |vals| ==> key(vals[s]) != key(vals[u])
    requires 0 <= t < |vals|
    ensures key(vals[t]) in Best(map[], vals, key) && Best(map[], vals, key)[key(vals[t])] == vals[t]
  {
    BestKeys(map[], vals, key);
    assert key(vals[t]) in KeysOf(vals, key);
    BestWinner(vals, key, key(vals[t]));
  }

  /** Idempotence: reducing the reduced table, listed one entry per key in any
      order, gives the reduced table back. */
  lemma BestIdempotent<K>(rows: seq<Combo>, key: Combo -> K, vals: seq<Combo>)
    requires forall s, u :: 0 <= s < u < |vals| ==> key(vals[s]) != key(vals[u])
    requires forall t :: 0 <= t < |vals| ==>
               key(vals[t]) in Best(map[], rows, key) && Best(map[], rows, key)[key(vals[t])] == vals[t]
    requires forall k :: k in Best(map[], rows, key) ==> exists t :: 0 <= t < |vals| && key(vals[t]) == k
    ensures Best(map[], vals, key) == Best(map[], rows, key)
  {
    var once, twice := Best(map[], rows, key), Best(map[], vals, key);
    BestKeys(map[], vals, key);
    assert twice.Keys == once.Keys;
    forall k | k in twice ensures twice[k] == once[k] {
      var t :| 0 <= t < |vals| && key(vals[t]) == k;
      DistinctKeptWhole(vals, key, t);
    }
  }

  /** With the flag off, the by-event pass is the intended reduction keyed by event. */
  lemma {:induction false} BestComboPassIsBest(m: map<uint64, Combo>, beamMap: map<BeamKey, Combo>, rows: seq<Combo>)
    ensures BestComboPass(false, m, beamMap, rows) == Best(m, rows, EventKey)
    decreases |rows|
  {
    if rows != [] {
      BestComboPassIsBest(m, beamMap, rows[..|rows| - 1]);
    }
  }

  /** With the flag on, the per-beam pass is the intended reduction keyed by (event, beam). */
  lemma {:induction false} BestPerBeamPassIsBest(eventMap: map<uint64, Combo>, m: map<BeamKey, Combo>, rows: seq<Combo>)
    ensures BestPerBeamPass(true, eventMap, m, rows) == Best(m, rows, EventBeamKey)
    decreases |rows|
  {
    if rows != [] {
      BestPerBeamPassIsBest(eventMap, m, rows[..|rows| - 1]);
    }
  }

  /** Whatever `contains_event_id` answers, the by-event pass leaves an entry for
      the event of every row, and adds no other key. */
  lemma {:induction false} BestComboPassKeys(matchByBeam: bool, m: map<uint64, Combo>,
                                             beamMap: map<BeamKey, Combo>, rows: seq<Combo>)
    ensures BestComboPass(matchByBeam, m, beamMap, rows).Keys == m.Keys + KeysOf(rows, EventKey)
    decreases |rows|
  {
    if rows != [] {
      BestComboPassKeys(matchByBeam, m, beamMap, rows[..|rows| - 1]);
      KeysOfSnoc(rows, EventKey);
    }
  }

  /** The same for the per-beam pass and its (event, beam) keys. */
  lemma {:induction false} BestPerBeamPassKeys(matchByBeam: bool, eventMap: map<uint64, Combo>,
                                               m: map<BeamKey, Combo>, rows: seq<Combo>)
    ensures BestPerBeamPass(matchByBeam, eventMap, m, rows).Keys == m.Keys + KeysOf(rows, EventBeamKey)
    decreases |rows|
  {
    if rows != [] {
      BestPerBeamPassKeys(matchByBeam, eventMap, m, rows[..|rows| - 1]);
      KeysOfSnoc(rows, EventBeamKey);
    }
  }

  /** A by-event tree whose beam flag has been switched on asks the (unwritten)
      per-beam map, never finds the key, and so keeps the LAST row of each event
      rather than the best one. */
  lemma {:induction false} BeamFlagOnByEventKeepsLast(m: map<uint64, Combo>, beamMap: map<BeamKey, Combo>,
                                                      rows: seq<Combo>, i: int)
    requires forall j :: 0 <= j < |rows| ==> (rows[j].event, PLACEHOLDER_BEAM_ID) !in beamMap
    requires 0 <= i < |rows|
    requires forall j :: i < j < |rows| ==> rows[j].event != rows[i].event
    ensures rows[i].event in BestComboPass(true, m, beamMap, rows)
    ensures BestComboPass(true, m, beamMap, rows)[rows[i].event] == rows[i]
    decreases |rows|
  {
    var n := |rows| - 1;
    if i < n {
      BeamFlagOnByEventKeepsLast(m, beamMap, rows[..n], i);
    }
  }
}
