/** Cross-hypothesis matching: every key of the primary tree's reduced map is
    looked up in an alternative tree's reduced map, and a hit whose run IDs agree
    records the alternative's chi-square / ndf. */
module Matching {
  import opened Records

  /** The match map one alternative yields against the primary map. */
  function MatchMap<K>(primary: map<K, Combo>, alt: map<K, Combo>): map<K, Quotient>
  {
    map k | k in primary && k in alt && alt[k].run == primary[k].run :: Quality(alt[k])
  }

  /** One match map per alternative, in the alternatives' order. */
  function MatchMaps<K>(primary: map<K, Combo>, alts: seq<map<K, Combo>>): seq<map<K, Quotient>>
  {
    seq(|alts|, i requires 0 <= i < |alts| => MatchMap(primary, alts[i]))
  }

  /** The number of entries of all match maps together. */
  function TotalMatches<K>(primary: map<K, Combo>, alts: seq<map<K, Combo>>): nat
    decreases |alts|
  {
    if alts == [] then 0
    else TotalMatches(primary, alts[..|alts| - 1]) + |MatchMap(primary, alts[|alts| - 1])|
  }

  /** The body of `find_matches` for one alternative: walks the primary map,
      accepts a key found in the alternative's map only when the two run IDs are
      equal (beam IDs are not compared), stores the alternative's quality and bumps
      the 32-bit match counter once per accepted key. */
  method MatchAgainst<K>(primary: map<K, Combo>, alt: map<K, Combo>, matches: uint32)
    returns (matchMap: map<K, Quotient>, count: uint32)
    ensures forall k :: k in matchMap <==> k in primary && k in alt && alt[k].run == primary[k].run
    ensures forall k :: k in matchMap ==> matchMap[k] == Quality(alt[k])
    ensures count == Advance(matches, |matchMap|)
  {
    matchMap := map[];
    count := matches;
    var todo := primary.Keys;
    while todo != {}
      invariant todo <= primary.Keys
      invariant forall k :: k in matchMap <==> k in primary && k !in todo && k in alt && alt[k].run == primary[k].run
      invariant forall k :: k in matchMap ==> matchMap[k] == Quality(alt[k])
      invariant count == Advance(matches, |matchMap|)
      decreases todo
    {
      var k :| k in todo;
      if k in alt {
        var altCombo := alt[k];
        if altCombo.run == primary[k].run {
          assert k !in matchMap;
          ghost var before := |matchMap|;
          matchMap := matchMap[k := Quality(altCombo)];
          assert |matchMap| == before + 1;
          assert Advance(matches, before + 1) == Increment(Advance(matches, before));
          count := Increment(count);
        }
      }
      todo := todo - {k};
    }
  }

  /** The loop of `find_matches` over the alternatives, in order: one match map
      each, the counter carried from one to the next. */
  method MatchAll<K>(primary: map<K, Combo>, alts: seq<map<K, Combo>>, matches: uint32)
    returns (maps: seq<map<K, Quotient>>, count: uint32)
    ensures maps == MatchMaps(primary, alts)
    ensures count == Advance(matches, TotalMatches(primary, alts))
  {
    maps := [];
    count := matches;
    for j := 0 to |alts|
      invariant maps == MatchMaps(primary, alts[..j])
      invariant count == Advance(matches, TotalMatches(primary, alts[..j]))
    {
      var matchMap, next := MatchAgainst(primary, alts[j], count);
      MatchAllStep(primary, alts, j, matches, matchMap);
      maps := maps + [matchMap];
      count := next;
    }
    assert alts[..|alts|] == alts;
  }

  /** One more alternative: the map `MatchAgainst` returns extends the prefix,
      and its count extends the total. */
  lemma MatchAllStep<K>(primary: map<K, Combo>, alts: seq<map<K, Combo>>, j: int, matches: uint32,
                        matchMap: map<K, Quotient>)
    requires 0 <= j < |alts|
    requires forall k :: k in matchMap <==> k in primary && k in alts[j] && alts[j][k].run == primary[k].run
    requires forall k :: k in matchMap ==> matchMap[k] == Quality(alts[j][k])
    ensures MatchMaps(primary, alts[..j + 1]) == MatchMaps(primary, alts[..j]) + [matchMap]
    ensures Advance(Advance(matches, TotalMatches(primary, alts[..j])), |matchMap|)
            == Advance(matches, TotalMatches(primary, alts[..j + 1]))
  {
    MatchAgainstIsMatchMap(primary, alts[j], matchMap);
    MatchMapsSnoc(primary, alts, j);
    CountStep(matches, TotalMatches(primary, alts[..j]), |matchMap|, TotalMatches(primary, alts[..j + 1]));
  }

  lemma CountStep(matches: uint32, x: nat, y: nat, z: nat)
    requires z == x + y
    ensures Advance(Advance(matches, x), y) == Advance(matches, z)
  {
    AdvanceAdd(matches, x, y);
  }

  /** The map `MatchAgainst` returns is exactly `MatchMap`. */
  lemma MatchAgainstIsMatchMap<K>(primary: map<K, Combo>, alt: map<K, Combo>, matchMap: map<K, Quotient>)
    requires forall k :: k in matchMap <==> k in primary && k in alt && alt[k].run == primary[k].run
    requires forall k :: k in matchMap ==> matchMap[k] == Quality(alt[k])
    ensures matchMap == MatchMap(primary, alt)
  {
  }

  /** A primary key matches in an alternative iff it is there with the same run ID;
      the beam IDs of the two entries play no part. */
  lemma MatchIgnoresBeam<K>(primary: map<K, Combo>, alt: map<K, Combo>, k: K, b: uint32)
    requires k in primary && k in alt
    ensures k in MatchMap(primary, alt) <==> k in MatchMap(primary, alt[k := alt[k].(beam := b)])
  {
  }

  /** Map i depends on alternative i alone: changing any other alternative leaves it as it is. */
  lemma MatchMapsIndependent<K>(primary: map<K, Combo>, alts: seq<map<K, Combo>>, j: int, other: map<K, Combo>, i: int)
    requires 0 <= i < |alts| && 0 <= j < |alts| && i != j
    ensures MatchMaps(primary, alts[j := other])[i] == MatchMaps(primary, alts)[i]
  {
  }

  /** Appending an alternative appends its match map and adds its size to the total. */
  lemma MatchMapsSnoc<K>(primary: map<K, Combo>, alts: seq<map<K, Combo>>, n: int)
    requires 0 <= n < |alts|
    ensures MatchMaps(primary, alts[..n + 1]) == MatchMaps(primary, alts[..n]) + [MatchMap(primary, alts[n])]
    ensures TotalMatches(primary, alts[..n + 1]) == TotalMatches(primary, alts[..n]) + |MatchMap(primary, alts[n])|
  {
    assert alts[..n + 1][..n] == alts[..n];
  }
}
