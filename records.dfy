/** Record types shared by both revisions: fixed-width identifiers, the fit
    candidate record (`combo`) and the quality quotient chi-square / ndf. */
module Records {

  const TWO_TO_32: int := 0x1_0000_0000
  const TWO_TO_64: int := 0x1_0000_0000_0000_0000

  /** C++ `unsigned long long`. */
  newtype uint64 = x: int | 0 <= x < 0x1_0000_0000_0000_0000
  /** C++ `unsigned int` / `unsigned` / `uint`. */
  newtype uint32 = x: int | 0 <= x < 0x1_0000_0000

  /** Key of the per-beam scheme: (event ID, beam ID). */
  type BeamKey = (uint64, uint32)

  /** Conversion of an `unsigned long long` to `unsigned int`: keeps the low 32 bits. */
  function Truncate(e: uint64): (t: uint32)
    ensures e as int < TWO_TO_32 ==> t as int == e as int
  {
    Low32(e as int) as uint32
  }

  /** The low 32 bits of `e`, by repeated subtraction of 2^32. */
  function Low32(e: nat): (r: nat)
    ensures r < TWO_TO_32
    ensures e < TWO_TO_32 ==> r == e
    decreases e
  {
    if e < TWO_TO_32 then e else Low32(e - TWO_TO_32)
  }

  lemma {:induction false} Low32Mod(e: nat)
    ensures Low32(e) == e % TWO_TO_32
    decreases e
  {
    if e >= TWO_TO_32 {
      Low32Mod(e - TWO_TO_32);
    }
  }

  /** The conversion is reduction modulo 2^32. */
  lemma TruncateIsMod(e: uint64)
    ensures Truncate(e) as int == e as int % TWO_TO_32
  {
    Low32Mod(e as int);
  }

  /** Increment of a 32-bit unsigned counter, wrapping at 2^32. */
  function Increment(n: uint32): (r: uint32)
    ensures n as int < TWO_TO_32 - 1 ==> r as int == n as int + 1
    ensures n as int == TWO_TO_32 - 1 ==> r == 0
  {
    if n as int == TWO_TO_32 - 1 then 0 else n + 1
  }

  /** `n` increments of a 32-bit counter starting at `m`. */
  function Advance(m: uint32, n: nat): uint32
    decreases n
  {
    if n == 0 then m else Increment(Advance(m, n - 1))
  }

  /** Advancing by x and then by y is advancing by x + y. */
  lemma {:induction false} AdvanceAdd(m: uint32, x: nat, y: nat)
    ensures Advance(Advance(m, x), y) == Advance(m, x + y)
    decreases y
  {
    if y > 0 {
      AdvanceAdd(m, x, y - 1);
    }
  }

  lemma ModSucc(a: int)
    requires 0 <= a
    ensures (a + 1) % TWO_TO_32 == if a % TWO_TO_32 == TWO_TO_32 - 1 then 0 else a % TWO_TO_32 + 1
  {
    var q, r := a / TWO_TO_32, a % TWO_TO_32;
    assert a == q * TWO_TO_32 + r;
    if r == TWO_TO_32 - 1 {
      assert a + 1 == (q + 1) * TWO_TO_32;
    } else {
      assert a + 1 == q * TWO_TO_32 + (r + 1);
    }
  }

  /** The counter after n increments is the start plus n, modulo 2^32. */
  lemma {:induction false} AdvanceWraps(m: uint32, n: nat)
    ensures Advance(m, n) as int == (m as int + n) % TWO_TO_32
    decreases n
  {
    if n > 0 {
      AdvanceWraps(m, n - 1);
      IncrementMod(Advance(m, n - 1), m as int + n - 1);
    }
  }

  /** A counter holding a mod 2^32 holds a + 1 mod 2^32 after one increment. */
  lemma IncrementMod(x: uint32, a: int)
    requires 0 <= a && x as int == a % TWO_TO_32
    ensures Increment(x) as int == (a + 1) % TWO_TO_32
  {
    ModSucc(a);
  }

  /** One fit candidate: the five columns of one row. */
  datatype Combo = Combo(event: uint64, run: uint32, beam: uint32, chiSq: real, ndf: uint32)
  {
    function SetChiSq(x: real): (c: Combo)
      ensures c.chiSq == x
      ensures c.event == event && c.run == run && c.beam == beam && c.ndf == ndf
    {
      this.(chiSq := x)
    }

    function SetEvent(e: uint64): (c: Combo)
      ensures c.event == e
      ensures c.run == run && c.beam == beam && c.chiSq == chiSq && c.ndf == ndf
    {
      this.(event := e)
    }

    function SetRun(r: uint32): (c: Combo)
      ensures c.run == r
      ensures c.event == event && c.beam == beam && c.chiSq == chiSq && c.ndf == ndf
    {
      this.(run := r)
    }

    function SetBeam(b: uint32): (c: Combo)
      ensures c.beam == b
      ensures c.event == event && c.run == run && c.chiSq == chiSq && c.ndf == ndf
    {
      this.(beam := b)
    }

    function SetNdf(n: uint32): (c: Combo)
      ensures c.ndf == n
      ensures c.event == event && c.run == run && c.beam == beam && c.chiSq == chiSq
    {
      this.(ndf := n)
    }
  }

  /** The rows of a tree, read off its five parallel column vectors. */
  function RowsOf(events: seq<uint64>, runs: seq<uint32>, beams: seq<uint32>,
                  chiSqs: seq<real>, ndfs: seq<uint32>): (rows: seq<Combo>)
    requires |runs| == |events| && |beams| == |events| && |chiSqs| == |events| && |ndfs| == |events|
    ensures |rows| == |events|
    ensures forall i :: 0 <= i < |rows| ==>
              rows[i] == Combo(events[i], runs[i], beams[i], chiSqs[i], ndfs[i])
  {
    seq(|events|, i requires 0 <= i < |events| => Combo(events[i], runs[i], beams[i], chiSqs[i], ndfs[i]))
  }

  /** The five column vectors a tree reads from its file. */
  datatype Columns = Columns(events: seq<uint64>, runs: seq<uint32>, beams: seq<uint32>,
                             chiSqs: seq<real>, ndfs: seq<uint32>)
  {
    /** One entry per row in every column. */
    predicate WellFormed()
    {
      |runs| == |events| && |beams| == |events| && |chiSqs| == |events| && |ndfs| == |events|
    }

    function Rows(): (rows: seq<Combo>)
      requires WellFormed()
      ensures |rows| == |events|
    {
      RowsOf(events, runs, beams, chiSqs, ndfs)
    }
  }

  /** The value `std::map::operator[]` inserts for a missing key: a value-initialised
      `combo`, every field zero. */
  const Zero: Combo := Combo(0, 0, 0, 0.0, 0)

  /** What `update_combo_data` does to the entry `held`: the five setters in the order the
      source calls them. Every field is written, so the old entry leaves no trace. */
  function WriteFields(held: Combo, row: Combo): (c: Combo)
    ensures c == row
  {
    held.SetChiSq(row.chiSq).SetEvent(row.event).SetRun(row.run).SetBeam(row.beam).SetNdf(row.ndf)
  }

  /** The 32-bit float quotient `chi_sq / ndf`: finite when ndf is positive, and an
      infinity or NaN (not distinguished here) when ndf is zero. */
  datatype Quotient = Finite(value: real) | NonFinite

  function Quality(c: Combo): (q: Quotient)
    ensures c.ndf > 0 ==> q == Finite(c.chiSq / c.ndf as real)
    ensures c.ndf == 0 <==> q == NonFinite
  {
    if c.ndf == 0 then NonFinite else Finite(c.chiSq / c.ndf as real)
  }

  /** Looks a key up the way `operator[]` reads it: a missing key reads as `Zero`. */
  function Lookup<K>(m: map<K, Combo>, k: K): (c: Combo)
    ensures k in m ==> c == m[k]
    ensures k !in m ==> c == Zero
  {
    if k in m then m[k] else Zero
  }
}
