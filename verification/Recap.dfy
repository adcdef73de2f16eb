/** The compensation recap: LP custody layers, credits in CVG, and the pro rata TAN split. */
module Recap {
  import opened Numbers
  import opened Ledger

  datatype Row = Row(address: Address, lp: nat)

  /** One snapshot file: its rows, and the entries of earlier layers that its rows break down. */
  datatype Layer = Layer(rows: seq<Row>, parents: seq<Entry>)

  /** An address in a layer. */
  datatype Entry = Entry(layer: nat, address: Address)

  /** Contracts that hold LP for others, and protocol owned holders. */
  datatype Kinds = Kinds(inter: set<Address>, pod: set<Address>)

  /** `cvg` in the pool, and the `supply` of its LP token. */
  datatype LpPool = LpPool(cvg: nat, supply: Positive)

  type Column = nat
  type Credits = map<(Address, Column), nat>
  type Breakdown = map<(Address, Column, nat), nat>

  /** The dictionaries of the script, and the two accumulators of `addLp`. */
  datatype Tally = Tally(recap: Credits, lp: Breakdown, leaves: nat, pod: nat)

  function Worth(pool: LpPool, lp: nat): nat {
    Product3(lp, pool.cvg, 1);
    Div(lp * pool.cvg, pool.supply)
  }

  /** The body of `addLp`'s inner loop. */
  function Count(k: Kinds, c: Column, pool: LpPool, layer: nat, t: Tally, r: Row): Tally {
    if r.address in k.inter then t else
      var own, key := (r.address, c, layer), (r.address, c);
      var s := t.(lp := t.lp[own := Get(t.lp, own) + r.lp]);
      if r.address in k.pod then s.(pod := s.pod + r.lp)
      else s.(leaves := s.leaves + r.lp, recap := s.recap[key := Get(s.recap, key) + Worth(pool, r.lp)])
  }

  function CountRows(k: Kinds, c: Column, pool: LpPool, layer: nat, t: Tally, rows: seq<Row>): Tally {
    if rows == [] then t else
      Count(k, c, pool, layer, CountRows(k, c, pool, layer, t, rows[..|rows| - 1]), rows[|rows| - 1])
  }

  function CountLayers(k: Kinds, c: Column, pool: LpPool, t: Tally, layers: seq<Layer>): Tally {
    if layers == [] then t else
      var n := |layers| - 1;
      CountRows(k, c, pool, n, CountLayers(k, c, pool, t, layers[..n]), layers[n].rows)
  }

  lemma CountRowsNext(k: Kinds, c: Column, pool: LpPool, layer: nat, t: Tally, rows: seq<Row>, j: nat)
    requires j < |rows|
    ensures CountRows(k, c, pool, layer, t, rows[..j + 1]) ==
            Count(k, c, pool, layer, CountRows(k, c, pool, layer, t, rows[..j]), rows[j])
  {
    assert rows[..j + 1][..j] == rows[..j];
  }

  lemma NoRows(k: Kinds, c: Column, pool: LpPool, layer: nat, t: Tally, rows: seq<Row>)
    ensures CountRows(k, c, pool, layer, t, rows[..0]) == t
  {
  }

  lemma CountLayersNext(k: Kinds, c: Column, pool: LpPool, t: Tally, layers: seq<Layer>, i: nat)
    requires i < |layers|
    ensures CountLayers(k, c, pool, t, layers[..i + 1]) ==
            CountRows(k, c, pool, i, CountLayers(k, c, pool, t, layers[..i]), layers[i].rows)
  {
    assert layers[..i + 1][..i] == layers[..i];
  }

  // ---------------------------------------------------------------- the script

  class Script {
    var recap: Credits
    var lpRecap: Breakdown

    constructor ()
      ensures recap == map[] && lpRecap == map[]
    {
      recap, lpRecap := map[], map[];
    }

    /** `add`: a negative amount is an assertion failure. */
    method Add(column: Column, address: Address, amount: int) returns (ok: bool)
      modifies this`recap
      ensures ok == (amount >= 0)
      ensures recap ==
        if ok then old(recap)[(address, column) := Get(old(recap), (address, column)) + amount] else old(recap)
    {
      ok := amount >= 0;
      if ok {
        recap := recap[(address, column) := Get(recap, (address, column)) + amount];
      }
    }

    /** The rows of one layer in `addLp`. */
    method AddRows(k: Kinds, column: Column, pool: LpPool, layer: nat, rows: seq<Row>, leaves: nat, pod: nat)
      returns (leaves': nat, pod': nat)
      modifies this`recap, this`lpRecap
      ensures Tally(recap, lpRecap, leaves', pod') ==
              CountRows(k, column, pool, layer, Tally(old(recap), old(lpRecap), leaves, pod), rows)
    {
      ghost var t := Tally(recap, lpRecap, leaves, pod);
      NoRows(k, column, pool, layer, t, rows);
      hide CountRows, Worth;
      leaves', pod' := leaves, pod;
      var j := 0;
      while j < |rows|
        invariant 0 <= j <= |rows|
        invariant Tally(recap, lpRecap, leaves', pod') == CountRows(k, column, pool, layer, t, rows[..j])
      {
        var r := rows[j];
        CountRowsNext(k, column, pool, layer, t, rows, j);
        if r.address !in k.inter {
          var own := (r.address, column, layer);
          lpRecap := lpRecap[own := Get(lpRecap, own) + r.lp];
          if r.address in k.pod {
            pod' := pod' + r.lp;
          } else {
            leaves' := leaves' + r.lp;
            var _ := Add(column, r.address, Worth(pool, r.lp));
          }
        }
        j := j + 1;
      }
      assert rows[..j] == rows;
    }

    /** `addLp`; it fails when the leaves do not match the supply. */
    method AddLp(k: Kinds, column: Column, pool: LpPool, layers: seq<Layer>) returns (ok: bool)
      modifies this`recap, this`lpRecap
      ensures
        var t := CountLayers(k, column, pool, Tally(old(recap), old(lpRecap), 0, 0), layers);
        recap == t.recap && lpRecap == t.lp && ok == (t.leaves + t.pod == pool.supply)
    {
      ghost var t0 := Tally(recap, lpRecap, 0, 0);
      var leaves: nat, pod: nat, i := 0, 0, 0;
      assert CountLayers(k, column, pool, t0, layers[..0]) == t0;
      hide CountRows, CountLayers;
      while i < |layers|
        invariant 0 <= i <= |layers|
        invariant Tally(recap, lpRecap, leaves, pod) == CountLayers(k, column, pool, t0, layers[..i])
      {
        leaves, pod := AddRows(k, column, pool, i, layers[i].rows, leaves, pod);
        CountLayersNext(k, column, pool, t0, layers, i);
        i := i + 1;
      }
      assert layers[..i] == layers;
      ok := leaves + pod == pool.supply;
    }
  }

  // ---------------------------------------------------------------- custody

  function SumRows(rows: seq<Row>): nat {
    if rows == [] then 0 else SumRows(rows[..|rows| - 1]) + rows[|rows| - 1].lp
  }

  /** What intermediaries hold in a layer; it is broken down in later layers. */
  function HeldForOthers(k: Kinds, rows: seq<Row>): nat {
    if rows == [] then 0 else
      var r := rows[|rows| - 1];
      HeldForOthers(k, rows[..|rows| - 1]) + if r.address in k.inter then r.lp else 0
  }

  function SumLayers(layers: seq<Layer>): nat {
    if layers == [] then 0 else SumLayers(layers[..|layers| - 1]) + SumRows(layers[|layers| - 1].rows)
  }

  function AllHeldForOthers(k: Kinds, layers: seq<Layer>): nat {
    if layers == [] then 0
    else AllHeldForOthers(k, layers[..|layers| - 1]) + HeldForOthers(k, layers[|layers| - 1].rows)
  }

  /** `lpOf`: the first row with the address. */
  function LpOf(rows: seq<Row>, a: Address): nat {
    if rows == [] then 0 else if rows[0].address == a then rows[0].lp else LpOf(rows[1..], a)
  }

  function EntryLp(layers: seq<Layer>, e: Entry): nat {
    if e.layer < |layers| then LpOf(layers[e.layer].rows, e.address) else 0
  }

  function SumEntries(layers: seq<Layer>, es: seq<Entry>): nat {
    if es == [] then 0 else SumEntries(layers, es[..|es| - 1]) + EntryLp(layers, es[|es| - 1])
  }

  function AllParents(layers: seq<Layer>): seq<Entry> {
    if layers == [] then [] else AllParents(layers[..|layers| - 1]) + layers[|layers| - 1].parents
  }

  /** The assertions before `addLp`: the first layer is the supply, every other layer sums to its parents' entries. */
  ghost predicate LayersMatch(layers: seq<Layer>, supply: nat) {
    && layers != [] && SumRows(layers[0].rows) == supply && layers[0].parents == []
    && forall i :: 1 <= i < |layers| ==> SumRows(layers[i].rows) == SumEntries(layers, layers[i].parents)
  }

  /** Intermediaries appear once per layer, and exactly as the parents of one later layer. */
  ghost predicate OnlyAsParents(k: Kinds, layers: seq<Layer>) {
    && Distinct(AllParents(layers))
    && (forall e :: e in AllParents(layers) ==> e.layer < |layers| && e.address in k.inter)
    && (forall i, j :: 0 <= i < |layers| && 0 <= j < |layers[i].rows| && layers[i].rows[j].address in k.inter ==>
          Entry(i, layers[i].rows[j].address) in AllParents(layers))
    && (forall i, j, m :: 0 <= i < |layers| && 0 <= j < m < |layers[i].rows| && layers[i].rows[j].address in k.inter ==>
          layers[i].rows[j].address != layers[i].rows[m].address)
  }

  lemma {:induction false} RowsConserve(k: Kinds, c: Column, pool: LpPool, layer: nat, t: Tally, rows: seq<Row>)
    ensures
      var r := CountRows(k, c, pool, layer, t, rows);
      r.leaves + r.pod + HeldForOthers(k, rows) == t.leaves + t.pod + SumRows(rows)
  {
    if rows != [] {
      RowsConserve(k, c, pool, layer, t, rows[..|rows| - 1]);
    }
  }

  lemma {:induction false} LayersConserve(k: Kinds, c: Column, pool: LpPool, t: Tally, layers: seq<Layer>)
    ensures
      var r := CountLayers(k, c, pool, t, layers);
      r.leaves + r.pod + AllHeldForOthers(k, layers) == t.leaves + t.pod + SumLayers(layers)
  {
    if layers != [] {
      var n := |layers| - 1;
      LayersConserve(k, c, pool, t, layers[..n]);
      RowsConserve(k, c, pool, n, CountLayers(k, c, pool, t, layers[..n]), layers[n].rows);
    }
  }

  lemma {:induction false} SumEntriesAppend(layers: seq<Layer>, es: seq<Entry>, fs: seq<Entry>)
    ensures SumEntries(layers, es + fs) == SumEntries(layers, es) + SumEntries(layers, fs)
  {
    if fs == [] {
      assert es + fs == es;
    } else {
      assert (es + fs)[..|es + fs| - 1] == es + fs[..|fs| - 1];
      SumEntriesAppend(layers, es, fs[..|fs| - 1]);
    }
  }

  /** All layers together hold the supply once, and again whatever is broken down further. */
  lemma {:induction false} LayersAddUp(layers: seq<Layer>, supply: nat, i: nat)
    requires LayersMatch(layers, supply) && 1 <= i <= |layers|
    ensures SumLayers(layers[..i]) == supply + SumEntries(layers, AllParents(layers[..i]))
  {
    assert layers[..i][..i - 1] == layers[..i - 1];
    SumEntriesAppend(layers, AllParents(layers[..i - 1]), layers[i - 1].parents);
    if i == 1 {
      assert AllParents(layers[..1]) == [];
    } else {
      LayersAddUp(layers, supply, i - 1);
    }
  }

  // The same sums, collected by entry.

  function ParentMap(layers: seq<Layer>, es: seq<Entry>): map<Entry, nat> {
    if es == [] then map[] else ParentMap(layers, es[..|es| - 1])[es[|es| - 1] := EntryLp(layers, es[|es| - 1])]
  }

  function HeldMap(k: Kinds, layer: nat, m: map<Entry, nat>, rows: seq<Row>): map<Entry, nat> {
    if rows == [] then m else
      var r, before := rows[|rows| - 1], HeldMap(k, layer, m, rows[..|rows| - 1]);
      if r.address in k.inter then before[Entry(layer, r.address) := r.lp] else before
  }

  function AllHeldMap(k: Kinds, layers: seq<Layer>): map<Entry, nat> {
    if layers == [] then map[] else
      HeldMap(k, |layers| - 1, AllHeldMap(k, layers[..|layers| - 1]), layers[|layers| - 1].rows)
  }

  lemma {:induction false} ParentMapSums(layers: seq<Layer>, es: seq<Entry>)
    requires Distinct(es)
    ensures Sum(ParentMap(layers, es)) == SumEntries(layers, es)
    ensures forall e :: e in ParentMap(layers, es) <==> e in es
    ensures forall e :: e in es ==> ParentMap(layers, es)[e] == EntryLp(layers, e)
  {
    if es == [] {
      SumZero(ParentMap(layers, es));
    } else {
      var n := |es| - 1;
      ParentMapSums(layers, es[..n]);
      assert es == es[..n] + [es[n]];
      assert es[n] !in es[..n];
      SumPut(ParentMap(layers, es[..n]), es[n], EntryLp(layers, es[n]));
    }
  }

  ghost predicate OnceEach(k: Kinds, rows: seq<Row>) {
    forall j, m :: 0 <= j < m < |rows| && rows[j].address in k.inter ==> rows[j].address != rows[m].address
  }

  lemma {:induction false} LpOfAppend(rows: seq<Row>, r: Row, a: Address)
    ensures (forall j :: 0 <= j < |rows| ==> rows[j].address != a) ==>
              LpOf(rows, a) == 0 && LpOf(rows + [r], a) == if r.address == a then r.lp else 0
    ensures (exists j :: 0 <= j < |rows| && rows[j].address == a) ==> LpOf(rows + [r], a) == LpOf(rows, a)
  {
    if rows != [] {
      assert (rows + [r])[1..] == rows[1..] + [r];
      LpOfAppend(rows[1..], r, a);
      forall j | 0 <= j < |rows| && rows[j].address == a
        ensures rows[0].address == a || exists i :: 0 <= i < |rows[1..]| && rows[1..][i].address == a
      {
        assert j > 0 ==> rows[1..][j - 1].address == a;
      }
    } else {
      assert rows + [r] == [r];
    }
  }

  lemma {:induction false} HeldMapSums(k: Kinds, layer: nat, m: map<Entry, nat>, rows: seq<Row>)
    requires OnceEach(k, rows) && forall e :: e in m ==> e.layer != layer
    ensures Sum(HeldMap(k, layer, m, rows)) == Sum(m) + HeldForOthers(k, rows)
    ensures forall e: Entry :: e.layer != layer ==> Get(HeldMap(k, layer, m, rows), e) == Get(m, e)
    ensures forall e :: e in HeldMap(k, layer, m, rows) ==> e in m || e.layer == layer
    ensures forall a :: Get(HeldMap(k, layer, m, rows), Entry(layer, a)) == if a in k.inter then LpOf(rows, a) else 0
  {
    if rows != [] {
      var n := |rows| - 1;
      var r, before := rows[n], HeldMap(k, layer, m, rows[..n]);
      HeldMapSums(k, layer, m, rows[..n]);
      SumPut(before, Entry(layer, r.address), r.lp);
      assert rows == rows[..n] + [r];
      forall a | a in k.inter ensures LpOf(rows, a) == if r.address == a then r.lp else LpOf(rows[..n], a) {
        LpOfAppend(rows[..n], r, a);
      }
      if r.address in k.inter {
        LpOfAppend(rows[..n], r, r.address);
      }
    }
  }

  lemma {:induction false} AllHeldMapSums(k: Kinds, layers: seq<Layer>)
    requires forall i :: 0 <= i < |layers| ==> OnceEach(k, layers[i].rows)
    ensures Sum(AllHeldMap(k, layers)) == AllHeldForOthers(k, layers)
    ensures forall e :: e in AllHeldMap(k, layers) ==> e.layer < |layers|
    ensures forall e: Entry :: Get(AllHeldMap(k, layers), e) == if e.address in k.inter then EntryLp(layers, e) else 0
  {
    if layers == [] {
      SumZero(AllHeldMap(k, layers));
    } else {
      var n := |layers| - 1;
      AllHeldMapSums(k, layers[..n]);
      var m := AllHeldMap(k, layers[..n]);
      HeldMapSums(k, n, m, layers[n].rows);
      forall e: Entry ensures Get(AllHeldMap(k, layers), e) == if e.address in k.inter then EntryLp(layers, e) else 0 {
        if e.layer == n {
          assert e == Entry(n, e.address);
        } else {
          assert Get(m, e) == if e.address in k.inter then EntryLp(layers[..n], e) else 0;
          assert e.layer < n ==> layers[..n][e.layer] == layers[e.layer];
        }
      }
    }
  }

  lemma {:induction false} NoRow(rows: seq<Row>, a: Address)
    requires forall j :: 0 <= j < |rows| ==> rows[j].address != a
    ensures LpOf(rows, a) == 0
  {
    if rows != [] {
      forall j | 0 <= j < |rows[1..]| ensures rows[1..][j].address != a {
        assert rows[1..][j] == rows[j + 1];
      }
      NoRow(rows[1..], a);
    }
  }

  /** What intermediaries hold is exactly what the later layers break down. */
  lemma IntermediariesBrokenDown(k: Kinds, layers: seq<Layer>)
    requires OnlyAsParents(k, layers)
    ensures AllHeldForOthers(k, layers) == SumEntries(layers, AllParents(layers))
  {
    var es := AllParents(layers);
    AllHeldMapSums(k, layers);
    ParentMapSums(layers, es);
    forall e: Entry ensures Get(AllHeldMap(k, layers), e) == Get(ParentMap(layers, es), e) {
      if e !in es && e.address in k.inter && e.layer < |layers| {
        var rows := layers[e.layer].rows;
        forall j | 0 <= j < |rows| ensures rows[j].address != e.address {
          assert rows[j].address in k.inter ==> Entry(e.layer, rows[j].address) in es;
        }
        NoRow(rows, e.address);
      }
    }
    SumSame(AllHeldMap(k, layers), ParentMap(layers, es));
  }

  /**
   * For any snapshot whose layers each break down their parents' entries, with intermediaries appearing only as those
   * parents, leaves and protocol owned LP add up to the supply: the final assertion of `addLp` holds.
   */
  lemma EveryTokenCountedOnce(k: Kinds, c: Column, pool: LpPool, recap: Credits, lp: Breakdown, layers: seq<Layer>)
    requires LayersMatch(layers, pool.supply) && OnlyAsParents(k, layers)
    ensures
      var t := CountLayers(k, c, pool, Tally(recap, lp, 0, 0), layers);
      t.leaves + t.pod == pool.supply
  {
    LayersConserve(k, c, pool, Tally(recap, lp, 0, 0), layers);
    assert layers[..|layers|] == layers;
    LayersAddUp(layers, pool.supply, |layers|);
    IntermediariesBrokenDown(k, layers);
  }

  // ---------------------------------------------------------------- credits

  lemma WorthBounds(pool: LpPool, lp: nat)
    ensures Worth(pool, lp) * pool.supply <= lp * pool.cvg < Worth(pool, lp) * pool.supply + pool.supply
  {
    Product3(lp, pool.cvg, 1);
    DivBounds(lp * pool.cvg, pool.supply);
  }

  /** Credits never outrun the leaves they stand for. */
  ghost predicate Covered(pool: LpPool, before: Tally, t: Tally) {
    && before.leaves <= t.leaves && Sum(before.recap) <= Sum(t.recap)
    && (Sum(t.recap) - Sum(before.recap)) * pool.supply <= (t.leaves - before.leaves) * pool.cvg
  }

  lemma CoveredStep(credited: nat, leaves: nat, worth: nat, lp: nat, pool: LpPool)
    requires credited * pool.supply <= leaves * pool.cvg && worth * pool.supply <= lp * pool.cvg
    ensures (credited + worth) * pool.supply <= (leaves + lp) * pool.cvg
  {
    Distribute(credited, worth, pool.supply);
    Distribute(leaves, lp, pool.cvg);
  }

  lemma {:induction false} RowsCovered(k: Kinds, c: Column, pool: LpPool, layer: nat, before: Tally, t: Tally,
                                       rows: seq<Row>)
    requires Covered(pool, before, t)
    ensures Covered(pool, before, CountRows(k, c, pool, layer, t, rows))
  {
    hide Sum, Worth;
    if rows != [] {
      var n := |rows| - 1;
      RowsCovered(k, c, pool, layer, before, t, rows[..n]);
      var u, r := CountRows(k, c, pool, layer, t, rows[..n]), rows[n];
      SumPut(u.recap, (r.address, c), Get(u.recap, (r.address, c)) + Worth(pool, r.lp));
      WorthBounds(pool, r.lp);
      CoveredStep(Sum(u.recap) - Sum(before.recap), u.leaves - before.leaves, Worth(pool, r.lp), r.lp, pool);
    }
  }

  lemma {:induction false} LayersCovered(k: Kinds, c: Column, pool: LpPool, t: Tally, layers: seq<Layer>)
    ensures Covered(pool, t, CountLayers(k, c, pool, t, layers))
  {
    hide Sum;
    if layers != [] {
      var n := |layers| - 1;
      LayersCovered(k, c, pool, t, layers[..n]);
      RowsCovered(k, c, pool, n, t, CountLayers(k, c, pool, t, layers[..n]), layers[n].rows);
    }
  }

  /** Whenever `addLp` succeeds, the CVG it credits is at most the CVG in the pool. */
  lemma CreditsWithinPool(k: Kinds, c: Column, pool: LpPool, recap: Credits, lp: Breakdown, layers: seq<Layer>)
    requires
      var t := CountLayers(k, c, pool, Tally(recap, lp, 0, 0), layers);
      t.leaves + t.pod == pool.supply
    ensures
      var t := CountLayers(k, c, pool, Tally(recap, lp, 0, 0), layers);
      Sum(recap) <= Sum(t.recap) <= Sum(recap) + pool.cvg
  {
    hide Sum;
    var t := CountLayers(k, c, pool, Tally(recap, lp, 0, 0), layers);
    LayersCovered(k, c, pool, Tally(recap, lp, 0, 0), layers);
    MulMono(t.leaves, pool.supply, pool.cvg);
    Cancel(Sum(t.recap) - Sum(recap), pool.cvg, pool.supply);
  }

  // ---------------------------------------------------------------- per-layer floors against the floor per owner

  /** `totalLp` of an owner: the sum over the layers of the breakdown. */
  function TotalLp(lp: Breakdown, a: Address, c: Column, n: nat): nat {
    if n == 0 then 0 else TotalLp(lp, a, c, n - 1) + Get(lp, (a, c, n - 1))
  }

  function TimesIn(rows: seq<Row>, a: Address): nat {
    if rows == [] then 0 else TimesIn(rows[..|rows| - 1], a) + if rows[|rows| - 1].address == a then 1 else 0
  }

  function Times(layers: seq<Layer>, a: Address): nat {
    if layers == [] then 0 else Times(layers[..|layers| - 1], a) + TimesIn(layers[|layers| - 1].rows, a)
  }

  lemma {:induction false} TotalLpPut(lp: Breakdown, a: Address, c: Column, key: (Address, Column, nat), v: nat, n: nat)
    ensures TotalLp(lp[key := v], a, c, n) ==
      TotalLp(lp, a, c, n) + if key.0 == a && key.1 == c && key.2 < n then v - Get(lp, key) else 0
  {
    if n > 0 {
      TotalLpPut(lp, a, c, key, v, n - 1);
    }
  }

  /** An owner's credit trails the exact worth of their LP by less than one unit for each row. */
  ghost predicate Tracks(pool: LpPool, credit: int, lp: int, rows: nat) {
    credit * pool.supply <= lp * pool.cvg <= credit * pool.supply + rows * (pool.supply - 1)
  }

  lemma TracksStep(pool: LpPool, credit: int, lp: int, rows: nat, r: nat)
    requires Tracks(pool, credit, lp, rows)
    ensures Tracks(pool, credit + Worth(pool, r), lp + r, rows + 1)
  {
    WorthBounds(pool, r);
    Distribute(credit, Worth(pool, r), pool.supply);
    Distribute(lp, r, pool.cvg);
    Distribute(rows, 1, pool.supply - 1);
  }

  function CreditOf(t: Tally, a: Address, c: Column): nat {
    Get(t.recap, (a, c))
  }

  lemma {:induction false} RowsTrack(k: Kinds, c: Column, pool: LpPool, layer: nat, t: Tally, rows: seq<Row>,
                                     a: Address, n: nat, credit0: int, lp0: int, times: nat)
    requires a !in k.inter && a !in k.pod && layer < n
    requires Tracks(pool, CreditOf(t, a, c) - credit0, TotalLp(t.lp, a, c, n) - lp0, times)
    ensures
      var u := CountRows(k, c, pool, layer, t, rows);
      Tracks(pool, CreditOf(u, a, c) - credit0, TotalLp(u.lp, a, c, n) - lp0, times + TimesIn(rows, a))
  {
    hide Tracks, Worth;
    if rows != [] {
      var m := |rows| - 1;
      RowsTrack(k, c, pool, layer, t, rows[..m], a, n, credit0, lp0, times);
      var u, r := CountRows(k, c, pool, layer, t, rows[..m]), rows[m];
      TotalLpPut(u.lp, a, c, (r.address, c, layer), Get(u.lp, (r.address, c, layer)) + r.lp, n);
      if r.address == a {
        TracksStep(pool, CreditOf(u, a, c) - credit0, TotalLp(u.lp, a, c, n) - lp0, times + TimesIn(rows[..m], a),
                   r.lp);
      }
    }
  }

  lemma {:induction false} LayersTrack(k: Kinds, c: Column, pool: LpPool, t: Tally, layers: seq<Layer>, a: Address,
                                       n: nat)
    requires a !in k.inter && a !in k.pod && |layers| <= n
    ensures
      var u := CountLayers(k, c, pool, t, layers);
      Tracks(pool, CreditOf(u, a, c) - CreditOf(t, a, c), TotalLp(u.lp, a, c, n) - TotalLp(t.lp, a, c, n),
             Times(layers, a))
  {
    if layers != [] {
      hide Tracks;
      var m := |layers| - 1;
      LayersTrack(k, c, pool, t, layers[..m], a, n);
      RowsTrack(k, c, pool, m, CountLayers(k, c, pool, t, layers[..m]), layers[m].rows, a, n,
                CreditOf(t, a, c), TotalLp(t.lp, a, c, n), Times(layers[..m], a));
    }
  }

  lemma {:induction false} OncePerLayer(layers: seq<Layer>, a: Address)
    requires forall i :: 0 <= i < |layers| ==> TimesIn(layers[i].rows, a) <= 1
    ensures Times(layers, a) <= |layers|
  {
    if layers != [] {
      OncePerLayer(layers[..|layers| - 1], a);
    }
  }

  /**
   * The credit of an owner, floored row by row, is at most the CVG of all their LP floored once, as the LP recap shows
   * it, and falls short of it by less than the number of layers.
   */
  lemma FloorsPerLayer(k: Kinds, c: Column, pool: LpPool, t: Tally, layers: seq<Layer>, a: Address)
    requires a !in k.inter && a !in k.pod && layers != []
    requires forall i :: 0 <= i < |layers| ==> TimesIn(layers[i].rows, a) <= 1
    requires TotalLp(t.lp, a, c, |layers|) == 0
    ensures
      var u := CountLayers(k, c, pool, t, layers);
      var credit, once := CreditOf(u, a, c) - CreditOf(t, a, c), Worth(pool, TotalLp(u.lp, a, c, |layers|));
      credit <= once < credit + |layers|
  {
    LayersTrack(k, c, pool, t, layers, a, |layers|);
    OncePerLayer(layers, a);
    var u := CountLayers(k, c, pool, t, layers);
    TracksWorth(pool, CreditOf(u, a, c) - CreditOf(t, a, c), TotalLp(u.lp, a, c, |layers|), Times(layers, a), |layers|);
  }

  lemma TracksWorth(pool: LpPool, credit: int, lp: nat, rows: nat, n: nat)
    requires Tracks(pool, credit, lp, rows) && rows <= n && n > 0
    ensures credit <= Worth(pool, lp) < credit + n
  {
    DivLower(lp * pool.cvg, pool.supply, credit);
    MulMono(rows, n, pool.supply - 1);
    Distribute(credit, n, pool.supply);
    assert n * (pool.supply - 1) == n * pool.supply - n;
    DivUpper(lp * pool.cvg, pool.supply, credit + n - 1);
  }

  /** All LP of an address in one layer. */
  function LpIn(rows: seq<Row>, a: Address): nat {
    if rows == [] then 0 else
      var r := rows[|rows| - 1];
      LpIn(rows[..|rows| - 1], a) + if r.address == a then r.lp else 0
  }

  lemma {:induction false} RowsRecord(k: Kinds, c: Column, pool: LpPool, layer: nat, t: Tally, rows: seq<Row>,
                                      a: Address, d: Column, i: nat)
    ensures
      var u := CountRows(k, c, pool, layer, t, rows);
      && Get(u.lp, (a, d, i)) ==
         Get(t.lp, (a, d, i)) + (if d == c && i == layer && a !in k.inter then LpIn(rows, a) else 0)
      && (d != c || a in k.inter || a in k.pod ==> CreditOf(u, a, d) == CreditOf(t, a, d))
  {
    if rows != [] {
      RowsRecord(k, c, pool, layer, t, rows[..|rows| - 1], a, d, i);
    }
  }

  /**
   * What the recap records: in each layer the LP that an address has there, unless it only holds for others; and
   * credits for neither intermediaries nor protocol owned holders, nor in any other column.
   */
  lemma {:induction false} LayersRecord(k: Kinds, c: Column, pool: LpPool, t: Tally, layers: seq<Layer>, a: Address,
                                        d: Column, i: nat)
    ensures
      var u := CountLayers(k, c, pool, t, layers);
      && Get(u.lp, (a, d, i)) ==
         Get(t.lp, (a, d, i)) + (if d == c && i < |layers| && a !in k.inter then LpIn(layers[i].rows, a) else 0)
      && (d != c || a in k.inter || a in k.pod ==> CreditOf(u, a, d) == CreditOf(t, a, d))
  {
    if layers != [] {
      var n := |layers| - 1;
      LayersRecord(k, c, pool, t, layers[..n], a, d, i);
      RowsRecord(k, c, pool, n, CountLayers(k, c, pool, t, layers[..n]), layers[n].rows, a, d, i);
    }
  }

  // ---------------------------------------------------------------- the TAN airdrop

  const MIN_TOKENS := WAD
  const TAN_AIRDROP: nat := 10_000_000 * WAD * 15 / 100

  function AboveDust(tokens: seq<nat>): seq<nat> {
    if tokens == [] then [] else
      AboveDust(tokens[..|tokens| - 1]) + if tokens[|tokens| - 1] >= MIN_TOKENS then [tokens[|tokens| - 1]] else []
  }

  function Tan(points: nat, total: Positive): nat {
    Product3(points, TAN_AIRDROP, 1);
    Div(points * TAN_AIRDROP, total)
  }

  function SumTan(points: seq<nat>, total: Positive): nat {
    if points == [] then 0 else SumTan(points[..|points| - 1], total) + Tan(points[|points| - 1], total)
  }

  lemma {:induction false} AboveDustAll(tokens: seq<nat>)
    ensures |AboveDust(tokens)| <= |tokens|
    ensures SumSeq(AboveDust(tokens)) >= MIN_TOKENS * |AboveDust(tokens)|
  {
    if tokens != [] {
      AboveDustAll(tokens[..|tokens| - 1]);
      var before, r := AboveDust(tokens[..|tokens| - 1]), AboveDust(tokens);
      assert r == before || r[..|r| - 1] == before;
    }
  }

  /** Rows of at least one whole token stay, as often as they occur; smaller ones go. */
  lemma {:induction false} AboveDustMeans(tokens: seq<nat>, v: nat)
    ensures multiset(AboveDust(tokens))[v] == if v >= WAD then multiset(tokens)[v] else 0
  {
    if tokens != [] {
      var k := |tokens| - 1;
      AboveDustMeans(tokens[..k], v);
      assert tokens == tokens[..k] + [tokens[k]];
    }
  }

  lemma {:induction false} SumTanBounds(points: seq<nat>, total: Positive)
    ensures SumTan(points, total) * total <= SumSeq(points) * TAN_AIRDROP <=
            SumTan(points, total) * total + |points| * (total - 1)
  {
    if points != [] {
      var n := |points| - 1;
      var before, sum, p := SumTan(points[..n], total), SumSeq(points[..n]), points[n];
      SumTanBounds(points[..n], total);
      TanStep(before, sum, p, total, n);
    }
  }

  lemma TanStep(before: nat, sum: nat, p: nat, total: Positive, n: nat)
    requires before * total <= sum * TAN_AIRDROP <= before * total + n * (total - 1)
    ensures (before + Tan(p, total)) * total <= (sum + p) * TAN_AIRDROP <=
            (before + Tan(p, total)) * total + (n + 1) * (total - 1)
  {
    Product3(p, TAN_AIRDROP, 1);
    DivBounds(p * TAN_AIRDROP, total);
    Distribute(before, Tan(p, total), total);
    Distribute(sum, p, TAN_AIRDROP);
    Distribute(n, 1, total - 1);
  }

  /** What is handed out in all; without rows nothing is divided. */
  function TanDistributed(tokens: seq<nat>): nat {
    var rows := AboveDust(tokens);
    AboveDustAll(tokens);
    if rows == [] then 0 else SumTan(rows, SumSeq(rows))
  }

  /**
   * Never more than the airdrop is handed out, and less than one unit for each row stays behind - if there is any row.
   */
  lemma TanSplit(tokens: seq<nat>)
    ensures TanDistributed(tokens) <= TAN_AIRDROP
    ensures TAN_AIRDROP - TanDistributed(tokens) < |AboveDust(tokens)| <==> AboveDust(tokens) != []
  {
    var rows := AboveDust(tokens);
    AboveDustAll(tokens);
    if rows != [] {
      SumTanBounds(rows, SumSeq(rows));
      TanWithin(SumTan(rows, SumSeq(rows)), SumSeq(rows), |rows|);
    }
  }

  lemma TanWithin(sum: nat, total: Positive, n: nat)
    requires n > 0 && sum * total <= total * TAN_AIRDROP <= sum * total + n * (total - 1)
    ensures sum <= TAN_AIRDROP < sum + n
  {
    Cancel(sum, TAN_AIRDROP, total);
    assert n * (total - 1) < n * total;
    Distribute(sum, n, total);
    if TAN_AIRDROP >= sum + n {
      MulMono(sum + n, TAN_AIRDROP, total);
    }
  }

  // ---------------------------------------------------------------- the two pools of the snapshot

  datatype Custodians = Custodians(gauge: Address, convex: Address, stakeDao: Address, sidecar: Address,
                                   blackhole: Address, wrapper: Address)

  function EthLayers(u: Custodians, lp: seq<Row>, gauge: seq<Row>, convex: seq<Row>, stakeDao: seq<Row>,
                     staking: seq<Row>): seq<Layer> {
    [Layer(lp, []), Layer(gauge, [Entry(0, u.gauge)]), Layer(convex, [Entry(1, u.convex)]),
     Layer(stakeDao, [Entry(1, u.stakeDao), Entry(2, u.sidecar)]), Layer(staking, [Entry(3, u.blackhole)])]
  }

  function FraxLayers(u: Custodians, lp: seq<Row>, gauge: seq<Row>, convex: seq<Row>, convexFrax: seq<Row>,
                      stakeDao: seq<Row>): seq<Layer> {
    [Layer(lp, []), Layer(gauge, [Entry(0, u.gauge)]), Layer(convex, [Entry(1, u.convex)]),
     Layer(convexFrax, [Entry(2, u.wrapper)]), Layer(stakeDao, [Entry(1, u.stakeDao)])]
  }

  lemma OneEntry(layers: seq<Layer>, e: Entry, f: Entry)
    ensures SumEntries(layers, [e]) == EntryLp(layers, e)
    ensures SumEntries(layers, [e, f]) == EntryLp(layers, e) + EntryLp(layers, f)
  {
    assert [e][..0] == [] && [e, f][..1] == [e];
  }

  /** The assertions of the script say exactly that the layers match. */
  lemma ScriptAssertions(u: Custodians, v: Custodians, a: seq<Row>, b: seq<Row>, d: seq<Row>, e: seq<Row>, f: seq<Row>,
                         supply: nat)
    ensures LayersMatch(EthLayers(u, a, b, d, e, f), supply) <==>
      && SumRows(a) == supply && SumRows(b) == LpOf(a, u.gauge) && SumRows(d) == LpOf(b, u.convex)
      && SumRows(e) == LpOf(b, u.stakeDao) + LpOf(d, u.sidecar) && SumRows(f) == LpOf(e, u.blackhole)
    ensures LayersMatch(FraxLayers(v, a, b, d, e, f), supply) <==>
      && SumRows(a) == supply && SumRows(b) == LpOf(a, v.gauge) && SumRows(d) == LpOf(b, v.convex)
      && SumRows(e) == LpOf(d, v.wrapper) && SumRows(f) == LpOf(b, v.stakeDao)
  {
    hide SumRows, SumEntries, LpOf;
    var eth, frax := EthLayers(u, a, b, d, e, f), FraxLayers(v, a, b, d, e, f);
    forall i | 1 <= i < 5 ensures
        && SumEntries(eth, eth[i].parents) == (if i == 3 then LpOf(b, u.stakeDao) + LpOf(d, u.sidecar)
             else if i == 1 then LpOf(a, u.gauge) else if i == 2 then LpOf(b, u.convex) else LpOf(e, u.blackhole))
        && SumEntries(frax, frax[i].parents) == (if i == 1 then LpOf(a, v.gauge) else if i == 2 then LpOf(b, v.convex)
             else if i == 3 then LpOf(d, v.wrapper) else LpOf(b, v.stakeDao)) {
      OneEntry(eth, eth[i].parents[0], Entry(2, u.sidecar));
      OneEntry(frax, frax[i].parents[0], frax[i].parents[0]);
    }
    assert eth[1].rows == b && eth[2].rows == d && eth[3].rows == e && eth[4].rows == f;
    assert frax[1].rows == b && frax[2].rows == d && frax[3].rows == e && frax[4].rows == f;
  }
}
