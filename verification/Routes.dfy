/**
 * Swap routes: read from CSV rows in both directions, split into single swaps, and hydrated with verified parameters.
 */
module Routes {

  const ARROW := " >> "
  const UNDEFINED := "undefined"

  datatype Swap = Swap(tokenIn: string, pool: string, out: string)

  datatype Route = Route(display: string, tokenIn: string, out: string, swaps: seq<Swap>)

  function Join(cells: seq<string>): string {
    if cells == [] then ""
    else if |cells| == 1 then cells[0]
    else Join(cells[..|cells| - 1]) + ARROW + cells[|cells| - 1]
  }

  function SwapsOf(row: seq<string>): seq<Swap> {
    if |row| < 3 then [] else
      var n := |row|;
      SwapsOf(row[..n - 2]) + [Swap(row[n - 3], row[n - 2], row[n - 1])]
  }

  /** Reading past the end of a row gives `undefined`; a row of even length is read one cell too far. */
  function Cell(row: seq<string>, i: nat): string {
    if i < |row| then row[i] else UNDEFINED
  }

  function Padded(row: seq<string>): seq<string> {
    if |row| > 0 && |row| % 2 == 0 then row + [UNDEFINED] else row
  }

  /** The route of a row. */
  function RouteOf(row: seq<string>): Route {
    var cells := Padded(row);
    Route(if |cells| < 3 then "" else Join(cells), Cell(row, 0),
          if row == [] then UNDEFINED else row[|row| - 1], SwapsOf(cells))
  }

  /** `display.slice(0, display.length - 4)`. */
  function DropArrow(s: string): string {
    if |s| < 4 then "" else s[..|s| - 4]
  }

  lemma PrefixOfSwaps(cells: seq<string>, i: nat)
    requires i + 2 < |cells|
    ensures SwapsOf(cells[..i + 3]) == SwapsOf(cells[..i + 1]) + [Swap(cells[i], cells[i + 1], cells[i + 2])]
    ensures Join(cells[..i + 3]) == Join(cells[..i + 1]) + ARROW + cells[i + 1] + ARROW + cells[i + 2]
  {
    var three := cells[..i + 3];
    assert three[..i + 1] == cells[..i + 1] && three[..i + 2] == cells[..i + 2];
    assert cells[..i + 2][..i + 1] == cells[..i + 1];
  }

  /** What the loop has shown after the first i + 1 cells. */
  function Shown(cells: seq<string>, i: nat): string
    requires i < |cells|
  {
    if i == 0 then "" else Join(cells[..i + 1]) + ARROW
  }

  lemma ShownNext(cells: seq<string>, i: nat)
    requires i + 2 < |cells|
    ensures i == 0 ==>
              Shown(cells, 2) == cells[0] + ARROW + cells[1] + ARROW + cells[2] + ARROW && SwapsOf(cells[..1]) == []
    ensures i > 0 ==> Shown(cells, i + 2) == Shown(cells, i) + (cells[i + 1] + ARROW + cells[i + 2] + ARROW)
  {
    PrefixOfSwaps(cells, i);
    if i == 0 {
      assert cells[..1] == [cells[0]];
    } else {
      var j := Join(cells[..i + 1]);
      assert j + ARROW + cells[i + 1] + ARROW + cells[i + 2] + ARROW ==
             j + ARROW + (cells[i + 1] + ARROW + cells[i + 2] + ARROW);
    }
  }

  lemma ShownAll(cells: seq<string>)
    requires cells != []
    ensures DropArrow(Shown(cells, |cells| - 1)) == if |cells| == 1 then "" else Join(cells)
  {
    hide Join;
    assert cells[..|cells| - 1 + 1] == cells;
    DropWhatWasAdded(Join(cells));
  }

  lemma DropWhatWasAdded(s: string)
    ensures DropArrow(s + ARROW) == s
  {
    assert (s + ARROW)[..|s|] == s;
  }

  /** `_formatRoutesFromCSV`. */
  method FormatRoute(row: seq<string>) returns (r: Route)
    ensures r == RouteOf(row)
  {
    hide Join, SwapsOf, Shown, DropArrow;
    ghost var cells := Padded(row);
    var steps: seq<Swap>, display: string, i := [], "", 0;
    EmptyRoute(cells);
    while i < |row| - 1
      invariant i % 2 == 0 && 0 <= i <= |row| && (i == 0 || i < |cells|)
      invariant i < |cells| ==> steps == SwapsOf(cells[..i + 1]) && display == Shown(cells, i)
      invariant cells == [] ==> steps == [] && display == ""
    {
      var tokenIn, pool, out := Cell(row, i), Cell(row, i + 1), Cell(row, i + 2);
      assert cells[i] == tokenIn && cells[i + 1] == pool && cells[i + 2] == out;
      PrefixOfSwaps(cells, i);
      ShownNext(cells, i);
      if i == 0 {
        display := tokenIn + ARROW + pool + ARROW + out + ARROW;
      } else {
        display := display + (pool + ARROW + out + ARROW);
      }
      steps := steps + [Swap(tokenIn, pool, out)];
      i := i + 2;
    }
    if cells != [] {
      assert cells[..i + 1] == cells;
      ShownAll(cells);
    }
    r := Route(DropArrow(display), Cell(row, 0), if |row| == 0 then UNDEFINED else row[|row| - 1], steps);
  }

  lemma EmptyRoute(cells: seq<string>)
    ensures DropArrow("") == "" && SwapsOf([]) == []
    ensures cells != [] ==> SwapsOf(cells[..1]) == [] && Shown(cells, 0) == ""
  {
  }

  // ---------------------------------------------------------------- round trip and chain

  /** The row that a list of swaps came from. */
  function Flatten(swaps: seq<Swap>): seq<string> {
    if swaps == [] then [] else
      var s := swaps[|swaps| - 1];
      (if |swaps| == 1 then [s.tokenIn] else Flatten(swaps[..|swaps| - 1])) + [s.pool, s.out]
  }

  lemma {:induction false} SwapsChain(row: seq<string>)
    requires |row| % 2 == 1
    ensures 2 * |SwapsOf(row)| + 1 == |row|
    ensures forall i :: 0 <= i < |SwapsOf(row)| ==> SwapsOf(row)[i] == Swap(row[2 * i], row[2 * i + 1], row[2 * i + 2])
    decreases |row|
  {
    if |row| >= 3 {
      SwapsChain(row[..|row| - 2]);
    }
  }

  lemma FlattenAppend(swaps: seq<Swap>, s: Swap)
    ensures Flatten(swaps + [s]) == (if swaps == [] then [s.tokenIn] else Flatten(swaps)) + [s.pool, s.out]
  {
    assert (swaps + [s])[..|swaps|] == swaps;
  }

  lemma {:induction false} FlattenSwaps(row: seq<string>)
    requires |row| % 2 == 1 && |row| >= 3
    ensures Flatten(SwapsOf(row)) == row
    decreases |row|
  {
    var n := |row|;
    var head, s := row[..n - 2], Swap(row[n - 3], row[n - 2], row[n - 1]);
    SwapsChain(head);
    FlattenAppend(SwapsOf(head), s);
    hide Flatten;
    if n == 3 {
      assert row == [row[0]] + [row[1], row[2]];
    } else {
      FlattenSwaps(head);
      assert row == head + [row[n - 2], row[n - 1]];
    }
  }

  /** Every row of odd length can be read back from its swaps, unless it is a single cell, which makes no swap. */
  lemma RoundTrip(row: seq<string>)
    requires |row| % 2 == 1
    ensures Flatten(SwapsOf(row)) == row <==> |row| != 1
  {
    if |row| >= 3 {
      FlattenSwaps(row);
    } else {
      assert SwapsOf(row) == [] && Flatten([]) == [];
    }
  }

  /** Each swap starts where the one before it ended. */
  lemma Chained(row: seq<string>, i: nat)
    requires |row| % 2 == 1 && i + 1 < |SwapsOf(row)|
    ensures SwapsOf(row)[i].out == SwapsOf(row)[i + 1].tokenIn
  {
    SwapsChain(row);
  }

  /**
   * A route leads from the first cell of its row to the last, by swaps of every second cell through the one between;
   * a row of even length is read one cell too far, and its last swap ends nowhere.
   */
  lemma RouteEnds(row: seq<string>)
    requires row != []
    ensures RouteOf(row).tokenIn == row[0] && RouteOf(row).out == row[|row| - 1]
    ensures |RouteOf(row).swaps| == |row| / 2
    ensures forall i :: 0 <= i < |row| / 2 ==>
              RouteOf(row).swaps[i] == Swap(row[2 * i], row[2 * i + 1], Cell(row, 2 * i + 2))
  {
    hide Join;
    SwapsChain(Padded(row));
  }

  function Reversed<T>(s: seq<T>): seq<T> {
    seq(|s|, i requires 0 <= i < |s| => s[|s| - 1 - i])
  }

  function Flip(s: Swap): Swap {
    Swap(s.out, s.pool, s.tokenIn)
  }

  /** The reversed row is the same chain of swaps, last to first, each the other way round. */
  lemma ReverseChain(row: seq<string>)
    requires |row| % 2 == 1
    ensures |SwapsOf(Reversed(row))| == |SwapsOf(row)|
    ensures forall i :: 0 <= i < |SwapsOf(row)| ==>
              SwapsOf(Reversed(row))[i] == Flip(SwapsOf(row)[|SwapsOf(row)| - 1 - i])
    ensures RouteOf(Reversed(row)).tokenIn == RouteOf(row).out && RouteOf(Reversed(row)).out == RouteOf(row).tokenIn
  {
    SwapsChain(row);
    SwapsChain(Reversed(row));
  }

  // ---------------------------------------------------------------- both directions of every row

  /** `row.reverse()`, in place. */
  method ReverseInPlace(row: array<string>)
    modifies row
    ensures row[..] == Reversed(old(row[..]))
  {
    var n, i := row.Length, 0;
    while i < n / 2
      invariant 0 <= i <= n / 2
      invariant forall k :: 0 <= k < i ==> row[k] == old(row[n - 1 - k]) && row[n - 1 - k] == old(row[k])
      invariant forall k :: i <= k < n - i ==> row[k] == old(row[k])
    {
      row[i], row[n - 1 - i] := row[n - 1 - i], row[i];
      i := i + 1;
    }
    assert forall k :: 0 <= k < n ==> row[..][k] == Reversed(old(row[..]))[k];
  }

  /** The routes of rows: each read forwards for liquidations and backwards for leverage. */
  function BothWays(rows: seq<seq<string>>): seq<Route> {
    if rows == [] then [] else
      var row := rows[|rows| - 1];
      BothWays(rows[..|rows| - 1]) + [RouteOf(row), RouteOf(Reversed(row))]
  }

  ghost function Contents(rows: seq<array<string>>): seq<seq<string>>
    reads rows
  {
    seq(|rows|, i requires 0 <= i < |rows| reads rows => rows[i][..])
  }

  lemma BothWaysAppend(rows: seq<seq<string>>, i: nat)
    requires i < |rows|
    ensures BothWays(rows[..i + 1]) == BothWays(rows[..i]) + [RouteOf(rows[i]), RouteOf(Reversed(rows[i]))]
  {
    assert rows[..i + 1][..i] == rows[..i];
  }

  /** One row, forwards and then, reversed in place, backwards. */
  method LoadRow(row: array<string>) returns (forwards: Route, backwards: Route)
    modifies row
    ensures forwards == RouteOf(old(row[..])) && backwards == RouteOf(Reversed(old(row[..])))
    ensures row[..] == Reversed(old(row[..]))
  {
    hide RouteOf, Reversed;
    forwards := FormatRoute(row[..]);
    ReverseInPlace(row);
    backwards := FormatRoute(row[..]);
  }

  /** `loadRoutesFromCSV`; it leaves every row of its input reversed. */
  method LoadRoutes(csv: seq<array<string>>) returns (routes: seq<Route>)
    requires forall i, j :: 0 <= i < j < |csv| ==> csv[i] != csv[j]
    modifies csv
    ensures routes == BothWays(old(Contents(csv)))
    ensures forall i :: 0 <= i < |csv| ==> csv[i][..] == Reversed(old(Contents(csv))[i])
  {
    routes := [];
    ghost var rows := Contents(csv);
    hide RouteOf, Reversed;
    var i := 0;
    while i < |csv|
      invariant 0 <= i <= |csv| == |rows| && routes == BothWays(rows[..i])
      invariant forall k :: 0 <= k < i ==> csv[k][..] == Reversed(rows[k])
      invariant forall k :: i <= k < |csv| ==> csv[k][..] == rows[k]
    {
      var forwards, backwards := LoadRow(csv[i]);
      BothWaysAppend(rows, i);
      routes := routes + [forwards, backwards];
      i := i + 1;
    }
    assert rows[..i] == rows;
  }
}
