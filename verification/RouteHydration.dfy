/** Single swaps without repeats, and routes filled in with the addresses and parameters verified for each swap. */
module RouteHydration {
  import opened Numbers
  import opened Routes

  function Label(s: Swap): string {
    s.tokenIn + ARROW + s.pool + ARROW + s.out
  }

  // ---------------------------------------------------------------- single swaps

  /** A swap with its names resolved to addresses. */
  datatype NamedSwap = NamedSwap(tokenIn: string, pool: string, out: string, display: string)

  function Name(s: Swap, assets: string -> string): NamedSwap {
    NamedSwap(assets(s.tokenIn), assets(s.pool), assets(s.out), Label(s))
  }

  function AllSwaps(routes: seq<Route>): seq<Swap> {
    if routes == [] then [] else AllSwaps(routes[..|routes| - 1]) + routes[|routes| - 1].swaps
  }

  function Labels(swaps: seq<Swap>): set<string> {
    set s | s in swaps :: Label(s)
  }

  /** Each label once, in order of first appearance. */
  function Singles(swaps: seq<Swap>, assets: string -> string): seq<NamedSwap> {
    if swaps == [] then [] else
      var before, s := swaps[..|swaps| - 1], swaps[|swaps| - 1];
      if Label(s) in Labels(before) then Singles(before, assets) else Singles(before, assets) + [Name(s, assets)]
  }

  lemma SinglesAppend(swaps: seq<Swap>, s: Swap, assets: string -> string)
    ensures Labels(swaps + [s]) == Labels(swaps) + {Label(s)}
    ensures Singles(swaps + [s], assets) ==
            Singles(swaps, assets) + if Label(s) in Labels(swaps) then [] else [Name(s, assets)]
  {
    assert (swaps + [s])[..|swaps|] == swaps;
    LabelsAppend(swaps, s);
  }

  lemma LabelsAppend(swaps: seq<Swap>, s: Swap)
    ensures Labels(swaps + [s]) == Labels(swaps) + {Label(s)}
  {
    assert s in swaps + [s];
    forall t | t in swaps ensures t in swaps + [s] {
    }
  }

  /** The inner loop of `formatSingleSwaps`, over the swaps of one route. */
  method AddSwaps(done: seq<Swap>, singles: seq<NamedSwap>, seen: set<string>, swaps: seq<Swap>,
                  assets: string -> string)
    returns (singles': seq<NamedSwap>, seen': set<string>)
    requires singles == Singles(done, assets) && seen == Labels(done)
    ensures singles' == Singles(done + swaps, assets) && seen' == Labels(done + swaps)
  {
    hide Singles, Labels, Label;
    singles', seen' := singles, seen;
    var i := 0;
    assert done + swaps[..0] == done;
    while i < |swaps|
      invariant 0 <= i <= |swaps|
      invariant singles' == Singles(done + swaps[..i], assets) && seen' == Labels(done + swaps[..i])
    {
      var s := swaps[i];
      SinglesAppend(done + swaps[..i], s, assets);
      assert done + swaps[..i + 1] == done + swaps[..i] + [s];
      var display := Label(s);
      if display !in seen' {
        singles' := singles' + [NamedSwap(assets(s.tokenIn), assets(s.pool), assets(s.out), display)];
        seen' := seen' + {display};
      }
      i := i + 1;
    }
    assert done + swaps[..i] == done + swaps;
  }

  /** `formatSingleSwaps`. */
  method FormatSingleSwaps(routes: seq<Route>, assets: string -> string) returns (singles: seq<NamedSwap>)
    ensures singles == Singles(AllSwaps(routes), assets)
  {
    singles := [];
    var seen: set<string>, i := {}, 0;
    while i < |routes|
      invariant 0 <= i <= |routes|
      invariant singles == Singles(AllSwaps(routes[..i]), assets) && seen == Labels(AllSwaps(routes[..i]))
    {
      assert routes[..i + 1][..i] == routes[..i];
      singles, seen := AddSwaps(AllSwaps(routes[..i]), singles, seen, routes[i].swaps, assets);
      i := i + 1;
    }
    assert routes[..i] == routes;
  }

  ghost predicate Stands(s: NamedSwap, swaps: seq<Swap>, assets: string -> string) {
    exists t :: t in swaps && s == Name(t, assets)
  }

  /** No label is repeated, every swap's label is there, and nothing else is. */
  lemma {:induction false} SinglesCover(swaps: seq<Swap>, assets: string -> string)
    ensures forall i, j :: 0 <= i < j < |Singles(swaps, assets)| ==>
              Singles(swaps, assets)[i].display != Singles(swaps, assets)[j].display
    ensures forall d :: d in Labels(swaps) <==>
              exists i :: 0 <= i < |Singles(swaps, assets)| && Singles(swaps, assets)[i].display == d
    ensures forall i :: 0 <= i < |Singles(swaps, assets)| ==> Stands(Singles(swaps, assets)[i], swaps, assets)
  {
    if swaps != [] {
      var before, s := swaps[..|swaps| - 1], swaps[|swaps| - 1];
      SinglesCover(before, assets);
      assert swaps == before + [s];
      LabelsAppend(before, s);
      var r, r0 := Singles(swaps, assets), Singles(before, assets);
      forall i | 0 <= i < |r| ensures Stands(r[i], swaps, assets) {
        if i < |r0| {
          assert Stands(r0[i], before, assets);
        } else {
          assert r[i] == Name(s, assets) && s in swaps;
        }
      }
      forall d ensures d in Labels(swaps) <==> exists i :: 0 <= i < |r| && r[i].display == d {
        if d == Label(s) && d !in Labels(before) {
          assert r[|r0|].display == d;
        } else if d in Labels(before) {
          var i :| 0 <= i < |r0| && r0[i].display == d;
          assert r[i].display == d;
        }
      }
    }
  }

  ghost predicate NoArrow(name: string) {
    '>' !in name
  }

  lemma SplitAtArrow(a: string, r: string, b: string, s: string)
    requires NoArrow(a) && NoArrow(b) && a + ARROW + r == b + ARROW + s
    ensures a == b && r == s
  {
    var d := a + ARROW + r;
    assert d[|a| + 1] == '>' && d[|b| + 1] == '>';
    assert forall k :: 0 <= k < |a| ==> d[k] == a[k];
    assert forall k :: 0 <= k < |b| ==> d[k] == b[k];
    assert d[|a|] == ' ' && d[|b|] == ' ';
    assert |a| == |b|;
    assert a == d[..|a|] && b == d[..|b|];
    assert r == d[|a| + 4..] && s == d[|b| + 4..];
  }

  /** Labels tell swaps apart when no name holds the arrow's sign. */
  lemma LabelsDistinguish(s: Swap, t: Swap)
    requires NoArrow(s.tokenIn) && NoArrow(s.pool) && NoArrow(t.tokenIn) && NoArrow(t.pool) && Label(s) == Label(t)
    ensures s == t
  {
    assert Label(s) == s.tokenIn + ARROW + (s.pool + ARROW + s.out);
    assert Label(t) == t.tokenIn + ARROW + (t.pool + ARROW + t.out);
    SplitAtArrow(s.tokenIn, s.pool + ARROW + s.out, t.tokenIn, t.pool + ARROW + t.out);
    SplitAtArrow(s.pool, s.out, t.pool, t.out);
  }

  // ---------------------------------------------------------------- hydration

  const ZERO_ADDRESS := "0x0000000000000000000000000000000000000000"
  const ADDRESSES: nat := 11
  const PARAMS: nat := 5

  type SwapParams = seq<nat>

  function NoParams(): SwapParams {
    [0, 0, 0, 0, 0]
  }

  /** A single swap that was tried out, with the parameters that worked. */
  datatype Verified = Verified(swap: NamedSwap, params: SwapParams)

  datatype Hydrated = Hydrated(display: string, addresses: seq<string>, params: seq<SwapParams>)

  /** The first verified swap with a label. */
  function Find(verified: seq<Verified>, display: string): Option<Verified> {
    if verified == [] then None
    else if verified[0].swap.display == display then Some(verified[0])
    else Find(verified[1..], display)
  }

  function FindAll(verified: seq<Verified>, swaps: seq<Swap>): Option<seq<Verified>> {
    if swaps == [] then Some([]) else
      match FindAll(verified, swaps[..|swaps| - 1])
      case None => None
      case Some(found) =>
        match Find(verified, Label(swaps[|swaps| - 1]))
        case None => None
        case Some(v) => Some(found + [v])
  }

  function AddressesOf(found: seq<Verified>): seq<string> {
    if found == [] then [] else
      var s := found[|found| - 1].swap;
      (if |found| == 1 then [s.tokenIn] else AddressesOf(found[..|found| - 1])) + [s.pool, s.out]
  }

  function ParamsOf(found: seq<Verified>): seq<SwapParams> {
    seq(|found|, i requires 0 <= i < |found| => found[i].params)
  }

  function Pad<T>(s: seq<T>, n: nat, filler: T): seq<T> {
    if |s| >= n then s else s + seq(n - |s|, i => filler)
  }

  /** The hydrated form of a route; None when a swap was not verified, or there is none. */
  function HydratedOf(route: Route, verified: seq<Verified>): Option<Hydrated> {
    match FindAll(verified, route.swaps)
    case None => None
    case Some(found) =>
      if found == [] then None else
        Some(Hydrated(Join(Flatten(route.swaps)),
                      Pad(AddressesOf(found), ADDRESSES, ZERO_ADDRESS), Pad(ParamsOf(found), PARAMS, NoParams())))
  }

  method FindVerified(verified: seq<Verified>, display: string) returns (v: Option<Verified>)
    ensures v == Find(verified, display)
  {
    var i := 0;
    assert verified[0..] == verified;
    while i < |verified|
      invariant 0 <= i <= |verified| && Find(verified, display) == Find(verified[i..], display)
    {
      if verified[i].swap.display == display {
        return Some(verified[i]);
      }
      assert verified[i..][1..] == verified[i + 1..];
      i := i + 1;
    }
    return None;
  }

  /** The two padding loops. */
  method PadLoop<T>(s: seq<T>, n: nat, filler: T) returns (r: seq<T>)
    ensures r == Pad(s, n, filler)
  {
    r := s;
    while |r| < n
      invariant |s| <= |r| && r == s + seq(|r| - |s|, i => filler)
      invariant |r| <= Max(n, |s|)
    {
      r := r + [filler];
    }
  }

  lemma FindAllAppend(verified: seq<Verified>, swaps: seq<Swap>, s: Swap)
    ensures FindAll(verified, swaps + [s]) ==
      match FindAll(verified, swaps)
      case None => None
      case Some(found) => match Find(verified, Label(s)) case None => None case Some(v) => Some(found + [v])
  {
    assert (swaps + [s])[..|swaps|] == swaps;
  }

  /** A route is found whole or not at all; what is found are the first verified swaps with its labels. */
  lemma {:induction false} FindAllMeans(verified: seq<Verified>, swaps: seq<Swap>)
    ensures FindAll(verified, swaps).Some? <==> forall i :: 0 <= i < |swaps| ==> Find(verified, Label(swaps[i])).Some?
    ensures FindAll(verified, swaps).Some? ==>
      && |FindAll(verified, swaps).value| == |swaps|
      && forall i :: 0 <= i < |swaps| ==> Find(verified, Label(swaps[i])) == Some(FindAll(verified, swaps).value[i])
  {
    hide Label, Find;
    if swaps != [] {
      FindAllMeans(verified, swaps[..|swaps| - 1]);
      assert forall i :: 0 <= i < |swaps| - 1 ==> swaps[..|swaps| - 1][i] == swaps[i];
    }
  }

  lemma AddressesAppend(found: seq<Verified>, v: Verified)
    ensures AddressesOf(found + [v]) ==
            (if found == [] then [v.swap.tokenIn] else AddressesOf(found)) + [v.swap.pool, v.swap.out]
    ensures ParamsOf(found + [v]) == ParamsOf(found) + [v.params]
  {
    assert (found + [v])[..|found|] == found;
  }

  lemma JoinTwo(cells: seq<string>, pool: string, out: string)
    requires cells != []
    ensures Join(cells + [pool, out]) == Join(cells) + ARROW + pool + ARROW + out
  {
    var all := cells + [pool, out];
    assert all[..|all| - 1] == cells + [pool];
    assert (cells + [pool])[..|cells|] == cells;
  }

  /** The trail that the loop builds, with its last arrow. */
  function Trail(swaps: seq<Swap>): string {
    if swaps == [] then "" else Join(Flatten(swaps)) + ARROW
  }

  lemma TrailAppend(swaps: seq<Swap>, s: Swap)
    ensures swaps == [] ==> Trail(swaps + [s]) == Label(s) + ARROW
    ensures swaps != [] ==> Trail(swaps + [s]) == Trail(swaps) + (s.pool + ARROW + s.out + ARROW)
  {
    FlattenAppend(swaps, s);
    if swaps == [] {
      JoinTwo([s.tokenIn], s.pool, s.out);
    } else {
      JoinTwo(Flatten(swaps), s.pool, s.out);
      var j := Join(Flatten(swaps));
      assert j + ARROW + s.pool + ARROW + s.out + ARROW == j + ARROW + (s.pool + ARROW + s.out + ARROW);
    }
  }

  /** The body of `hydrateRawRoutes` for one route. */
  method HydrateRoute(route: Route, verified: seq<Verified>) returns (r: Option<Hydrated>)
    ensures r == HydratedOf(route, verified)
  {
    hide Label, Find, FindAll, AddressesOf, ParamsOf, Trail, Pad;
    var addresses: seq<string>, params: seq<SwapParams>, display: string := [], [], "";
    ghost var found: seq<Verified> := [];
    var i := 0;
    StartOfRoute(verified);
    while i < |route.swaps|
      invariant 0 <= i <= |route.swaps|
      invariant FindAll(verified, route.swaps[..i]) == Some(found) && |found| == i
      invariant addresses == AddressesOf(found) && params == ParamsOf(found) && display == Trail(route.swaps[..i])
    {
      var s := route.swaps[i];
      assert route.swaps[..i + 1] == route.swaps[..i] + [s];
      FindAllAppend(verified, route.swaps[..i], s);
      var v := FindVerified(verified, Label(s));
      if v.None? {
        MissingSwap(verified, route.swaps, i);
        return None;
      }
      AddressesAppend(found, v.value);
      TrailAppend(route.swaps[..i], s);
      if i == 0 {
        display := Label(s) + ARROW;
        addresses := addresses + [v.value.swap.tokenIn] + [v.value.swap.pool] + [v.value.swap.out];
        assert addresses == [v.value.swap.tokenIn] + [v.value.swap.pool, v.value.swap.out];
      } else {
        display := display + (s.pool + ARROW + s.out + ARROW);
        addresses := addresses + [v.value.swap.pool] + [v.value.swap.out];
        assert addresses == AddressesOf(found) + [v.value.swap.pool, v.value.swap.out];
      }
      params := params + [v.value.params];
      found := found + [v.value];
      i := i + 1;
    }
    assert route.swaps[..i] == route.swaps;
    TrailEnd(route.swaps);
    if display == "" {
      return None;
    }
    addresses := PadLoop(addresses, ADDRESSES, ZERO_ADDRESS);
    params := PadLoop(params, PARAMS, NoParams());
    r := Some(Hydrated(DropArrow(display), addresses, params));
  }

  lemma StartOfRoute(verified: seq<Verified>)
    ensures FindAll(verified, []) == Some([]) && AddressesOf([]) == [] && ParamsOf([]) == [] && Trail([]) == ""
  {
  }

  lemma MissingSwap(verified: seq<Verified>, swaps: seq<Swap>, i: nat)
    requires i < |swaps| && Find(verified, Label(swaps[i])).None?
    ensures FindAll(verified, swaps).None?
  {
    hide Label, Find;
    FindAllMeans(verified, swaps);
  }

  lemma TrailEnd(swaps: seq<Swap>)
    ensures Trail(swaps) == "" <==> swaps == []
    ensures swaps != [] ==> DropArrow(Trail(swaps)) == Join(Flatten(swaps))
  {
    hide Join, Flatten;
    DropWhatWasAdded(Join(Flatten(swaps)));
  }

  /** The token that enters the first swap, then the pool and the token of each swap in turn. */
  lemma {:induction false} AddressesAt(found: seq<Verified>)
    ensures |AddressesOf(found)| == if found == [] then 0 else 2 * |found| + 1
    ensures found != [] ==> AddressesOf(found)[0] == found[0].swap.tokenIn
    ensures forall i :: 0 <= i < |found| ==>
      AddressesOf(found)[2 * i + 1] == found[i].swap.pool && AddressesOf(found)[2 * i + 2] == found[i].swap.out
  {
    if found != [] {
      var n := |found| - 1;
      AddressesAt(found[..n]);
      forall i | 0 <= i < |found|
        ensures AddressesOf(found)[2 * i + 1] == found[i].swap.pool
        ensures AddressesOf(found)[2 * i + 2] == found[i].swap.out {
        if i < n {
          assert found[..n][i] == found[i];
          assert AddressesOf(found)[2 * i + 1] == AddressesOf(found[..n])[2 * i + 1];
          assert AddressesOf(found)[2 * i + 2] == AddressesOf(found[..n])[2 * i + 2];
        }
      }
    }
  }

  /** The i-th swap of a route as it was verified. */
  function VerifiedAt(verified: seq<Verified>, route: Route, i: nat): Option<Verified>
    requires i < |route.swaps|
  {
    Find(verified, Label(route.swaps[i]))
  }

  lemma PadAt<T>(s: seq<T>, n: nat, filler: T)
    ensures |Pad(s, n, filler)| == Max(n, |s|) && Pad(s, n, filler)[..|s|] == s
    ensures forall k :: 0 <= k < |s| ==> Pad(s, n, filler)[k] == s[k]
    ensures forall k :: |s| <= k < |Pad(s, n, filler)| ==> Pad(s, n, filler)[k] == filler
  {
  }

  /**
   * A hydrated route holds, in order and then padded, the addresses and parameters of the verified swaps found for it.
   */
  lemma HydratedShape(route: Route, verified: seq<Verified>, h: Hydrated)
    requires HydratedOf(route, verified) == Some(h)
    ensures FindAll(verified, route.swaps).Some? && |FindAll(verified, route.swaps).value| == |route.swaps| > 0
    ensures
      var found, n := FindAll(verified, route.swaps).value, |route.swaps|;
      && |h.addresses| == Max(ADDRESSES, 2 * n + 1) && |h.params| == Max(PARAMS, n)
      && h.addresses[0] == found[0].swap.tokenIn
      && (forall i :: 0 <= i < n ==>
             h.addresses[2 * i + 1] == found[i].swap.pool && h.addresses[2 * i + 2] == found[i].swap.out)
      && (forall i :: 0 <= i < n ==> h.params[i] == found[i].params)
      && (forall k :: 2 * n + 1 <= k < |h.addresses| ==> h.addresses[k] == ZERO_ADDRESS)
      && (forall k :: n <= k < |h.params| ==> h.params[k] == NoParams())
  {
    hide Label, Find, FindAll, AddressesOf, Pad, Join, Flatten, NoParams;
    FindAllMeans(verified, route.swaps);
    var found := FindAll(verified, route.swaps).value;
    AddressesAt(found);
    PadAt(AddressesOf(found), ADDRESSES, ZERO_ADDRESS);
    PadAt(ParamsOf(found), PARAMS, NoParams());
  }

  /**
   * A hydrated route shows the same trail as the row it came from; its addresses are those of the verified swaps,
   * padded with zero addresses to 11, and its parameters theirs, padded to 5 - exactly 11 and 5 for up to five swaps.
   */
  lemma HydratedMatchesRow(row: seq<string>, verified: seq<Verified>, h: Hydrated)
    requires |row| % 2 == 1 && HydratedOf(RouteOf(row), verified) == Some(h)
    ensures h.display == RouteOf(row).display && |RouteOf(row).swaps| == |row| / 2 > 0
    ensures |h.addresses| == Max(ADDRESSES, |row|) && |h.params| == Max(PARAMS, |row| / 2)
    ensures forall i :: 0 <= i < |row| / 2 ==> VerifiedAt(verified, RouteOf(row), i).Some?
    ensures h.addresses[0] == VerifiedAt(verified, RouteOf(row), 0).value.swap.tokenIn
    ensures forall i :: 0 <= i < |row| / 2 ==>
      var v := VerifiedAt(verified, RouteOf(row), i).value;
      h.addresses[2 * i + 1] == v.swap.pool && h.addresses[2 * i + 2] == v.swap.out && h.params[i] == v.params
    ensures forall k :: |row| <= k < |h.addresses| ==> h.addresses[k] == ZERO_ADDRESS
    ensures forall k :: |row| / 2 <= k < |h.params| ==> h.params[k] == NoParams()
  {
    hide Label, Find, FindAll, AddressesOf, ParamsOf, Pad, Join, NoParams;
    var route := RouteOf(row);
    SwapsChain(row);
    FindAllMeans(verified, route.swaps);
    HydratedShape(route, verified, h);
    RoundTrip(row);
    assert forall i :: 0 <= i < |route.swaps| ==>
      VerifiedAt(verified, route, i) == Some(FindAll(verified, route.swaps).value[i]);
  }

  /** The names of a row can be told apart in labels. */
  ghost predicate Clean(swaps: seq<Swap>) {
    forall s :: s in swaps ==> NoArrow(s.tokenIn) && NoArrow(s.pool)
  }

  /** What was verified are single swaps of the routes, as `formatSingleSwaps` lists them. */
  ghost predicate FromSingles(verified: seq<Verified>, routes: seq<Route>, assets: string -> string) {
    forall i :: 0 <= i < |verified| ==> verified[i].swap in Singles(AllSwaps(routes), assets)
  }

  lemma {:induction false} FindFinds(verified: seq<Verified>, display: string)
    ensures Find(verified, display).Some? ==>
      Find(verified, display).value in verified && Find(verified, display).value.swap.display == display
  {
    if verified != [] {
      FindFinds(verified[1..], display);
    }
  }

  /** A verified swap with the label of s resolves the names of s. */
  lemma FoundIsNamed(verified: seq<Verified>, routes: seq<Route>, assets: string -> string, s: Swap)
    requires FromSingles(verified, routes, assets) && Clean(AllSwaps(routes)) && NoArrow(s.tokenIn) && NoArrow(s.pool)
    requires Find(verified, Label(s)).Some?
    ensures Find(verified, Label(s)).value.swap == Name(s, assets)
  {
    hide Label, Find;
    var all, v := AllSwaps(routes), Find(verified, Label(s)).value;
    FindFinds(verified, Label(s));
    SinglesCover(all, assets);
    var k :| 0 <= k < |Singles(all, assets)| && Singles(all, assets)[k] == v.swap;
    assert Stands(Singles(all, assets)[k], all, assets);
    var t :| t in all && v.swap == Name(t, assets);
    LabelsDistinguish(t, s);
  }

  /** The cells of the i-th swap of a row are resolved to their addresses. */
  lemma SwapResolved(row: seq<string>, routes: seq<Route>, assets: string -> string, verified: seq<Verified>, i: nat)
    requires |row| % 2 == 1 && FromSingles(verified, routes, assets) && Clean(AllSwaps(routes)) && Clean(SwapsOf(row))
    requires i < |row| / 2 && |SwapsOf(row)| == |row| / 2 && VerifiedAt(verified, RouteOf(row), i).Some?
    ensures
      var swap := VerifiedAt(verified, RouteOf(row), i).value.swap;
      && swap.tokenIn == assets(row[2 * i]) && swap.pool == assets(row[2 * i + 1]) && swap.out == assets(row[2 * i + 2])
  {
    hide Label, Find, Join, Clean, FromSingles, NoArrow;
    SwapsChain(row);
    CleanAt(SwapsOf(row), i);
    FoundIsNamed(verified, routes, assets, SwapsOf(row)[i]);
  }

  lemma CellResolved(row: seq<string>, routes: seq<Route>, assets: string -> string, verified: seq<Verified>,
                     h: Hydrated, k: nat)
    requires |row| % 2 == 1 && HydratedOf(RouteOf(row), verified) == Some(h) && k < |row| <= |h.addresses|
    requires FromSingles(verified, routes, assets) && Clean(AllSwaps(routes)) && Clean(SwapsOf(row))
    ensures h.addresses[k] == assets(row[k])
  {
    hide VerifiedAt, NoParams, HydratedOf, Clean, FromSingles, RouteOf, Join;
    HydratedMatchesRow(row, verified, h);
    SwapsAsLong(row);
    if k == 0 {
      SwapResolved(row, routes, assets, verified, 0);
    } else {
      var i := (k - 1) / 2;
      SwapResolved(row, routes, assets, verified, i);
      assert h.addresses[2 * i + 1] == VerifiedAt(verified, RouteOf(row), i).value.swap.pool;
      assert k == 2 * i + 1 || k == 2 * i + 2;
    }
  }

  /** From row to route: every cell of the row, in order, is resolved to its address. */
  lemma HydratedResolvesRow(row: seq<string>, routes: seq<Route>, assets: string -> string, verified: seq<Verified>,
                            h: Hydrated)
    requires |row| % 2 == 1 && HydratedOf(RouteOf(row), verified) == Some(h)
    requires FromSingles(verified, routes, assets) && Clean(AllSwaps(routes)) && Clean(SwapsOf(row))
    ensures |row| <= |h.addresses| && forall k :: 0 <= k < |row| ==> h.addresses[k] == assets(row[k])
  {
    hide HydratedOf, Clean, FromSingles, RouteOf;
    HydratedMatchesRow(row, verified, h);
    forall k | 0 <= k < |row| ensures h.addresses[k] == assets(row[k]) {
      CellResolved(row, routes, assets, verified, h, k);
    }
  }

  lemma SwapsAsLong(row: seq<string>)
    requires |row| % 2 == 1
    ensures |SwapsOf(row)| == |row| / 2 && RouteOf(row).swaps == SwapsOf(row)
  {
    SwapsChain(row);
  }

  lemma CleanAt(swaps: seq<Swap>, i: nat)
    requires Clean(swaps) && i < |swaps|
    ensures NoArrow(swaps[i].tokenIn) && NoArrow(swaps[i].pool)
  {
  }

  // ---------------------------------------------------------------- all routes

  type Key = (string, string)

  /** Routes that could not be hydrated, in order. */
  function Failures(routes: seq<Route>, verified: seq<Verified>): seq<string> {
    if routes == [] then [] else
      var r := routes[|routes| - 1];
      Failures(routes[..|routes| - 1], verified) + if HydratedOf(r, verified).None? then [r.display] else []
  }

  function KeyOf(r: Route, lower: string -> string): Key {
    (lower(r.tokenIn), lower(r.out))
  }

  /** The hydrated routes between two tokens, in order. */
  function Between(routes: seq<Route>, verified: seq<Verified>, lower: string -> string, key: Key): seq<Hydrated> {
    if routes == [] then [] else
      var r := routes[|routes| - 1];
      var h := HydratedOf(r, verified);
      Between(routes[..|routes| - 1], verified, lower, key)
      + if h.Some? && KeyOf(r, lower) == key then [h.value] else []
  }

  function ListAt(m: map<Key, seq<Hydrated>>, key: Key): seq<Hydrated> {
    if key in m then m[key] else []
  }

  lemma OneMoreRoute(routes: seq<Route>, i: nat, verified: seq<Verified>, lower: string -> string, key: Key)
    requires i < |routes|
    ensures
      var h := HydratedOf(routes[i], verified);
      && Failures(routes[..i + 1], verified) ==
         Failures(routes[..i], verified) + (if h.None? then [routes[i].display] else [])
      && Between(routes[..i + 1], verified, lower, key) ==
           Between(routes[..i], verified, lower, key)
           + if h.Some? && KeyOf(routes[i], lower) == key then [h.value] else []
  {
    hide HydratedOf;
    assert routes[..i + 1][..i] == routes[..i];
  }

  /** Each route ends up in one place, after those before it that ended up there too. */
  lemma {:induction false} RoutesKeepOrder(routes: seq<Route>, verified: seq<Verified>, lower: string -> string, i: nat)
    requires i < |routes|
    ensures
      match HydratedOf(routes[i], verified)
      case None => Failures(routes[..i], verified) + [routes[i].display] <= Failures(routes, verified)
      case Some(h) =>
        var key := KeyOf(routes[i], lower);
        Between(routes[..i], verified, lower, key) + [h] <= Between(routes, verified, lower, key)
    decreases |routes|
  {
    hide HydratedOf, KeyOf;
    var k := |routes| - 1;
    if i < k {
      assert routes[..k][..i] == routes[..i];
      RoutesKeepOrder(routes[..k], verified, lower, i);
    }
  }

  /** Nothing but routes between the two tokens, hydrated. */
  lemma {:induction false} OnlyRoutesBetween(routes: seq<Route>, verified: seq<Verified>, lower: string -> string,
                                             key: Key, h: Hydrated)
    ensures h in Between(routes, verified, lower, key) ==>
              exists i ::
                0 <= i < |routes| && HydratedOf(routes[i], verified) == Some(h) && KeyOf(routes[i], lower) == key
    decreases |routes|
  {
    hide HydratedOf, KeyOf;
    if routes != [] && h in Between(routes, verified, lower, key) {
      var k := |routes| - 1;
      OnlyRoutesBetween(routes[..k], verified, lower, key, h);
      if h in Between(routes[..k], verified, lower, key) {
        var i :| 0 <= i < k && HydratedOf(routes[..k][i], verified) == Some(h) && KeyOf(routes[..k][i], lower) == key;
        assert HydratedOf(routes[i], verified) == Some(h) && KeyOf(routes[i], lower) == key;
      } else {
        assert HydratedOf(routes[k], verified) == Some(h) && KeyOf(routes[k], lower) == key;
      }
    }
  }

  /** `hydrateRawRoutes`; `lower` gives the lower-case address of a token. */
  method HydrateRawRoutes(routes: seq<Route>, verified: seq<Verified>, lower: string -> string)
    returns (success: map<Key, seq<Hydrated>>, errors: seq<string>)
    ensures errors == Failures(routes, verified)
    ensures forall key :: ListAt(success, key) == Between(routes, verified, lower, key)
  {
    hide HydratedOf, Failures, Between, KeyOf;
    success, errors := map[], [];
    NoRoutes(verified, lower);
    var i := 0;
    while i < |routes|
      invariant 0 <= i <= |routes|
      invariant errors == Failures(routes[..i], verified)
      invariant forall key :: ListAt(success, key) == Between(routes[..i], verified, lower, key)
    {
      var h := HydrateRoute(routes[i], verified);
      ghost var before := success;
      var found := KeyOf(routes[i], lower);
      if h.None? {
        errors := errors + [routes[i].display];
      } else {
        success := success[found := ListAt(success, found) + [h.value]];
      }
      forall key ensures ListAt(success, key) == Between(routes[..i + 1], verified, lower, key) {
        OneMoreRoute(routes, i, verified, lower, key);
        assert ListAt(before, key) == Between(routes[..i], verified, lower, key);
        assert h.None? || key != found ==> ListAt(success, key) == ListAt(before, key) + [];
      }
      OneMoreRoute(routes, i, verified, lower, found);
      i := i + 1;
    }
    assert routes[..i] == routes;
  }

  lemma NoRoutes(verified: seq<Verified>, lower: string -> string)
    ensures Failures([], verified) == [] && forall key :: Between([], verified, lower, key) == []
  {
  }
}
