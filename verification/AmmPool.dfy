/** The AMM's storage as a value, and what each of its state-changing calls does to it. None stands for a revert. */
module AmmPool {
  import opened Numbers
  import opened Ledger
  import opened Ticks
  import opened BandShares
  import opened BandWalk

  const MAX_SKIP_TICKS: nat := 1024
  const MAX_UINT: nat := Q128 * Q128 - 1

  /** Immutables of one AMM: A, the precisions of the two coins and (A / (A - 1)) ** 50. */
  datatype Params = Params(a: nat, bPrec: nat, cPrec: nat, maxDn: nat) {
    ghost predicate Valid() {
      a >= 2 && bPrec >= 1 && cPrec >= 1
    }
  }

  type Bands = map<int, nat>

  /** `heldX` and `heldY` are the AMM's token balances: the Controller moves what a deposit or withdrawal returns. */
  datatype Pool = Pool(active: int, minBand: int, maxBand: int, bandsX: Bands, bandsY: Bands, total: Bands,
                       users: map<Address, UserTicks>, feesX: nat, feesY: nat, heldX: nat, heldY: nat)

  function UserOf(users: map<Address, UserTicks>, u: Address): UserTicks {
    if u in users then users[u] else EMPTY_TICKS
  }

  /** `has_liquidity`. */
  predicate Live(p: Pool, u: Address) {
    UserOf(p.users, u).slots[0] != 0
  }

  // ---------------------------------------------------------------- deposits

  /** Move the active band down past bands without borrowed coin until it lies below n1. */
  function SkipTo(bandsX: Bands, n0: int, n1: int, i: nat): Option<int>
    decreases MAX_SKIP_TICKS - i
  {
    if n1 > n0 then Some(n0)
    else if Get(bandsX, n0) == 0 && i < MAX_SKIP_TICKS then SkipTo(bandsX, n0 - 1, n1, i + 1)
    else None
  }

  datatype Minted = Minted(bandsY: Bands, total: Bands, shares: seq<nat>)

  /** Deposit `y` into band b and `yRest` into each later band up to n2. */
  function DepositFrom(bandsX: Bands, bandsY: Bands, total: Bands, b: int, n2: int, y: nat, yRest: nat): Option<Minted>
    decreases n2 - b + 1
  {
    if b > n2 then Some(Minted(bandsY, total, []))
    else if Get(bandsX, b) != 0 then None
    else
      var s, totalY := Get(total, b), Get(bandsY, b);
      var ds := SharesFor(s, y, totalY);
      if ds == 0 || s + ds >= Q128 then None else
        match DepositFrom(bandsX, bandsY[b := totalY + y], total[b := s + ds], b + 1, n2, yRest, yRest)
        case None => None
        case Some(m) => Some(m.(shares := [ds] + m.shares))
  }

  function PerBand(q: Params, amount: nat, nBands: nat): nat
    requires nBands > 0
  {
    Div(amount * q.cPrec, nBands)
  }

  /** The first band takes what the equal parts leave over. */
  function InFirstBand(q: Params, amount: nat, nBands: nat): nat
    requires nBands > 0
  {
    DivBounds(amount * q.cPrec, nBands);
    assert PerBand(q, amount, nBands) * nBands ==
           PerBand(q, amount, nBands) * (nBands - 1) + PerBand(q, amount, nBands);
    amount * q.cPrec - PerBand(q, amount, nBands) * (nBands - 1)
  }

  /** The deposit is split evenly: the first band gets less than one unit per band more than the others. */
  lemma EvenSplit(q: Params, amount: nat, nBands: nat)
    requires nBands > 0
    ensures InFirstBand(q, amount, nBands) + PerBand(q, amount, nBands) * (nBands - 1) == amount * q.cPrec
    ensures PerBand(q, amount, nBands) <= InFirstBand(q, amount, nBands) < PerBand(q, amount, nBands) + nBands
  {
    DivBounds(amount * q.cPrec, nBands);
    assert PerBand(q, amount, nBands) * nBands ==
           PerBand(q, amount, nBands) * (nBands - 1) + PerBand(q, amount, nBands);
  }

  function MintFor(q: Params, p: Pool, amount: nat, n1: int, n2: int): Option<Minted>
    requires n1 <= n2
  {
    var nBands := n2 - n1 + 1;
    DepositFrom(p.bandsX, p.bandsY, p.total, n1, n2, InFirstBand(q, amount, nBands), PerBand(q, amount, nBands))
  }

  predicate ValidRange(n1: int, n2: int) {
    -Q127 < n1 <= n2 < Q127 && n2 - n1 < MAX_TICKS
  }

  function Deposit(q: Params, p: Pool, user: Address, amount: nat, n1: int, n2: int): Option<Pool>
    requires q.Valid()
  {
    if !ValidRange(n1, n2) || PerBand(q, amount, n2 - n1 + 1) <= 100 || Live(p, user) then None else
      match SkipTo(p.bandsX, p.active, n1, 0)
      case None => None
      case Some(n0) =>
        match MintFor(q, p, amount, n1, n2)
        case None => None
        case Some(m) =>
          if |m.shares| > MAX_TICKS then None else
            var t := UserTicks(PackNumbers(n1, n2), SaveShares(UserOf(p.users, user).slots, m.shares));
            Some(p.(active := n0, minBand := Min(p.minBand, n1), maxBand := Max(p.maxBand, n2), bandsY := m.bandsY,
                    total := m.total, users := p.users[user := t], heldY := p.heldY + amount))
  }

  // ---------------------------------------------------------------- withdrawals

  datatype Drawn = Drawn(bandsX: Bands, bandsY: Bands, total: Bands, feesX: nat, feesY: nat,
                         minBand: int, maxBand: int, outX: nat, outY: nat)

  /** Take `ds` shares out of band b; dust left behind by the last withdrawal goes to the admin. */
  function WithdrawBand(q: Params, w: Drawn, b: int, ds: nat): Option<Drawn>
    requires q.Valid()
  {
    var x, y, s := Get(w.bandsX, b), Get(w.bandsY, b), Get(w.total, b);
    if ds > s then None else
      PayoutWithinBand(x, ds, s);
      PayoutWithinBand(y, ds, s);
      var dx, dy := Payout(x, ds, s), Payout(y, ds, s);
      var last := s == ds;
      var x', y' := if last then 0 else x - dx, if last then 0 else y - dy;
      Some(Drawn(
        w.bandsX[b := x'], w.bandsY[b := y'], w.total[b := s - ds],
        w.feesX + (if last then Div(x - dx, q.bPrec) else 0), w.feesY + (if last then Div(y - dy, q.cPrec) else 0),
        if b == w.minBand && x' == 0 && y' == 0 then w.minBand + 1 else w.minBand,
        if x' > 0 || y' > 0 then b else w.maxBand,
        w.outX + dx, w.outY + dy))
  }

  function WithdrawFrom(q: Params, w: Drawn, b: int, taken: seq<nat>): Option<Drawn>
    requires q.Valid()
    decreases |taken|
  {
    if taken == [] then Some(w) else
      match WithdrawBand(q, w, b, taken[0])
      case None => None
      case Some(w') => WithdrawFrom(q, w', b + 1, taken[1..])
  }

  function TakenOf(shares: seq<nat>, frac: nat): seq<nat>
    requires frac <= WAD
  {
    seq(|shares|, i requires 0 <= i < |shares| => Taken(shares[i], frac))
  }

  function Remaining(shares: seq<nat>, frac: nat): (r: seq<nat>)
    requires frac <= WAD
    ensures |r| == |shares|
  {
    seq(|shares|, i requires 0 <= i < |shares| => shares[i] - Taken(shares[i], frac))
  }

  /** The user's bands and shares as read back from packed storage. */
  function Position(t: UserTicks): (r: (int, seq<nat>))
    ensures |r.1| <= MAX_TICKS
  {
    var (n1, n2) := UnpackNumbers(t.ns);
    if 0 <= n2 - n1 < MAX_TICKS then (n1, ReadShares(t.slots, n2 - n1 + 1)) else (n1, [])
  }

  datatype Paid = Paid(pool: Pool, x: nat, y: nat)

  function Withdraw(q: Params, p: Pool, user: Address, frac: nat): Option<Paid>
    requires q.Valid()
  {
    var t := UserOf(p.users, user);
    var (n1, shares) := Position(t);
    if frac > WAD || shares == [] || shares[0] == 0 then None else
      var n2 := n1 + |shares| - 1;
      var w0 := Drawn(p.bandsX, p.bandsY, p.total, p.feesX, p.feesY, p.minBand, n1 - 1, 0, 0);
      match WithdrawFrom(q, w0, n1, TakenOf(shares, frac))
      case None => None
      case Some(w) =>
        var x, y := Div(w.outX, q.bPrec), Div(w.outY, q.cPrec);
        if x > p.heldX || y > p.heldY then None else
          var slots := if frac == WAD then t.slots[0 := 0] else SaveShares(t.slots, Remaining(shares, frac));
          Some(Paid(p.(bandsX := w.bandsX, bandsY := w.bandsY, total := w.total, feesX := w.feesX, feesY := w.feesY,
                       minBand := w.minBand, maxBand := if p.maxBand <= n2 then w.maxBand else p.maxBand,
                       users := p.users[user := t.(slots := slots)], heldX := p.heldX - x, heldY := p.heldY - y), x, y))
  }

  /** `get_sum_xy`. */
  function SumPayouts(bands: Bands, total: Bands, b: int, shares: seq<nat>): nat
    decreases |shares|
  {
    if shares == [] then 0 else
      Payout(Get(bands, b), shares[0], Get(total, b)) + SumPayouts(bands, total, b + 1, shares[1..])
  }

  function GetSumXY(q: Params, p: Pool, user: Address): (nat, nat)
    requires q.Valid()
  {
    var (n1, shares) := Position(UserOf(p.users, user));
    if !Live(p, user) then (0, 0) else
      (Div(SumPayouts(p.bandsX, p.total, n1, shares), q.bPrec), Div(SumPayouts(p.bandsY, p.total, n1, shares), q.cPrec))
  }

  function SkipDown(p: Pool, n: int, i: nat): int
    decreases MAX_SKIP_TICKS - i
  {
    if i >= MAX_SKIP_TICKS then n
    else if n < p.minBand then p.active - MAX_SKIP_TICKS
    else if Get(p.bandsX, n) != 0 then n
    else SkipDown(p, n - 1, i + 1)
  }

  /** `active_band_with_skip`. */
  function ActiveWithSkip(p: Pool): int {
    SkipDown(p, p.active, 0)
  }

  // ---------------------------------------------------------------- exchanges

  /** Write one value per band, starting at n and moving in the direction of the trade. */
  function WriteBands(m: Bands, n: int, pump: bool, vals: seq<nat>): Bands {
    if vals == [] then m else
      WriteBands(m, n, pump, vals[..|vals| - 1])[At(n, pump, |vals| - 1) := vals[|vals| - 1]]
  }

  /** The outgoing coin is gone from every traded band but the last. */
  function OutTicks(k: nat, last: nat): seq<nat> {
    seq(k, i => if i == k - 1 then last else 0)
  }

  /** What the caller chooses, and the prices at the moment of the call. */
  datatype Order = Order(pump: bool, exactIn: bool, amount: nat, minmax: nat, pO: nat, dynFee: nat, pUp: nat)

  /** Fees set on the AMM. */
  datatype FeeRates = FeeRates(fee: nat, admin: nat)

  function EnvOf(q: Params, p: Pool, r: FeeRates, o: Order): Env {
    Env(q.a, o.pO, Max(r.fee, o.dynFee), r.admin, q.maxDn, o.pump, o.exactIn,
        if o.pump then p.maxBand else p.minBand, if o.pump then p.bandsY else p.bandsX)
  }

  function InBands(p: Pool, pump: bool): Bands {
    if pump then p.bandsX else p.bandsY
  }

  function InPrec(q: Params, pump: bool): nat {
    if pump then q.bPrec else q.cPrec
  }

  function OutPrec(q: Params, pump: bool): nat {
    if pump then q.cPrec else q.bPrec
  }

  function SwapTrade(q: Params, p: Pool, r: FeeRates, o: Order): Option<Trade>
    requires q.Valid() && r.admin <= WAD
  {
    var env := EnvOf(q, p, r, o);
    var inPrec, outPrec := InPrec(q, o.pump), OutPrec(q, o.pump);
    var amount := if o.exactIn then o.amount * inPrec else if o.amount < MAX_UINT then o.amount * outPrec else MAX_UINT;
    CalcSwap(env, p.active, o.pUp, Get(InBands(p, o.pump), p.active), Get(env.outBands, p.active),
             amount, inPrec, outPrec)
  }

  /** Store the result of a trade and move the tokens. */
  function Settle(q: Params, p: Pool, pump: bool, t: Trade, inDone: nat, outDone: nat): Option<Pool>
    requires q.Valid()
  {
    var outs := OutTicks(|t.ticksIn|, t.lastTickJ);
    var fee := Div(t.adminFee, InPrec(q, pump));
    if pump then
      if outDone > p.heldY then None else
        Some(p.(active := t.n2,
                bandsX := WriteBands(p.bandsX, t.n1, pump, t.ticksIn), bandsY := WriteBands(p.bandsY, t.n1, pump, outs),
                feesX := p.feesX + fee, heldX := p.heldX + inDone, heldY := p.heldY - outDone))
    else
      if outDone > p.heldX then None else
        Some(p.(active := t.n2,
                bandsY := WriteBands(p.bandsY, t.n1, pump, t.ticksIn), bandsX := WriteBands(p.bandsX, t.n1, pump, outs),
                feesY := p.feesY + fee, heldY := p.heldY + inDone, heldX := p.heldX - outDone))
  }

  datatype Exchanged = Exchanged(pool: Pool, inDone: nat, outDone: nat)

  /** `_exchange`. */
  function Exchange(q: Params, p: Pool, r: FeeRates, o: Order): Option<Exchanged>
    requires q.Valid() && r.admin <= WAD
  {
    if o.amount == 0 then Some(Exchanged(p, 0, 0)) else
      match SwapTrade(q, p, r, o)
      case None => None
      case Some(t) =>
        var inDone, outDone := Div(t.inAmount, InPrec(q, o.pump)), Div(t.outAmount, OutPrec(q, o.pump));
        var fair := if o.exactIn then outDone >= o.minmax
                    else inDone <= o.minmax && (outDone == o.amount || o.amount == MAX_UINT);
        if !fair then None
        else if outDone == 0 || inDone == 0 then Some(Exchanged(p, 0, 0))
        else
          match Settle(q, p, o.pump, t, inDone, outDone)
          case None => None
          case Some(p') => Some(Exchanged(p', inDone, outDone))
  }

  /** `reset_admin_fees`, called by the Controller after it moved the fees out. */
  function TakeFees(p: Pool): Option<Pool> {
    if p.feesX > p.heldX || p.feesY > p.heldY then None else
      Some(p.(feesX := 0, feesY := 0, heldX := p.heldX - p.feesX, heldY := p.heldY - p.feesY))
  }
}
