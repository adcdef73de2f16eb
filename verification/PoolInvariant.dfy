/** What every deposit, withdrawal and exchange keeps true of the AMM. */
module PoolInvariant {
  import opened Numbers
  import opened Ledger
  import opened Ticks
  import opened BandShares
  import opened AmmPool

  /** Borrowed coin only at or below the active band, collateral only at or above it. */
  ghost predicate Sides(p: Pool) {
    && (forall b :: b > p.active ==> Get(p.bandsX, b) == 0)
    && (forall b :: b < p.active ==> Get(p.bandsY, b) == 0)
  }

  ghost predicate BandEmpty(p: Pool, b: int) {
    Get(p.bandsX, b) == 0 && Get(p.bandsY, b) == 0
  }

  ghost predicate Bounded(p: Pool) {
    forall b :: b < p.minBand || b > p.maxBand ==> BandEmpty(p, b)
  }

  /** A band without shares holds nothing. */
  ghost predicate NoOrphans(p: Pool) {
    forall b :: Get(p.total, b) == 0 ==> BandEmpty(p, b)
  }

  /** The share of a user in band b, read back from packed storage; zero for users without liquidity. */
  ghost function ShareAt(t: UserTicks, b: int): nat {
    var (n1, shares) := Position(t);
    if t.slots[0] != 0 && n1 <= b < n1 + |shares| then shares[b - n1] else 0
  }

  ghost function SharesAt(users: map<Address, UserTicks>, b: int): map<Address, nat> {
    map u | u in users :: ShareAt(users[u], b)
  }

  /** total_shares is the sum of the users' shares, band by band. */
  ghost predicate LedgerKept(p: Pool) {
    forall b :: Sum(SharesAt(p.users, b)) == Get(p.total, b)
  }

  ghost predicate AllPositive(shares: seq<nat>) {
    forall i :: 0 <= i < |shares| ==> 0 < shares[i] < Q128
  }

  /** A user with liquidity has a positive share in each band of a well-formed range. */
  ghost predicate UserOk(t: UserTicks) {
    t.slots[0] != 0 ==> Position(t).1 != [] && AllPositive(Position(t).1)
  }

  ghost predicate UsersOk(p: Pool) {
    forall u :: u in p.users ==> UserOk(p.users[u])
  }

  /** How far the tokens held exceed all bands and the admin fees, coin by coin and in 18 decimals. */
  ghost function SlackX(q: Params, p: Pool): int {
    p.heldX * q.bPrec - Sum(p.bandsX) - p.feesX * q.bPrec
  }

  ghost function SlackY(q: Params, p: Pool): int {
    p.heldY * q.cPrec - Sum(p.bandsY) - p.feesY * q.cPrec
  }

  ghost predicate SlackKept(q: Params, p: Pool, p': Pool) {
    SlackX(q, p) <= SlackX(q, p') && SlackY(q, p) <= SlackY(q, p')
  }

  ghost predicate Solvent(q: Params, p: Pool) {
    0 <= SlackX(q, p) && 0 <= SlackY(q, p)
  }

  ghost predicate Inv(q: Params, p: Pool) {
    q.Valid() && Sides(p) && Bounded(p) && NoOrphans(p) && LedgerKept(p) && UsersOk(p) && Solvent(q, p)
  }

  /** A newly deployed AMM. */
  function NewPool(): Pool {
    Pool(0, 0, 0, map[], map[], map[], map[], 0, 0, 0, 0)
  }

  lemma NewPoolInv(q: Params)
    requires q.Valid()
    ensures Inv(q, NewPool())
  {
    forall b ensures Sum(SharesAt(NewPool().users, b)) == 0 {
      assert SharesAt(NewPool().users, b) == map[];
    }
  }

  /** Replacing one user's entry changes each band's sum by that user's difference. */
  lemma LedgerPut(users: map<Address, UserTicks>, u: Address, t: UserTicks, b: int)
    ensures Sum(SharesAt(users[u := t], b)) + ShareAt(UserOf(users, u), b) == Sum(SharesAt(users, b)) + ShareAt(t, b)
  {
    assert SharesAt(users[u := t], b) == SharesAt(users, b)[u := ShareAt(t, b)];
    SumPut(SharesAt(users, b), u, ShareAt(t, b));
    assert Get(SharesAt(users, b), u) == ShareAt(UserOf(users, u), b);
  }

  lemma ShareWithinTotal(p: Pool, u: Address, b: int)
    requires LedgerKept(p)
    ensures ShareAt(UserOf(p.users, u), b) <= Get(p.total, b)
  {
    SumAtLeast(SharesAt(p.users, b), u);
    assert Get(SharesAt(p.users, b), u) == ShareAt(UserOf(p.users, u), b);
  }

  // ---------------------------------------------------------------- deposits

  /**
   * Below the skipped range nothing changes sides: every band from the new active band up to the old one lacked
   * borrowed coin.
   */
  lemma {:induction false} SkipToFacts(bandsX: Bands, n0: int, n1: int, i: nat)
    requires SkipTo(bandsX, n0, n1, i).Some?
    ensures SkipTo(bandsX, n0, n1, i).value < n1 && SkipTo(bandsX, n0, n1, i).value <= n0
    ensures forall b :: SkipTo(bandsX, n0, n1, i).value < b <= n0 ==> Get(bandsX, b) == 0
    decreases MAX_SKIP_TICKS - i
  {
    if n1 <= n0 {
      SkipToFacts(bandsX, n0 - 1, n1, i + 1);
    }
  }

  /** What a band gains in a deposit of y, or of yRest above the first band. */
  function BandDeposit(b: int, c: int, n2: int, y: nat, yRest: nat): nat {
    if c < b || c > n2 then 0 else if c == b then y else yRest
  }

  /** The state of the deposit loop after its first band. */
  function AfterFirst(bandsX: Bands, bandsY: Bands, total: Bands, b: int, n2: int, y: nat, yRest: nat): Option<Minted> {
    var ds := SharesFor(Get(total, b), y, Get(bandsY, b));
    DepositFrom(bandsX, bandsY[b := Get(bandsY, b) + y], total[b := Get(total, b) + ds], b + 1, n2, yRest, yRest)
  }

  /** Every band of the range gets its amount and no other band changes. */
  lemma {:induction false} DepositFromBands(bandsX: Bands, bandsY: Bands, total: Bands, b: int, n2: int, y: nat,
                                            yRest: nat, m: Minted)
    requires DepositFrom(bandsX, bandsY, total, b, n2, y, yRest) == Some(m)
    ensures forall c :: Get(m.bandsY, c) == Get(bandsY, c) + BandDeposit(b, c, n2, y, yRest)
    decreases n2 - b + 1
  {
    hide SharesFor;
    if b <= n2 {
      var rest := AfterFirst(bandsX, bandsY, total, b, n2, y, yRest).value;
      var ds := SharesFor(Get(total, b), y, Get(bandsY, b));
      DepositFromBands(bandsX, bandsY[b := Get(bandsY, b) + y], total[b := Get(total, b) + ds], b + 1, n2, yRest, yRest,
                       rest);
    }
  }

  /** The bands gain exactly what is deposited. */
  lemma {:induction false} DepositFromSum(bandsX: Bands, bandsY: Bands, total: Bands, b: int, n2: int, y: nat,
                                          yRest: nat, m: Minted)
    requires b <= n2 && DepositFrom(bandsX, bandsY, total, b, n2, y, yRest) == Some(m)
    ensures Sum(m.bandsY) == Sum(bandsY) + y + (n2 - b) * yRest
    decreases n2 - b + 1
  {
    hide SharesFor;
    var rest := AfterFirst(bandsX, bandsY, total, b, n2, y, yRest).value;
    var ds := SharesFor(Get(total, b), y, Get(bandsY, b));
    SumPut(bandsY, b, Get(bandsY, b) + y);
    if b < n2 {
      DepositFromSum(bandsX, bandsY[b := Get(bandsY, b) + y], total[b := Get(total, b) + ds], b + 1, n2, yRest, yRest,
                     rest);
      assert (n2 - b) * yRest == yRest + (n2 - (b + 1)) * yRest;
    }
  }

  /** Positive shares are minted in every band of the range and added to the totals. */
  ghost predicate SharesAdded(total: Bands, total': Bands, b: int, n2: int, shares: seq<nat>) {
    && |shares| == Max(n2 - b + 1, 0) && AllPositive(shares)
    && forall c :: Get(total', c) == Get(total, c) + if b <= c <= n2 then shares[c - b] else 0
  }

  lemma {:induction false} DepositFromShares(bandsX: Bands, bandsY: Bands, total: Bands, b: int, n2: int, y: nat,
                                             yRest: nat, m: Minted)
    requires DepositFrom(bandsX, bandsY, total, b, n2, y, yRest) == Some(m)
    ensures SharesAdded(total, m.total, b, n2, m.shares)
    decreases n2 - b + 1
  {
    hide SharesFor;
    if b <= n2 {
      hide SharesAdded;
      var rest := AfterFirst(bandsX, bandsY, total, b, n2, y, yRest).value;
      var ds := SharesFor(Get(total, b), y, Get(bandsY, b));
      var total' := total[b := Get(total, b) + ds];
      DepositFromShares(bandsX, bandsY[b := Get(bandsY, b) + y], total', b + 1, n2, yRest, yRest, rest);
      PrependShare(total, m.total, b, n2, ds, rest.shares);
    }
  }

  lemma PrependShare(total: Bands, total': Bands, b: int, n2: int, ds: nat, rest: seq<nat>)
    requires b <= n2 && 0 < ds < Q128 && SharesAdded(total[b := Get(total, b) + ds], total', b + 1, n2, rest)
    ensures SharesAdded(total, total', b, n2, [ds] + rest)
  {
    var shares := [ds] + rest;
    forall c ensures Get(total', c) == Get(total, c) + if b <= c <= n2 then shares[c - b] else 0 {
      assert Get(total[b := Get(total, b) + ds], c) == if c == b then Get(total, b) + ds else Get(total, c);
      assert b < c <= n2 ==> shares[c - b] == rest[c - (b + 1)];
    }
  }

  /** The shares of a band in the range are minted at the price that band had before the deposit. */
  lemma {:induction false} DepositFromPrice(bandsX: Bands, bandsY: Bands, total: Bands, b: int, n2: int, y: nat,
                                            yRest: nat, m: Minted, c: int)
    requires DepositFrom(bandsX, bandsY, total, b, n2, y, yRest) == Some(m) && b <= c <= n2 && |m.shares| == n2 - b + 1
    ensures m.shares[c - b] == SharesFor(Get(total, c), BandDeposit(b, c, n2, y, yRest), Get(bandsY, c))
    decreases n2 - b + 1
  {
    if b < c {
      var rest := AfterFirst(bandsX, bandsY, total, b, n2, y, yRest).value;
      var ds := SharesFor(Get(total, b), y, Get(bandsY, b));
      var total', bandsY' := total[b := Get(total, b) + ds], bandsY[b := Get(bandsY, b) + y];
      assert Get(total', c) == Get(total, c) && Get(bandsY', c) == Get(bandsY, c);
      assert BandDeposit(b + 1, c, n2, yRest, yRest) == BandDeposit(b, c, n2, y, yRest);
      assert m.shares == [ds] + rest.shares && m.shares[c - b] == rest.shares[c - (b + 1)];
      DepositFromPrice(bandsX, bandsY', total', b + 1, n2, yRest, yRest, rest, c);
    } else {
      assert m.shares[0] == SharesFor(Get(total, b), y, Get(bandsY, b));
    }
  }

  lemma PositionAfterSave(n1: int, n2: int, slots: Slots, shares: seq<nat>)
    requires -Q127 < n1 <= n2 < Q127 && |shares| == n2 - n1 + 1 <= MAX_TICKS && AllPositive(shares)
    ensures
      var t := UserTicks(PackNumbers(n1, n2), SaveShares(slots, shares));
      t.slots[0] != 0 && Position(t) == (n1, shares) && UserOk(t)
  {
    UnpackOfPack(n1, n2);
    ReadOfSave(slots, shares);
    LiveAfterSave(slots, shares);
  }

  /** What band c gains when `amount` is deposited over n1 to n2. */
  function DepositedIn(q: Params, amount: nat, n1: int, n2: int, c: int): nat
    requires n1 <= n2
  {
    BandDeposit(n1, c, n2, InFirstBand(q, amount, n2 - n1 + 1), PerBand(q, amount, n2 - n1 + 1))
  }

  /** A deposit, band by band. */
  lemma MintForFacts(q: Params, p: Pool, amount: nat, n1: int, n2: int, m: Minted)
    requires n1 <= n2 && MintFor(q, p, amount, n1, n2) == Some(m)
    ensures |m.shares| == n2 - n1 + 1 && AllPositive(m.shares)
    ensures forall c :: Get(m.bandsY, c) == Get(p.bandsY, c) + DepositedIn(q, amount, n1, n2, c)
    ensures forall c :: Get(m.total, c) == Get(p.total, c) + if n1 <= c <= n2 then m.shares[c - n1] else 0
    ensures Sum(m.bandsY) == Sum(p.bandsY) + amount * q.cPrec
  {
    var y, yRest := InFirstBand(q, amount, n2 - n1 + 1), PerBand(q, amount, n2 - n1 + 1);
    DepositFromBands(p.bandsX, p.bandsY, p.total, n1, n2, y, yRest, m);
    DepositFromShares(p.bandsX, p.bandsY, p.total, n1, n2, y, yRest, m);
    DepositFromSum(p.bandsX, p.bandsY, p.total, n1, n2, y, yRest, m);
    assert (n2 - n1) * yRest == yRest * (n2 - n1);
  }

  lemma DepositKeepsLedger(q: Params, p: Pool, user: Address, amount: nat, n1: int, n2: int)
    requires Inv(q, p) && Deposit(q, p, user, amount, n1, n2).Some?
    ensures LedgerKept(Deposit(q, p, user, amount, n1, n2).value) && UsersOk(Deposit(q, p, user, amount, n1, n2).value)
  {
    var p' := Deposit(q, p, user, amount, n1, n2).value;
    var m := MintFor(q, p, amount, n1, n2).value;
    MintForFacts(q, p, amount, n1, n2, m);
    PositionAfterSave(n1, n2, UserOf(p.users, user).slots, m.shares);
    forall b ensures Sum(SharesAt(p'.users, b)) == Get(p'.total, b) {
      LedgerPut(p.users, user, p'.users[user], b);
    }
  }

  lemma DepositKeepsSides(q: Params, p: Pool, user: Address, amount: nat, n1: int, n2: int)
    requires Inv(q, p) && Deposit(q, p, user, amount, n1, n2).Some?
    ensures Sides(Deposit(q, p, user, amount, n1, n2).value)
  {
    MintForFacts(q, p, amount, n1, n2, MintFor(q, p, amount, n1, n2).value);
    SkipToFacts(p.bandsX, p.active, n1, 0);
  }

  lemma DepositKeepsEmpties(q: Params, p: Pool, user: Address, amount: nat, n1: int, n2: int)
    requires Inv(q, p) && Deposit(q, p, user, amount, n1, n2).Some?
    ensures Bounded(Deposit(q, p, user, amount, n1, n2).value) && NoOrphans(Deposit(q, p, user, amount, n1, n2).value)
  {
    var p' := Deposit(q, p, user, amount, n1, n2).value;
    MintForFacts(q, p, amount, n1, n2, MintFor(q, p, amount, n1, n2).value);
    forall b | Get(p'.total, b) == 0 ensures BandEmpty(p', b) {
      assert BandEmpty(p, b);
    }
    forall b | b < p'.minBand || b > p'.maxBand ensures BandEmpty(p', b) {
      assert BandEmpty(p, b);
    }
  }

  /** A deposit moves whole tokens and leaves the slack of both coins as it was. */
  lemma DepositKeepsSlack(q: Params, p: Pool, user: Address, amount: nat, n1: int, n2: int)
    requires q.Valid() && Deposit(q, p, user, amount, n1, n2).Some?
    ensures
      var p' := Deposit(q, p, user, amount, n1, n2).value;
      SlackX(q, p') == SlackX(q, p) && SlackY(q, p') == SlackY(q, p)
  {
    var p' := Deposit(q, p, user, amount, n1, n2).value;
    var m := MintFor(q, p, amount, n1, n2).value;
    MintForFacts(q, p, amount, n1, n2, m);
    assert p' == p.(active := p'.active, minBand := p'.minBand, maxBand := p'.maxBand, bandsY := m.bandsY,
                    total := m.total, users := p'.users, heldY := p.heldY + amount);
    Distribute(p.heldY, amount, q.cPrec);
  }

  /** Every deposit keeps the invariant. */
  lemma DepositKeepsInv(q: Params, p: Pool, user: Address, amount: nat, n1: int, n2: int)
    requires Inv(q, p) && Deposit(q, p, user, amount, n1, n2).Some?
    ensures Inv(q, Deposit(q, p, user, amount, n1, n2).value)
  {
    DepositKeepsSides(q, p, user, amount, n1, n2);
    DepositKeepsEmpties(q, p, user, amount, n1, n2);
    DepositKeepsLedger(q, p, user, amount, n1, n2);
    DepositKeepsSlack(q, p, user, amount, n1, n2);
  }
}
