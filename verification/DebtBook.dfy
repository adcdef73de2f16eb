/** The Controller's own storage: loans, their list, the total debt, and what was minted and redeemed. */
module DebtBook {
  import opened Numbers
  import opened Ledger
  import opened Debt

  /** `funds` is the Controller's balance of the borrowed token. */
  datatype Book = Book(loan: map<Address, Loan>, total: Loan, loans: map<nat, Address>, ix: map<Address, nat>, n: nat,
                       minted: nat, redeemed: nat, funds: nat)

  const NO_LOAN := Loan(0, WAD)

  function LoanOf(loan: map<Address, Loan>, u: Address): Loan {
    if u in loan then loan[u] else NO_LOAN
  }

  predicate Owes(b: Book, u: Address) {
    LoanOf(b.loan, u).initial > 0
  }

  /** `_debt`. */
  function DebtNow(b: Book, u: Address, m: Positive): nat {
    DebtAt(LoanOf(b.loan, u), m, b.n)
  }

  // ---------------------------------------------------------------- the list of borrowers

  predicate Listed(b: Book, u: Address) {
    Get(b.ix, u) < b.n && Get(b.loans, Get(b.ix, u)) == u
  }

  /** `loan_ix` inverts `loans` on the first n entries, so nobody is listed twice. */
  ghost predicate ListOk(b: Book) {
    forall i :: 0 <= i < b.n ==> Get(b.ix, Get(b.loans, i)) == i
  }

  function Enlist(b: Book, u: Address): Book {
    b.(loans := b.loans[b.n := u], ix := b.ix[u := b.n], n := b.n + 1)
  }

  /** `_remove_from_list`: the last borrower takes the place of the one who leaves. */
  function Unlist(b: Book, u: Address): Option<Book> {
    var i := Get(b.ix, u);
    if b.n == 0 || Get(b.loans, i) != u then None else
      var last, cleared := b.n - 1, b.ix[u := 0];
      if i < last then
        var moved := Get(b.loans, last);
        Some(b.(loans := b.loans[i := moved], ix := cleared[moved := i], n := last))
      else Some(b.(ix := cleared, n := last))
  }

  lemma EnlistKeepsList(b: Book, u: Address, v: Address)
    requires ListOk(b) && !Listed(b, u)
    ensures ListOk(Enlist(b, u)) && (Listed(Enlist(b, u), v) <==> Listed(b, v) || v == u)
  {
    var b' := Enlist(b, u);
    forall i | 0 <= i < b'.n ensures Get(b'.ix, Get(b'.loans, i)) == i {
      assert i < b.n ==> Get(b.ix, Get(b.loans, i)) == i;
    }
  }

  /** Swap-remove takes exactly one borrower off the list, and never fails for a listed one. */
  lemma UnlistKeepsList(b: Book, u: Address, v: Address)
    requires ListOk(b) && Listed(b, u)
    ensures Unlist(b, u).Some? && ListOk(Unlist(b, u).value) && Unlist(b, u).value.n == b.n - 1
    ensures Listed(Unlist(b, u).value, v) <==> Listed(b, v) && v != u
  {
    var b', last := Unlist(b, u).value, b.n - 1;
    assert Get(b.ix, Get(b.loans, last)) == last;
    forall i | 0 <= i < b'.n ensures Get(b'.ix, Get(b'.loans, i)) == i {
      assert Get(b.ix, Get(b.loans, i)) == i;
    }
    var j, k := Get(b'.ix, v), Get(b.ix, v);
    assert j < b'.n ==> Get(b.ix, Get(b.loans, j)) == j;
    assert k < b.n ==> Get(b.ix, Get(b.loans, k)) == k;
  }

  /** With one borrower on the list nobody else is on it. */
  lemma OnlyOneListed(b: Book, u: Address, v: Address)
    requires ListOk(b) && Listed(b, u) && b.n <= 1 && Listed(b, v)
    ensures u == v
  {
  }

  // ---------------------------------------------------------------- operations on the book, at multiplier m

  /** The bookkeeping of `_create_loan`. */
  function Open(b: Book, u: Address, d: nat, m: Positive): Option<Book> {
    if Owes(b, u) || d == 0 || d > b.funds then None else
      Some(Enlist(b, u).(loan := b.loan[u := Loan(d, m)], total := Raise(b.total, d, m),
                         minted := b.minted + d, funds := b.funds - d))
  }

  /** The bookkeeping of `_add_collateral_borrow`: the total is left alone when nothing is borrowed. */
  function Rebase(b: Book, u: Address, d: nat, m: Positive): Option<Book> {
    if DebtNow(b, u, m) == 0 || d > b.funds then None else
      Some(b.(loan := b.loan[u := Loan(DebtNow(b, u, m) + d, m)],
              total := if d != 0 then Raise(b.total, d, m) else b.total,
              minted := b.minted + d, funds := b.funds - d))
  }

  /** The book after a payment, before a full one takes the borrower off the list. */
  function Paid(b: Book, u: Address, d: nat, m: Positive): Book
    requires d <= DebtNow(b, u, m)
  {
    b.(loan := b.loan[u := Loan(DebtNow(b, u, m) - d, m)], total := Lower(b.total, d, m),
       redeemed := b.redeemed + d, funds := b.funds + d)
  }

  /** The bookkeeping of every repayment; a loan repaid in full leaves the list. */
  function PayDown(b: Book, u: Address, d: nat, m: Positive): Option<Book>
    requires d <= DebtNow(b, u, m)
  {
    if d == DebtNow(b, u, m) then Unlist(Paid(b, u, d, m), u) else Some(Paid(b, u, d, m))
  }

  /** The interest that `collect_fees` may take. */
  function AdminFees(b: Book, m: Positive): nat {
    Max(TotalAt(b.total, m) + b.redeemed, b.minted) - b.minted
  }

  /** The interest part of `collect_fees`. */
  function Collect(b: Book, m: Positive): Option<Book> {
    var d := TotalAt(b.total, m);
    if d + b.redeemed > b.minted then
      if AdminFees(b, m) > b.funds then None else
        Some(b.(total := Loan(d, m), minted := d + b.redeemed, funds := b.funds - AdminFees(b, m)))
    else Some(b.(total := Loan(d, m)))
  }

  // ---------------------------------------------------------------- what every operation keeps

  /** Multipliers recorded so far are at most the current one; borrowers are exactly those on the list. */
  ghost predicate BookInv(b: Book, m: Positive) {
    && ListOk(b) && b.total.mul <= m
    && (forall u :: Listed(b, u) <==> Owes(b, u))
    && (forall u :: Owes(b, u) ==> LoanOf(b.loan, u).mul <= m)
  }

  /** A growing multiplier keeps a debt at least what was recorded. */
  lemma DebtLasts(b: Book, u: Address, m: Positive)
    requires LoanOf(b.loan, u).mul <= m
    ensures LoanOf(b.loan, u).initial <= DebtNow(b, u, m)
  {
    var l := LoanOf(b.loan, u);
    MulMono(l.mul, m, l.initial);
    DivLower(l.initial * m, l.mul, l.initial);
    DivMono(l.initial * m, l.initial * m + l.mul, l.mul);
  }

  lemma OwesMeansDebt(b: Book, u: Address, m: Positive, m': Positive)
    requires BookInv(b, m) && m <= m'
    ensures Owes(b, u) <==> DebtNow(b, u, m') > 0
  {
    if Owes(b, u) {
      DebtLasts(b, u, m');
    }
  }

  lemma InvLater(b: Book, m: Positive, m': Positive)
    requires BookInv(b, m) && m <= m'
    ensures BookInv(b, m')
  {
  }

  lemma SameList(b: Book, c: Book)
    requires b.loans == c.loans && b.ix == c.ix && b.n == c.n
    ensures ListOk(b) <==> ListOk(c)
    ensures forall u :: Listed(b, u) <==> Listed(c, u)
  {
  }

  lemma OpenKeepsInv(b: Book, u: Address, d: nat, m: Positive)
    requires BookInv(b, m) && Open(b, u, d, m).Some?
    ensures BookInv(Open(b, u, d, m).value, m)
    ensures forall v :: Owes(Open(b, u, d, m).value, v) <==> Owes(b, v) || v == u
  {
    hide TotalAt;
    var b', e := Open(b, u, d, m).value, Enlist(b, u);
    EnlistKeepsList(b, u, u);
    SameList(e, b');
    forall v ensures Listed(b', v) <==> Owes(b', v) {
      EnlistKeepsList(b, u, v);
      assert Listed(e, v) <==> Listed(b', v);
    }
    forall v | Owes(b', v) ensures LoanOf(b'.loan, v).mul <= m {
      assert v != u ==> Owes(b, v);
    }
  }

  lemma RebaseKeepsInv(b: Book, u: Address, d: nat, m: Positive)
    requires BookInv(b, m) && Rebase(b, u, d, m).Some?
    ensures BookInv(Rebase(b, u, d, m).value, m)
    ensures forall v :: Owes(Rebase(b, u, d, m).value, v) <==> Owes(b, v)
  {
    OwesMeansDebt(b, u, m, m);
    hide TotalAt, DebtAt;
    var b' := Rebase(b, u, d, m).value;
    SameList(b, b');
    forall v ensures Listed(b', v) <==> Owes(b', v) {
      assert Listed(b', v) <==> Listed(b, v);
    }
  }

  /** Taking a borrower without debt off the list. */
  lemma DropKeepsInv(b: Book, u: Address, m: Positive)
    requires ListOk(b) && Listed(b, u) && !Owes(b, u) && b.total.mul <= m
    requires forall v :: v != u ==> (Listed(b, v) <==> Owes(b, v)) && (Owes(b, v) ==> LoanOf(b.loan, v).mul <= m)
    ensures Unlist(b, u).Some? && BookInv(Unlist(b, u).value, m)
    ensures forall v :: Owes(Unlist(b, u).value, v) <==> Owes(b, v)
  {
    UnlistKeepsList(b, u, u);
    var b' := Unlist(b, u).value;
    forall v ensures Listed(b', v) <==> Owes(b', v) {
      UnlistKeepsList(b, u, v);
    }
  }

  /** A repayment of a listed borrower never fails on the list, and only a full one takes them off it. */
  lemma PayDownKeepsInv(b: Book, u: Address, d: nat, m: Positive)
    requires BookInv(b, m) && Owes(b, u) && d <= DebtNow(b, u, m)
    ensures PayDown(b, u, d, m).Some? && BookInv(PayDown(b, u, d, m).value, m)
    ensures forall v :: Owes(PayDown(b, u, d, m).value, v) <==> Owes(b, v) && (v == u ==> d < DebtNow(b, u, m))
  {
    hide TotalAt, DebtAt, Unlist;
    var paid := Paid(b, u, d, m);
    SameList(b, paid);
    forall v ensures (Listed(paid, v) <==> Owes(b, v)) && (v != u ==> (Owes(paid, v) <==> Owes(b, v)))
      ensures Owes(paid, v) ==> LoanOf(paid.loan, v).mul <= m {
      assert Listed(paid, v) <==> Listed(b, v);
      assert Owes(b, v) ==> LoanOf(b.loan, v).mul <= m;
    }
    if d == DebtNow(b, u, m) {
      DropKeepsInv(paid, u, m);
    }
  }

  lemma CollectKeepsInv(b: Book, m: Positive)
    requires BookInv(b, m) && Collect(b, m).Some?
    ensures BookInv(Collect(b, m).value, m) && forall v :: Owes(Collect(b, m).value, v) <==> Owes(b, v)
  {
    var b' := Collect(b, m).value;
    SameList(b, b');
    forall v ensures Listed(b', v) <==> Owes(b', v) {
      assert Listed(b', v) <==> Listed(b, v);
    }
  }

  // ---------------------------------------------------------------- the books of the borrowed token

  /** What the Controller holds is what it was funded with, plus redeemed, minus minted. */
  predicate BooksBalance(b: Book, funding: int) {
    b.funds + b.minted == funding + b.redeemed
  }

  /** Debt outstanding and redeemed, over what was minted. */
  function Gain(b: Book, m: Positive): int {
    TotalAt(b.total, m) + b.redeemed - b.minted
  }

  /** Borrowing moves the books and leaves the gain as it was. */
  lemma OpenBooks(b: Book, u: Address, d: nat, m: Positive, funding: int)
    requires Open(b, u, d, m).Some?
    ensures BooksBalance(b, funding) <==> BooksBalance(Open(b, u, d, m).value, funding)
    ensures Gain(Open(b, u, d, m).value, m) == Gain(b, m)
  {
    TotalNow(TotalAt(b.total, m) + d, m);
  }

  lemma RebaseBooks(b: Book, u: Address, d: nat, m: Positive, funding: int)
    requires Rebase(b, u, d, m).Some?
    ensures BooksBalance(b, funding) <==> BooksBalance(Rebase(b, u, d, m).value, funding)
    ensures Gain(Rebase(b, u, d, m).value, m) == Gain(b, m)
  {
    TotalNow(TotalAt(b.total, m) + d, m);
  }

  /** A repayment never lowers the gain; it raises it by what the total's rounding fell short of the debt. */
  lemma PayDownBooks(b: Book, u: Address, d: nat, m: Positive, funding: int)
    requires d <= DebtNow(b, u, m) && PayDown(b, u, d, m).Some?
    ensures BooksBalance(b, funding) <==> BooksBalance(PayDown(b, u, d, m).value, funding)
    ensures Gain(PayDown(b, u, d, m).value, m) == Gain(b, m) + Max(0, d - TotalAt(b.total, m))
  {
    TotalNow(Max(TotalAt(b.total, m), d) - d, m);
  }

  /**
   * When the gain is not negative, the fee is the whole gain, and collecting it leaves none: the clamps lose nothing.
   */
  lemma CollectBooks(b: Book, m: Positive, funding: int)
    requires Gain(b, m) >= 0
    ensures AdminFees(b, m) == Gain(b, m)
    ensures Collect(b, m).Some? <==> Gain(b, m) <= b.funds
    ensures Collect(b, m).Some? ==>
              Gain(Collect(b, m).value, m) == 0 && Collect(b, m).value.funds == b.funds - Gain(b, m)
    ensures Collect(b, m).Some? ==> (BooksBalance(b, funding) <==> BooksBalance(Collect(b, m).value, funding))
  {
    TotalNow(TotalAt(b.total, m), m);
  }

  lemma GainGrows(b: Book, m: Positive, m': Positive)
    requires m <= m'
    ensures Gain(b, m) <= Gain(b, m')
  {
    TotalGrows(b.total, m, m');
  }

  // ---------------------------------------------------------------- what every operation changes

  /** Nobody's loan but u's is touched. */
  ghost predicate OthersKeepLoans(b: Book, b': Book, u: Address) {
    forall v :: v != u ==> LoanOf(b'.loan, v) == LoanOf(b.loan, v)
  }

  /** The tokens that went out as new debt and came back as repayments. */
  ghost predicate BooksMove(b: Book, b': Book, lent: nat, repaid: nat) {
    b'.minted == b.minted + lent && b'.redeemed == b.redeemed + repaid && b'.funds + lent == b.funds + repaid
  }

  /**
   * Creating a loan: only for somebody without debt, of something that the Controller has; then exactly that is owed.
   */
  lemma OpenMeans(b: Book, u: Address, d: nat, m: Positive)
    ensures Open(b, u, d, m).Some? <==> LoanOf(b.loan, u).initial == 0 && 0 < d <= b.funds
    ensures
      Open(b, u, d, m).Some? ==>
        var b' := Open(b, u, d, m).value;
        && DebtNow(b', u, m) == d && LoanOf(b'.loan, u).mul == m
        && TotalAt(b'.total, m) == TotalAt(b.total, m) + d && b'.total.mul == m
        && OthersKeepLoans(b, b', u) && BooksMove(b, b', d, 0)
  {
    hide DebtAt, TotalAt;
    DebtFresh(d, m, b.n + 1);
    DebtFresh(TotalAt(b.total, m) + d, m, 0);
  }

  /**
   * Borrowing d more on a loan, or nothing: the debt of the moment grows by exactly d, and so does the total, which is
   * left as it is when nothing is borrowed.
   */
  lemma RebaseMeans(b: Book, u: Address, d: nat, m: Positive)
    ensures Rebase(b, u, d, m).Some? <==> DebtNow(b, u, m) > 0 && d <= b.funds
    ensures
      Rebase(b, u, d, m).Some? ==>
        var b' := Rebase(b, u, d, m).value;
        && DebtNow(b', u, m) == DebtNow(b, u, m) + d && LoanOf(b'.loan, u).mul == m
        && TotalAt(b'.total, m) == TotalAt(b.total, m) + d
        && (if d > 0 then b'.total.mul == m else b'.total == b.total)
        && OthersKeepLoans(b, b', u) && BooksMove(b, b', d, 0)
  {
    hide DebtAt, TotalAt;
    DebtFresh(DebtNow(b, u, m) + d, m, b.n);
    DebtFresh(TotalAt(b.total, m) + d, m, 0);
  }

  /** Taking a borrower off the list touches nothing but the list. */
  lemma UnlistOnlyLists(b: Book, u: Address)
    requires Unlist(b, u).Some?
    ensures
      var b' := Unlist(b, u).value;
      && b'.n == b.n - 1 && b'.loan == b.loan && b'.total == b.total && b'.minted == b.minted
      && b'.redeemed == b.redeemed && b'.funds == b.funds
  {
  }

  /** Repaying d: the debt of the moment falls by exactly d, and the total by d, or to zero. */
  lemma PayDownMeans(b: Book, u: Address, d: nat, m: Positive)
    requires d <= DebtNow(b, u, m) && PayDown(b, u, d, m).Some?
    ensures
      var b' := PayDown(b, u, d, m).value;
      && DebtNow(b', u, m) == DebtNow(b, u, m) - d && LoanOf(b'.loan, u).mul == m
      && TotalAt(b'.total, m) == Max(TotalAt(b.total, m) - d, 0) && b'.total.mul == m
      && OthersKeepLoans(b, b', u) && BooksMove(b, b', 0, d)
      && b'.n == b.n - if d == DebtNow(b, u, m) then 1 else 0
  {
    hide DebtAt, TotalAt, Unlist;
    var b' := PayDown(b, u, d, m).value;
    if d == DebtNow(b, u, m) {
      UnlistOnlyLists(Paid(b, u, d, m), u);
    }
    DebtFresh(DebtNow(b, u, m) - d, m, b'.n);
    DebtFresh(Max(TotalAt(b.total, m), d) - d, m, 0);
  }

  /** Collecting interest takes it from the Controller's tokens; no debt changes, and neither does the total. */
  lemma CollectMeans(b: Book, m: Positive)
    ensures Collect(b, m).Some? <==> Max(Gain(b, m), 0) <= b.funds
    ensures
      Collect(b, m).Some? ==>
        var b', fees := Collect(b, m).value, Max(Gain(b, m), 0);
        && b'.loan == b.loan && b'.n == b.n && b'.redeemed == b.redeemed
        && TotalAt(b'.total, m) == TotalAt(b.total, m) && b'.total.mul == m
        && b'.minted == b.minted + fees && b'.funds == b.funds - fees
  {
    hide TotalAt;
    DebtFresh(TotalAt(b.total, m), m, 0);
  }

  // ---------------------------------------------------------------- the total against the single debts

  /** The exact value of all loans together. */
  ghost function SumValue(loan: map<Address, Loan>): real
    decreases |loan|
  {
    if loan == map[] then 0.0 else
      var u :| u in loan;
      assert |loan - {u}| < |loan| by { RemoveSmaller(loan, u); }
      Value(loan[u]) + SumValue(loan - {u})
  }

  lemma {:induction false} SumValuePick(loan: map<Address, Loan>, u: Address)
    requires u in loan
    ensures SumValue(loan) == Value(loan[u]) + SumValue(loan - {u})
    decreases |loan|
  {
    var v :| v in loan && SumValue(loan) == Value(loan[v]) + SumValue(loan - {v});
    if u != v {
      RemoveSmaller(loan, u);
      RemoveSmaller(loan, v);
      SumValuePick(loan - {v}, u);
      SumValuePick(loan - {u}, v);
      assert loan - {v} - {u} == loan - {u} - {v};
    }
  }

  lemma SumValueOf(loan: map<Address, Loan>, u: Address, l: Loan)
    ensures SumValue(loan) == Value(LoanOf(loan, u)) + SumValue(loan - {u})
    ensures SumValue(loan[u := l]) == Value(l) + SumValue(loan - {u})
  {
    SumValuePick(loan[u := l], u);
    assert loan[u := l] - {u} == loan - {u};
    if u in loan {
      SumValuePick(loan, u);
    } else {
      assert loan - {u} == loan;
    }
  }

  lemma {:induction false} SumValueSign(loan: map<Address, Loan>)
    ensures SumValue(loan) >= 0.0
    ensures (forall u :: u in loan ==> loan[u].initial == 0) ==> SumValue(loan) == 0.0
    decreases |loan|
  {
    if u :| u in loan {
      RemoveSmaller(loan, u);
      SumValuePick(loan, u);
      SumValueSign(loan - {u});
      ValueNonNeg(loan[u]);
    }
  }

  /** The recorded total is worth no more than the loans together. */
  ghost predicate TotalWithin(b: Book) {
    Value(b.total) <= SumValue(b.loan)
  }

  /** Everybody else's loans; nothing, when the list holds only u. */
  lemma RestOfLoans(b: Book, u: Address, m: Positive)
    requires BookInv(b, m) && Owes(b, u)
    ensures SumValue(b.loan - {u}) >= 0.0
    ensures b.n <= 1 ==> SumValue(b.loan - {u}) == 0.0
  {
    SumValueSign(b.loan - {u});
    if b.n <= 1 {
      forall v | v in b.loan - {u} ensures b.loan[v].initial == 0 {
        if Owes(b, v) {
          OnlyOneListed(b, u, v);
        }
      }
    }
  }

  lemma OpenWithin(b: Book, u: Address, d: nat, m: Positive)
    requires TotalWithin(b) && Open(b, u, d, m).Some?
    ensures TotalWithin(Open(b, u, d, m).value)
  {
    SumValueOf(b.loan, u, Loan(d, m));
    ValueSum(TotalAt(b.total, m), d, m);
    FloorValue(b.total, m);
  }

  /**
   * Nothing was borrowed on the only loan: then the rebased debt must cover the total at the multiplier of the step.
   */
  predicate RebasedCovers(b: Book, u: Address, m: Positive) {
    b.total.initial * m <= DebtNow(b, u, m) * b.total.mul
  }

  /**
   * Borrowing more, or any step among several loans, keeps the total within; a lone collateral step exactly when
   * covered.
   */
  lemma RebaseWithin(b: Book, u: Address, d: nat, m: Positive)
    requires BookInv(b, m) && TotalWithin(b) && Rebase(b, u, d, m).Some?
    ensures TotalWithin(Rebase(b, u, d, m).value) <==> (d == 0 && b.n <= 1 ==> RebasedCovers(b, u, m))
  {
    var l, rest := LoanOf(b.loan, u), SumValue(b.loan - {u});
    OwesMeansDebt(b, u, m, m);
    RestOfLoans(b, u, m);
    SumValueOf(b.loan, u, Loan(DebtNow(b, u, m) + d, m));
    if d != 0 {
      RaiseBound(b.total, l, d, m, b.n, rest);
    } else if b.n > 1 {
      CeilValue(l, m, b.n);
    } else {
      hide DebtAt;
      ValueOrder(b.total, Loan(DebtNow(b, u, m), m));
    }
  }

  lemma PayDownWithin(b: Book, u: Address, d: nat, m: Positive)
    requires BookInv(b, m) && TotalWithin(b) && Owes(b, u) && d <= DebtNow(b, u, m) && PayDown(b, u, d, m).Some?
    ensures TotalWithin(PayDown(b, u, d, m).value)
  {
    var l, rest := LoanOf(b.loan, u), SumValue(b.loan - {u});
    RestOfLoans(b, u, m);
    SumValueOf(b.loan, u, Loan(DebtNow(b, u, m) - d, m));
    LowerBound(b.total, l, d, m, b.n, rest);
  }

  lemma CollectWithin(b: Book, m: Positive)
    requires TotalWithin(b) && Collect(b, m).Some?
    ensures TotalWithin(Collect(b, m).value)
  {
    FloorValue(b.total, m);
  }

  /** Repaying the last loan in full leaves a total debt of exactly zero. */
  lemma ClosingLastLoan(b: Book, u: Address, m: Positive)
    requires BookInv(b, m) && TotalWithin(b) && Owes(b, u) && b.n == 1
    ensures PayDown(b, u, DebtNow(b, u, m), m).Some?
    ensures
      var b' := PayDown(b, u, DebtNow(b, u, m), m).value;
      b'.n == 0 && b'.total.initial == 0 && forall v :: !Owes(b', v)
  {
    RestOfLoans(b, u, m);
    SumValueOf(b.loan, u, NO_LOAN);
    LastLoanClosesTotal(b.total, LoanOf(b.loan, u), m);
    PayDownKeepsInv(b, u, DebtNow(b, u, m), m);
  }

  /**
   * With one borrower left, repaying in full leaves no total debt, whenever it is done, exactly when the total is
   * within.
   */
  lemma ClosingLastLoanExactly(b: Book, u: Address, m: Positive)
    requires BookInv(b, m) && Owes(b, u) && b.n == 1
    ensures forall m': Positive :: m <= m' ==> PayDown(b, u, DebtNow(b, u, m'), m').Some?
    ensures
      (forall m': Positive :: m <= m' ==> PayDown(b, u, DebtNow(b, u, m'), m').value.total.initial == 0)
      <==> TotalWithin(b)
  {
    RestOfLoans(b, u, m);
    SumValueOf(b.loan, u, NO_LOAN);
    var l := LoanOf(b.loan, u);
    forall m': Positive | m <= m'
      ensures PayDown(b, u, DebtNow(b, u, m'), m').Some?
      ensures PayDown(b, u, DebtNow(b, u, m'), m').value.total.initial == LeftAfter(b.total, l, m') {
      InvLater(b, m, m');
      PayDownKeepsInv(b, u, DebtNow(b, u, m'), m');
      PaidInFull(b, u, m');
    }
    LastLoanClosesTotalExactly(b.total, l, m);
  }

  lemma PaidInFull(b: Book, u: Address, m: Positive)
    requires b.n == 1 && PayDown(b, u, DebtNow(b, u, m), m).Some?
    ensures PayDown(b, u, DebtNow(b, u, m), m).value.total.initial == LeftAfter(b.total, LoanOf(b.loan, u), m)
  {
    hide DebtAt, TotalAt;
  }
}
