/** The business rules in config/api/views.py: the available-books list,
    the per-user transaction listing, the unpaid-penalty report, and the
    `pay_penalty` action, which changes one stored record in place. */
module ApiViews {
  import opened Wrappers
  import opened LibraryModels
  import opened AccountsModels
  import opened ApiSerializers

  /** `BookViewSet.available`: the books with status 'A' and at least one
      copy on the shelf, each as often as the queryset `books` lists it and
      in the queryset's order. */
  function AvailableBooks(books: seq<Book>): (r: seq<Book>)
    ensures forall b :: b in r <==> b in books && IsAvailable(b)
    ensures forall b :: multiset(r)[b] == if IsAvailable(b) then multiset(books)[b] else 0
    ensures |r| <= |books|
  {
    if books == [] then []
    else
      var n := |books| - 1;
      var last := books[n];
      assert books == books[..n] + [last];
      assert multiset(books) == multiset(books[..n]) + multiset{last};
      AvailableBooks(books[..n]) + (if IsAvailable(last) then [last] else [])
  }

  /** `TransactionViewSet.get_queryset`: only the requesting user's
      records, in the order of the table sequence `records`. */
  function UserTransactions(records: seq<Transaction>, u: UserId): (r: seq<Transaction>)
    ensures forall t :: t in r <==> t in records && t.user == u
    ensures |r| <= |records|
  {
    if records == [] then []
    else
      var last := records[|records| - 1];
      UserTransactions(records[..|records| - 1], u) + (if last.user == u then [last] else [])
  }

  /** One more book in the queryset: it is listed last iff available. */
  lemma AvailableBooksAppend(books: seq<Book>, b: Book)
    ensures AvailableBooks(books + [b]) == AvailableBooks(books) + (if IsAvailable(b) then [b] else [])
  {
    assert (books + [b])[..|books|] == books;
  }

  /** `get_object` on that queryset: the position of the record with
      primary key `pk`, provided it belongs to `u`. */
  function FindOwn(records: seq<Transaction>, u: UserId, pk: nat): (r: Option<nat>)
    ensures r.Some? ==> r.value < |records| && records[r.value].id == pk && records[r.value].user == u
    ensures r.None? <==> forall i :: 0 <= i < |records| ==> !(records[i].id == pk && records[i].user == u)
  {
    if records == [] then None
    else
      var n := |records| - 1;
      var earlier := FindOwn(records[..n], u, pk);
      if earlier.Some? then earlier
      else if records[n].id == pk && records[n].user == u then Some(n)
      else None
  }

  /** A record with a penalty still to pay. */
  predicate OwesPenalty(t: Transaction) {
    !t.penaltyPaid && t.penaltyAmount > 0
  }

  /** The `.filter(penalty_paid=False, penalty_amount__gt=0)` step. */
  function Owing(s: seq<Transaction>): (r: seq<Transaction>)
    ensures forall t :: t in r <==> t in s && OwesPenalty(t)
    ensures forall i :: 0 <= i < |r| ==> r[i].penaltyAmount > 0
  {
    if s == [] then []
    else
      var last := s[|s| - 1];
      Owing(s[..|s| - 1]) + (if OwesPenalty(last) then [last] else [])
  }

  /** The sum of the amounts of `s`. */
  function SumAmounts(s: seq<Transaction>): (total: Cents)
    ensures (forall i :: 0 <= i < |s| ==> s[i].penaltyAmount > 0) ==> (total >= 0 && (total == 0 <==> s == []))
  {
    if s == [] then 0 else SumAmounts(s[..|s| - 1]) + s[|s| - 1].penaltyAmount
  }

  /** `Sum('penalty_amount')` over a queryset: SQL's SUM, which is NULL
      over no rows. */
  function AggregateSum(s: seq<Transaction>): Option<Cents> {
    if s == [] then None else Some(SumAmounts(s))
  }

  /** Python's `x or 0`: a missing or zero aggregate reads as 0. */
  function OrZero(x: Option<Cents>): Cents {
    if x.Some? && x.value != 0 then x.value else 0
  }

  datatype UnpaidReport = UnpaidReport(penalties: seq<Transaction>, totalAmount: Cents)

  /** `TransactionViewSet.unpaid_penalties`: the user's records with an
      unpaid, positive penalty, and their total (0 when there are none). */
  function UnpaidPenalties(records: seq<Transaction>, u: UserId): (r: UnpaidReport)
    ensures forall t :: t in r.penalties <==> t in records && t.user == u && OwesPenalty(t)
    ensures r.totalAmount == SumAmounts(r.penalties)
    ensures r.totalAmount >= 0 && (r.totalAmount == 0 <==> r.penalties == [])
  {
    var penalties := Owing(UserTransactions(records, u));
    UnpaidReport(penalties, OrZero(AggregateSum(penalties)))
  }

  lemma UserTransactionsAppend(records: seq<Transaction>, t: Transaction, u: UserId)
    ensures UserTransactions(records + [t], u) == UserTransactions(records, u) + (if t.user == u then [t] else [])
  {
    assert (records + [t])[..|records|] == records;
  }

  lemma OwingAppend(s: seq<Transaction>, t: Transaction)
    ensures Owing(s + [t]) == Owing(s) + (if OwesPenalty(t) then [t] else [])
  {
    assert (s + [t])[..|s|] == s;
  }

  lemma SumAmountsAppend(s: seq<Transaction>, t: Transaction)
    ensures SumAmounts(s + [t]) == SumAmounts(s) + t.penaltyAmount
  {
    assert (s + [t])[..|s|] == s;
  }

  /** The report's total, as a sum over the two filters. */
  function OwedTotal(records: seq<Transaction>, u: UserId): Cents {
    SumAmounts(Owing(UserTransactions(records, u)))
  }

  /** The owed sum of a sequence with one more record. */
  lemma {:induction false} OwedSumAppend(mine: seq<Transaction>, t: Transaction)
    ensures SumAmounts(Owing(mine + [t])) == SumAmounts(Owing(mine)) + (if OwesPenalty(t) then t.penaltyAmount else 0)
  {
    OwingAppend(mine, t);
    if OwesPenalty(t) {
      SumAmountsAppend(Owing(mine), t);
    } else {
      assert Owing(mine) + [] == Owing(mine);
    }
  }

  /** One record more: both totals grow by the same share. */
  lemma {:induction false} OwedTotalStep(records: seq<Transaction>, u: UserId)
    requires records != [] && records[|records| - 1].penaltyAmount >= 0
    ensures OwedTotal(records, u) - OwedTotal(records[..|records| - 1], u) == UnpaidShare(records[|records| - 1], u)
  {
    var n := |records| - 1;
    var prefix, last := records[..n], records[n];
    var mine := UserTransactions(prefix, u);
    assert UserTransactions(records, u) == mine + (if last.user == u then [last] else []);
    if last.user == u {
      OwedSumAppend(mine, last);
    } else {
      assert mine + [] == mine;
    }
  }

  lemma {:induction false} OwedTotalIsTotalPenalties(records: seq<Transaction>, u: UserId)
    requires forall i :: 0 <= i < |records| ==> records[i].penaltyAmount >= 0
    ensures OwedTotal(records, u) == TotalPenalties(records, u)
    decreases |records|
  {
    if records != [] {
      OwedTotalIsTotalPenalties(records[..|records| - 1], u);
      OwedTotalStep(records, u);
      assert TotalPenalties(records, u)
          == TotalPenalties(records[..|records| - 1], u) + UnpaidShare(records[|records| - 1], u);
    }
  }

  /** While no amount is negative, the report's total is the same number
      as `User.total_penalties`: records with a zero amount add nothing to
      either side. */
  lemma UnpaidReportMatchesTotalPenalties(records: seq<Transaction>, u: UserId)
    requires forall i :: 0 <= i < |records| ==> records[i].penaltyAmount >= 0
    ensures UnpaidPenalties(records, u).totalAmount == TotalPenalties(records, u)
  {
    OwedTotalIsTotalPenalties(records, u);
  }

  /** How a `pay_penalty` request ends. */
  datatype PayOutcome = Paid | NotFound | InvalidPaymentMethod | AlreadyPaid | NoPenaltyToPay

  /** `id` is the table's primary key: no two records share one. */
  predicate IdsUnique(records: seq<Transaction>) {
    forall i, j :: 0 <= i < j < |records| ==> records[i].id != records[j].id
  }

  /** The `transaction` table as the view set reaches it. */
  class TransactionStore {
    var records: seq<Transaction>

    ghost predicate Valid()
      reads this
    {
      IdsUnique(records)
    }

    constructor (records: seq<Transaction>)
      requires IdsUnique(records)
      ensures Valid() && this.records == records
    {
      this.records := records;
    }

    /** `TransactionViewSet.pay_penalty`: find the requester's record, then
        check in order the payment method, an earlier payment and a
        positive amount; only when all pass is the record marked paid,
        which lowers the requester's unpaid total by its amount. */
    method PayPenalty(requester: UserId, pk: nat, paymentMethod: string) returns (outcome: PayOutcome)
      requires Valid()
      modifies this
      ensures Valid()
      ensures FindOwn(old(records), requester, pk).None? ==> outcome == NotFound
      ensures FindOwn(old(records), requester, pk).Some? ==>
        var t := old(records)[FindOwn(old(records), requester, pk).value];
        outcome == (if ParsePaymentMethod(paymentMethod).None? then InvalidPaymentMethod
                    else if t.penaltyPaid then AlreadyPaid
                    else if t.penaltyAmount <= 0 then NoPenaltyToPay
                    else Paid)
      ensures outcome == Paid ==>
        var i := FindOwn(old(records), requester, pk).value;
        records == old(records)[i := SettlePenalty(old(records)[i])] &&
        TotalPenalties(records, requester) == old(TotalPenalties(records, requester)) - old(records)[i].penaltyAmount
      ensures outcome != Paid ==> records == old(records)
    {
      var found := FindOwn(records, requester, pk);
      if found.None? {
        return NotFound;
      }
      var i := found.value;
      var t := records[i];
      if ParsePaymentMethod(paymentMethod).None? {
        return InvalidPaymentMethod;
      }
      if t.penaltyPaid {
        return AlreadyPaid;
      }
      if t.penaltyAmount <= 0 {
        return NoPenaltyToPay;
      }
      SettlingLowersTotal(records, i, requester);
      records := records[i := SettlePenalty(t)];
      outcome := Paid;
    }
  }

  /** Paying the same penalty twice: the first request settles it, the
      second is refused and changes nothing. */
  method PayTwice(store: TransactionStore, requester: UserId, pk: nat, paymentMethod: string)
    returns (first: PayOutcome, second: PayOutcome)
    requires store.Valid()
    modifies store
    ensures first == Paid ==> second == AlreadyPaid
    ensures first == Paid ==> TotalPenalties(store.records, requester) < old(TotalPenalties(store.records, requester))
    ensures first != Paid ==> second == first && store.records == old(store.records)
  {
    first := store.PayPenalty(requester, pk, paymentMethod);
    ghost var afterFirst := store.records;
    second := store.PayPenalty(requester, pk, paymentMethod);
    if first == Paid {
      ghost var i := FindOwn(old(store.records), requester, pk).value;
      assert FindOwn(afterFirst, requester, pk) == Some(i) by {
        FindOwnIgnoresSettlement(old(store.records), i, requester, pk);
      }
    }
  }

  /** Marking a record paid does not change which record a lookup finds. */
  lemma {:induction false} FindOwnIgnoresSettlement(records: seq<Transaction>, i: nat, u: UserId, pk: nat)
    requires i < |records|
    ensures FindOwn(records[i := SettlePenalty(records[i])], u, pk) == FindOwn(records, u, pk)
    decreases |records|
  {
    var settled := records[i := SettlePenalty(records[i])];
    var n := |records| - 1;
    if i == n {
      assert settled[..n] == records[..n];
    } else {
      assert settled[..n] == records[..n][i := SettlePenalty(records[..n][i])];
      FindOwnIgnoresSettlement(records[..n], i, u, pk);
    }
  }
}
