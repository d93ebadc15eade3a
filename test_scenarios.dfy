/** The examples of config/library/tests.py and config/api/tests.py as
    statements about the model. The penalty methods they exercise are not
    in the model source, so the suites' penalty assertions, read for the
    amounts they intend, are also what fixes the policy: a rate of 1.00
    per day and a cap between 20.00 and 30.00. */
module TestScenarios {
  import opened LibraryModels
  import opened AccountsModels
  import opened ApiViews

  /** Record `id`, created on `today` for user 0, whose due date the test
      has moved `late` days into the past. */
  function OverdueBy(id: nat, today: Day, late: nat): (t: Transaction)
    ensures IsOpen(t) && t.id == id && t.user == 0 && t.penaltyAmount == 0 && !t.penaltyPaid
    ensures DaysOverdue(t, today) == late
  {
    NewTransaction(id, 0, 0, today).(dueDate := today - late)
  }

  /** Three records 20 days late, with ids 1, 2 and 3, each with its
      penalty applied. */
  function ThreeLateRecords(today: Day, p: PenaltyPolicy): seq<Transaction>
    requires ValidPolicy(p)
  {
    [ApplyPenalty(OverdueBy(1, today, 20), today, p),
     ApplyPenalty(OverdueBy(2, today, 20), today, p),
     ApplyPenalty(OverdueBy(3, today, 20), today, p)]
  }

  /** Every penalty assertion of the two suites, for one policy. */
  predicate TestsAccept(p: PenaltyPolicy, today: Day): (ok: bool)
    requires ValidPolicy(p)
    ensures ok ==> 1000 <= p.maxPenalty && 100 <= p.ratePerDay
  {
    // library/tests.py test_penalty_calculation and test_max_penalty
    CalculatePenalty(OverdueBy(0, today, 10), today, p) == (if 1000 < p.maxPenalty then 1000 else p.maxPenalty) &&
    CalculatePenalty(OverdueBy(0, today, 60), today, p) == p.maxPenalty &&
    // api/tests.py test_penalty_calculation and test_max_penalty
    CalculatePenalty(OverdueBy(0, today, 10), today, p) == 1000 &&
    CalculatePenalty(OverdueBy(0, today, 30), today, p) == p.maxPenalty &&
    // api/tests.py test_get_unpaid_penalties
    |UnpaidPenalties([ApplyPenalty(OverdueBy(0, today, 5), today, p)], 0).penalties| == 1 &&
    UnpaidPenalties([ApplyPenalty(OverdueBy(0, today, 5), today, p)], 0).totalAmount == 500 &&
    // library/tests.py test_user_can_borrow_books
    !CanBorrowBooks(ThreeLateRecords(today, p), 0)
  }

  /** A record due five days ago is five days overdue. */
  lemma FiveDaysOverdue(today: Day)
    ensures DaysOverdue(OverdueBy(0, today, 5), today) == 5
    ensures CalculatePenalty(OverdueBy(0, today, 5), today, PenaltyPolicy(100, 2000)) == 500
  {
  }

  lemma ThreeLateTotal(today: Day, p: PenaltyPolicy)
    requires ValidPolicy(p)
    ensures TotalPenalties(ThreeLateRecords(today, p), 0) == 3 * PenaltyForDays(20, p)
  {
    var s := ThreeLateRecords(today, p);
    var t1, t2, t3 := s[0], s[1], s[2];
    assert UnpaidShare(t1, 0) == PenaltyForDays(20, p);
    assert UnpaidShare(t2, 0) == PenaltyForDays(20, p);
    assert UnpaidShare(t3, 0) == PenaltyForDays(20, p);
    assert TotalPenalties([t1], 0) == UnpaidShare(t1, 0) by {
      assert [t1][..0] == [];
    }
    assert TotalPenalties([t1, t2], 0) == TotalPenalties([t1], 0) + UnpaidShare(t2, 0) by {
      assert [t1, t2][..1] == [t1];
    }
    assert TotalPenalties(s, 0) == TotalPenalties([t1, t2], 0) + UnpaidShare(t3, 0) by {
      assert s == [t1, t2, t3] && s[..2] == [t1, t2];
    }
  }

  lemma SingleReport(today: Day, p: PenaltyPolicy)
    requires ValidPolicy(p)
    ensures var t := ApplyPenalty(OverdueBy(0, today, 5), today, p);
      UnpaidPenalties([t], 0).penalties == (if t.penaltyAmount > 0 then [t] else []) &&
      UnpaidPenalties([t], 0).totalAmount == t.penaltyAmount
  {
    var t := ApplyPenalty(OverdueBy(0, today, 5), today, p);
    assert [t][..0] == [];
    assert UserTransactions([t], 0) == [t];
    if t.penaltyAmount > 0 {
      assert Owing([t]) == [t];
      assert SumAmounts([t]) == t.penaltyAmount;
    } else {
      assert Owing([t]) == [];
    }
  }

  /** The suites' assertions, read as conditions on the penalty for a
      number of days. */
  lemma TestsAcceptMeans(p: PenaltyPolicy, today: Day)
    requires ValidPolicy(p)
    ensures TestsAccept(p, today) <==>
      PenaltyForDays(10, p) == 1000 && PenaltyForDays(60, p) == p.maxPenalty &&
      PenaltyForDays(30, p) == p.maxPenalty && PenaltyForDays(5, p) == 500 &&
      3 * PenaltyForDays(20, p) >= MaxUnpaidPenalties
  {
    ThreeLateTotal(today, p);
    SingleReport(today, p);
    assert CalculatePenalty(OverdueBy(0, today, 5), today, p) == PenaltyForDays(5, p);
    assert CalculatePenalty(OverdueBy(0, today, 10), today, p) == PenaltyForDays(10, p);
    assert CalculatePenalty(OverdueBy(0, today, 30), today, p) == PenaltyForDays(30, p);
    assert CalculatePenalty(OverdueBy(0, today, 60), today, p) == PenaltyForDays(60, p);
  }

  /** The suites' penalty assertions hold for exactly the policies charging 1.00 per day with
      a cap from 20.00 to 30.00 (60.00 of unpaid penalties blocks
      borrowing, so three 20-day penalties must reach 20.00 each). */
  lemma TestsPinPolicy(p: PenaltyPolicy, today: Day)
    requires ValidPolicy(p)
    ensures TestsAccept(p, today) <==> p.ratePerDay == 100 && 2000 <= p.maxPenalty <= 3000
  {
    TestsAcceptMeans(p, today);
  }

  /** The cap must be at most 30.00: with a 40.00 or 60.00 cap the
      suites' penalty assertions fail whatever the rate. At 1.00 per day
      the 30-day assertion fails; at any other rate the 10-day one does. */
  lemma LargerCapsFailTests(today: Day, rate: Cents)
    requires 0 <= rate
    ensures !TestsAccept(PenaltyPolicy(rate, 4000), today)
    ensures !TestsAccept(PenaltyPolicy(rate, 6000), today)
  {
    TestsPinPolicy(PenaltyPolicy(rate, 4000), today);
    TestsPinPolicy(PenaltyPolicy(rate, 6000), today);
  }

  /** api/tests.py test_pay_penalty: the requester pays the 5.00 penalty
      of their one record with a credit card, and it is marked paid. */
  method PayPenaltyScenario(today: Day) returns (outcome: PayOutcome, paidAfter: bool)
    ensures outcome == Paid && paidAfter
  {
    var p := PenaltyPolicy(100, 2000);
    var t := ApplyPenalty(OverdueBy(0, today, 5), today, p);
    var store := new TransactionStore([t]);
    outcome := store.PayPenalty(0, 0, "credit_card");
    paidAfter := store.records[0].penaltyPaid;
  }

  /** api/tests.py test_pay_already_paid_penalty: paying a record already
      marked paid is refused and the record is left as it was. */
  method PayAlreadyPaidScenario(today: Day) returns (outcome: PayOutcome, recordKept: bool)
    ensures outcome == AlreadyPaid && recordKept
  {
    var p := PenaltyPolicy(100, 2000);
    var t := ApplyPenalty(OverdueBy(0, today, 5), today, p).(penaltyPaid := true);
    var store := new TransactionStore([t]);
    outcome := store.PayPenalty(0, 0, "credit_card");
    recordKept := store.records == [t];
  }
}
