/** The patron side of config/accounts/models.py: the user record with its
    manager's argument checks, and the unpaid-penalty total that decides
    whether a patron may borrow. */
module AccountsModels {
  import opened Wrappers
  import opened LibraryModels

  // ---------------------------------------------------------------------
  // Users and their manager
  // ---------------------------------------------------------------------

  /** A user row. Emails are opaque strings (normalisation belongs to the
      framework); `isAdmin` is the ad-hoc attribute `create_superuser` sets. */
  class User {
    var email: string
    var firstName: string
    var lastName: string
    var username: string
    var isActive: bool
    var isStaff: bool
    var isSuperuser: bool
    var isAdmin: bool

    /** `self.model(...)`: a user with the field defaults of the model. */
    constructor (email: string, firstName: string, lastName: string, username: string)
      ensures this.email == email && this.firstName == firstName
      ensures this.lastName == lastName && this.username == username
      ensures isActive && !isStaff && !isSuperuser && !isAdmin
    {
      this.email := email;
      this.firstName := firstName;
      this.lastName := lastName;
      this.username := username;
      isActive := true;
      isStaff := false;
      isSuperuser := false;
      isAdmin := false;
    }
  }

  datatype AccountError = MissingEmail | MissingUsername

  /** `UserManager.create_user`: an empty email is refused first, then an
      empty username; otherwise a fresh ordinary user is built. */
  method CreateUser(email: string, firstName: string, lastName: string, username: string, password: string)
    returns (r: Result<User, AccountError>)
    ensures r.Failure? <==> email == [] || username == []
    ensures email == [] ==> r == Failure(MissingEmail)
    ensures email != [] && username == [] ==> r == Failure(MissingUsername)
    ensures r.Success? ==> fresh(r.value)
    ensures r.Success? ==> r.value.email == email && r.value.username == username
    ensures r.Success? ==> r.value.firstName == firstName && r.value.lastName == lastName
    ensures r.Success? ==> r.value.isActive && !r.value.isStaff && !r.value.isSuperuser && !r.value.isAdmin
  {
    if email == [] {
      return Failure(MissingEmail);
    }
    if username == [] {
      return Failure(MissingUsername);
    }
    var user := new User(email, firstName, lastName, username);
    return Success(user);
  }

  /** `UserManager.create_superuser`: the same checks through `create_user`,
      then the three privilege flags are raised on the new user. */
  method CreateSuperuser(firstName: string, lastName: string, email: string, username: string, password: string)
    returns (r: Result<User, AccountError>)
    ensures r.Failure? <==> email == [] || username == []
    ensures email == [] ==> r == Failure(MissingEmail)
    ensures email != [] && username == [] ==> r == Failure(MissingUsername)
    ensures r.Success? ==> fresh(r.value)
    ensures r.Success? ==> r.value.email == email && r.value.username == username
    ensures r.Success? ==> r.value.firstName == firstName && r.value.lastName == lastName
    ensures r.Success? ==> r.value.isActive && r.value.isStaff && r.value.isSuperuser && r.value.isAdmin
  {
    r := CreateUser(email, firstName, lastName, username, password);
    if r.Success? {
      var user := r.value;
      user.isAdmin := true;
      user.isStaff := true;
      user.isSuperuser := true;
    }
  }

  // ---------------------------------------------------------------------
  // Unpaid penalties and borrowing eligibility
  // ---------------------------------------------------------------------

  /** `MAX_UNPAID_PENALTIES = Decimal('60.00')`, in cents. */
  const MaxUnpaidPenalties: Cents := 6000

  /** What one record adds to `u`'s unpaid total. */
  function UnpaidShare(t: Transaction, u: UserId): Cents {
    if t.user == u && !t.penaltyPaid then t.penaltyAmount else 0
  }

  /** `User.total_penalties`: the sum of `penalty_amount` over the user's
      records whose penalty is not paid. */
  function TotalPenalties(records: seq<Transaction>, u: UserId): (total: Cents)
    ensures (forall i :: 0 <= i < |records| ==> records[i].penaltyAmount >= 0) ==> total >= 0
    ensures (forall i :: 0 <= i < |records| && records[i].user == u ==> records[i].penaltyPaid) ==> total == 0
  {
    if records == [] then 0
    else TotalPenalties(records[..|records| - 1], u) + UnpaidShare(records[|records| - 1], u)
  }

  /** `User.can_borrow_books`: the unpaid total is strictly below 60.00. */
  predicate CanBorrowBooks(records: seq<Transaction>, u: UserId): (ok: bool)
    ensures (forall i :: 0 <= i < |records| && records[i].user == u ==> records[i].penaltyPaid) ==> ok
    ensures TotalPenalties(records, u) == MaxUnpaidPenalties ==> !ok
  {
    TotalPenalties(records, u) < MaxUnpaidPenalties
  }

  /** A patron with no unpaid record owes nothing and may borrow. */
  lemma NoUnpaidMeansEligible(records: seq<Transaction>, u: UserId)
    requires forall i :: 0 <= i < |records| && records[i].user == u ==> records[i].penaltyPaid
    ensures TotalPenalties(records, u) == 0 && CanBorrowBooks(records, u)
  {
  }

  /** Appending a record adds exactly its own unpaid share. */
  lemma TotalAppend(records: seq<Transaction>, t: Transaction, u: UserId)
    ensures TotalPenalties(records + [t], u) == TotalPenalties(records, u) + UnpaidShare(t, u)
  {
    assert (records + [t])[..|records|] == records;
  }

  /** Settling record `i` removes exactly its unpaid share from the total
      and leaves every other patron's total as it was. */
  lemma {:induction false} SettlingLowersTotal(records: seq<Transaction>, i: nat, u: UserId)
    requires i < |records|
    ensures TotalPenalties(records[i := SettlePenalty(records[i])], u)
         == TotalPenalties(records, u) - UnpaidShare(records[i], u)
    decreases |records|
  {
    var settled := records[i := SettlePenalty(records[i])];
    var n := |records| - 1;
    if i == n {
      assert settled[..n] == records[..n];
    } else {
      assert settled[..n] == records[..n][i := SettlePenalty(records[..n][i])];
      SettlingLowersTotal(records[..n], i, u);
    }
  }

  /** Paying a penalty never raises the total, so it never costs a patron
      the right to borrow. */
  lemma SettlingKeepsEligibility(records: seq<Transaction>, i: nat, u: UserId)
    requires i < |records| && records[i].penaltyAmount >= 0
    ensures TotalPenalties(records[i := SettlePenalty(records[i])], u) <= TotalPenalties(records, u)
    ensures CanBorrowBooks(records, u) ==> CanBorrowBooks(records[i := SettlePenalty(records[i])], u)
  {
    SettlingLowersTotal(records, i, u);
  }
}
