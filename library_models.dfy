/** The catalog entry (`Book`) and the lending record (`Transaction`) of
    config/library/models.py, with the penalty rules that the test suites
    pin down. Dates are whole days since a fixed epoch; money is integer
    cents, so the two-decimal `penalty_amount` column is exact. */
module LibraryModels {
  import opened Wrappers

  type Day = int
  type Cents = int
  type UserId = nat
  type BookId = nat

  // ---------------------------------------------------------------------
  // Book
  // ---------------------------------------------------------------------

  /** The four `STATUS_CHOICES`; a new book is `Available`. */
  datatype Status = Available | Maintenance | Reserved | CheckedOut

  const DefaultStatus: Status := Available

  /** The one-character code stored in the `status` column. */
  function StatusCode(s: Status): (c: char)
    ensures c in "AMRC"
  {
    match s
    case Available => 'A'
    case Maintenance => 'M'
    case Reserved => 'R'
    case CheckedOut => 'C'
  }

  /** Reads a stored status code; anything outside the choices is refused. */
  function ParseStatus(c: char): (r: Option<Status>)
    ensures r.Some? <==> c in "AMRC"
    ensures r.Some? ==> StatusCode(r.value) == c
  {
    if c == 'A' then Some(Available)
    else if c == 'M' then Some(Maintenance)
    else if c == 'R' then Some(Reserved)
    else if c == 'C' then Some(CheckedOut)
    else None
  }

  /** Every status survives the trip through its stored code. */
  lemma StatusRoundTrip(s: Status)
    ensures ParseStatus(StatusCode(s)) == Some(s)
  {
  }

  /** `isbn = CharField(max_length=13, unique=True)` */
  const IsbnMaxLength: nat := 13

  /** Copy counts are `PositiveIntegerField`s, which admit 0 and nothing
      below it: the type `nat` keeps them non-negative. */
  datatype Book = Book(
    id: BookId,
    title: string,
    author: string,
    isbn: string,
    publishDate: Day,
    totalCopies: nat,
    availableCopies: nat,
    status: Status)

  /** A book may be lent: its status is 'A' and a copy is on the shelf. */
  predicate IsAvailable(b: Book): (ok: bool)
    ensures ok ==> StatusCode(b.status) == 'A' && b.availableCopies >= 1
    ensures b.availableCopies == 0 ==> !ok
  {
    b.status == Available && b.availableCopies > 0
  }

  /** `Book.objects.create` with no status given: the field default applies. */
  function NewBook(id: BookId, title: string, author: string, isbn: string, publishDate: Day,
                   totalCopies: nat, availableCopies: nat): (b: Book)
    ensures StatusCode(b.status) == 'A'
    ensures IsAvailable(b) <==> availableCopies > 0
    ensures b.isbn == isbn && b.totalCopies == totalCopies && b.availableCopies == availableCopies
  {
    Book(id, title, author, isbn, publishDate, totalCopies, availableCopies, DefaultStatus)
  }

  /** The column constraints of the `book` table: ISBNs fit the column
      and no two rows share one. */
  predicate CatalogValid(books: seq<Book>) {
    (forall i :: 0 <= i < |books| ==> |books[i].isbn| <= IsbnMaxLength) &&
    (forall i, j :: 0 <= i < j < |books| ==> books[i].isbn != books[j].isbn)
  }

  datatype InsertError = IsbnTooLong | DuplicateIsbn

  /** Inserting a row into the `book` table: the database refuses an ISBN
      longer than the column or one already present. */
  function InsertBook(books: seq<Book>, b: Book): (r: Result<seq<Book>, InsertError>)
    ensures r.Success? <==> |b.isbn| <= IsbnMaxLength && forall c :: c in books ==> c.isbn != b.isbn
    ensures r.Success? ==> |r.value| == |books| + 1 && r.value[|books|] == b && r.value[..|books|] == books
    ensures r.Failure? ==> (r.error == IsbnTooLong <==> |b.isbn| > IsbnMaxLength)
    ensures CatalogValid(books) && r.Success? ==> CatalogValid(r.value)
  {
    if |b.isbn| > IsbnMaxLength then Failure(IsbnTooLong)
    else if exists c :: c in books && c.isbn == b.isbn then Failure(DuplicateIsbn)
    else
      var r := books + [b];
      assert forall i :: 0 <= i < |books| ==> r[i] == books[i] && books[i] in books;
      Success(r)
  }

  // ---------------------------------------------------------------------
  // Transaction
  // ---------------------------------------------------------------------

  /** The borrow period behind the `due_date` default. */
  const LoanPeriodDays: nat := 14

  /** `penalty_amount = DecimalField(max_digits=5, decimal_places=2)`:
      the largest storable amount, in cents. */
  const MaxStorableCents: Cents := 99999

  /** One lending record. `returnDate == None` means the copy is still
      out; `isOverdue` is the nullable stored flag. */
  datatype Transaction = Transaction(
    id: nat,
    user: UserId,
    book: BookId,
    checkoutDate: Day,
    dueDate: Day,
    returnDate: Option<Day>,
    isOverdue: Option<bool>,
    penaltyAmount: Cents,
    penaltyPaid: bool)

  predicate IsOpen(t: Transaction) {
    t.returnDate.None?
  }

  predicate FitsAmountColumn(c: Cents) {
    0 <= c <= MaxStorableCents
  }

  /** Whole days past the due date: counted up to `today` while the loan is
      open, and up to the return date (frozen) once it is closed. */
  function DaysOverdue(t: Transaction, today: Day): (n: nat)
    ensures IsOpen(t) ==> (n > 0 <==> today > t.dueDate)
    ensures IsOpen(t) && today >= t.dueDate ==> n == today - t.dueDate
    ensures !IsOpen(t) ==> (n > 0 <==> t.returnDate.value > t.dueDate)
  {
    var end := if t.returnDate.Some? then t.returnDate.value else today;
    if end > t.dueDate then end - t.dueDate else 0
  }

  /** Once a record is closed its overdue count no longer grows. */
  lemma DaysOverdueFrozen(t: Transaction, d1: Day, d2: Day)
    requires !IsOpen(t)
    ensures DaysOverdue(t, d1) == DaysOverdue(t, d2)
  {
  }

  /** A new record as the corrected default gives it: checked out `today`,
      due `LoanPeriodDays` later, open, no penalty, not paid. */
  function NewTransaction(id: nat, user: UserId, book: BookId, today: Day): (t: Transaction)
    ensures IsOpen(t) && t.user == user && t.book == book && t.checkoutDate == today
    ensures t.dueDate - t.checkoutDate == LoanPeriodDays
    ensures forall d :: DaysOverdue(t, d) > 0 <==> d > today + LoanPeriodDays
    ensures t.penaltyAmount == 0 && FitsAmountColumn(t.penaltyAmount) && !t.penaltyPaid
  {
    Transaction(id, user, book, today, today + LoanPeriodDays, None, None, 0, false)
  }

  /** The record as config/library/models.py:65 really builds it: the
      default due date is evaluated once, on the day `loadDay` the module
      was imported, whatever day the record is created. */
  function NewTransactionAsWritten(id: nat, user: UserId, book: BookId, loadDay: Day, today: Day): (t: Transaction)
    ensures IsOpen(t) && t.checkoutDate == today && t.dueDate == loadDay + LoanPeriodDays
    ensures t.penaltyAmount == 0 && !t.penaltyPaid
  {
    Transaction(id, user, book, today, loadDay + LoanPeriodDays, None, None, 0, false)
  }

  /** A record created more than a loan period after the process started is
      overdue on the day it is created. */
  lemma StaleDefaultDueDate(loadDay: Day, today: Day)
    requires today > loadDay + LoanPeriodDays
    ensures DaysOverdue(NewTransactionAsWritten(0, 0, 0, loadDay, today), today) == today - loadDay - LoanPeriodDays
    ensures DaysOverdue(NewTransaction(0, 0, 0, today), today) == 0
  {
  }

  /** A concrete counterexample: a server started on day 0
      creates a loan on day 30 that is already 16 days overdue. */
  lemma StaleDefaultDueDateExample()
    ensures DaysOverdue(NewTransactionAsWritten(0, 0, 0, 0, 30), 30) == 16
  {
    StaleDefaultDueDate(0, 30);
  }

  // ---------------------------------------------------------------------
  // Penalties
  // ---------------------------------------------------------------------

  /** The daily rate and the cap (`MAX_PENALTY`), in cents. */
  datatype PenaltyPolicy = PenaltyPolicy(ratePerDay: Cents, maxPenalty: Cents)

  predicate ValidPolicy(p: PenaltyPolicy) {
    0 <= p.ratePerDay && FitsAmountColumn(p.maxPenalty)
  }

  /** The penalty owed for `days` days late: the rate per day, clamped to
      the cap. */
  function PenaltyForDays(days: nat, p: PenaltyPolicy): (c: Cents)
    requires ValidPolicy(p)
    ensures 0 <= c <= p.maxPenalty && FitsAmountColumn(c)
    ensures c <= days * p.ratePerDay
    ensures c < p.maxPenalty ==> c == days * p.ratePerDay
    ensures days == 0 ==> c == 0
  {
    var raw := days * p.ratePerDay;
    if raw < p.maxPenalty then raw else p.maxPenalty
  }

  /** More days late never means a smaller penalty. */
  lemma PenaltyMonotone(d1: nat, d2: nat, p: PenaltyPolicy)
    requires ValidPolicy(p) && d1 <= d2
    ensures PenaltyForDays(d1, p) <= PenaltyForDays(d2, p)
  {
    assert d1 * p.ratePerDay <= d2 * p.ratePerDay by {
      MulMonotone(d1, d2, p.ratePerDay);
    }
  }

  lemma MulMonotone(a: nat, b: nat, k: nat)
    requires a <= b
    ensures a * k <= b * k
  {
  }

  /** Once the raw charge reaches the cap, the penalty is the cap, and it
      stays there for every later day. */
  lemma PenaltySaturates(d: nat, later: nat, p: PenaltyPolicy)
    requires ValidPolicy(p) && d * p.ratePerDay >= p.maxPenalty && d <= later
    ensures PenaltyForDays(d, p) == p.maxPenalty
    ensures PenaltyForDays(later, p) == p.maxPenalty
  {
    MulMonotone(d, later, p.ratePerDay);
  }

  /** `calculate_penalty`: the penalty for the record's overdue days. */
  function CalculatePenalty(t: Transaction, today: Day, p: PenaltyPolicy): (c: Cents)
    requires ValidPolicy(p)
    ensures 0 <= c <= p.maxPenalty
    ensures DaysOverdue(t, today) == 0 ==> c == 0
  {
    PenaltyForDays(DaysOverdue(t, today), p)
  }

  /** `apply_penalty`: stores the calculated penalty on the record and
      changes nothing else. */
  function ApplyPenalty(t: Transaction, today: Day, p: PenaltyPolicy): (r: Transaction)
    requires ValidPolicy(p)
    ensures FitsAmountColumn(r.penaltyAmount) && r.penaltyAmount <= p.maxPenalty
    ensures r.penaltyAmount == CalculatePenalty(t, today, p)
    ensures r.(penaltyAmount := t.penaltyAmount) == t
  {
    t.(penaltyAmount := CalculatePenalty(t, today, p))
  }

  /** `Transaction.pay_penalty`: marks the penalty as settled and changes
      nothing else. */
  function SettlePenalty(t: Transaction): (r: Transaction)
    ensures r.penaltyPaid
    ensures r.(penaltyPaid := t.penaltyPaid) == t
  {
    t.(penaltyPaid := true)
  }
}
