# Lending and penalty rules of the LMS library app

This project models the rule set of a small Django lending library: the
`Book` catalog entry and its availability, the `Transaction` lending
record with its due date and fixed-point penalty, the patron's unpaid
total that decides `can_borrow_books`, the `pay_penalty` action that
settles one stored record in place, and the serializer validators that
gate book data, checkouts, payment methods and profile pictures.

Modelling choices:

- Money is integer cents. `penalty_amount` is `DecimalField(max_digits=5,
  decimal_places=2)`, so a storable non-negative amount is 0..99999 cents.
- Dates are whole days (`Day = int`). The clock is a parameter `today`.
- The penalty policy (daily rate, `MAX_PENALTY`) is a parameter
  `PenaltyPolicy`. `TestScenarios.TestsPinPolicy` proves that the test
  suites' penalty assertions hold for exactly rate 1.00 per day and a cap
  from 20.00 to 30.00. With a 40.00 or 60.00 cap those assertions fail
  whatever the rate: at 1.00 per day the 30-day one fails, and at any
  other rate the 10-day one does (`LargerCapsFailTests`).
- `days_overdue`, `calculate_penalty`, `apply_penalty` and
  `Transaction.pay_penalty` are called by the tests and views but have no
  body in config/library/models.py. The model gives them the behaviour the
  tests assert. `days_overdue` counts up to `today` while a loan is open
  and stops at the return date once it is closed.
- `book.is_available` (config/api/serializers.py:112) is not defined on
  the Book model. It is modelled as the `available` filter's predicate:
  status `'A'` and at least one copy on the shelf.
- config/api/views.py:27 names `Book.Status.AVAILABLE`, which the Book
  model does not define. It is modelled as status code `'A'`, which is
  what the filter plainly means.
- The tables are sequences: the `book` table is a `seq<Book>` and the
  `transaction` table is the `records` field of `ApiViews.TransactionStore`.
  `pay_penalty` reassigns that field.
- Emails are opaque strings. `normalize_email` is treated as the identity.
- Copy counts are `PositiveIntegerField`s, which admit 0, so they are `nat`.
  A new book's status defaults to `'A'` (`LibraryModels.NewBook`).
- The model follows the code where a tidier rule might be expected:
  - `status` is a stored column, not derived from the copy count.
  - The checkout validator refuses a user who holds ANY open loan, not
    only one for the same book.
  - The checkout validator does not consult `can_borrow_books`.
  - `pay_penalty` refuses any amount `<= 0`, not only 0.

Modules: `Wrappers` (Option, Result), `LibraryModels`
(config/library/models.py), `AccountsModels` (config/accounts/models.py),
`ApiSerializers` (config/api/serializers.py), `ApiViews`
(config/api/views.py), `TestScenarios` (the two test suites as lemmas and
small client methods).

## Model

| member | source | states |
|---|---|---|
| `LibraryModels.StatusCode` | config/library/models.py:20-25 | every status is stored as one of the codes A, M, R, C |
| `LibraryModels.ParseStatus` | config/library/models.py:32-37 | a stored code is accepted iff it is one of the four choices, and it maps back to that code |
| `LibraryModels.StatusRoundTrip` | config/library/models.py:20-25 | every status survives the trip through its stored code |
| `LibraryModels.IsAvailable` | config/api/views.py:27 | an available book has status code A and at least one copy; a book with no copy on the shelf is never available |
| `LibraryModels.NewBook` | config/library/models.py:30-37 | a book created without a status gets status code A, and is available iff it has a copy on the shelf |
| `LibraryModels.InsertBook` | config/library/models.py:28 | an insert succeeds iff the ISBN fits 13 characters and no stored book has it; on success the row is appended and the catalog keeps unique, fitting ISBNs |
| `LibraryModels.DaysOverdue` | config/library/models.py:64-66 | an open record is overdue (n > 0) iff today is past the due date, and then n is the day difference; a closed record is overdue iff it was returned after its due date |
| `LibraryModels.DaysOverdueFrozen` | config/library/models.py:66 | once the return date is set, the overdue count no longer depends on today |
| `LibraryModels.NewTransaction` | config/library/models.py:62-67 | a new record is open, checked out today, due 14 days later, overdue exactly after that day, with penalty 0.00 unpaid |
| `LibraryModels.NewTransactionAsWritten` | config/library/models.py:65 | the record as written: its due date is the module-load day plus 14, whatever the creation day |
| `LibraryModels.StaleDefaultDueDate` | config/library/models.py:65 | a record created more than 14 days after module load is overdue on its creation day, while the corrected record is not |
| `LibraryModels.StaleDefaultDueDateExample` | config/library/models.py:65 | loaded on day 0 and created on day 30, the as-written record is 16 days overdue at creation |
| `LibraryModels.PenaltyForDays` | config/api/tests.py:34-48 | the penalty is between 0 and the cap, never above rate times days, equal to rate times days below the cap, and 0 for 0 days |
| `LibraryModels.PenaltyMonotone` | config/library/tests.py:36-59 | more overdue days never give a smaller penalty |
| `LibraryModels.PenaltySaturates` | config/library/tests.py:49-59 | once the raw charge reaches the cap, the penalty is the cap for that day and every later one |
| `LibraryModels.CalculatePenalty` | config/library/tests.py:36-47 | the calculated penalty lies between 0 and `MAX_PENALTY` and is 0 for a record not overdue |
| `LibraryModels.ApplyPenalty` | config/api/tests.py:72 | applying stores the calculated penalty, which fits the amount column, and changes no other field |
| `LibraryModels.SettlePenalty` | config/api/views.py:66 | settling sets `penalty_paid` and changes no other field |
| `AccountsModels.User.constructor` | config/accounts/models.py:16-21 | a new user carries the given names and email, is active, and is not staff, superuser or admin |
| `AccountsModels.CreateUser` | config/accounts/models.py:8-26 | fails iff email or username is empty, the email check first; otherwise returns a fresh ordinary user with the given fields |
| `AccountsModels.CreateSuperuser` | config/accounts/models.py:29-44 | the same failures as `create_user`; on success a fresh user with `is_admin`, `is_staff` and `is_superuser` all true |
| `AccountsModels.TotalPenalties` | config/accounts/models.py:66-72 | the sum of the user's unpaid amounts; never negative when no amount is, and 0 when all of the user's records are paid |
| `AccountsModels.NoUnpaidMeansEligible` | config/accounts/models.py:74-77 | a user with no unpaid record has total 0 and can borrow |
| `AccountsModels.CanBorrowBooks` | config/accounts/models.py:74-77 | a user with no unpaid record may borrow, and an unpaid total of exactly 60.00 blocks borrowing |
| `AccountsModels.TotalAppend` | config/accounts/models.py:69-72 | one more record adds exactly its own unpaid share to the total |
| `AccountsModels.SettlingLowersTotal` | config/accounts/models.py:69-72 | settling one record lowers the total by exactly that record's unpaid share, for every user |
| `AccountsModels.SettlingKeepsEligibility` | config/accounts/models.py:74-77 | settling a record never raises the total, so a user who could borrow still can |
| `ApiSerializers.ValidateIsbn` | config/api/serializers.py:42-44 | an ISBN is accepted iff it has exactly 13 characters, and it is returned unchanged |
| `ApiSerializers.ValidateBook` | config/api/serializers.py:61-65 | book data is refused iff available copies exceed total copies, an omitted count reading 0; accepted data is returned unchanged |
| `ApiSerializers.ValidatedBookIsSound` | config/api/serializers.py:42-64 | a complete payload that passes both validators has available at most total and an ISBN that fits the column |
| `ApiSerializers.OpenCount` | config/api/serializers.py:115-118 | the count of a user's open records is 0 iff none of the user's records is open |
| `ApiSerializers.ValidateTransaction` | config/api/serializers.py:109-123 | a checkout is accepted iff the given book is available and the given user holds no open record; an unavailable book is refused as such first, and otherwise a user with an open record is refused for the checkout limit; accepted data is returned unchanged |
| `ApiSerializers.ValidatedCheckoutKeepsOneOpenLoan` | config/api/serializers.py:115-121 | when every user has at most one open loan, adding an open record for an accepted user keeps it so |
| `ApiSerializers.ParsePaymentMethod` | config/api/serializers.py:125-129 | a payment method is accepted iff it is `credit_card`, `debit_card` or `M-pesa`, spelled exactly |
| `ApiSerializers.PaymentMethodRoundTrip` | config/api/serializers.py:127 | every choice is accepted under its own name |
| `ApiSerializers.ValidateProfilePic` | config/api/serializers.py:191-193 | a picture is accepted iff it is at most 1024*1024 bytes, and returned unchanged |
| `ApiViews.AvailableBooks` | config/api/views.py:27 | the list holds exactly the queryset's books with status A and a copy on the shelf, each as many times as the queryset lists it, in the queryset's order |
| `ApiViews.AvailableBooksAppend` | config/api/views.py:27 | one more book in the queryset is listed last iff it is available |
| `ApiViews.UserTransactions` | config/api/views.py:41-42 | the listing holds exactly the requesting user's records |
| `ApiViews.FindOwn` | config/api/views.py:47 | a lookup finds a record only if it has that key and belongs to the requester, and fails iff no such record exists |
| `ApiViews.Owing` | config/api/views.py:78-81 | keeps exactly the records with an unpaid, positive penalty |
| `ApiViews.SumAmounts` | config/api/views.py:82-84 | a sum of positive amounts is non-negative and 0 iff there are no records |
| `ApiViews.UnpaidPenalties` | config/api/views.py:78-84 | the report lists exactly the user's unpaid positive penalties and totals them, the total being 0 iff the list is empty |
| `ApiViews.UnpaidReportMatchesTotalPenalties` | config/api/views.py:82-84 | while no amount is negative, the report total equals `User.total_penalties` |
| `ApiViews.TransactionStore.PayPenalty` | config/api/views.py:44-73 | with unique record ids kept as an invariant: lookup, then payment method, then already paid, then no penalty, each refusal leaving the table unchanged; on success only that record is marked paid and the requester's total drops by its amount |
| `ApiViews.PayTwice` | config/api/views.py:53-57 | a second payment of a just-paid penalty is refused as already paid |
| `TestScenarios.OverdueBy` | config/library/tests.py:28-32 | a test record with the given id, due `late` days ago, is open, unpaid, and exactly `late` days overdue |
| `TestScenarios.TestsAccept` | config/library/tests.py:36-71 | the suites' penalty assertions for one policy; any policy passing them has a cap of at least 10.00 and a rate of at least 1.00 per day |
| `TestScenarios.FiveDaysOverdue` | config/library/tests.py:26-34 | a record due five days ago is five days overdue and owes 5.00 at 1.00 per day |
| `TestScenarios.ThreeLateTotal` | config/library/tests.py:61-71 | three penalty-applied records 20 days late total three times the 20-day penalty |
| `TestScenarios.SingleReport` | config/api/tests.py:74-80 | the report for one penalty-applied record lists it, when its amount is positive, and totals its amount |
| `TestScenarios.TestsAcceptMeans` | config/library/tests.py:36-71 | the suites' penalty assertions are conditions on the 5, 10, 20, 30 and 60 day penalties |
| `TestScenarios.TestsPinPolicy` | config/api/tests.py:34-48 | the suites' penalty assertions hold iff the rate is 1.00 per day and the cap lies from 20.00 to 30.00 |
| `TestScenarios.LargerCapsFailTests` | config/api/tests.py:42-48 | with a 40.00 or 60.00 cap the suites' penalty assertions fail whatever the rate |
| `TestScenarios.PayPenaltyScenario` | config/api/tests.py:82-90 | paying the setUp record by credit card succeeds and leaves it paid |
| `TestScenarios.PayAlreadyPaidScenario` | config/api/tests.py:92-101 | paying a record already marked paid is refused and leaves it as it was |

## Findings

| source | as written | input that shows it | evidently intended | confidence | as-written member | corrected member |
|---|---|---|---|---|---|---|
| config/library/models.py:65 | the default `due_date` is `date.today() + 14 days`, evaluated once when the module is imported | a process started on day 0 creates a loan on day 30: it is due on day 14 and 16 days overdue at creation | the due date is 14 days after the day the record is created | high (not executed) | `LibraryModels.StaleDefaultDueDate` | `LibraryModels.NewTransaction` |

## Left out

- Persistence, `save`, `set_password` hashing and `normalize_email`: framework and library calls. The `password` argument is accepted and not stored.
- HTTP status codes, 404 responses, permissions, routing, admin screens and the serializer field lists: framework declarations. A missing record is the `NotFound` outcome.
- The debug `print` of all book ids in `CheckoutBookView.create`: output only.
- `Book.checkout` and `Book.return_book` (config/api/views.py:148, 175): these bodies are not part of this model, so copy counts are never decremented or incremented here.
- The management command that loads books in bulk: data loading with no rules.
- Concurrency: the source has no locking, and the model is sequential.
- `ApiViews.TransactionStore.PayPenalty`: the "Failed to process payment" branch (config/api/views.py:70-73) is unreachable, because `Transaction.pay_penalty` is modelled as always succeeding. That is what the payment test asserts.
- `ApiSerializers.ValidateTransaction`: `book` and `user` are not among the serializer's fields, so in the running app these checks never see data. The model states what the checks do when they are given data.
- `ApiSerializers.ValidateProfilePic`: `profile_pic` is a `URLField`, which has no `size`. The model takes an upload with a byte size, as the validator expects.
- `LibraryModels.InsertBook`: the framework reports every field error of a payload together. The model reports the first one only.
- `ApiViews.UnpaidReportMatchesTotalPenalties`: assumes amounts are never negative. The column itself would store a negative amount, and the two totals would then differ.
- Names used without an import (`PenaltyPaymentSerializer` and `Sum` in config/api/views.py) are modelled as the serializer and aggregate they name.
- The API test `setUp` calls `create_user` with only a username and password, which does not match its signature. The model keeps the signature of config/accounts/models.py:8.
- `ApiViews.AvailableBooks` and `ApiViews.UserTransactions`: the default orderings of the models (by `available_copies` for books, by `checkout_date` for transactions) are not modelled. The input sequence stands for the queryset already in its query order.
- The library test `setUp` (config/library/tests.py:16-24) passes a `genre` that the Book model does not define, so as written that suite cannot create its book. The model reads its penalty assertions for their intent.
- The API test at config/api/tests.py:80 compares the total with the string `'5.00'`, while the view returns the raw aggregate. The model reads it as the amount 5.00.
- The stored `is_overdue` flag is carried on the record but never set: no shown code writes it.
