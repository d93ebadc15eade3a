/** The validators of config/api/serializers.py. Each one hands its input
    back unchanged when it accepts it and raises a validation error
    otherwise. */
module ApiSerializers {
  import opened Wrappers
  import opened LibraryModels

  datatype ValidationError =
    | IsbnLength
    | CopiesExceedTotal
    | BookNotAvailable
    | CheckoutLimitReached
    | PictureTooLarge

  /** `BookSerializer.validate_isbn`: only a 13-character ISBN passes. */
  function ValidateIsbn(value: string): (r: Result<string, ValidationError>)
    ensures r.Success? <==> |value| == 13
    ensures r.Success? ==> r.value == value
    ensures r.Failure? ==> r.error == IsbnLength
  {
    if |value| != 13 then Failure(IsbnLength) else Success(value)
  }

  /** The copy counts of a book payload; a partial update may omit either. */
  datatype BookData = BookData(isbn: Option<string>, totalCopies: Option<nat>, availableCopies: Option<nat>)

  /** `BookSerializer.validate`: more available copies than copies in all
      is refused, an omitted count reading as 0. */
  function ValidateBook(data: BookData): (r: Result<BookData, ValidationError>)
    ensures r.Success? <==> data.availableCopies.GetOr(0) <= data.totalCopies.GetOr(0)
    ensures r.Success? ==> r.value == data
    ensures r.Failure? ==> r.error == CopiesExceedTotal
    ensures data.availableCopies.Some? && data.availableCopies.value > 0 && data.totalCopies.None? ==> r.Failure?
  {
    if data.availableCopies.GetOr(0) > data.totalCopies.GetOr(0) then Failure(CopiesExceedTotal)
    else Success(data)
  }

  /** A complete payload that passes both book validators describes a book
      whose counts and ISBN meet the catalog constraints. */
  lemma ValidatedBookIsSound(data: BookData, b: Book)
    requires data.isbn.Some? && ValidateIsbn(data.isbn.value).Success?
    requires ValidateBook(data).Success?
    requires data.totalCopies == Some(b.totalCopies) && data.availableCopies == Some(b.availableCopies)
    requires b.isbn == data.isbn.value
    ensures b.availableCopies <= b.totalCopies && |b.isbn| <= IsbnMaxLength
  {
  }

  /** How many of `u`'s records are still open (`return_date IS NULL`). */
  function OpenCount(records: seq<Transaction>, u: UserId): (n: nat)
    ensures n <= |records|
    ensures n == 0 <==> forall i :: 0 <= i < |records| && records[i].user == u ==> !IsOpen(records[i])
  {
    if records == [] then 0
    else
      var last := records[|records| - 1];
      OpenCount(records[..|records| - 1], u) + (if last.user == u && IsOpen(last) then 1 else 0)
  }

  /** The `book` and `user` a checkout payload may carry. */
  datatype TransactionData = TransactionData(book: Option<Book>, user: Option<UserId>)

  /** `TransactionSerializer.validate`: an unavailable book is refused
      first; then a user who already holds an open loan is refused. */
  function ValidateTransaction(records: seq<Transaction>, data: TransactionData): (r: Result<TransactionData, ValidationError>)
    ensures r.Success? <==>
      (data.book.None? || IsAvailable(data.book.value)) &&
      (data.user.None? || forall i :: 0 <= i < |records| && records[i].user == data.user.value ==> !IsOpen(records[i]))
    ensures data.book.Some? && !IsAvailable(data.book.value) ==> r == Failure(BookNotAvailable)
    ensures r == Failure(CheckoutLimitReached) ==> data.user.Some? && OpenCount(records, data.user.value) >= 1
    ensures (data.book.None? || IsAvailable(data.book.value)) && data.user.Some? && OpenCount(records, data.user.value) >= 1
      ==> r == Failure(CheckoutLimitReached)
    ensures r.Success? ==> r.value == data
  {
    if data.book.Some? && !IsAvailable(data.book.value) then Failure(BookNotAvailable)
    else if data.user.Some? && OpenCount(records, data.user.value) >= 1 then Failure(CheckoutLimitReached)
    else Success(data)
  }

  /** Adding one open record for a user the validator accepted keeps every
      user at no more than one open loan. */
  lemma {:induction false} ValidatedCheckoutKeepsOneOpenLoan(records: seq<Transaction>, data: TransactionData, t: Transaction)
    requires forall v :: OpenCount(records, v) <= 1
    requires data.user.Some? && ValidateTransaction(records, data).Success?
    requires t.user == data.user.value
    ensures OpenCount(records + [t], t.user) <= 1
    ensures forall v :: OpenCount(records + [t], v) <= 1
  {
    forall v ensures OpenCount(records + [t], v) <= 1 {
      assert (records + [t])[..|records|] == records;
      if v == t.user {
        assert OpenCount(records, v) == 0;
      }
    }
  }

  /** The three accepted `payment_method` choices. */
  datatype PaymentMethod = CreditCard | DebitCard | MPesa

  function PaymentMethodName(m: PaymentMethod): string {
    match m
    case CreditCard => "credit_card"
    case DebitCard => "debit_card"
    case MPesa => "M-pesa"
  }

  /** `PenaltyPaymentSerializer`: the submitted method must be one of the
      choices, spelled exactly. */
  function ParsePaymentMethod(s: string): (r: Option<PaymentMethod>)
    ensures r.Some? <==> s in ["credit_card", "debit_card", "M-pesa"]
    ensures r.Some? ==> PaymentMethodName(r.value) == s
  {
    if s == "credit_card" then Some(CreditCard)
    else if s == "debit_card" then Some(DebitCard)
    else if s == "M-pesa" then Some(MPesa)
    else None
  }

  /** Every choice is accepted under its own name. */
  lemma PaymentMethodRoundTrip(m: PaymentMethod)
    ensures ParsePaymentMethod(PaymentMethodName(m)) == Some(m)
  {
  }

  /** An uploaded picture, seen only through its size in bytes. */
  datatype Upload = Upload(size: nat)

  const MaxPictureBytes: nat := 1024 * 1024

  /** `ProfileSerializer.validate_profile_pic`: anything over 1 MiB is
      refused. */
  function ValidateProfilePic(value: Upload): (r: Result<Upload, ValidationError>)
    ensures r.Success? <==> value.size <= MaxPictureBytes
    ensures r.Success? ==> r.value == value
    ensures r.Failure? ==> r.error == PictureTooLarge
  {
    if value.size > MaxPictureBytes then Failure(PictureTooLarge) else Success(value)
  }
}
