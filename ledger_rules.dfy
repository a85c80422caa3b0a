/**
 * What each account handler does to the collection of accounts, as a function of the
 * collection before the request and the request's fields. Each handler either fails
 * with one error kind, leaving the collection as it was, or changes exactly the
 * accounts it touches. The handlers of the Router class follow these step by step.
 */
module LedgerRules {
  import opened Wrappers
  import opened AccountSchema

  /** The error kinds the handlers report; one per distinct error response. */
  datatype Error =
    | InvalidAmount            // the amount check failed
    | MissingAccountFields     // create: account number or holder name missing
    | DuplicateAccount         // create: the account number is taken
    | CreateFailed             // create: the document was refused when stored
    | AccountNotFound          // deposit, withdraw: no such account
    | InsufficientBalance      // withdraw: balance below the amount
    | MissingTransferParties   // transfer: sender or receiver missing
    | SameAccount              // transfer: sender and receiver coincide
    | SenderNotFound
    | SenderNotKYCVerified
    | SenderInsufficientBalance
    | ReceiverNotFound

  /** The value JavaScript's `Number(raw)` gives for a request field: a finite number,
      or NaN or an infinity. */
  datatype NumberValue = Finite(value: real) | NonFinite

  /** The result a handler reports, together with the collection after the request. */
  datatype Outcome<T> = Outcome(result: Result<T, Error>, store: Store)

  /** Both accounts of a transfer, as they are after it. */
  datatype Transferred = Transferred(sender: Account, receiver: Account)

  /** A string field of a request that is present and not empty (JavaScript truthiness). */
  predicate Provided(field: Option<string>) {
    field.Some? && field.value != ""
  }

  /** An amount the amount check accepts. */
  predicate PositiveFinite(n: NumberValue) {
    n.Finite? && n.value > 0.0
  }

  /** The amount check: a finite number above zero, returned as it is. */
  function ParseAndValidateAmount(n: NumberValue): (r: Result<real, Error>)
    ensures r.Success? <==> n.Finite? && n.value > 0.0
    ensures r.Success? ==> r.value == n.value
    ensures r.Failure? ==> r.error == InvalidAmount
  {
    if !n.Finite? || n.value <= 0.0 then Failure(InvalidAmount) else Success(n.value)
  }

  /** The initial deposit a create request stands for: 0 when it was not supplied. */
  function InitialDepositOf(initialDeposit: Option<NumberValue>): NumberValue {
    initialDeposit.GetOr(Finite(0.0))
  }

  /** Creating an account: required fields, then uniqueness, then the amount check on the
      initial deposit, then the document goes through the schema and into the collection. */
  function CreateAccount(s: Store, accountNo: Option<string>, holderName: Option<string>,
                         initialDeposit: Option<NumberValue>, isKYCVerified: Option<bool>): (r: Outcome<Account>)
    ensures r.result == Failure(MissingAccountFields) <==> !Provided(accountNo) || !Provided(holderName)
    ensures r.result == Failure(DuplicateAccount) <==>
              Provided(accountNo) && Provided(holderName) && accountNo.value in s
    ensures r.result == Failure(InvalidAmount) <==>
              && Provided(accountNo) && Provided(holderName) && accountNo.value !in s
              && !PositiveFinite(InitialDepositOf(initialDeposit))
    ensures r.result == Failure(CreateFailed) <==>
              && Provided(accountNo) && Provided(holderName) && accountNo.value !in s
              && PositiveFinite(InitialDepositOf(initialDeposit))
              && (Trim(accountNo.value) == "" || Trim(holderName.value) == "" || Trim(accountNo.value) in s)
    ensures r.result.Success? <==>
              && Provided(accountNo) && Provided(holderName) && accountNo.value !in s
              && PositiveFinite(InitialDepositOf(initialDeposit))
              && Trim(accountNo.value) != "" && Trim(holderName.value) != "" && Trim(accountNo.value) !in s
    ensures r.result.Failure? ==> r.store == s
    ensures r.result.Success? ==>
              var a := r.result.value;
              && Provided(accountNo) && Provided(holderName)
              && initialDeposit.Some? && initialDeposit.value == Finite(a.balance) && a.balance > 0.0
              && a.accountNo == Trim(accountNo.value) && a.holderName == Trim(holderName.value)
              && a.isKYCVerified == isKYCVerified.GetOr(DefaultKYCVerified)
              && ValidAccount(a)
              && a.accountNo !in s
              && r.store.Keys == s.Keys + {a.accountNo}
              && r.store[a.accountNo] == a
              && (forall k :: k in s ==> k in r.store && r.store[k] == s[k])
  {
    if !Provided(accountNo) || !Provided(holderName) then
      Outcome(Failure(MissingAccountFields), s)
    else if accountNo.value in s then
      Outcome(Failure(DuplicateAccount), s)
    else
      var amount := ParseAndValidateAmount(InitialDepositOf(initialDeposit));
      if amount.Failure? then Outcome(Failure(amount.error), s)
      else
        InsertDocument(s, AccountDoc(Some(accountNo.value), Some(Trim(holderName.value)),
                                     Some(amount.value), Some(isKYCVerified.GetOr(DefaultKYCVerified))))
  }

  /** Storing a new document: the schema casts and validates it and the unique index on
      the account number refuses a second document with the same number; both refusals
      are store errors, reported as CreateFailed. */
  function InsertDocument(s: Store, doc: AccountDoc): (r: Outcome<Account>)
    ensures r.result.Failure? ==> r.result.error == CreateFailed && r.store == s
    ensures r.result.Success? <==> Cast(doc).Success? && Cast(doc).value.accountNo !in s
    ensures r.result.Success? ==>
              var a := r.result.value;
              && a == Cast(doc).value
              && r.store.Keys == s.Keys + {a.accountNo}
              && r.store[a.accountNo] == a
              && (forall k :: k in s ==> k in r.store && r.store[k] == s[k])
  {
    var cast := Cast(doc);
    if cast.Failure? || cast.value.accountNo in s then Outcome(Failure(CreateFailed), s)
    else
      var a := cast.value;
      var t := s[a.accountNo := a];
      assert forall k :: k in s ==> k in t && t[k] == s[k];
      Outcome(Success(a), t)
  }

  /** Depositing: the amount check, then an atomic increment of the account's balance. */
  function Deposit(s: Store, accountNo: string, amount: NumberValue): (r: Outcome<Account>)
    ensures r.result == Failure(InvalidAmount) <==> !PositiveFinite(amount)
    ensures r.result == Failure(AccountNotFound) <==> PositiveFinite(amount) && accountNo !in s
    ensures r.result.Success? <==> PositiveFinite(amount) && accountNo in s
    ensures r.result.Failure? ==> r.store == s
    ensures r.result.Success? ==>
              && r.store.Keys == s.Keys
              && r.store[accountNo] == s[accountNo].(balance := s[accountNo].balance + amount.value)
              && r.result.value == r.store[accountNo]
              && (forall k :: k in s && k != accountNo ==> r.store[k] == s[k])
  {
    match ParseAndValidateAmount(amount)
    case Failure(e) => Outcome(Failure(e), s)
    case Success(value) =>
      if accountNo !in s then Outcome(Failure(AccountNotFound), s)
      else
        var account := s[accountNo].(balance := s[accountNo].balance + value);
        Outcome(Success(account), s[accountNo := account])
  }

  /** Withdrawing: the amount check, the lookup, the balance check, then the decrement. */
  function Withdraw(s: Store, accountNo: string, amount: NumberValue): (r: Outcome<Account>)
    ensures r.result == Failure(InvalidAmount) <==> !PositiveFinite(amount)
    ensures r.result == Failure(AccountNotFound) <==> PositiveFinite(amount) && accountNo !in s
    ensures r.result == Failure(InsufficientBalance) <==>
              PositiveFinite(amount) && accountNo in s && s[accountNo].balance < amount.value
    ensures r.result.Success? <==>
              PositiveFinite(amount) && accountNo in s && s[accountNo].balance >= amount.value
    ensures r.result.Failure? ==> r.store == s
    ensures r.result.Success? ==>
              && r.store.Keys == s.Keys
              && r.store[accountNo] == s[accountNo].(balance := s[accountNo].balance - amount.value)
              && r.store[accountNo].balance >= 0.0
              && r.result.value == r.store[accountNo]
              && (forall k :: k in s && k != accountNo ==> r.store[k] == s[k])
  {
    match ParseAndValidateAmount(amount)
    case Failure(e) => Outcome(Failure(e), s)
    case Success(value) =>
      if accountNo !in s then Outcome(Failure(AccountNotFound), s)
      else if s[accountNo].balance < value then Outcome(Failure(InsufficientBalance), s)
      else
        var account := s[accountNo].(balance := s[accountNo].balance - value);
        Outcome(Success(account), s[accountNo := account])
  }

  /** The guards of a transfer that precede the balance check all pass. */
  predicate TransferReady(s: Store, senderAccountNo: Option<string>, receiverAccountNo: Option<string>,
                          amount: NumberValue)
  {
    && PositiveFinite(amount) && Provided(senderAccountNo) && Provided(receiverAccountNo)
    && senderAccountNo.value != receiverAccountNo.value
    && senderAccountNo.value in s && s[senderAccountNo.value].isKYCVerified
  }

  /** Transferring, as one transaction: the amount check, both parties present and
      distinct, the sender found, KYC-verified and covering the amount, the receiver found;
      then the sender is debited and the receiver credited by the same amount. Any failed
      guard aborts the transaction before anything is written. */
  function Transfer(s: Store, senderAccountNo: Option<string>, receiverAccountNo: Option<string>,
                    amount: NumberValue): (r: Outcome<Transferred>)
    ensures r.result == Failure(InvalidAmount) <==> !PositiveFinite(amount)
    ensures r.result == Failure(MissingTransferParties) <==>
              PositiveFinite(amount) && (!Provided(senderAccountNo) || !Provided(receiverAccountNo))
    ensures r.result == Failure(SameAccount) <==>
              && PositiveFinite(amount) && Provided(senderAccountNo) && Provided(receiverAccountNo)
              && senderAccountNo.value == receiverAccountNo.value
    ensures r.result == Failure(SenderNotFound) <==>
              && PositiveFinite(amount) && Provided(senderAccountNo) && Provided(receiverAccountNo)
              && senderAccountNo.value != receiverAccountNo.value && senderAccountNo.value !in s
    ensures r.result == Failure(SenderNotKYCVerified) <==>
              && PositiveFinite(amount) && Provided(senderAccountNo) && Provided(receiverAccountNo)
              && senderAccountNo.value != receiverAccountNo.value && senderAccountNo.value in s
              && !s[senderAccountNo.value].isKYCVerified
    ensures r.result == Failure(SenderInsufficientBalance) <==>
              TransferReady(s, senderAccountNo, receiverAccountNo, amount) &&
              s[senderAccountNo.value].balance < amount.value
    ensures r.result == Failure(ReceiverNotFound) <==>
              TransferReady(s, senderAccountNo, receiverAccountNo, amount) &&
              s[senderAccountNo.value].balance >= amount.value && receiverAccountNo.value !in s
    ensures r.result.Success? <==>
              TransferReady(s, senderAccountNo, receiverAccountNo, amount) &&
              s[senderAccountNo.value].balance >= amount.value && receiverAccountNo.value in s
    ensures r.result.Failure? ==> r.store == s
    ensures r.result.Success? ==>
              var from, to := senderAccountNo.value, receiverAccountNo.value;
              && TransferReady(s, senderAccountNo, receiverAccountNo, amount) && to in s
              && r.store.Keys == s.Keys
              && r.store[from] == s[from].(balance := s[from].balance - amount.value)
              && r.store[to] == s[to].(balance := s[to].balance + amount.value)
              && r.store[from].balance >= 0.0
              && r.store[from].balance + r.store[to].balance == s[from].balance + s[to].balance
              && r.result.value == Transferred(r.store[from], r.store[to])
              && (forall k :: k in s && k != from && k != to ==> r.store[k] == s[k])
  {
    match ParseAndValidateAmount(amount)
    case Failure(e) => Outcome(Failure(e), s)
    case Success(transferAmount) =>
      if !Provided(senderAccountNo) || !Provided(receiverAccountNo) then
        Outcome(Failure(MissingTransferParties), s)
      else if senderAccountNo.value == receiverAccountNo.value then
        Outcome(Failure(SameAccount), s)
      else if senderAccountNo.value !in s then
        Outcome(Failure(SenderNotFound), s)
      else if !s[senderAccountNo.value].isKYCVerified then
        Outcome(Failure(SenderNotKYCVerified), s)
      else if s[senderAccountNo.value].balance < transferAmount then
        Outcome(Failure(SenderInsufficientBalance), s)
      else if receiverAccountNo.value !in s then
        Outcome(Failure(ReceiverNotFound), s)
      else
        var from, to := senderAccountNo.value, receiverAccountNo.value;
        var sender := s[from].(balance := s[from].balance - transferAmount);
        var receiver := s[to].(balance := s[to].balance + transferAmount);
        Outcome(Success(Transferred(sender, receiver)), s[from := sender][to := receiver])
  }
}
