/**
 * The account handlers as operations on the shared collection of accounts. A Router
 * holds the collection; each handler works through the same checks, in the same order,
 * as its rule in LedgerRules, and its postcondition says that it reports exactly that
 * rule's result and leaves exactly that rule's collection behind, with the collection
 * invariant kept.
 */
module AccountRoutes {
  import opened Wrappers
  import opened AccountSchema
  import opened LedgerRules
  import LedgerProperties

  class Router {
    /** The accounts collection, keyed by account number. */
    var accounts: Store

    /** The collection invariant of the schema. */
    ghost predicate Valid()
      reads this
    {
      ValidStore(accounts)
    }

    /** A router over an empty collection. */
    constructor ()
      ensures Valid() && accounts == map[]
    {
      accounts := map[];
    }

    /** POST /: open an account. */
    method CreateAccount(accountNo: Option<string>, holderName: Option<string>,
                         initialDeposit: Option<NumberValue>, isKYCVerified: Option<bool>)
      returns (r: Result<Account, Error>)
      requires Valid()
      modifies this
      ensures Valid()
      ensures var rule := LedgerRules.CreateAccount(old(accounts), accountNo, holderName, initialDeposit, isKYCVerified);
              r == rule.result && accounts == rule.store
      ensures r.Failure? ==> accounts == old(accounts)
    {
      LedgerProperties.CreatePreservesValid(accounts, accountNo, holderName, initialDeposit, isKYCVerified);
      if !Provided(accountNo) || !Provided(holderName) {
        return Failure(MissingAccountFields);
      }
      if accountNo.value in accounts {
        return Failure(DuplicateAccount);
      }
      var initialBalance := ParseAndValidateAmount(InitialDepositOf(initialDeposit));
      if initialBalance.Failure? {
        return Failure(initialBalance.error);
      }
      var doc := Cast(AccountDoc(Some(accountNo.value), Some(Trim(holderName.value)),
                                 Some(initialBalance.value), Some(isKYCVerified.GetOr(DefaultKYCVerified))));
      if doc.Failure? || doc.value.accountNo in accounts {
        // a schema validation error, or the unique index on accountNo
        return Failure(CreateFailed);
      }
      var account := doc.value;
      accounts := accounts[account.accountNo := account];
      return Success(account);
    }

    /** POST /:accountNo/deposit: add to an account's balance in one atomic update. */
    method Deposit(accountNo: string, amount: NumberValue) returns (r: Result<Account, Error>)
      requires Valid()
      modifies this
      ensures Valid()
      ensures var rule := LedgerRules.Deposit(old(accounts), accountNo, amount);
              r == rule.result && accounts == rule.store
      ensures r.Failure? ==> accounts == old(accounts)
    {
      LedgerProperties.DepositPreservesValid(accounts, accountNo, amount);
      var parsed := ParseAndValidateAmount(amount);
      if parsed.Failure? {
        return Failure(parsed.error);
      }
      if accountNo !in accounts {
        return Failure(AccountNotFound);
      }
      var account := accounts[accountNo];
      account := account.(balance := account.balance + parsed.value);
      accounts := accounts[accountNo := account];
      return Success(account);
    }

    /** POST /:accountNo/withdraw: fetch the account, check and lower its balance, save it. */
    method Withdraw(accountNo: string, amount: NumberValue) returns (r: Result<Account, Error>)
      requires Valid()
      modifies this
      ensures Valid()
      ensures var rule := LedgerRules.Withdraw(old(accounts), accountNo, amount);
              r == rule.result && accounts == rule.store
      ensures r.Failure? ==> accounts == old(accounts)
    {
      LedgerProperties.WithdrawPreservesValid(accounts, accountNo, amount);
      var parsed := ParseAndValidateAmount(amount);
      if parsed.Failure? {
        return Failure(parsed.error);
      }
      if accountNo !in accounts {
        return Failure(AccountNotFound);
      }
      var account := accounts[accountNo];
      if account.balance < parsed.value {
        return Failure(InsufficientBalance);
      }
      account := account.(balance := account.balance - parsed.value);
      accounts := accounts[accountNo := account];
      return Success(account);
    }

    /** POST /transfer: move an amount between two accounts inside one transaction. Reads
        and writes go to the transaction's view of the collection, which replaces the
        collection only on commit; every abort discards it. */
    method Transfer(senderAccountNo: Option<string>, receiverAccountNo: Option<string>,
                    amount: NumberValue) returns (r: Result<Transferred, Error>)
      requires Valid()
      modifies this
      ensures Valid()
      ensures var rule := LedgerRules.Transfer(old(accounts), senderAccountNo, receiverAccountNo, amount);
              r == rule.result && accounts == rule.store
      ensures r.Failure? ==> accounts == old(accounts)
    {
      LedgerProperties.TransferPreservesValid(accounts, senderAccountNo, receiverAccountNo, amount);
      var session := accounts;
      var parsed := ParseAndValidateAmount(amount);
      if parsed.Failure? {
        return Failure(parsed.error);
      }
      var transferAmount := parsed.value;
      if !Provided(senderAccountNo) || !Provided(receiverAccountNo) {
        return Failure(MissingTransferParties);
      }
      var from, to := senderAccountNo.value, receiverAccountNo.value;
      if from == to {
        return Failure(SameAccount);
      }
      if from !in session {
        return Failure(SenderNotFound);
      }
      var sender := session[from];
      if !sender.isKYCVerified {
        return Failure(SenderNotKYCVerified);
      }
      if sender.balance < transferAmount {
        return Failure(SenderInsufficientBalance);
      }
      if to !in session {
        return Failure(ReceiverNotFound);
      }
      var receiver := session[to];
      sender := sender.(balance := sender.balance - transferAmount);
      receiver := receiver.(balance := receiver.balance + transferAmount);
      session := session[from := sender];
      session := session[to := receiver];
      accounts := session;  // commit
      return Success(Transferred(sender, receiver));
    }
  }
}
