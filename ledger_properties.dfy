/**
 * Properties of the account handlers that relate several calls or the whole collection:
 * the schema's round trip and defaults, preservation of the collection invariant, the
 * total of all balances, inverse pairs of operations, sequences of requests and repeated
 * withdrawals.
 */
module LedgerProperties {
  import opened Wrappers
  import opened AccountSchema
  import opened LedgerRules

  // ---------------------------------------------------------------- the schema

  /** A stored account, handed back to the schema, comes out as it went in. */
  lemma CastRoundTrip(a: Account)
    requires ValidAccount(a)
    ensures Cast(ToDoc(a)) == Success(a)
  {
  }

  /** The collection invariant says exactly that every document sits under its own number
      and comes back unchanged from the schema: the schema accepts nothing it would alter. */
  lemma ValidStoreIsSchemaFixpoint(s: Store)
    ensures ValidStore(s) <==> forall k :: k in s ==> s[k].accountNo == k && Cast(ToDoc(s[k])) == Success(s[k])
  {
  }

  /** A document without balance or KYC flag gets balance 0 and an unverified flag. */
  lemma CastDefaults(accountNo: string, holderName: string)
    requires Trim(accountNo) != "" && Trim(holderName) != ""
    ensures Cast(AccountDoc(Some(accountNo), Some(holderName), None, None))
            == Success(Account(Trim(accountNo), Trim(holderName), 0.0, false))
  {
  }

  /** Account numbers are unique: two documents with the same number are one. */
  lemma UniqueAccountNo(s: Store, k1: string, k2: string)
    requires ValidStore(s) && k1 in s && k2 in s
    requires s[k1].accountNo == s[k2].accountNo
    ensures k1 == k2
  {
  }

  /** For an account number that carries no surrounding whitespace, the store refuses a
      create that passed every check of its own exactly when the holder name is blank. */
  lemma CreateFailsOnBlankHolderName(s: Store, accountNo: string, holderName: string,
                                     initialDeposit: Option<NumberValue>, isKYCVerified: Option<bool>)
    requires ValidStore(s)
    requires accountNo != "" && IsTrimmed(accountNo) && accountNo !in s && holderName != ""
    requires PositiveFinite(InitialDepositOf(initialDeposit))
    ensures CreateAccount(s, Some(accountNo), Some(holderName), initialDeposit, isKYCVerified).result
              == Failure(CreateFailed)
            <==> forall i :: 0 <= i < |holderName| ==> IsWhitespace(holderName[i])
  {
    TrimEmpty(holderName);
  }

  /** The default initial deposit, zero and negative deposits all fail the amount check:
      an account cannot be opened empty. */
  lemma CreateRejectsNonPositiveDeposit(s: Store, accountNo: string, holderName: string,
                                        initialDeposit: Option<NumberValue>, isKYCVerified: Option<bool>)
    requires accountNo != "" && holderName != "" && accountNo !in s
    requires initialDeposit.None? || (initialDeposit.value.Finite? && initialDeposit.value.value <= 0.0)
    ensures CreateAccount(s, Some(accountNo), Some(holderName), initialDeposit, isKYCVerified)
            == Outcome(Failure(InvalidAmount), s)
  {
  }

  // ---------------------------------------------------------------- the collection invariant

  lemma CreatePreservesValid(s: Store, accountNo: Option<string>, holderName: Option<string>,
                             initialDeposit: Option<NumberValue>, isKYCVerified: Option<bool>)
    requires ValidStore(s)
    ensures ValidStore(CreateAccount(s, accountNo, holderName, initialDeposit, isKYCVerified).store)
  {
  }

  lemma DepositPreservesValid(s: Store, accountNo: string, amount: NumberValue)
    requires ValidStore(s)
    ensures ValidStore(Deposit(s, accountNo, amount).store)
  {
  }

  lemma WithdrawPreservesValid(s: Store, accountNo: string, amount: NumberValue)
    requires ValidStore(s)
    ensures ValidStore(Withdraw(s, accountNo, amount).store)
  {
  }

  lemma TransferPreservesValid(s: Store, senderAccountNo: Option<string>, receiverAccountNo: Option<string>,
                               amount: NumberValue)
    requires ValidStore(s)
    ensures ValidStore(Transfer(s, senderAccountNo, receiverAccountNo, amount).store)
  {
  }

  // ---------------------------------------------------------------- total funds

  /** The sum of all balances in the collection. */
  ghost function Total(s: Store): real
    decreases |s|
  {
    if s == map[] then 0.0
    else
      var k :| k in s;
      assert |s - {k}| < |s| by { assert (s - {k}).Keys == s.Keys - {k}; }
      s[k].balance + Total(s - {k})
  }

  /** Any one account can be taken out of the total first. */
  lemma {:induction false} TotalRemove(s: Store, k: string)
    requires k in s
    ensures Total(s) == s[k].balance + Total(s - {k})
    decreases |s|
  {
    var j :| j in s && Total(s) == s[j].balance + Total(s - {j});
    if j != k {
      assert (s - {j}).Keys == s.Keys - {j};
      TotalRemove(s - {j}, k);
      TotalRemove(s - {k}, j);
      assert s - {j} - {k} == s - {k} - {j};
    }
  }

  /** Replacing one account changes the total by the change in its balance. */
  lemma TotalUpdate(s: Store, k: string, a: Account)
    requires k in s
    ensures Total(s[k := a]) == Total(s) - s[k].balance + a.balance
  {
    TotalRemove(s, k);
    TotalRemove(s[k := a], k);
    assert s[k := a] - {k} == s - {k};
  }

  /** Adding an account adds its balance to the total. */
  lemma TotalInsert(s: Store, k: string, a: Account)
    requires k !in s
    ensures Total(s[k := a]) == Total(s) + a.balance
  {
    TotalRemove(s[k := a], k);
    assert s[k := a] - {k} == s;
  }

  /** The total of a valid collection is not negative. */
  lemma {:induction false} TotalNonNegative(s: Store)
    requires ValidStore(s)
    ensures Total(s) >= 0.0
    decreases |s|
  {
    if s != map[] {
      var k :| k in s;
      TotalRemove(s, k);
      assert (s - {k}).Keys == s.Keys - {k};
      TotalNonNegative(s - {k});
    }
  }

  /** A successful create adds exactly the initial deposit to the total. */
  lemma CreateAddsDeposit(s: Store, accountNo: Option<string>, holderName: Option<string>,
                          initialDeposit: Option<NumberValue>, isKYCVerified: Option<bool>)
    ensures var r := CreateAccount(s, accountNo, holderName, initialDeposit, isKYCVerified);
            Total(r.store) == Total(s) + (if r.result.Success? then r.result.value.balance else 0.0)
  {
    var r := CreateAccount(s, accountNo, holderName, initialDeposit, isKYCVerified);
    if r.result.Success? {
      var a := r.result.value;
      assert r.store == s[a.accountNo := a];
      TotalInsert(s, a.accountNo, a);
    }
  }

  /** A successful deposit adds exactly the amount to the total. */
  lemma DepositAddsAmount(s: Store, accountNo: string, amount: NumberValue)
    ensures var r := Deposit(s, accountNo, amount);
            Total(r.store) == Total(s) + (if r.result.Success? then amount.value else 0.0)
  {
    var r := Deposit(s, accountNo, amount);
    if r.result.Success? {
      assert r.store == s[accountNo := r.store[accountNo]];
      TotalUpdate(s, accountNo, r.store[accountNo]);
    }
  }

  /** A successful withdrawal removes exactly the amount from the total. */
  lemma WithdrawRemovesAmount(s: Store, accountNo: string, amount: NumberValue)
    ensures var r := Withdraw(s, accountNo, amount);
            Total(r.store) == Total(s) - (if r.result.Success? then amount.value else 0.0)
  {
    var r := Withdraw(s, accountNo, amount);
    if r.result.Success? {
      assert r.store == s[accountNo := r.store[accountNo]];
      TotalUpdate(s, accountNo, r.store[accountNo]);
    }
  }

  /** Every transfer, successful or not, leaves the total of the collection as it was. */
  lemma TransferConservesTotal(s: Store, senderAccountNo: Option<string>, receiverAccountNo: Option<string>,
                               amount: NumberValue)
    ensures Total(Transfer(s, senderAccountNo, receiverAccountNo, amount).store) == Total(s)
  {
    var r := Transfer(s, senderAccountNo, receiverAccountNo, amount);
    if r.result.Success? {
      var from, to := senderAccountNo.value, receiverAccountNo.value;
      var mid := s[from := r.store[from]];
      assert r.store == mid[to := r.store[to]];
      TotalUpdate(s, from, r.store[from]);
      TotalUpdate(mid, to, r.store[to]);
    }
  }

  // ---------------------------------------------------------------- gates and inverses

  /** An unverified sender cannot transfer, whatever its balance and whether or not the
      receiver exists. */
  lemma TransferKYCGate(s: Store, sender: string, receiver: string, amount: NumberValue)
    requires PositiveFinite(amount) && sender != "" && receiver != "" && sender != receiver
    requires sender in s && !s[sender].isKYCVerified
    ensures Transfer(s, Some(sender), Some(receiver), amount) == Outcome(Failure(SenderNotKYCVerified), s)
  {
  }

  /** The receiver's KYC flag plays no part in a transfer: flipping it changes neither
      whether the transfer succeeds nor which error it reports. */
  lemma TransferIgnoresReceiverKYC(s: Store, senderAccountNo: Option<string>, receiver: string,
                                   amount: NumberValue, flag: bool)
    requires receiver in s && senderAccountNo != Some(receiver)
    ensures var s' := s[receiver := s[receiver].(isKYCVerified := flag)];
            var r, r' := Transfer(s, senderAccountNo, Some(receiver), amount),
                         Transfer(s', senderAccountNo, Some(receiver), amount);
            && r.result.Success? == r'.result.Success?
            && (r.result.Failure? ==> r.result.error == r'.result.error)
            && (r.result.Success? ==> r'.result.value.receiver == r.result.value.receiver.(isKYCVerified := flag))
  {
  }

  /** Withdrawing what was just deposited restores the collection. */
  lemma DepositThenWithdraw(s: Store, accountNo: string, amount: NumberValue)
    requires ValidStore(s) && accountNo in s && PositiveFinite(amount)
    ensures Withdraw(Deposit(s, accountNo, amount).store, accountNo, amount).store == s
  {
  }

  /** Transferring an amount back from a verified receiver restores the collection. */
  lemma TransferThenTransferBack(s: Store, sender: string, receiver: string, amount: NumberValue)
    requires ValidStore(s)
    requires Transfer(s, Some(sender), Some(receiver), amount).result.Success?
    requires s[receiver].isKYCVerified
    ensures var s1 := Transfer(s, Some(sender), Some(receiver), amount).store;
            Transfer(s1, Some(receiver), Some(sender), amount).result.Success? &&
            Transfer(s1, Some(receiver), Some(sender), amount).store == s
  {
  }

  /** With exactly the amount in the account, a withdrawal succeeds and leaves 0. */
  lemma WithdrawWholeBalance(s: Store, accountNo: string, amount: NumberValue)
    requires accountNo in s && PositiveFinite(amount) && s[accountNo].balance == amount.value
    ensures Withdraw(s, accountNo, amount).result.Success?
    ensures Withdraw(s, accountNo, amount).store[accountNo].balance == 0.0
  {
  }

  // ---------------------------------------------------------------- sequences of requests

  /** A request to one of the four handlers. */
  datatype Request =
    | CreateRequest(requestedAccountNo: Option<string>, holderName: Option<string>,
                    initialDeposit: Option<NumberValue>, isKYCVerified: Option<bool>)
    | DepositRequest(accountNo: string, amount: NumberValue)
    | WithdrawRequest(accountNo: string, amount: NumberValue)
    | TransferRequest(senderAccountNo: Option<string>, receiverAccountNo: Option<string>, amount: NumberValue)

  /** The collection after one request. */
  function Apply(s: Store, req: Request): Store {
    match req
    case CreateRequest(no, name, deposit, kyc) => CreateAccount(s, no, name, deposit, kyc).store
    case DepositRequest(no, amount) => Deposit(s, no, amount).store
    case WithdrawRequest(no, amount) => Withdraw(s, no, amount).store
    case TransferRequest(from, to, amount) => Transfer(s, from, to, amount).store
  }

  /** The collection after a sequence of requests, served one at a time. */
  function Run(s: Store, reqs: seq<Request>): Store
    decreases |reqs|
  {
    if reqs == [] then s else Run(Apply(s, reqs[0]), reqs[1..])
  }

  /** Every sequence of requests keeps the collection invariant, so in particular no
      balance ever becomes negative. */
  lemma {:induction false} RunPreservesValid(s: Store, reqs: seq<Request>)
    requires ValidStore(s)
    ensures ValidStore(Run(s, reqs))
    ensures forall k :: k in Run(s, reqs) ==> Run(s, reqs)[k].balance >= 0.0
    decreases |reqs|
  {
    if reqs != [] {
      match reqs[0] {
        case CreateRequest(no, name, deposit, kyc) => CreatePreservesValid(s, no, name, deposit, kyc);
        case DepositRequest(no, amount) => DepositPreservesValid(s, no, amount);
        case WithdrawRequest(no, amount) => WithdrawPreservesValid(s, no, amount);
        case TransferRequest(from, to, amount) => TransferPreservesValid(s, from, to, amount);
      }
      RunPreservesValid(Apply(s, reqs[0]), reqs[1..]);
    }
  }

  /** No request deletes an account or changes its number, holder name or KYC flag:
      only balances move once an account exists. */
  lemma {:induction false} RunKeepsAccounts(s: Store, reqs: seq<Request>)
    ensures forall k :: k in s ==>
              && k in Run(s, reqs)
              && Run(s, reqs)[k].accountNo == s[k].accountNo
              && Run(s, reqs)[k].holderName == s[k].holderName
              && Run(s, reqs)[k].isKYCVerified == s[k].isKYCVerified
    decreases |reqs|
  {
    if reqs != [] {
      RunKeepsAccounts(Apply(s, reqs[0]), reqs[1..]);
    }
  }

  // ---------------------------------------------------------------- repeated withdrawals

  /** n withdrawals of the same amount from one account, one after the other: the
      collection afterwards and how many of them succeeded. */
  function WithdrawRepeatedly(s: Store, accountNo: string, amount: NumberValue, n: nat): (Store, nat)
    decreases n
  {
    if n == 0 then (s, 0)
    else
      var first := Withdraw(s, accountNo, amount);
      var rest := WithdrawRepeatedly(first.store, accountNo, amount, n - 1);
      (rest.0, rest.1 + if first.result.Success? then 1 else 0)
  }

  /** c withdrawals of a, that is c * a, by repeated addition. */
  function Times(c: nat, a: real): real
    decreases c
  {
    if c == 0 then 0.0 else Times(c - 1, a) + a
  }

  /** Times is multiplication, and c positive withdrawals take away at least a. */
  lemma {:induction false} TimesIsProduct(c: nat, a: real)
    ensures Times(c, a) == c as real * a
    ensures a > 0.0 && c > 0 ==> Times(c, a) >= a
    decreases c
  {
    if c > 0 {
      TimesIsProduct(c - 1, a);
      assert c as real * a == (c - 1) as real * a + a;
      if a > 0.0 {
        assert (c - 1) as real * a >= 0.0;
      }
    }
  }

  /** Of n withdrawals of amount a from a balance B, c succeed where either all n succeed
      or what is left is below a; the balance ends at exactly B - c * a (Times(c, a) is
      c * a, by TimesIsProduct), which is not negative. */
  lemma {:induction false} RepeatedWithdrawals(s: Store, accountNo: string, amount: NumberValue, n: nat)
    requires ValidStore(s) && accountNo in s && PositiveFinite(amount)
    ensures var r := WithdrawRepeatedly(s, accountNo, amount, n);
            && r.1 <= n && accountNo in r.0
            && r.0[accountNo].balance == s[accountNo].balance - Times(r.1, amount.value)
            && r.0[accountNo].balance >= 0.0
            && (r.1 < n ==> r.0[accountNo].balance < amount.value)
    decreases n
  {
    if n > 0 {
      var first := Withdraw(s, accountNo, amount);
      WithdrawPreservesValid(s, accountNo, amount);
      RepeatedWithdrawals(first.store, accountNo, amount, n - 1);
      var rest := WithdrawRepeatedly(first.store, accountNo, amount, n - 1);
      var a, b := amount.value, s[accountNo].balance;
      if first.result.Success? {
        assert WithdrawRepeatedly(s, accountNo, amount, n) == (rest.0, rest.1 + 1);
        assert first.store[accountNo].balance == b - a;
        assert Times(rest.1 + 1, a) == Times(rest.1, a) + a;
      } else {
        assert WithdrawRepeatedly(s, accountNo, amount, n) == rest;
        TimesIsProduct(rest.1, a);
      }
    }
  }
}
