/**
 * The Account record and the schema that guards it: two required strings stored
 * trimmed, a required non-negative balance that defaults to 0, and a KYC flag that
 * defaults to false. Account numbers are unique, so the collection of accounts is a
 * map keyed by account number.
 */
module AccountSchema {
  import opened Wrappers

  /** The code points that JavaScript's String.prototype.trim removes: the ECMAScript
      WhiteSpace and LineTerminator characters. */
  predicate IsWhitespace(c: char) {
    c == '\t' || c == '\n' || c == '\U{000B}' || c == '\U{000C}' || c == '\r' || c == ' ' ||
    c == '\U{00A0}' || c == '\U{1680}' || ('\U{2000}' <= c <= '\U{200A}') ||
    c == '\U{2028}' || c == '\U{2029}' || c == '\U{202F}' || c == '\U{205F}' ||
    c == '\U{3000}' || c == '\U{FEFF}'
  }

  /** Neither end of `s` is whitespace. */
  predicate IsTrimmed(s: string) {
    s == [] || (!IsWhitespace(s[0]) && !IsWhitespace(s[|s| - 1]))
  }

  /** `s` without its leading whitespace. */
  function TrimStart(s: string): (r: string)
    ensures |r| <= |s|
    ensures r == [] || !IsWhitespace(r[0])
  {
    if s != [] && IsWhitespace(s[0]) then TrimStart(s[1..]) else s
  }

  /** `s` without its trailing whitespace. */
  function TrimEnd(s: string): (r: string)
    ensures |r| <= |s|
    ensures r == [] || !IsWhitespace(r[|r| - 1])
  {
    if s != [] && IsWhitespace(s[|s| - 1]) then TrimEnd(s[..|s| - 1]) else s
  }

  /** TrimStart keeps a suffix of `s` and cuts off only whitespace. */
  lemma {:induction false} TrimStartIsSuffix(s: string)
    ensures TrimStart(s) == s[|s| - |TrimStart(s)|..]
    ensures forall i :: 0 <= i < |s| - |TrimStart(s)| ==> IsWhitespace(s[i])
  {
    if s != [] && IsWhitespace(s[0]) {
      TrimStartIsSuffix(s[1..]);
      assert s[1..][|s| - 1 - |TrimStart(s)|..] == s[|s| - |TrimStart(s)|..];
      forall i | 1 <= i < |s| - |TrimStart(s)| ensures IsWhitespace(s[i]) {
        assert s[i] == s[1..][i - 1];
      }
    }
  }

  /** TrimEnd keeps a prefix of `s` and cuts off only whitespace. */
  lemma {:induction false} TrimEndIsPrefix(s: string)
    ensures TrimEnd(s) == s[..|TrimEnd(s)|]
    ensures forall i :: |TrimEnd(s)| <= i < |s| ==> IsWhitespace(s[i])
  {
    if s != [] && IsWhitespace(s[|s| - 1]) {
      TrimEndIsPrefix(s[..|s| - 1]);
      assert s[..|s| - 1][..|TrimEnd(s)|] == s[..|TrimEnd(s)|];
      forall i | |TrimEnd(s)| <= i < |s| - 1 ensures IsWhitespace(s[i]) {
        assert s[i] == s[..|s| - 1][i];
      }
    }
  }

  /** JavaScript's `s.trim()`: `s` without whitespace at either end (TrimIsMiddle and
      TrimEmpty below say which part of `s` that is). */
  function Trim(s: string): (r: string)
    ensures IsTrimmed(r)
    ensures IsTrimmed(s) ==> r == s
  {
    TrimEndIsPrefix(TrimStart(s));
    TrimEnd(TrimStart(s))
  }

  /** Trim(s) is the part of s between a whitespace prefix and a whitespace suffix. */
  lemma TrimIsMiddle(s: string)
    ensures var lo, r := |s| - |TrimStart(s)|, Trim(s);
            && 0 <= lo <= |s| - |r| && r == s[lo..lo + |r|]
            && (forall i :: 0 <= i < lo ==> IsWhitespace(s[i]))
            && (forall i :: lo + |r| <= i < |s| ==> IsWhitespace(s[i]))
  {
    var t := TrimStart(s);
    var lo, r := |s| - |t|, Trim(s);
    TrimStartIsSuffix(s);
    TrimEndIsPrefix(t);
    forall i | lo + |r| <= i < |s| ensures IsWhitespace(s[i]) {
      assert s[i] == t[i - lo];
    }
  }

  /** A string trims to the empty string exactly when it is all whitespace. */
  lemma TrimEmpty(s: string)
    ensures Trim(s) == [] <==> forall i :: 0 <= i < |s| ==> IsWhitespace(s[i])
  {
    TrimIsMiddle(s);
    TrimStartIsSuffix(s);
    var t := TrimStart(s);
    if t != [] {
      assert t[0] == s[|s| - |t|];
    }
  }

  /** Trimming twice is trimming once. */
  lemma TrimIdempotent(s: string)
    ensures Trim(Trim(s)) == Trim(s)
  {
  }

  /** A stored account document. */
  datatype Account = Account(accountNo: string, holderName: string, balance: real, isKYCVerified: bool)

  /** The schema's defaults for the two fields that have one. */
  const DefaultBalance: real := 0.0
  const DefaultKYCVerified: bool := false

  /** What the schema guarantees of every stored document. */
  predicate ValidAccount(a: Account) {
    && a.accountNo != "" && IsTrimmed(a.accountNo)
    && a.holderName != "" && IsTrimmed(a.holderName)
    && a.balance >= 0.0
  }

  /** The fields handed to the schema when a document is created; None is a field
      that was not supplied. */
  datatype AccountDoc = AccountDoc(
    accountNo: Option<string>,
    holderName: Option<string>,
    balance: Option<real>,
    isKYCVerified: Option<bool>)

  /** The paths the schema's validators can reject. */
  datatype Path = AccountNoPath | HolderNamePath | BalancePath

  /** Casting and validating a document against the schema: trim the strings, fill in
      the defaults, then reject every path whose validator fails (a required string that
      is missing or empty, a balance below the minimum 0). */
  function Cast(d: AccountDoc): (r: Result<Account, set<Path>>)
    ensures r.Success? <==>
              Trim(d.accountNo.GetOr("")) != "" && Trim(d.holderName.GetOr("")) != "" &&
              d.balance.GetOr(DefaultBalance) >= 0.0
    ensures r.Success? ==> ValidAccount(r.value)
    ensures r.Success? ==>
              && r.value.accountNo == Trim(d.accountNo.value)
              && r.value.holderName == Trim(d.holderName.value)
              && r.value.balance == d.balance.GetOr(DefaultBalance)
              && r.value.isKYCVerified == d.isKYCVerified.GetOr(DefaultKYCVerified)
    ensures r.Failure? ==>
              && (AccountNoPath in r.error <==> Trim(d.accountNo.GetOr("")) == "")
              && (HolderNamePath in r.error <==> Trim(d.holderName.GetOr("")) == "")
              && (BalancePath in r.error <==> d.balance.GetOr(DefaultBalance) < 0.0)
  {
    var accountNo := Trim(d.accountNo.GetOr(""));
    var holderName := Trim(d.holderName.GetOr(""));
    var balance := d.balance.GetOr(DefaultBalance);
    if accountNo != "" && holderName != "" && balance >= 0.0 then
      Success(Account(accountNo, holderName, balance, d.isKYCVerified.GetOr(DefaultKYCVerified)))
    else
      Failure((if accountNo == "" then {AccountNoPath} else {}) +
              (if holderName == "" then {HolderNamePath} else {}) +
              (if balance < 0.0 then {BalancePath} else {}))
  }

  /** The document that reproduces a stored account when cast again. */
  function ToDoc(a: Account): AccountDoc {
    AccountDoc(Some(a.accountNo), Some(a.holderName), Some(a.balance), Some(a.isKYCVerified))
  }

  /** The collection of accounts, keyed by account number. */
  type Store = map<string, Account>

  /** The collection invariant: every document sits under its own account number (so no
      two documents share one) and satisfies the schema. */
  predicate ValidStore(s: Store) {
    forall k :: k in s ==> s[k].accountNo == k && ValidAccount(s[k])
  }
}
