/** `AccountService`: read-only account lookups over the shared connection.
    The SQL tables are an abstract `Store`; the query of `getAccount` is the
    inner join of an account row with its customer row. */
module AccountService {
  import opened Wrappers
  import opened CText
  import opened DbConnection

  /** A row of the `accounts` table, keyed by `account_id`. */
  datatype AccountRow = AccountRow(customerId: Int32, accountType: string, balance: real, currency: string)

  /** A row of the `customers` table, keyed by `customer_id`. */
  datatype Customer = Customer(fullName: string, email: string)

  datatype Store = Store(accounts: map<Int32, AccountRow>, customers: map<Int32, Customer>)

  /** The `Account` record `getAccount` assembles from one joined row. */
  datatype Account = Account(
    accountId: Int32,
    customerId: Int32,
    customerName: string,
    customerEmail: string,
    accountType: string,
    balance: real,
    currency: string)

  /** The row the join query returns for `id`: present when the account
      exists and its customer does too. */
  predicate HasRow(store: Store, id: Int32) {
    id in store.accounts && store.accounts[id].customerId in store.customers
  }

  function NotFound(id: Int32): string {
    "Account not found: " + IntToString(id)
  }

  /** `getAccount(id)`: fails when no read transaction can be opened;
      otherwise empty exactly when the query has no row, and else that row's
      fields unchanged. A query, commit or column conversion that throws on
      a live connection is not part of this model. */
  function GetAccount(db: Db, store: Store, id: Int32): (r: Result<Option<Account>>)
    ensures r.Err? <==> !IsConnected(db)
    ensures r.Err? ==> r.error == NotConnected
    ensures r.Ok? ==> (r.value.Some? <==> HasRow(store, id))
    ensures r.Ok? && r.value.Some? ==>
      var a := r.value.value;
      var row := store.accounts[id];
      var c := store.customers[row.customerId];
      && a.accountId == id
      && a.customerId == row.customerId
      && a.customerName == c.fullName
      && a.customerEmail == c.email
      && a.accountType == row.accountType
      && a.balance == row.balance
      && a.currency == row.currency
  {
    match CreateTransaction(db, ReadOnly)
    case Err(e) => Err(e)
    case Ok(_) =>
      if !HasRow(store, id) then Ok(None)
      else
        var row := store.accounts[id];
        var c := store.customers[row.customerId];
        Ok(Some(Account(id, row.customerId, c.fullName, c.email, row.accountType, row.balance, row.currency)))
  }

  /** `accountExist(id)`: whether `getAccount(id)` has a value. */
  function AccountExist(db: Db, store: Store, id: Int32): (r: Result<bool>)
    ensures r.Err? <==> GetAccount(db, store, id).Err?
    ensures r.Ok? ==> (r.value <==> GetAccount(db, store, id).value.Some?)
    ensures r.Ok? ==> (r.value <==> HasRow(store, id))
  {
    match GetAccount(db, store, id)
    case Err(e) => Err(e)
    case Ok(acc) => Ok(acc.Some?)
  }

  /** `getBalance(id)`: the stored balance, or "Account not found: <id>". */
  function GetBalance(db: Db, store: Store, id: Int32): (r: Result<real>)
    ensures !IsConnected(db) ==> r == Err(NotConnected)
    ensures IsConnected(db) && HasRow(store, id) ==> r == Ok(store.accounts[id].balance)
    ensures IsConnected(db) && !HasRow(store, id) ==> r == Err("Account not found: " + IntToString(id))
  {
    match GetAccount(db, store, id)
    case Err(e) => Err(e)
    case Ok(None) => Err(NotFound(id))
    case Ok(Some(acc)) => Ok(acc.balance)
  }

  const IdLabel := "Account ID:   "

  /** `printAccount(id)`: the text written to standard output, or the same
      "Account not found: <id>" failure as `getBalance`. */
  function PrintAccount(db: Db, store: Store, id: Int32): (r: Result<string>)
    ensures r.Err? <==> GetBalance(db, store, id).Err?
    ensures r.Err? ==> r.error == GetBalance(db, store, id).error
    ensures r.Ok? ==> |r.value| > |IdLabel| && r.value[..|IdLabel|] == IdLabel
  {
    match GetAccount(db, store, id)
    case Err(e) => Err(e)
    case Ok(None) => Err(NotFound(id))
    case Ok(Some(a)) => Ok(IdLabel + Printout(a))
  }

  /** The lines of the printout after the `Account ID:` label. */
  function Printout(a: Account): (text: string)
    ensures text != []
  {
    IntToString(a.accountId) + "\n"
    + "Customer ID:  " + IntToString(a.customerId) + "\n"
    + "Customer Name: " + a.customerName + "\n"
    + "Customer Email: " + a.customerEmail + "\n"
    + "Type:         " + a.accountType + "\n"
  }

  /** The account's balance as the join query would report it. */
  function BalanceOf(store: Store, id: Int32): Option<real> {
    if HasRow(store, id) then Some(store.accounts[id].balance) else None
  }

  /** On a live connection, `getBalance` succeeds exactly for the accounts the
      query finds, and `accountExist` agrees with it. */
  lemma BalanceAgreesWithExistence(db: Db, store: Store, id: Int32)
    requires IsConnected(db)
    ensures GetBalance(db, store, id).Ok? <==> AccountExist(db, store, id) == Ok(true)
    ensures GetBalance(db, store, id).Ok? ==> Some(GetBalance(db, store, id).value) == BalanceOf(store, id)
  {
  }
}
