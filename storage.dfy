/**
 * The `Storage` interface as an in-memory table: a map from account id to the stored row,
 * plus the counter behind the table's `serial` id column.
 */
module Storage {
  import opened Wrappers
  import opened Types

  /** The `account` table, keyed by id. */
  type Table = map<int, Account>

  /** Every row is stored under its own id, as the primary key makes it. */
  ghost predicate WellKeyed(t: Table)
  {
    forall id :: id in t ==> t[id].id == id
  }

  /** The result of selecting the row with a given id. */
  function FindById(t: Table, id: int): Result<Account, Error>
  {
    if id in t then Success(t[id]) else Failure(AccountIdNotFound(id))
  }

  /**
   * The table after an `UPDATE ... WHERE id = acc.id` that sets every column but the id and
   * the creation time; an id that matches no row changes nothing.
   */
  function Overwritten(t: Table, acc: Account): (r: Table)
    ensures r.Keys == t.Keys
    ensures forall k :: k in t && k != acc.id ==> r[k] == t[k]
    ensures acc.id in t ==>
      && r[acc.id].id == acc.id && r[acc.id].createdAt == t[acc.id].createdAt
      && r[acc.id].firstName == acc.firstName && r[acc.id].lastName == acc.lastName
      && r[acc.id].email == acc.email && r[acc.id].encryptedPassword == acc.encryptedPassword
      && r[acc.id].phone == acc.phone && r[acc.id].balance == acc.balance
    ensures acc.id !in t ==> r == t
  {
    if acc.id in t then t[acc.id := acc.(createdAt := t[acc.id].createdAt)] else t
  }

  /** `a` is the row a select by email returns first: it matches, and no row with a smaller id does. */
  ghost predicate FirstWithEmail(t: Table, email: string, a: Account)
  {
    && a.id in t && t[a.id] == a && a.email == email
    && forall k :: k in t && k < a.id ==> t[k].email != email
  }

  /** The ids of the table below `n`, the part of the table a scan in id order has passed. */
  ghost function IdsBelow(t: Table, n: int): set<int>
  {
    set k | k in t && k < n
  }

  /** Moving the scan past `n` adds `n` to the ids passed exactly when `n` is stored. */
  lemma IdsBelowNext(t: Table, n: int)
    ensures |IdsBelow(t, n + 1)| == |IdsBelow(t, n)| + (if n in t then 1 else 0)
  {
    if n in t {
      assert IdsBelow(t, n + 1) == IdsBelow(t, n) + {n};
    } else {
      assert IdsBelow(t, n + 1) == IdsBelow(t, n);
    }
  }

  class AccountStore {
    /** The rows of the table. */
    var accounts: Table
    /** The next value of the id sequence; it starts at 1 and never goes back. */
    var nextId: int

    ghost predicate Valid()
      reads this
    {
      && 1 <= nextId
      && WellKeyed(accounts)
      && forall id :: id in accounts ==> 1 <= id < nextId
    }

    /** A freshly initialised, empty table. */
    constructor ()
      ensures Valid()
      ensures accounts == map[] && nextId == 1
    {
      accounts := map[];
      nextId := 1;
    }

    /**
     * Inserts `acc` under the next id of the sequence and returns it with that id filled in.
     * `db` says whether the database accepts the insert.
     */
    method CreateAccount(acc: Account, db: WriteOutcome) returns (created: Account, err: Option<Error>)
      requires Valid()
      modifies this
      ensures Valid()
      ensures db.Accepted? ==>
        && err == None
        && created == acc.(id := old(nextId)) && created.id != 0
        && created.id !in old(accounts)
        && accounts == old(accounts)[created.id := created]
        && nextId == old(nextId) + 1
      ensures db.Refused? ==> err == Some(DriverError(db.cause)) && created == acc && accounts == old(accounts) && nextId == old(nextId)
    {
      if db.Refused? {
        return acc, Some(DriverError(db.cause));
      }
      created := acc.(id := nextId);
      accounts := accounts[nextId := created];
      nextId := nextId + 1;
      err := None;
    }

    /** Deletes the row with the given id; an absent id is not an error and changes nothing. */
    method DeleteAccount(id: int, db: WriteOutcome) returns (err: Option<Error>)
      requires Valid()
      modifies this
      ensures Valid() && nextId == old(nextId)
      ensures db.Accepted? ==> err == None && accounts == old(accounts) - {id}
      ensures db.Refused? ==> err == Some(DriverError(db.cause)) && accounts == old(accounts)
    {
      if db.Refused? {
        return Some(DriverError(db.cause));
      }
      accounts := accounts - {id};
      err := None;
    }

    /** Overwrites the row whose id is `acc.id`; an absent id is not an error and changes nothing. */
    method UpdateAccount(acc: Account, db: WriteOutcome) returns (err: Option<Error>)
      requires Valid()
      modifies this
      ensures Valid() && nextId == old(nextId)
      ensures db.Accepted? ==> err == None && accounts == Overwritten(old(accounts), acc)
      ensures db.Refused? ==> err == Some(UpdateFailed(db.cause)) && accounts == old(accounts)
    {
      if db.Refused? {
        return Some(UpdateFailed(db.cause));
      }
      accounts := Overwritten(accounts, acc);
      err := None;
    }

    /** The row with the given id, or a "not found" error when there is none. */
    method GetAccountByID(id: int) returns (r: Result<Account, Error>)
      requires Valid()
      ensures r == FindById(accounts, id)
      ensures r.Success? ==> r.value.id == id
    {
      if id in accounts {
        r := Success(accounts[id]);
      } else {
        r := Failure(AccountIdNotFound(id));
      }
    }

    /**
     * The first row, in id order, whose email is `email`. Emails are not unique: when several rows
     * share one, the one with the smallest id is returned.
     */
    method GetAccountByEmail(email: string) returns (r: Result<Account, Error>)
      requires Valid()
      ensures r.Success? ==> FirstWithEmail(accounts, email, r.value)
      ensures r.Failure? ==> r.error == AccountEmailNotFound(email)
      ensures r.Failure? <==> forall k :: k in accounts ==> accounts[k].email != email
    {
      var id := 1;
      while id < nextId
        invariant 1 <= id <= nextId
        invariant forall k :: k in accounts && k < id ==> accounts[k].email != email
      {
        if id in accounts && accounts[id].email == email {
          return Success(accounts[id]);
        }
        id := id + 1;
      }
      return Failure(AccountEmailNotFound(email));
    }

    /** Every stored row, once each, in id order. */
    method GetAccounts() returns (rows: seq<Account>)
      requires Valid()
      ensures |rows| == |accounts|
      ensures forall i :: 0 <= i < |rows| ==> rows[i].id in accounts && accounts[rows[i].id] == rows[i]
      ensures forall i, j :: 0 <= i < j < |rows| ==> rows[i].id < rows[j].id
      ensures forall id :: id in accounts ==> accounts[id] in rows
    {
      rows := [];
      var id := 1;
      while id < nextId
        invariant 1 <= id <= nextId
        invariant |rows| == |IdsBelow(accounts, id)|
        invariant forall i :: 0 <= i < |rows| ==> rows[i].id in accounts && accounts[rows[i].id] == rows[i]
        invariant forall i :: 0 <= i < |rows| ==> rows[i].id < id
        invariant forall i, j :: 0 <= i < j < |rows| ==> rows[i].id < rows[j].id
        invariant forall k :: k in accounts && k < id ==> accounts[k] in rows
      {
        IdsBelowNext(accounts, id);
        if id in accounts {
          rows := rows + [accounts[id]];
        }
        id := id + 1;
      }
      assert IdsBelow(accounts, id) == accounts.Keys;
    }
  }

  /** After a delete, a select of that id fails and every other row is still there. */
  lemma DeleteThenGet(t: Table, id: int, other: int)
    requires other != id
    ensures FindById(t - {id}, id) == Failure(AccountIdNotFound(id))
    ensures FindById(t - {id}, other) == FindById(t, other)
  {
  }

  /**
   * A row created with an email no other row has is what a select by that email returns;
   * when an older row already has the email, the older row shadows the new one.
   */
  lemma CreatedFoundByEmail(t: Table, n: int, acc: Account)
    requires forall k :: k in t ==> k < n
    ensures (forall k :: k in t ==> t[k].email != acc.email) ==>
      FirstWithEmail(t[n := acc.(id := n)], acc.email, acc.(id := n))
    ensures (exists k :: k in t && t[k].email == acc.email) ==>
      !FirstWithEmail(t[n := acc.(id := n)], acc.email, acc.(id := n))
  {
    if k :| k in t && t[k].email == acc.email {
      assert k < n && t[n := acc.(id := n)][k].email == acc.email;
    }
  }

  /**
   * The store's own test scenarios, on a store that may already hold rows: create then fetch by id
   * and by email, create three then list, create then delete then fetch, create then update then fetch.
   */
  method StoreScenarios(store: AccountStore, acc: Account)
    requires store.Valid()
    requires forall k :: k in store.accounts ==> store.accounts[k].email != acc.email
    modifies store
  {
    var created, err := store.CreateAccount(acc, Accepted);
    assert created.id != 0;
    var byId := store.GetAccountByID(created.id);
    assert byId.Success? && byId.value.email == acc.email;
    var byEmail := store.GetAccountByEmail(acc.email);
    assert byEmail.Success? && byEmail.value.id == created.id;

    var before := |store.accounts|;
    var a1, e1 := store.CreateAccount(acc.(email := "test0@example.com"), Accepted);
    var a2, e2 := store.CreateAccount(acc.(email := "test1@example.com"), Accepted);
    var a3, e3 := store.CreateAccount(acc.(email := "test2@example.com"), Accepted);
    var all := store.GetAccounts();
    assert |all| == before + 3 >= 3;

    var doomed, e4 := store.CreateAccount(acc, Accepted);
    var e5 := store.DeleteAccount(doomed.id, Accepted);
    var gone := store.GetAccountByID(doomed.id);
    assert gone.Failure?;

    var alice, e6 := store.CreateAccount(acc.(balance := 3000), Accepted);
    var e7 := store.UpdateAccount(alice.(balance := 3500), Accepted);
    var updated := store.GetAccountByID(alice.id);
    assert updated.Success? && updated.value.balance == 3500;
  }
}
