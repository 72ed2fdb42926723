/**
 * The user repository (internal/database/user.go) as an in-memory store: a
 * users table from user ID to balance text, and an append-only transactions
 * table. The unit of work of the service is a snapshot taken before its steps
 * and restored when a step fails.
 */
module Repository {
  import opened Wrappers
  import opened Records

  /** The lookup found no row (gorm's ErrRecordNotFound). */
  datatype StoreError = RecordNotFound

  /** Everything the store holds, as one value. */
  datatype StoreState = StoreState(users: map<nat, string>, log: seq<Transaction>)

  /** Some record in the log carries this transaction ID, whichever user it belongs to. */
  predicate Recorded(log: seq<Transaction>, transactionId: string) {
    exists i :: 0 <= i < |log| && log[i].transactionId == transactionId
  }

  /** How many records carry this transaction ID (the COUNT the source asks the database for). */
  function CountRecords(log: seq<Transaction>, transactionId: string): nat {
    if log == [] then 0
    else CountRecords(log[..|log| - 1], transactionId) + (if log[|log| - 1].transactionId == transactionId then 1 else 0)
  }

  /** No two records share a transaction ID. */
  ghost predicate UniqueTransactionIds(log: seq<Transaction>) {
    forall i, j :: 0 <= i < j < |log| ==> log[i].transactionId != log[j].transactionId
  }

  lemma {:induction false} CountPositiveIffRecorded(log: seq<Transaction>, transactionId: string)
    ensures CountRecords(log, transactionId) > 0 <==> Recorded(log, transactionId)
  {
    if log != [] {
      var prefix := log[..|log| - 1];
      CountPositiveIffRecorded(prefix, transactionId);
      if Recorded(prefix, transactionId) {
        var i :| 0 <= i < |prefix| && prefix[i].transactionId == transactionId;
        assert log[i] == prefix[i];
      }
      if Recorded(log, transactionId) && log[|log| - 1].transactionId != transactionId {
        var i :| 0 <= i < |log| && log[i].transactionId == transactionId;
        assert prefix[i] == log[i];
      }
    }
  }

  lemma CountAppend(log: seq<Transaction>, r: Transaction, transactionId: string)
    ensures CountRecords(log + [r], transactionId)
         == CountRecords(log, transactionId) + (if r.transactionId == transactionId then 1 else 0)
  {
    assert (log + [r])[..|log|] == log;
  }

  /** With unique IDs, every transaction ID is recorded at most once. */
  lemma {:induction false} UniqueMeansAtMostOnce(log: seq<Transaction>, transactionId: string)
    requires UniqueTransactionIds(log)
    ensures CountRecords(log, transactionId) <= 1
  {
    if log != [] {
      var prefix := log[..|log| - 1];
      assert UniqueTransactionIds(prefix);
      UniqueMeansAtMostOnce(prefix, transactionId);
      if log[|log| - 1].transactionId == transactionId {
        assert !Recorded(prefix, transactionId) by {
          forall i | 0 <= i < |prefix| ensures prefix[i].transactionId != transactionId {
            assert prefix[i] == log[i];
          }
        }
        CountPositiveIffRecorded(prefix, transactionId);
      }
    }
  }

  class UserRepository {
    var users: map<nat, string>
    var transactions: seq<Transaction>

    constructor(users: map<nat, string>, transactions: seq<Transaction>)
      ensures this.users == users && this.transactions == transactions
    {
      this.users := users;
      this.transactions := transactions;
    }

    function State(): StoreState
      reads this
    {
      StoreState(users, transactions)
    }

    /** GetUser: the row whose ID is userId, or not found. */
    method GetUser(userId: nat) returns (r: Result<User, StoreError>)
      ensures r.Success? <==> userId in users
      ensures r.Success? ==> r.value.id == userId && r.value.balance == users[userId]
      ensures r.Failure? ==> r.error == RecordNotFound
    {
      if userId in users {
        r := Success(User(userId, users[userId]));
      } else {
        r := Failure(RecordNotFound);
      }
    }

    /**
     * GetUserForUpdate: the same row as GetUser. The FOR UPDATE hint it passes
     * bears only on concurrent units of work, so in a sequential store it
     * returns exactly what GetUser returns.
     */
    method GetUserForUpdate(userId: nat) returns (r: Result<User, StoreError>)
      ensures r.Success? <==> userId in users
      ensures r.Success? ==> r.value.id == userId && r.value.balance == users[userId]
      ensures r.Failure? ==> r.error == RecordNotFound
    {
      r := GetUser(userId);
    }

    /**
     * UpdateUserBalance: overwrites the balance of user userId. Like an UPDATE
     * whose WHERE clause matches no row, it changes nothing for an unknown ID.
     */
    method UpdateUserBalance(userId: nat, newBalance: string)
      modifies this
      ensures users == if userId in old(users) then old(users)[userId := newBalance] else old(users)
      ensures transactions == old(transactions)
    {
      if userId in users {
        users := users[userId := newBalance];
      }
    }

    /** TransactionExists: counts the records with this ID over the whole log, then tests the count. */
    method TransactionExists(transactionId: string) returns (found: bool)
      ensures found <==> Recorded(transactions, transactionId)
      ensures found <==> CountRecords(transactions, transactionId) > 0
    {
      var count := 0;
      var i := 0;
      while i < |transactions|
        invariant 0 <= i <= |transactions|
        invariant count == CountRecords(transactions[..i], transactionId)
      {
        assert transactions[..i + 1][..i] == transactions[..i];
        if transactions[i].transactionId == transactionId {
          count := count + 1;
        }
        i := i + 1;
      }
      assert transactions[..i] == transactions;
      CountPositiveIffRecorded(transactions, transactionId);
      found := count > 0;
    }

    /** CreateTransaction: appends one record to the log. */
    method CreateTransaction(t: Transaction)
      modifies this
      ensures transactions == old(transactions) + [t]
      ensures users == old(users)
    {
      transactions := transactions + [t];
    }

    /** Beginning a unit of work: remembers the whole state. */
    method Snapshot() returns (s: StoreState)
      ensures s.users == users && s.log == transactions
    {
      s := StoreState(users, transactions);
    }

    /** Rolling a unit of work back: puts the remembered state back. */
    method Rollback(s: StoreState)
      modifies this
      ensures State() == s
    {
      users := s.users;
      transactions := s.log;
    }
  }
}
