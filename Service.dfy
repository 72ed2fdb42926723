/**
 * The user service (internal/service/user.go): the balance query and the
 * transaction unit of work over the repository.
 *
 * ApplyTransaction is what one unit of work does to the whole store, as a
 * function of the store before it; UserService.ProcessTransaction carries it
 * out step by step on the repository and is proved to agree with it. The
 * lemmas below state what the source promises about it: duplicates are refused
 * first, failures leave no trace, a success changes one balance and appends
 * one record, balances stay non-negative, and a retried request is applied once.
 */
module Service {
  import opened Wrappers
  import opened Numerals
  import opened Records
  import opened Amounts
  import opened Repository

  /** The service's failures, in place of the source's error strings. */
  datatype ServiceError =
    | TransactionAlreadyProcessed    // "transaction already processed"
    | UserNotFound                   // "user not found"
    | InvalidCurrentBalance          // the stored balance does not parse
    | InvalidTransactionAmount       // the request amount does not parse
    | BalanceRule(reason: BalanceError)  // calculateNewBalance's own error, passed on unchanged
    | InvalidBalanceFormat           // the balance query met a stored balance that does not parse

  /** What a unit of work reports and the store it leaves behind. */
  datatype Outcome = Outcome(error: Option<ServiceError>, after: StoreState)

  /** The record a successful unit of work appends. */
  function RecordFor(userId: nat, req: TransactionRequest, sourceType: string): (t: Transaction)
    ensures t.userId == userId && t.transactionId == req.transactionId
    ensures t.amount == req.amount && t.state == req.state && t.sourceType == sourceType
  {
    Transaction(userId, req.transactionId, req.amount, req.state, sourceType)
  }

  /**
   * One unit of work: duplicate check, user read, parse of balance and amount,
   * the new balance, then the balance write and the log append. Any failure
   * hands back the store exactly as it was.
   */
  function ApplyTransaction(st: StoreState, userId: nat, req: TransactionRequest, sourceType: string): (o: Outcome)
    ensures o.error.Some? ==> o.after == st
    ensures Recorded(st.log, req.transactionId) ==> o.error == Some(TransactionAlreadyProcessed)
    ensures !Recorded(st.log, req.transactionId) && userId !in st.users ==> o.error == Some(UserNotFound)
    ensures !Recorded(st.log, req.transactionId) && userId in st.users && ParseAmount(st.users[userId]).None? ==>
      o.error == Some(InvalidCurrentBalance)
    ensures (!Recorded(st.log, req.transactionId) && userId in st.users && ParseAmount(st.users[userId]).Some?
             && ParseAmount(req.amount).None?) ==> o.error == Some(InvalidTransactionAmount)
    ensures (!Recorded(st.log, req.transactionId) && userId in st.users && ParseAmount(st.users[userId]).Some?
             && ParseAmount(req.amount).Some?) ==>
      var r := CalculateNewBalance(ParseAmount(st.users[userId]).value, ParseAmount(req.amount).value, req.state);
      r.Failure? ==> o.error == Some(BalanceRule(r.error))
    ensures o.error.None? ==>
      && userId in st.users
      && !Recorded(st.log, req.transactionId)
      && o.after.log == st.log + [RecordFor(userId, req, sourceType)]
      && userId in o.after.users
      && o.after.users == st.users[userId := o.after.users[userId]]
      && HasTwoFractionDigits(o.after.users[userId])
    ensures o.error.None? <==>
      && !Recorded(st.log, req.transactionId)
      && userId in st.users
      && ParseAmount(st.users[userId]).Some?
      && ParseAmount(req.amount).Some?
      && CalculateNewBalance(ParseAmount(st.users[userId]).value, ParseAmount(req.amount).value, req.state).Success?
  {
    if Recorded(st.log, req.transactionId) then Outcome(Some(TransactionAlreadyProcessed), st)
    else if userId !in st.users then Outcome(Some(UserNotFound), st)
    else
      match ParseAmount(st.users[userId])
      case None => Outcome(Some(InvalidCurrentBalance), st)
      case Some(current) =>
        match ParseAmount(req.amount)
        case None => Outcome(Some(InvalidTransactionAmount), st)
        case Some(amount) =>
          match CalculateNewBalance(current, amount, req.state)
          case Failure(e) => Outcome(Some(BalanceRule(e)), st)
          case Success(newBalance) =>
            Outcome(None, StoreState(st.users[userId := FormatAmount(newBalance)],
                                     st.log + [RecordFor(userId, req, sourceType)]))
  }

  /** The balance query: the user's ID and the stored balance re-rendered with two decimals. */
  function BalanceOf(users: map<nat, string>, userId: nat): (r: Result<BalanceResponse, ServiceError>)
    ensures r == Failure(UserNotFound) <==> userId !in users
    ensures r.Success? <==> userId in users && ParseAmount(users[userId]).Some?
    ensures r.Failure? ==> r.error == UserNotFound || r.error == InvalidBalanceFormat
    ensures r.Success? ==> r.value.userId == userId && HasTwoFractionDigits(r.value.balance)
  {
    if userId !in users then Failure(UserNotFound)
    else
      match ParseAmount(users[userId])
      case None => Failure(InvalidBalanceFormat)
      case Some(balance) => Success(BalanceResponse(userId, FormatAmount(balance)))
  }

  // ---------------------------------------------------------------------------
  // Properties of the unit of work

  /** A successful unit of work writes the formatted result of the balance arithmetic. */
  lemma SuccessWritesNewBalance(st: StoreState, userId: nat, req: TransactionRequest, sourceType: string)
    requires ApplyTransaction(st, userId, req, sourceType).error.None?
    ensures userId in st.users && ParseAmount(st.users[userId]).Some? && ParseAmount(req.amount).Some?
    ensures var r := CalculateNewBalance(ParseAmount(st.users[userId]).value, ParseAmount(req.amount).value, req.state);
      r.Success? && ApplyTransaction(st, userId, req, sourceType).after.users[userId] == FormatAmount(r.value)
  {
  }

  /**
   * Conservation: with balance and amount in whole cents, a win adds the
   * amount and a lose subtracts it, exactly, and a lose never goes below zero.
   */
  lemma Conservation(st: StoreState, userId: nat, req: TransactionRequest, sourceType: string)
    requires ApplyTransaction(st, userId, req, sourceType).error.None?
    requires userId in st.users && ParseAmount(st.users[userId]).Some? && ParseAmount(req.amount).Some?
    requires ParseAmount(st.users[userId]).value.scale <= 2 && ParseAmount(req.amount).value.scale <= 2
    ensures var after := ApplyTransaction(st, userId, req, sourceType).after.users[userId];
      && ParseAmount(after).Some?
      && var before, amount, now := Value(ParseAmount(st.users[userId]).value), Value(ParseAmount(req.amount).value), Value(ParseAmount(after).value);
      && (req.state == "win" ==> now == before + amount)
      && (req.state == "lose" ==> now == before - amount && now >= 0.0)
  {
    var current, amount := ParseAmount(st.users[userId]).value, ParseAmount(req.amount).value;
    var r := CalculateNewBalance(current, amount, req.state);
    FormatThenParse(r.value);
    CentsAreExact(r.value);
  }

  /** Every stored balance is a well-formed amount that is not negative. */
  ghost predicate BalancesNonNegative(users: map<nat, string>) {
    forall u :: u in users ==> ParseAmount(users[u]).Some? && ParseAmount(users[u]).value.units >= 0
  }

  /** A unit of work whose amount is not negative keeps every balance non-negative. */
  lemma KeepsBalancesNonNegative(st: StoreState, userId: nat, req: TransactionRequest, sourceType: string)
    requires BalancesNonNegative(st.users)
    requires ParseAmount(req.amount).Some? ==> ParseAmount(req.amount).value.units >= 0
    ensures BalancesNonNegative(ApplyTransaction(st, userId, req, sourceType).after.users)
  {
    var o := ApplyTransaction(st, userId, req, sourceType);
    if o.error.None? {
      var current, amount := ParseAmount(st.users[userId]).value, ParseAmount(req.amount).value;
      var r := CalculateNewBalance(current, amount, req.state);
      NewBalanceNotNegative(current, amount, req.state);
      FormatThenParse(r.value);
      forall u | u in o.after.users
        ensures ParseAmount(o.after.users[u]).Some? && ParseAmount(o.after.users[u]).value.units >= 0
      {
        if u != userId {
          assert o.after.users[u] == st.users[u];
        }
      }
    }
  }

  /** A unit of work keeps transaction IDs unique across the whole log. */
  lemma KeepsTransactionIdsUnique(st: StoreState, userId: nat, req: TransactionRequest, sourceType: string)
    requires UniqueTransactionIds(st.log)
    ensures UniqueTransactionIds(ApplyTransaction(st, userId, req, sourceType).after.log)
  {
    var o := ApplyTransaction(st, userId, req, sourceType);
    if o.error.None? {
      var log := o.after.log;
      forall i, j | 0 <= i < j < |log| ensures log[i].transactionId != log[j].transactionId {
        if j == |st.log| {
          assert log[i] == st.log[i];
          assert log[j].transactionId == req.transactionId;
        } else {
          assert log[i] == st.log[i] && log[j] == st.log[j];
        }
      }
    }
  }

  /**
   * Idempotence: once a request has gone through, any later request with the
   * same transaction ID (for whatever user, amount or state) is refused as a
   * duplicate and changes nothing, so the ID is recorded once more than
   * before the first call, never twice.
   */
  lemma {:induction false} AppliedOnce(st: StoreState, userId: nat, req: TransactionRequest, sourceType: string,
                                       userId2: nat, req2: TransactionRequest, sourceType2: string)
    requires req2.transactionId == req.transactionId
    requires ApplyTransaction(st, userId, req, sourceType).error.None?
    ensures var first := ApplyTransaction(st, userId, req, sourceType);
      var second := ApplyTransaction(first.after, userId2, req2, sourceType2);
      && second == Outcome(Some(TransactionAlreadyProcessed), first.after)
      && CountRecords(second.after.log, req.transactionId) == CountRecords(st.log, req.transactionId) + 1 == 1
  {
    var first := ApplyTransaction(st, userId, req, sourceType);
    var log := first.after.log;
    assert log[|log| - 1].transactionId == req.transactionId;
    CountAppend(st.log, RecordFor(userId, req, sourceType), req.transactionId);
    CountPositiveIffRecorded(st.log, req.transactionId);
  }

  /** The store after a run of "win" requests for one user, one request per transaction ID. */
  function ApplyWins(st: StoreState, userId: nat, ids: seq<string>, amount: string, sourceType: string): StoreState
    decreases |ids|
  {
    if ids == [] then st
    else
      var o := ApplyTransaction(st, userId, TransactionRequest("win", amount, ids[0]), sourceType);
      ApplyWins(o.after, userId, ids[1..], amount, sourceType)
  }

  /** None of ids is in the log yet, and no ID occurs in ids twice. */
  predicate FreshIds(log: seq<Transaction>, ids: seq<string>) {
    && (forall i :: 0 <= i < |ids| ==> !Recorded(log, ids[i]))
    && (forall i, j :: 0 <= i < j < |ids| ==> ids[i] != ids[j])
  }

  /**
   * N "win" requests of A cents with fresh, distinct transaction IDs take a
   * balance of B cents to B + N*A cents and append one record per request.
   * The amount may be written with up to two decimals ("50", "5.5", "5.50").
   */
  lemma RepeatedWins(st: StoreState, userId: nat, ids: seq<string>, amount: string, sourceType: string,
                     b: int, a: int, total: int)
    requires userId in st.users && ParseAmount(st.users[userId]) == Some(Decimal(b, 2))
    requires AmountInCents(amount, a)
    requires FreshIds(st.log, ids)
    requires total == b + |ids| * a
    ensures var end := ApplyWins(st, userId, ids, amount, sourceType);
      && userId in end.users
      && ParseAmount(end.users[userId]) == Some(Decimal(total, 2))
      && |end.log| == |st.log| + |ids|
  {
    WinAddsCents(amount, a);
    WinsAddUp(st, userId, ids, amount, sourceType, ParseAmount(amount).value, b, a, total);
  }

  /** A win of amount d adds a cents to every balance held in cents. */
  ghost predicate WinAdds(d: Decimal, a: int) {
    forall c: int :: CalculateNewBalance(Decimal(c, 2), d, "win") == Success(Decimal(c + a, 2))
  }

  /** An amount worth a cents adds a cents to whatever balance it is won on. */
  lemma WinAddsCents(amount: string, a: int)
    requires AmountInCents(amount, a)
    ensures ParseAmount(amount).Some? && WinAdds(ParseAmount(amount).value, a)
  {
    var d := ParseAmount(amount).value;
    assert Pow10(1) == 10 && Pow10(2) == 100;
    forall c: int ensures CalculateNewBalance(Decimal(c, 2), d, "win") == Success(Decimal(c + a, 2)) {
      CentsArithmetic(c, d.units, d.scale, "win");
    }
  }

  /** The induction behind RepeatedWins, with the step of one win taken as given. */
  lemma {:induction false} WinsAddUp(st: StoreState, userId: nat, ids: seq<string>, amount: string, sourceType: string,
                                     d: Decimal, b: int, a: int, total: int)
    requires userId in st.users && ParseAmount(st.users[userId]) == Some(Decimal(b, 2))
    requires ParseAmount(amount) == Some(d) && WinAdds(d, a)
    requires FreshIds(st.log, ids)
    requires total == b + |ids| * a
    ensures var end := ApplyWins(st, userId, ids, amount, sourceType);
      && userId in end.users
      && ParseAmount(end.users[userId]) == Some(Decimal(total, 2))
      && |end.log| == |st.log| + |ids|
    decreases |ids|
  {
    if ids != [] {
      var next := WinStep(st, userId, ids, amount, sourceType, d, b, a);
      MoreCents(b, a, ids, total);
      WinsAddUp(next, userId, ids[1..], amount, sourceType, d, b + a, a, total);
    } else {
      assert ApplyWins(st, userId, ids, amount, sourceType) == st;
    }
  }

  /** However many of them succeed, a run of "win" requests for one user keeps the set of users and leaves every other user's balance alone. */
  lemma {:induction false} WinsTouchNoOneElse(st: StoreState, userId: nat, ids: seq<string>, amount: string, sourceType: string)
    ensures var end := ApplyWins(st, userId, ids, amount, sourceType);
      && end.users.Keys == st.users.Keys
      && (forall u :: u in st.users && u != userId ==> end.users[u] == st.users[u])
    decreases |ids|
  {
    if ids != [] {
      var o := ApplyTransaction(st, userId, TransactionRequest("win", amount, ids[0]), sourceType);
      WinsTouchNoOneElse(o.after, userId, ids[1..], amount, sourceType);
    }
  }

  /** The first of a run of fresh "win" requests goes through and adds its cents. */
  lemma WinStep(st: StoreState, userId: nat, ids: seq<string>, amount: string, sourceType: string,
                d: Decimal, b: int, a: int)
    returns (next: StoreState)
    requires ids != []
    requires userId in st.users && ParseAmount(st.users[userId]) == Some(Decimal(b, 2))
    requires ParseAmount(amount) == Some(d) && WinAdds(d, a)
    requires FreshIds(st.log, ids)
    ensures ApplyWins(st, userId, ids, amount, sourceType) == ApplyWins(next, userId, ids[1..], amount, sourceType)
    ensures userId in next.users && ParseAmount(next.users[userId]) == Some(Decimal(b + a, 2))
    ensures next.log == st.log + [Transaction(userId, ids[0], amount, "win", sourceType)]
    ensures FreshIds(next.log, ids[1..])
  {
    assert CalculateNewBalance(Decimal(b, 2), d, "win") == Success(Decimal(b + a, 2));
    FormatThenParseCents(b + a);
    next := ApplyTransaction(st, userId, TransactionRequest("win", amount, ids[0]), sourceType).after;
    RestFresh(st.log, Transaction(userId, ids[0], amount, "win", sourceType), ids);
  }

  /** After the first ID is recorded, the remaining IDs are still fresh. */
  lemma RestFresh(log: seq<Transaction>, r: Transaction, ids: seq<string>)
    requires ids != [] && r.transactionId == ids[0]
    requires FreshIds(log, ids)
    ensures FreshIds(log + [r], ids[1..])
  {
    forall i | 0 <= i < |ids[1..]| ensures !Recorded(log + [r], ids[1..][i]) {
      assert ids[1..][i] == ids[i + 1];
      FreshStaysFresh(log, r, ids[i + 1]);
    }
  }

  lemma FreshStaysFresh(log: seq<Transaction>, r: Transaction, id: string)
    requires !Recorded(log, id) && r.transactionId != id
    ensures !Recorded(log + [r], id)
  {
    forall k | 0 <= k < |log + [r]| ensures (log + [r])[k].transactionId != id {
      if k < |log| {
        assert (log + [r])[k] == log[k];
      }
    }
  }

  /** The running total after one more win, kept linear for the solver. */
  lemma MoreCents(b: int, a: int, ids: seq<string>, total: int)
    requires ids != [] && total == b + |ids| * a
    ensures total == (b + a) + |ids[1..]| * a
  {
  }

  // ---------------------------------------------------------------------------
  // Properties of the balance query

  /** A balance the service wrote itself is returned exactly as stored. */
  lemma QueryReturnsWrittenBalance(users: map<nat, string>, userId: nat, c: int)
    requires userId in users && users[userId] == FormatAmount(Decimal(c, 2))
    ensures BalanceOf(users, userId) == Success(BalanceResponse(userId, users[userId]))
  {
    FormatThenParseCents(c);
  }

  /** A stored balance with at most two decimals is reported with its exact value. */
  lemma QueryPreservesValue(users: map<nat, string>, userId: nat)
    requires userId in users && ParseAmount(users[userId]).Some? && ParseAmount(users[userId]).value.scale <= 2
    ensures var r := BalanceOf(users, userId);
      && r.Success?
      && ParseAmount(r.value.balance).Some?
      && Value(ParseAmount(r.value.balance).value) == Value(ParseAmount(users[userId]).value)
  {
    var d := ParseAmount(users[userId]).value;
    FormatThenParse(d);
    CentsAreExact(d);
  }

  // ---------------------------------------------------------------------------
  // The service object

  class UserService {
    const repo: UserRepository

    constructor(repo: UserRepository)
      ensures this.repo == repo
    {
      this.repo := repo;
    }

    /** GetBalance: a read-only query; it changes nothing in the store. */
    method GetBalance(userId: nat) returns (r: Result<BalanceResponse, ServiceError>)
      ensures r == BalanceOf(repo.users, userId)
    {
      var user := repo.GetUser(userId);
      if user.Failure? {
        return Failure(UserNotFound);
      }
      var balance := ParseAmount(user.value.balance);
      if balance.None? {
        return Failure(InvalidBalanceFormat);
      }
      return Success(BalanceResponse(user.value.id, FormatAmount(balance.value)));
    }

    /**
     * ProcessTransaction: one all-or-nothing unit of work. The steps run
     * against the repository; if one fails, the snapshot taken at the start is
     * put back, so a failure leaves balances and log exactly as they were.
     */
    method ProcessTransaction(userId: nat, req: TransactionRequest, sourceType: string) returns (err: Option<ServiceError>)
      modifies repo
      ensures Outcome(err, repo.State()) == ApplyTransaction(old(repo.State()), userId, req, sourceType)
      ensures err.Some? ==> repo.users == old(repo.users) && repo.transactions == old(repo.transactions)
    {
      var snapshot := repo.Snapshot();
      err := RunSteps(userId, req, sourceType);
      if err.Some? {
        repo.Rollback(snapshot);
      }
    }

    /** The body of the unit of work, step by step; on failure it may stop anywhere. */
    method RunSteps(userId: nat, req: TransactionRequest, sourceType: string) returns (err: Option<ServiceError>)
      modifies repo
      ensures err == ApplyTransaction(old(repo.State()), userId, req, sourceType).error
      ensures err.None? ==> repo.State() == ApplyTransaction(old(repo.State()), userId, req, sourceType).after
    {
      var duplicate := repo.TransactionExists(req.transactionId);
      if duplicate {
        return Some(TransactionAlreadyProcessed);
      }
      var user := repo.GetUserForUpdate(userId);
      if user.Failure? {
        return Some(UserNotFound);
      }
      var current := ParseAmount(user.value.balance);
      if current.None? {
        return Some(InvalidCurrentBalance);
      }
      var amount := ParseAmount(req.amount);
      if amount.None? {
        return Some(InvalidTransactionAmount);
      }
      var newBalance := CalculateNewBalance(current.value, amount.value, req.state);
      if newBalance.Failure? {
        return Some(BalanceRule(newBalance.error));
      }
      repo.UpdateUserBalance(userId, FormatAmount(newBalance.value));
      repo.CreateTransaction(RecordFor(userId, req, sourceType));
      return None;
    }
  }
}
