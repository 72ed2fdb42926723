/**
 * The HTTP handlers (internal/handler/user.go): request validation, where the
 * first failing check decides the answer, and the mapping of the service's
 * outcomes to status codes and JSON bodies. The framework is left out: the
 * path parameter and the Source-Type header arrive as strings and the body as
 * either text that did not decode or a decoded request.
 */
module Handler {
  import opened Wrappers
  import opened Numerals
  import opened Records
  import opened Amounts
  import opened Repository
  import opened Service

  // ---------------------------------------------------------------------------
  // The user ID in the path

  /** The largest value a 64-bit unsigned integer holds. */
  const MaxUint64: nat := 0xFFFF_FFFF_FFFF_FFFF

  /**
   * strconv.ParseUint(s, 10, 64): one or more decimal digits, no sign, no
   * prefix, no separators, and a value that fits in 64 bits. Leading zeros
   * are allowed, and so is "0".
   */
  function ParseUserId(s: string): (r: Option<nat>)
    ensures r.Some? ==> |s| > 0 && AllDigits(s) && r.value <= MaxUint64
    ensures r.Some? ==> r.value == DigitsValue(s)
  {
    if |s| > 0 && AllDigits(s) && DigitsValue(s) <= MaxUint64 then Some(DigitsValue(s)) else None
  }

  /** Every ID the store can hold in 64 bits reads back from its decimal rendering. */
  lemma UserIdRoundTrip(n: nat)
    requires n <= MaxUint64
    ensures ParseUserId(NatToDecimal(n)) == Some(n)
  {
  }

  /** A signed, empty or out-of-range path parameter is refused. */
  lemma UserIdRejects(s: string)
    ensures |s| > 0 && (s[0] == '+' || s[0] == '-') ==> ParseUserId(s).None?
    ensures s == "" ==> ParseUserId(s).None?
    ensures |s| > 0 && AllDigits(s) && DigitsValue(s) > MaxUint64 ==> ParseUserId(s).None?
  {
  }

  // ---------------------------------------------------------------------------
  // The amount

  /** validateAmount's failures, in the order it checks for them. */
  datatype AmountError = AmountRequired | InvalidAmountFormat | AmountNotPositive | TooManyDecimals
  {
    function Message(): string {
      match this
      case AmountRequired => "amount is required"
      case InvalidAmountFormat => "invalid amount format"
      case AmountNotPositive => "amount must be positive"
      case TooManyDecimals => "amount can have at most 2 decimal places"
    }

    /** The position of the check in validateAmount. */
    function Rank(): nat {
      match this
      case AmountRequired => 0
      case InvalidAmountFormat => 1
      case AmountNotPositive => 2
      case TooManyDecimals => 3
    }
  }

  /** The text-level precision check: exactly one '.' and more than two characters after it. */
  predicate TooPrecise(s: string) {
    var parts := SplitDot(s);
    |parts| == 2 && |parts[1]| > 2
  }

  /** The text check agrees with the parsed scale: it fires exactly when there are more than two decimals. */
  lemma TooPreciseMatchesScale(s: string)
    requires ParseAmount(s).Some?
    ensures TooPrecise(s) <==> ParseAmount(s).value.scale > 2
  {
    if |s| > 0 && (s[0] == '+' || s[0] == '-') {
      assert s == [s[0]] + s[1..];
      SplitDotCons(s[0], s[1..]);
    }
  }

  /** A parsed amount is positive in value exactly when its units are. */
  lemma PositiveValue(d: Decimal)
    ensures Value(d) > 0.0 <==> d.units > 0
  {
    SignOfValue(d);
    if d.units == 0 {
      assert Value(d) == 0.0;
    } else if d.units > 0 {
      var p := Pow10(d.scale) as real;
      assert Value(d) * p == d.units as real;
    }
  }

  /**
   * validateAmount: the checks in order (empty, not a number, not positive,
   * more than two decimals); the first that fails is reported.
   */
  function ValidateAmount(s: string): (r: Option<AmountError>)
    ensures r.None? ==> ParseAmount(s).Some? && ParseAmount(s).value.units > 0 && ParseAmount(s).value.scale <= 2
    ensures r == Some(TooManyDecimals) ==> ParseAmount(s).Some? && ParseAmount(s).value.scale > 2
  {
    if s == "" then Some(AmountRequired)
    else
      match ParseAmount(s)
      case None => Some(InvalidAmountFormat)
      case Some(d) =>
        if d.units <= 0 then Some(AmountNotPositive)
        else
          TooPreciseMatchesScale(s);
          if TooPrecise(s) then Some(TooManyDecimals) else None
  }

  /** An amount that passes validation is worth a whole number of cents: its rounded cents, which are exact. */
  lemma ValidatedAmountInCents(s: string)
    requires ValidateAmount(s).None?
    ensures AmountInCents(s, RoundedCents(ParseAmount(s).value))
    ensures RoundedCents(ParseAmount(s).value) > 0
  {
    var d := ParseAmount(s).value;
    assert Pow10(0) == 1 && Pow10(1) == 10 && Pow10(2) == 100;
  }

  /** Each of validateAmount's checks on its own: does the amount fail it? */
  ghost predicate AmountCheckFails(s: string, e: AmountError) {
    match e
    case AmountRequired => s == ""
    case InvalidAmountFormat => ParseAmount(s).None?
    case AmountNotPositive => ParseAmount(s).Some? && Value(ParseAmount(s).value) <= 0.0
    case TooManyDecimals => TooPrecise(s)
  }

  /**
   * The reported failure is the first check, in validateAmount's order, that
   * the amount fails; an amount passes only when it fails none of them.
   */
  lemma ValidateAmountFirstFailure(s: string)
    ensures ValidateAmount(s).None? <==> forall e: AmountError :: !AmountCheckFails(s, e)
    ensures ValidateAmount(s).Some? ==>
      && AmountCheckFails(s, ValidateAmount(s).value)
      && forall e: AmountError :: e.Rank() < ValidateAmount(s).value.Rank() ==> !AmountCheckFails(s, e)
  {
    if ParseAmount(s).Some? {
      PositiveValue(ParseAmount(s).value);
    }
    if ValidateAmount(s).None? {
      forall e: AmountError ensures !AmountCheckFails(s, e) {
        if e == AmountRequired {
          assert s != "";
        }
      }
    } else {
      assert AmountCheckFails(s, ValidateAmount(s).value);
      forall e: AmountError | e.Rank() < ValidateAmount(s).value.Rank() ensures !AmountCheckFails(s, e) {
        if e == AmountRequired {
          assert s != "";
        }
      }
    }
  }

  // ---------------------------------------------------------------------------
  // The transaction request

  /** validateTransactionRequest's failures, in the order it checks for them. */
  datatype ValidationError =
    | InvalidUserId
    | MissingHeader
    | InvalidSourceType
    | InvalidRequestBody
    | MissingState
    | InvalidState
    | MissingTransactionId
    | InvalidAmount(reason: AmountError)
  {
    /** The machine-readable code sent in the error body. */
    function Code(): string {
      match this
      case InvalidUserId => "invalid_user_id"
      case MissingHeader => "missing_header"
      case InvalidSourceType => "invalid_source_type"
      case InvalidRequestBody => "invalid_request_body"
      case MissingState => "missing_state"
      case InvalidState => "invalid_state"
      case MissingTransactionId => "missing_transaction_id"
      case InvalidAmount(_) => "invalid_amount"
    }

    /** The human-readable message; for the amount it is validateAmount's own. */
    function Message(): string {
      match this
      case InvalidUserId => "User ID must be a positive integer"
      case MissingHeader => "Source-Type header is required"
      case InvalidSourceType => "Source-Type must be one of: game, server, payment"
      case InvalidRequestBody => "Invalid JSON format"
      case MissingState => "State field is required"
      case InvalidState => "State must be 'win' or 'lose'"
      case MissingTransactionId => "TransactionId field is required"
      case InvalidAmount(reason) => reason.Message()
    }

    /** The position of the check in validateTransactionRequest. */
    function Rank(): nat {
      match this
      case InvalidUserId => 0
      case MissingHeader => 1
      case InvalidSourceType => 2
      case InvalidRequestBody => 3
      case MissingState => 4
      case InvalidState => 5
      case MissingTransactionId => 6
      case InvalidAmount(_) => 7
    }
  }

  /** The request body as the framework hands it over: undecodable, or decoded. */
  datatype RequestBody = Malformed | Decoded(request: TransactionRequest)

  /** What validation hands back: on error every other field is the zero value. */
  datatype Validated = Validated(userId: nat, sourceType: string, request: TransactionRequest, error: Option<ValidationError>)

  /** The Source-Type values the handler accepts. */
  predicate KnownSource(sourceType: string) {
    sourceType == "game" || sourceType == "server" || sourceType == "payment"
  }

  /** The zero result returned with every validation error. */
  function Rejected(e: ValidationError): Validated {
    Validated(0, "", TransactionRequest("", "", ""), Some(e))
  }

  /**
   * validateTransactionRequest: user ID, header present, header known, body
   * decodes, state present, state known, transaction ID present, amount valid.
   */
  function ValidateTransactionRequest(userIdParam: string, sourceType: string, body: RequestBody): (v: Validated)
    ensures v.error.Some? ==> v.userId == 0 && v.sourceType == "" && v.request == TransactionRequest("", "", "")
    ensures v.error.None? ==>
      && ParseUserId(userIdParam) == Some(v.userId)
      && v.sourceType == sourceType && KnownSource(sourceType)
      && body == Decoded(v.request)
      && (v.request.state == "win" || v.request.state == "lose")
      && v.request.transactionId != ""
      && ParseAmount(v.request.amount).Some?
      && ParseAmount(v.request.amount).value.units > 0
      && ParseAmount(v.request.amount).value.scale <= 2
  {
    match ParseUserId(userIdParam)
    case None => Rejected(InvalidUserId)
    case Some(userId) =>
      if sourceType == "" then Rejected(MissingHeader)
      else if !KnownSource(sourceType) then Rejected(InvalidSourceType)
      else
        match body
        case Malformed => Rejected(InvalidRequestBody)
        case Decoded(req) =>
          if req.state == "" then Rejected(MissingState)
          else if req.state != "win" && req.state != "lose" then Rejected(InvalidState)
          else if req.transactionId == "" then Rejected(MissingTransactionId)
          else
            match ValidateAmount(req.amount)
            case Some(reason) => Rejected(InvalidAmount(reason))
            case None => Validated(userId, sourceType, req, None)
  }

  /** Each of validateTransactionRequest's checks on its own: does the request fail it? */
  ghost predicate RequestCheckFails(userIdParam: string, sourceType: string, body: RequestBody, e: ValidationError) {
    match e
    case InvalidUserId => ParseUserId(userIdParam).None?
    case MissingHeader => sourceType == ""
    case InvalidSourceType => !KnownSource(sourceType)
    case InvalidRequestBody => body.Malformed?
    case MissingState => body.Decoded? && body.request.state == ""
    case InvalidState => body.Decoded? && body.request.state != "win" && body.request.state != "lose"
    case MissingTransactionId => body.Decoded? && body.request.transactionId == ""
    case InvalidAmount(reason) => body.Decoded? && ValidateAmount(body.request.amount) == Some(reason)
  }

  /**
   * The reported error is the first check, in the handler's order, that the
   * request fails; a request passes only when it fails none of them.
   */
  lemma ValidationFirstFailure(userIdParam: string, sourceType: string, body: RequestBody)
    ensures var v := ValidateTransactionRequest(userIdParam, sourceType, body);
      && (v.error.None? <==> forall e: ValidationError :: !RequestCheckFails(userIdParam, sourceType, body, e))
      && (v.error.Some? ==>
        && RequestCheckFails(userIdParam, sourceType, body, v.error.value)
        && forall e: ValidationError :: e.Rank() < v.error.value.Rank() ==> !RequestCheckFails(userIdParam, sourceType, body, e))
  {
    var v := ValidateTransactionRequest(userIdParam, sourceType, body);
    if v.error.None? {
      forall e: ValidationError ensures !RequestCheckFails(userIdParam, sourceType, body, e) {
        if e.InvalidAmount? {
          assert ValidateAmount(body.request.amount).None?;
        }
      }
    } else {
      assert RequestCheckFails(userIdParam, sourceType, body, v.error.value);
      forall e: ValidationError | e.Rank() < v.error.value.Rank()
        ensures !RequestCheckFails(userIdParam, sourceType, body, e)
      {
      }
    }
  }

  /**
   * A request that passes validation can only be refused by the service as a
   * duplicate, for a missing user, for a stored balance that does not parse, or
   * for insufficient funds: never for its state or its amount.
   */
  lemma ValidatedRequestErrors(st: StoreState, userIdParam: string, sourceType: string, body: RequestBody)
    requires ValidateTransactionRequest(userIdParam, sourceType, body).error.None?
    ensures var v := ValidateTransactionRequest(userIdParam, sourceType, body);
      var err := ApplyTransaction(st, v.userId, v.request, v.sourceType).error;
      && err != Some(InvalidTransactionAmount)
      && err != Some(BalanceRule(InvalidTransactionState))
      && (v.request.state == "win" ==> err.None? || err == Some(TransactionAlreadyProcessed)
                                       || err == Some(UserNotFound) || err == Some(InvalidCurrentBalance))
  {
  }

  // ---------------------------------------------------------------------------
  // Responses

  const StatusOK: nat := 200
  const StatusBadRequest: nat := 400
  const StatusNotFound: nat := 404
  const StatusConflict: nat := 409
  const StatusInternalServerError: nat := 500

  datatype ResponseBody =
    | ErrorBody(error: string, message: string)
    | BalanceBody(balance: BalanceResponse)
    | TransactionBody(success: bool, message: string)

  datatype Response = Response(status: nat, body: ResponseBody)

  /** The answer to a path parameter that is not a 64-bit unsigned integer. */
  const InvalidUserIdResponse: Response :=
    Response(StatusBadRequest, ErrorBody(InvalidUserId.Code(), InvalidUserId.Message()))

  /**
   * The answer to a processed transaction: only a missing user, a duplicate and
   * insufficient funds have their own status; any other failure is a 500.
   */
  function TransactionResponse(err: Option<ServiceError>): (resp: Response)
    ensures resp.status == StatusOK <==> err.None?
    ensures resp.status == StatusNotFound <==> err == Some(UserNotFound)
    ensures resp.status == StatusConflict <==> err == Some(TransactionAlreadyProcessed)
    ensures resp.status == StatusBadRequest <==> err == Some(BalanceRule(InsufficientBalance))
    ensures resp.status == StatusInternalServerError <==>
      err.Some? && err.value !in {UserNotFound, TransactionAlreadyProcessed, BalanceRule(InsufficientBalance)}
    ensures resp.status == StatusOK <==> resp.body.TransactionBody?
    ensures resp.status != StatusOK <==> resp.body.ErrorBody?
  {
    match err
    case None => Response(StatusOK, TransactionBody(true, "Transaction processed successfully"))
    case Some(UserNotFound) => Response(StatusNotFound, ErrorBody("user_not_found", "User does not exist"))
    case Some(TransactionAlreadyProcessed) =>
      Response(StatusConflict, ErrorBody("duplicate_transaction", "Transaction with this ID has already been processed"))
    case Some(BalanceRule(InsufficientBalance)) =>
      Response(StatusBadRequest, ErrorBody("insufficient_balance", "Account balance cannot be negative"))
    case Some(_) => Response(StatusInternalServerError, ErrorBody("internal_error", "Failed to process transaction"))
  }

  /** The answer to a balance query: 200 with the balance, 404 for a missing user, else 500. */
  function BalanceResponseFor(r: Result<BalanceResponse, ServiceError>): (resp: Response)
    ensures resp.status == StatusOK <==> r.Success?
    ensures resp.status == StatusOK ==> resp.body == BalanceBody(r.value)
    ensures resp.status == StatusNotFound <==> r == Failure(UserNotFound)
    ensures resp.status == StatusInternalServerError <==> r.Failure? && r.error != UserNotFound
  {
    match r
    case Success(balance) => Response(StatusOK, BalanceBody(balance))
    case Failure(UserNotFound) => Response(StatusNotFound, ErrorBody("user_not_found", "User does not exist"))
    case Failure(_) => Response(StatusInternalServerError, ErrorBody("internal_error", "Failed to get balance"))
  }

  /**
   * A 200 means exactly that the request's record was appended to the log; a
   * 409 means the ID was already in the log and nothing changed.
   */
  lemma StatusMatchesStore(st: StoreState, userId: nat, req: TransactionRequest, sourceType: string)
    ensures var o := ApplyTransaction(st, userId, req, sourceType);
      && (TransactionResponse(o.error).status == StatusOK <==> o.after.log == st.log + [RecordFor(userId, req, sourceType)])
      && (TransactionResponse(o.error).status == StatusConflict <==> Recorded(st.log, req.transactionId))
      && (TransactionResponse(o.error).status != StatusOK ==> o.after == st)
  {
    var o := ApplyTransaction(st, userId, req, sourceType);
    if o.error.Some? {
      assert |o.after.log| == |st.log| < |st.log + [RecordFor(userId, req, sourceType)]|;
    }
  }

  /**
   * A "lose" of more than the balance is refused all the way out: the unit of
   * work reports insufficient balance, the store is as before, and the answer
   * is 400 insufficient_balance.
   */
  lemma OverdrawRefused(st: StoreState, userId: nat, req: TransactionRequest, sourceType: string)
    requires !Recorded(st.log, req.transactionId) && userId in st.users
    requires ParseAmount(st.users[userId]).Some? && ParseAmount(req.amount).Some?
    requires req.state == "lose"
    requires Value(ParseAmount(req.amount).value) > Value(ParseAmount(st.users[userId]).value)
    ensures var o := ApplyTransaction(st, userId, req, sourceType);
      && o.error == Some(BalanceRule(InsufficientBalance))
      && o.after == st
      && TransactionResponse(o.error)
         == Response(StatusBadRequest, ErrorBody("insufficient_balance", "Account balance cannot be negative"))
  {
  }

  // ---------------------------------------------------------------------------
  // The handler object

  class UserHandler {
    const service: UserService

    constructor(service: UserService)
      ensures this.service == service
    {
      this.service := service;
    }

    /** GET /user/:userId/balance. */
    method GetBalance(userIdParam: string) returns (resp: Response)
      ensures ParseUserId(userIdParam).None? ==> resp == InvalidUserIdResponse
      ensures ParseUserId(userIdParam).Some? ==>
        resp == BalanceResponseFor(BalanceOf(service.repo.users, ParseUserId(userIdParam).value))
      ensures resp.status == StatusOK ==> resp.body.BalanceBody? && HasTwoFractionDigits(resp.body.balance.balance)
    {
      var userId := ParseUserId(userIdParam);
      if userId.None? {
        return InvalidUserIdResponse;
      }
      var balance := service.GetBalance(userId.value);
      resp := BalanceResponseFor(balance);
    }

    /** POST /user/:userId/transaction: validate, then run the unit of work. */
    method ProcessTransaction(userIdParam: string, sourceType: string, body: RequestBody) returns (resp: Response)
      modifies service.repo
      ensures var v := ValidateTransactionRequest(userIdParam, sourceType, body);
        if v.error.Some? then
          && resp == Response(StatusBadRequest, ErrorBody(v.error.value.Code(), v.error.value.Message()))
          && service.repo.State() == old(service.repo.State())
        else
          var o := ApplyTransaction(old(service.repo.State()), v.userId, v.request, v.sourceType);
          && resp == TransactionResponse(o.error)
          && service.repo.State() == o.after
    {
      var v := ValidateTransactionRequest(userIdParam, sourceType, body);
      if v.error.Some? {
        return Response(StatusBadRequest, ErrorBody(v.error.value.Code(), v.error.value.Message()));
      }
      var err := service.ProcessTransaction(v.userId, v.request, v.sourceType);
      resp := TransactionResponse(err);
    }
  }
}
