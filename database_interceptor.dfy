/** `DataBaseInterceptor`: the mapping from an error raised while handling a request to the
    HTTP error the client receives. The logging around it is left out. */
module DatabaseInterceptor {
  import opened Common
  import opened Text

  /** What reaches the interceptor. A `QueryFailedError` carries the driver's error code,
      when the driver set one, and its `detail` property: `None` when the property is
      absent, `Some(None)` when it is present but null or undefined. */
  datatype CaughtError =
    | QueryFailed(code: Option<string>, detailProperty: Option<Option<string>>, message: string)
    | DatabaseFailure(message: string, detail: Option<string>)  // the file-local `DatabaseError`
    | OrmFailure(message: string)                               // any other `TypeORMError`
    | OtherFailure(description: string)                         // anything else that was thrown

  /** A thrown `HttpException` with its body, or the original error thrown on unchanged. */
  datatype Outcome =
    | Raised(status: int, message: string, detail: string)
    | Rethrown(error: CaughtError)

  const DuplicateCode := "ER_DUP_ENTRY"
  const PostgresForeignKeyCode := "23503"  // SQLSTATE class 23, foreign_key_violation
  const MysqlForeignKeyCode := "ER_NO_REFERENCED_ROW"

  const DuplicateEntry := "Duplicate entry detected"
  const ForeignKeyViolation := "Foreign key constraint violation"
  const OperationFailed := "Database operation failed"
  const UnexpectedDatabaseError := "Unexpected database error"
  const DatabaseErrorDefaultDetail := "An unexpected database error occurred"

  const DefaultMessage := "A database error occurred while processing your request"
  const ValueExists := "The provided value already exists in the database"
  const ReferenceInvalid := "Referenced record not found or invalid"

  /** The text `getFriendlyMessage` inspects: the `detail` property when the error has
      one, its message otherwise. */
  function DetailText(detail: Option<Option<string>>, message: string): Option<string> {
    if detail.Some? then detail.value else Some(message)
  }

  /** `getFriendlyMessage`: one of three fixed sentences, or the detail text itself when it
      is non-empty and names neither a duplicate key nor a foreign key; never empty. */
  function FriendlyMessage(detail: Option<Option<string>>, message: string): (r: string)
    ensures r != ""
    ensures r in {DefaultMessage, ValueExists, ReferenceInvalid} || Some(r) == DetailText(detail, message)
    ensures !IsTruthy(DetailText(detail, message)) ==> r == DefaultMessage
  {
    var text := DetailText(detail, message);
    if !IsTruthy(text) then DefaultMessage
    else if Includes(text.value, "duplicate key") then ValueExists
    else if Includes(text.value, "foreign key") then ReferenceInvalid
    else text.value
  }

  /** "duplicate key" is looked for first: a detail naming both kinds of key is reported
      as a duplicate. */
  lemma DuplicateKeyWins(detail: Option<Option<string>>, message: string)
    requires IsTruthy(DetailText(detail, message))
    requires Includes(DetailText(detail, message).value, "duplicate key")
    ensures FriendlyMessage(detail, message) == ValueExists
  {
  }

  /** A detail naming a foreign key but no duplicate key is reported as a bad reference. */
  lemma ForeignKeyReported(detail: Option<Option<string>>, message: string)
    requires IsTruthy(DetailText(detail, message))
    requires !Includes(DetailText(detail, message).value, "duplicate key")
    requires Includes(DetailText(detail, message).value, "foreign key")
    ensures FriendlyMessage(detail, message) == ReferenceInvalid
  {
  }

  /** Any other non-empty detail reaches the client word for word. */
  lemma DetailPassesThrough(detail: Option<Option<string>>, message: string)
    requires IsTruthy(DetailText(detail, message))
    requires !Includes(DetailText(detail, message).value, "duplicate key")
    requires !Includes(DetailText(detail, message).value, "foreign key")
    ensures FriendlyMessage(detail, message) == DetailText(detail, message).value
  {
  }

  /** When the error has a `detail` property, its `message` is never looked at. */
  lemma DetailShadowsMessage(detail: Option<string>, m1: string, m2: string)
    ensures FriendlyMessage(Some(detail), m1) == FriendlyMessage(Some(detail), m2)
  {
  }

  /** The HTTP status the driver's code should lead to for a failed query, as a plain table:
      the reference `QueryFailureByCode` checks `Classify`'s branches against. */
  function QueryFailureStatus(code: Option<string>): int {
    if code == Some(DuplicateCode) || code == Some(PostgresForeignKeyCode) || code == Some(MysqlForeignKeyCode)
    then 409 else 500
  }

  /** The error branch of `intercept`. The checks run in source order: `QueryFailedError`
      is itself a `TypeORMError`, so it must be tested first. */
  function Classify(e: CaughtError): (r: Outcome)
    ensures r.Rethrown? <==> e.OtherFailure?
    ensures r.Rethrown? ==> r.error == e
    ensures r.Raised? ==> r.status in {409, 500}
    ensures r.Raised? && e.QueryFailed? ==> r.detail == FriendlyMessage(e.detailProperty, e.message) && r.detail != ""
  {
    match e
    case QueryFailed(code, detail, message) =>
      var friendly := FriendlyMessage(detail, message);
      if code == Some(DuplicateCode) then Raised(409, DuplicateEntry, friendly)
      else if code == Some(PostgresForeignKeyCode) || code == Some(MysqlForeignKeyCode)
      then Raised(409, ForeignKeyViolation, friendly)
      else Raised(500, OperationFailed, friendly)
    case DatabaseFailure(message, detail) =>
      Raised(409, message, if IsTruthy(detail) then detail.value else DatabaseErrorDefaultDetail)
    case OrmFailure(message) =>
      Raised(500, UnexpectedDatabaseError, message)
    case OtherFailure(_) =>
      Rethrown(e)
  }

  /** A failed query answers 409 exactly for the duplicate-entry and foreign-key codes, and
      its message names which; any other code, or none, answers 500. */
  lemma QueryFailureByCode(code: Option<string>, detail: Option<Option<string>>, message: string)
    ensures var r := Classify(QueryFailed(code, detail, message));
            && r.Raised?
            && r.status == QueryFailureStatus(code)
            && (code == Some(DuplicateCode) <==> r.message == DuplicateEntry)
            && (code in {Some(PostgresForeignKeyCode), Some(MysqlForeignKeyCode)} <==> r.message == ForeignKeyViolation)
            && (r.status == 500 <==> r.message == OperationFailed)
  {
  }

  /** The interceptor answers 409 Conflict exactly for the duplicate-entry and foreign-key
      driver codes and for a `DatabaseError`. */
  lemma ConflictIff(e: CaughtError)
    ensures Classify(e).Raised? && Classify(e).status == 409 <==>
      || e.DatabaseFailure?
      || (e.QueryFailed? && e.code in {Some(DuplicateCode), Some(PostgresForeignKeyCode), Some(MysqlForeignKeyCode)})
  {
  }

  /** A `DatabaseError` keeps its own message; its detail falls back to a fixed sentence
      when missing or empty, so the body's detail is never empty. */
  lemma DatabaseErrorAnswer(message: string, detail: Option<string>)
    ensures var r := Classify(DatabaseFailure(message, detail));
            && r == Raised(409, message, if IsTruthy(detail) then detail.value else DatabaseErrorDefaultDetail)
            && r.detail != ""
  {
  }

  /** Any other ORM error answers 500 with its message as the detail. */
  lemma OrmErrorAnswer(message: string)
    ensures Classify(OrmFailure(message)) == Raised(500, UnexpectedDatabaseError, message)
  {
  }
}
