/** The repository layer's error values: a code, a message and an optional wrapped cause. */
module RepoErrors {
  import opened Wrappers

  /** The `iota` constants, in declaration order. */
  datatype ErrorCode =
    | UserAlreadyExists
    | UserNotFound
    | InvalidCredentials
    | DatabaseError
    | HashingError
    | TokenGenerationError
    | InvalidInput
    | TotpGenerationError
    | InvalidToken
    | TokenExpired

  /** The integer value `iota` gives each code. */
  function CodeValue(c: ErrorCode): (v: int)
    ensures 0 <= v < 10
  {
    match c
    case UserAlreadyExists => 0
    case UserNotFound => 1
    case InvalidCredentials => 2
    case DatabaseError => 3
    case HashingError => 4
    case TokenGenerationError => 5
    case InvalidInput => 6
    case TotpGenerationError => 7
    case InvalidToken => 8
    case TokenExpired => 9
  }

  /** The ten codes are the consecutive values 0 to 9, each taken by exactly one code. */
  lemma CodeValuesDistinct(c: ErrorCode, d: ErrorCode)
    ensures CodeValue(c) == CodeValue(d) <==> c == d
    ensures exists e :: CodeValue(e) == 0
    ensures exists e :: CodeValue(e) == 9
  {
    assert CodeValue(UserAlreadyExists) == 0;
    assert CodeValue(TokenExpired) == 9;
  }

  /**
   * A Go `error` value: a `*RepositoryError`, or any other error, known here only by its text.
   * The `Err` field of a RepositoryError is `None` when it is nil.
   */
  datatype Error =
    | RepositoryError(code: ErrorCode, message: string, err: Option<Error>)
    | OtherError(text: string)

  /** `Error()`: the message, followed by ": " and the cause's own text when there is a cause. */
  function ErrorText(e: Error): (s: string)
    ensures e.OtherError? ==> s == e.text
    ensures e.RepositoryError? ==> e.message <= s
    ensures e.RepositoryError? && e.err.Some? ==> |s| >= |e.message| + 2 && s[|e.message|..|e.message| + 2] == ": "
  {
    match e
    case OtherError(text) => text
    case RepositoryError(_, message, err) =>
      match err
      case None => message
      case Some(cause) => message + ": " + ErrorText(cause)
  }

  lemma ErrorTextShape(code: ErrorCode, message: string, err: Option<Error>)
    ensures err.None? ==> ErrorText(RepositoryError(code, message, err)) == message
    ensures err.Some? ==> ErrorText(RepositoryError(code, message, err)) == message + ": " + ErrorText(err.value)
    ensures message <= ErrorText(RepositoryError(code, message, err))
  {
  }

  /** `Unwrap`: the wrapped cause, or nil. */
  function Unwrap(e: Error): (r: Option<Error>)
    requires e.RepositoryError?
    ensures r == e.err
  {
    e.err
  }

  /** `e.Is(target)`: the target is a RepositoryError with the same code; nil is `None`. */
  function Is(e: Error, target: Option<Error>): (r: bool)
    requires e.RepositoryError?
    ensures r ==> target.Some? && target.value.RepositoryError? && target.value.code == e.code
    ensures target.Some? && target.value.RepositoryError? && target.value.code == e.code ==> r
  {
    match target
    case Some(RepositoryError(code, _, _)) => e.code == code
    case _ => false
  }

  /** Is looks only at codes: messages and causes do not matter, and other kinds of error never match. */
  lemma IsComparesCodesOnly(e: Error, target: Option<Error>)
    requires e.RepositoryError?
    ensures Is(e, target) <==> target.Some? && target.value.RepositoryError? && target.value.code == e.code
    ensures target.None? || target.value.OtherError? ==> !Is(e, target)
  {
  }

  /** Is, restricted to repository errors, is an equivalence relation. */
  lemma IsEquivalence(a: Error, b: Error, c: Error)
    requires a.RepositoryError? && b.RepositoryError? && c.RepositoryError?
    ensures Is(a, Some(a))
    ensures Is(a, Some(b)) ==> Is(b, Some(a))
    ensures Is(a, Some(b)) && Is(b, Some(c)) ==> Is(a, Some(c))
  {
  }

  function NewRepositoryError(code: ErrorCode, message: string, err: Option<Error>): (e: Error)
    ensures e.RepositoryError? && e.code == code && e.message == message && e.err == err
  {
    RepositoryError(code, message, err)
  }

  /** Unwrap gives back the cause a repository error was built with. */
  lemma UnwrapNewRepositoryError(code: ErrorCode, message: string, err: Option<Error>)
    ensures Unwrap(NewRepositoryError(code, message, err)) == err
    ensures err.Some? ==> ErrorText(NewRepositoryError(code, message, err)) == message + ": " + ErrorText(Unwrap(NewRepositoryError(code, message, err)).value)
  {
  }

  const ERR_USER_ALREADY_EXISTS := RepositoryError(UserAlreadyExists, "user already exists", None)
  const ERR_USER_NOT_FOUND := RepositoryError(UserNotFound, "user not found", None)
  const ERR_INVALID_CREDENTIALS := RepositoryError(InvalidCredentials, "invalid credentials", None)

  /** The predefined errors carry codes 0, 1 and 2, no cause, and print as their messages. */
  lemma PredefinedErrors()
    ensures CodeValue(ERR_USER_ALREADY_EXISTS.code) == 0 && ErrorText(ERR_USER_ALREADY_EXISTS) == "user already exists"
    ensures CodeValue(ERR_USER_NOT_FOUND.code) == 1 && ErrorText(ERR_USER_NOT_FOUND) == "user not found"
    ensures CodeValue(ERR_INVALID_CREDENTIALS.code) == 2 && ErrorText(ERR_INVALID_CREDENTIALS) == "invalid credentials"
    ensures !Is(ERR_USER_ALREADY_EXISTS, Some(ERR_USER_NOT_FOUND))
  {
  }

  /** A wrapped error with a predefined code matches that predefined error, whatever its message and cause. */
  lemma WrappedMatchesPredefined(p: Error, message: string, cause: Option<Error>)
    requires p in {ERR_USER_ALREADY_EXISTS, ERR_USER_NOT_FOUND, ERR_INVALID_CREDENTIALS}
    ensures Is(NewRepositoryError(p.code, message, cause), Some(p))
    ensures !Is(NewRepositoryError(DatabaseError, message, cause), Some(p))
  {
  }
}
