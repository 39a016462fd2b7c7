/**
 * Signup over the email-keyed user table: bind the request body, look the email up, hash the
 * password with bcrypt, insert. `SignUp` answers over HTTP; `CreateUser` runs the same flow and
 * reports nothing. The database's answers (a lookup or insert fault) and the bcrypt salt are inputs.
 */
module Users {
  import opened Wrappers
  import opened Models
  import Crypto

  const STATUS_CREATED := 201
  const STATUS_BAD_REQUEST := 400
  const STATUS_CONFLICT := 409
  const STATUS_INTERNAL_SERVER_ERROR := 500

  /** The outcome of `ShouldBindJSON`: the decoded user, or the binding error's text. */
  datatype Bind = Bound(user: User) | BindFailed(message: string)

  datatype Body = ErrorBody(error: string) | EmptyBody | UserIdBody(userId: Uuid)

  datatype Response = Response(status: int, body: Body)

  /** Why gorm's `First` returned no row. */
  datatype FindError = RecordNotFound | FindFailed(err: DbError)

  /** Why gorm's `Create` inserted nothing. */
  datatype CreateError = DuplicateEmail | CreateFailed(err: DbError)

  /** Where the check-then-insert flow shared by SignUp and CreateUser ended. */
  datatype Registration =
    | AlreadyExists
    | LookupFailed(err: DbError)
    | HashFailed
    | InsertFailed(cause: CreateError)
    | Created(user: User)

  /** Each stored user sits under its own email. */
  ghost predicate KeyedByEmail(users: map<string, User>) {
    forall email :: email in users ==> users[email].email == email
  }

  /** `First` on `email = ?`: the stored user, not-found, or the fault the database reports. */
  function Find(users: map<string, User>, email: string, fault: Option<DbError>): (r: Result<User, FindError>)
    ensures r.Success? <==> fault.None? && email in users
    ensures r.Success? ==> r.value == users[email]
    ensures r.Failure? && fault.None? ==> r.error == RecordNotFound
    ensures fault.Some? ==> r == Failure(FindFailed(fault.value))
  {
    if fault.Some? then Failure(FindFailed(fault.value))
    else if email in users then Success(users[email])
    else Failure(RecordNotFound)
  }

  /** The flow: an existing email stops it, so does any other lookup error, then a hashing error, then an insert error. */
  function Register(users: map<string, User>, user: User, lookupFault: Option<DbError>,
                    salt: Crypto.Salt, bcrypt: Crypto.Bcrypt, insertFault: Option<DbError>): (r: Registration)
    ensures r == AlreadyExists <==> lookupFault.None? && user.email in users
    ensures r.LookupFailed? <==> lookupFault.Some?
    ensures r == HashFailed <==> lookupFault.None? && user.email !in users && bcrypt.generate(user.password, salt).None?
    ensures r.Created? <==>
      lookupFault.None? && user.email !in users && bcrypt.generate(user.password, salt).Some? && insertFault.None?
    ensures r.Created? ==> && lookupFault.None? && insertFault.None? && user.email !in users
                           && r.user == user.(password := r.user.password)
                           && Crypto.HashPassword(user.password, salt, bcrypt) == Success(r.user.password)
  {
    match Find(users, user.email, lookupFault)
    case Success(_) => AlreadyExists
    case Failure(FindFailed(err)) => LookupFailed(err)
    case Failure(RecordNotFound) =>
      match Crypto.HashPassword(user.password, salt, bcrypt)
      case Failure(_) => HashFailed
      case Success(hashedPassword) =>
        if insertFault.Some? then InsertFailed(CreateFailed(insertFault.value))
        else Created(user.(password := hashedPassword))
  }

  /** The table after the flow: one new row when a user was created, the same table otherwise. */
  function AfterRegister(users: map<string, User>, outcome: Registration): (users': map<string, User>)
    ensures !outcome.Created? ==> users' == users
    ensures outcome.Created? ==> && users'.Keys == users.Keys + {outcome.user.email}
                                 && users'[outcome.user.email] == outcome.user
    ensures forall email | email in users && (!outcome.Created? || email != outcome.user.email) ::
      email in users' && users'[email] == users[email]
  {
    if outcome.Created? then users[outcome.user.email := outcome.user] else users
  }

  /** The HTTP answer of SignUp. */
  function SignUpResponse(users: map<string, User>, body: Bind, lookupFault: Option<DbError>,
                          salt: Crypto.Salt, bcrypt: Crypto.Bcrypt, insertFault: Option<DbError>): (r: Response)
    ensures r.status in {STATUS_CREATED, STATUS_BAD_REQUEST, STATUS_CONFLICT, STATUS_INTERNAL_SERVER_ERROR}
    ensures r.status == STATUS_BAD_REQUEST <==> body.BindFailed?
    ensures r.status == STATUS_CREATED <==> body.Bound? && Register(users, body.user, lookupFault, salt, bcrypt, insertFault).Created?
    ensures r.status == STATUS_CONFLICT <==> body.Bound? && lookupFault.None? && body.user.email in users
    ensures r.status == STATUS_CREATED ==> r.body == UserIdBody(body.user.userId)
  {
    match body
    case BindFailed(message) => Response(STATUS_BAD_REQUEST, ErrorBody(message))
    case Bound(user) =>
      match Register(users, user, lookupFault, salt, bcrypt, insertFault)
      case AlreadyExists => Response(STATUS_CONFLICT, ErrorBody("User with this email already exists"))
      case Created(stored) => Response(STATUS_CREATED, UserIdBody(stored.userId))
      case _ => Response(STATUS_INTERNAL_SERVER_ERROR, EmptyBody)
  }

  function AfterSignUp(users: map<string, User>, body: Bind, lookupFault: Option<DbError>,
                       salt: Crypto.Salt, bcrypt: Crypto.Bcrypt, insertFault: Option<DbError>): (users': map<string, User>)
    ensures body.BindFailed? ==> users' == users
    ensures users.Keys <= users'.Keys
    ensures body.Bound? ==> users'.Keys <= users.Keys + {body.user.email}
    ensures body.Bound? && body.user.email in users ==> users' == users
  {
    match body
    case BindFailed(_) => users
    case Bound(user) => AfterRegister(users, Register(users, user, lookupFault, salt, bcrypt, insertFault))
  }

  /** A body that does not bind is answered 400 with the binding error, and the table is unchanged. */
  lemma BindFailureIsBadRequest(users: map<string, User>, message: string, lookupFault: Option<DbError>,
                                salt: Crypto.Salt, bcrypt: Crypto.Bcrypt, insertFault: Option<DbError>)
    ensures SignUpResponse(users, BindFailed(message), lookupFault, salt, bcrypt, insertFault) ==
      Response(STATUS_BAD_REQUEST, ErrorBody(message))
    ensures AfterSignUp(users, BindFailed(message), lookupFault, salt, bcrypt, insertFault) == users
  {
  }

  /** Each failure of the flow leaves the table as it was; which one it is decides the status. */
  lemma FailuresChangeNothing(users: map<string, User>, user: User, lookupFault: Option<DbError>,
                               salt: Crypto.Salt, bcrypt: Crypto.Bcrypt, insertFault: Option<DbError>)
    ensures var outcome := Register(users, user, lookupFault, salt, bcrypt, insertFault);
      var response := SignUpResponse(users, Bound(user), lookupFault, salt, bcrypt, insertFault);
      && (lookupFault.None? && user.email in users ==>
            outcome == AlreadyExists && response == Response(STATUS_CONFLICT, ErrorBody("User with this email already exists")))
      && (lookupFault.Some? ==> outcome == LookupFailed(lookupFault.value) && response == Response(STATUS_INTERNAL_SERVER_ERROR, EmptyBody))
      && (lookupFault.None? && user.email !in users && bcrypt.generate(user.password, salt).None? ==>
            outcome == HashFailed && response == Response(STATUS_INTERNAL_SERVER_ERROR, EmptyBody))
      && (!outcome.Created? ==> AfterRegister(users, outcome) == users && response.status != STATUS_CREATED)
  {
  }

  /**
   * A signup that succeeds answers 201 with the new user's id, and exactly that user was added
   * under its email: the submitted user with its password replaced by the bcrypt hash of it, a
   * hash that CheckPasswordHash accepts for the submitted password. All other rows are unchanged.
   */
  lemma SuccessfulSignUp(users: map<string, User>, user: User, lookupFault: Option<DbError>,
                          salt: Crypto.Salt, bcrypt: Crypto.Bcrypt, insertFault: Option<DbError>)
    requires KeyedByEmail(users)
    requires Register(users, user, lookupFault, salt, bcrypt, insertFault).Created?
    ensures var users' := AfterSignUp(users, Bound(user), lookupFault, salt, bcrypt, insertFault);
      && lookupFault.None? && insertFault.None? && user.email !in users
      && bcrypt.generate(user.password, salt).Some?
      && users' == users[user.email := user.(password := bcrypt.generate(user.password, salt).value)]
      && users'.Keys == users.Keys + {user.email}
      && KeyedByEmail(users')
      && SignUpResponse(users, Bound(user), lookupFault, salt, bcrypt, insertFault) == Response(STATUS_CREATED, UserIdBody(user.userId))
      && (Crypto.BcryptSound(bcrypt) ==> Crypto.CheckPasswordHash(user.password, users'[user.email].password, bcrypt))
  {
    var hashed := Crypto.HashPassword(user.password, salt, bcrypt);
    assert Find(users, user.email, lookupFault) == Failure(RecordNotFound);
    assert hashed.Success?;
    if Crypto.BcryptSound(bcrypt) {
      Crypto.CheckAcceptsOwnHash(user.password, salt, bcrypt);
    }
  }

  /** The user table (`users`, unique on email). */
  class UserTable {
    var users: map<string, User>

    ghost predicate Valid()
      reads this
    {
      KeyedByEmail(users)
    }

    constructor ()
      ensures Valid() && users == map[]
    {
      users := map[];
    }

    /** gorm's `First` on `email = ?`. */
    method First(email: string, fault: Option<DbError>) returns (r: Result<User, FindError>)
      requires Valid()
      ensures r.Success? <==> fault.None? && email in users
      ensures r.Success? ==> r.value == users[email] && r.value.email == email
      ensures r.Failure? ==> r.error == (if fault.Some? then FindFailed(fault.value) else RecordNotFound)
    {
      r := Find(users, email, fault);
    }

    /** gorm's `Create`: the unique constraint on email refuses a second row with the same email. */
    method Create(user: User, fault: Option<DbError>) returns (err: Option<CreateError>)
      requires Valid()
      modifies this
      ensures Valid()
      ensures err.None? <==> fault.None? && user.email !in old(users)
      ensures fault.Some? ==> err == Some(CreateFailed(fault.value))
      ensures fault.None? && user.email in old(users) ==> err == Some(DuplicateEmail)
      ensures users == if err.None? then old(users)[user.email := user] else old(users)
    {
      if fault.Some? {
        return Some(CreateFailed(fault.value));
      }
      if user.email in users {
        return Some(DuplicateEmail);
      }
      users := users[user.email := user];
      return None;
    }

    /** The check-then-insert steps SignUp and CreateUser both take. */
    method RegisterUser(user: User, lookupFault: Option<DbError>, salt: Crypto.Salt, bcrypt: Crypto.Bcrypt,
                        insertFault: Option<DbError>) returns (outcome: Registration)
      requires Valid()
      modifies this
      ensures Valid()
      ensures outcome == Register(old(users), user, lookupFault, salt, bcrypt, insertFault)
      ensures users == AfterRegister(old(users), outcome)
    {
      var found := First(user.email, lookupFault);
      if found.Success? {
        return AlreadyExists;
      }
      if found.error.FindFailed? {
        return LookupFailed(found.error.err);
      }
      var hashedPassword := Crypto.HashPassword(user.password, salt, bcrypt);
      if hashedPassword.Failure? {
        return HashFailed;
      }
      var stored := user.(password := hashedPassword.value);
      assert lookupFault.None? && stored.email !in users;
      var createErr := Create(stored, insertFault);
      if createErr.Some? {
        return InsertFailed(createErr.value);
      }
      return Created(stored);
    }

    /** `SignUp`: the HTTP answer and the new table are those of SignUpResponse and AfterSignUp. */
    method SignUp(body: Bind, lookupFault: Option<DbError>, salt: Crypto.Salt, bcrypt: Crypto.Bcrypt,
                  insertFault: Option<DbError>) returns (response: Response)
      requires Valid()
      modifies this
      ensures Valid()
      ensures response == SignUpResponse(old(users), body, lookupFault, salt, bcrypt, insertFault)
      ensures users == AfterSignUp(old(users), body, lookupFault, salt, bcrypt, insertFault)
    {
      if body.BindFailed? {
        return Response(STATUS_BAD_REQUEST, ErrorBody(body.message));
      }
      var outcome := RegisterUser(body.user, lookupFault, salt, bcrypt, insertFault);
      match outcome
      case AlreadyExists =>
        response := Response(STATUS_CONFLICT, ErrorBody("User with this email already exists"));
      case Created(stored) =>
        response := Response(STATUS_CREATED, UserIdBody(stored.userId));
      case _ =>
        response := Response(STATUS_INTERNAL_SERVER_ERROR, EmptyBody);
    }

    /** `CreateUser`: the same flow, with nothing reported to the caller on any path. */
    method CreateUser(user: User, lookupFault: Option<DbError>, salt: Crypto.Salt, bcrypt: Crypto.Bcrypt,
                      insertFault: Option<DbError>)
      requires Valid()
      modifies this
      ensures Valid()
      ensures users == AfterRegister(old(users), Register(old(users), user, lookupFault, salt, bcrypt, insertFault))
    {
      var _ := RegisterUser(user, lookupFault, salt, bcrypt, insertFault);
    }
  }
}
