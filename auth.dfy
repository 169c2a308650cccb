/** The credential workflow: password checks against the user store and
    issuing signed tokens on login and registration. */
module Auth {
  import opened Base
  import opened Users

  /** The claims signed into a token: only the user's `userId`, which is
      `undefined` when the registration body has none. */
  datatype Payload = Payload(userId: Field)

  /** The token issuer: signing is foreign code, handed to the service. */
  datatype Signer = Signer(sign: Payload -> string)

  datatype AccessToken = AccessToken(accessToken: string)

  /** A stored user with the `password` field stripped off. */
  datatype SafeUser = SafeUser(id: nat, userId: string)

  /** `login` issues the same token for any two users with the same
      `userId`: the payload carries nothing else. */
  lemma LoginDependsOnlyOnUserId(auth: AuthService, a: SafeUser, b: SafeUser)
    requires a.userId == b.userId
    ensures auth.Login(a) == auth.Login(b)
  {
  }

  class AuthService {
    const users: UsersService
    const jwt: Signer

    constructor (users: UsersService, jwt: Signer)
      ensures this.users == users && this.jwt == jwt
    {
      this.users := users;
      this.jwt := jwt;
    }

    /** `validateUser`: the stored user without its password when the
        `userId` exists and the password matches its digest, none
        otherwise. Read-only. */
    function ValidateUser(userId: string, password: string): (r: Option<SafeUser>)
      reads users
      ensures users.FindOne(userId).None? ==> r == None
      ensures users.FindOne(userId).Some? && !users.hasher.compare(password, users.FindOne(userId).value.password) ==>
        r == None
      ensures r.Some? <==>
        users.FindOne(userId).Some? && users.hasher.compare(password, users.FindOne(userId).value.password)
      ensures r.Some? ==>
        r.value == SafeUser(users.FindOne(userId).value.id, users.FindOne(userId).value.userId) &&
        r.value.userId == userId
    {
      var user := users.FindOne(userId);
      if user.Some? && users.CompareHash(user.value, password) then
        Some(SafeUser(user.value.id, user.value.userId))
      else
        None
    }

    /** `login`: signs a payload holding only the user's `userId`. */
    function Login(user: SafeUser): (r: AccessToken)
      ensures r == AccessToken(jwt.sign(Payload(Some(user.userId))))
    {
      var payload := Payload(Some(user.userId));
      AccessToken(jwt.sign(payload))
    }

    /** The guard on a registration body, which is an object, `null` or
        `undefined`. Its condition is `!body && !body.userId && !body.password`:
        for an object `!body` is false and the conjunction stops there, so
        nothing is rejected; for `null` or `undefined` the read of
        `body.userId` throws a `TypeError`. For such bodies it never throws
        the exception it was written to throw. */
    static function CheckEmptyIdAndPassword(body: Option<CreateUserDto>): (r: Outcome<JsError>)
      ensures r == Pass <==> body.Some?
      ensures r != Pass ==> r == Fail(TypeError)
    {
      match body
      case Some(_) => Pass
      case None => Fail(TypeError)
    }

    /** `checkExistedUser`: fails with a forbidden error when the `userId`
        is taken. An absent `userId` matches no stored user. Read-only. */
    function CheckExistedUser(userId: Field): (r: Outcome<HttpException>)
      reads users
      ensures r != Pass <==> userId.Some? && users.FindOne(userId.value).Some?
      ensures r != Pass ==> r == Fail(HttpException(Forbidden, IdExists(userId)))
    {
      match userId
      case None => Pass
      case Some(id) =>
        if users.FindOne(id).Some? then Fail(HttpException(Forbidden, IdExists(userId))) else Pass
    }

    /** `createUser`: awaits the user workflow's `create`, so it fails with
        whatever `create` throws and passes otherwise. */
    method CreateUser(userId: Field, password: Field, salt: string) returns (r: Outcome<HttpException>)
      requires users.Valid()
      modifies users
      ensures users.Valid()
      ensures var c := CreateOutcome(old(users.users), old(users.nextId), users.hasher, CreateUserDto(userId, password), salt);
              && r == (if c.Success? then Pass else Fail(c.error))
              && users.users == AfterCreate(old(users.users), c)
              && users.nextId == if c.Success? then old(users.nextId) + 1 else old(users.nextId)
    {
      var createUserDto := CreateUserDto(userId, password);
      var created := users.Create(createUserDto, salt);
      r := if created.Success? then Pass else Fail(created.error);
    }

    /** `register`: builds the payload, runs the guard, then starts the
        duplicate check and the creation without waiting for either, and
        returns the signed token. Neither a taken `userId` nor a failed
        creation reaches the caller. */
    method Register(body: Option<CreateUserDto>, salt: string) returns (r: Result<AccessToken, JsError>)
      requires users.Valid()
      modifies users
      ensures users.Valid()
      ensures body.None? ==> r == Failure(TypeError) && users.users == old(users.users) && users.nextId == old(users.nextId)
      ensures body.Some? ==> r == Success(AccessToken(jwt.sign(Payload(body.value.userId))))
      ensures body.Some? ==>
        var c := CreateOutcome(old(users.users), old(users.nextId), users.hasher, body.value, salt);
        && users.users == AfterCreate(old(users.users), c)
        && users.nextId == if c.Success? then old(users.nextId) + 1 else old(users.nextId)
      ensures body.Some? ==>
        var c := CreateOutcome(old(users.users), old(users.nextId), users.hasher, body.value, salt);
        c.Success? ==> ValidateUser(c.value.userId, body.value.password.value) == Some(SafeUser(c.value.id, c.value.userId))
    {
      if body.None? {
        // Building the payload reads `body.userId`, which throws.
        r := Failure(TypeError);
        return;
      }
      var payload := Payload(body.value.userId);
      var guard := CheckEmptyIdAndPassword(body);
      assert guard == Pass;
      // Neither call below is awaited: their failures are lost.
      var existed := CheckExistedUser(body.value.userId);
      ghost var before, next := users.users, users.nextId;
      var created := CreateUser(body.value.userId, body.value.password, salt);
      if CreateOutcome(before, next, users.hasher, body.value, salt).Success? {
        CreatedUserFound(before, next, users.hasher, body.value, salt);
        CreatedPasswordMatches(before, next, users.hasher, body.value, salt);
      }
      r := Success(AccessToken(jwt.sign(payload)));
    }
  }
}
