/** The user workflow: registration input checks, rejection of a duplicate
    `userId`, and storage of the hashed password. */
module Users {
  import opened Base
  import opened Crypto

  /** The cost factor handed to the hasher. */
  const SaltRounds: nat := 10

  /** A stored user; `password` holds the digest, not the plaintext. */
  datatype User = User(id: nat, userId: string, password: string)

  /** The body of a registration request. */
  datatype CreateUserDto = CreateUserDto(userId: Field, password: Field)

  /** No two stored users share a `userId`. */
  ghost predicate UniqueUserIds(rows: seq<User>) {
    forall i, j :: 0 <= i < j < |rows| ==> rows[i].userId != rows[j].userId
  }

  ghost predicate IdsBelow(rows: seq<User>, bound: nat) {
    forall i :: 0 <= i < |rows| ==> rows[i].id < bound
  }

  /** The store's lookup by `userId`: the first stored user with it. */
  function FindUser(rows: seq<User>, userId: string): (r: Option<User>)
    ensures r.Some? ==> r.value in rows && r.value.userId == userId
    ensures r.None? <==> forall i :: 0 <= i < |rows| ==> rows[i].userId != userId
  {
    if rows == [] then None
    else if rows[0].userId == userId then Some(rows[0])
    else FindUser(rows[1..], userId)
  }

  /** The input guard: both `userId` and `password` must be truthy. */
  function CheckEmptyIdAndPassword(dto: CreateUserDto): (r: Outcome<HttpException>)
    ensures r == Pass <==> Truthy(dto.userId) && Truthy(dto.password)
    ensures r != Pass ==> r == Fail(HttpException(BadRequest, InvalidUserIdPassword))
  {
    if !Truthy(dto.userId) || !Truthy(dto.password) then
      Fail(HttpException(BadRequest, InvalidUserIdPassword))
    else
      Pass
  }

  /** What `create` returns on a store holding `rows`, whose next generated
      id is `nextId`, when the hasher draws `salt`. */
  function CreateOutcome(rows: seq<User>, nextId: nat, hasher: Hasher, dto: CreateUserDto, salt: string): (r: Result<User, HttpException>)
    ensures !(Truthy(dto.userId) && Truthy(dto.password)) ==>
      r == Failure(HttpException(BadRequest, InvalidUserIdPassword))
    ensures Truthy(dto.userId) && Truthy(dto.password) && FindUser(rows, dto.userId.value).Some? ==>
      r == Failure(HttpException(BadRequest, UserIdExists))
    ensures r.Success? <==>
      Truthy(dto.userId) && Truthy(dto.password) && forall i :: 0 <= i < |rows| ==> rows[i].userId != dto.userId.value
    ensures r.Success? ==>
      r.value == User(nextId, dto.userId.value, hasher.hash(dto.password.value, SaltRounds, salt))
  {
    match CheckEmptyIdAndPassword(dto)
    case Fail(e) => Failure(e)
    case Pass =>
      if FindUser(rows, dto.userId.value).Some? then Failure(HttpException(BadRequest, UserIdExists))
      else Success(User(nextId, dto.userId.value, hasher.hash(dto.password.value, SaltRounds, salt)))
  }

  /** The stored users after `create` returned `r`: one row more on
      success, the same rows otherwise. */
  function AfterCreate(rows: seq<User>, r: Result<User, HttpException>): (rows': seq<User>)
    ensures r.Failure? ==> rows' == rows
    ensures r.Success? ==> |rows'| == |rows| + 1 && rows'[..|rows|] == rows && rows'[|rows|] == r.value
  {
    if r.Success? then rows + [r.value] else rows
  }

  /** With unique `userId`s, the lookup of a stored user's `userId` finds
      that user. */
  lemma FindStoredUser(rows: seq<User>, k: nat)
    requires UniqueUserIds(rows) && k < |rows|
    ensures FindUser(rows, rows[k].userId) == Some(rows[k])
  {
  }

  /** A successful `create` keeps `userId`s unique and makes the new user
      the one found by its `userId`. */
  lemma CreatedUserFound(rows: seq<User>, nextId: nat, hasher: Hasher, dto: CreateUserDto, salt: string)
    requires UniqueUserIds(rows)
    requires CreateOutcome(rows, nextId, hasher, dto, salt).Success?
    ensures var r := CreateOutcome(rows, nextId, hasher, dto, salt);
            && UniqueUserIds(AfterCreate(rows, r))
            && FindUser(AfterCreate(rows, r), dto.userId.value) == Some(r.value)
  {
  }

  /** A sound hasher accepts the registered plaintext against the stored
      digest: a user can log in right after `create`. */
  lemma CreatedPasswordMatches(rows: seq<User>, nextId: nat, hasher: SoundHasher, dto: CreateUserDto, salt: string)
    requires CreateOutcome(rows, nextId, hasher, dto, salt).Success?
    ensures hasher.compare(dto.password.value, CreateOutcome(rows, nextId, hasher, dto, salt).value.password)
  {
  }

  /** Registering the same `userId` a second time fails with a bad request,
      whatever password and salt the second attempt uses; with a truthy
      password the reason is the taken `userId`. */
  lemma DuplicateCreateFails(rows: seq<User>, nextId: nat, hasher: Hasher, dto: CreateUserDto, salt: string, password: Field, salt': string)
    requires UniqueUserIds(rows)
    requires CreateOutcome(rows, nextId, hasher, dto, salt).Success?
    ensures var rows' := AfterCreate(rows, CreateOutcome(rows, nextId, hasher, dto, salt));
            var again := CreateOutcome(rows', nextId + 1, hasher, dto.(password := password), salt');
            again.Failure? && again.error.status == BadRequest
    ensures var rows' := AfterCreate(rows, CreateOutcome(rows, nextId, hasher, dto, salt));
            Truthy(password) ==>
              CreateOutcome(rows', nextId + 1, hasher, dto.(password := password), salt') ==
                Failure(HttpException(BadRequest, UserIdExists))
  {
  }

  class UsersService {
    const hasher: SoundHasher
    /** The user table in insertion order. */
    var users: seq<User>
    /** The id the store assigns to the next inserted user. */
    var nextId: nat

    ghost predicate Valid()
      reads this
    {
      UniqueUserIds(users) && IdsBelow(users, nextId)
    }

    constructor (hasher: SoundHasher)
      ensures Valid() && this.hasher == hasher && users == [] && nextId == 1
    {
      this.hasher := hasher;
      users := [];
      nextId := 1;
    }

    /** `create`: checks the input, then rejects a taken `userId`, then
        stores the user with the hash of the password. */
    method Create(dto: CreateUserDto, salt: string) returns (r: Result<User, HttpException>)
      requires Valid()
      modifies this
      ensures Valid()
      ensures r == CreateOutcome(old(users), old(nextId), hasher, dto, salt)
      ensures users == AfterCreate(old(users), r)
      ensures nextId == if r.Success? then old(nextId) + 1 else old(nextId)
      ensures r.Success? ==> FindOne(r.value.userId) == Some(r.value)
      ensures r.Success? ==> CompareHash(r.value, dto.password.value)
    {
      var check := CheckEmptyIdAndPassword(dto);
      if check.Fail? {
        r := Failure(check.error);
        return;
      }
      var existedUser := FindOne(dto.userId.value);
      if existedUser.Some? {
        r := Failure(HttpException(BadRequest, UserIdExists));
        return;
      }
      var user := User(nextId, dto.userId.value, hasher.hash(dto.password.value, SaltRounds, salt));
      CreatedUserFound(users, nextId, hasher, dto, salt);
      CreatedPasswordMatches(users, nextId, hasher, dto, salt);
      users := users + [user];
      nextId := nextId + 1;
      r := Success(user);
    }

    /** `findAll`: every stored user, in insertion order. */
    function FindAll(): (r: seq<User>)
      reads this
      ensures |r| == |users| && forall i :: 0 <= i < |r| ==> r[i] == users[i]
    {
      users
    }

    /** `findOne`: the stored user with that `userId`, if any. */
    function FindOne(userId: string): (r: Option<User>)
      reads this
      ensures r.Some? ==> r.value in users && r.value.userId == userId
      ensures r.None? <==> forall i :: 0 <= i < |users| ==> users[i].userId != userId
    {
      FindUser(users, userId)
    }

    /** `compareHash`: checks a plaintext against the user's stored digest;
        a digest made from that plaintext always matches. */
    function CompareHash(user: User, password: string): (r: bool)
      ensures r == hasher.compare(password, user.password)
      ensures (exists salt :: user.password == hasher.hash(password, SaltRounds, salt)) ==> r
    {
      hasher.compare(password, user.password)
    }
  }

  /** Every user `findAll` lists is the one `findOne` returns for its
      `userId`. */
  lemma ListedUsersFound(service: UsersService)
    requires service.Valid()
    ensures forall u :: u in service.FindAll() ==> service.FindOne(u.userId) == Some(u)
  {
  }
}
