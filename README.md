# Blog backend: post and credential workflows in Dafny

This project models the business logic of a small blog backend. Users register with a `userId` and a password. They log in to get a signed bearer token. They then create, list, read, update and delete posts, and only a post's author may change or delete it. Three services carry the logic:

- `PostsService` (module `Posts`): the post table and its operations.
- `UsersService` (module `Users`): the user table, registration and password comparison.
- `AuthService` (module `Auth`): credential validation, login and registration tokens.

Each service is a class. Its table is a `seq` field in insertion order, and a counter supplies the generated ids, starting at 1. Every operation that can throw returns a `Result` or an `Outcome`. The error is an `HttpException`: a status (400 or 403) and a `Reason` that says which message was thrown. A request field that JavaScript may see as `null` or `undefined` is an `Option<string>`. `Truthy` defines JavaScript truthiness for such a field.

Password hashing, password comparison and token signing are foreign code. They are function values handed to the services, in modules `Crypto` and `Auth`. Only one fact is assumed about them: a plaintext always matches a digest made from it. The subset type `Crypto.SoundHasher` states this fact, and the user service can only be built with such a hasher. The salt the hasher draws is a parameter of `create`, and the clock reading used for timestamps is a parameter `now`.

Two quirks of the registration code are reproduced, not fixed:

- The guard in `AuthService.checkEmptyIdAndPassword` is `!body && !body.userId && !body.password`. The body is modelled as an object, `null` or `undefined`. The guard never rejects an object body. For `null` or `undefined` it throws a `TypeError`, not the intended 400.
- `register` does not await the duplicate check or `createUser`. What it returns is always the signed token. The store still changes exactly as `UsersService.create` would change it. `createUser` itself awaits `create` and fails with its error, but `register` drops that failure.

Three behaviours a reader might not expect are kept as the code has them:

- A duplicate `userId` in `UsersService.create` fails with 400, not with a conflict status.
- A missing post fails with 400, not 404.
- The `count` that `findAll` returns is the size of the page, not the number of stored posts.

## Model

| member | source | states |
|---|---|---|
| `Posts.IsEmptyText` | src/posts/posts.service.ts:89-95 | a title or content is empty exactly when it is not truthy (`null`, `undefined` or `''`), so it agrees with the truthiness test `update` uses to merge |
| `Posts.CheckTitleContentEmpty` | src/posts/posts.service.ts:74-87 | an empty title gives 400 "title empty", checked first; then an empty content gives 400 "content empty"; it passes exactly when both are truthy |
| `Posts.CheckPostWriter` | src/posts/posts.service.ts:97-104 | passes exactly when the caller is the post's author; otherwise 403 naming the caller |
| `Posts.IndexOf` | src/posts/posts.service.ts:36 | the lookup by id returns the first position holding that id, and none exactly when no stored post has it |
| `Posts.Window` | src/posts/posts.service.ts:26-30 | the page skips `offset` rows and takes at most `limit`; its length is `min(limit, rows left)` and its i-th element is row `offset + i` |
| `Posts.Merge` | src/posts/posts.service.ts:61-63 | a supplied truthy title or content replaces the old one and a falsy one keeps it; `id`, `userId` and `createdDate` are kept and `modifiedDate` becomes the clock reading |
| `Posts.IndexOfAppended` | src/posts/posts.service.ts:16-20 | a post inserted with an id above every stored id is found at the end of the table |
| `Posts.IndexOfAppendedOther` | src/posts/posts.service.ts:16-20 | inserting a post does not change the lookup of any other id |
| `Posts.IndexOfStored` | src/posts/posts.service.ts:57-64 | with distinct ids, looking up a stored post's id finds that post, so an updated post is found again under its id |
| `Posts.Without` | src/posts/posts.service.ts:71 | deleting row `k` keeps every other row in order |
| `Posts.DeletedIdGone` | src/posts/posts.service.ts:67-72 | after deleting a row, ids still increase and no row has the deleted id |
| `Posts.AbsentFromEveryPage` | src/posts/posts.service.spec.ts:310-331 | a post missing from the table appears on no page of `findAll`, whatever the limit and offset |
| `Posts.RemovedNeverListed` | src/posts/posts.service.spec.ts:310-331 | once a post's row is deleted, no page of `findAll` lists its id, whatever the limit and offset |
| `Posts.ThirdPageOfEleven` | src/posts/posts.service.spec.ts:95-120 | over eleven posts, limit 3 and offset 3 list the 4th to the 6th post in creation order |
| `Posts.PostsService.constructor` | src/posts/posts.service.ts:10-12 | the service starts with an empty table whose first id is 1 |
| `Posts.PostsService.Create` | src/posts/posts.service.ts:14-21 | failure order is title (400), then content (400), and the table is unchanged on failure; success appends exactly one post with the next id, the given title, content and author, and both timestamps set to `now`; the new post is found by its id and every other lookup is unchanged |
| `Posts.PostsService.FindAll` | src/posts/posts.service.ts:23-33 | a NaN limit becomes 10 and a NaN offset becomes 0; `data` is the window of the table at `[offset, offset + limit)` in insertion order, and `count` is the length of `data` |
| `Posts.PostsService.FindOne` | src/posts/posts.service.ts:35-44 | succeeds exactly when some stored post has the id, and returns that post; otherwise fails with 400 naming the id |
| `Posts.PostsService.Update` | src/posts/posts.service.ts:46-65 | failure order is both fields empty (400, before any lookup), then a missing id (400), then a non-author caller (403), and the table is unchanged on every failure; success replaces exactly that row with the merged post, which `findOne` then returns |
| `Posts.PostsService.Remove` | src/posts/posts.service.ts:67-72 | failure order is a missing id (400), then a non-author caller (403), and the table is unchanged on failure; success returns the deleted post, removes exactly its row, and leaves no post with that id |
| `Users.FindUser` | src/users/users.service.ts:36-41 | the lookup by `userId` returns a stored user with that `userId`, and none exactly when no stored user has it |
| `Users.CheckEmptyIdAndPassword` | src/users/users.service.ts:47-54 | passes exactly when both `userId` and `password` are truthy; otherwise 400 |
| `Users.CreateOutcome` | src/users/users.service.ts:15-30 | falsy input gives 400 first; then a taken `userId` gives 400; success happens exactly when the input is truthy and the `userId` is free, and yields a user with the next id, the given `userId` and the hash of the password with cost factor 10 |
| `Users.AfterCreate` | src/users/users.service.ts:26-29 | success adds exactly one row at the end and keeps every existing row; a failure leaves the rows unchanged |
| `Users.FindStoredUser` | src/users/users.service.ts:36-41 | with unique `userId`s, looking up a stored user's `userId` returns that user |
| `Users.CreatedUserFound` | src/users/users.service.spec.ts:42-55 | after a successful `create`, `userId`s are still unique and `findOne` of the new `userId` returns the new record |
| `Users.CreatedPasswordMatches` | src/users/users.service.ts:28 | the stored digest matches the registered plaintext under a sound hasher |
| `Users.DuplicateCreateFails` | src/users/users.service.spec.ts:83-97 | creating the same `userId` again fails with 400, whatever password and salt are used; with a truthy password the reason is the taken `userId` |
| `Users.UsersService.constructor` | src/users/users.service.ts:11-13 | the service starts with an empty user table and the given sound hasher |
| `Users.UsersService.Create` | src/users/users.service.ts:15-30 | returns what `CreateOutcome` says and changes the table as `AfterCreate` says, advancing the id counter only on success; the created user is then found by its `userId` and its password compares true |
| `Users.UsersService.FindAll` | src/users/users.service.ts:32-34 | returns every stored user in insertion order, so it is empty exactly when the table is |
| `Users.UsersService.FindOne` | src/users/users.service.ts:36-41 | returns a stored user with the given `userId`, and none exactly when there is no such user; read-only |
| `Users.UsersService.CompareHash` | src/users/users.service.ts:43-45 | is the hasher's comparison of the plaintext with the stored digest, and is true whenever the digest was made from that plaintext |
| `Users.ListedUsersFound` | src/users/users.service.ts:32-41 | every user `findAll` lists is the user `findOne` returns for its `userId` |
| `Auth.AuthService.constructor` | src/auth/auth.service.ts:8-11 | the service uses the given user service and signer |
| `Auth.AuthService.ValidateUser` | src/auth/auth.service.ts:13-21 | none when no user has the `userId`; none when the password does not match; otherwise the stored user's `id` and `userId` without the password; read-only |
| `Auth.AuthService.Login` | src/auth/auth.service.ts:23-28 | the token is the signature of a payload holding only the user's `userId` |
| `Auth.LoginDependsOnlyOnUserId` | src/auth/auth.service.ts:23-28 | two users with the same `userId` get the same login token |
| `Auth.AuthService.CheckEmptyIdAndPassword` | src/auth/auth.service.ts:42-49 | never rejects an object body, even one with empty fields; a `null` or `undefined` body throws a `TypeError`, never the 400 |
| `Auth.AuthService.CheckExistedUser` | src/auth/auth.service.ts:51-59 | fails exactly when the `userId` is taken, with 403 naming it; read-only |
| `Auth.AuthService.CreateUser` | src/auth/auth.service.ts:61-67 | passes when `UsersService.create` on that `userId` and password succeeds and fails with the error `create` throws otherwise; the user table changes exactly as that `create` changes it |
| `Auth.AuthService.Register` | src/auth/auth.service.ts:30-40 | the outcome of `createUser` is dropped, because the call is not awaited; an object body always gives `sign({userId: body.userId})`, whatever the table holds; the table changes exactly as `create` on the body changes it; when that creation succeeds, `validateUser` with the same password returns the new user; a `null` or `undefined` body throws a `TypeError` and changes nothing |

## Left out

- Controllers, module wiring and dependency injection: these are routing with no logic. The framework-managed constructor injection becomes explicit constructor parameters.
- The local login strategy: it only turns a null `validateUser` result into a 401. `validateUser` returning none is the condition for that 401.
- Bcrypt and JWT internals: hashing, comparison and signing are function values. The assumed fact is that a plaintext matches its own digest for every cost factor and salt. Salt generation is a parameter.
- User and DTO entity files: users/entities/user.entity.ts and the post DTO files are not part of this model. A user is `{id, userId, password}`, as the tests use it, and the DTOs carry the two request fields.
- Posts.PostsService.FindAll: limit is a positive integer and offset a non-negative integer, or NaN. The ORM's `skip`/`take` handling of zero, negative or fractional numbers is not modelled.
- ORM storage details: ids come from a counter and are never reused. The table order is insertion order. A `findOneOrFail` or `findOne` with an `undefined` key is not modelled, so an absent `userId` matches no user in `Auth.AuthService.CheckExistedUser`. What the ORM does to the entity that `remove` returns, such as clearing its generated id, is not modelled: `Posts.PostsService.Remove` returns the post as it was fetched.
- Wall-clock time: `now` is a parameter, and nothing forces later calls to pass later readings. The `createdDate` and `modifiedDate` the store sets on insert are both `now`.
- Non-object request bodies: a falsy primitive body such as `0`, `false` or `''` would make the guard in `Auth.AuthService.CheckEmptyIdAndPassword` throw its 400. The model takes the body to be an object, `null` or `undefined`.
- Promise scheduling: `Auth.AuthService.Register` models the sequential outcome. The duplicate check's result is dropped, and the creation runs to completion before the token is returned. Unhandled rejections, interleaving with other requests, and the race between two concurrent registrations of one `userId` are not modelled.
