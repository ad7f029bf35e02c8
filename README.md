# User service: request decisions over one user table

This project models the decision logic of a small Express/Sequelize user service. The service has:

- registration, login, a listing of all users, and profile read, update and delete;
- a bearer-token gate in front of the three profile routes;
- one `user` table.

Every request ends in a small, fixed set of outcomes: 201, 200, 400, 404, 500, no reply at all, or an error thrown by the gate. For each one the model states what is answered and what the table looks like afterwards.

Modules, one per source file (plus `Wrappers`, which holds `Option`):

- `Validation` (src/utils/utils.ts) covers the two Joi schemas. They are predicates over a request body whose four known keys may be absent, plus any other keys the client sent. The password rule `^[a-zA-Z0-9]{3,30}$` is written as an anchored regex repeat (`MatchClassRepeat`) and proved equal to a length check plus a character-class check.
- `UserModel` (src/models/userModel.ts) covers the `UserAttributes` record, the column validators Sequelize runs on `create`, and the table. The table is a map from `id` to record. Its invariant says:
  - every row is stored under its own id;
  - emails are unique;
  - every row passes its column validators.
  The lookups the controllers use are defined here too.
- `Auth` (src/middlewares/auth.ts) covers `authMiddleware`. It has three pieces:
  - JavaScript's `split(" ")`, with both round trips proved;
  - the pure decision `Gate`;
  - a `Request` object whose `user` field and `next` count the middleware writes.
- `UserCtrl` (src/controllers/userCtrl.ts) has these parts:
  - the six handlers, each specified by a pure function of the table;
  - the `UserTable` class, whose methods make the store calls in the source's order and are proved equal to those functions;
  - `Register` and `RemoveProfile`, which update `rows` in place.
- `Routes` (src/routes/user.ts) puts the gate in front of `/update`, `/my-profile` and `/remove`. It also holds the lemmas that relate several requests.

The model takes these as parameters:

- bcrypt's `hash` and `compare`, and jsonwebtoken's `sign`, as fields of `Crypto`;
- jsonwebtoken's `verify`, as `verify: string -> Option<Claims>`;
- the salt from `genSalt`;
- the id from `uuidv4`. It must not already be a key of the table.
- the address check of the `isEmail` column validator, as a constant of the table.

Any store or library call can throw. The `fault` parameter names the one call, if any, that throws on this request, with its message. The handler catches the error and answers 500, carrying the message and the handler's route tag.

Where the tests and the code disagree, the model follows the code:

- The update test expects 404 (src/__test__/test.ts:363-388). The code never queries the table and sends no reply when it does not throw.
- The remove test expects the route tag `/remove` (src/__test__/test.ts:596-600). The code sends `/my-profile`.
- The code never answers a failed authentication with 401: `authMiddleware` throws an `Error` (src/middlewares/auth.ts:21, :24), so the model reports `Thrown(message)`. What Express then does with the rejected promise is outside the model.

Consequences of the code that the model shows:

- `validationSchema` leaves `password` optional. A registration without one passes validation, then `bcrypt.hash` throws, and the reply is 500 (`MissingBcryptArgument`). A login without a password that names a stored email gets the same 500 from `bcrypt.compare`.
- `Joi.string()` refuses only the empty string. Sequelize's `notEmpty` also refuses names made only of whitespace. So a first name of `"  "` passes the schema, `create` refuses it, and the reply is 500 with the column message, not 400.
- Emails are only checked to be strings. An address that fails `isEmail` passes the schema, then `create` refuses it with 500.
- Joi objects refuse keys their schema does not list. A login body that carries a first name fails validation.
- The gate's prefix test is case-sensitive and needs no space after "Bearer". `"BearerX tok"` yields the token `tok`. `"Bearer  tok"` (two spaces) yields an empty token, and then the gate neither throws nor calls `next`.

## Model

| member | source | states |
|---|---|---|
| `Validation.MatchClassRepeatIff` | src/utils/utils.ts:6 | an anchored `[a-zA-Z0-9]{min,max}` matches exactly when the length is within the bounds and every character is an ASCII letter or digit |
| `Validation.PasswordPatternIff` | src/utils/utils.ts:14 | the password pattern accepts a string iff its length is 3 to 30 and every character is an ASCII letter or digit |
| `Validation.CheckString` | src/utils/utils.ts:5-8 | one `Joi.string()` key passes iff it is absent and optional, or it is a non-empty string that, when patterned, has the password shape; a failure names that key |
| `Validation.ValidateRegistration` | src/utils/utils.ts:4-9 | a registration body passes iff email, firstName and lastName are non-empty strings, the password is absent or matches the rule, and there are no other keys; a missing email, first name or last name is always an error |
| `Validation.ValidateLogin` | src/utils/utils.ts:12-15 | a login body passes iff the email is a non-empty string, the password is absent or matches the rule, and no other key (names included) is present |
| `Validation.PasswordOptional` | src/utils/utils.ts:6-14 | in both schemas, dropping the password key never turns a passing body into a failing one, and the password is never reported as missing |
| `Validation.SamePasswordRule` | src/utils/utils.ts:6-14 | for a body with a valid email, registration fails on the password iff login fails on the password |
| `Validation.EmailFormatNotChecked` | src/utils/utils.ts:13 | a login body with email `"invalid-email"` and nothing else passes validation |
| `Validation.EmptyNamesRejected` | src/__test__/test.ts:73-95 | the registration with a valid password `"short"` and empty names fails on the first name being empty |
| `Validation.EmptyPasswordRejected` | src/__test__/test.ts:228-248 | a login with password `""` fails on the password being empty |
| `UserModel.WithoutPasswordForgetsOnlyPassword` | src/controllers/userCtrl.ts:156-158 | two rows read with the password excluded look the same iff they differ at most in the password |
| `UserModel.WithoutPassword` | src/controllers/userCtrl.ts:156-158 | a row read with `attributes: { exclude: ['password'] }` keeps every column but the password |
| `UserModel.NotEmptyIff` | src/models/userModel.ts:46-48 | the `notEmpty` column rule, the negation of the anchored match `^[\s\t\r\n]*$`, accepts a string iff some character of it is not JavaScript whitespace; it refuses the empty string |
| `UserModel.ColumnViolations` | src/models/userModel.ts:26-74 | Sequelize's validators refuse a row on `create` iff it fails one of the column rules (email format, non-empty password, names); the email message comes first |
| `UserModel.TableInvariant` | src/models/userModel.ts:20-74 | every stored row sits under its own primary key `id`, no two rows share an email (the `unique` index), and every row passes the column rules it was created under |
| `UserModel.InvariantMeansKeys` | src/models/userModel.ts:20-29 | in a table satisfying the invariant, two rows with the same id or the same email are the same row |
| `UserModel.FindByEmail` | src/controllers/userCtrl.ts:29 | the lookup by email finds a row iff some row holds that email, and then returns that stored row |
| `UserModel.FindById` | src/controllers/userCtrl.ts:156-158 | the lookup by id finds a row iff the id is a key, and returns the row stored under it |
| `UserModel.InsertKeepsInvariant` | src/models/userModel.ts:20-74 | adding a valid row with a new id and a new email keeps the table invariant, and looking up that email then finds the new row |
| `UserModel.DestroyKeepsInvariant` | src/controllers/userCtrl.ts:193 | deleting a row keeps the table invariant |
| `UserModel.RowCount` | src/controllers/userCtrl.ts:123-126 | when every row is stored under its own id, the number of distinct rows equals the number of ids |
| `Auth.Split` | src/middlewares/auth.ts:13 | `split` on one character yields at least one field, and no field contains the separator |
| `Auth.JoinSplit` | src/middlewares/auth.ts:13 | joining the fields of a split gives back the original header |
| `Auth.SplitJoin` | src/middlewares/auth.ts:13 | splitting a join of separator-free fields gives back the fields |
| `Auth.SecondFieldIsTextAfterFirstSpace` | src/middlewares/auth.ts:13 | `split(" ")[1]` is exactly the text between the first space and the next space (or the end), and is undefined when there is no space |
| `Auth.HasBearerPrefix` | src/middlewares/auth.ts:12 | the header is present and starts with the case-sensitive text "Bearer" |
| `Auth.SecondField` | src/middlewares/auth.ts:13 | `split(" ")[1]` is defined iff the header holds a space, and then holds no space itself |
| `Auth.BearerToken` | src/middlewares/auth.ts:13-15 | the token is truthy iff the text after the first space, up to the next space, exists and is non-empty, and then it is that text |
| `Auth.Gate` | src/middlewares/auth.ts:12-25 | the gate throws "There is no token attached to header" iff the header is missing or lacks the "Bearer" prefix; it throws "Not authorized. Please login and try again." iff a non-empty token fails verification; it proceeds with the verified claims iff a non-empty token verifies; otherwise it does nothing |
| `Auth.SecondFieldOfTwoWords` | src/middlewares/auth.ts:13 | for a header of two space-free words joined by one space, the token read is the second word |
| `Auth.BearerWithoutSpace` | src/middlewares/auth.ts:12-13 | `"BearerX tok"` passes the prefix test and yields the token `"tok"` |
| `Auth.LowerCaseBearerRejected` | src/middlewares/auth.ts:12 | `"bearer tok"` fails the case-sensitive prefix test |
| `Auth.DoubleSpaceIsIdle` | src/middlewares/auth.ts:13-15 | `"Bearer  tok"` gives an empty second field, so the gate neither throws nor proceeds |
| `Auth.AuthMiddleware` | src/middlewares/auth.ts:5-26 | the middleware throws the gate's message when it rejects; when the gate proceeds, `req.user` becomes the decoded claims and `next` is called exactly once; otherwise neither changes |
| `UserCtrl.Registered` | src/controllers/userCtrl.ts:33-40 | the row `create` is given: the fresh id, the email, the bcrypt hash of the password, the names and role "user" |
| `UserCtrl.RegisterOutcome` | src/controllers/userCtrl.ts:12-70 | registration keeps the table invariant. The table gains exactly the one new row when `create` is reached and succeeds, and stays the same otherwise. A refused body gets 400 before any table access. A throw from `genSalt`/`hash`, a missing password, a throw from the lookup or from `create`, and a row `create` refuses on its column rules each get the 500 of that failure. 400 "User already exist" is answered iff the email is already stored and nothing before the lookup failed. 201, with a token over the new id and email plus the stored row, is answered iff the row was inserted and neither the re-read nor `sign` throws; if either throws, the row stays and the reply is 500. Every 500 is tagged "/signup" |
| `UserCtrl.UserTable.Register` | src/controllers/userCtrl.ts:12-70 | the handler's reply and the new table are those of `RegisterOutcome`, and the table invariant is kept |
| `UserCtrl.LoginReply` | src/controllers/userCtrl.ts:74-117 | login gets 400 for a refused body. A throwing lookup gets its 500; 404 "User not found" is answered iff the body passes and the lookup finds no row with the email. For a stored email, a missing password gets the bcrypt 500 and a throwing `compare` its own 500. 404 "Password incorrect" is answered iff the stored hash does not match the password. 201 with a token over the matching row's id and email is answered iff the credentials match and nothing throws, and a throwing `sign` then gets its 500. Every 500 is tagged "/login" |
| `UserCtrl.UserTable.Login` | src/controllers/userCtrl.ts:74-117 | the handler answers `LoginReply` of the current table and writes nothing |
| `UserCtrl.AllUsersReply` | src/controllers/userCtrl.ts:121-135 | gets 200 with every stored row, passwords included, and a count equal both to the number of ids and to the number of rows returned; a failed listing gets 500 tagged "/get-all-users" |
| `UserCtrl.UserTable.GetAllUsers` | src/controllers/userCtrl.ts:121-135 | the handler answers `AllUsersReply` of the current table |
| `UserCtrl.UpdateProfileReply` | src/controllers/userCtrl.ts:139-148 | once `req.user` is set, no reply is sent; only an unset `req.user` gives 500 tagged "/update" |
| `UserCtrl.UserTable.UpdateUserProfile` | src/controllers/userCtrl.ts:139-148 | the handler answers `UpdateProfileReply` without reading the table |
| `UserCtrl.ProfileReply` | src/controllers/userCtrl.ts:152-175 | gets 200 with the caller's row minus its password iff the caller's id is stored; gets 404 "User not found" iff it is not. An unset `req.user` gets 500 `UndefinedUser`, a throwing lookup gets 500 with its message, and every 500 is tagged "/my-profile" |
| `UserCtrl.UserTable.UserProfile` | src/controllers/userCtrl.ts:152-175 | the handler answers `ProfileReply` of the current table and writes nothing |
| `UserCtrl.RemoveOutcome` | src/controllers/userCtrl.ts:179-204 | gets 200 iff the caller's id is stored and neither the lookup nor the delete throws; then exactly that row is removed, and in every other case the table is unchanged. An absent id gets 404 "User not found". An unset `req.user`, a throwing lookup and a throwing `destroy` each get the 500 of that failure, and every 500 is tagged "/my-profile". The invariant is kept |
| `UserCtrl.UserTable.RemoveProfile` | src/controllers/userCtrl.ts:179-204 | the handler's reply and the new table are those of `RemoveOutcome`, and the table invariant is kept |
| `Routes.PatchUpdate` | src/routes/user.ts:10 | PATCH /update answers with the gate's error, or with no reply at all; the table is not touched. In every case `req.user` and the `next` count are left as the gate sets them |
| `Routes.GetMyProfile` | src/routes/user.ts:11 | GET /my-profile answers with the gate's error, no reply when the gate does nothing, or `userProfile` for the verified claims. In every case `req.user` and the `next` count are left as the gate sets them |
| `Routes.DeleteRemove` | src/routes/user.ts:12 | DELETE /remove leaves the table unchanged unless the gate proceeds, and then has the effect of `removeProfile` for the verified claims. In every case `req.user` and the `next` count are left as the gate sets them |
| `Routes.GatedHandlersHaveUser` | src/routes/user.ts:10-12 | behind the gate, `req.user` is always set, so update sends no reply and the profile route never fails on an unset user |
| `Routes.RegisterThenLogin` | src/controllers/userCtrl.ts:26-94 | after a successful registration, logging in with the same email and password gets 201 with a token over the new id and email, provided `compare` accepts a password against its own hash |
| `Routes.RegisterTwice` | src/controllers/userCtrl.ts:29-62 | a second valid registration with the same email gets 400 "User already exist", leaves the table as it was, and the email is held by exactly one row |
| `Routes.RegisterGrowsCount` | src/controllers/userCtrl.ts:123-127 | a successful registration raises the listed count by one, and the listed rows gain exactly the new row |
| `Routes.RemoveThenProfile` | src/controllers/userCtrl.ts:183-193 | once a profile has been removed, the same caller's profile request and remove request both get 404 "User not found" |
| `Routes.LoginDependsOnOwnRow` | src/controllers/userCtrl.ts:86-94 | login gives the same reply on any two tables where the row holding the email is the same |
| `Routes.AccountLifecycle` | src/routes/user.ts:7-12 | starting from an empty table: register gets 201, login 201, profile 200 with the row minus its password, remove 200, and the profile again 404 |

## Left out

- bcrypt's salting, cost factor and randomness. `hash`, `compare` and the salt are parameters. `RegisterThenLogin` assumes that `compare` accepts a password against its own hash.
- jsonwebtoken's signature, algorithm and expiry checks. `sign` and `verify` are parameters, and a token's `iat`/`exp` claims are not modelled. A payload without an `id` is not modelled either.
- `uuidv4`: the id is a parameter that must not already be a key of the table.
- validator.js's `isEmail` grammar: it is the parameter `isEmail`.
- The exact texts of Joi's messages and of Sequelize's validation error. A 400 carries the failing key and rule. A refused `create` carries the column messages in column order. The `option` formatting object is not modelled.
- Unknown keys: the model records only that one is present, not which one Joi names first.
- UserModel.ColumnViolations, UserCtrl.RegisterOutcome: the 255-character width of the `STRING` (VARCHAR(255)) columns is not modelled. The schemas put no maximum on the names or the email, so a 256-character first name passes both Joi and `notEmpty`. A strict-mode MySQL store would then refuse the INSERT, `create` would throw, and the reply would be 500 tagged "/signup" with the table unchanged. The model reaches that outcome only through an `Inserting` fault; with no fault it answers 201 and stores the row.
- UserModel.HasEmail, UserModel.FindByEmail, UserModel.EmailsUnique: emails are compared by exact string equality. A MySQL store with its default case-insensitive collation would treat "a@x.com" and "A@x.com" as the same email, both in `findOne({ where: { email } })` and in the `unique` index. The model then lets a second row with a case variant in, and a login with a case variant gets 404. The collation of the connection in src/config/index.ts is not part of this model.
- Concurrency. Requests run one after another, so the gap between the email check and `create` cannot be exercised. Sequelize's own unique-constraint error on `create` is therefore not modelled.
- The order of the rows `findAndCountAll` returns: the model gives them as a set.
- The `createdAt`/`updatedAt` columns Sequelize adds.
- What Express does with the error `authMiddleware` throws (its HTTP status), and the response object itself (`res.status().json()`).
- The database connection, `db.sync`, environment configuration (`App_secret`, `Expiry`), logging and the server start-up: src/config/index.ts, src/app.ts and src/index.ts hold no decision logic.
- The commented-out `isAdmin` middleware.
- src/utils/index, which the controller imports from, is not part of this model. It is taken to re-export src/utils/utils.ts.
