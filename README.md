# newsworthy: a Dafny model of the service's decision logic

The newsworthy backend is an Express/Postgres REST service for topics,
articles, comments and users. Its SQL lives in the database; what the
TypeScript code itself decides is modelled here:

- **Authentication** (`Auth`, from `src/auth/index.ts`): the bearer-token
  middleware `isAuthorised` as an early-return chain (no header → 403
  `{msg:'No token provided'}`; a token that does not verify → 403
  'Failed to authenticate token'; no user row → 403 'User not found'; a failing
  user query → 500 'Server error'; otherwise the user row is attached to the
  request and `next` is called), `verifyToken` (null on any failure), the
  token taken as piece [1] of the header split on one space, `login` (unknown
  user and wrong password give the same 401, a token is issued only when both
  checks pass and it signs `{username}` alone), and `userFromRequest`. The JSON
  web token library, bcrypt and the user query are function parameters whose
  result either returns or throws.
- **Error normalizer** (`ErrorHandlers`, from `src/controllers/errors.ts` and
  its wiring in `src/app.ts`; `dist/controllers/errors.js` is the compiled
  copy of the same code): `handleCustomErrors` answers an error with a truthy
  `status` with that status and `{msg: err.msg || 'Bad request'}` and passes
  every other error on unchanged; `handle500s` always answers 500
  `{msg:'Internal Server Error'}`; the chain gives each error one reply.
- **isSorted** (`Sorted`, from `src/utils/sorted.ts`): a method with a loop
  over an `array`, proved to answer true exactly when no adjacent pair is out
  of order, which a lemma shows is the same as global ordering. The direction
  defaults to descending (`descending: bool := true`), and the array is only
  read.
- **Seed transformers** (`SeedUtils`, from `src/db/seeds/utils.ts`):
  `convertTimestampToDate`, `createRef` (a loop building a lookup table,
  proved against the reducer it runs: its keys are exactly the elements' keys
  and the last element with a key wins) and `formatComments` (renaming
  `created_by` to `author`, resolving `belongs_to` to `article_id`, with the
  comment's own fields spread last so that they override the derived ones).
- **Type guards** (`TypeGuards`, from `src/utils/typeguards.ts`): key-presence
  checks on non-null objects.

JavaScript values are the datatype `JsValues.JsValue`. `Truthy` is
JavaScript's truthiness, `Prop` is a property read that throws on null and
undefined, and `PropertyKey` is the string a value becomes as an object key.
An object is a map from its own keys to values.

## Model

| member | source | states |
|---|---|---|
| `TypeGuards.IsTopic` | src/utils/typeguards.ts:3-10 | true iff the value is a non-null object with both `slug` and `description` |
| `TypeGuards.IsArticle` | src/utils/typeguards.ts:13-26 | true iff the value is a non-null object with all eight article keys |
| `TypeGuards.IsArticleWithCommentCount` | src/utils/typeguards.ts:27-40 | true iff the value is a non-null object with the eight listing keys (`comment_count`, not `body`) |
| `TypeGuards.IsComment` | src/utils/typeguards.ts:42-55 | true iff the value is a non-null object with the six comment keys |
| `TypeGuards.GuardsRejectNonPlainObjects` | src/utils/typeguards.ts:5-6 | null, undefined, primitives and Dates fail every guard |
| `TypeGuards.GuardsIgnoreValues` | src/utils/typeguards.ts:3-55 | objects with the same keys get the same answer whatever their values |
| `TypeGuards.GuardsMonotone` | src/utils/typeguards.ts:3-55 | adding keys never turns an accepted object into a rejected one |
| `TypeGuards.ArticleGuardsDiffer` | src/utils/typeguards.ts:13-40 | the two article guards agree on any object that has both `body` and `comment_count` |
| `TypeGuards.ListedArticleWithoutBody` | src/utils/typeguards.ts:27-40 | every object with all the listing keys and no `body` passes the listing guard and fails the plain one |
| `ErrorHandlers.HandleCustomErrors` | src/controllers/errors.ts:3-14 | answers exactly the errors with a truthy `status`, with that status and `msg` or 'Bad request'; forwards every other non-null error unchanged; throws only on null or undefined, which Express never hands to an error handler |
| `ErrorHandlers.Handle500s` | src/controllers/errors.ts:16-24 | whatever the error, 500 `{msg:'Internal Server Error'}` |
| `ErrorHandlers.ErrorChain` | src/app.ts:18-19 | handleCustomErrors runs first and its reply wins; an error it forwards or throws on gets handle500s' 500 reply (Express routes a falsy error to the catch-all instead) |
| `ErrorHandlers.ErrorChainStatus` | src/app.ts:18-19 | each error gets one reply: the status handed to `res.status` is `err.status` when truthy, else 500 with 'Internal Server Error' |
| `ErrorHandlers.ErrorChainValidStatus` | src/controllers/errors.ts:9-10 | an error whose `status` is a number from 100 to 999 is answered with exactly that status |
| `ErrorHandlers.ApplicationErrorVerbatim` | src/controllers/errors.ts:9-10 | an error `{status, msg}` with truthy status and non-empty msg is answered with exactly that status and msg |
| `ErrorHandlers.DefaultMessage` | src/controllers/errors.ts:10 | a truthy status with a falsy or missing `msg` is answered with 'Bad request' |
| `ErrorHandlers.UnmatchedRoute` | src/app.ts:14-16 | an unmatched route is answered 404 `{msg:'Route not found'}` |
| `ErrorHandlers.StoreErrorIs500` | src/controllers/errors.ts:9-13 | any error object with a `code` and no truthy `status` is forwarded unchanged and ends as the 500 reply |
| `Sorted.AdjacentOrderedIsOrdered` | src/utils/sorted.ts:5-10 | no adjacent pair out of order iff every earlier key is >= (descending) or <= (ascending) every later one |
| `Sorted.BothDirectionsIffConstant` | src/utils/sorted.ts:6 | a sequence passes in both directions iff all its keys are equal, so equal neighbours never fail |
| `Sorted.IsSorted` | src/utils/sorted.ts:1-11 | true for length 0 or 1; true iff no adjacent pair is out of order, iff the key column is globally ordered in the chosen direction |
| `SeedUtils.NewDate` | src/db/seeds/utils.ts:12 | `new Date(v)` is a truthy Date, and a Date built from a Date is that Date |
| `SeedUtils.ConvertTimestampToDate` | src/db/seeds/utils.ts:7-13 | a falsy `created_at` is dropped, a truthy one becomes a Date of it, all other keys are unchanged |
| `SeedUtils.ConvertIdempotent` | src/db/seeds/utils.ts:7-13 | converting a converted record changes nothing |
| `JsValues.NatToStringInjective` | src/db/seeds/utils.ts:17 | different natural numbers have different decimal key strings |
| `JsValues.IntegerKeysDistinct` | src/db/seeds/utils.ts:17 | two integers give the same property key only if they are equal, so distinct numeric ids are filed apart |
| `SeedUtils.RefAfterKeys` | src/db/seeds/utils.ts:15-20 | the reducer's table has exactly the elements' keys |
| `SeedUtils.RefAfterLastWins` | src/db/seeds/utils.ts:16-18 | of elements sharing a key, the last one's value is in the table |
| `SeedUtils.CreateRef` | src/db/seeds/utils.ts:15-20 | the table's keys are exactly the elements' `key` values (none for an empty array), each holding the `value` of the last element with that key |
| `SeedUtils.FormatComment` | src/db/seeds/utils.ts:23-29 | drops `created_by` and `belongs_to`; `article_id` and `author` come from the comment when it has them, else from `idLookup[belongs_to]` (undefined when not filed) and `created_by`; `created_at` converted; other keys unchanged |
| `SeedUtils.FormatComments` | src/db/seeds/utils.ts:22-31 | same length and order, each element the formatted comment |
| `SeedUtils.CreatedByCommentResolved` | src/db/seeds/utils.ts:22-31 | a comment in the `created_by`/`belongs_to` form (no own `author` or `article_id`) whose title is filed gets that article's id and its `created_by` as author |
| `SeedUtils.TypedCommentKeepsOwnFields` | src/db/seeds/utils.ts:22-31 | a comment with its own `author`, as the declared `Comment` type requires, keeps that author, and keeps its own `article_id` when it has one |
| `Auth.Split` | src/auth/index.ts:69 | `split(' ')` gives at least one piece, no piece contains the separator, a string without it is one piece and a string with it at least two |
| `Auth.JoinSplit` | src/auth/index.ts:69 | joining the pieces gives back the header |
| `Auth.SplitJoin` | src/auth/index.ts:69 | splitting joined separator-free pieces gives back the pieces |
| `Auth.SplitPrefix` | src/auth/index.ts:69 | splitting `p + ' ' + t` puts `p` in front of the pieces of `t` |
| `Auth.TokenFromHeader` | src/auth/index.ts:69 | the token is undefined exactly when the header has no space, and a string otherwise |
| `Auth.TokenAfterPrefix` | src/auth/index.ts:69 | for any scheme word `p` without a space, `p + ' ' + t` yields the first space-separated piece of `t` (so `Basic x` gives `x` and two spaces give `''`) |
| `Auth.BearerToken` | src/auth/index.ts:69 | `Bearer <t>` yields `t` for any `t` without a space |
| `Auth.VerifyToken` | src/auth/index.ts:33-41 | never throws: the decoded payload, or null when verification throws |
| `Auth.GetUserWithPasswordByUsername` | src/auth/index.ts:14-22 | the first row, none when there are no rows, and an exception exactly when the query throws |
| `Auth.IsAuthorised` | src/auth/index.ts:61-87 | no header gives 403 `{msg:'No token provided'}`; a null decode gives 403 'Failed to authenticate token'; a decoded username with no user row gives 403 'User not found'; `next` is called iff header, decode and user row are all there, with exactly that user attached; 500 iff the user query throws |
| `Auth.NoHeaderConsultsNothing` | src/auth/index.ts:63-67 | without a header the outcome does not depend on the verifier or the query |
| `Auth.BadTokenConsultsNoQuery` | src/auth/index.ts:71-74 | a token that does not decode is rejected 403 whatever the query would do |
| `Auth.HeaderWithoutSpace` | src/auth/index.ts:69-74 | a header with no space passes undefined to the verifier and is rejected when that throws |
| `Auth.RejectStatuses` | src/auth/index.ts:61-87 | every rejection is a 403 or the 500 'Server error' |
| `Auth.UserFromRequest` | src/auth/index.ts:104-110 | throws iff no user is attached, else returns the attached user unchanged |
| `Auth.AuthorisedUserIsLookedUp` | src/auth/index.ts:76-82 | after a successful isAuthorised, userFromRequest returns the user row found for the token's username |
| `Auth.Login` | src/auth/index.ts:89-103 | an unknown user gets 401 'Invalid credentials', and so does a wrong password; a 200 `{token}` iff the user exists, the password compares true and signing succeeds, the token signing the found user's payload; no reply iff the query, the compare or (after a match) the signing throws |
| `Auth.LoginFailuresAlike` | src/auth/index.ts:92-99 | an unknown user and a wrong password get the identical 401 |
| `Auth.TokenPayload` | src/auth/index.ts:26 | the signed payload is an object whose only key is `username`, holding the user's username |
| `Auth.TokenPayloadOnlyUsername` | src/auth/index.ts:24-31 | two users get the same payload iff their usernames agree |
| `Auth.LoginSignsUsernameOnly` | src/auth/index.ts:24-31 | the issued token signs a payload whose only key is `username` |

## Left out

- The model files (`src/models/*.model.ts`) and every SQL statement: joins, ordering, defaults and constraints belong to Postgres.
- Filter, sort and pagination query building, the database-error-code → 400 mapping, vote increments and comment-ownership deletes: none of them exists in the service's code (`src/`). `getAllArticles` takes no parameters, and the routes import vote and delete handlers that the controllers do not define.
- `jwt.sign`, `jwt.verify`, `bcrypt.hash` and `bcrypt.compare` are foreign library calls. They are parameters that return or throw. `hashPassword` has no caller among the modelled operations.
- Environment loading (dotenv, `process.env.SECRET`), the connection pool, the seeding scripts, the data files, the router and controller wiring, and `listen`. These are configuration and I/O.
- Console logging, including the `console.log` in `isComment`.
- Auth.Login: when an exception escapes the async handler (query, compare or sign throws), the model says only that no reply is sent (`NoReply`). What Express and Node then do with the unhandled rejection is not modelled.
- Auth.IsAuthorised: in the model only the user query can throw, so it is the only path to the 500 reply. A throwing `res.send` or `next` is not modelled.
- Sorted.IsSorted: key values are integers. This covers numbers, and also the `created_at` timestamps the tests sort on: they arrive as ISO 8601 strings of one fixed format, whose string order is their time order, so they are modelled by their time values. JavaScript's `<` on strings, on mixed types and on undefined keys is not modelled, and neither are records given as generic objects.
- JsValues.PropertyKey: a Date used as an object key becomes a string that depends on the host's time zone. The model names it after the value the Date was built from. This case arises where createRef files an element under `element[key]` and where formatComments looks up `belongs_to`; the seed data uses string titles in both places.
- JsValues.Prop: reads on primitives and Dates give undefined (a string's `length`, say, is not modelled), and the prototype chain is not consulted by reads or by `in`. The fixed keys the source reads or tests name no prototype member.
- SeedUtils.FormatComment and SeedUtils.CreateRef: keys chosen by the data (`belongs_to`, `element[key]`, `element[value]`) that name an Object.prototype member are not modelled. In JavaScript, `idLookup['constructor']` yields Object's constructor function, where the model yields undefined.
- The JsValue datatype has no arrays, functions, symbols or non-integer numbers (NaN, fractions). `Num` is an unbounded integer, so rounding above 2^53 is not modelled. JavaScript writes numbers of 10^21 and above in exponent form (`"1e+21"`) when they become keys; `PropertyKey` writes all their digits. A Date is an opaque wrapper of the value it was built from, with no date arithmetic.
- Object key order is not modelled (objects are maps), and neither is the special `__proto__` key.
- ErrorHandlers.ErrorChain and ErrorHandlers.ErrorChainStatus: falsy `next` arguments are not modelled as Express routes them. Express calls error handlers only for a truthy argument to `next`, and treats `'route'` and `'router'` as routing signals. After `next(undefined)`, `next(null)`, `next(false)`, `next(0)` or `next('')`, the request goes on to the `app.all('/*')` catch-all and gets 404 'Route not found'. For those values the model's answer (a throw or forward, then 500) is what the two handlers give when called directly.
- ErrorHandlers.ErrorChain and ErrorHandlers.ErrorChainStatus: `Reply.status` is the argument handed to `res.status`. Node refuses a status outside 100-999 after integer conversion (`true`, `'abc'`, `1000`): `send` then throws, and Express passes that exception to handle500s, so the client gets 500 'Internal Server Error'. That refusal is not modelled; ErrorChainValidStatus states the in-range numeric case.
- Express behaviour the handlers rely on is assumed, not modelled: the error chain's order, and that an exception thrown in an error handler reaches the next error handler.
