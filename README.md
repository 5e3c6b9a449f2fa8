# AINewsBack phone authentication, modelled in Dafny

This project models the phone-number authentication core of the AINewsBack
backend: verification codes kept in Redis and announced through a DingTalk
robot, salted MD5 passwords, the user table and its repository, the user
service (password login, code login with automatic registration) and the JWT
middleware that guards every route outside an exclusion list.

Layout, one module per source file plus two shared ones:

- `common.dfy` — `Common` (Option, decimal text, first-occurrence splitting,
  substrings) and `Alphabets` (the character sets Python's `string` module
  provides, and drawing characters from them).
- `code_generator.dfy` — `CodeGenerator` (`utils/code_generator.py`).
- `password.dfy` — `Password` (`utils/password.py`).
- `models.dfy` — `Models` (the `ApUser` record, `setattr`) and `Tables`
  (`first()`, filtering, `offset`/`limit` over the rows as the database hands
  them back; their order is the model's choice, see Left out).
- `repository.dfy` — `BaseRepository`, a class holding the table's rows and its
  next id (`repositories/base.py`).
- `user_repository.dfy` — `UserRepository` (`repositories/user_repository.py`).
- `dingtalk_robot.dfy` — `DingTalk` (`utils/dingtalk_robot.py`).
- `ttl_store.dfy` — `TtlStore`: the six Redis commands the service uses (GET,
  TTL, SETEX, DEL, INCR, EXPIRE) over a map of strings with expiry times and a
  clock.
- `verification.dfy` — `Verification` (`services/verification.py`), the keys,
  each method as a function over the keyspace, and a class `VerificationService`
  whose methods run those functions against a `TtlStore.Store`.
- `user_service.dfy` — `UserService` (`services/user_service.py`).
- `auth_middleware.dfy` — `AuthMiddleware` (`middleware/auth_middleware.py`).

What the environment supplies is passed in:

- Random draws (`random.randint`, `random.choices`, `secrets.choice`,
  `secrets.token_hex`) are sequences of indices or bytes.
- MD5 is a function parameter `digest`. `IsMd5Shaped` says it yields 32
  lower-case hex digits, and `Injective` is the collision-freedom assumption
  under which a wrong password is refused.
- `JWTUtils.create_token` is a parameter `sign`. `JWTUtils.verify_token` is a
  parameter `verify` returning `None` where it raises `ValueError`.
- The DingTalk reply is a `Response` value: a JSON reply, a timeout, or any
  other exception with its text. The HMAC signature is a `Signature` value.
- The clock is the store's `now`, in whole seconds.

## Model

| member | source | states |
|---|---|---|
| `CodeGenerator.GenerateNumericCode` | ainewsback/utils/code_generator.py:11-14 | the code has the given length, or CODE_LENGTH when the length is missing or 0, and each character is the decimal digit drawn for its position |
| `CodeGenerator.AlphanumericAlphabetFacts` | ainewsback/utils/code_generator.py:19-22 | the alphabet left after removing O, 0, I and 1 has 32 symbols, exactly the upper-case letters and digits other than those four |
| `CodeGenerator.GenerateAlphanumericCode` | ainewsback/utils/code_generator.py:17-23 | `length` characters, each an upper-case letter or digit and none of O, 0, I, 1 |
| `CodeGenerator.GenerateMixedCode` | ainewsback/utils/code_generator.py:26-29 | `length` characters, each an ASCII letter or digit |
| `Password.HexRoundTrip` | ainewsback/utils/password.py:22 | decoding the hex text of a byte string gives the bytes back |
| `Password.GenerateSalt` | ainewsback/utils/password.py:11-22 | a negative length is refused; otherwise 2 * (length // 2) hex digits that decode to the drawn bytes |
| `Password.HashPassword` | ainewsback/utils/password.py:25-41 | with an MD5-shaped digest the hash is 32 hex digits |
| `Password.HashSeesConcatenation` | ainewsback/utils/password.py:37-41 | the hash depends only on password + salt, so different splits of the same text hash alike |
| `Password.CreatePassword` | ainewsback/utils/password.py:44-57 | the salt is 16 hex digits encoding the drawn bytes; with an MD5-shaped digest the hash has 32 characters |
| `Password.CreateThenVerify` | ainewsback/utils/password.py:55-76 | a password verifies against the hash and salt that create_password made for it |
| `Password.VerifyPassword` | ainewsback/utils/password.py:60-76 | true exactly when the digest of the candidate plus the stored salt equals the stored hash; with an MD5-shaped digest a stored hash that is not 32 characters long never matches |
| `Password.OtherPasswordFails` | ainewsback/utils/password.py:73-76 | with a collision-free digest, any other password fails against that hash and salt |
| `Password.GenerateRandomPassword` | ainewsback/utils/password.py:79-92 | `length` characters, each an ASCII letter or digit |
| `Models.NewUser` | ainewsback/models/user.py:36-110 | a fresh ApUser has no id, normal status and flag, and the given name, phone, hash and salt |
| `Models.SetAttr` | ainewsback/repositories/base.py:34-36 | setattr changes exactly the named column, the id included when the key is "id", and no other |
| `Models.SameAttributes` | ainewsback/models/user.py:36-110 | two users whose columns, the id among them, all agree are the same record |
| `Tables.First` | ainewsback/repositories/user_repository.py:15 | None exactly when no row matches; otherwise the earliest matching row |
| `Tables.FirstAppend` | ainewsback/repositories/user_repository.py:14-15 | after appending a row, the earlier first match is kept; with none, the new row is the match exactly when it matches |
| `Tables.Filter` | ainewsback/repositories/user_repository.py:25-27 | the kept rows are exactly the table rows that match, and all of them are kept exactly when every row matches |
| `Tables.FilterAppend` | ainewsback/repositories/user_repository.py:25-27 | one more row at the end of the row sequence keeps the earlier matches and adds that row at their end exactly when it matches, so the matches keep the rows' order, each as often as it occurs |
| `Tables.Page` | ainewsback/repositories/base.py:22 | offset then limit: at most `limit` rows, namely the rows from position `skip` onward |
| `BaseRepository.RemoveRow` | ainewsback/repositories/base.py:42-49 | removing the row with a given id keeps ids unique and removes only that row |
| `BaseRepository.SetAttributes` | ainewsback/repositories/base.py:34-36 | every column given a non-None value takes it, the id when "id" is given; every other column keeps its value; with only None values the record is unchanged |
| `BaseRepository.ReplaceRow` | ainewsback/repositories/base.py:37-40 | writing the record back replaces only the row with its old id; when its new id is free the table keeps its length and its ids stay unique |
| `BaseRepository.Repository.GetFindsUnique` | ainewsback/repositories/base.py:16-18 | with unique ids, get(id) returns the row holding that id |
| `BaseRepository.Repository.constructor` | ainewsback/repositories/base.py:12-14 | a new repository has an empty table |
| `BaseRepository.Repository.Get` | ainewsback/repositories/base.py:16-18 | the row with that id, or None exactly when no row has it |
| `BaseRepository.Repository.GetAll` | ainewsback/repositories/base.py:20-23 | refused exactly when the offset or limit is negative; otherwise at most `limit` rows in the model's row order, starting at row `skip` |
| `BaseRepository.Repository.Create` | ainewsback/repositories/base.py:25-30 | the id sequence advances; the commit fails and nothing is stored exactly when a row already holds the drawn id; otherwise the record gets that id, is appended, and get finds it |
| `BaseRepository.Repository.Update` | ainewsback/repositories/base.py:32-40 | the commit fails, leaving the table as it was, exactly when a new "id" is held by another row; otherwise every column given a non-None value takes it, the others are kept, and only that row changes |
| `BaseRepository.Repository.Delete` | ainewsback/repositories/base.py:42-49 | true exactly when the id was present; then exactly that one row is cut out and the other rows stay in their order, otherwise nothing changes; afterwards no row has the id |
| `UserRepository.GetByPhone` | ainewsback/repositories/user_repository.py:12-15 | a row with that phone, or None exactly when no row has it |
| `UserRepository.GetByPhoneAppend` | ainewsback/repositories/user_repository.py:12-15 | after appending a row, the phone's earlier match is kept; with no earlier match, the new row is found exactly when it has that phone |
| `UserRepository.GetByName` | ainewsback/repositories/user_repository.py:17-20 | a row with that name, or None exactly when no row has it |
| `UserRepository.Matching` | ainewsback/repositories/user_repository.py:25-27 | the matches are table rows whose name contains the keyword, and every such row is among them |
| `UserRepository.MatchingAppend` | ainewsback/repositories/user_repository.py:25-27 | a row added at the end of the table joins the matches, at their end, exactly when its name contains the keyword |
| `UserRepository.SearchUsers` | ainewsback/repositories/user_repository.py:22-29 | refused exactly when the offset or limit is negative; otherwise the matches from position `skip` on, as many as fit in `limit`, in the model's row order, each a row whose name contains the keyword |
| `UserRepository.SearchUsersWindow` | ainewsback/repositories/user_repository.py:22-29 | every match whose position lies in [skip, skip + limit) is returned, at that position less skip |
| `UserRepository.NamesOfMatches` | ainewsback/repositories/user_repository.py:25-27 | the names of the matching rows are the names of the rows filtered by the keyword test, so they depend on the names alone |
| `UserRepository.FilterSeesOnlyNames` | ainewsback/repositories/user_repository.py:25-27 | which rows the search keeps depends only on their names |
| `UserRepository.PageSeesOnlyNames` | ainewsback/repositories/user_repository.py:28 | offset and limit over two lists with the same names give windows with the same names |
| `UserRepository.SearchSeesOnlyNames` | ainewsback/repositories/user_repository.py:25-28 | tables with the same names give searches with the same names |
| `DingTalk.SignedUrl` | ainewsback/utils/dingtalk_robot.py:25-43 | without a secret the webhook URL itself; with one, that URL followed by the timestamp and sign parameters |
| `DingTalk.Classify` | ainewsback/utils/dingtalk_robot.py:113-124 | success exactly when the reply's errcode equals 0; otherwise the errmsg, the timeout text or the exception text |
| `DingTalk.SendRequest` | ainewsback/utils/dingtalk_robot.py:100-124 | the payload goes unchanged to the signed URL, which is the bare webhook URL without a secret; delivered exactly when the reply's errcode equals 0; the outcome and message are the reply's classification (success message, errmsg, timeout or exception text) |
| `DingTalk.SendText` | ainewsback/utils/dingtalk_robot.py:45-69 | a text payload with the content and the mentions (none when not given), answered as the reply is classified |
| `DingTalk.SendMarkdown` | ainewsback/utils/dingtalk_robot.py:71-98 | a markdown payload with the title, text and mentions, answered as the reply is classified |
| `DingTalk.SceneLabel` | ainewsback/utils/dingtalk_robot.py:149-155 | the label of a known scene, and the fallback label exactly for unknown scenes |
| `DingTalk.FourPieces` | ainewsback/utils/dingtalk_robot.py:158 | every value interpolated into a four-field message occurs in it |
| `DingTalk.TextContentMentions` | ainewsback/utils/dingtalk_robot.py:158 | the text notice contains the phone, the code, the scene's label and the lifetime in minutes |
| `DingTalk.MarkdownContentMentions` | ainewsback/utils/dingtalk_robot.py:173-179 | the markdown notice contains the phone, the code, the scene's label and the lifetime in minutes |
| `DingTalk.SendVerificationCode` | ainewsback/utils/dingtalk_robot.py:136-160 | a text notice with no mentions that carries the phone, code, scene and lifetime |
| `DingTalk.SendMarkdownCode` | ainewsback/utils/dingtalk_robot.py:162-179 | a markdown notice under the fixed title that carries the phone, code, scene and lifetime |
| `TtlStore.Remaining` | ainewsback/services/verification.py:36 | TTL: -2 exactly for a key that is not live, -1 exactly for one without expiry, else the positive seconds left |
| `TtlStore.PutThenRead` | ainewsback/services/verification.py:64 | a SETEX value reads back until its seconds have passed, and its TTL is those seconds |
| `TtlStore.IncrementCounts` | ainewsback/services/verification.py:103 | INCR on a counter reading n makes it read n + 1 and keeps its TTL |
| `TtlStore.IncrementStarts` | ainewsback/services/verification.py:103 | INCR on a key that is not live makes it read "1" with no expiry |
| `TtlStore.ReexpireSetsTtl` | ainewsback/services/verification.py:104 | EXPIRE on a live key keeps its value and sets its TTL |
| `TtlStore.Store.constructor` | ainewsback/services/verification.py:13-14 | an empty keyspace at the given time |
| `TtlStore.Store.SetEx` | ainewsback/services/verification.py:64-66 | the keyspace after SETEX |
| `TtlStore.Store.Delete` | ainewsback/services/verification.py:67 | the key is gone, and the count is 1 exactly when it was live |
| `TtlStore.Store.Incr` | ainewsback/services/verification.py:103 | the keyspace and count after INCR, or no change and no count for a non-integer value |
| `TtlStore.Store.Expire` | ainewsback/services/verification.py:104 | the keyspace and answer after EXPIRE |
| `Verification.CodeKey` | ainewsback/services/verification.py:18-20 | the key starts with "verification:code:" and has room for exactly the scene, a ':' and the phone |
| `Verification.RateKey` | ainewsback/services/verification.py:22-24 | the key is "verification:rate_limit:" followed by exactly the phone, with no scene in it |
| `Verification.AttemptKey` | ainewsback/services/verification.py:26-28 | the key starts with "verification:attempts:" and has room for exactly the scene, a ':' and the phone |
| `Verification.KeyFamiliesDisjoint` | ainewsback/services/verification.py:18-28 | code, rate-limit and attempt keys never collide with one another |
| `Verification.ScopedKeysInjective` | ainewsback/services/verification.py:18-28 | for scenes without ':', two code keys or two attempt keys are equal only for the same phone and scene |
| `Verification.RateCheck` | ainewsback/services/verification.py:30-40 | sending is allowed exactly when the rate key has no positive TTL; when refused, the wait is that TTL |
| `Verification.Issue` | ainewsback/services/verification.py:62-68 | the code key holds the code until now + CODE_EXPIRE_SECONDS, the rate key holds "1" until now + CODE_RATE_LIMIT, the attempt key is gone, and every other key is as it was |
| `Verification.SendStep` | ainewsback/services/verification.py:42-75 | a code is returned exactly on success, and then with the sent message; a notice is posted exactly when the rate check passed, and it carries phone, code, scene and lifetime |
| `Verification.RateLimitedSendChangesNothing` | ainewsback/services/verification.py:49-51 | a refused send changes no key, posts nothing and reports the wait |
| `Verification.IssueWrites` | ainewsback/services/verification.py:62-68 | the pipeline stores the code for CODE_EXPIRE_SECONDS and the rate marker for CODE_RATE_LIMIT, clears the attempts, and leaves every other key alone |
| `Verification.AllowedSendWrites` | ainewsback/services/verification.py:54-75 | an allowed send runs the pipeline whatever the notifier answers, succeeds exactly when the notice was delivered, and otherwise reports the notifier's message |
| `Verification.OneSendBlocksEveryScene` | ainewsback/services/verification.py:35-51 | right after a send, a second send for the same phone in any scene is refused |
| `Verification.Judge` | ainewsback/services/verification.py:86-106 | each branch of verify_code holds exactly under its condition: no code, a counter int() refuses, the cap reached, a match |
| `Verification.VerifyStep` | ainewsback/services/verification.py:77-114 | verify_code with its reads awaited: success only on the live, non-empty stored code, which is then deleted together with the counter; an escaping exception changes nothing and is never TypeError |
| `Verification.VerifyAsWritten` | ainewsback/services/verification.py:87-93 | as written, every call raises TypeError and changes nothing |
| `Verification.CounterParses` | ainewsback/services/verification.py:92-93 | a counter written by INCR is read back by int() as its count |
| `Verification.VerifyWithoutCode` | ainewsback/services/verification.py:87-89 | without a live code the answer is "not found" and nothing changes |
| `Verification.VerifyExhausted` | ainewsback/services/verification.py:95-98 | at the cap the code is deleted and the attempt is refused, even with the right code |
| `Verification.VerifyMismatch` | ainewsback/services/verification.py:100-106 | a wrong code below the cap bumps the counter by one, resets its TTL to CODE_EXPIRE_SECONDS, keeps the code and every other key, and reports the attempts left |
| `Verification.MissCounts` | ainewsback/services/verification.py:100-106 | after a wrong code the counter reads one more and the code is still there |
| `Verification.VerifyMatchIsOneShot` | ainewsback/services/verification.py:108-114 | the right code below the cap succeeds, deletes the code and counter, and the same code then finds nothing |
| `Verification.VerifyLeavesRateLimitAlone` | ainewsback/services/verification.py:77-114 | verifying never touches the rate-limit key |
| `Verification.SentCodeVerifies` | ainewsback/services/verification.py:42-114 | a code just sent verifies at once; the code as written raises TypeError instead |
| `Verification.MissThenMatch` | ainewsback/services/verification.py:87-114 | from a fresh code: a wrong code is refused, the right one succeeds, and the right one again finds nothing |
| `Verification.ExampleSession` | ainewsback/services/verification.py:42-114 | with 300 s, 60 s and 3 attempts: send, a wrong code (2 attempts left), the right code (success), the right code again (not found) |
| `Verification.Run` | ainewsback/services/verification.py:77-114 | a sequence of verify_code calls, each on the keyspace the previous one left, gives one answer per call |
| `Verification.AnswersAt` | ainewsback/services/verification.py:77-114 | the i-th of the answers answerAt(n), answerAt(n + 1), ... is answerAt(n + i) |
| `Verification.RunCounts` | ainewsback/services/verification.py:77-114 | a sequence of calls, each of which moves the keyspace from state k to k + 1 with answer answerAt(k), ends in state n + (number of calls) and answers answerAt(n), answerAt(n + 1), ... in turn |
| `Verification.SubmitMiss` | ainewsback/services/verification.py:100-106 | one wrong code below the cap, as a call: the code stays, the counter goes from k to k + 1, and the answer leaves MAX_VERIFY_ATTEMPTS - k - 1 attempts |
| `Verification.SubmitMissPending` | ainewsback/services/verification.py:100-106 | the same step stated as a move from state k to k + 1 |
| `Verification.SubmitMisses` | ainewsback/services/verification.py:100-106 | every wrong code below the cap is such a move |
| `Verification.MissesRun` | ainewsback/services/verification.py:91-106 | wrong codes from a fresh code: the code stays, the counter ends at their number, and they answer with 1, 2, ... attempts used |
| `Verification.MissAnswersAt` | ainewsback/services/verification.py:105-106 | the i-th of those answers leaves MAX_VERIFY_ATTEMPTS - i - 1 attempts |
| `Verification.LockOut` | ainewsback/services/verification.py:91-106 | for any cap: from a fresh code, MAX_VERIFY_ATTEMPTS wrong codes are each refused, the i-th with MAX_VERIFY_ATTEMPTS - i - 1 attempts left; the right code after them is refused as too many attempts and exactly the code key is deleted |
| `Verification.ExhaustionSession` | ainewsback/services/verification.py:42-106 | for any cap: after a send, MAX_VERIFY_ATTEMPTS wrong codes count down the attempts left, then the right code is refused as too many attempts and the code is gone |
| `Verification.CodeInfoOf` | ainewsback/services/verification.py:116-130 | a record exactly when a non-empty code is live, holding that code, its TTL as the TTL command reports it (-1 or positive), the phone and the scene |
| `Verification.CodeInfoAsWritten` | ainewsback/services/verification.py:119-129 | as written, a record of two coroutines comes back for every phone |
| `Verification.CodeInfoForMissingCode` | ainewsback/services/verification.py:119-130 | for a phone with no code, as written a record, as intended None |
| `Verification.VerificationService.constructor` | ainewsback/services/verification.py:13-16 | the service over the given store, settings and robot |
| `Verification.VerificationService.CheckRateLimit` | ainewsback/services/verification.py:30-40 | allowed exactly when the live store has no rate marker with an expiry; when refused, the wait is positive and ends when the marker expires |
| `Verification.VerificationService.GetCodeInfo` | ainewsback/services/verification.py:116-130 | a record exactly while a non-empty code is live in the store, holding that code, its TTL in the store, the phone and the scene; the same as CodeInfoOf on the store |
| `Verification.VerificationService.SendCode` | ainewsback/services/verification.py:42-75 | the answer and the new keyspace are those of SendStep on a numeric code from the draws |
| `Verification.VerificationService.VerifyCode` | ainewsback/services/verification.py:77-114 | the answer and the new keyspace are those of verify_code with its reads awaited |
| `UserService.DefaultUser` | ainewsback/services/user_service.py:25-38 | the name is "user_" plus 6 letters or digits, the salt has 16 characters, and the generated password verifies against the stored hash |
| `UserService.PasswordLogin` | ainewsback/services/user_service.py:40-57 | unknown phone, then wrong password, are refused with their messages; a known phone with a verifying password gets that user and a token signed for its id, with an empty error |
| `UserService.DefaultUserCanLogIn` | ainewsback/services/user_service.py:25-57 | an account made by create_user_default logs in with its generated password |
| `UserService.SendVerificationCode` | ainewsback/services/user_service.py:76-86 | accepted exactly when the phone has at least 11 characters |
| `UserService.UserService.constructor` | ainewsback/services/user_service.py:14-15 | the service over the given repository, digest and signer |
| `UserService.UserService.GetUserById` | ainewsback/services/user_service.py:17-19 | a stored user with that id, or None exactly when no row has it |
| `UserService.UserService.GetUserByPhone` | ainewsback/services/user_service.py:21-23 | a stored user with that phone, or None exactly when no row has it |
| `UserService.UserService.AuthenticateByPassword` | ainewsback/services/user_service.py:40-57 | PasswordLogin on the stored rows: "用户不存在" exactly when no stored user has the phone; the wrong-password refusal for a known phone; a known phone with a verifying password gets that user and a token signed for its id |
| `UserService.UserService.CreateUserDefault` | ainewsback/services/user_service.py:25-38 | the default record is stored with the next id, or the commit fails and nothing is stored exactly when a row already holds that id |
| `UserService.UserService.AuthenticateByCode` | ainewsback/services/user_service.py:59-74 | a known phone's user, or a new default user appended for an unknown phone; either way get_by_phone then finds it, and the token is for its id; nothing comes back and nothing is stored exactly when creating the user fails |
| `AuthMiddleware.Patterns` | ainewsback/middleware/auth_middleware.py:23-31 | no list or an empty list means the six default patterns |
| `AuthMiddleware.ExactOfPartitions` | ainewsback/middleware/auth_middleware.py:36-40 | a path is an exact exclusion exactly when it is a pattern not ending in "*" |
| `AuthMiddleware.PrefixesOfPartitions` | ainewsback/middleware/auth_middleware.py:36-40 | a prefix exclusion is exactly a "*" pattern without its "*" |
| `AuthMiddleware.Excluded` | ainewsback/middleware/auth_middleware.py:42-45 | excluded exactly when the path is an exact exclusion or starts with some prefix |
| `AuthMiddleware.AnyPrefix` | ainewsback/middleware/auth_middleware.py:45 | true exactly when the path starts with some prefix |
| `AuthMiddleware.CollectOne` | ainewsback/middleware/auth_middleware.py:36-40 | one more pattern adds its prefix or its exact path after those before it |
| `AuthMiddleware.CollectNext` | ainewsback/middleware/auth_middleware.py:36-40 | one more turn of the loop adds the next pattern's prefix or exact path |
| `AuthMiddleware.DefaultPrefixes` | ainewsback/middleware/auth_middleware.py:23-40 | the defaults give the single prefix "/user/api/v1/login/" |
| `AuthMiddleware.DefaultExactPaths` | ainewsback/middleware/auth_middleware.py:23-40 | the defaults give the exact paths "/", "/info", "/docs", "/redoc", "/openapi.json" |
| `AuthMiddleware.DefaultExclusions` | ainewsback/middleware/auth_middleware.py:42-45 | under the defaults "/docs" and login routes pass, "/docs/x" and "/user/api/v1/info" do not |
| `AuthMiddleware.Partition` | ainewsback/middleware/auth_middleware.py:59 | str.partition(" "): the text before the first space and the rest, or the whole text and "" |
| `AuthMiddleware.BearerSpellings` | ainewsback/middleware/auth_middleware.py:60 | any letter case of "bearer" is accepted, other schemes are not |
| `AuthMiddleware.Decide` | ainewsback/middleware/auth_middleware.py:47-76 | pass-through exactly for excluded paths; each 401 exactly under its condition; proceeding exactly with a verified bearer token, carrying its payload |
| `AuthMiddleware.BearerHeaderReachesVerifier` | ainewsback/middleware/auth_middleware.py:59-67 | on a guarded path, "<bearer> <token>" hands exactly the token to the verifier |
| `AuthMiddleware.AuthMiddleware.constructor` | ainewsback/middleware/auth_middleware.py:14-40 | the prefix list and the exact set are those split from the effective patterns |
| `AuthMiddleware.AuthMiddleware.IsExcluded` | ainewsback/middleware/auth_middleware.py:42-45 | true exactly when the path is one of the stored exact paths or starts with one of the stored prefixes |
| `AuthMiddleware.AuthMiddleware.Dispatch` | ainewsback/middleware/auth_middleware.py:47-76 | an excluded path passes untouched; a guarded path is refused with 401 or proceeds, and only with the payload the verifier returns for a bearer token; the decision is Decide on the stored exclusions |
| `Common.ParseNatToString` | ainewsback/services/verification.py:93 | int() reads a decimal count back as that count |
| `Common.SplitAtFirst` | ainewsback/middleware/auth_middleware.py:59 | text split at the first occurrence of a character that the left part does not contain determines both parts |

## Left out

- JWT internals are not part of this model. `jwt.encode` and `jwt.decode`, the claims, expiry and signature checks, and the issuer/audience settings (`utils/jwt.py`) are behind the `sign` and `verify` parameters. Those two parameters stand for a correctly configured JWT module, which the repository does not have (next four lines).
- `UserService.PasswordLogin`: `utils/jwt.py:3` imports `settings` from `ainewsback/config.py`, whose Settings has no SECRET_KEY, ALGORITHM, ACCESS_TOKEN_EXPIRE_MINUTES, CURRENT_ISSUER, TOKEN_AUDIENCE or ACCESS_TOKEN_ISSUER (only `core/config.py` has them). So `create_token` raises AttributeError, and every login that reaches it fails. The model's total `sign` does not show this.
- `UserService.UserService.AuthenticateByCode`: the same AttributeError from `create_token` ends every code login after the user is found or created. The model returns the token from `sign`.
- `AuthMiddleware.Decide`: `create_token` writes iss=CURRENT_ISSUER and aud=TOKEN_AUDIENCE (`utils/jwt.py:16-17`), but `verify_token` expects issuer ACCESS_TOKEN_ISSUER and audience CURRENT_ISSUER (`utils/jwt.py:37-38`). A token the service mints would not pass its own verifier. The `verify` parameter is not tied to `sign`.
- `UserService.SendVerificationCode`: the route at `api/v1/user/login.py:38` awaits the plain bool this method returns, which raises TypeError. Routes are not part of this model.
- `api/v1/base/root.py:8` holds a `fake_verification_codes` dictionary that nothing uses; it is not part of this model.
- The HMAC-SHA256, base64 and URL quoting of the DingTalk signature, and the millisecond clock behind it, are a `Signature` value.
- The HTTP POST to DingTalk is a `Response` value. A reply that is JSON but not an object is not modelled.
- `DingTalk.Classify`: the error text is the reply's `errmsg` as a string. `str()` of a non-string `errmsg` is not modelled. The "未知错误" default applies only when the key is missing, as `dict.get` does.
- The Redis connection, its pool, and connection errors are not modelled. Pipelines and concurrent requests are modelled as single sequential steps.
- Configuration loading (`core/config.py`) is not part of this model. The four settings are a `Settings` value.
- Redis values are text: `core/config.py:148` sets `REDIS_DECODE_RESPONSES = True` and `core/reids.py:18` passes it to the client, so GET returns `str`. With bytes, `stored_code != code` would hold for every code.
- `Verification.VerificationService.constructor` requires positive code and rate-limit lifetimes, because SETEX refuses a non-positive TTL. The service with a non-positive lifetime is not modelled.
- `TtlStore.Increment`: it does not model a stored negative numeral or the 64-bit range of Redis counters. Counters start from INCR, so they are never negative in this service.
- `Common.ParseNat` accepts digits only. Python's `int()` also takes surrounding whitespace, a sign and underscores; the counters the service writes contain none of these.
- `UserRepository.SearchUsers`: `%` and `_` in the keyword are matched literally, not as SQL LIKE wildcards. Both sides of the source's `|` are the same test, so it is modelled once.
- `Tables.First`, `Tables.Page`, `BaseRepository.Repository.GetAll`, `BaseRepository.Repository.Update`, `UserRepository.GetByPhone` and `UserRepository.SearchUsers`: the row sequence's order is the model's choice. The queries have no ORDER BY, so PostgreSQL fixes only which rows match, not their order, and an UPDATE writes a new row version that can move in a scan. `first()` may return any matching row and a page any window of some order. The model keeps rows where they were and reads them front to back.
- Column length limits and the SQL schema of `ApUser` are not modelled. `created_time` is a whole number.
- `Models.SetAttr` requires a value of the column's type. setattr on a table model stores any value, and whether the database then converts or refuses it depends on the value; that is not modelled.
- `BaseRepository.SetAttributes` requires values of the columns' types, for the same reason as `Models.SetAttr`.
- `BaseRepository.Repository.Update` requires values of the columns' types, for the same reason as `Models.SetAttr`. A dictionary key that is not a column of ApUser is not modelled either: `Field` lists the columns only.
- `BaseRepository.Repository.Create` requires a record without an id. The database assigns ids, and the service never creates a record with one.
- `AuthMiddleware.Patterns`: `exclude_paths` is a sequence. Other iterables and one-shot iterators are not modelled.
- `AuthMiddleware.AsciiLower` lower-cases ASCII letters only, where Python lower-cases all of Unicode. Accepting "bearer" is the same either way.
- FastAPI routing, the request and response objects, and the `resp` envelope are not modelled. A rejection is its status and message.
- The password-utility tests expect a 64-character hash and a 32-character salt. The code produces 32 and 16, and the model follows the code.
- `UserService.UserService.AuthenticateByCode` does not check the code. The source leaves that check as a TODO, and the model follows the code, although a code login is meant to verify the code.

## Findings

| source | as written | input that shows it | evidently intended | confidence | as-written member | corrected member |
|---|---|---|---|---|---|---|
| ainewsback/services/verification.py:87-93 | `verify_code` calls `self.redis.get` without `await`. The stored code is a coroutine, which is always truthy. `int()` of the second coroutine then raises TypeError. | any call, e.g. right after `send_code` succeeded for that phone and scene | both reads awaited, so a just-sent code verifies | not executed | `Verification.VerifyAsWritten` (shown by `Verification.SentCodeVerifies`) | `Verification.VerifyStep` (proved in `Verification.SentCodeVerifies`, `Verification.VerifyMatchIsOneShot`) |
| ainewsback/services/verification.py:119-123 | `get_code_info` reads the code and TTL without `await`. A coroutine is truthy, so a record comes back for any phone. | a phone that never received a code | None when no code is live; otherwise the code and its TTL | not executed | `Verification.CodeInfoAsWritten` (shown by `Verification.CodeInfoForMissingCode`) | `Verification.CodeInfoOf` |
