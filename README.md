# go-web3-wallet-backend: a Dafny model of its core

This project models the decision logic of an HD-wallet HTTP backend written in Go. The backend stores users, encrypted seed phrases and wallets in PostgreSQL, authenticates with HS256 JSON Web Tokens, and queries EVM chains over JSON-RPC for balances. The modelled pieces are:

- **Unit conversion between wei and ether** (`Conversion`). Decimals are written as coefficient × 10^exponent, as the decimal library represents them. The library's division precision is a parameter.
- **Chain client registry** (`Web3Client`). A class whose `connections` map the fail-fast constructor loop fills. Dialling and the balance RPC are function parameters.
- **Transactional wallet store** (`WalletStore`). A class with committed tables, an explicit transaction (begin, insert seed, link, insert wallet, commit or roll back) and ID sequences. The driver's failures are injected as values.
- **User store** (`UserStore`). The in-memory stand-in the user service runs against.
- **Services**: user registration and login (`UserService`), token issue, validation and refresh (`JwtService`), and the balance query (`WalletService`). Password hashing, the HMAC and the token codec are uninterpreted functions. Time is an input, in whole seconds.
- **Request edge**:
  - the Bearer-token middleware and `GetUserID` (`AuthMiddleware`);
  - the log-level classification (`RequestLogger`);
  - the default middleware chain (`Middlewares`);
  - the response envelope (`Api`);
  - the error-to-status tables of the wallet, user and auth controllers (`WalletController`, `UserController`, `AuthController`).
- **Go errors** (`Errors`). Errors form a tree of sentinels, `%w` wrappers and opaque library errors. `Is` is `errors.Is` against a sentinel.

Every controller takes its request body already decoded (`None` when binding fails) and its service as a function. It returns the HTTP status with the JSON envelope.

## Model

| member | source | states |
|---|---|---|
| Conversion.EthPrecisionIsPow10 | pkg/conversion/conversion.go:11 | the scale is exactly 10^18 wei per ether |
| Conversion.ToWeiExact | pkg/conversion/conversion.go:32-47 | a successful ToWei returns amount × 10^18, exactly |
| Conversion.ToWei | pkg/conversion/conversion.go:32-47 | fails exactly when amount × 10^18 has a fractional part (more than 18 decimals that are not all zero), and then with the "non-integer value" error |
| Conversion.ToWeiKeepsSign | pkg/conversion/conversion.go:32-47 | no sign check: zero converts to zero wei and negative amounts to negative wei |
| Conversion.WeiToEtherIsDivRound | pkg/conversion/conversion.go:15-28 | WeiToEther is the library's half-away-from-zero division of wei by 10^18 at the given precision |
| Conversion.WeiToEther | pkg/conversion/conversion.go:15-28 | the result has `precision` fractional digits and lies within half a unit of that digit of wei / 10^18 |
| Conversion.WeiToEtherExact | pkg/conversion/conversion.go:15-28 | when wei / 10^18 has at most `precision` decimals, the result equals it exactly |
| Conversion.WeiToEtherWholeEther | pkg/conversion/conversion.go:15-28 | a whole number of ether converts exactly at every precision |
| Conversion.RoundTrip | pkg/conversion/conversion.go:15-47 | ToWei(WeiToEther(w)) == w whenever the division keeps enough digits for w, and so for every w at 18 digits or more |
| Conversion.RoundTripLossBelow18 | pkg/conversion/conversion.go:24-26 | below 18 digits, 1 wei converts to 0 ether and back to 0 wei |
| Web3Client.FirstFailure | pkg/web3client/client_manager.go:40-58 | the first config with a URL whose dial fails, with no failure before it; None exactly when no dial fails |
| Web3Client.TableKeys | pkg/web3client/client_manager.go:40-61 | after a successful construction, the table's keys are exactly the chain IDs of the configs with a non-empty URL |
| Web3Client.TableLastWins | pkg/web3client/client_manager.go:74 | a chain's entry is the client dialled for the last config of that chain with a URL |
| Web3Client.SkippedChainAbsent | pkg/web3client/client_manager.go:45-48 | a chain whose configs all lack a URL never appears in the table |
| Web3Client.Lookup | pkg/web3client/client_manager.go:84-88 | lookup succeeds exactly for stored chains with the stored client; otherwise the "chain ID not found" error |
| Web3Client.BalanceOfUnknownChain | pkg/web3client/client_manager.go:92-96 | an unknown chain fails whatever the node would answer, and its error carries no sentinel |
| Web3Client.ClientManager.constructor | pkg/web3client/client_manager.go:35-37 | the table starts empty |
| Web3Client.ClientManager.InitializeClient | pkg/web3client/client_manager.go:65-77 | a successful dial sets only that chain's entry, overwriting any earlier one; a failed dial returns the wrapped cause and leaves the table unchanged |
| Web3Client.ClientManager.GetClient | pkg/web3client/client_manager.go:80-89 | the stored client for a known chain, the not-found error otherwise; the table is not modified |
| Web3Client.ClientManager.GetBalanceByAddress | pkg/web3client/client_manager.go:92-111 | an unknown chain gives the wrapped lookup error without a query; otherwise the node's balance unchanged, or its error with the same sentinels |
| Web3Client.NewClientManager | pkg/web3client/client_manager.go:34-62 | succeeds exactly when no dial fails, and then the table is `Table(configs)`; otherwise the doubly wrapped error of the first failing dial and no manager |
| WalletStore.InsertError | internal/apiserver/store/wallet.go:46-56 | without a driver fault, a wallet insert fails exactly when the address is taken, as `DuplicatedKey` only if the driver translates errors |
| WalletStore.CreateError | internal/apiserver/store/wallet.go:27-64 | CreateWallet succeeds exactly when begin, both inserts and commit succeed and the address is free |
| WalletStore.DuplicateTranslated | internal/apiserver/store/wallet.go:49-53 | with error translation, a taken address gives the distinct "wallet address already exists" error carrying `DuplicatedKey` |
| WalletStore.DuplicateUntranslated | internal/apiserver/store/wallet.go:50-55 | without error translation, a taken address gives the generic "failed to create wallet record" error, which is not `DuplicatedKey` |
| WalletStore.WalletOf | internal/apiserver/store/wallet.go:71-76 | the first wallet in primary-key order owned by the user on the chain; None exactly when there is none |
| WalletStore.WalletAt | internal/apiserver/store/wallet.go:94-97 | a stored wallet at the address; None exactly when the address is free |
| WalletStore.WalletAtUnique | model/wallet.go:18 | since addresses are unique, the wallet found at an address is the one stored there |
| WalletStore.Store.constructor | internal/apiserver/store/wallet.go:27-64 | the store starts idle with empty tables |
| WalletStore.Store.Begin | internal/apiserver/store/wallet.go:29-32 | a failed begin returns the error and opens nothing; otherwise the transaction starts from the committed tables |
| WalletStore.Store.InsertSeed | internal/apiserver/store/wallet.go:35-38 | the seed is appended to the transaction with the next sequence ID, or nothing changes on a fault |
| WalletStore.Store.InsertWallet | internal/apiserver/store/wallet.go:46-56 | the wallet is appended with the next ID unless the driver fails or the address is taken; the error is InsertError's |
| WalletStore.Store.Rollback | internal/apiserver/store/wallet.go:36 | the transaction is discarded and the committed tables are untouched; sequences are not rewound |
| WalletStore.Store.Commit | internal/apiserver/store/wallet.go:59-61 | a successful commit publishes the transaction's tables; a failed one leaves the committed tables unchanged |
| WalletStore.Store.CreateWallet | internal/apiserver/store/wallet.go:27-64 | on success exactly one seed and one wallet are appended and the wallet's MnemonicID is the seed's new ID; on any error both tables are unchanged; the error is CreateError's |
| WalletStore.Store.GetWalletByUserID | internal/apiserver/store/wallet.go:68-86 | the first matching wallet; no match or a not-found error gives (nil, nil); another fault is wrapped; the store is not modified |
| WalletStore.Store.FindEncryptedKeyByAddress | internal/apiserver/store/wallet.go:90-107 | the stored encrypted key at the address; an unknown address or a not-found error gives ""; another fault is wrapped |
| Errors.DomainSentinelsDistinct | internal/apiserver/service/wallet.go:15-25 | the six wallet-domain sentinels are pairwise distinct and none `Is` another |
| Errors.Wrap | internal/apiserver/store/wallet.go:31 | a `%w` wrapper is recognised as exactly the sentinels of its cause |
| Errors.Tag | internal/apiserver/service/user.go:65 | `"%w: ...: %w"` is recognised as its sentinel and as every sentinel of its cause |
| Errors.Annotate | internal/apiserver/service/jwt.go:111 | `"%w: %s"` is recognised as its sentinel only, yet is not that sentinel itself |
| WalletService.GetBalance | internal/apiserver/service/wallet.go:94-105 | a registry balance is converted with WeiToEther; a registry error is returned with the same sentinels |
| WalletService.UnknownChainNotSupportedNever | internal/apiserver/service/wallet.go:96-98 | an unknown chain surfaces as an anonymous wrapped error, never as `ChainNotSupported` |
| WalletService.GetBalanceErrorsFromNode | internal/apiserver/service/wallet.go:96-99 | any sentinel a balance error carries comes from the node's own failure on a known chain |
| WalletService.GetBalanceWholeEther | internal/apiserver/service/wallet.go:101-104 | a whole-ether balance is reported exactly at every precision |
| UserStore.UserNamed | internal/apiserver/store/user.go:32-44 | the first user with the username, None exactly when there is none |
| UserStore.UserNamedUnique | internal/apiserver/store/user.go:32-44 | since usernames are unique, the lookup returns the stored user |
| UserStore.Store.constructor | internal/apiserver/store/user.go:19-22 | the store starts empty |
| UserStore.Store.FindByUsername | internal/apiserver/store/user.go:32-44 | a hit is the stored user with that name; a miss, or a fault that is a not-found, is bare `ErrRecordNotFound`; any other fault is returned as is |
| UserStore.Store.CreateUser | internal/apiserver/store/user.go:26-29 | exactly one user is appended with the next ID, unless the driver fails or the username is taken (unique violation); the invariant is kept |
| UserService.Register | internal/apiserver/service/user.go:55-92 | success exactly when the lookup misses, hashing and the insert succeed; stores the hash, never the password; an existing name is `UserAlreadyExists` with nothing created; lookup and create faults are `StoreOperationFailed` and hash faults `PasswordHashFailed`, each wrapping its cause |
| UserService.Login | internal/apiserver/service/user.go:95-122 | the error is bare `InvalidCredentials` exactly when the lookup fails in any way or the password does not match; every other failure is recognised only as `TokenGenerationFailed` |
| UserService.LoginHidesWhichCheckFailed | internal/apiserver/service/user.go:100-113 | an unknown username and a wrong password give the same `InvalidCredentials` |
| UserService.LoginStoreFailure | internal/apiserver/service/user.go:100-106 | a store failure during the lookup is reported as `InvalidCredentials`, never as `StoreOperationFailed` |
| UserService.LoginSucceedsIff | internal/apiserver/service/user.go:95-122 | login succeeds exactly when the user exists, the password matches its hash and signing works, and then returns the token issued for that user |
| UserService.RegisteredUserCanLogin | internal/apiserver/service/user.go:77-121 | a stored user whose hash came from the password logs in, and the token validates to that user's ID and name |
| UserService.FindUserByUsername | internal/apiserver/service/user.go:125-137 | a success is the stored user with that name |
| UserService.FindUserOutcome | internal/apiserver/service/user.go:128-130 | every failure is exactly `UserNotFound`; without a fault it succeeds exactly when the name is stored |
| JwtService.GenerateToken | internal/apiserver/service/jwt.go:69-91 | succeeds exactly when signing the HS256 claims succeeds; a failure is recognised as `TokenGenerationFailed` only |
| JwtService.TimeErrors | internal/apiserver/service/jwt.go:102-108 | the time checks pass exactly when now is before the expiry and not before not-before; the issue time is not checked |
| JwtService.GeneratedTokenContents | internal/apiserver/service/jwt.go:70-82 | a generated token is HS256 and carries the user's ID and name, the issuer "go-web3-wallet-backend", and expiry = issue time + duration |
| JwtService.GenerateValidateRoundTrip | internal/apiserver/service/jwt.go:69-117 | validating a generated token under the same key before expiry returns exactly the user's ID and name |
| JwtService.GeneratedTokenExpires | internal/apiserver/service/jwt.go:105-107 | from its expiry second on, a generated token gives exactly `TokenInvalidOrExpired` |
| JwtService.LibraryParse | internal/apiserver/service/jwt.go:95-112 | a token is accepted exactly when it parses, names an HMAC algorithm, carries the MAC of its signing input under the key and passes the expiry and not-before checks; it then yields its own claims |
| JwtService.ValidateToken | internal/apiserver/service/jwt.go:94-121 | succeeds exactly when the library accepts the token, returning its user ID and name; every failure is recognised as `TokenInvalidOrExpired` and as no other sentinel |
| JwtService.NonHmacRejected | internal/apiserver/service/jwt.go:95-98 | a non-HMAC token is rejected whatever the MAC computes, with a wrapped error rather than the bare sentinel |
| JwtService.AnyHmacAccepted | internal/apiserver/service/jwt.go:96 | any HMAC variant with a matching signature and valid times is accepted, not only HS256 |
| JwtService.BadSignatureExact | internal/apiserver/service/jwt.go:105-107 | a wrong signature gives exactly `TokenInvalidOrExpired` |
| JwtService.NotYetValidExact | internal/apiserver/service/jwt.go:105-107 | a token before its not-before time gives exactly `TokenInvalidOrExpired` |
| JwtService.FutureIssueAccepted | internal/apiserver/service/jwt.go:114-116 | a token issued in the future is still accepted |
| JwtService.RefreshToken | internal/apiserver/service/jwt.go:124-137 | an invalid token is not refreshed and its validation error is returned as is; any other failure is recognised only as `TokenGenerationFailed` |
| JwtService.RefreshPreservesIdentity | internal/apiserver/service/jwt.go:131-136 | a refreshed token carries the same ID and name and expires one duration after the refresh |
| AuthMiddleware.SplitN2 | internal/pkg/middleware/auth.go:29 | splitting on the first space: one part (the header) when there is no space, else two parts that rejoin to the header |
| AuthMiddleware.BearerSchemeIff | internal/pkg/middleware/auth.go:31 | the scheme test accepts exactly "bearer" with each letter in either case |
| AuthMiddleware.GetUserID | internal/pkg/middleware/auth.go:55-69 | the stored ID exactly when the key holds an unsigned integer, an error otherwise |
| AuthMiddleware.JWTAuth | internal/pkg/middleware/auth.go:20-52 | a request passes exactly when the header is a "bearer" scheme in any case followed by a token the validator accepts, and then carries that token's user ID under "userID"; every rejection is 401 with the unauthorized code |
| AuthMiddleware.EmptyHeaderRejected | internal/pkg/middleware/auth.go:23-27 | an empty header is rejected with the missing-header message, whatever the validator |
| AuthMiddleware.BadSchemeRejected | internal/pkg/middleware/auth.go:29-35 | a header with no space or a non-"bearer" first word is rejected with the format message, whatever the validator |
| AuthMiddleware.BearerTokenValidated | internal/pkg/middleware/auth.go:29-50 | the token is everything after the first space; a valid one stores its user ID under "userID" and continues; an invalid one is 401 |
| AuthMiddleware.PassedRequestHasUserID | internal/pkg/middleware/auth.go:48-69 | after the middleware passes a request, GetUserID returns the validated token's user ID |
| AuthMiddleware.BearerPasses | internal/pkg/middleware/auth.go:29-50 | "Bearer " followed by a valid token passes and stores the claimed user ID |
| AuthMiddleware.IssuedTokenPasses | internal/pkg/middleware/auth.go:20-69 | a token the service issued, presented before expiry, passes and yields the user's ID to handlers |
| RequestLogger.LevelFor | internal/pkg/middleware/logger.go:36-51 | status >= 500 logs at Error; 400 and 404 at Info; other 401-499 at Warn; everything below 400 at Info |
| RequestLogger.RequestID | internal/pkg/middleware/logger.go:30-33 | the request ID is "" when absent and the stored string when present; a non-string value is the failed type assertion |
| Middlewares.DefaultMiddlewares | internal/pkg/middleware/middleware.go:22-49 | starts with Context, Logger, Recovery; CORS exactly when credentials are allowed; Limit exactly when enabled; CORS before Limit; 3 to 5 distinct entries; no auth |
| Middlewares.AuthMiddleware | internal/pkg/middleware/middleware.go:52-58 | a token service gives JWTAuth over that service, and anything else gives the reject-all handler |
| Middlewares.MisconfiguredRejectsAll | internal/pkg/middleware/middleware.go:59-63 | without a token service every request is aborted with 500 and the internal-error code |
| Api.CodesDistinct | api/response.go:9-15 | the defined response codes have pairwise distinct numbers |
| Api.Success | api/response.go:29-39 | code 0 with the data; the message is never empty and is kept when given |
| Api.Error | api/response.go:41-50 | the given status and code, no data; the message is never empty and is kept when given |
| Api.DefaultMessages | api/response.go:31-45 | empty messages become "操作成功" on success and "请求处理失败" on error |
| WalletController.CreateHDWallet | internal/apiserver/controller/wallet.go:54-97 | 201 exactly when the body binds, a user is authenticated and the service creates the wallet; the mnemonic is in the 201 body and in no other |
| WalletController.CreateNeedsUser | internal/apiserver/controller/wallet.go:63-67 | without an authenticated user the answer is 401, whatever the service would do |
| WalletController.CreateOutcome | internal/apiserver/controller/wallet.go:74-96 | `ChainNotSupported` is 400 and other errors 500, both without data; success is 201 with the mnemonic |
| WalletController.TransferError | internal/apiserver/controller/wallet.go:125-151 | for any wrapping: WalletNotFound → 404, else PasswordIncorrect → 401, else chain, amount, balance and gas errors → 400, anything else → 500; never any data |
| WalletController.Transfer | internal/apiserver/controller/wallet.go:100-159 | a body that does not bind is 400 whatever the service does; a service error goes through TransferError; 200 exactly when the service sent the transaction, with its hash and chain ID |
| WalletController.InsufficientFundsSameResponse | internal/apiserver/controller/wallet.go:138-141 | any two errors that match none of the four earlier cases and each carry InsufficientBal or InsufficientGas, however wrapped, get the identical response |
| WalletController.TransferFirstCaseWins | internal/apiserver/controller/wallet.go:125-142 | an error carrying a domain sentinel and none of an earlier case gets exactly that sentinel's response, whatever later sentinels it also carries |
| WalletController.ParseUint64 | internal/apiserver/controller/wallet.go:171-175 | a chain ID is accepted exactly when it is a non-empty string of digits (leading zeros allowed) whose value is below 2^64, and the result is that value |
| WalletController.FormatUintValue | internal/apiserver/controller/wallet.go:171 | the decimal digits of n denote n |
| WalletController.ParseFormatRoundTrip | internal/apiserver/controller/wallet.go:171 | parsing accepts the canonical decimal form of every 64-bit value and returns that value |
| WalletController.SignedChainIDRejected | internal/apiserver/controller/wallet.go:171-175 | a chain ID with a sign is malformed |
| WalletController.GetBalance | internal/apiserver/controller/wallet.go:162-204 | 200 exactly when the address is present, the chain ID parses and the service answers, with the balance for the parsed chain ID; 500 exactly for a service failure other than an unsupported chain |
| WalletController.BalanceBadParameters | internal/apiserver/controller/wallet.go:164-175 | a missing address or chain ID, or a malformed chain ID, is 400 before any service call |
| WalletController.UnknownChainIs500 | internal/apiserver/controller/wallet.go:180-195 | composed with the balance service, an unconfigured chain is 500, never the 400 "unsupported chain" |
| UserController.Register | internal/apiserver/controller/user.go:41-86 | 201 exactly when the body binds and the service registers the user, with only its ID and name; 409 exactly for `UserAlreadyExists` |
| UserController.RegisterBadBody | internal/apiserver/controller/user.go:44-48 | a body that fails binding is 400 without a service call |
| UserController.RegisterOutcome | internal/apiserver/controller/user.go:50-85 | `UserAlreadyExists` → 409; every other error → 500; success → 201 with only the ID and name |
| UserController.GetProfile | internal/apiserver/controller/user.go:90-105 | 200 with the stored user ID exactly when there is one, 401 otherwise |
| AuthController.Login | internal/app/controller/auth.go:35-65 | 200 exactly when the body binds, the login succeeds and the user lookup after it succeeds, with the token, ID and name; 401 exactly when the login itself fails |
| AuthController.LoginFailureUniform | internal/app/controller/auth.go:44-48 | every login failure gives the same 401 response, without the user lookup |
| AuthController.LoginSuccessOutcome | internal/app/controller/auth.go:50-64 | after a successful login a failed user lookup is 500; otherwise 200 with the token, ID and name |
| AuthController.Logout | internal/app/controller/auth.go:68-72 | always 200 with the success code and no data |
| AuthController.StripBearer | internal/app/controller/auth.go:89-91 | the exact prefix "Bearer " is stripped only from headers longer than 7 characters |
| AuthController.Refresh | internal/app/controller/auth.go:75-104 | 400 exactly when there is no token to hand over; 200 exactly when the refresh service renews the token, with the renewed token |
| AuthController.RefreshFromBody | internal/app/controller/auth.go:78-99 | an empty header falls back to the body's token; a body that does not bind is 400 without a refresh; a refused refresh is 401 |
| AuthController.RefreshStripsExactPrefix | internal/app/controller/auth.go:88-103 | "Bearer " + token hands over exactly the token; a refusal is 401 and success returns the new token |
| AuthController.RefreshPrefixCaseSensitive | internal/app/controller/auth.go:89-91 | "bearer T" and the bare "Bearer " are handed over unchanged, unlike the middleware's case-insensitive test |

## Left out

- Key management (mnemonic generation, HD derivation, keystore encryption) is made of library calls. It is not part of this model. The services that need it (`CreateHDWallet`, `Transfer`) are unimplemented in the source, so only their error vocabulary and the controllers' handling of it are modelled.
- Rate limiting, CORS, the request-ID middleware, routing, configuration loading, logger setup, database setup and the older duplicate service, controller and middleware layers are not part of this model.
- Concurrency is not modelled: the registry's read-write lock, the limiter's map and the server goroutines.
- Network and database I/O become parameters: dialling, the balance RPC, and driver faults injected per statement. The 10, 30 and 60 second timeouts are not modelled. A timeout is one more injected failure.
- Time is in whole seconds. The token library truncates to seconds, so sub-second clock values are not modelled. The token lifetime (`Config.duration`) is also a whole number of seconds, although the configured duration may be sub-second, such as "1500ms". Token generation reads the clock twice, once for the issue time and once for the expiry (internal/apiserver/service/jwt.go:76-77); the model reads it once, so the two clock reads cannot straddle a second boundary.
- Password hashing, the HMAC and the compact token encoding are uninterpreted functions. Salt randomness is not modelled: a `Hasher` is one fixed function per run.
- Conversion.WeiToEther: the division precision is a parameter, because it is a package-wide setting of the decimal library that the repository never changes. The library's default of 16 digits is discussed under Findings.
- WalletService.GetBalance: returns the `Decimal` value, not the decimal string the service prints from it. The library's string formatting is not modelled.
- WalletStore.Store.CreateWallet: returns the stored wallet with its new MnemonicID as a value. It does not update the caller's struct in place.
- WalletStore.Store: gorm assigns IDs from sequences. Inserting a record with a preset ID is not modelled.
- AuthMiddleware.Lower: folds ASCII letters only. Only ASCII letters lower-case to the letters of "bearer", so the scheme test is exact. Other uses of full Unicode lower-casing are not modelled.
- `common.HexToAddress` normalisation of the balance address is not modelled. The address is handed to the node as given.
- Error message texts are modelled where a sentinel or a fixed string decides behaviour. Texts built from a library error's message (`err.Error()`) are a fixed placeholder.
- UserService.Login, UserService.FindUserByUsername: the store-failure branches (internal/apiserver/service/user.go:104-106 and 132-134) are unreachable. The `user == nil` test catches every failed lookup first, and the model returns the earlier error for them.
- JwtService.ValidateToken: the final generic failure (internal/apiserver/service/jwt.go:120) is unreachable. The library returns an error whenever a token is not valid.
- RequestLogger: request latency and the logged fields are not modelled. The type-assertion panic on a non-string request ID is the `None` result.
- The auth controller is written against a differently located user and token service with the same contract. Its services are function parameters here.
- The apiserver controllers use a response package that is not part of this model. They are taken to build the same envelopes as api/response.go.
- The apiserver middleware is taken to be internal/pkg/middleware/auth.go.
- Api.Number: `CodeResourceNotFound` is used by the wallet controller, but its number is defined in a file that is not part of this model. It has no number here.

## Findings

| source | as written | input that shows it | evidently intended | confidence | as-written member | corrected member |
|---|---|---|---|---|---|---|
| pkg/conversion/conversion.go:24-26 | `Div` rounds to the decimal library's package-wide precision, 16 fractional digits by default, which the repository never raises; the comment says 18 digits or more are kept | 1 wei converts to 0 ether, and `ToWei` of that is 0 wei | a precision of at least 18 digits, so that every wei amount survives the round trip | not executed; relies on the library default of 16 | Conversion.RoundTripLossBelow18 | Conversion.RoundTrip |
| internal/apiserver/store/wallet.go:50-53 | the duplicate-address branch tests `gorm.ErrDuplicatedKey`, but the gorm configuration (pkg/db/postgres.go:32-37) does not enable error translation, so the driver's unique-violation error never matches | creating a second wallet at an existing address returns "failed to create wallet record" | the distinct "wallet address already exists" error | not executed | WalletStore.DuplicateUntranslated | WalletStore.DuplicateTranslated |
