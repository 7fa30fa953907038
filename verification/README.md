# Delegated tokens, reservations and signing keys: a verified model

This Dafny project models four linked parts of the order system and proves what they guarantee when their steps
interleave freely.

1. **Delegated tokens and the audit over them** (`Text`, `EventLine`, `Realm`, `ExchangeCache`, `TokenSystem`, `Audit`,
   `AuditTheorems`, `TokenTraces`, `LookbackBound`). Logins, token exchanges, cache lookups, stores, uses and log lines are steps of one
   machine with a clock. The audit script is modelled with its loops, over the log lines that the machine writes. The
   theorems connect the two: the lookback that accepts every honest run is determined exactly, a passing audit certifies
   every use, and a bypass is flagged.
2. **The reservation saga** (`Authorization`, `StockKeys`, `Saga`, `SagaTheorems`, `OrderFlow`, `SagaSchedules`,
   `SagaDrift`, `WriteDrift`, `ForgottenStock`, `Services`). Any number of `POST /orders` requests run at once over four
   stores; each step may fail before or after its effect, and a request may die anywhere. The classes of `Services` are
   the same handlers as objects that update their stores, and a request that nothing interrupts refines the same
   sequential function that they are proved against.
3. **Signing-key refresh** (`Jwks`, `KeyRefresh`, `AuthContext`, `JwksCache`): the Rust service's flag and background task
   in any interleaving, and the Go service's age check.
4. **The codecs underneath** (`EventLine`, `StockKeys`, `Base64Url`, `Thumbprint`): field extraction, stock keys, unpadded
   base64url and the JWK thumbprint, as print and parse laws over all strings.

Machines are written as a state, a total `Apply` and a `Run` over a sequence of events; an event that is not possible
leaves the state alone, so a statement about all sequences is a statement about all runs. Times are integer nanoseconds.
What the services cannot see (replies, failures, clock readings, new token ids) are parameters of the events and methods.
Keycloak enters through its exchange rule (`Realm.MayExchange`), fresh ids and bounded lifetimes.

## What the proofs say about the code

- **Lookback.** CHECK 2 accepts every honest run and window if and only if the lookback is at least
  `min(latency + lifetime - 5 s - 1 ns, lifetime + leeway - 1 ns) + delay`: the latest cache hit or the latest moment at
  which a service still accepts the token, whichever comes first, and the time until the call is logged. The lifetime is
  that of tokens issued to the frontend, which have the realm's default and not the 60 s of the relay clients by which
  the comment at `audit/audit.py:27-30` sizes it. With the 5 minutes named in `docs/architecture.md:122` the default of
  300 s is enough exactly as long as `min(latency, 5 s + leeway) + delay` stays within the 5 s margin and one tick.
- **CHECK 2 is exact on every run.** It passes if and only if every use in the window was made with a token issued,
  within the lookback, by an exchange that asked for the very service that accepted it. Client credentials, logins that
  ask for a service's scope, exchanges for another audience and replays elsewhere all fail it.
- **CHECK 1 never fires on an honest run**, because a login there asks for no audience and an exchange for one. On any
  run it fires exactly for a frontend token that employee-service accepted and that either is for order-service as well
  and was accepted there, or is a session token whose login asked for the employee scope.
- **CHECK 3 has false alarms.** An honest user who logs in before the window, acts in it and then logs in again makes the
  verdict negative. `HonestVerdict` shows that this is the only way for an honest run to fail.
- **The dedup loops of CHECK 2 depend on log order** in general (`OrderMatters`), and do not in any run of the token system,
  where a jti has one subject.
- **The aggregate drifts upwards only.** A write leaves the drift that its request found when it read the row plus what
  others took meanwhile (`WriteDrift`). At the end of any run, whatever overlapped, failed or died, the drift is exactly
  the total of the decrements that the aggregate does not account for (`ForgottenStock`). Overlapping requests make it as
  large as the stock allows. A REJECTED order moved no stock, but a request that ends in an error may have moved some.
- **A key does not tell its cell apart** when one branch extends another by a colon. For a set of branches this is the
  only way in which keys can collide.
- **A lookup that fails is not a refusal.** When the warehouse cannot look up a viewer's branch it answers 502 and no order
  is saved; when the employee service answers with an error of its own, it answers 403 and the order is saved as REJECTED.
- **An accepted script may change nothing.** A reservation of 0 on an existing cell succeeds and leaves the cell as it was,
  so the result tells acceptance, not change.
- **Failed fetches are not rate limited.** The comments at `warehouse-service/src/auth.rs:131-134` and
  `inventory-service/auth.go:31-34` say that the interval keeps unknown kids from flooding Keycloak. Only a successful fetch
  moves the time, so while fetches fail any number can start at one instant, one after another.
- **Early refreshes.** Within 10 s of an install a refresh can start if and only if some thread had passed the age check
  before it.
- `docs/architecture.md:16` shows a login token with audience order-service. The login asks for `openid roles`
  (`frontend/server/api/login.get.ts:12`), so the token has no mapped audience and the frontend exchanges it; the model
  follows the code.

## Model

| member | source | states |
|---|---|---|
| EventLine.ExtractLeftmost | audit/audit.py:81-92 | For any line, the result is what follows the leftmost `key=` up to the next quote or comma |
| EventLine.NoExtract | audit/audit.py:89-91 | A line without `key=` has no value |
| EventLine.ExtractText | audit/audit.py:89-92 | In plain text, for every line with `key=`: behind its leftmost place and an optional quote the value is what comes up to the next quote, comma or end, and an empty one is none |
| EventLine.TypeFilterExact | audit/audit.py:254-256 | A filter for `type="NAME"` finds a printed line exactly when one of its quoted fields has a key ending in type and that very value, so LOGIN does not find LOGIN_ERROR |
| Text.ContainsExactly | audit/audit.py:186-189 | A line filter matches exactly the lines in which the whole pattern stands somewhere |
| Text.FilterAppends | audit/audit.py:180-189 | A query decides entry by entry and keeps order and repetitions |
| EventLine.ExtractPrinted | audit/audit.py:81-92 | Extraction inverts printing: behind any header that does not mention the key, and with any characters in earlier values short of the key and its equals sign, the result is the value of the first field whose key ends with it, None when empty or absent; that value holds no quote or comma |
| EventLine.HeaderSilent | audit/audit.py:84-87 | A header with any number of `name=value` parts does not mention a key that no name ends like |
| EventLine.TraceHeaderSilent | docs/adr/0005-delegation-audit-with-opentelemetry.md:24 | The trace header of event lines mentions none of the three keys that the audit reads |
| TokenSystem.TracedLines | audit/audit.py:84-87 | Behind a trace header, fields that describe an exchange, a login or no issue still do, so runs hold lines as deployed |
| EventLine.PrintedFieldFound | audit/audit.py:186-189 | A substring filter finds every line that prints a field containing the substring |
| Audit.RunCheck1 | audit/audit.py:107-140 | The check passes if and only if no jti other than empty or `-` is logged both at frontend or order-service and at inventory-, warehouse- or employee-service inside the window |
| Audit.Check1Exact | audit/audit.py:125-140 | CHECK 1 fires if and only if one real jti is logged at both layers inside the window |
| Audit.ParseTokenExchangeEvents | audit/audit.py:145-167 | The dictionary holds, for each pair that an unparsed line states, the last record stated |
| Audit.RecordsLaw | audit/audit.py:156-167 | Every record comes from a line that states it, and every stated pair has a record |
| Audit.LastRecordKept | audit/audit.py:166-166 | The record kept for a pair is the last one stated |
| Audit.FirstUseKept | audit/audit.py:195-202 | The entry kept for a pair is its first use |
| Audit.FirstSeenLaw | audit/audit.py:194-202 | Every kept entry is a use of its pair, and every used pair is kept |
| Audit.RunCheck2 | audit/audit.py:170-235 | The check passes if and only if the first use of each jti at each of the four backends in the window, 401s apart, has an issue line in the widened window, and the last such line names that user or none |
| Audit.PassesHoweverArranged | audit/audit.py:194-211 | CHECK 2 passes under every reordering and duplication of the logs if and only if every use has an agreeing record and no disagreeing one |
| Audit.FailsHoweverArranged | audit/audit.py:194-211 | CHECK 2 fails under every reordering and duplication if and only if some used pair has no agreeing use and record |
| Audit.OneSubDecides | audit/audit.py:204-211 | With one subject per pair the loops decide exactly the set-level question |
| Audit.FirstAccesses | audit/audit.py:258-265 | The fold yields each real subject's earliest access, with its time and service |
| Audit.FirstLogins | audit/audit.py:267-275 | The fold yields each user's earliest login |
| Audit.HardViolations | audit/audit.py:277-284 | The violations are exactly the subjects whose earliest login is later than their earliest access |
| Audit.RunCheck3 | audit/audit.py:250-301 | The check passes if and only if no access in the window by a real user comes before all of that user's LOGIN lines in the window, of which there is one |
| Audit.UidCases | audit/audit.py:269-271 | A JSON line's user is the first of its two user fields that is not empty, a text line's its userId |
| Audit.MinimaDecide | audit/audit.py:277-284 | The comparison of the two folded minima decides that question |
| Audit.Check3Truth | audit/audit.py:242-247 | For a user with no login before the window, a reported violation is an access before any login ever recorded |
| Audit.ChecksOneAndThreeArranged | audit/audit.py:125-127 | CHECK 1 and CHECK 3 do not depend on order or repetition |
| Audit.RunChecks | audit/audit.py:319-325 | The verdict is the conjunction of the three checks |
| Audit.Report | audit/audit.py:306-332 | Exit code 0 exactly when all three checks pass on the window of so many seconds that ends now |
| AuditTheorems.ChecksCoverAllServices | audit/audit.py:34-44 | CHECK 2 covers every audience that a scope maps to; the two layers of CHECK 1 part all five services |
| Realm.DerivedToken | keycloak/realm-export.json:125-187 | By induction over exchanges from any login, for any sets of scopes: user claims are kept, the audiences are those of the last scopes, and the tokens were issued along the client's only route |
| Realm.DelegationPaths | docs/architecture.md:91-94 | A warehouse token exists only via frontend, order-service and inventory-service; an employee token only from the frontend or at the end of the full chain; only frontend tokens can be for two services; after a login without scopes the chain begins with the frontend's exchange |
| Realm.ChainGranted | keycloak/realm-export.json:125-187 | Each prefix of the chain is granted to every login |
| Realm.PermissionMatrix | keycloak/realm-export.json:125-187 | Exactly five client and audience pairs can be exchanged |
| Realm.NarrowIsExchange | order-service/src/main/java/com/example/orderservice/OrderController.java:38-38 | A call for one scope is the exchange rule for that scope, yields exactly the audience asked for, and the audience fixes the scope |
| ExchangeCache.TokenExchangeClient.Lookup | order-service/src/main/java/com/example/orderservice/TokenExchangeClient.java:61-65 | A hit is an unexpired entry for this subject jti and audience |
| ExchangeCache.TokenExchangeClient.Store | order-service/src/main/java/com/example/orderservice/TokenExchangeClient.java:67-69 | The put replaces this key's entry only |
| ExchangeCache.TokenExchangeClient.Exchange | order-service/src/main/java/com/example/orderservice/TokenExchangeClient.java:60-71 | A hit changes nothing, a failed request changes nothing, a reply is returned and remembered |
| ExchangeCache.Session.ExchangeForAudience | frontend/server/utils/tokenExchange.ts:69-87 | A live entry is returned and nothing changes; an expired one never is: then the reply's token is returned and kept until 5 s before its end, and other audiences keep their entries |
| ExchangeCache.SessionStore.CreateSession | frontend/server/utils/session.ts:41-45 | A new session with an empty cache; others are untouched |
| ExchangeCache.SessionStore.GetBffSession | frontend/server/utils/session.ts:47-50 | The session of a known id, none for a missing, empty or unknown one |
| ExchangeCache.SessionStore.DeleteSession | frontend/server/utils/session.ts:52-55 | The session and its cache are gone; others are untouched |
| ExchangeCache.SessionStore.ExchangeInSession | frontend/server/utils/session.ts:74-81 | The same through the table, for this session's cache only; without a session nothing happens |
| TokenSystem.StepKeeps | order-service/src/main/java/com/example/orderservice/TokenExchangeClient.java:60-71 | Every step of any request, cache, session or log keeps the invariant over issued tokens, flights, caches and logs |
| TokenSystem.RunKeeps | frontend/server/utils/tokenExchange.ts:69-87 | So does every run, with the honest part for honest runs |
| AuditTheorems.ExchangeLineParsed | audit/audit.py:156-167 | Parsing the printed line of an exchange gives back exactly its jti, the audience asked for, user and time |
| AuditTheorems.OtherLineSilent | audit/audit.py:163-164 | A line without token_id, such as an error event, yields no record |
| AuditTheorems.LoginLineParsed | audit/audit.py:254-271 | A printed login line is found by the filter and gives back its user |
| AuditTheorems.IssuesAreRecorded | audit/audit.py:186-190 | Every exchanged token issued inside the queried interval has its record |
| AuditTheorems.HonestPassesCheck1 | audit/audit.py:125-140 | CHECK 1 passes on every honest run for every window |
| AuditTheorems.Check1FiresWhen | audit/audit.py:108-114 | On any run CHECK 1 fires if and only if a frontend token was accepted at employee-service and also at order-service, being for both, or logged as the session token of a login for the employee scope |
| LookbackBound.TwoAudiencesFire | audit/audit.py:110-113 | A login for both of the frontend's scopes makes it fire |
| AuditTheorems.Check2Exact | audit/audit.py:180-235 | On any run CHECK 2 passes if and only if every real-jti non-401 backend use in the window was made with a token issued within the lookback by an exchange for that service to that user |
| AuditTheorems.HonestPassesCheck2 | audit/audit.py:180-235 | On every honest run CHECK 2 passes for every window once the lookback reaches the bound |
| LookbackBound.LifetimeSuffices | audit/audit.py:27-31 | A lookback of one token lifetime is enough for all honest runs and windows if and only if the smaller of latency and 5 s plus leeway, with the delay, fits into the margin and one tick |
| AuditTheorems.PassingCertifies | audit/audit.py:195-217 | On any run: if CHECK 2 passes, every real-jti non-401 backend access in the window used a token issued by an exchange that asked for that service, to that user |
| AuditTheorems.BypassFlagged | audit/audit.py:195-217 | A token from client credentials, from a login for the service's scope, or from an exchange for another audience makes CHECK 2 and the verdict fail when it is accepted inside the window |
| AuditTheorems.UnrecordedFlagged | audit/audit.py:206-223 | For any logs: a used pair without an issue record makes CHECK 2 and the verdict fail |
| AuditTheorems.RunsHaveOneSubPerPair | audit/audit.py:194-211 | Every run supplies the one subject per pair under which order cannot matter |
| AuditTheorems.HonestCheck3 | audit/audit.py:279-284 | On an honest run CHECK 3 fires exactly for a user with a login before the window who acts in it and only then logs in again |
| AuditTheorems.HonestVerdict | audit/audit.py:319-332 | With the bound met, the verdict on an honest run is negative exactly in that case |
| AuditTheorems.CacheServesOwnTokens | order-service/src/main/java/com/example/orderservice/TokenExchangeClient.java:60-71 | Under every interleaving a cache hit is a token that the same client obtained with the same subject for that audience, naming the subject's user, with more than 5 s less the latency left; on honest runs for that audience alone and with its one scope |
| TokenTraces.CachesDieWithSessions | frontend/server/utils/session.ts:24-30 | In any run the frontend holds a cached token only while the session that obtained it lives, and besides it only order-service caches |
| TokenTraces.EveryTokenIsDerived | keycloak/realm-export.json:125-187 | In any run every token is a login's, a service account's or the end of a finite chain of granted exchanges from one, each made while its subject token lived; the relaying services' tokens live at most 60 s |
| TokenTraces.HonestRoutes | docs/architecture.md:91-94 | In an honest run each token came along its audience's only route from a login of the same user |
| TokenTraces.AskingRule | order-service/src/main/java/com/example/orderservice/TokenExchangeClient.java:60-67 | For a call it has accepted, order-service takes a live cached token or asks, the other services always ask, and a refused call asks for nothing |
| TokenTraces.ReplyRule | order-service/src/main/java/com/example/orderservice/TokenExchangeClient.java:67-70 | The frontend and order-service keep a reply until 5 s before its end, the others only use it |
| LookbackBound.LookbackExact | audit/audit.py:27-31 | CHECK 2 passes for all honest runs and windows if and only if the lookback is at least the time of the latest hit or acceptance plus the delay |
| LookbackBound.TooShortFails | audit/audit.py:184-189 | A shorter lookback misses the issue of a token used as late as caches and services allow |
| LookbackBound.SecondLoginFalseAlarm | audit/audit.py:242-247 | An honest run with a second login on which CHECK 3 and the verdict fail |
| LookbackBound.OrderMatters | audit/audit.py:194-211 | With two subjects for one pair, the order of two log entries decides CHECK 2 |
| LookbackBound.OrderMattersHere | audit/audit.py:194-211 | Concrete logs of that kind |
| Authorization.EmployeeRule | employee-service/main.py:72-84 | A record is shown exactly to its owner or an hr-viewer; the answer to anybody else does not depend on whether it exists |
| Authorization.AuthorizeDecidesTable | warehouse-service/src/handlers.rs:145-165 | The branch decision permits only what the permission table permits under any lookup fault, and exactly that without one |
| Authorization.AuthorizeByFault | warehouse-service/src/handlers.rs:82-165 | Role by role and fault by fault: 502 exactly for a viewer whose lookup cannot be made or read, 403 for every other denial |
| Authorization.OwnBranchByFault | warehouse-service/src/handlers.rs:82-136 | 502 for a failed exchange or call or an unreadable own record, 403 for an employee service that refuses or a missing record, and otherwise the registered branch |
| StockKeys.BranchInExact | warehouse-service/src/handlers.rs:207-213 | Stripping prefix and suffix yields a branch if and only if the key is built from it, for all strings |
| StockKeys.SameKeyWhen | warehouse-service/src/handlers.rs:259-259 | Two cells share a key if and only if they are the same or one branch extends the other by a colon and more and the other product takes that up |
| StockKeys.KeysTellApartWhen | warehouse-service/src/handlers.rs:259-259 | Keys over a set of branches determine branch and product, for all products, if and only if no branch of the set extends another by a colon |
| StockKeys.KeysInjective | warehouse-service/src/handlers.rs:259-259 | In particular keys of colon-free branches do |
| StockKeys.ScanMatches | warehouse-service/src/handlers.rs:194-196 | The scan pattern of a glob-free product matches exactly the keys that name a branch for it |
| StockKeys.ScanBranches | warehouse-service/src/handlers.rs:206-217 | The loop collects exactly the branches whose key was scanned, with their stock, or 0 where the GET fails |
| StockKeys.ScanIsExact | warehouse-service/src/handlers.rs:190-218 | On one snapshot the answer is exactly the branches that have a cell |
| StockKeys.ScanIsColumn | warehouse-service/src/handlers.rs:190-218 | For colon-free product names it is the product's column of the stock table |
| StockKeys.StockConserved | warehouse-service/src/handlers.rs:259-271 | After any reservations of any integer quantities each cell is its initial value less what was accepted for it, and stays non-negative |
| StockKeys.ResultTellsAcceptance | warehouse-service/src/handlers.rs:260-283 | The result is negative exactly on refusal; nothing changed exactly on refusal or for 0 of an existing cell |
| Saga.StepKeeps | inventory-service/handlers.go:60-111 | Every step of every request keeps the invariant over rows, threads, decrements, orders and cells, for all quantities |
| Saga.RunKeeps | inventory-service/handlers.go:60-111 | So does every run |
| SagaTheorems.StockMovesOnlyForPermittedUsers | inventory-service/auth.go:151-155 | Every accepted decrement belongs to one POST of the same product and quantity whose user has both writer roles and may act for the product's branch |
| SagaTheorems.CellsFollowRecords | warehouse-service/src/handlers.rs:259-285 | In every run each cell is its initial stock less the decrements recorded for it |
| SagaTheorems.OrdersTellTheTruth | order-service/src/main/java/com/example/orderservice/OrderController.java:33-44 | A CONFIRMED order has its own decrement of the same product and quantity at the primary branch, a REJECTED one has none, PENDING is never saved |
| SagaTheorems.ConfirmedWithinTaken | order-service/src/main/java/com/example/orderservice/InventoryClient.java:33-48 | For quantities of at least 0, the confirmed total never exceeds the decremented total, whatever fails |
| SagaTheorems.DriftIsOneSided | inventory-service/handlers.go:69-109 | Under every interleaving and crash: initial less accepted <= aggregate <= initial, and aggregate >= 0 |
| SagaTheorems.AggregateCoversCell | inventory-service/handlers.go:79-82 | An aggregate that covers the primary cell at first always does, so the early refusal never turns away what the warehouse would accept |
| SagaTheorems.UndisturbedIsExact | inventory-service/handlers.go:103-109 | In serial runs without failures after an acceptance the aggregate is exact between requests, for all quantities |
| WriteDrift.WriteDrift | inventory-service/handlers.go:69-109 | Over any events between read and write: the drift after a write that takes effect is the drift at the read plus what other requests took in between |
| WriteDrift.ExactWriteIff | inventory-service/handlers.go:103-104 | For quantities of at least 0 a write leaves the aggregate exact if and only if it was exact at the read and nobody else took stock in between |
| ForgottenStock.DriftIsForgotten | inventory-service/handlers.go:60-111 | At the end of any run, with any crashes and failures and for all quantities, the drift is exactly the total of the decrements that the aggregate does not account for |
| ForgottenStock.ExactIff | inventory-service/handlers.go:60-111 | For quantities of at least 0 the aggregate is exact at the end of a run if and only if it accounts for every request that took any of the product |
| OrderFlow.BranchAnswer | warehouse-service/src/handlers.rs:244-286 | 200 means permitted and taken in full, 403 and 409 mean nothing moved, and without faults these three are decided by table and cell |
| OrderFlow.HandlerAnswer | inventory-service/handlers.go:60-111 | 200 means stock and aggregate both fell by the quantity, 409 that nothing moved |
| OrderFlow.SavedOrderIsTrue | order-service/src/main/java/com/example/orderservice/OrderController.java:33-44 | Under any failures a CONFIRMED order lowered cell and aggregate by its quantity and a REJECTED one changed nothing |
| OrderFlow.CleanOutcome | order-service/src/main/java/com/example/orderservice/OrderController.java:31-44 | Without failures: an order is saved exactly for both writer roles and a known product, and confirmed exactly when the branch is permitted and both stocks suffice |
| OrderFlow.AvailableAndLess | inventory-service/handlers.go:79-109 | The stock is available when the product's aggregate, the cell of its branch and the permission table allow it, and a confirmed order lowers exactly these two by the quantity |
| OrderFlow.LookupFailure | warehouse-service/src/handlers.rs:82-129 | A branch lookup that cannot be made leaves no order and no change; an employee service that refuses leaves a REJECTED order |
| OrderFlow.StatusReadings | order-service/src/main/java/com/example/orderservice/InventoryClient.java:33-48 | Below 400 is success, 409 a refusal and the rest an exception; towards the warehouse only 200 is success, and 403 and 409 are refusals |
| OrderFlow.HandlerStatus | inventory-service/handlers.go:68-109 | Each failure before the warehouse is called has its own status and changes nothing |
| OrderFlow.HandlerStatusAfterCall | inventory-service/handlers.go:91-111 | From the call on: an answer that does not come or is not understood is a 502, a refusal a 409, a failed write after an acceptance a 500 |
| SagaSchedules.AloneIsPlaceOrder | order-service/src/main/java/com/example/orderservice/OrderController.java:33-44 | An uninterrupted request refines the sequential flow, from any world and under any failures |
| SagaSchedules.AloneConfirms | inventory-service/handlers.go:69-109 | End to end, without failures: confirmed if and only if the login has the roles, the branch and the stock; then cell and aggregate fall together |
| SagaDrift.OverlapDrifts | inventory-service/handlers.go:69-109 | Any number of requests that read together and are all confirmed leave a drift of the total of all but the last |
| SagaDrift.LostWriteDrifts | inventory-service/handlers.go:103-108 | A write that fails after acceptance takes the stock, keeps the aggregate and saves no order |
| Services.WarehouseService.ReserveStock | warehouse-service/src/handlers.rs:244-286 | The cell falls by the whole quantity or not at all, only for a permitted caller with enough stock; no other cell changes |
| Services.WarehouseService.GetStockByBranches | warehouse-service/src/handlers.rs:173-242 | 403 without a role, the scanned branches for viewer-all; for a viewer the own branch, an empty answer without a registered one, and 502 or 403 by the lookup's fault; a cell whose GET fails reads as 0 |
| Services.OwnAgreesWithScan | warehouse-service/src/handlers.rs:220-238 | On one snapshot the own-branch answer equals the scan's where the branch is listed and is 0 where it is not |
| Services.ListedBranchHasCell | warehouse-service/src/handlers.rs:206-217 | Whatever the product is called, every listed branch has a stored key, shown with that stock unless its GET fails |
| Services.InventoryHandlers.LoadProduct | inventory-service/handlers.go:184-189 | The row, 404 for an unknown product, 500 for a failed query |
| Services.InventoryHandlers.ReserveAtWarehouse | inventory-service/handlers.go:116-140 | true means taken in full, false that nothing moved, and an error may be either |
| Services.InventoryHandlers.Reserve | inventory-service/handlers.go:60-111 | The update in place of cell and aggregate is that of the sequential handler, for every failure |
| Services.InventoryHandlers.ReserveBehindGate | inventory-service/auth.go:121-159 | 401 for a foreign audience and 403 without the role, each without any effect; otherwise the handler |
| Services.OrderController.Create | order-service/src/main/java/com/example/orderservice/OrderController.java:31-44 | A new order is saved only with its outcome, which is true of the stores; otherwise nothing is saved, as when the branch cannot be looked up; no saved order is PENDING |
| KeyRefresh.StepKeeps | warehouse-service/src/auth.rs:135-155 | Every step keeps single flight and moves versions, times and starts only forward |
| KeyRefresh.SingleFlight | warehouse-service/src/auth.rs:140-154 | In every interleaving at most one task is alive, the flag is up exactly while one is, and the installed key set never goes back |
| KeyRefresh.InstallIsFresh | warehouse-service/src/auth.rs:147-152 | A refresh installs a key set at least as new as the one current when it won the flag |
| KeyRefresh.SpawnBudget | warehouse-service/src/auth.rs:135-142 | Within 10 s of the last install, starts come from distinct threads that had passed the age check before, so their number is bounded |
| KeyRefresh.BudgetAttained | warehouse-service/src/auth.rs:135-154 | That many starts can happen, even at one instant |
| KeyRefresh.EarlyStartIff | warehouse-service/src/auth.rs:136-142 | After an install an early start is possible if and only if some thread had passed the age check |
| KeyRefresh.FailedFetchesAreNotLimited | warehouse-service/src/auth.rs:148-153 | While fetches fail, any number of refreshes can start with no time passing |
| Jwks.KeysOfLaw | warehouse-service/src/auth.rs:75-80 | The map holds exactly the kids of usable entries, each with its last usable key |
| AuthContext.FetchKeys | warehouse-service/src/auth.rs:70-82 | A set with an incomplete entry is unreadable; otherwise the keys are those that decode from their own n and e, the last of each kid |
| AuthContext.AuthContext.KeyFor | warehouse-service/src/auth.rs:111-129 | A known kid yields its key; an unknown one yields none and starts a refresh exactly when the last install is 10 s old and none is running, as the machine's three steps do, after which the request is through |
| AuthContext.AuthContext.MaybeSpawnRefresh | warehouse-service/src/auth.rs:135-155 | A start exactly when the last install is 10 s old and the flag was down; the flag is up afterwards if it was or a start happened |
| AuthContext.AuthContext.FinishRefresh | warehouse-service/src/auth.rs:147-154 | Keys and time are replaced together or not at all, the flag is lowered, as the machine's steps do |
| JwksCache.RawRoundTrip | inventory-service/auth.go:67-74 | Raw decoding inverts encoding |
| JwksCache.RawDecodesWhen | inventory-service/auth.go:67-74 | A text decodes exactly when it is unpadded, over the url-safe alphabet and not 1 longer than groups of 4, line breaks apart |
| JwksCache.KeyAsPublished | inventory-service/auth.go:63-79 | The modulus and the exponent are the numbers that the bytes of n and of e spell, most significant first; other key types and undecodable members are skipped |
| JwksCache.Cache.Refresh | inventory-service/auth.go:50-86 | The whole map is replaced by the usable RSA keys of the set, or nothing changes |
| JwksCache.Cache.Keyfunc | inventory-service/auth.go:88-113 | A known kid asks nobody; an unknown one asks when the last success is 10 s old and then answers from the new set |
| JwksCache.SuccessesSpaced | inventory-service/auth.go:93-100 | Among calls that do not overlap, each fetch comes at least 10 s after every earlier successful one |
| JwksCache.FailuresNotSpaced | inventory-service/auth.go:96-104 | While fetches fail, every call with an unknown kid asks again |
| Base64Url.RoundTrip | employee-service/dpop.py:16-18 | Stripping `=` and padding again decodes to the original, for every byte string |
| Base64Url.AlphabetIsStandard | employee-service/dpop.py:26-26 | Encoding writes the alphabet of section 5 of RFC 4648 |
| Base64Url.ReadsAlphabet | employee-service/dpop.py:16-18 | Decoding reads each character of that alphabet as its place, `+` and `/` as `-` and `_`, and no other |
| Base64Url.GroupValues | employee-service/dpop.py:16-18 | The characters of a group spell in base 64 the number that its bytes spell in base 256, most significant first; short groups likewise |
| Base64Url.GroupsInOrder | employee-service/dpop.py:16-18 | A text decodes group by group, in order |
| Base64Url.ForeignSkipped | employee-service/dpop.py:16-18 | Characters outside the alphabet are skipped unless they change the padding |
| Base64Url.DecodesWhen | employee-service/dpop.py:16-18 | A text over the url-safe alphabet decodes if and only if its length is not 1 modulo 4, and re-encodes to itself if and only if no bits are left over |
| Thumbprint.CanonicalInjective | employee-service/dpop.py:21-24 | Keys with the same canonical text are equal, whatever characters their members hold |
| Thumbprint.CanonicalPlain | employee-service/dpop.py:22-24 | For members without quote, backslash and unprintable characters, the text in full: crv, kty, x and y in this order without spaces |
| Thumbprint.ReadWritten | employee-service/dpop.py:24-24 | A JSON reader reads back every written string, so all escapes are right |
| Thumbprint.DigestDecodes | employee-service/dpop.py:25-26 | The thumbprint decodes to the hash of the canonical text |
| Thumbprint.CanonicalIsAscii | employee-service/dpop.py:24-25 | The canonical text is printable ASCII, so its encoding is itself |
| Thumbprint.ThumbprintBindsKey | employee-service/dpop.py:21-26 | Two keys share a thumbprint if and only if they are equal or the hash collides on different texts |
| Thumbprint.DigestTellsHashes | employee-service/dpop.py:29-31 | The base64url digests of two texts agree if and only if their hashes do |

## Left out

- SagaTheorems.UndisturbedIsExact: a sufficient condition that can be read off a schedule; the necessary and sufficient one is ForgottenStock.ExactIff.
- SagaTheorems.DriftIsOneSided: quantities of at least 0 only, which only the order form enforces; for negative ones the aggregate can exceed its initial value.
- StockKeys.ScanMatches: glob-free products only; character classes and escapes of Redis patterns are not modelled.
- Services.WarehouseService.GetStockByBranches: the scanned keys and the values are of one snapshot.
- JwksCache.SuccessesSpaced: calls that do not overlap; concurrent callers of the Go cache may all fetch, and an older reply may then replace a newer one.
- Jwks.KeysOfLaw: the decoding of a Rust key's numbers is a parameter.
- HTTP, SQL, Redis, MongoDB and Loki transport: each call is one step that succeeds, fails before its effect or fails after it.
- Failed Loki queries, which read as empty results, and the limit of 5000 entries: the audit sees complete logs.
- JSON event lines: Keycloak's runs write text lines, and the audit's treatment of a line that happens to be JSON is kept only for the two user fields.
- Clock skew and late log ingestion: one clock, with latency and delay as parameters.
- Cryptography and JWT validation: a service accepts a token meant for its audience; hashes and signatures are abstract.
- Keycloak beyond its exchange rule, fresh ids and lifetimes, among it the expiry of sessions, token refresh, and exchanges that name several audiences in one request.
- Tokens without a jti: every issued token has a real one, so the shared cache entry of null ids is not modelled.
- Integer widths of Java, MySQL and Go and the double arithmetic of Lua: mathematical integers.
- Branch and product names inside request paths: names that need escaping are routed as if they did not.
- Changes of product rows and cells by anything but order requests.
- Token expiry inside the saga: its tokens are valid for as long as the request lives; expiry is modelled in the token system.
- The exchanged tokens inside the saga are requested anew at each hop; the caches are modelled in the token system.
- Exponents of RSA keys beyond 64 bits, and lone surrogates in JSON strings, which the characters here exclude.
- The remaining DPoP checks (method, URL, time, access-token hash), PKCE, cookies, the Vue pages, tracing, access-log formats, compose files and scripts.
