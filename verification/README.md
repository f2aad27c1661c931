# Verified models of the KAYAD marketplace

KAYAD is a car marketplace: an Express backend over Supabase, and a React front end with a service
worker. This project models the parts of it that carry loops, protocols or state machines, and proves
properties of every run, every graph, every request or every trace of those models. One module stands
for each component:

| module | component |
|---|---|
| `WorkflowSimulator` | the breadth-first walk that previews an automation workflow |
| `BidProtocol` | concurrent bids on an auction, with the leased lock and the database functions behind them |
| `SocketLimiter` | the limit on events per socket |
| `RejectionGuard` | the handler of unhandled rejections: one alert per burst, restart after too many |
| `ServiceWorker` | the browser caches, request by request, interleaved at their awaits |
| `RedisFallback`, `JsonList` | the flat map that stands in for Redis, and the JSON text of its lists |
| `RefreshTokens`, `Lockout` | sessions with rotating refresh tokens, and the lock after wrong passwords |
| `CarQuery`, `CarAnswers` | the listing query, what it means to MongoDB and to Supabase, and when the answer is the one asked for |
| `SearchPattern`, `IlikePattern` | the regular expressions in it, and what Supabase makes of them |
| `CoverImage` | the index of a listing's cover image |
| `CmsHistory` | pages, revisions and rollback |
| `MasterDataImport` | the bulk import of master data |
| `AlertPolicies` | the evaluators that open and close SLO alerts |
| `Histogram` | percentiles of recorded metrics, and the keys they are kept under |
| `RecentSearches`, `DealerTeams`, `DealerSubscriptions` | three small stores with invariants over whole runs |
| `Text`, `Wrappers` | trimming and lower case; `Option` |

Code that updates objects is a class whose methods follow the source step by step; each method is proved
equal to a function of the old state, and the properties are proved about that function and its runs.
Handlers that interleave at their awaits (bids, the service worker) are one transition per stretch
between two awaits, and a run is any sequence of transitions.

Check everything with `dafny verify dfyconfig.toml`.

## Where the code does something else than expected

Each point is proved, as a counterexample, as the exact condition, or both. The model follows the code.

- The limiter's comment promises 10 events per 10 seconds (`backend/server.js:578`). 19 events of one name
  can pass within 2 ms; 19 is the exact maximum for every interval up to 10 s (`BoundAttained`, `SlidingBound`).
- The alert for unhandled rejections is said to be limited so that there are no alert storms
  (`backend/server.js:1076`). It is sent by every rejection that comes before one has been counted, and never
  again after that, whatever windows go by (`AlertsExactly`, `AlertsStop`); if sending throws, nothing is ever
  counted (`FailingAlerts`). The restart behind it needs 26 rejections in one of the windows that follow one
  another, and so may miss 50 within 60 s, but never 51 (`GuardExactly`, `GuardActs`, `FiftyGoBy`).
- The lock in `placeBid` is there so that bids cannot both pass the minimum-bid check
  (`backend/controllers/bidController.js:117-119`). `getHighestBid` counts paid bids only, so two bids of the
  same amount go in one after the other while the first awaits payment (`PendingBidsTie`); and the lease may
  run out under a slow request (`LateRequestTies`). `SettledIsExact` says which reads are safe.
- The handlers call `RefreshToken.revokeToken` and `revokeAllForUser`, which `backend/models/RefreshToken.js`
  does not define. Rotation and logout do what they are for if and only if these helpers exist
  (`RotationNeedsRevokeToken`, `OnceNeedsRevokeToken`, `LogoutNeedsRevokeAll`). Refresh tokens are signed with version 0, so a user
  whose version was ever raised can log in but not refresh (`NoRefreshAfterBump`, `NewSessionUsable`).
- `importConfig` calls `findAll` and `update`, which the models made by `backend/models/_base.js` do not have;
  then every item of a known category ends up in the error list (`ImportConfig`, with `storeWorks` false).
- `login` reads its row through a projection that fetches neither the counter nor the lock
  (`backend/controllers/authController.js:309`, `backend/models/_base.js:429-461`,
  `backend/utils/fieldMap.js:294-306`), so every wrong password is compared and no account is ever locked
  (`EveryGuessCompared`, `NeverLocked`). With all columns it would not help either, since the lock arrives as
  text. The bound that the handler is written for holds if and only if the counter is read, and the lock as a
  time (`BoundNeedsReading`).
- An emptied list stays in the Redis fallback as the text `[]`, which `get` shows and `del` counts, and `hset`
  answers 1 for a field that exists; the replies are Redis's if and only if no operation does one of these
  (`RunRefines`, `EmptiedListShows`).
- The listing query is written for MongoDB, and `buildWhere` (`backend/models/_base.js:531-603`) runs it on
  Supabase. There, requests for a seller type, for a city, by keyword without an order, or by a short keyword
  among auctions answer 500 (`FailsExactly`, `TheseFail`); exact texts become contained ones, so that
  `model=A4` finds an A4 Allroad (`ModelFindsMore`); and some characters of a VIN or short keyword mean
  something else (`NotPlainDiffers`). Which requests are answered rightly is exact for both layers
  (`RightExactlyWhen`).
- In both, an explicit `auctionStatus=live` replaces the not-live clause of `category=fixed`, and the query then
  finds live auctions (`QueryMeansFilters`, `RightExactlyWhen`).
- The precached manifest is never refreshed for `caches.match`: its requests are dynamic and write to a
  younger cache (`PrecachedStaysStale`).
- A fractional image index beyond the last image on delete leaves the cover out of range (`DeleteInRange`).
  Updating cannot, but for an odd reason: `car.set` does not exist, so an update that names any field it may
  assign throws and saves nothing; if it existed, the validation would still turn a null cover into 0
  (`NullsBreakIff`, `CoverExactly`).
- A page created with an empty page type shows `page` while its first revision keeps the empty text
  (`RevisionsFollowPage`, `EmptyPageTypeDiffers`).
- In the migrations under `supabase/migrations`, `cms_pages` requires a `page_code` that `createPage` does not
  give, and no migration creates `error_budgets` or the master-data tables. The models are of the handlers;
  what the database refuses is a parameter of the page handlers (`accepted`) and of the import (`storeWorks`).
- The walk of the simulator expands ids in order of distance, but the recorded path, and with it the raw
  queue, is not in that order (`RecordedPathIsNotByDistance`).
- The 409 of `acceptTeamInvite` cannot be reached (`AlreadyMemberNeverHappens`).

## Model

| member | source | states |
|---|---|---|
| WorkflowSimulator.Simulate | backend/controllers/automationController.js:868-934 | terminates on every graph, repeated ids included; without a start node only a warning; otherwise the path, the warnings and the stop are those of a breadth-first walk: ids expanded once each in order of distance, an edge recorded exactly when its target is not yet expanded, at most 1 + the number of edges entries, everything recorded reachable; the duration by counting the types on the path; and the three fixed outcomes |
| WorkflowSimulator.DurationCounts | backend/controllers/automationController.js:919-922 | of every path: 60 s for each delay, 5 s for each notification, an hour for each approval, half an hour for each task, 10 s for everything else |
| WorkflowSimulator.AnswerRecords | backend/controllers/automationController.js:881-917 | whatever the simulator returns: the path is the start and then, for each expanded id, one entry per edge from it to an id not yet expanded, in the order of the edges, with the type of the first node of that id and the edge's label; the warnings are, for each expanded id, a missing edge and a delay of more than a day |
| WorkflowSimulator.TerminalMeans | backend/controllers/automationController.js:893-894 | the walk stops at an id that no node has, or whose first node is of type `end` |
| WorkflowSimulator.Follow | backend/controllers/automationController.js:902-908 | the inner loop appends one entry, and queues one id, for each outgoing edge to an id that was not visited, in order |
| WorkflowSimulator.WithinIsWalks | backend/controllers/automationController.js:886-909 | the distance used in these statements is the one of the graph: x is within n edges iff some walk along edges of at most n steps leads to it |
| WorkflowSimulator.StopsIffTerminalReachable | backend/controllers/automationController.js:886-894 | the walk stops early iff an `end` node or dangling id is reachable; otherwise the visited ids are exactly the reachable ones |
| WorkflowSimulator.StopIsNearest | backend/controllers/automationController.js:886-910 | no walk to any `end` node or dangling id is shorter than the shortest walk to the one where the simulator stops |
| WorkflowSimulator.HeadIsFarthest | backend/controllers/automationController.js:886-889 | an id met for the first time is no farther than any id not yet expanded, and no nearer than those already expanded |
| WorkflowSimulator.RecordedPathIsNotByDistance | backend/controllers/automationController.js:902-908 | for a graph of four nodes, whatever the simulator returns has the path s, b, a, c, a, although c is farther than a |
| BidProtocol.NobodyInsertsBetween | backend/controllers/bidController.js:149-156 | in every interleaving of any number of requests, payments, edits and clock ticks in which no lease is outlived: between one request's read of the highest bid and its insert nobody else inserts on that car |
| BidProtocol.InsertedAmountsIncrease | backend/controllers/bidController.js:223-235 | in every such run a bid tops every earlier bid on its car by at least the minimum increment of that bid, if the read behind it was settled; if the query ranges over all bids, every read is |
| BidProtocol.SettledIsExact | backend/controllers/bidController.js:224-235 | for a request about to read, in any state: whatever amount it asks for, passing the check means topping every bid on the car, iff no bid on the car is above the current bid that it reads |
| BidProtocol.PaidBidsAreOutbid | supabase/migrations/20260901210000_phase8_transaction_atomicity.sql:133-250 | in every run, leases outlived or not: when a bid goes in it tops every bid on its car that is then paid by the minimum increment, and does so in whatever follows |
| BidProtocol.OneBidEach | backend/controllers/bidController.js:257-296 | in every such run: a request inserts at most one bid; a lock is held only for a request still at work; two requests inside the lock are never on one car |
| BidProtocol.AnswersMeanBids | backend/controllers/bidController.js:115-298 | in every run, leases outlived or not: a request that answers 200 has inserted exactly one bid, of its own user, car and amount; one not yet answered, or answered 400, 401, 403, 404 or 409, has inserted none; only a 500 may hide a bid |
| BidProtocol.InsertsExactly | supabase/migrations/20260901210000_phase8_transaction_atomicity.sql:133-250 | in every state: a request at its insert adds a bid iff the amount is positive, the car is there, live, not past its end, neither the bidder's own nor led by the bidder, and the amount tops the highest bid that counts by its increment, all written out; otherwise nothing is added |
| BidProtocol.ArrivalExactly | backend/controllers/bidController.js:115-154 | which requests are turned away before the car is locked, and which take the lock |
| BidProtocol.CarExactly | backend/controllers/bidController.js:157-193 | a request inside the lock goes on iff its car is there, is not the bidder's own, is live and not past its end, and is not led by the bidder; it is released with 404 or 400 otherwise |
| BidProtocol.BidderExactly | backend/controllers/bidController.js:195-221 | it goes on iff the phone is verified and, above 5,000,000, a deposit is held; 400 or 403 otherwise |
| BidProtocol.PriceExactly | backend/controllers/bidController.js:223-235 | it goes on iff its amount tops the current bid it reads by the increment of the tier |
| BidProtocol.ReleaseExactly | backend/controllers/bidController.js:290-294 | leaving gives the lock back iff the request still holds it, and answers what was decided |
| BidProtocol.PaymentExactly | supabase/migrations/20260901210000_phase8_transaction_atomicity.sql:258-339 | a confirmed payment makes a pending bid paid, and makes it the car's current bid and bidder iff the car is live, not past its end and the bid is above the current one |
| BidProtocol.ThrowsExactly | backend/controllers/bidController.js:286-296 | a request that throws inside the lock is released with 500 and leaves its bid, if it has one |
| BidProtocol.TiersMean | backend/utils/bidRules.js:5-11 | the increment is 1,000 below 100,000, then 5,000 below 500,000, 10,000 below 2,000,000, and 25,000 from there |
| BidProtocol.BidsAreChecked | backend/controllers/bidController.js:195-221 | in every run, behind every bid its request has passed the phone check, and with an amount above 5,000,000 the deposit check |
| BidProtocol.StepTruthful | backend/controllers/bidController.js:257-296 | each transition keeps that |
| BidProtocol.StepKeeps | backend/controllers/bidController.js:115-298 | each transition keeps the invariant: lease held while inside, nothing inserted since the read, prices topped, one bid each, no lock left behind |
| BidProtocol.RunKeeps | backend/controllers/bidController.js:115-298 | so does every run |
| BidProtocol.IncrementGrows | backend/utils/bidRules.js:5-11 | the tiers never make a higher bid cheaper to beat |
| BidProtocol.PendingBidsTie | backend/models/Bid.js:10-14 | with the query as it is, a run of two requests that inserts the same amount twice on one car |
| BidProtocol.LateRequestTies | backend/middleware/distributedLock.js:14-57 | a run in which a request outlives its 15 s lease and two equal bids go in even though the query ranges over all bids |
| SocketLimiter.RateLimiter.IsRateLimited | backend/server.js:580-590 | an event is refused iff it exceeds the budget of the window of its name, as determined by the whole trace so far |
| SocketLimiter.SlidingBound | backend/server.js:578-590 | over any trace and any interval of len ms, at most 10q + 10 events of one name pass if 10001 divides len and 10q + 19 otherwise (q = len div 10001); so at most 10(len div 10000 + 2), and 19 up to 10 s |
| SocketLimiter.BoundAttained | backend/server.js:578-590 | for every length some trace reaches that bound |
| SocketLimiter.RefusalHasCause | backend/server.js:588-589 | a refused event is at least the eleventh of its name within the last 10 s |
| SocketLimiter.BudgetKept | backend/server.js:584-588 | what has passed since any instant is paid for by the windows opened since |
| RejectionGuard.Process.UnhandledRejection | backend/server.js:1072-1081 | up to the await: an alert is begun, or the rejection is counted at once |
| RejectionGuard.Process.AlertEnded | backend/server.js:1077-1083 | behind the await: the rejection is counted, or a throwing alert becomes the next rejection |
| RejectionGuard.Process.CountRejection | backend/server.js:1083-1096 | the window is renewed when over, the rejection counted, the shutdown begun beyond 25 |
| RejectionGuard.Process.Shutdown | backend/server.js:1001-1003 | afterwards a shutdown is in progress |
| RejectionGuard.AlertsExactly | backend/server.js:1076-1081 | in every run a rejection, one from a throwing alert included, sends an alert iff alerts are configured and no rejection has been counted yet |
| RejectionGuard.AlertsStop | backend/server.js:1076-1088 | once a rejection has been counted no further alert is sent, in any continuation |
| RejectionGuard.FailingAlerts | backend/server.js:1072-1081 | in every run where all alerts throw nothing is counted, the guard does not act, and each alert begins another |
| RejectionGuard.GuardActs | backend/server.js:1083-1096 | in every run: a shutdown means that 26 rejections were counted within 60 s; 51 within 60 s mean a shutdown |
| RejectionGuard.GuardExactly | backend/server.js:1083-1096 | in every run: the shutdown has begun iff 26 rejections in a row fell in one of the windows, each opened by the first rejection too late for the one before |
| RejectionGuard.FiftyGoBy | backend/server.js:1084-1090 | a run in which 50 rejections are counted within 1 ms without a shutdown |
| RejectionGuard.RejectionsAreConserved | backend/server.js:1072-1096 | in every run each rejection is counted once or waits for its alert, however often alerts throw |
| RejectionGuard.StepKeeps | backend/server.js:1072-1096 | each transition keeps the window's count exact and what lies more than 25 before the window more than 60 s before it |
| ServiceWorker.ClassifiedAlike | public/sw.js:64-94 | two requests for one URL go to the same handler iff the URL itself is an image's or both or neither ask for an image |
| ServiceWorker.ClassifiedBy | public/sw.js:64-94 | which handler a request goes to, by destination, host and ending of the path, each kind both ways |
| ServiceWorker.BeginsExactly | public/sw.js:53-61 | the active worker takes a request over iff it is a GET for http or https; API and HTML requests go to the network first, the others look into the caches |
| ServiceWorker.HitIsRefreshed | public/sw.js:97-104 | in every state of every run, a request that finds its URL is answered from the cache, and a fetch is then under way iff it is for an image or dynamic; one that does not find it goes to the network unanswered |
| ServiceWorker.HitBecomesVisible | public/sw.js:183-214 | in every run, behind such a hit an ok response that is fetched and put makes the next match find it, while the request keeps the old answer |
| ServiceWorker.OneRequest | public/sw.js:97-218 | in every state of every run, for every request, cached or not, whether its fetch ends well, badly or not at all: what it is answered with and what its cache holds once it has run undisturbed from beginning to end |
| ServiceWorker.CachesAreOneMap | public/sw.js:97-218 | for a URL that is not precached and always classified alike, in every state of every run `caches.match` answers with the last response put since the last deletion, and nothing if there is none: four caches agree with one map |
| ServiceWorker.StepAgrees | public/sw.js:97-218 | each transition keeps that agreement, late puts into deleted caches included |
| ServiceWorker.RunAgrees | public/sw.js:97-300 | so does every run from any sound state |
| ServiceWorker.ServedResponses | public/sw.js:97-204 | whatever answers a request is the response it fetched, what `caches.match` holds for its URL or a fixed fallback, the offline body, or a network error when nothing else is there, each only in its own case |
| ServiceWorker.ServedFromCacheIsLatest | public/sw.js:97-204 | what is served from a cache is the last ok response put for that URL since the last deletion, and the URL is the request's own, the placeholder or the index page |
| ServiceWorker.NetworkFirstServesNetwork | public/sw.js:120-165 | an API or HTML request whose fetch succeeded is answered with that response and never from a cache |
| ServiceWorker.RefreshBecomesVisible | public/sw.js:207-214 | a response fetched and put without disturbance is what the next match finds, and does not change what its own request was answered with |
| ServiceWorker.PrecachedStaysStale | public/sw.js:12-32 | however the manifest is refreshed, `caches.match` answers with the copy of the installation |
| ServiceWorker.ManifestIsDynamic | public/sw.js:89-94 | the precached URL is handled as dynamic, not as a static asset |
| ServiceWorker.StepSound | public/sw.js:23-218 | each transition keeps the caches well formed, every stored response ok, and every task honest about what it fetched and served |
| JsonList.RoundTrip | backend/config/redis.js:58-74 | a list of strings written by JSON.stringify is read back by JSON.parse, whatever characters the strings have |
| JsonList.EscapesExactly | backend/config/redis.js:58-69 | quotation marks, backslashes and control characters are escaped, nothing else |
| JsonList.ReadsUnicode | backend/config/redis.js:60-72 | a character written as four hexadecimal digits is read, small or capital, unless it is half of a pair |
| RedisFallback.InMemoryFallback.Get | backend/config/redis.js:26-29 | the text stored under the key, or nothing |
| RedisFallback.InMemoryFallback.Set | backend/config/redis.js:30-33 | stores the text and changes nothing else |
| RedisFallback.InMemoryFallback.Del | backend/config/redis.js:34 | removes this one entry and says whether it was there |
| RedisFallback.InMemoryFallback.Incr | backend/config/redis.js:36-40 | one more than the number read, stored as text |
| RedisFallback.InMemoryFallback.Decr | backend/config/redis.js:41-45 | one less, stored as text |
| RedisFallback.InMemoryFallback.HGet | backend/config/redis.js:46 | the entry of the field |
| RedisFallback.InMemoryFallback.HSet | backend/config/redis.js:47-50 | stores the entry of the field and changes nothing else |
| RedisFallback.InMemoryFallback.HGetAll | backend/config/redis.js:51-57 | exactly the entries that start with the key and a colon, by what follows |
| RedisFallback.InMemoryFallback.LPush | backend/config/redis.js:58-63 | the value goes to the front of the list; unreadable text throws and changes nothing |
| RedisFallback.InMemoryFallback.RPop | backend/config/redis.js:64-69 | the last element is taken off and returned |
| RedisFallback.InMemoryFallback.LRange | backend/config/redis.js:70-74 | the slice of the list, with -1 for its end |
| RedisFallback.Call | backend/config/redis.js:204-219 | any operation does to the flat map what the step relation says |
| RedisFallback.ParseIntInverse | backend/config/redis.js:37-38 | a number stored as text is read back, negative ones included |
| RedisFallback.NumbersEnd | backend/config/redis.js:37-38 | the number is read up to the first character that is no digit, behind blanks and a sign; a text without one is 0 |
| RedisFallback.EmptyCountsAsMissing | backend/config/redis.js:36-74 | for counters and lists an empty text is as good as none |
| RedisFallback.FailsExactly | backend/config/redis.js:58-74 | an operation fails iff it wants a list and finds a text that is none, and changes nothing then |
| RedisFallback.SliceIsRange | backend/config/redis.js:72-73 | for every integer start and stop the slice is Redis's LRANGE |
| RedisFallback.EntriesApart | backend/config/redis.js:46-54 | if no key is another plus a colon plus more text, entries of different keys never coincide |
| RedisFallback.StepRefines | backend/config/redis.js:24-75 | an operation that fits what its key holds, on keys kept apart, keeps the flat map representing Redis's store of strings, hashes and lists plus the texts that emptied lists left; its reply is Redis's iff it is not a get or del of such a text nor an hset of a field that exists |
| RedisFallback.RunRefines | backend/config/redis.js:24-75 | after every disciplined sequence the flat map represents what Redis would hold, and all replies are Redis's iff no operation in it is one of these |
| RedisFallback.EmptiedListShows | backend/config/redis.js:64-69 | an rpop on a key that is not there makes the next get answer the text of an empty list, where Redis answers nothing |
| RedisFallback.TypedQueue | backend/config/redis.js:58-69 | first in, first out, for any mix of lpush and rpop: initial contents and pushes equal pops and final contents, in order |
| RedisFallback.FlatQueue | backend/config/redis.js:58-69 | the same of the flat map, whose replies to lpush and rpop are always Redis's |
| RedisFallback.MissingHashIsExact | backend/config/redis.js:51-57 | a hash reads as missing iff no entry starts with its key and a colon |
| RedisFallback.DelLeavesHash | backend/config/redis.js:34 | del on a hash leaves every field, and answers 0 unless an emptied list left its text there |
| RefreshTokens.AuthStore.SendAuthResponse | backend/controllers/authController.js:104-137 | creates the row of a fresh token, then revokes the old token; without the helper the new row stays and the answer is 500 |
| RefreshTokens.AuthStore.Handle | backend/controllers/authController.js:391-640 | register, login, password change, refresh, revocation and logout change accounts and rows as the transition function says |
| RefreshTokens.ChainsHaveOneLiveToken | backend/controllers/authController.js:112-125 | with the helpers, after every handler of every run each chain has at most one unrevoked token |
| RefreshTokens.RotationNeedsRevokeToken | backend/models/RefreshToken.js:1-2 | after an accepted refresh the chain has one live token iff the helpers exist |
| RefreshTokens.AcceptedOnce | backend/controllers/authController.js:419-440 | with the helpers, in every run a token is accepted by refresh at most once |
| RefreshTokens.OnceNeedsRevokeToken | backend/models/RefreshToken.js:1-2 | in every run, a token that refresh accepts is never accepted again iff the helpers exist; if they do not it is accepted again at once |
| RefreshTokens.RevokedForever | backend/controllers/authController.js:419-422 | a token whose row is revoked is never accepted again, whatever follows |
| RefreshTokens.LoggedOutForever | backend/controllers/authController.js:450-463 | with the helpers, after logout or revoke-all no token the user had before is ever accepted |
| RefreshTokens.ChangedPasswordEndsSessions | backend/controllers/authController.js:602-640 | in every run, with the helpers or without: once a user has changed the password, no token signed for the user before is ever accepted again |
| RefreshTokens.ChangedPasswordSparesOthers | backend/controllers/authController.js:626-640 | tokens of other users are accepted as before |
| RefreshTokens.LogoutNeedsRevokeAll | backend/controllers/authController.js:526-533 | a usable token stops being accepted after logout iff the helpers exist |
| RefreshTokens.NewSessionUsable | backend/controllers/authController.js:424-433 | the token of a session just opened is accepted iff the version signed into it is the one refresh compares with |
| RefreshTokens.AcceptedExactly | backend/controllers/authController.js:419-433 | in every run a stored token is accepted iff its row is not revoked and its user's version was never raised |
| RefreshTokens.VersionsExactly | backend/controllers/authController.js:456-634 | a stored version is raised by one by a password change of its user and, with the helpers, a logout, and by nothing else |
| RefreshTokens.RevokesExactly | backend/controllers/authController.js:509-533 | with the helpers a row is revoked by the refresh of its token, by its owner, or with all others of its owner; without them by nothing |
| RefreshTokens.SignsExactly | backend/controllers/authController.js:104-125 | which requests add a row, for which user, in which chain |
| RefreshTokens.AnswersExactly | backend/controllers/authController.js:391-543 | which answer is given when, each both ways |
| RefreshTokens.NoRefreshAfterBump | backend/utils/generateToken.js:54-63 | once a user's stored version is above 0, no token of the user is ever accepted |
| Lockout.UserAuth.Login | backend/controllers/authController.js:309-379 | one call's effect on the stored counter and lock, and its answer, as the transition function says, for each way of reading the row |
| Lockout.AnswersExactly | backend/controllers/authController.js:309-379 | each answer iff its condition, and what is stored then: at the fifth counted wrong password a lock for 15 minutes; a login clears what was read |
| Lockout.LockLasts | backend/controllers/authController.js:311-330 | where the lock is read as a time: every call in the 15 minutes behind it is turned away, right password or wrong, and the first later one is not |
| Lockout.EveryGuessCompared | backend/controllers/authController.js:309-317 | unless the counter is read, and the lock as a time, every wrong password of every run is compared, whatever is stored |
| Lockout.NeverLocked | backend/models/_base.js:429-461 | with the projection that login uses: in every run the stored counter of an unbanned account is 1 once a wrong password came, nothing else of the row changes, and every wrong password answers 401 |
| Lockout.BoundNeedsReading | backend/controllers/authController.js:309-340 | the bound below holds of all runs iff login reads the counter, and the lock as a time |
| Lockout.GuessesBounded | backend/controllers/authController.js:311-340 | under that reading: from any counter and lock of an unbanned account, as long as nobody logs in, a span T sees at most 5 + T div 15 min wrong passwords compared |
| Lockout.GuessesAttained | backend/controllers/authController.js:322-330 | and for every span a run of calls reaches that number |
| Lockout.BannedNeverLocks | backend/controllers/authController.js:322-333 | under every reading, every wrong password sent to a banned account is compared |
| SearchPattern.AnchoredMatches | backend/controllers/carController.js:95-124 | the anchored pattern written for a user's text matches exactly that text up to case, whatever characters it has |
| SearchPattern.EscapedMatches | backend/controllers/carController.js:89-90 | the pattern without anchors matches exactly the texts that contain the user's |
| SearchPattern.EscapesExactly | backend/controllers/carController.js:89-95 | a backslash is put before each of the 14 operator characters and no other |
| SearchPattern.ContainsMeans | backend/controllers/carController.js:89-90 | containing up to case: somewhere in the text each letter is the same letter as the part's |
| IlikePattern.PlainContains | backend/models/_base.js:546-596 | a text without special characters, escaped by the controller and wrapped by buildWhere, is found exactly where it is contained up to case |
| IlikePattern.WildcardsMean | backend/models/_base.js:546-596 | a percent sign in the filter stands for any stretch, an underscore for one character |
| IlikePattern.NotPlainDiffers | backend/models/_base.js:546-596 | for every other text there is one that is found without containing it |
| IlikePattern.AnchorsGone | backend/models/_base.js:594-597 | the filter for an exact text is the filter for a contained one |
| IlikePattern.LikePrefix | backend/models/_base.js:594-597 | what such a filter finds it still finds with more in front |
| CarQuery.BuildQuery | backend/controllers/carController.js:80-183 | the step-by-step assignments yield one condition per field, the text search, the `$or` or `$and` as written, and the order by score; no query where the lookup of sellers throws |
| CarQuery.SplitJoins | backend/controllers/carController.js:94 | the parts of the list of brands, joined with commas, are the list again, and no part has a comma |
| CarQuery.SplitLists | backend/controllers/carController.js:94 | a text is one of the parts iff it is a comma-free stretch of the list between commas or the ends |
| CarQuery.AddFirstFilters | backend/controllers/carController.js:94-114 | brand, model, city, price and year |
| CarQuery.AddLooks | backend/controllers/carController.js:120-124 | body, fuel, transmission, colour and condition |
| CarQuery.AddLastFilters | backend/controllers/carController.js:126-147 | mileage, VIN, engine, drivetrain and seller; nothing if the lookup of sellers throws |
| CarQuery.FoldHolds | backend/controllers/carController.js:94-140 | conditions on different fields hold together iff each requested one holds, however they are read |
| CarQuery.BuiltFinds | backend/controllers/carController.js:80-168 | in both layers, a query that does not fail finds a car iff it meets every filter as the layer reads it, with the category as the query has it |
| CarAnswers.FailsExactly | backend/models/_base.js:492-603 | with Supabase a request answers 500 iff it asks for a seller type or a city, has a keyword of three characters or more and no order, a shorter one together with category `auction`, or a keyword with a closing parenthesis |
| CarAnswers.TheseFail | backend/controllers/carController.js:99-186 | each of these requests fails |
| CarAnswers.ModelFindsMore | backend/models/_base.js:594-597 | `model=A4` finds an A4 Allroad, which was not asked for |
| CarAnswers.QueryMeansFilters | backend/controllers/carController.js:149-168 | with MongoDB a car is found iff it meets every requested filter (its brand being a whole entry of the list of brands), unless category `fixed` comes with auction status `live`: then nothing meets the request and the query finds exactly the fitting live auctions that take no bids |
| CarAnswers.SupabaseRight | backend/models/_base.js:531-603 | with Supabase a request that does not fail, asks for no exact text, has a VIN and a short keyword free of special characters (or a keyword that every requested brand meets either way), and is not that one, lists exactly the wanted cars; so does one whose number ranges are empty |
| CarAnswers.SupabaseWrong | backend/models/_base.js:531-603 | for every request that asks for something else than these, and whose number ranges are not empty, there are cars for which the answer is wrong |
| CarAnswers.RightExactlyWhen | backend/controllers/carController.js:80-186 | for each layer, the requests that are answered rightly whatever cars and sellers there are, both ways |
| CoverImage.Car.FindFirstValidIdx | backend/controllers/carController.js:612-619 | the loop finds the first image with an http address, 0 if there is none |
| CoverImage.Car.UpdateCar | backend/controllers/carController.js:550-634 | validation and handler: images and cover after an update; nothing changes when it is refused or throws |
| CoverImage.Car.Assign | backend/controllers/carController.js:603-634 | the assignments and the choice of the cover |
| CoverImage.Car.DeleteCarImage | backend/controllers/carController.js:714-744 | images and cover after deleting one image |
| CoverImage.Car.AddCarImages | backend/controllers/carController.js:775-804 | images after adding, refused beyond 20 |
| CoverImage.CreateInRange | backend/controllers/carController.js:417-430 | a created listing's cover is one of its images |
| CoverImage.CreatesExactly | backend/controllers/carController.js:417-430 | which creations are saved, and the cover: the number asked for if it is an image's, else 0 |
| CoverImage.UpdatesExactly | backend/controllers/carController.js:603-634 | which updates are saved, with or without validation and `car.set`, and the cover for each kind of value: the number asked for, the first image with an http address, 0, null or the old one |
| CoverImage.UpdateInRange | backend/controllers/carController.js:621-634 | an update that is saved keeps the cover in range iff it names no null, or is validated, or leaves no images |
| CoverImage.NullsBreakIff | backend/middleware/validate.js:254-270 | at this commit every run with whole indices keeps the cover in range, whatever covers the requests name; a null can break that iff there is no validation and `car.set` works |
| CoverImage.DeleteInRange | backend/controllers/carController.js:720-742 | a deletion keeps it in range iff the index is whole, or it was the only image, or not both index and cover were at the last image |
| CoverImage.DeleteKeepsCover | backend/controllers/carController.js:733-742 | with whole indices the cover shows the same image as before, or the first if its image was deleted |
| CoverImage.AddKeepsCover | backend/controllers/carController.js:803 | adding keeps the cover in range and on the same image |
| CoverImage.StepExact | backend/controllers/carController.js:621-634 | for every action on a listing whose cover is in range, null or just behind the last image, the condition under which it is in range afterwards, both ways |
| CoverImage.CoverExactly | backend/controllers/carController.js:417-430 | in every run, with any covers and indices, with or without validation and `car.set`, the cover is in one of these three places and the condition is exact |
| CoverImage.CoverStaysInRange | backend/controllers/carController.js:417-430 | in every run in which no null is stored and all indices are whole the cover is in range |
| CmsHistory.CmsStore.CreatePage | backend/controllers/cmsController.js:68-101 | page, first revision and answer, as the transition function says; nothing is written when the slug is taken or the database refuses the row |
| CmsHistory.CmsStore.UpdatePage | backend/controllers/cmsController.js:103-146 | fields present in the request replace the page's, the version grows by one, a revision is appended |
| CmsHistory.CmsStore.RollbackPage | backend/controllers/cmsController.js:190-222 | the fields of the revision replace the page's; unknown versions answer 404; a deleted page with history throws |
| CmsHistory.CmsStore.DeletePage | backend/controllers/cmsController.js:148-152 | the page goes, its revisions stay |
| CmsHistory.CmsStore.ChangeStatus | backend/controllers/cmsController.js:154-188 | only the status changes |
| CmsHistory.CreatesExactly | backend/controllers/cmsController.js:68-101 | which answer is given when, the defaults of a new page, and its first revision |
| CmsHistory.UpdatesExactly | backend/controllers/cmsController.js:103-146 | which answer is given when (a slug counts as taken if another page has it and it is not the page's own), and each field, the status, the version and the revision afterwards |
| CmsHistory.RollsBackExactly | backend/controllers/cmsController.js:190-222 | the same of a rollback |
| CmsHistory.DeletesAndSetsExactly | backend/controllers/cmsController.js:148-188 | deleting takes one page and no revision; a change of status changes the status of one page and nothing else |
| CmsHistory.StatusStays | backend/controllers/cmsController.js:154-219 | a status that was set stays, through updates without a status, rollbacks and whatever happens to other pages |
| CmsHistory.RunKeeps | backend/controllers/cmsController.js:68-222 | in every run, refused writes included, the log numbers each page's revisions 1 to its version, and a page shows what its newest revision has, with the defaults filled in if it was only created |
| CmsHistory.RevisionsFollowPage | backend/controllers/cmsController.js:91-98 | in every run a live page's revisions carry versions 1 .. n once each, n its version; and when the newest has all five fields it equals the page's data iff the page is not one only created, with an empty page type |
| CmsHistory.RollbackRestores | backend/controllers/cmsController.js:190-219 | if the database takes the row, rolling back to any version the page has had succeeds, shows that revision, adds one version and leaves the status; a revision with all five fields is restored exactly |
| CmsHistory.RollbackUndone | backend/controllers/cmsController.js:204-219 | a second rollback, to the version before the first, restores the data iff the newest revision had every field the first one changed, as it has if it was written with all five, and the page was not only created, with an empty page type |
| CmsHistory.EmptyPageTypeDiffers | backend/controllers/cmsController.js:79-96 | a page created with an empty page type shows `page` and its revision the empty text |
| MasterDataImport.Table.ImportConfig | backend/controllers/configurationController.js:765-809 | the loop's table and counters: created plus matched is the number of items, created is the growth of the table; unknown categories do nothing; without findAll every item is an error |
| MasterDataImport.ImportTwiceIsOnce | backend/controllers/configurationController.js:765-809 | importing a list again changes no row and creates nothing, with or without overwriting, with repeated keys, by any user |
| MasterDataImport.ImportSettles | backend/controllers/configurationController.js:773-809 | after one import every item has its row and every row already shows what the list would write |
| MasterDataImport.ImportMatched | backend/controllers/configurationController.js:773-777 | if every item has a row, the import writes over each row what the list has for it, later items last, and creates nothing |
| MasterDataImport.ImportKeepsUnique | backend/controllers/configurationController.js:773-804 | natural keys stay unique if they were |
| MasterDataImport.EntriesStayUnique | backend/controllers/configurationController.js:773-804 | no two rows with the same type and value, or for locations type, value and country, if there were none |
| MasterDataImport.CategoriesAre | backend/controllers/configurationController.js:772-796 | vehicle, reference and location are imported, nothing else |
| MasterDataImport.CreatedShows | backend/controllers/configurationController.js:780 | a created row has the item's columns, defaults for the others, and the user |
| AlertPolicies.BudgetStore.EvaluateBurnRateAlerts | backend/config/alertPolicies.js:16-102 | the nested loops do policy by policy and SLO by SLO what the evaluation of one does, and give a policy up when its alert throws |
| AlertPolicies.BudgetStore.EvaluateErrorBudgetStatusAlerts | backend/config/alertPolicies.js:108-170 | each budget is evaluated by itself, a throwing alert leaving it as it was |
| AlertPolicies.EvaluateOneExact | backend/config/alertPolicies.js:55-94 | a policy's event is opened only when firing and none is open, closed only when quiet, is open afterwards iff firing (or not judged and open before); other policies' events stay |
| AlertPolicies.EventsExact | backend/config/alertPolicies.js:55-94 | a new event goes behind the others, the open one is acknowledged in its place, everything else stays; giving up iff a new event's alert throws |
| AlertPolicies.FiringMeans | backend/config/alertPolicies.js:25-56 | a policy fires iff the SLO is configured, its budget positive, two snapshots lie in the window, and consumption over it is at least burnRate times an even consumption over 30 days |
| AlertPolicies.JudgedMeans | backend/config/alertPolicies.js:25-40 | it is judged at all, firing or quiet, iff the first three of these hold |
| AlertPolicies.RecentIs | backend/config/alertPolicies.js:34-36 | the snapshots looked at are exactly those since the cutoff |
| AlertPolicies.OpenExactlyWhenFiring | backend/config/alertPolicies.js:19-99 | after a whole evaluation of any policies with distinct ids, with any alerts throwing: on a budget that its SLO finds and that the policy reaches, its event is open iff the policy fires there, or could not be judged and it was open; behind the first alert of the policy that throws, and on other budgets, it is open iff it was |
| AlertPolicies.PolicyExact | backend/config/alertPolicies.js:20-98 | the same of one policy, whose SLOs are evaluated up to the first whose alert throws |
| AlertPolicies.StatusKeeps | backend/config/alertPolicies.js:122-163 | the status evaluator closes nothing, opens at most the event of the highest threshold reached, and never a second one |
| AlertPolicies.StatusExactly | backend/config/alertPolicies.js:108-163 | which of the three events is added, by the highest threshold reached, iff it is not open and its alert does not throw; otherwise nothing changes |
| AlertPolicies.RunsStaySingle | backend/config/alertPolicies.js:16-170 | over every run of both evaluators, with snapshots and acknowledgements in between and any alerts throwing, no budget has two unacknowledged events of one policy |
| Histogram.Metrics.RecordHistogram | backend/config/metrics.js:50-56 | the value is appended under its key, other keys keep theirs |
| Histogram.Metrics.GetHistogram | backend/config/metrics.js:63-82 | the statistics of what was recorded under the key, all 0 if nothing was |
| Histogram.Metrics.GetAllMetrics | backend/config/metrics.js:108-119 | one entry for each key: the statistics of the recording under the key that its first part and its reparsed tags make, so its own if every key is taken apart into what it was made of; it throws iff some tags do not parse |
| Histogram.PercentileRank | backend/config/metrics.js:78-80 | a percentile is a recorded value, at least floor(qn) + 1 values are at most it and at least n - floor(qn) are at least it |
| Histogram.StatsMean | backend/config/metrics.js:63-82 | p50, p95 and p99 have the ranks 50, 95 and 99 among the values: more than so many percent are at most it, and at least the rest are at least it; everything is 0 if nothing was recorded |
| Histogram.AverageTimesCount | backend/config/metrics.js:70-74 | the average times the number of values is their sum |
| Histogram.StatsAddUp | backend/config/metrics.js:69-74 | counts and sums of two recordings add up |
| Histogram.StatsOfOne | backend/config/metrics.js:69-81 | a single value is its own sum, average, extremes and percentiles |
| Histogram.StatsInOrder | backend/config/metrics.js:68-81 | min, p50, p95, p99 and max are in this order, the average between min and max, and min and max are the least and greatest values recorded |
| Histogram.StatsOfMultiset | backend/config/metrics.js:68-81 | recordings with the same values in another order have the same statistics |
| Histogram.SortedUnique | backend/config/metrics.js:68 | a sorted permutation is unique, so the sorting algorithm does not matter |
| Histogram.KeyTakenApart | backend/config/metrics.js:115 | a key is taken apart into the name and tags it was made of iff the name has no colon |
| Histogram.JoinSplit | backend/config/metrics.js:115 | joining what was split on colons gives the text back, colons in the tags included |
| Histogram.OwnKeyOf | backend/config/metrics.js:51-115 | keys made of a name without colon and of JSON text are taken apart into what they were made of |
| RecentSearches.Preferences.AddRecentSearch | patch_comm.py:194-199 | an empty query is refused; otherwise the query comes first, its older copy goes, and 20 are kept |
| RecentSearches.Preferences.ClearRecentSearches | patch_comm.py:201 | nothing is left |
| RecentSearches.AddedTake | patch_comm.py:197 | adding to the list that was cut to 20 gives the same as adding to the full list and cutting then |
| RecentSearches.StoredIsLatest | patch_comm.py:194-201 | after any run of add and clear the stored list is the 20 most recent distinct queries since the last clear, latest first |
| DealerTeams.TeamTable.InviteTeamMember | backend/controllers/dealerPlatformController.js:541-553 | row and answer as the transition function says: a removed row is invited again with a new token, any other row of the address is a conflict |
| DealerTeams.TeamTable.UpdateTeamMember | backend/controllers/dealerPlatformController.js:555-566 | role and status as requested, of a row of this dealer only; every refusal changes nothing |
| DealerTeams.TeamTable.AcceptTeamInvite | backend/controllers/dealerPlatformController.js:568-581 | the row becomes the user's and its token is spent; unknown, expired and foreign invitations are refused |
| DealerTeams.InvitesExactly | backend/controllers/dealerPlatformController.js:541-553 | in every run: 400 for a bad address or role, 409 iff the dealer has a row for the address that is not removed; otherwise one row becomes the invitation, with a token nobody had, for 604,800,000 ms |
| DealerTeams.UpdatesExactly | backend/controllers/dealerPlatformController.js:555-566 | which answer is given when, and exactly which fields of which row change |
| DealerTeams.AcceptsExactly | backend/controllers/dealerPlatformController.js:568-581 | in every run: 404, 410, 403 or success, each iff its condition; success makes the row the user's and spends the token, everything else changes nothing |
| DealerTeams.MembersWereInvited | backend/controllers/dealerPlatformController.js:541-581 | in every run, whoever is let into a team was invited by its dealer, at an own address, less than seven days before |
| DealerTeams.ValidEmailMeans | backend/controllers/dealerPlatformController.js:544 | an address is valid iff it is something@something.something without blanks or further at signs |
| DealerTeams.TeamsStaySound | backend/controllers/dealerPlatformController.js:541-581 | over every run: one row per dealer and address, a member owns the address invited, no token is accepted twice |
| DealerTeams.OneMembershipEach | backend/controllers/dealerPlatformController.js:576-578 | over every run a user belongs to a dealer's team through at most one row, active or not |
| DealerTeams.AlreadyMemberNeverHappens | backend/controllers/dealerPlatformController.js:576-577 | over every run the handler's test for an active membership never fires |
| Text.NormalTwice | backend/controllers/dealerPlatformController.js:542-575 | a trimmed lower-case address is not changed by trimming and lowering it again |
| Text.TrimMeans | backend/controllers/dealerPlatformController.js:542-575 | trimming takes all blanks off both ends and nothing else |
| Text.LowerMeans | backend/controllers/dealerPlatformController.js:542-575 | two texts are equal in small letters iff they are letter by letter the same |
| DealerSubscriptions.Database.GrantSubscription | harden_commercial.py:38 | the transaction's effect and answer: the dealer's active subscription is cancelled, a new one inserted, the user's columns set; a raise changes nothing |
| DealerSubscriptions.Database.RevokeSubscription | harden_commercial.py:38 | the active subscription is cancelled and the user's columns cleared; without one it raises and changes nothing |
| DealerSubscriptions.GrantsExactly | harden_commercial.py:38 | a grant goes through iff a registered dealer, a known plan and 1 to 3660 days are given; the new row and the user's columns then, with the end so many times 86,400,000 ms later; earlier subscriptions cancelled, other dealers untouched |
| DealerSubscriptions.RevokesExactly | harden_commercial.py:38 | revoking raises iff there is no active subscription; it cancels that one and clears the user's columns |
| DealerSubscriptions.StepKeeps | harden_commercial.py:38 | each call keeps at most one active subscription per dealer, mirrored by the user's columns, and cancelled rows cancelled |
| DealerSubscriptions.SubscriptionsStaySound | harden_commercial.py:38 | so does every run, however it goes on |
| DealerSubscriptions.GrantReplaces | harden_commercial.py:38 | a raise changes nothing; a grant makes its own row the active one, cancels the one before, and can be revoked |

## Left out

Weaker than the source, by member:

- WorkflowSimulator.Simulate: node types that name a property of every JavaScript object (such as `constructor`) are looked up as unknown types and count 10.
- BidProtocol.NobodyInsertsBetween: assumes that no request stays inside the lock for 15 s; `LateRequestTies` shows why.
- BidProtocol.InsertedAmountsIncrease: the same assumption, and for the query as it is only bids whose read was settled; `PendingBidsTie` shows why.
- ServiceWorker.CachesAreOneMap: for URLs that are not precached and always classified alike; `PrecachedStaysStale` and `ClassifiedAlike` say what the others do.
- RedisFallback.RunRefines: for operations that fit what the key holds, on keys, live or emptied, of which none is another plus a colon plus more text; `MissingHashIsExact` and `DelLeavesHash` say why.
- Lockout.GuessesBounded: for the reading that the handler is written for, which is not the one it has; `BoundNeedsReading` and `NeverLocked` are about the others.
- RefreshTokens.AcceptedOnce: for the case that the two missing helpers exist; `OnceNeedsRevokeToken` is the other case.
- RefreshTokens.LoggedOutForever: the same; `LogoutNeedsRevokeAll` is the other case.
- RefreshTokens.ChainsHaveOneLiveToken: for the case that the two missing helpers exist; `RotationNeedsRevokeToken` is the other case.
- CarQuery.BuiltFinds: which cars the search for a keyword of three or more characters finds is a parameter, in both layers; columns that are NULL are not modelled.
- JsonList.RoundTrip: texts are sequences of characters, so the lone surrogates that JavaScript strings may hold are left out.
- Histogram.StatsInOrder: values are exact reals, so the rounding of sums, averages and ranks is not modelled.
- CoverImage.CoverStaysInRange: without stored nulls and fractional indices; `CoverExactly` is about all runs.

Not modelled, by component:

- Automation: `evaluateConditions` and `evaluateRules`; node ids that are not text.
- Bids: auto-bidding, the closing of auctions, leads, SMS; amounts are integers; the payment call, the phone check and the escrow check are oracles; the local fallback of the lock.
- Socket server: the global request window, which is a fixed window as well; the closing steps of a shutdown, online users, the typing handler; the buckets' end with the socket. Clocks do not go back.
- Service worker: `Vary` headers, methods and fragments in cache matching; a failing `caches.open`; push, sync and notifications. Handlers are transitions on values, since they interleave.
- Redis: expiry, the switch between Redis and the fallback, Redis's own type errors, integers beyond 2^53, JSON text that `JSON.stringify` did not write, the field name `__proto__`.
- Auth: expiry of tokens and rows, the lockout by IP address, cookies, and two tokens of one user signed within one second, which would be the same text. Handlers are atomic and tokens fresh.
- Listing query: orders other than by score, and pages; infinite numbers; letters outside ASCII when case is ignored; how PostgREST reads quotation marks in a list of brands; the validator of the query in front of the handler, which narrows the values and reads any text of `featured`, `false` included, as true.
- Cover image: uploads, permissions, price history.
- CMS: slugs are not rechecked by rollback, so their uniqueness is not claimed beyond the database's refusal; the trigger that replaces a blank title or page type in the row; null, empty content, blog posts, banners; pages written by other services; handlers are atomic.
- Import: the ids and timestamps that the store adds, items with their own `id` or `createdBy`, failures of single store calls.
- Alerts: severities and message texts; rates are exact reals; evaluations that overlap at their awaits, where one may overwrite the events of the other; saves that fail.
- Metrics: counters, gauges, timers.
- Recent searches: the other preferences.
- Dealer teams: races between handlers, the audit log; a token text of the wrong length is not told from an unknown token.
- Subscriptions: prices, names, features and metadata; a NULL duration; the listing gate `assertDealerCanCreateListing`.
