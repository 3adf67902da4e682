# Verified model of the managed-key broker and its tooling

This project models, in Dafny 4.11, the parts of the app platform that keep money, ownership and
integrity straight, and proves what they promise over every input, every history or every
interleaving:

- **The managed-key broker** (`internal/broker`): the credit ledger with its seed, reserve,
  keep-or-refund, settle and meter steps; the per-network mint cap; the circuit breaker; the
  balance-read limiter; usage metering; derived keys and their rotation.
- **Tenancy on a shared partner account** (`internal/broker/tenancy.go`): the duplicate-key
  automaton, the reference walk, the request gate, the ownership ledger and the list filter.
- **Chunked uploads** (`internal/multipartkit/blob.go`): a machine over memory and files with
  partial writes, crashes between any two file operations, aborts and concurrent opens.
- **Algorithms**: asset install order, version comparison and bumping, SMTP DATA reading and
  POSIX shell quoting.

## How it is organised

| file | contents |
|---|---|
| `Text.dfy` | numerals, splitting, lexicographic comparison |
| `Ledger.dfy`, `MemStore.dfy` | what one atomic store call does to the flat maps; the store object that does it |
| `BrokerRuns.dfy` | interleaved requests over the credit ledger: conservation, single ending, mint bound |
| `Broker.dfy` | the same credit steps uninterrupted, as a method over the store object |
| `BrokerCharges.dfy` | what each kind of request costs, alone and in any run |
| `Breaker.dfy`, `BalanceLimiter.dfy`, `Meter.dfy` | small state against whole histories |
| `Base64Url.dfy`, `DerivedKey.dfy` | token round trip, MAC message, rotation over whole runs |
| `Routes.dfy` | the allow-list, template matching and path params |
| `Json.dfy`, `DuplicateKeys.dfy`, `RequestGate.dfy` | body values, token automaton, the gate |
| `Owners.dfy`, `ListFilter.dfy` | the ownership ledger, list filtering |
| `TenancyRuns.dfy` | interleaved tenancy requests over the ledger: what was owned when it was read, who holds a row |
| `TenancyReach.dfy`, `TenancyReleases.dfy` | what runs can reach: which types can be owned, which releases are authorised |
| `BlobRuns.dfy`, `BlobStore.dfy` | the upload machine; the upload store object |
| `Assets.dfy`, `AssetOrder.dfy`, `Semver.dfy`, `MailData.dfy`, `ShellQuote.dfy` | algorithms |

Objects whose methods change fields are classes whose contracts equate the new state with a
function of the old; loops are methods with invariants. Concurrent behaviour is a step function
over a whole system state, and a run is any sequence of steps; theorems about runs are proved by
induction over that sequence.

Environment choices are arguments: clock readings, upstream answers, which file operations
succeed and how much of a failed write lands, which stop requests the cloud grants, fresh blob
ids. SHA-256 and HMAC are function parameters. HMAC is idealised only by asking that the two
messages a statement compares do not collide under the secret (a function to 32 bytes cannot be
injective on all messages). Integers are unbounded; token-bucket, cost and duration arithmetic is
over exact reals.

## Where code and comments differ, or a promise has a condition

The model follows the code in each case.

- Path parameters (`internal/broker/tenancy.go:253-255`) are said to be checked for every binding
  of every matching template; the code keeps the last binding of a repeated name.
  `Routes.BindingMissed` shows a binding that is lost, `Routes.EveryBindingChecked` states exactly
  when none is, and `RequestGate.PathCheckSuffices` exactly when the path check still covers every
  bound resource.
- A JSON resource field holding `""` is said to be skipped (`internal/broker/tenancy.go:833-835`);
  the code refuses it (`RequestGate.EmptyRefIsRefused`).
- The duplicate-key check is said to treat every malformed or unbalanced body as duplicated
  (`internal/broker/tenancy.go:686-687`); a stream cut between two values, so also the empty one, is
  answered false and is left to the decoder. `DuplicateKeys.PrefixIsClean` states exactly which cuts
  are answered false.
- Finalizing is described as refusing a blob that does not match (`internal/multipartkit/blob.go:25-29`).
  After a short write and a retry the sealed file is longer than declared and Finalize still
  succeeds (`BlobStore.LeftoverIsSealed`). The sealed blob is readable exactly when the staging file
  had the declared size (`BlobStore.Store.Finalize`), which is exactly when no failed write left a
  byte in it (`BlobRuns.SizeCheckIsExact`); the size check on reading keeps the others from being
  handed out.
- The token format comment omits the rotation counter from the MAC
  (`internal/broker/derive.go:32`); the code includes it.
- The tenancy validation does not require a delete route's param to map to the route's own type.
  `TenancyReleases.ReleasesOwnedIffCovered` states which tenancies release only rows that the
  releasing caller owned when its request was checked, and `TenancyReleases.UntypedDeleteFails` is
  one that does not.
- A release is said to drop its old owner's claim (`internal/broker/tenancy.go:465-467`). The check and
  the release are separate store calls, so the row may by then be another caller's:
  `TenancyRuns.ReleaseIsOwnUnlessTakenOver` states exactly when, and `TenancyReleases.ReleaseMayBeLate`
  builds such a run.
- The tenancy validation accepts a param type that some list route claims, as one that somebody could
  own (`internal/broker/tenancy.go:655-665`). A list route claims a row only through a link to a row
  already owned: `TenancyReach.OwnableIffAttainable` states exactly which types can ever be owned, and
  by `TenancyReach.NoCreateNothingOwned` none can without a create route.
- The update gate compares signers only when the submitted one is known and leaves the rest to build
  time (`internal/catalogue/remote.go:80-88`); by itself it accepts a submission that names no
  publisher, whoever then signs it. `Semver.PinSurvivesIff` and `Semver.PinHeldIff` state exactly when
  the pin is sure to survive.

Two conditions recur because the code needs them: keys of the flat maps are only unambiguous for ids
and types without a bar (`Ledger.KeyCollides`, `Owners.FlatKeyCollides` give the collisions), and a
body with a repeated key can be read in two ways (`Json.DuplicatesDiverge`).

## Model

| member | source | states |
|---|---|---|
| `BrokerRuns.Conservation` | internal/broker/broker.go:337-457 | In every interleaving of calls, pushes, balance reads, rotations and meter charges, a caller's balance + reservations in flight + cost kept + settlements + drains equals its single grant, which is the app's seed or zero; the balance is never negative, and with bar-free app ids the sum is over exactly that caller's requests |
| `BrokerRuns.ReservationEndsOnce` | internal/broker/provision.go:501-538 | Each request reserves at most once, exactly its price, and that reservation is in flight, or was kept once, or was refunded once; none is left over when the request is done |
| `BrokerRuns.KeptOnlyOn2xx` | internal/broker/broker.go:402-457 | In every run the log keeps a request's debit if and only if the upstream answered it 2xx, and gives it back, or is about to, if and only if it answered anything else or failed |
| `BrokerRuns.MintBound` | internal/broker/broker.go:199-221 | With a positive per-IP cap, however the two Provision calls of a seed interleave, one (app, IP) funds at most cap identities and mints at most cap × seed |
| `BrokerRuns.ZeroGrantStaysZero` | internal/broker/broker.go:214-219 | An identity recorded with a zero grant has a zero balance and nothing in flight in every continuation of the run |
| `BrokerRuns.GrantIsFinal` | internal/broker/store.go:161-191 | A recorded identity stays recorded and is never granted anything again |
| `BrokerCharges.SettlesExactly` | internal/broker/broker.go:442-457 | In every run a finished request has settled exactly once if it was a billable response-priced call answered 2xx with a positive cost, and otherwise never; it then took, at that step, what the partner reported, or the whole balance if that was less |
| `BrokerCharges.DrainsExactly` | internal/broker/meter.go:56-77 | In every run a finished meter charge decided on its cost or the whole balance it read, and took exactly that if it was still there, and otherwise nothing; no other request drains |
| `BrokerCharges.FixedCallAlone` | internal/broker/broker.go:337-457 | A fixed-price call that runs alone changes nothing in cooldown, only seeds when short of funds or not answered 2xx, and otherwise takes exactly its price; it is forwarded if and only if it is out of cooldown and affordable |
| `BrokerCharges.ResponseCallAlone` | internal/broker/broker.go:364-457 | A response-priced call that runs alone takes what a billable 2xx answer reports, down to zero, and nothing else beyond seeding; a billable one is forwarded only with a positive balance |
| `BrokerCharges.PushAlone` | internal/broker/provision.go:501-538 | A push that runs alone is forwarded if and only if the balance is positive and covers its price, and takes that exactly if the cloud answers 2xx |
| `BrokerCharges.BalanceReadAlone` | internal/broker/broker.go:158-197 | A balance read that runs alone seeds a newcomer and changes nobody else |
| `BrokerCharges.ProvisionAlone` | internal/broker/provision.go:571-650 | A provisioning request that runs alone is one Provision of the store, and a rotation only rotates |
| `BrokerCharges.MeterAlone` | internal/broker/meter.go:37-77 | A meter charge that runs alone takes its cost, down to zero |
| `BrokerCharges.AloneIsRun` | internal/broker/broker.go:223-457 | In any run, a request that arrives and takes its steps undisturbed has just those effects on the ledger |
| `Ledger.LedgerArithmetic` | internal/broker/store.go:202-246 | A debit succeeds exactly when funds suffice or nothing is asked, a refund of it restores the rows exactly, and a settlement leaves max(0, balance − n) |
| `Ledger.CooldownBetweenMints` | internal/broker/store.go:165-172 | After a mint at t, a repeat at t' is refused exactly when a positive cooldown has not elapsed; it never changes the balance and never re-seeds |
| `Ledger.KeyInjective` | internal/broker/store.go:268 | With bar-free app ids the flat ledger key determines app and caller |
| `Ledger.KeyCollides` | internal/broker/store.go:268 | With a bar in the app id two callers share a row, so the condition is needed |
| `MemStore.Store.Provision` | internal/broker/store.go:161-191 | The object's rows and answer are the ledger function of the old rows, the cap being counted by a scan in arbitrary order |
| `MemStore.Store.CountOnIP` | internal/broker/store.go:175-184 | The scan counts exactly the distinct rows of that app and IP, whatever the iteration order |
| `MemStore.Store.Debit` | internal/broker/store.go:202-219 | All-or-nothing debit as the ledger function, with the remaining balance |
| `MemStore.Store.Settle` | internal/broker/store.go:232-246 | Clamped settlement as the ledger function, with the remaining balance |
| `MemStore.Store.Admit` | internal/broker/store.go:270-283 | Atomic check-and-count: a counted call never takes the total past a positive quota, and other callers' counts are untouched |
| `Broker.SeedingMeans` | internal/broker/broker.go:199-221 | An uninterrupted seed never answers with the cap error: a newcomer gets the seed below the cap and zero at it, a known caller keeps its balance, no other row changes |
| `Broker.NewNetworkIsSeeded` | internal/broker/broker.go:199-221 | A newcomer on a network that no identity of the app has used is granted the seed, whatever the cap |
| `Broker.FixedCall` | internal/broker/broker.go:337-457 | One uninterrupted fixed-price call answers 429 in cooldown, 402 when short, and otherwise leaves the ledger exactly as seeded unless the answer is 2xx, when exactly the price is gone |
| `Breaker.OpenIffFailing` | internal/broker/breaker.go:35-79 | After any history the breaker is open exactly when the trailing run of failures has reached the threshold, and then openedAt is the time of the last failure |
| `Breaker.OneProbe` | internal/broker/breaker.go:44-50 | While open, at most one call passes between consecutive Records, and the probing flag says whether it has |
| `Breaker.GrantWhileOpen` | internal/broker/breaker.go:35-52 | While open a call passes if and only if the cooldown since the last failure has elapsed and no call has passed since the last Record |
| `Breaker.GrantWhileClosed` | internal/broker/breaker.go:41-43 | While the trailing run of failures is shorter than the threshold every call passes |
| `Breaker.CircuitBreaker.Record` | internal/broker/breaker.go:55-79 | The new fields as a function of the old, for a positive threshold; otherwise nothing changes |
| `BalanceLimiter.WindowBound` | internal/broker/broker.go:101-141 | In any window of any interleaved history with a monotone clock, one (app, caller) is granted at most 20 + 5·(t1 − t0) reads |
| `BalanceLimiter.SpacedNeverRefused` | internal/broker/broker.go:118-141 | A read at least 0.2 s after the caller's earlier ones is never refused, whatever other callers do |
| `BalanceLimiter.RefusedOnlyWhenBusy` | internal/broker/broker.go:101-141 | A read is refused only if some window ending with it already holds more than 19 + 5·length grants |
| `BalanceLimiter.Limiter.AllowBalanceRead` | internal/broker/broker.go:118-141 | Answer and new buckets as functions of the old buckets |
| `Meter.TickDrains` | internal/broker/meter.go:37-77 | One uninterrupted tick leaves an owner of balance B at max(0, B − Σc), whatever other machines lie between, and asks to stop exactly its running machines j with B ≤ c1+…+cj |
| `Meter.MeterOnce` | internal/broker/meter.go:37-77 | The loop's ledger and stop requests are those of the tick; the count is of the stops the provider granted |
| `Meter.SplittingTicks` | internal/broker/meter.go:27-32 | Splitting a duration into n ≥ 1 non-negative ticks never charges more than one tick over the whole, and at most n − 1 micro-dollars less |
| `Meter.MeterLoopCharge` | internal/broker/meter.go:87-103 | The durations of a metering loop over a monotone clock charge within that bound of one exact charge from first to last instant |
| `Meter.WholeHours` | internal/broker/meter.go:27-32 | A machine of n cpus, g times 1024 MB and d GB of disk accrues in h hours exactly n, g and d times the hourly rates, times h |
| `Meter.EnabledIffSomethingCosts` | internal/broker/meter.go:24 | Metering is on if and only if some machine can cost something |
| `Meter.TruncatesTowardZero` | internal/broker/meter.go:31 | The conversion to micro-dollars drops the fraction on either side of zero |
| `Meter.OnlyRunningCharged` | internal/broker/meter.go:55-58 | A machine that is neither started nor running is not charged |
| `Base64Url.RoundTrip` | internal/broker/derive.go:38-40 | Decoding (lenient about line breaks and spare bits) undoes encoding on every byte string |
| `Base64Url.Alphabet` | internal/broker/derive.go:38-40 | The digits are the alphabet of section 5 of RFC 4648 |
| `Base64Url.BreaksAreIgnored` | internal/broker/derive.go:38-40 | A line break anywhere makes no difference to the decoder |
| `Base64Url.SpareBitsAreIgnored` | internal/broker/derive.go:38-40 | Nor do the spare bits of a final group |
| `DerivedKey.MacMessageInjective` | internal/broker/derive.go:42-54 | The MAC message determines version, rotation and caller |
| `DerivedKey.ParseMinted` | internal/broker/derive.go:64-105 | Parsing a minted token gives back version, caller and MAC |
| `DerivedKey.SealedForm` | internal/broker/derive.go:28-83 | The message and the first two segments of the token minted for a given caller, version and rotation, character by character |
| `DerivedKey.SignedVersion` | internal/broker/derive.go:101-104 | A version tag may carry a sign, as the number parser reads it |
| `DerivedKey.AcceptedWhileCurrent` | internal/broker/provision.go:651-673 | A key minted for c at rotation r is accepted, and as c, exactly while c is recorded with rotation r |
| `DerivedKey.AcceptedIsSealed` | internal/broker/derive.go:113-127 | A token is accepted as c if and only if it parses to c with the MAC of c's current rotation under a known non-empty secret |
| `DerivedKey.RotIsRotations` | internal/broker/store.go:257-266 | In every run a row's counter is the number of rotations performed on it |
| `DerivedKey.RotationRevokes` | internal/broker/provision.go:624-673 | A key minted after any run is accepted after any continuation if and only if no rotation of that caller happened in between |
| `DerivedKey.AdvanceRot` | internal/broker/store.go:263-265 | A step changes a counter only by rotating that row, and a rotating step changes no balance |
| `DuplicateKeys.HasDuplicateKeys` | internal/broker/tenancy.go:688-751 | The stack loop answers false exactly when the stream ends cleanly and the automaton accepts it with an empty stack |
| `DuplicateKeys.DuplicatedIffRepeats` | internal/broker/tenancy.go:680-751 | On the tokens of any run of JSON values the automaton rejects if and only if some object at any depth repeats a key |
| `DuplicateKeys.UnbalancedIsDuplicated` | internal/broker/tenancy.go:709-730 | Every token stream that is unbalanced, at its end or at any prefix, is answered true |
| `DuplicateKeys.TruncatedIsDuplicated` | internal/broker/tenancy.go:686-715 | A stream cut off inside a value is answered true |
| `DuplicateKeys.PrefixIsClean` | internal/broker/tenancy.go:686-730 | Of all prefixes of a stream of JSON values, exactly those that end between two values with no repeated key before the cut are answered false |
| `Json.OneReading` | internal/broker/tenancy.go:365-375 | Without repeated keys a body has exactly one reading at every depth, whichever duplicates a parser would keep |
| `Json.DuplicatesDiverge` | internal/broker/tenancy.go:365-375 | A body that repeats agent_id reads as one caller's resource keeping the first and as another's keeping the last |
| `Json.FirstIsLast` | internal/broker/tenancy.go:365-375 | Keep-first and keep-last decoding agree on every body without repeated keys |
| `RequestGate.CheckRefs` | internal/broker/tenancy.go:402-435 | The recursive walk, visiting fields in any order, returns the acceptance predicate |
| `RequestGate.AcceptsIff` | internal/broker/tenancy.go:398-435 | The walk accepts if and only if no node is deeper than 24 and every resource field, at any path, is null or the id of a resource the caller owns |
| `RequestGate.OneField` | internal/broker/tenancy.go:275-293 | A resource field passes on null, or on a non-empty string or a number that is the id of an owned resource, and on nothing else |
| `RequestGate.DepthBound` | internal/broker/tenancy.go:398-406 | A body is read to depth 24 and refused beyond |
| `RequestGate.EnforceRequest` | internal/broker/tenancy.go:313-396 | On one snapshot of the ledger the gate passes if and only if there is a caller, every typed param the path binds, every non-empty query reference and the whole body check out: a JSON body is one value with no repeated key and every reference owned, a form is as CheckForm says |
| `RequestGate.CheckForm` | internal/broker/tenancy.go:779-844 | A form passes if and only if it can be read to its end, has at most 64 parts, no field that names a resource is a file, too long or repeated, and each non-empty one names a resource the caller owns |
| `RequestGate.FormBounds` | internal/broker/tenancy.go:755-758 | A form is read up to 64 parts and a resource field up to 4096 bytes |
| `RequestGate.RefusedForms` | internal/broker/tenancy.go:761-844 | A resource field that is a file or comes twice, and a form that breaks off, are refused whatever else is there |
| `RequestGate.GateSplits` | internal/broker/tenancy.go:313-396 | The gate passes exactly the requests it can read in full whose caller owns every resource named in path, query and body |
| `RequestGate.PathCheckSuffices` | internal/broker/tenancy.go:238-258 | Passing the path check guarantees, on every ledger, that every resource any matching template binds is the caller's, if and only if each is among those the check looks at; owning them all always passes |
| `RequestGate.EveryReadingIsOwned` | internal/broker/tenancy.go:365-394 | Once a body has passed, every way of reading it names only resources the caller owns |
| `MemStore.Store.Owns` | internal/broker/owner.go:54-63 | The check over the store, with a missing row a refusal |
| `MemStore.Store.OwnerOf` | internal/broker/store.go:134-139 | The recorded owner, if any |
| `Owners.FlatOwnsImplements` | internal/broker/owner.go:54-63 | The flat-key check is ownership of the resource when app and type hold no bar |
| `Owners.FlatKeyCollides` | internal/broker/store.go:113-132 | With a bar in the type two resources share a row, so the condition is needed |
| `Owners.FlatClaimImplements` | internal/broker/store.go:113-132 | The flat-key claim implements the first-writer-wins claim on (app, type, id) when app and type hold no bar |
| `Owners.FlatReleaseImplements` | internal/broker/store.go:154-159 | The flat-key release removes exactly that resource |
| `Owners.FlatOwnedIsOwned` | internal/broker/store.go:141-152 | The prefix scan finds exactly the caller's ids of that app and type |
| `MemStore.Store.OwnedSet` | internal/broker/store.go:141-152 | The scan in arbitrary order collects exactly the suffixes of the caller's matching keys |
| `TenancyRuns.OwnerPersists` | internal/broker/store.go:117-159 | In every run a row keeps its owner until that exact row is released |
| `TenancyRuns.PassedRequestWasOwned` | internal/broker/tenancy.go:313-396 | In every interleaving, a request past its checks is one the allow-list admits and the gate can read, and every resource its path, query and body name was its caller's at a moment when it was being checked |
| `TenancyRuns.ShownWereLinked` | internal/broker/tenancy.go:550-581 | In every interleaving, every list row that was kept had, when that link was read, a link to a resource of the caller's |
| `TenancyRuns.DropsExactly` | internal/broker/tenancy.go:468-483 | A step takes a row away if and only if a request is at a delete route of its own verb, whose path matches and whose param is bound to that id, of the route's type |
| `TenancyRuns.OtherVerbsDropNothing` | internal/broker/tenancy.go:474-478 | In every run a request whose verb is no delete route's takes nothing away |
| `TenancyRuns.GainsExactly` | internal/broker/tenancy.go:439-460 | A step gives a free row to a caller if and only if a request of that caller claims it by a create route of its verb and path, or by a kept list row |
| `TenancyRuns.ListsMeans` | internal/broker/tenancy.go:497-505 | The list route that filters is the first one of the request's verb and path |
| `TenancyRuns.ParamsMean` | internal/broker/registry.go:309-320 | A request that hits a literal allow entry has no params; any other has those of all matching templates |
| `TenancyRuns.NoCreateSkipped` | internal/broker/tenancy.go:439-460 | In every run a successful request goes through every create route before its releases |
| `TenancyRuns.NoReleaseSkipped` | internal/broker/tenancy.go:468-483 | And through every delete route before its list |
| `TenancyRuns.ReleasedWasOwned` | internal/broker/tenancy.go:465-483 | A release of a resource that its request names drops a row its caller owned at a moment when that request was being checked |
| `TenancyRuns.AlignedIsCovered` | internal/broker/tenancy.go:465-483 | If each delete route's param maps to the route's own type, every release is of that kind |
| `TenancyRuns.OwnerIsLastTaker` | internal/broker/store.go:117-159 | In every run a row's holder is whoever claimed it while it was free, with no release since |
| `TenancyRuns.ReleaseIsOwnUnlessTakenOver` | internal/broker/tenancy.go:462-483 | At the release the row is still the caller's if nothing released it since any check at which the caller owned it, and is another's if and only if since then a step released it and that other claimed it |
| `TenancyReach.OwnableIffAttainable` | internal/broker/tenancy.go:655-665 | For every tenancy and gate, a caller can come to own a resource if and only if there is a plan for its type: an admitted request that creates it, or lists it by a link to a type with a plan, and that names only types with a plan |
| `TenancyReach.HeldIsAttainable` | internal/broker/tenancy.go:439-460 | In every run every row in the ledger is of a type with such a plan |
| `TenancyReach.NoCreateNothingOwned` | internal/broker/tenancy.go:655-665 | Without a create route no run ever records an owner, whatever the list routes claim |
| `TenancyReleases.ReleasesOwnedIffCovered` | internal/broker/tenancy.go:465-483 | If every admitted request on which a delete route fires names what it releases, all releases of all runs drop rows their callers owned when checked; behind the broker's gate, where param types and deleted types each have a create route that needs no resource, only then |
| `TenancyReleases.UncoveredReleasesUnowned` | internal/broker/tenancy.go:627-631 | An admitted request that does not name what it releases, where that and all it names have such create routes, has a run in which it releases a row that is another caller's and never was its own |
| `TenancyReleases.UntypedDeleteFails` | internal/broker/tenancy.go:627-631 | A tenancy whose delete route's param names no type has such create routes and releases unowned rows |
| `TenancyReleases.ReleaseMayBeLate` | internal/broker/broker.go:316-321 | Every admitted delete with such create routes has a run in which the row is another caller's by the time it is released |
| `Routes.PathParams` | internal/broker/tenancy.go:238-258 | The loops compute the last binding of each name over all matching templates |
| `Routes.EveryBindingChecked` | internal/broker/tenancy.go:238-258 | All bindings reach the check if and only if no name is bound to two different segments |
| `Routes.BindingMissed` | internal/broker/tenancy.go:253-255 | On templates /d/{id} and /{id}/7 the path /d/7 binds "7", and only "d" reaches the check |
| `Routes.CheckAllowed` | internal/broker/registry.go:289-307 | A path passes if and only if it is a literal entry of that verb or of any, or matches a template of that verb or of any |
| `Routes.IsPathMeans` | internal/broker/broker.go:225-231 | Request paths are the splits at slashes of the texts that begin with one |
| `Routes.VerbScoped` | internal/broker/registry.go:289-307 | A templated entry admits its own verb, or any if it names none, on the paths it matches |
| `Routes.MatchSegments` | internal/broker/registry.go:328-347 | Equal length, templates take any non-empty segment, everything else is literal |
| `ListFilter.OwnerLedger.FilterResponse` | internal/broker/tenancy.go:497-548 | Undisturbed, document and ledger after the loops are a function of the answer and the ledger before |
| `ListFilter.OwnerLedger.KeepElement` | internal/broker/tenancy.go:550-581 | A row is kept exactly when some link is owned, and only then is its own id claimed |
| `ListFilter.KeptAreLinked` | internal/broker/tenancy.go:523-528 | On a claim-stable route the kept rows are the ordered sublist linked in the ledger before the call, and the claims are theirs in order |
| `ListFilter.StableIffKeptAreLinked` | internal/broker/tenancy.go:103-127 | That holds for every ledger and list if and only if nothing is claimed, or the claimed type is not a link type, or every link is the element's own id field |
| `ListFilter.FilterHidesOthers` | internal/broker/tenancy.go:485-548 | Two upstream answers that differ only in rows not linked to the caller and in the listed counts give the same document and the same claims |
| `ListFilter.FilterShows` | internal/broker/tenancy.go:497-548 | The array becomes the linked rows in order, each count that is present equals their number, and nothing outside the array and count paths changes |
| `ListFilter.OnlyArraysAreFiltered` | internal/broker/tenancy.go:515-522 | An answer is passed on if and only if nothing is at the array path; anything but an array there is never passed on |
| `ListFilter.SetDugIsPut` | internal/broker/tenancy.go:583-602 | Writing at a dotted path that is present succeeds and overwrites exactly that place |
| `BlobRuns.OpenedIsAccepted` | internal/multipartkit/blob.go:216-310 | In every run, with crashes and failed or partial writes anywhere, what Open returns is exactly the in-order concatenation of the accepted chunks, of the declared length and hash, under the declared metadata |
| `BlobRuns.OpenAlone` | internal/multipartkit/blob.go:289-310 | An undisturbed Open hands out the file under its metadata if and only if the upload is not in flight, the metadata is whole and the size is as it says |
| `BlobRuns.SizeCheckIsExact` | internal/multipartkit/blob.go:378-397 | In every run a sealed file is longer than declared by exactly the bytes failed writes left in it, and has the declared size if and only if it holds exactly the accepted bytes |
| `BlobRuns.ActSound` | internal/multipartkit/blob.go:212-287 | Every file operation or critical section keeps an upload's invariant; declarations, and sealed files with their chunks, never change |
| `BlobStore.Store.Append` | internal/multipartkit/blob.go:212-245 | Every answer, by the id, the chunk's size and number, what has been accepted and how the write goes; on success the number of bytes accepted so far. The store moves by that one machine step |
| `BlobStore.Store.Finalize` | internal/multipartkit/blob.go:247-287 | It answers with the metadata if and only if the upload is complete with the declared hash, was not closed, and close, writes and rename succeed, or the blob was sealed readable before; every refusal is told apart. The store moves by the six machine steps, and a first success leaves a readable blob if and only if the staging file had the declared size |
| `BlobStore.SealIsRun` | internal/multipartkit/blob.go:262-286 | Any combination of close, write, rename and cleanup failures leaves exactly the state the six machine steps leave |
| `BlobStore.Store.Open` | internal/multipartkit/blob.go:289-310 | Succeeds exactly on a valid id that is not in flight and whose metadata matches the file size, and returns the accepted chunks with declared length and hash |
| `BlobStore.Store.Abort` | internal/multipartkit/blob.go:312-333 | Forgets the upload and removes what can be removed, as machine steps |
| `BlobStore.Store.Restart` | internal/multipartkit/blob.go:121-145 | Sealed files survive, uploads in progress are gone, staging files are swept, and the invariant holds |
| `BlobStore.RoundTrip` | internal/multipartkit/blob.go:165-310 | With every file operation succeeding, any chunking of any bytes is sealed, answered with its metadata and returned whole by Open |
| `BlobStore.MintedIsValid` | internal/multipartkit/blob.go:182-186 | An id of 16 random bytes in hex is valid |
| `BlobStore.ValidIsMinted` | internal/multipartkit/blob.go:182-186 | Every valid id is of that form |
| `BlobStore.LeftoverStays` | internal/multipartkit/blob.go:238-243 | After any accepted chunks, a chunk retried after a short write is accepted as if nothing had happened, and the file holds its first attempt too |
| `BlobStore.LeftoverIsSealed` | internal/multipartkit/blob.go:238-286 | If that was the last chunk, the longer file is sealed, and exceeds the declared size by what the short write left |
| `Assets.ResolveAssets` | internal/scaffold/config.go:1738-1796 | Succeeds if and only if names are distinct, dependencies known and no dependency cycle exists; returns the lexicographically least install order under (order, name); reports an unknown dependency if and only if there is one |
| `Assets.OrderIndependent` | internal/scaffold/config.go:1738-1741 | Listing the same assets in another order changes neither success nor the result |
| `Assets.StuckMeansCycle` | internal/scaffold/config.go:1780-1782 | When nothing is ready although assets remain, an actual chain of dependencies returns to its start |
| `Assets.GreedyIsLeast` | internal/scaffold/config.go:1773-1795 | A full greedy run is an install order and precedes every other one |
| `Assets.BaseName` | internal/scaffold/config.go:106-113 | Without an explicit name an asset is called by what follows the last slash of its exec path |
| `AssetOrder.InstalledByNames` | internal/scaffold/config.go:1738-1796 | With named assets, every dependency's name is carried by an earlier asset, and of two neighbours the later needs the earlier, or has the greater order, or on equal order the name that comes later in byte order |
| `AssetOrder.ResolvableByNames` | internal/scaffold/config.go:1748-1782 | Named assets can be installed if and only if names are distinct, every dependency is some asset's name, and no chain of them returns to its start |
| `AssetOrder.PathsDoNotMatter` | internal/scaffold/config.go:106-113 | Where named assets are put does not change whether they can be installed |
| `Semver.CompareSemver` | internal/catalogue/verify.go:524-554 | The loops compute the comparison function |
| `Semver.ComparePrerelease` | internal/catalogue/verify.go:556-595 | The loop computes the lexicographic identifier comparison |
| `Semver.TotalPreorder` | internal/catalogue/verify.go:528-628 | The comparison is a total preorder on all strings |
| `Semver.AgreesWithStandard` | internal/catalogue/verify.go:524-610 | On well-formed versions without build metadata it is the precedence of section 11 of Semantic Versioning 2.0.0, stated by the first difference |
| `Semver.LowerWord` | internal/catalogue/verify.go:580-592 | Versions that end in two words are ordered by the first character where the words differ, a proper prefix being lower |
| `Semver.FewerIsLower` | internal/catalogue/verify.go:560-570 | An identifier list that is a proper prefix of another makes the lower version |
| `Text.CompareTextMeans` | internal/catalogue/verify.go:586-589 | The comparison of two texts is byte order: zero on equal ones, and otherwise by prefix or first difference |
| `Semver.WordCharacters` | internal/catalogue/verify.go:524-528 | The characters of an identifier are those of section 9 of the standard |
| `Semver.RenderRead` | internal/catalogue/verify.go:524-528 | Every valid version text without build metadata is the rendering of the well-formed version it denotes |
| `Semver.ReadRender` | internal/catalogue/verify.go:524-528 | Every well-formed version renders to a valid text that denotes it |
| `Semver.AgreesOnTexts` | internal/catalogue/verify.go:524-610 | On any two valid texts without build metadata the comparison is the standard's precedence of what they denote |
| `Semver.MissingPartsAreZero` | internal/catalogue/verify.go:612-617 | Missing minor or patch parts read as zero |
| `Semver.BumpSemver` | cmd/pilot-app/main.go:208-242 | Succeeds exactly on three dotted parts and a known bump, and the result compares strictly greater |
| `Semver.BumpedText` | cmd/pilot-app/main.go:208-242 | For any a.b.c with any suffix the three bumps are (a+1).0.0, a.(b+1).0 and a.b.(c+1) |
| `Semver.CheckUpdate` | internal/catalogue/remote.go:76-111 | All checks pass exactly when the id is new, or the version is no downgrade, the entry is pinned and the signer is the owner or not yet known |
| `Semver.NeverDowngraded` | internal/catalogue/remote.go:76-111 | Along any run of submissions an id's version never decreases |
| `Semver.PinSurvivesIff` | internal/catalogue/remote.go:99-109 | An accepted update keeps the publisher pin under every signer consistent with what was submitted if and only if the submission named its publisher |
| `Semver.PinHeldIff` | internal/catalogue/remote.go:76-111 | A pin survives a run of submissions under every consistent choice of signers if and only if each submission of the id that is accepted names its publisher |
| `MailData.ReadData` | internal/otpmail/server.go:211-228 | The loop over the reader computes the reading of the stream's lines |
| `MailData.ReadsBack` | internal/otpmail/server.go:211-228 | A dot-stuffed, terminated message followed by anything is consumed exactly through the terminator and comes back whole if it fits, otherwise as its shortest whole-line prefix reaching the limit |
| `ShellQuote.ShJoin` | internal/scaffold/install.go:176-183 | Reading the rendered line by POSIX quoting gives exactly the arguments |
| `ShellQuote.ReadsBack` | internal/scaffold/install.go:176-183 | Words of the quoted join are the arguments, for every list, with empty strings and embedded quotes |
| `ShellQuote.OneMore` | internal/scaffold/install.go:176-183 | Each further argument follows after one space |

## Left out

- HTTP, TLS, git, SMTP sockets, SendGrid, templates, embedded assets and the SQLite store.
- Breaker and quota outcomes inside interleaved runs: they only end a request before it reaches the ledger.
- Breaker liveness: some request paths return between Allow and Record, so only the safety statements are made.
- Registry loading, call pricing and reload during a request; prices enter a run as request data.
- MIME parsing: a form is its parts in order, each with its text already trimmed, and whether it could be read to its end.
- Account-summary rewriting (`FilterObject`, `delDug`): it reuses the dotted-path functions and would add only easy members.
- The floating-point branch of `asID`, which decoders that keep number text never reach.
- ListFilter.SetDug: models the nested maps as values, so aliasing between parts of one decoded document is not captured.
- RequestGate.EnforceRequest: reads one snapshot of the ledger; with other requests between its reads, TenancyRuns.PassedRequestWasOwned states what still holds.
- ListFilter.OwnerLedger.FilterResponse: runs undisturbed; with other requests between its reads and claims, TenancyRuns.ShownWereLinked states what still holds.
- TenancyRuns: one app's requests, since rows of other apps are disjoint; reads of one request may come in any order, list rows may be read in any order and again, and any ids may come back; verbs are taken as already upper-case.
- BlobStore.Store.Begin: does not model the file-name and hex checks; it checks the declared size only.
- BlobRuns: a failed write may land anything up to its whole length, a superset of a short write; a torn metadata file is taken not to parse, as a proper prefix of a JSON object never does; removal of any file of any id is allowed at any step, a superset of what Abort, GC and the startup sweep remove.
- GC's age test: which ids it aborts is left open.
- Integer overflow and floating-point rounding; timestamp windows; SHA-256, HMAC and base64 in bits.
- ShellQuote.Words: unquoted special characters other than blanks, quotes and backslash make the reader give up, since the renderer never emits them.
- Semver versions with build metadata: covered by the preorder and by bumping, not by the comparison with the standard.
