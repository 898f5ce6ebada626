# The access layer and request pipeline of a Nostr node service, in Dafny

`nostr-ln` stands between Nostr relays and a Lightning node. Owners publish
grants, controllers publish subscriptions and send requests, and the service
decides who may do what, how often and at what cost, and who is told about what
happens. This project models that service as one state machine and proves what
it guarantees over every run: for every order in which relays deliver events,
every clock, and every answer the node's own handler may give.

Two layers are kept apart. Specification functions on values say what each
operation computes; the theorems are about them. Beside them, the parts of the
source that work by changing things are classes and methods with loops
(`Bucket`, `Usage`, `Grants`, `Subscriptions`, `Service`, the pipeline, delivery,
the client's loops, the URI), each proved to compute exactly its specification.

| file | holds |
|---|---|
| `Limit.dfy`, `Allowance.dfy` | the refill rule, the bucket, its 64- and 128-bit arithmetic; window bound; refinement of an exact bucket |
| `Usage.dfy` | buckets per controller and method, created on first use |
| `Profile.dfy`, `Grants.dfy`, `Replay.dfy` | what a grant says; the grant store; grants as a replicated register |
| `Subscriptions.dfy` | what controllers want |
| `Methods.dfy`, `Codecs.dfy`, `Pipeline.dfy`, `Requests.dfy` | wire names and type tables; decoding; the seven steps; what one request guarantees |
| `Service.dfy` | the state machine and the running service |
| `Limits.dfy`, `Runs.dfy`, `Restore.dfy` | theorems over whole runs |
| `Answers.dfy` | the answer every request is due, read off the events heard |
| `Reorder.dfy` | when the order of subscriptions does not matter |
| `Delivery.dfy`, `Client.dfy` | notifications: who, why, and how the client tells them apart |
| `Uri.dfy` | the connection URI and its percent codec |
| `Wrappers.dfy`, `Keys.dfy`, `Events.dfy` | options, keys as hexadecimal text, events and tags |

`dafny verify dfyconfig.toml` checks the whole project.

## What is taken as given

- A public key or event id is its canonical text, sixty-four lower-case
  hexadecimal digits; reading one accepts either case.
- Decryption and JSON parsing are arbitrary functions that may fail (`Codec`).
  Signatures are assumed to have been verified by the time an event arrives.
- The handler's `prepare` and `execute` are arbitrary: their answers are inputs
  of each request. So are the clock and what a relay query returns.
- Errors carry their code; message texts are not modelled.

## Where the code and its documentation differ

- `README.md:58-59` and `src/service/state.rs:3-5` say limits are charged only
  after success. The code charges the rate at step 5a and the quota at commit
  (`src/service/pipeline.rs:123-131`, `src/service/pipeline.rs:178-188`), and so
  does the model.
- `src/service/state.rs:32` and `src/service/state.rs:47` say the two checks do
  not mutate. They insert a full bucket. Under fixed rules this cannot be seen
  (`UsageStore.ChecksAreUnobservable`); across a change of rule it can, exactly
  when the new rule is valid and its ceiling is higher
  (`UsageStore.CheckSurvivesRuleChangeIff`).
- `src/service/transport.rs:450-452` calls reading current state exact. For
  subscriptions it is exact under a condition that is stated and shown to be
  necessary (`Restore.ColdStartRestoresIff`), because grants and subscriptions
  are read in one pass and a subscription older than its author's grant is
  refused. For grants it is exact under a condition that is also necessary
  (`Runs.ReconnectCatchesUpIff`): a relay replaces a grant by a newer event of
  the same author and `d` even if that has no `p` tag, the query then shows
  neither, and the service that re-reads lacks a grant the one that listened
  still holds (`Replay.UntaggedReplacementIsMissed`).
- Equal timestamps are settled by arrival order (`src/grant.rs:130`), so
  convergence holds exactly when no two newest events for a target disagree
  (`Replay.ConvergesIff`).
- `src/subscription.rs:20` and `src/subscription.rs:44-45` say the newest
  subscription counts. An empty list is removed together with its timestamp
  (`src/subscription.rs:138-140`), so an older list that comes again undoes an
  unsubscription (`Reorder.OlderListUndoesLeaving`); order does not matter
  exactly when a controller has no other list, or every empty one is strictly
  older than the newest others and those agree (`Reorder.RegistryConvergesIff`).
- `src/nnc/client/pending.rs:116-118` says the `e` tag ties an outcome to its
  command. Neither the waiting loop (`src/nnc/client/pending.rs:113-126`) nor its
  filter (`src/nnc/client/methods.rs:331-335`) looks at the author, which the
  listener does (`src/nnc/client/methods.rs:238`): any author's event with the
  tag resolves a handle (`Client.AnyAuthorResolves`), and the service's own
  outcome does exactly if none arrives before it (`Client.ServiceResolvesIff`).
- Parsing a URI returns a `UriError` for what it cannot accept
  (`src/nnc/uri.rs:61-85`), but slicing at `src/nnc/uri.rs:104` panics when a
  relay has a percent sign and, two bytes behind it, the middle of a multi-byte
  character (`Uri.CutRelayAborts`, and exactly when: `Uri.ParseAbortsIff`).
- A clock that goes back credits the same time twice, since a withdrawal moves
  `since` back with it (`src/limit.rs:117-119`); exactly when that breaks a
  window's bound is `Allowance.BackwardClockBreaksTheBoundIff`, and what still
  holds under every clock is `Limits.MovementBound`.

## Model

| member | source | states |
|---|---|---|
| Limit.BalanceIsExact | src/limit.rs:90-100 | for all 64-bit inputs and any valid rule no 128-bit step saturates and the cast loses nothing: the balance is min(balance + floor(amount·elapsed/per_secs), max_capacity) |
| Limit.BalanceIsMonotone | src/limit.rs:85-100 | the balance is monotone in time, amount and ceiling together, and antitone in the period |
| Limit.Bucket.Full | src/limit.rs:81-83 | a new bucket is at the ceiling, as of now |
| Limit.Bucket.BalanceAt | src/limit.rs:90-100 | computes the specified balance, which is the mathematical one under a valid rule, and changes nothing |
| Limit.Bucket.CanWithdraw | src/limit.rs:103-105 | whether the balance covers the cost; changes nothing |
| Limit.Bucket.Withdraw | src/limit.rs:111-121 | takes the cost and advances `since`, or refuses and leaves both fields alone |
| Allowance.WithdrawalConserves | src/limit.rs:111-121 | what a bucket holds plus what was taken stays within one full bucket and the refill of the clock's forward movement up to the last withdrawal, under any clock, also when the bucket is only now created |
| Allowance.ClockMoves | src/limit.rs:90-100 | that account survives the clock moving either way, counting only forward movement |
| Allowance.BackwardClockBreaksTheBoundIff | src/limit.rs:90-121 | for any bucket, any step back and any later recovery, what can leave exceeds the bound of the window since the first withdrawal exactly if that withdrawal is more than the window refills and the earlier one is less than what the bucket's level and the refill since the earlier instant have above that bound |
| Allowance.BackwardClockBreaksTheBound | src/limit.rs:117-119 | a concrete run with the clock going back in which fifteen tokens leave a bucket of ten at one instant |
| Allowance.RefinesExactBucket | src/limit.rs:90-121 | against a bucket that counts fractions and never rounds, after any attempts at non-decreasing times the code is never ahead and is behind by at most (per_secs−1)/per_secs of a token per withdrawal let through, ceiling included |
| Allowance.AdmissionAgrees | src/limit.rs:103-121 | the code admits nothing the exact bucket could not pay, and everything it could pay with the leak to spare |
| Allowance.LeakBoundIsTight | src/limit.rs:90-121 | for every number of withdrawals some run loses exactly the bound |
| UsageStore.LazyRefinesEager | src/service/state.rs:33-89 | under fixed rules, valid or not, and any clock, every sequence of checks and charges is answered as by a store in which every bucket existed full from the start |
| UsageStore.ChecksAreUnobservable | src/service/state.rs:32-57 | leaving out any subset of the checks changes no other answer |
| UsageStore.CheckSurvivesRuleChangeIff | src/service/state.rs:41-44 | the bucket a check inserts looks like an absent one at every instant under another rule, valid or not, if and only if that rule is invalid or its ceiling is not higher |
| UsageStore.Usage.constructor | src/service/state.rs:28-30 | starts with no buckets |
| UsageStore.Usage.RateAllows | src/service/state.rs:33-45 | answers and updates the live buckets as specified; every entry keeps owning its bucket |
| UsageStore.Usage.QuotaAllows | src/service/state.rs:48-59 | the same for a spend |
| UsageStore.Usage.ChargeRate | src/service/state.rs:62-74 | withdraws one call in place, from that entry only |
| UsageStore.Usage.ChargeQuota | src/service/state.rs:78-89 | withdraws the cost in place, from that entry only |
| Profile.ValidIffUsable | src/profile.rs:94-105 | a profile is valid exactly if no rule on any of its maps, nor its quota, has a period of zero |
| Profile.NotificationAllowedIff | src/profile.rs:121-123 | a type is permitted exactly if the profile is usable and its map of notifications has that name or OTHERS |
| Grants.Grants.constructor | src/grant.rs:93-95 | starts with no grants |
| Grants.Grants.Apply | src/grant.rs:101-152 | every check in order, with its refusal; an accepted event replaces its target's slot, by the empty profile if it cannot be read |
| Grants.Grants.Resolve | src/grant.rs:161-166 | the controller's own grant, else the one for everybody else, else unauthorized |
| Events.FirstValueIsFirst | src/grant.rs:198-201 | the `d` value read is that of the first such tag that has a value |
| Keys.ReadsIffSameDigits | src/nnc/uri.rs:70 | text is read as a key exactly if it is that key's sixty-four digits, in either case |
| Replay.AcceptedIff | src/grant.rs:101-126 | an event is accepted for a target exactly if it is a grant by an owner with this node's `p` tag and its `d` is this node's key, a colon and the non-empty target |
| Replay.ReportIsExact | src/grant.rs:101-152 | each refusal is reported exactly for its own reason, success exactly for a readable grant that now stands, and only an accepted grant that is not older changes the store |
| Replay.ReplayHoldsStanding | src/grant.rs:126-145 | after any events, in any order and with repetitions and ties, a slot is empty exactly if nothing was accepted for it and otherwise holds profile, time and owner of the last among the newest accepted events |
| Replay.ReplayHoldsNewest | src/grant.rs:126-145 | in particular of a newest accepted event |
| Replay.ConvergesIff | src/grant.rs:101-152 | all arrival orders and repetitions of a set of events end in the same store if and only if no two newest events for a target grant differently |
| Replay.DistinctTimesUnambiguous | src/grant.rs:129-133 | distinct timestamps per target are enough for that |
| Replay.AmbiguousDiverges | src/grant.rs:129-133 | otherwise some two orders of the same events end differently |
| Replay.TimestampsNeverRegress | src/grant.rs:129-145 | whatever arrives, a filled slot stays filled and its timestamp never goes back |
| Replay.RereadCatchesUpIff | src/grant.rs:126-145 | applying an answer drawn from what was published to a stale store gives what applying every missed event would, in any order, if and only if each newest live event's grant is also carried by an event known or answered (where newest events do not disagree) |
| Replay.RereadCatchesUp | src/grant.rs:126-145 | so it does for an answer with something at least as new, by any owner, for every missed event |
| Replay.UntaggedReplacementIsMissed | src/service/transport.rs:448-464 | a grant that a relay replaced by an event without a `p` tag stands for who listened and is absent for who re-reads |
| Replay.ResolvesIffGranted | src/grant.rs:161-166 | a controller resolves to a grant exactly when some event was accepted for it or for everybody else |
| Subscriptions.Subscriptions.constructor | src/subscription.rs:65-67 | starts with no subscriptions |
| Subscriptions.Subscriptions.Apply | src/subscription.rs:81-145 | every check in order, the grant before any decryption; a list replaces, an empty list removes |
| Subscriptions.ReportIsExact | src/subscription.rs:81-145 | each refusal is reported exactly for its own reason, the grant being looked at before the content, and success with the number of types; only the author's slot changes, and only then |
| Subscriptions.ReceivesIffEntitled | src/subscription.rs:155-171 | the check at delivery holds exactly if the stored list has the type and the map of notifications of the controller's own grant, or else of everybody else's, permits it |
| Subscriptions.Recipients | src/subscription.rs:174-180 | visiting the stored keys in any order gives, without duplicates, exactly those controllers |
| Methods.ControlNamesRoundTrip | src/nnc/method.rs:99-153 | reading a control method's wire name and writing it gives the name back, for every string |
| Methods.WalletNamesRoundTrip | src/nwc/method.rs:154-224 | the same for wallet methods |
| Methods.ControlNamesRead | src/nnc/method.rs:99-153 | every known control method is what its own name is read as |
| Methods.WalletNamesRead | src/nwc/method.rs:154-224 | the same for wallet methods |
| Methods.KnownControlNames | src/nnc/method.rs:128-153 | a name is read as a known control method exactly if it is one of the sixteen |
| Methods.KnownWalletNames | src/nwc/method.rs:190-224 | a name is read as a known wallet method exactly if it is one of the twenty-four |
| Methods.NamesKeepProtocolsApart | src/nwc/method.rs:154-224 | no string is a method name of both protocols |
| Requests.ValidationCoversDispatch | src/service/pipeline.rs:192-257 | a request that passes step 4 reaches the handler function with the type it was checked against, so dispatch produces no error of its own |
| Requests.CallKeepsRequest | src/service/pipeline.rs:192-257 | a request is looked up under the name and with the parameters it was sent with, and step 4 and dispatch read the parameters as one type |
| Requests.TypedIffNamed | src/service/pipeline.rs:192-257 | there is such a type exactly for the names of the request's protocol |
| Requests.RateKeysKeepProtocolsApart | src/service/pipeline.rs:123-131 | no rate bucket is ever used by both protocols |
| Requests.DiscardedResultsAreTrue | src/service/pipeline.rs:123-188 | the results of both charges, which the service ignores, are never false, at any clock |
| Requests.NodeHasTheLastWord | src/service/pipeline.rs:133-189 | nothing executes that was not prepared, and once prepared the answer is the handler's own or that the quota is exceeded |
| Requests.AdmittedIsDue | src/service/pipeline.rs:108-189 | an admitted call is prepared exactly if it has no rate or a token left, executed exactly if moreover it could be prepared and has no cost, no quota or a quota that covers it, and answered with what the node then says; otherwise it is told which of these failed |
| Requests.AdmittedLeaves | src/service/pipeline.rs:108-189 | and leaves its buckets short of exactly one call, and of the cost if it succeeded |
| Requests.SuccessWithdrawsTheQuote | src/service/pipeline.rs:141-189 | a success with a cost under a quota had that much left and withdraws precisely the quoted cost, from that controller only |
| Requests.FailureSparesQuota | src/service/pipeline.rs:144-188 | a failure at any step leaves other controllers' buckets alone and the caller's balance the same at every instant |
| Requests.HandleIsLocal | src/service/state.rs:18-25 | a controller's answer and buckets depend on no other controller's buckets |
| Requests.HandleSparesOthers | src/service/state.rs:18-25 | a request changes no other controller's buckets |
| Requests.RequestKeepsQuotaTally | src/service/pipeline.rs:141-189 | one request keeps the account of what was spent, under any clock |
| Requests.RequestKeepsRateTally | src/service/pipeline.rs:108-139 | one request keeps the account of how often the node was made to prepare, under any clock |
| Pipeline.ChargeCall | src/service/pipeline.rs:123-131 | rate check and charge on the live buckets, as specified |
| Requests.RateStepIs | src/service/pipeline.rs:123-131 | that step lets a call pass exactly if it has no rate or a token left, and takes exactly one token from that call's bucket if it passes |
| Pipeline.PrepareAndExecute | src/service/pipeline.rs:133-189 | prepare, quota check, execute and commit on the live buckets, as specified |
| Pipeline.Serve | src/service/pipeline.rs:73-189 | the seven steps on the live buckets give the specified reply and usage, leaving at the first refusal |
| Service.SortIsStable | src/service/transport.rs:471-474 | the answer is read oldest first, with nothing lost and ties in their order |
| Service.Service.Refresh | src/service/transport.rs:453-482 | one pass over the sorted answer, grants and subscriptions together; a failed query changes nothing |
| Service.Service.MirrorNow | src/service/transport.rs:442-446 | the mirror becomes a copy of the live state |
| Service.Service.AnswerRequest | src/service/transport.rs:562-636 | decode, choose the handler by kind, and run the pipeline |
| Service.Service.OnRelayEvent | src/service/transport.rs:524-559 | a grant, a subscription, a request or nothing, with the mirror renewed after the first two |
| Answers.StepByKind | src/service/transport.rs:524-559 | an event of kind 23194 or 23198 is answered, one of kind 30198 is applied to the grants, one of kind 30199 to the subscriptions, and any other does nothing |
| Answers.EveryRequestIsAnswered | src/service/transport.rs:371-424 | over any run from any state, an input has a reply exactly if it is an event of kind 23194 or 23198, and it is the answer at that point |
| Service.Service.Loop | src/service/transport.rs:360-424 | start-up and the event loop produce exactly the replies and the mirror of the specified run |
| Limits.MovementBound | src/service/pipeline.rs:108-189 | over any run from any state and under any clock, a bucket governed by one valid rule lets through at most max_capacity + floor(amount·moved/per_secs), with moved the sum of the clock's forward steps |
| Limits.WindowBound | src/service/pipeline.rs:108-189 | over any run from any state with a clock that does not go back, a bucket governed by one valid rule during a window lets through at most max_capacity + floor(amount·window/per_secs) |
| Limits.WrittenRuleGoverns | src/service/pipeline.rs:91-131 | if every event heard for a controller or for everybody else that permits a counted call carries one rule, that rule governs throughout the run |
| Limits.WrittenRuleBounds | src/service/pipeline.rs:91-189 | so both bounds hold from what the owners published alone |
| Limits.SpendingBound | src/service/pipeline.rs:141-189 | so the satoshis a controller successfully spends in any window are bounded, whatever interleaves |
| Limits.PreparingIsNeverFree | src/service/pipeline.rs:108-139 | so is the number of times its calls of a method make the node prepare, refused and failed ones included |
| Runs.GrantsReplayHistory | src/service/transport.rs:371-424 | at every point the grants are the replay of everything heard since start |
| Runs.RunAbsorbs | src/service/transport.rs:371-482 | however events arrive, live or re-read, grants and subscriptions are what one pass over all of them in the order heard gives |
| Runs.ExecutionIsJustified | src/service/pipeline.rs:86-189 | whenever a request makes the node prepare or execute, or changes any bucket, it calls a method the handler of its kind implements, and an event already heard is a kind-30198 event by an owner, written to this node, standing for the caller (or for everybody else if the caller has none), valid, and permits the method in the protocol's own map; the call proceeds under exactly the rate and quota written there |
| Runs.ResolvedGrantIsJustified | src/grant.rs:154-166 | the same for any authorized call, with the terms of that event: the method's own entry before the one for everything not named |
| Runs.AuthorizedIffJustified | src/grant.rs:101-166 | at every point of every run a call is authorized exactly when such an event was heard, ties settled by arrival |
| Runs.UnauthorizedIff | src/profile.rs:86-140 | at every point of every run UNAUTHORIZED rather than RESTRICTED is answered exactly when no event applies or the one that does has an invalid value |
| Runs.NoOwnersNothingRuns | src/grant.rs:107-112 | with no owners, no run ever prepares or executes anything or changes a bucket |
| Answers.EveryAnswerIsDue | src/service/transport.rs:562-636 | at every point of every run the reply to any request is what a table of reasons, read off the events heard, the tokens left and the node's answers, says: the first obstacle in order, the node's refusal, the exceeded quota, or the node's result |
| Answers.EveryAnswerLeaves | src/service/pipeline.rs:73-189 | no bucket changes unless the request gets as far as the rate limit, and then exactly as far as it got |
| Answers.ExecutedIff | src/service/pipeline.rs:73-189 | a request is executed, and answered with the node's result, if and only if it can be read, its method is implemented, an event heard justifies it, its parameters fit, a token is left, the node can prepare it, and the quota covers the cost |
| Answers.StrangersLearnNothing | src/service/pipeline.rs:86-106 | a caller nobody granted anything is told only which stage failed: decryption, reading, an unimplemented method, or, whatever its parameters, that it is not authorized; no bucket changes |
| Runs.SubscribersWereGranted | src/subscription.rs:116-145 | only controllers covered by an accepted grant are ever remembered as subscribers |
| Runs.ReconnectCatchesUpIff | src/service/transport.rs:402-418 | coming back leaves the grants that hearing everything live would have if and only if nothing newest is missing from the answer and what was heard (where newest events do not disagree) |
| Runs.ReconnectCatchesUp | src/service/transport.rs:402-418 | so it does with the relay's current state |
| Runs.MirrorIsLive | src/service/transport.rs:437-446 | once started, the mirror equals the live grants and subscriptions after every input |
| Runs.RevocationEndsDelivery | src/service/transport.rs:535-549 | after an own grant stops permitting a type, the controller is not a recipient at any later point until a not-older own grant permits it again |
| Runs.UnreadableRevokes | src/grant.rs:135-151 | after an own grant that cannot be read and is not older, every method of both protocols is RESTRICTED and no type is delivered at any later point, whatever everybody else may do, until a not-older own grant can be read |
| Runs.DenialHolds | src/grant.rs:126-166 | whatever an own grant that is not older denies stays denied until a not-older own grant no longer does |
| Runs.NonInterference | src/service/state.rs:13-25 | deleting every other controller's requests from a run leaves a controller's replies and buckets identical, also under a shared grant for everybody else |
| Restore.ColdStartRestoresIff | src/service/transport.rs:471-481 | a cold start restores a controller's last readable subscription if and only if there is none, it asks for nothing, or an accepted grant precedes it in time order |
| Restore.OlderGrantsRestore | src/subscription.rs:81-145 | in particular when every readable subscription has a strictly older grant |
| Restore.SubscriptionBeforeGrantIsLost | src/subscription.rs:116-118 | a subscription older than the only grant is not restored although the relay holds both |
| Restore.DeliveryIsWantedAndPermitted | src/subscription.rs:155-171 | in every run, whoever is entitled to a type by subscription published a list with that type in an event already heard, and the event its rights come from has the type, or OTHERS, in its map of notifications |
| Restore.ColdStartDeliversIff | src/subscription.rs:155-180 | after a cold start in which grants precede subscriptions, a controller is entitled to a type exactly if its last list has it and the map of notifications of the applying grant permits it |
| Reorder.SlotConvergesIff | src/subscription.rs:126-143 | under standing grants, all orders and repetitions leave a covered controller the same subscription if and only if it has no non-empty list, or every empty one is strictly older than the newest others and those agree |
| Reorder.RegistryConvergesIff | src/subscription.rs:81-145 | so all orders leave the same registry exactly if that holds of every covered controller |
| Reorder.OlderListUndoesLeaving | src/subscription.rs:138-140 | a list and a newer empty one leave nothing in that order, and the list in the other |
| Reorder.RunReplaysSubs | src/service/transport.rs:535-549 | while no grant arrives, a running service's registry is the replay those statements are about |
| Delivery.PlanDelivery | src/service/transport.rs:255-281 | the caller once, as both or as command, every other entitled subscriber once, nobody else |
| Delivery.Deliver | src/service/transport.rs:255-293 | exactly the planned notifications whose sending works are sent, and counted |
| Delivery.SentExactly | src/service/transport.rs:283-290 | one failed recipient does not silence the rest |
| Delivery.MirrorIsAlwaysTidy | src/subscription.rs:129-143 | stored subscribers are canonical keys with non-empty lists at every point of every run, which delivery rests on, and before the start nobody is entitled to anything |
| Client.Wait | src/nnc/client/pending.rs:97-141 | a handle resolves with the first notification that names its request, and times out only if none does |
| Client.Classify | src/nnc/client/methods.rs:241-254 | one pass over the tags sets the three flags to what they mean |
| Client.Listen | src/nnc/client/methods.rs:233-287 | the listener is handed, in order and until told to stop, exactly the notifications meant for it |
| Client.TagsAreExact | src/service/transport.rs:194-224 | a notification is by the service, of kind 23200, addressed to its recipient and nobody else, and names the recipient's subscription exactly if that is a cause |
| Client.RoutingIsExact | src/service/transport.rs:194-224 | a notification names a cause, names a request exactly if it is that request's outcome, and reaches a listener exactly if it is a delivery to that controller's subscription at that service |
| Client.MatchesIff | src/nnc/client/pending.rs:113-126 | a handle takes an event exactly by its kind, 23200, and an `e` tag naming its request; a listener by kind, author and the `a` tag naming its subscription (src/nnc/client/methods.rs:231-254) |
| Client.ServiceResolvesIff | src/nnc/client/pending.rs:97-133 | on every stream a handle resolves with an event of the service if and only if one that names the request arrives before any other author's that does |
| Client.ConcurrentOutcomesKeepApart | src/nnc/client/pending.rs:97-133 | however the notifications of concurrent commands interleave, with each other and with anything by other authors, a handle gets its own command's outcome if and only if that arrives before any other author's event naming the request |
| Client.AnyAuthorResolves | src/nnc/client/pending.rs:113-126 | any author's event with the tag, arriving first, is what a handle resolves with, though no listener takes it |
| Client.DeliveryReachesSubscribers | src/service/transport.rs:226-293 | end to end, a listener is reached exactly if its controller wants and may have the type and sending worked |
| Client.DeliveryResolvesTheCaller | src/service/transport.rs:226-293 | end to end, a handle is resolved exactly if its request caused the notification and sending worked |
| Uri.EncodedByteIsNormal | src/nnc/uri.rs:116-125 | an escaped byte is a percent sign and two upper-case digits that read back as the byte, the normal form of section 2.1 of RFC 3986 |
| Uri.EncodedAlphabet | src/nnc/uri.rs:116-125 | encoded text has only unreserved characters (section 2.3) and percent signs, so no separator of the URI |
| Uri.EncodesBytewise | src/nnc/uri.rs:116-125 | encoded text is, byte by byte, the byte itself if RFC 3986 leaves it and its percent sign and two digits otherwise |
| Uri.SecretIsNeverAccepted | src/nnc/uri.rs:72-80 | a URI with a secret among its parameters is never accepted |
| Uri.PercentDecode | src/nnc/uri.rs:98-114 | the decoding loop computes the specified decoding, including the abort on text cut inside a character |
| Uri.DecodesBytewise | src/nnc/uri.rs:98-114 | on every text that does not abort, a percent sign with two hexadecimal digits of either case, or a plus sign and one, behind it gives the character of that number, those two bytes nothing, and every other byte the character of its number |
| Uri.PushIsUtf8 | src/nnc/uri.rs:98-114 | such a character is appended in the encoding of section 3 of RFC 3629 |
| Uri.CodecRoundTripIff | src/nnc/uri.rs:98-125 | decoding undoes encoding exactly for ASCII text |
| Uri.DecodeAbortsIff | src/nnc/uri.rs:98-114 | decoding aborts if and only if a percent sign with two bytes behind it has a character cut at either end of those bytes |
| Uri.ReadingAbortsIff | src/nnc/uri.rs:72-80 | reading the parameters aborts if and only if such a relay comes before any secret |
| Uri.ParseAbortsIff | src/nnc/uri.rs:61-85 | parsing aborts if and only if scheme and key are in order and such a relay comes before any secret |
| Uri.CutRelayAborts | src/nnc/uri.rs:104 | such a URI exists for every service key: a relay of a percent sign, a letter and a two-byte character, which without its percent sign decodes |
| Uri.ParseUri | src/nnc/uri.rs:64-85 | the parsing loop computes the specified result or error |
| Uri.ParseIsExact | src/nnc/uri.rs:61-85 | on every text, each error is given exactly for its own reason, and otherwise the key and all relays among the parameters, decoded, in their order |
| Uri.SplitIsExact | src/nnc/uri.rs:73 | the parameters are what joining with ampersands gives the query back from, none with an ampersand in it |
| Uri.NameAndValue | src/nnc/uri.rs:74 | a parameter is cut at its first equals sign |
| Uri.KeyAndQuery | src/nnc/uri.rs:69 | key and query are cut at the first question mark |
| Uri.SchemeIsExact | src/nnc/uri.rs:65-67 | a wrong scheme is reported as everything before the first separator, or all of a text without one |
| Uri.PrintUri | src/nnc/uri.rs:88-96 | the printing loop computes the specified text |
| Uri.ParsePrinted | src/nnc/uri.rs:61-125 | parsing a printed URI never aborts, and gives the same key with each relay as the decoder respells it, or the missing-relay error |
| Uri.RoundTripIff | src/nnc/uri.rs:61-125 | a URI survives printing and parsing if and only if it has a relay and all its relays are ASCII |

## Left out

- NIP-44 encryption, signatures and JSON are arbitrary partial functions here; nothing is proved about them.
- Relay connections, timers, status polling, info events and the reply event's own tags: only the inputs the loop reacts to are kept.
- The payload structs of both protocols: only which type a method's parameters are read as matters.
- The `Prepared` selection carried from `prepare` to `execute`, and `execute` staying within the quoted cost, are the node's business.
- Concurrent deliveries in the instant between applying a grant and renewing the mirror: the claims are about the mirror between inputs.
- The order of effects in the client's `begin` (subscribe, then send), the NWC client and its URI, `controllers_seen`, `len` and similar counters: they would only add easy members.
- The procedural macro that derives `methods()`, error messages and default values of absent JSON fields.
- Order-independence of subscriptions while grants change in between: stated for grants that stand, and for a cold start that reads both.
