# Verified models of oxibrowser's session and credential core

This project models the parts of oxibrowser that carry promises over whole runs, in Dafny 4.11. `dafny verify
dfyconfig.toml` checks all of it.

- **Fetch bridge and its observer** (`FetchBridge`, `RequestLife`, `RequestLog`, `NetworkIdle`, `UrlPatterns`): JS
  requests, one task each, the pause for an interception client, the bounded request log, the shared in-flight counter
  with its guards, and the wait loop that polls the counter. The bridge is a state machine whose steps are the points where another thread can
  look; only one task is between await points at a time, as on the single-threaded runtime.
- **Web storage** (`StorageSync`, `DrainBarrier`, `StorageState`): origin-stamped messages, the sync threads, the drain
  barrier before a navigation seed, and export/import of one scope. localStorage and IndexedDB are two instances of one
  plane; a database message stores the database under the name it carries.
- **Navigation** (`SessionHistory`, `FrameTree`, `FrameLoading`, `FrameContexts`): the history list with its index, the
  frame tree filled by a worklist, when that worklist runs empty, and the numbering of frame contexts.
- **Extraction** (`ContentExtract`, `ReadingOrder`): visible text, link text and the scored choice of the main container
  over a DOM snapshot keyed by node id.
- **Consent** (`ConsentStore`, `Policy`, `GrantSafety`, `BrokerSource`, `CredentialHandles`, `PendingConfirmations`): the
  append-only grant log, the gate over it, the credential source, handles, and the table of pending confirmations.

Code that updates fields or loops is a class or a method here, proved against a function; the theorems are about those
functions. The main operations also say what they do without naming those functions: over the steps of a run, field by
field of a grant, answer by answer of the provider, key by key of a store, or as one formula. What the program takes from
outside is a parameter: clocks, I/O outcomes, origin parsing and printing, registrable domains, the credential provider,
lower-casing, page loads and the result of building a frame context.

## Where the code differs from what its comments say

- The counter comment promises that it never leaks. A stylesheet fetch adds one by hand and one through the guard and
  gives back one (`FetchBridge.StylesheetLeaks`); a task that is still running when the JS side disconnects is dropped
  without giving back its one (`FetchBridge.DisconnectAbandons`). `FetchBridge.ZeroReachableIff` states exactly when
  zero can still be reached.
- A request is received before it is counted, so an observer can read zero in between (`FetchBridge.DispatchGap`).
- The network wait promises that the counter stays at zero for the quiet window. It looks at one value per poll, so a
  request that is counted, answered and un-counted between two polls goes unseen (`NetworkIdle.UnseenRequest`);
  `FetchBridge.StaysZeroIff` and `NetworkIdle.ReadyMeansAnswered` state exactly when the counter did stay at zero.
- Replay is said to tolerate partial tails. It reads the file as one string, so a write cut inside a character of several
  bytes makes every later read fail and no grant is ever used again (`Policy.BadCutStopsAll`,
  `ConsentStore.AppendReadableIff`).
- An append to the consent log that was cut short before its newline makes the next line unreadable, although that next
  append reports success (`ConsentStore.AppendFaithfulIff`). The gate then allows one use too many
  (`Policy.AllowedTwice`), and a revocation that reports success can leave its grant usable
  (`GrantSafety.LostRevocation`); `Policy.RepeatedRequest`, `GrantSafety.RevocationEffectIff` and
  `GrantSafety.RevokesAllIff` state exactly when.

## What the code does where no comment promises otherwise

- A navigation seed can hold writes sent after its barrier (`DrainBarrier.LateWriteSlipsIn`), and after a wait that was
  given up it can miss earlier ones (`DrainBarrier.GivingUpMissesWrites`). `DrainBarrier.AcknowledgedSeeds` and
  `DrainBarrier.GivenUpSeeds` give the exact sets of seeds that can be read, `DrainBarrier.SeedIsExact` and
  `DrainBarrier.GivenUpSeedIsExact` when the seed is just what was sent before the barrier.
- A failed step back or forward keeps the new position and the old page (`SessionHistory.FailedBackDrifts`,
  `SessionHistory.PositionDrifts`).
- A page that embeds itself, at once or through other pages, is populated for ever: the loop has no bound on depth or
  number (`FrameLoading.SelfEmbeddingNeverEnds`); `FrameLoading.PopulationEndsIff` states exactly when it ends.
- Stepping forward in an open session that has loaded nothing computes `len() - 1` on an empty list. The model is of a
  build that checks overflow, where this panics at once; a build that wraps panics on the index right after, with the
  position already moved, or reports the offline error first.

## Assumptions a reader should know

- Counters and ids are unbounded; wrap-around of the 64-bit counter and request ids, and of 32-bit context ids, is not
  modelled. Frame ids are bounded by 32 bits where they are parsed.
- A line merged from an unfinished line and a record parses as nothing. A file is unreadable only through bytes that are
  not UTF-8; other read errors are not modelled.
- `DrainBarrier` lets any message be written straight to the shared map at any time, which covers direct storage access
  and imports.
- In `ContentExtract` a snapshot has every node under its own id and no cycle, child ids may dangle, and scores are reals.
- In `SessionHistory` a navigation that the new page's own scripts ask for is the next operation of the run; the
  navigation that caused it reports its error.
- In `FrameTree` other pages may take any number of ids from the process-wide supply between two frames.
- In `GrantSafety` calls are sequential. A revocation is one event per tombstone it appends.
- In `NetworkIdle` the two clock reads of one turn are `seenAt` and `comparedAt`; a sleep lasts at least one poll interval.
- In `PendingConfirmations` one call reads the clock once.

## Model

| member | source | states |
|---|---|---|
| UrlPatterns.UrlMatchesPatterns | crates/oxibrowser-core/src/session.rs:350-378 | Interception applies exactly when some non-empty pattern, free at both ends, matches the URL under the standard recursive glob meaning: the greedy left-to-right search is sound and complete |
| UrlPatterns.PatternMatches | crates/oxibrowser-core/src/session.rs:354-377 | The same for one pattern, through the `*` fast path, the segment loop and the plain substring branch; the empty pattern selects nothing |
| UrlPatterns.EarliestIsEnough | crates/oxibrowser-core/src/session.rs:370-375 | Exchange argument: committing to the earliest occurrence of a segment never loses a layout of the rest |
| UrlPatterns.StarFreeIsContains | crates/oxibrowser-core/src/session.rs:347-349 | A pattern without a star selects exactly the URLs that contain it |
| RequestLog.BoundedLogRefinesUnbounded | crates/oxibrowser-core/src/session.rs:90-119 | After any starts, newest-by-id finishes and clears, the capped deque is the newest 500 records of the log that evicts nothing, including finishes of evicted or reused ids |
| RequestLog.NetworkLog.RecordRequestStart | crates/oxibrowser-core/src/session.rs:92-98 | Appends, evicting the oldest record at the cap |
| RequestLog.NetworkLog.RecordRequestFinish | crates/oxibrowser-core/src/session.rs:103-119 | Gives the newest record with the id its status, headers, type, length and time, keeps its address and method, and leaves every other record as it was |
| FetchBridge.RunsKeepInv | crates/oxibrowser-core/src/session.rs:520-771 | Every interleaving keeps: ids received in order and once, counter = unfinished tasks + guards + stylesheet increments, answers match the tasks that sent them, log records say how far their task got |
| FetchBridge.Conservation | crates/oxibrowser-core/src/session.rs:520-771 | Requests received = answers sent + requests still owed one; each request is answered at most once and is owed one exactly until it is answered |
| FetchBridge.ZeroCounter | crates/oxibrowser-core/src/session.rs:909-930 | The counter is never negative, and zero exactly when no guard is live, no stylesheet increment was made and every spawned task is over |
| FetchBridge.ZeroMeansAnswered | crates/oxibrowser-core/src/session.rs:549-554 | At counter zero every request received has been answered if and only if none sits between being received and being counted |
| FetchBridge.DispatchGap | crates/oxibrowser-core/src/session.rs:549-554 | A run that shows the gap: one request received, none answered, counter zero |
| FetchBridge.StylesheetLeaks | crates/oxibrowser-core/src/session.rs:2220-2221 | A run with one stylesheet and nothing else: its guard is gone, nothing is in flight, the counter stays at one |
| FetchBridge.DisconnectAbandons | crates/oxibrowser-core/src/session.rs:764-768 | A run in which the JS side disconnects while a task runs: the task is dropped unanswered and the counter stays at one |
| FetchBridge.AnsweredIsLogged | crates/oxibrowser-core/src/session.rs:615-771 | The record of an answered request, if neither evicted nor cleared, is finished with exactly what the terminal branch writes, no status for offline and transport failures and the status of the answer otherwise; without a clear it was logged |
| FetchBridge.AnswersHaveGrounds | crates/oxibrowser-core/src/session.rs:612-765 | Every answer goes back to the one step that decided it: the offline or URL check, the client's verdict, or the network |
| FetchBridge.ZeroReachableIff | crates/oxibrowser-core/src/session.rs:510-517 | The counter can come back to zero from a state of a run if and only if no stylesheet increment was made and no task was dropped when the JS side disconnected |
| FetchBridge.EveryRequestCanBeAnswered | crates/oxibrowser-core/src/session.rs:546-771 | No interleaving gets stuck: while connected, some schedule answers every request issued so far |
| FetchBridge.StylesheetsHoldTheCounterUp | crates/oxibrowser-core/src/session.rs:2215-2221 | Each stylesheet fetch leaves the counter one too high for ever |
| FetchBridge.StaysZeroIff | crates/oxibrowser-core/src/session.rs:909-930 | From a zero on, the counter stays at zero up to a later state of the run if and only if no spawn, guard or stylesheet increment lies in between |
| FetchBridge.OneRequest | crates/oxibrowser-core/src/session.rs:549-554 | A run in which the counter goes from zero to one and back while one request is received and answered |
| RequestLife.NextStepIff | crates/oxibrowser-core/src/session.rs:556-765 | In every run a step of a request can be taken exactly when it may follow the last step of that request: start, then refusal, pause or sending on; a verdict after a pause only; the network after a URL no pattern selects, a continue or no decision; the answer once settled; the un-counting once answered; and only when the runtime is free, where the code awaits |
| RequestLife.ClientAnswersWerePaused | crates/oxibrowser-core/src/session.rs:398-490 | An answer given by the client has an earlier verdict of its own kind for that request, and before that a pause of that request |
| RequestLife.SentToNetwork | crates/oxibrowser-core/src/session.rs:411-418 | After a request passed unselected, or was let go on, or got no decision: any network outcome can come in every free state while its task lives and none has come, and whatever it is answered came from the network |
| RequestLife.AnswerOfStep | crates/oxibrowser-core/src/session.rs:612-765 | Answers go out with the answering step only, each for its request with what its settling step decided |
| RequestLife.StatusOfAnswer | crates/oxibrowser-core/src/session.rs:612-765 | The status of an answer: 0 offline, 400 for a bad URL, the client's or 0 when it failed the request, the delivered one or 0 without transport |
| RequestLife.LogOfStep | crates/oxibrowser-core/src/session.rs:571-765 | What each step writes to the request log, field by field |
| RequestLife.Books | crates/oxibrowser-core/src/session.rs:520-771 | In every run the issued, received and answered requests, the guards, the stylesheet increments and the counter are the numbers of the steps that move them |
| RequestLife.OneAtATime | crates/oxibrowser-core/src/session.rs:534-556 | At most one task is between two await points, and none between receipt and counting |
| NetworkIdle.WaitForCondition | crates/oxibrowser-core/src/tab.rs:713-803 | For every clocked sequence of samples the loop ends at the first turn that is ready or not before start plus timeout, ready winning; network readiness takes zeros at two turns at least the quiet window apart and at every turn between |
| NetworkIdle.RunStartDecides | crates/oxibrowser-core/src/tab.rs:767-786 | The idle clock started at the first zero of a run decides the same as looking for any window of zeros |
| NetworkIdle.WaitIsDetermined | crates/oxibrowser-core/src/tab.rs:731-803 | Ending turn and outcome are determined by the samples |
| NetworkIdle.TurnsAreBounded | crates/oxibrowser-core/src/tab.rs:719-722 | The wait takes at most one turn per poll interval before the deadline |
| NetworkIdle.ReadyMeansAnswered | crates/oxibrowser-core/src/tab.rs:695-782 | A ready network wait saw, over at least the quiet window, only bridge states with no guard and every counted request answered; the counter also stayed at zero between its looks if and only if no request, guard or stylesheet was counted in between |
| NetworkIdle.UnseenRequest | crates/oxibrowser-core/src/tab.rs:695-782 | With the default interval and window, a wait that is ready although between its first two polls a request was received, counted, answered and un-counted |
| NetworkIdle.StylesheetsDefeatNetworkIdle | crates/oxibrowser-core/src/tab.rs:745-799 | Once a stylesheet was fetched before the wait, the network wait can only time out |
| StorageSync.ContextStorage.HandleSync | crates/oxibrowser-core/src/session.rs:831-859 | The sync loop leaves the fold of the received messages in order and acknowledges exactly the barriers among them |
| StorageSync.LastWriterWins | crates/oxibrowser-core/src/session.rs:840-856 | Reading a key afterwards gives what the last message about it said, or the old value |
| StorageSync.BucketsAppear | crates/oxibrowser-core/src/session.rs:840-856 | A bucket exists afterwards exactly if it existed or some message, even a removal, was stamped with its origin |
| StorageSync.OnlyOwnMessages | crates/oxibrowser-core/src/session.rs:831-907 | The bucket of an origin depends only on the messages stamped with it |
| StorageSync.OriginPartition | crates/oxibrowser-core/src/session.rs:831-907 | Two interleavings that agree origin by origin leave the same store |
| StorageSync.KeyPartition | crates/oxibrowser-core/src/session.rs:831-907 | Two interleavings that agree key by key of each origin, for IndexedDB database by database, leave the same store |
| DrainBarrier.SeedsSeeEarlierWrites | crates/oxibrowser-core/src/session.rs:2089-2112 | For any number of sessions and any schedule, every navigation seed folds a prefix of what the store saw, holding of its own session only what was sent by the read; when the barrier was acknowledged the prefix holds everything the session sent before it |
| DrainBarrier.UndisturbedSeed | crates/oxibrowser-core/src/session.rs:2089-2112 | Where no other session changed the origin, the seed folds a prefix of what its session sent by the read, reaching past the barrier if that was acknowledged |
| DrainBarrier.AcknowledgedSeeds | crates/oxibrowser-core/src/session.rs:2089-2112 | From any reachable state, the seeds an acknowledged navigation can read over an origin nobody else changes are exactly the folds of everything sent before the barrier and any prefix of the writes sent between it and the read |
| DrainBarrier.GivenUpSeeds | crates/oxibrowser-core/src/session.rs:2097-2105 | After a wait that was given up they are exactly the folds of any prefix of what was still queued and sent by the read |
| DrainBarrier.BeforeIsAllSent | crates/oxibrowser-core/src/session.rs:2089-2112 | Over an origin only this session has ever changed, the fold before the barrier is the fold of all it has sent |
| DrainBarrier.SeedIsExact | crates/oxibrowser-core/src/session.rs:2089-2112 | From any reachable state: every acknowledged seed is exactly the fold of the messages before the barrier if and only if no message sent between the barrier and the read changes the bucket that fold leaves |
| DrainBarrier.GivenUpSeedIsExact | crates/oxibrowser-core/src/session.rs:2097-2105 | Every seed read after giving up is that fold if and only if no message queued or sent by the read changes the bucket as it stands |
| DrainBarrier.RevisitSeesWrite | crates/oxibrowser-core/src/session.rs:2089-2112 | Among any number of sessions: a write sent before the barrier is in the acknowledged seed, unless its session sent something about the key between the write and the read or another session changed the key between the step that applied the write and the read |
| DrainBarrier.LateWriteSlipsIn | crates/oxibrowser-core/src/session.rs:2096-2112 | A run in which a write sent after the barrier is already in the seed |
| DrainBarrier.GivingUpMissesWrites | crates/oxibrowser-core/src/session.rs:2097-2105 | A run in which the wait is given up and the seed misses an earlier write |
| StorageState.SessionStorage.ExportStateForScope | crates/oxibrowser-core/src/session.rs:2645-2706 | The export lists, sorted, exactly the origins of the lower-cased scope that hold something, each with every entry and database once |
| StorageState.SessionStorage.ImportState | crates/oxibrowser-core/src/session.rs:2720-2759 | Importing into any storage merges: each key of each origin reads as the state lists it last, or else as before, databases likewise under their own names; a bucket exists exactly if it did or its origin is listed; the last origin is noted |
| StorageState.LocalRoundTrip | crates/oxibrowser-core/src/session.rs:2645-2759 | Importing an export into empty storage rebuilds the localStorage bucket of every exported origin and nothing else |
| StorageState.IdbRoundTripIff | crates/oxibrowser-core/src/session.rs:2645-2759 | It rebuilds exactly the exported databases if and only if each is stored under its own name |
| StorageState.ExportAgain | crates/oxibrowser-core/src/session.rs:2645-2759 | When every in-scope database is stored under its own name, exporting the rebuilt storage allows exactly the states the original allowed |
| StorageState.SyncKeepsKeyedByName | crates/oxibrowser-core/src/session.rs:890-904 | Applying database messages keeps every database under its own name |
| StorageState.ImportKeepsKeyedByName | crates/oxibrowser-core/src/session.rs:2743-2751 | So does importing any state, hand-written ones included |
| StorageState.RunsKeepKeyedByName | crates/oxibrowser-core/src/session.rs:890-904 | From empty storage, any sequence of database messages and imports keeps every database under its own name |
| StorageState.ReachedRoundTrip | crates/oxibrowser-core/src/session.rs:2645-2759 | So for every storage such a sequence reaches, importing its export into empty storage rebuilds all exported buckets, and exporting that allows exactly the states the original allowed |
| SessionHistory.RefinesZipper | crates/oxibrowser-core/src/session.rs:1205-1212 | The list with an index behaves as a back/forward zipper, failed fetches included |
| SessionHistory.ForwardUndoesBack | crates/oxibrowser-core/src/session.rs:1500-1503 | On the zipper forward undoes back and no entry is lost |
| SessionHistory.BackUndoesForward | crates/oxibrowser-core/src/session.rs:1550-1553 | Back undoes forward likewise |
| SessionHistory.BackThenForward | crates/oxibrowser-core/src/session.rs:1496-1503 | Successful back then forward restores position, history and page address |
| SessionHistory.LoadAfterBacks | crates/oxibrowser-core/src/session.rs:1735-1742 | A load after k steps back discards exactly the k entries walked over and what was ahead |
| SessionHistory.PositionDrifts | crates/oxibrowser-core/src/session.rs:1500-1515 | In every run the position differs from the page on display by the failed steps since the last load, so they agree if and only if those cancel out |
| SessionHistory.FailedBackDrifts | crates/oxibrowser-core/src/session.rs:1500-1515 | Two loads and a failed step back: the position is at the first entry, the page on display is the second |
| SessionHistory.DriftedLoadDropsShown | crates/oxibrowser-core/src/session.rs:1206-1212 | A load keeps the entry of the page that was on display behind the new one if and only if the position was not behind it |
| SessionHistory.Session.Navigate | crates/oxibrowser-core/src/session.rs:1074-1233 | Only an outcome that renders a page changes the history, and it does so even when the effects of the page's scripts then fail and the call reports that error; a closed session refuses |
| SessionHistory.Session.GoBack | crates/oxibrowser-core/src/session.rs:1496-1540 | Moves before it fetches, keeps the moved position on failure, and shows the entry on success |
| SessionHistory.Session.GoForward | crates/oxibrowser-core/src/session.rs:1546-1592 | The same, forward, except that an open session with an empty history panics |
| SessionHistory.Session.Close | crates/oxibrowser-core/src/session.rs:2936-2949 | Closing once clears page and history; closing again does nothing |
| FrameTree.AttachAddsIds | crates/oxibrowser-core/src/frame.rs:108-128 | Attaching through the id search adds exactly the new descendants, or nothing when the parent is missing |
| FrameTree.AttachTouchesOnlyParent | crates/oxibrowser-core/src/frame.rs:108-128 | With unique ids, attaching a fresh leaf appends one child to the parent and changes no other child list, document or version |
| FrameTree.Page.PopulateIframes | crates/oxibrowser-core/src/session.rs:1326-1409 | The worklist loop ends with exactly the tree a recursive loader builds, children in document order, ids unique and fresh, whatever ids other pages take meanwhile |
| FrameLoading.PopulationEndsIff | crates/oxibrowser-core/src/session.rs:1326-1409 | For any site, finite or not, the worklist loop over a page ends if and only if there is a bound on how deep its loaded frames nest |
| FrameLoading.SelfEmbeddingNeverEnds | crates/oxibrowser-core/src/session.rs:1326-1409 | Where each of some frames embeds another one of them, the loop over any of them never ends |
| FrameLoading.DocumentsAreBounded | crates/oxibrowser-core/src/session.rs:1326-1409 | A tree of documents nests no deeper than its size |
| FrameLoading.UnfoldedKids | crates/oxibrowser-core/src/session.rs:1326-1409 | What a site of bounded depth serves is such a tree, iframe by iframe |
| FrameContexts.ParsePrint | crates/oxibrowser-core/src/frame.rs:25-35 | Parsing a printed frame id gives it back, for every 32-bit id |
| FrameContexts.ParseIff | crates/oxibrowser-core/src/frame.rs:25-28 | A frame id is accepted exactly when it is the prefix, perhaps a plus sign, and a decimal number of 32 bits |
| FrameContexts.CollectDescendants | crates/oxibrowser-core/src/session.rs:2272-2284 | The stack walk lists every descendant exactly as often as it occurs: the children of a frame side by side, then what lies below the last of them, and so on back to the first |
| FrameContexts.PrintedLookup | crates/oxibrowser-core/src/session.rs:2313-2318 | Looking a descendant up by its printed id finds that very frame |
| FrameContexts.InjectChildFrames | crates/oxibrowser-core/src/session.rs:2258-2343 | A listed frame with a body has the number two plus the frames with a body before it, a failed build spending its number; it is in the map under its printed id with that number exactly if its build succeeded, and nothing else is in the map |
| FrameContexts.ContextMapIsSound | crates/oxibrowser-core/src/session.rs:2328-2342 | The frame-to-context map is injective, starts at 2, and names descendants with a body, never the root |
| FrameContexts.BuiltFramesAreMapped | crates/oxibrowser-core/src/session.rs:2328-2342 | Every frame that was built is in the map with its own context |
| ContentExtract.VisibleTextInto | crates/oxibrowser-core/src/extract.rs:159-174 | Appends the readable text of the subtree, one space after each text node |
| ContentExtract.LinkTextLen | crates/oxibrowser-core/src/extract.rs:237-257 | The stack walk totals the normalised lengths of the outermost anchors, and the total is at most the visible length of the node |
| ContentExtract.LinksWithinText | crates/oxibrowser-core/src/extract.rs:269-272 | Link text never exceeds visible text, so the clamp never acts |
| ContentExtract.NormalizeConcat | crates/oxibrowser-core/src/extract.rs:516-518 | Normalising two texts together, the first ending in whitespace, is never shorter than apart |
| ContentExtract.MarkSign | crates/oxibrowser-core/src/extract.rs:269-280 | No mark is negative, and one is positive exactly for an element of enough text that is not nothing but links |
| ContentExtract.HintsRank | crates/oxibrowser-core/src/extract.rs:207-280 | Between two elements alike in text length, link length and tag, not all links, the one with more positive or fewer negative hints, and no fewer and no more of the other kind, has the higher mark |
| ContentExtract.HintScore | crates/oxibrowser-core/src/extract.rs:207-234 | The hint loops multiply 0.2 for every negative and 1.5 for every positive hint that occurs in the lower-cased class and id |
| ContentExtract.ComputeMark | crates/oxibrowser-core/src/extract.rs:267-280 | The mark is text length, times 0.2 per negative and 1.5 per positive hint, times 1.3 for article or main, 0.3 for aside or nav, times the share of the text that is no link |
| ContentExtract.MainContainer | crates/oxibrowser-core/src/extract.rs:260-291 | The container is the first element of the walk with the highest such mark, if positive; none is chosen exactly when every element with 25 characters of text is nothing but links |
| ReadingOrder.WalkMembers | crates/oxibrowser-core/src/extract.rs:260-291 | The walk visits exactly the elements reached through elements that are shown |
| ReadingOrder.RawTextIsGlued | crates/oxibrowser-core/src/extract.rs:159-174 | What is read is the texts of the subtree in document order, a space after each |
| ReadingOrder.TextsMembers | crates/oxibrowser-core/src/extract.rs:159-174 | Those texts are exactly the text nodes that are the start or a child of an element reached through shown elements |
| ReadingOrder.ShownIff | crates/oxibrowser-core/src/extract.rs:129-150 | Which tags, attributes and styles hide a node |
| ReadingOrder.NormalForm | crates/oxibrowser-core/src/extract.rs:516-518 | Normalising keeps the maximal runs without white space, in order, with one space between any two and none at the ends |
| ConsentStore.ReplayMeaning | crates/oxibrowser-credentials/src/consent.rs:426-460 | Replay, without the loop: each id at most once, present exactly when a grant follows its last tombstone, with the last such grant, in the order of the first such grants |
| ConsentStore.ConsentStore.Replay | crates/oxibrowser-credentials/src/consent.rs:428-460 | The two-variable loop computes the replay of the visible lines, or fails when the file is not text |
| ConsentStore.ConsentStore.Consume | crates/oxibrowser-credentials/src/consent.rs:385-399 | Appends the replayed record with one more use; an unknown id, or a file that is not text, appends nothing |
| ConsentStore.ConsentStore.ActiveForSubject | crates/oxibrowser-credentials/src/consent.rs:360-381 | Returns a live grant of that subject, whose origin parses to the same one, that lists the action, is not expired and has a use left; none only if there is none; of several the one granted last, and of those the one with the greatest id |
| ConsentStore.ActiveForIsNewest | crates/oxibrowser-credentials/src/consent.rs:376-381 | No usable grant is newer, ties broken by id |
| ConsentStore.ConsentStore.RevokeSubject | crates/oxibrowser-credentials/src/consent.rs:271-299 | Writes one tombstone per live grant of that subject, origin and action, expired ones included, in order, and stops at the first failed append; fails on a file that is not text |
| ConsentStore.ConsentStore.RevokeById | crates/oxibrowser-credentials/src/consent.rs:251-269 | Writes a tombstone only for an id that replays; fails on a file that is not text |
| ConsentStore.AppendFaithfulIff | crates/oxibrowser-credentials/src/consent.rs:462-470 | A successful append adds its line to what readers see if and only if the file could be read and ended in a newline |
| ConsentStore.AppendReadableIff | crates/oxibrowser-credentials/src/consent.rs:428-470 | A file can be read after an append if and only if it could before and the write was not cut inside a character |
| Policy.PolicyEngine.AuthorizeUseAt | crates/oxibrowser-credentials/src/policy.rs:159-204 | By the fields: Deny naming the first deny rule with the top-level or frame origin; Deny for a passkey handle; confirmation when no live grant names the credential, the printed origin and the action with a use left; else the newest such grant is written with one more use, and Allow citing it or Deny if the write failed; with the log and the audit line of each |
| Policy.AllowIff | crates/oxibrowser-credentials/src/policy.rs:159-204 | Allow exactly if no deny rule has the top-level or frame origin, the handle is no passkey, the write succeeds, and such a grant is live |
| Policy.PolicyEngine.Preflight | crates/oxibrowser-credentials/src/policy.rs:144-156 | True exactly when no deny rule has the top-level or frame origin and a live grant for credential, origin and action has a use left; consumes nothing |
| Policy.AuthorizeSpendsOne | crates/oxibrowser-credentials/src/policy.rs:175-192 | While the budget lasts the decision is Allow, and on a file that ends in a newline it takes exactly one use from the budget |
| Policy.BudgetIsExact | crates/oxibrowser-credentials/src/policy.rs:159-204 | Repeating a request at a fixed clock gives Allow exactly as often as the sum of unused uses over its unexpired covering grants, then asks for confirmation for ever |
| Policy.RepeatedRequest | crates/oxibrowser-credentials/src/policy.rs:159-204 | The exact number of Allows for every file: none if it is not text, else the budget, or with an unfinished last line one more than the budget without that line |
| Policy.TornTailAllowsOneMore | crates/oxibrowser-credentials/src/consent.rs:462-470 | After an append cut short, a non-empty budget is exceeded by exactly one |
| Policy.CutAppendTears | crates/oxibrowser-credentials/src/consent.rs:462-470 | A usable grant and one append cut short leave such a file: the request is allowed once more than the grant has uses left |
| Policy.AllowedTwice | crates/oxibrowser-credentials/src/policy.rs:175-192 | A concrete one: a grant for one use, an append cut short, and two Allows |
| Policy.BadCutStopsAll | crates/oxibrowser-credentials/src/consent.rs:426-433 | After one append cut inside a character, on any file, and whatever is appended later, no undisputed request is ever allowed: each asks for confirmation and leaves the file alone |
| GrantSafety.NeverOverspent | crates/oxibrowser-credentials/src/policy.rs:159-204 | Over any run of fresh grants, revocations and authorizations, from any file and whatever its writes do, the Allows citing a grant exceed its uses when granted by at most its counts lost in unfinished lines, and no more counts are lost than appends were cut short: without a cut no grant is overspent |
| GrantSafety.NeverCitedAfterRevocation | crates/oxibrowser-credentials/src/consent.rs:251-299 | Over the same runs, once complete lines revoke an id no Allow ever cites it again |
| GrantSafety.RevokedIsDeadIff | crates/oxibrowser-credentials/src/consent.rs:251-299 | Appending a tombstone for a granted id gets it there if and only if the write succeeded on a file that ended in a newline |
| GrantSafety.ReplayCountsUses | crates/oxibrowser-credentials/src/consent.rs:385-399 | Over the same runs, a grant replayed from the complete lines is the original with exactly the cited uses added that were not lost |
| GrantSafety.NotesAreRight | crates/oxibrowser-credentials/src/policy.rs:159-204 | What these results count is exact: one citation for every Allow citing the id, one of them lost for every one made while the last line was unfinished, and no more cuts than writes cut short and an unfinished line at the start |
| GrantSafety.AuthorizeEffect | crates/oxibrowser-credentials/src/policy.rs:159-204 | On any file and for any outcome of the write: when each decision falls, exactly; a use appends some usable grant with one more use and is allowed, citing it, if the write succeeded, denied for failed accounting otherwise; every other decision leaves the log as it was; and what each id then replays to |
| GrantSafety.RevocationIsExact | crates/oxibrowser-credentials/src/consent.rs:271-299 | On a file that ends in a newline revoking a subject removes exactly the grants it covers; on any other, of which something is covered, the first covered grant keeps what complete lines say and the other covered ones go |
| GrantSafety.RevokesAllIff | crates/oxibrowser-credentials/src/consent.rs:271-299 | Every covered grant is gone after a revocation that reports success if and only if the file ended in a newline, nothing was covered, or no complete line grants the first covered id |
| GrantSafety.RevocationEffectIff | crates/oxibrowser-credentials/src/consent.rs:251-269 | A tombstone that reports success hides its grant if and only if the file is not text, ended in a newline, or has no complete line that grants the id |
| GrantSafety.LostRevocation | crates/oxibrowser-credentials/src/consent.rs:462-470 | A grant, an append cut short, a revocation that reports success: the grant is still usable |
| GrantSafety.AppendEffect | crates/oxibrowser-credentials/src/consent.rs:426-470 | What replays under an id after any append, whatever the file and the outcome of the write |
| BrokerSource.Broker.Resolve | crates/oxibrowser-credentials/src/agent.rs:139-239 | By the provider's answers: the first fitting linked handle, or else the first fitting listed one, or which error; the allowlist check; one authorization of that handle at that origin for login or mfa, before which nothing is recorded; and then exactly which answers release what, the password with handle, login hint and allowlist or the generated code, and which error each other answer gives; with the fill line of the released value |
| BrokerSource.SelectionIsDetermined | crates/oxibrowser-credentials/src/agent.rs:33-76 | A call has one candidate or one reason for having none |
| BrokerSource.PrecheckSound | crates/oxibrowser-credentials/src/agent.rs:39-106 | What reaches the authorization has the requested kind and scope, is vouched for by the provider, and its allowlist parses and holds the page origin |
| BrokerSource.FirstLinkedIsUsed | crates/oxibrowser-credentials/src/agent.rs:39-76 | The first linked handle that fits is the one used, and then the listing is not consulted |
| BrokerSource.ReleasesAreAccounted | crates/oxibrowser-credentials/src/agent.rs:139-239 | Over any run, from any file and whatever its writes do, the values released under a grant never exceed the uses recorded for it, and exceed what it allowed by at most its counts lost in unfinished lines: by none if no append was cut short |
| BrokerSource.CallsAreNoted | crates/oxibrowser-credentials/src/agent.rs:139-239 | Each call of such a run resolves as `Broker.Resolve` does and, when it succeeds, notes one release under the grant this call cites |
| CredentialHandles.ParseFormat | crates/oxibrowser-credentials/src/provider.rs:53-96 | Exactly valid parts can be printed, and parsing the handle gives them back |
| CredentialHandles.Spelling | crates/oxibrowser-credentials/src/provider.rs:12-23 | How handles and the two keychain keys are spelt |
| CredentialHandles.FormatParse | crates/oxibrowser-credentials/src/provider.rs:69-96 | Printing what was parsed gives the same handle |
| CredentialHandles.AcceptedIffPrinted | crates/oxibrowser-credentials/src/provider.rs:53-96 | The accepted handles are exactly the printed ones |
| CredentialHandles.KeysAreInjective | crates/oxibrowser-credentials/src/provider.rs:15-23 | Two valid credentials never share a service and account key pair |
| PendingConfirmations.LazyRefinesEager | crates/oxibrowser-cdp/src/credential.rs:160-221 | Under a nondecreasing clock the lazily purged table gives every answer, counts included, that purging at once would give |
| PendingConfirmations.TakeMeaning | crates/oxibrowser-cdp/src/credential.rs:189-202 | A take succeeds exactly when its id was registered, not taken or removed since, and the deadline is ahead; it returns what was registered |
| PendingConfirmations.TakenAtMostOnce | crates/oxibrowser-cdp/src/credential.rs:189-202 | One registration yields at most one result |
| PendingConfirmations.IdsNeverRepeat | crates/oxibrowser-cdp/src/credential.rs:160-186 | No two registrations share an id |
| PendingConfirmations.CredentialBroker.Take | crates/oxibrowser-cdp/src/credential.rs:189-202 | The locked map after a take is the lazy step, and refines the eager one |

## Left out

- FrameTree.Attach: frames are values replaced in a field of the page, so the borrow that the search returns, and aliasing, are not captured.
- FrameTree.Page.PopulateIframes: a method here must end, so it works on the finite trees of documents; FrameLoading shows that these are exactly the sites on which the loop ends.
- FetchBridge.AnsweredIsLogged: says nothing about records evicted by the cap or removed by clearing the log.
- DrainBarrier.AcknowledgedSeeds: sets aside schedules in which another session changes the same origin meanwhile; what holds there is SeedsSeeEarlierWrites and RevisitSeesWrite.
- GrantSafety.NeverOverspent: takes calls one after the other; file races between processes are not modelled.
- PolicyEngine.verify_confirmation_at and issue_confirmation: a comparison of a hash, an expiry and the deny rules, read off their bodies.
- Audit log contents beyond the decision, reason and request of a line; redaction, fingerprints and hashes themselves.
- Cookies in the storage state, the cookie jar, CORS, robots and HTTP caching.
- `maybe_intercept` rewriting of URL, method and headers, overrides and POST body capping: pass-through of values.
- WebSocket bridge, dialogs, downloads, response bodies, HAR export.
- Block text, Markdown, tables, Open Graph and JSON-LD extraction.
- Account grants beyond their subject, takeovers, the login orchestrator and TOTP code generation.
- The JS engine, DOM bindings, rendering, the keychain backend and the CDP wire format.
