# AlphaDecay: a verified model of its release, rehearsal and launch machinery

AlphaDecay releases, rehearses and launches an options-trading agent. Before anything reaches the
market it reads container layers and lock files to account for every shipped byte, seals evidence about
the provider account, talks to a child process over a framed transport, and dispatches at most one
approved order. This project models that machinery and proves what it promises.

Run `dafny verify dfyconfig.toml` in this directory.

## Layout

| area | modules |
|---|---|
| paths, link targets, memoised link resolution | `Paths`, `LinkTarget`, `Chains`, `Links` |
| image layers: reading, overlay, provenance, order, snapshot, acceptance | `OciLayer`, `OciFold`, `OciProvenance`, `OciOrder`, `OciSnapshot`, `OciAcceptance` |
| dependency closures of the uv and npm locks | `Reachability`, `PythonClosure`, `NodeClosure` |
| canonical JSON, bounded freezing, sealed artifacts | `Dictionaries`, `Json`, `JsonRoundTrip`, `TextOrder`, `ArtifactJson`, `ArtifactBytes`, `ArtifactPayload`, `ClaimText`, `ArtifactSeal` |
| captured account books and their digest | `Sorting`, `SortedBy`, `Surrogates`, `ProviderRows`, `ProviderBook`, `BookCapture`, `BookDigest` |
| MCP framing and the close protocol | `FrameReader`, `CloseProtocol` |
| the market-window runner | `MarketWindow` |
| activity pagination and order lineage | `Pagination`, `OrderLineage` |
| at-most-once dispatch and the private bundle writer | `Dispatch`, `BundleWriter` |
| option symbols, strict decimals, roll selection | `DecimalDigits`, `OptionSymbol`, `StrictDecimal`, `RollSelection`, `RollOrder` |

Paths are sequences of components, times are integers, text is a sequence of code points, prices are
exact reals, and SHA-256 is an uninterpreted function that is assumed injective only where a
statement says so. Concurrency is a state machine over atomic steps between awaits or system calls.
A clock, a child process, a provider or a file system that may misbehave is a stream of answers that
nothing is assumed of beyond what a statement names.

## Where the code does less than its description

* The directory loop of the layer fold visits a set. The remembered directories, and through them
  whether a link to a directory is accepted, can depend on the order of that set.
  `OciAcceptance.RememberedExactly` says which directories every run remembers,
  `OciAcceptance.AcceptanceOrderFreeExactly` when acceptance is the same for all orders, and
  `OciAcceptance.AcceptanceDependsOnOrder` gives an image of two tar layers that one run accepts and
  another refuses. Files and recorded entries never depend on it.
* A private core that uses the key `public_summary_sha256` can never be sealed: the documents written for
  it do not pass their own verification (`ArtifactSeal.SealedVerifiesExactly`).
* Open orders whose history has two replacements in a row are refused although the account is
  consistent (`OrderLineage.ConsistentExactly`).
* The dispatch marker guards the path of an approval file, not the approval
  (`Dispatch.CopiedApprovalSubmitsTwice`, `Dispatch.OneApprovalOneSubmissionExactly`).
* A file that already carries the random name of a temporary is deleted by the clean-up: a failed run
  without faults leaves the directory as it was if and only if no temporary name was taken
  (`BundleWriter.WriteBundle`).
* Digits outside ASCII give one contract several symbols, and then roll selection can depend on the order
  of the chain (`OptionSymbol.RenderRestoresExactly`, `RollSelection.ForeignChainDependsOnOrder`).
  `RollOrder.SelectionForgetsOrderExactly` says for which chains it does not: acceptance and offers are the
  same in every order exactly when the choice among listings of one contract makes no difference.
* A payload that claims nothing can be refused for claiming competition evidence: a key that ends in a quote
  and `competition_evidence`, with the value true, looks like the claim once printed
  (`ClaimText.TextTestExactly`).
* The package-spread test of roll selection and the repeated-cursor error of pagination never fire.

## Model

| member | source | states |
|---|---|---|
| `Paths.TextPrefixIsComponentPrefix` | ops/release/license_provenance.py:2141-2165 | the text test "equal, or starts with the target and a slash" is exactly the component-prefix test on paths |
| `Paths.SafeMemberIsCanonical` | ops/release/license_provenance.py:583-587 | an accepted member name is already in normal form: it is the join of its components, none of them empty, `.` or `..` |
| `LinkTarget.Compute` | ops/release/license_provenance.py:590-610 | the target loop computes the normal form of the joined link text, and fails exactly on an empty, escaping or forbidden absolute target |
| `LinkTarget.NormalizeMeaning` | ops/release/license_provenance.py:600-610 | normalising fails exactly when some prefix of the parts goes above the root; otherwise the result has the depth that the prefixes account for |
| `LinkTarget.NormalizeIsNormal` | ops/release/license_provenance.py:600-610 | a computed target has no empty, `.` or `..` part |
| `LinkTarget.NormalizeCancels` | ops/release/license_provenance.py:600-610 | a component followed by `..` contributes nothing |
| `LinkTarget.RootedLinkFindsItsPath` | ops/release/license_provenance.py:593-610 | a link written as the absolute text of a plain path leads to that path, from any place |
| `Chains.Resolve` | ops/release/license_provenance.py:621-638 | memoised resolution terminates, only ever remembers what following the chain gives, and its error is a real dangling, escaping or cyclic chain |
| `Chains.ResolveAll` | ops/release/license_provenance.py:2230-2260 | resolving every link succeeds exactly when every chain ends, and then each remembered value is the end of its chain, in whatever order the names come |
| `Chains.ResolveRoots` | ops/release/license_provenance.py:2182-2221 | the same for the hardlink loop, which stores only the value of each starting name |
| `Chains.LandingIsFinal` | ops/release/license_provenance.py:613-643 | a chain that ends in bytes ends in one value only and neither dangles, escapes nor cycles |
| `Chains.FailureIsExclusive` | ops/release/license_provenance.py:613-643 | no name both resolves and fails, so what is accepted does not depend on the order of the names |
| `Chains.MemosAgree` | ops/release/license_provenance.py:613-643 | two sound memo dictionaries never disagree on a name |
| `Links.ResolveLinks` | ops/release/license_provenance.py:613-643 | the archive link resolver returns every file and, for every link, the bytes at the end of its chain; it fails exactly when some chain does not end |
| `OciLayer.ReadRoles` | ops/release/license_provenance.py:2077-2137 | one pass over the members accepts exactly the layers that are well named and within all five bounds, and returns the layer they describe and the new totals |
| `OciLayer.ReadLayer` | ops/release/license_provenance.py:2077-2137 | the same from tar members, and the layer read has disjoint files, links and directories that its metadata agrees with |
| `OciLayer.ScannedCoherent` | ops/release/license_provenance.py:2091-2137 | the six collections of a well-named layer agree: every recorded path is a file, a link or a directory and only that |
| `OciFold.ImageFold.RemoveTree` | ops/release/license_provenance.py:2141-2155 | all four collections lose exactly the target and what lies below it |
| `OciFold.ImageFold.RemoveBelow` | ops/release/license_provenance.py:2157-2165 | all four collections lose exactly what lies strictly below an opaque directory, everything for the root |
| `OciFold.ImageFold.ApplyMarkers` | ops/release/license_provenance.py:2157-2167 | opaque markers and whiteouts together remove exactly the union of what each hides |
| `OciFold.ImageFold.TraversalFound` | ops/release/license_provenance.py:2168-2173 | a symlinked parent is reported exactly when an incoming path runs through a link of this layer or a lower link the markers leave |
| `OciFold.ImageFold.PlaceDirectories` | ops/release/license_provenance.py:2176-2179 | the directory loop removes exactly the content that layer directories displace, and remembers directories according to the order taken |
| `OciFold.StagesRemove` | ops/release/license_provenance.py:2157-2179 | the removal stages together remove what one order-free condition says, although later stages look at what earlier ones left |
| `OciFold.ImageFold.ApplyLayer` | ops/release/license_provenance.py:2141-2224 | a layer is accepted exactly when no path runs through a link and every hardlink chain ends; the collections then are the order-free overlay and stay in step |
| `OciFold.OverlayAgrees` | ops/release/license_provenance.py:2174-2224 | after a layer a path is in `filesystem` exactly when it is recorded as file or hardlink with the same bytes, and in `links` exactly when recorded as symlink |
| `OciFold.OverlayKeepsLeaves` | ops/release/license_provenance.py:2168-2224 | nothing is ever recorded below a symbolic link |
| `OciProvenance.NewestLayerDecides` | ops/release/license_provenance.py:2061-2224 | the pointwise meaning: a path is present exactly when some layer records it and no newer layer records or removes it, and then it is what that layer recorded |
| `OciProvenance.StoredBytes` | ops/release/license_provenance.py:2061-2224 | the bytes of a visible regular file are those of the newest layer that records it; a visible link keeps its target |
| `OciProvenance.OwnMembersSurvive` | ops/release/license_provenance.py:2157-2224 | a layer's own whiteouts and opaque markers never hide its own members |
| `OciProvenance.FoldAgrees` | ops/release/license_provenance.py:2141-2224 | the agreement of the collections holds after any sequence of accepted layers |
| `OciProvenance.FoldUnique` | ops/release/license_provenance.py:2061-2224 | the collections after any sequence of layers do not depend on the order in which sets are visited |
| `OciOrder.DirectoriesOrderFreeExactly` | ops/release/license_provenance.py:2176-2179 | the remembered directories are independent of set order if and only if no layer directory lies below another one that replaces stored content |
| `OciOrder.OrdersThatDiffer` | ops/release/license_provenance.py:2176-2179 | when that condition fails, two orders of the same names remember different directories |
| `OciOrder.StoredIsOrderFree` | ops/release/license_provenance.py:2176-2179 | the stored paths after the loop are the same for every order |
| `OciSnapshot.Finish` | ops/release/license_provenance.py:2225-2268 | the end of the run succeeds exactly when every link ends, and returns the stored bytes, the bytes links lead to, and the entries with implied directories |
| `OciSnapshot.FoldBlob` | ops/release/license_provenance.py:2069-2224 | one turn of the layer loop is accepted exactly when the blob is within the bounds that earlier blobs leave and the layer can be applied |
| `OciSnapshot.FoldBlobs` | ops/release/license_provenance.py:2069-2224 | the layer loop accepts exactly the readable and foldable sequences of layers |
| `OciSnapshot.TakeSnapshot` | ops/release/license_provenance.py:2061-2268 | an image is accepted exactly when it is readable and foldable and its links all end, given the directories that the orders taken leave remembered |
| `OciSnapshot.SnapshotAgrees` | ops/release/license_provenance.py:2259-2268 | the returned files and entries agree: file and hardlink entries carry the returned bytes, a symlink is returned exactly when its chain ends in bytes, a directory never |
| `OciSnapshot.SnapshotShowsNewest` | ops/release/license_provenance.py:2061-2268 | every visible path is in the returned entries as its newest layer recorded it, a visible file with that layer's bytes |
| `OciSnapshot.SnapshotUnique` | ops/release/license_provenance.py:2061-2268 | two accepted runs over one image return the same files |
| `OciOrder.MostRemembered` | ops/release/license_provenance.py:2176-2179 | some order of the directory names remembers every directory the layer lists |
| `OciOrder.FewestRemembered` | ops/release/license_provenance.py:2176-2179 | some order forgets every listed directory that has a displaced path above it |
| `OciAcceptance.RememberedBounds` | ops/release/license_provenance.py:2157-2179 | whatever orders are taken, every run remembers all firm directories and only listed ones, where both are read off the layers: the newest layer to record a listed path has it as a directory, and a firm one has no displaced content above it in that layer |
| `OciAcceptance.RememberedExactly` | ops/release/license_provenance.py:2157-2179 | a directory is remembered by every run exactly when it is firm, and by some run exactly when it is listed |
| `OciAcceptance.FirmestRun` | ops/release/license_provenance.py:2157-2179 | some run over any foldable image remembers the firm directories and no others |
| `OciAcceptance.FullestRun` | ops/release/license_provenance.py:2157-2179 | some run over any foldable image remembers every listed directory |
| `OciAcceptance.AcceptanceOrderFreeExactly` | ops/release/license_provenance.py:2176-2268 | all runs over an image are accepted alike if and only if its links do not all end even with every listed directory remembered, or no link chain ends in a threatened directory that no stored path implies |
| `OciAcceptance.AboveIsAccepted` | ops/release/license_provenance.py:2168-2224 | the second layer of the order example is an ordinary accepted layer |
| `OciAcceptance.ImageLayers` | ops/release/license_provenance.py:2069-2137 | the two tar layers of the order example are readable, and are the layers described |
| `OciAcceptance.AcceptanceDependsOnOrder` | ops/release/license_provenance.py:2061-2268 | two blobs that can be read and folded, and two runs over them that differ only in set order: one is accepted, the other refused |
| `Reachability.ReachableIsLeast` | ops/release/license_provenance.py:395-415 | the nodes reached from the roots are the least set that contains the roots and is closed under successors |
| `Reachability.ClosureOfUnion` | ops/release/license_provenance.py:443-484 | closure distributes over the union of the roots |
| `PythonClosure.Close` | ops/release/license_provenance.py:395-415 | the uv worklist terminates, fails exactly when something reachable is missing, and returns the coordinates of exactly the reachable packages |
| `PythonClosure.Split` | ops/release/license_provenance.py:3344-3345 | runtime and build-only sets are disjoint and together are the closure of all roots |
| `NodeClosure.ResolveNode` | ops/release/license_provenance.py:443-456 | resolution returns the first present candidate over the enclosing packages and the root, and fails exactly when there is none |
| `NodeClosure.FirstPresentIsNearest` | ops/release/license_provenance.py:443-456 | no candidate nearer than the resolved one is present |
| `NodeClosure.NestedLookup` | ops/release/license_provenance.py:443-456 | on the lock paths npm writes, the enclosing packages are consulted innermost first, then the root |
| `NodeClosure.Close` | ops/release/license_provenance.py:466-484 | the npm worklist terminates, fails exactly when a required dependency or peer of something reachable is unresolved, and returns exactly the reachable identities |
| `NodeClosure.SplitRoots` | ops/release/license_provenance.py:540-569 | over the five groups of roots the runtime and build sets are disjoint and together the closure of all installed roots |
| `JsonRoundTrip.ValueRoundTrip` | ops/launch/provider_rehearsal.py:1531-1548 | parsing the printed text of any printable value gives the value back and leaves what follows it (RFC 8259) |
| `JsonRoundTrip.ObjectRoundTrip` | ops/launch/provider_rehearsal.py:1531-1548 | the same for a whole document through the duplicate-rejecting object parser |
| `TextOrder.AscendingUnique` | ops/launch/provider_rehearsal.py:2671-2682 | an object sorted by key is determined by its mapping |
| `ArtifactJson.Freeze` | ops/launch/provider_rehearsal.py:2568-2644 | freezing succeeds exactly when the value is admitted and fits the bounds, returns the frozen tree, and adds exactly its items, bytes and numeric bytes to the running account |
| `ArtifactBytes.EmitSize` | ops/launch/provider_rehearsal.py:2576-2644 | the printed text is exactly as long as the account says, for any nesting |
| `ArtifactBytes.FrozenPrintable` | ops/launch/provider_rehearsal.py:2568-2644 | whatever is frozen successfully can be printed |
| `ArtifactPayload.PayloadBytes` | ops/launch/provider_rehearsal.py:2662-2685 | a payload is accepted exactly under the stated bounds and claims, and its bytes are one longer than the estimate |
| `ArtifactPayload.SameBytesIffEquivalent` | ops/launch/provider_rehearsal.py:2568-2685 | accepted payloads have equal bytes exactly when they are equal up to the order of object keys |
| `ArtifactPayload.FrozenTwice` | ops/launch/provider_rehearsal.py:2568-2664 | freezing what was frozen and thawed changes nothing |
| `ArtifactPayload.AcceptedAlike` | ops/launch/provider_rehearsal.py:2662-2685 | values that freeze alike are accepted alike and printed alike |
| `ClaimText.TextTestExactly` | ops/launch/provider_rehearsal.py:2683-2684 | the test on the printed text fires if and only if some member at some depth has the value true and a key that is `competition_evidence` or ends in a quote followed by it |
| `ClaimText.AcceptedExactly` | ops/launch/provider_rehearsal.py:2662-2685 | acceptance of a payload without mentioning the printed text |
| `ClaimText.QuotedKeyIsRefused` | ops/launch/provider_rehearsal.py:2664-2684 | a value in which nothing claims competition evidence is refused by the text test |
| `ArtifactSeal.Documents` | ops/launch/provider_rehearsal.py:2164-2198 | the two documents that sealing writes, and exactly when all three payloads are accepted |
| `ArtifactSeal.SealedVerifies` | ops/launch/provider_rehearsal.py:2164-2220 | a directory sealed from a core without the reserved key and with the fields of its schema passes verification with the same public payload |
| `ArtifactSeal.ReservedKeyFails` | ops/launch/provider_rehearsal.py:2185-2200 | under an injective hash the reserved key in the private core always makes verification fail |
| `ArtifactSeal.SealedVerifiesExactly` | ops/launch/provider_rehearsal.py:2164-2373 | sealed documents pass their own verification if and only if the core does not use the reserved key and the schema fields hold |
| `ArtifactSeal.SamePublicPayload` | ops/launch/provider_rehearsal.py:2216-2220 | the verified public payload is the one that was sealed |
| `ArtifactSeal.PublicFixesPrivate` | ops/launch/provider_rehearsal.py:2312-2373 | under an injective hash two accepted directories with the same public bytes carry the same private payload |
| `FrameReader.LinesExactly` | backend/app/alpaca/mcp.py:211-218 | there is exactly one way to cut a stream into lines that end in a newline and a remainder, none holding a newline, and it is the reference split |
| `FrameReader.Read` | backend/app/alpaca/mcp.py:204-228 | the frames and the end of the run depend only on the concatenated bytes: they are the run over the lines of the stream, however it was cut into chunks |
| `FrameReader.ReadChunk` | backend/app/alpaca/mcp.py:211-226 | the inner loop keeps that account chunk by chunk, and the buffer never exceeds the frame limit |
| `FrameReader.DeliverMeaning` | backend/app/alpaca/mcp.py:192-228 | the frames are the leading lines before the first oversized, invalid or refused one, and the error says what that line was |
| `CloseProtocol.RunKeeps` | backend/app/alpaca/mcp.py:378-464 | every interleaving of callers, cancellations and transport outcomes keeps the protocol invariant |
| `CloseProtocol.Safety` | backend/app/alpaca/mcp.py:378-464 | the transport is entered at most once, exited only after a successful enter, with at most one exit request outstanding and at most one successful exit |
| `CloseProtocol.NoExitAfterSuccess` | backend/app/alpaca/mcp.py:447-464 | once the lifecycle task has ended, in no continuation is the transport entered or exited again, nor another exit counted |
| `CloseProtocol.PendingAttemptIsKept` | backend/app/alpaca/mcp.py:409-435 | no late waiter drops a newer attempt: only an attempt's own answer ends it |
| `CloseProtocol.CloseReturns` | backend/app/alpaca/mcp.py:409-435 | a close that returns normally means the transport was exited once or never entered, and the client is disconnected |
| `CloseProtocol.FailedExitIsRetried` | backend/app/alpaca/mcp.py:409-464 | from every reachable state with an open transport and no exit under way, an idle caller gets a new exit request to the transport in at most two closes, even if an earlier failed attempt was left in place by cancelled waiters |
| `CloseProtocol.CallsReachAnOpenTransport` | backend/app/alpaca/mcp.py:466-480 | a call reaches the transport only while it is entered and no exit was requested |
| `CloseProtocol.ClosingIsFinal` | backend/app/alpaca/mcp.py:403-407 | once closing has begun, in no continuation is a call admitted again |
| `MarketWindow.NextTickIsLeast` | ops/launch/submission_market_window.py:381-387 | the next tick is the least grid point that is not before now |
| `MarketWindow.TicksStayInWindow` | ops/launch/submission_market_window.py:322-335 | ticks go to consecutive grid slots, each at or after its slot and before the cutoff, at non-decreasing times, and at most 48 under the range rules |
| `MarketWindow.CompleteMeansCutoff` | ops/launch/submission_market_window.py:306-341 | a complete run read the clock at or after the cutoff and none of its ticks was refused |
| `MarketWindow.DownIsFinal` | ops/launch/submission_market_window.py:338-341 | after the child is stopped only the clean-up follows: no tick and no restart |
| `MarketWindow.WaitUntilReady` | ops/launch/submission_market_window.py:344-362 | returns only when the probe answered while the clock was before the cutoff and within a minute of the first look; its sleeps last a second and begin before the cutoff |
| `MarketWindow.WaitUntil` | ops/launch/submission_market_window.py:365-378 | returns only once the clock was read at or after the target or the cutoff; every sleep lasts at most a second and ends by the earlier of the two |
| `MarketWindow.TakeTick` | ops/launch/submission_market_window.py:322-335 | one turn of the tick loop advances by one slot, or sees the cutoff, or reports the failure |
| `MarketWindow.StopProcess` | ops/launch/submission_market_window.py:397-406 | the child is seen gone, or told to go and killed if it does not |
| `MarketWindow.RunWindow` | ops/launch/submission_market_window.py:295-341 | every run writes a proper log; normal return means complete; once started the child is stopped on every exit path; nothing starts outside the window |
| `Pagination.ListPayloads` | backend/app/alpaca/activities.py:213-246 | succeeds exactly when some page is short within the limit and all payloads up to it are in order; the repeated-cursor error never happens |
| `Pagination.ReadPayload` | backend/app/alpaca/activities.py:224-238 | the remembered last day and last exact times suffice to compare a payload with every earlier one |
| `Pagination.CursorIsNew` | backend/app/alpaca/activities.py:241-245 | ids are unique, so a new cursor was never used before |
| `Pagination.KeptIsOrderly` | backend/app/alpaca/activities.py:237-238 | the collected items are exactly those in the window, still with unique ids and in order |
| `Pagination.ExactTimesInOrder` | backend/app/alpaca/activities.py:231-234 | exact times are in order over the whole stream, although they are compared only within a day |
| `Pagination.FaithfulExactly` | backend/app/alpaca/activities.py:213-246 | from a provider that serves one list, the listing succeeds if and only if the list is in order and has few enough pages, and reads exactly that list over size/page+1 pages |
| `OrderLineage.OpenOrders` | backend/app/alpaca/execution_evidence.py:312-354 | accepts exactly the order sets with distinct ids, found links, unique client ids and mirrored replacements; the items come in client-id order |
| `OrderLineage.LineageIsInverse` | backend/app/alpaca/execution_evidence.py:337-345 | among the fetched orders "replaces" and "replaced by" are mutually inverse partial injections closed inside the set |
| `OrderLineage.ItemLinksAgree` | backend/app/alpaca/execution_evidence.py:357-393 | the returned client-id links mirror each other as the provider-id links do, and none is dropped |
| `OrderLineage.ConsistentExactly` | backend/app/alpaca/execution_evidence.py:320-345 | the open orders of a consistent account are accepted if and only if no order lies two replacements away from them |
| `OrderLineage.TwiceReplacedIsRefused` | backend/app/alpaca/execution_evidence.py:323-345 | an open order whose predecessor was itself a replacement is refused |
| `OrderLineage.SelfReplacementIsAccepted` | backend/app/alpaca/execution_evidence.py:337-345 | mirrored links do not rule out a cycle: an order that replaces itself passes every check |
| `Dispatch.RunKeeps` | ops/launch/cli_bootstrap.py:289-383 | every interleaving of processes, failures and crashes keeps the dispatch invariant |
| `Dispatch.AtMostOnce` | ops/launch/cli_bootstrap.py:353-356 | no approval path is ever submitted twice |
| `Dispatch.SubmissionsAreJustified` | ops/launch/cli_bootstrap.py:307-356 | every submission was requested, is authorized by the credentials, and follows a matching rehearsal, two identity checks, recorded request and provenance, and preconditions that hold at the dispatch time |
| `Dispatch.SpentForever` | ops/launch/cli_bootstrap.py:407-420 | once the marker's maker has sent, failed or crashed, no later run submits for that path |
| `Dispatch.CrashSpends` | ops/launch/cli_bootstrap.py:355-356 | a crash between claim and submit leaves the path spent and unsubmitted |
| `Dispatch.CopiedApprovalSubmitsTwice` | ops/launch/cli_bootstrap.py:407-420 | the marker guards a path, not an approval: the same approval at two paths is submitted twice |
| `Dispatch.OneApprovalOneSubmissionExactly` | ops/launch/cli_bootstrap.py:289-420 | a submittable approval is submitted at most once in every run that reads it only at given paths, if and only if there is at most one such path |
| `BundleWriter.WriteTemporary` | ops/launch/submission_story.py:118-136 | short writes are continued until the temporary holds the whole text, which is then synced |
| `BundleWriter.Publish` | ops/launch/submission_story.py:137-150 | only synced files are linked; links, unlinks and the final sync either all succeed or leave only names that will be dropped |
| `BundleWriter.WriteBundle` | ops/launch/submission_story.py:104-161 | either every final name is new with its whole, synced text and nothing else changed, or the directory is as before except for files that already had the name of a temporary tried; without faults it is as before if and only if no temporary name was taken, and otherwise exactly the first such file is gone; nothing is overwritten at any point in between |
| `BundleWriter.BundleNamesOk` | ops/launch/submission_story.py:105-120 | the final and temporary names of a bundle are always different from each other |
| `ProviderBook.NormalizeCollection` | ops/launch/provider_rehearsal.py:1298-1316 | collects exactly the readable rows with distinct identities, in the order of their canonical text |
| `Dictionaries.UnionLookup` | ops/launch/provider_rehearsal.py:1153-1193 | the union of two field dictionaries has the fields of both, the right one deciding, and no key twice |
| `ProviderRows.ReducedText` | ops/launch/provider_rehearsal.py:1153-1295 | a recorded text field of a row is the bounded text of the provider's field, unless a number or flag of the shape has its key |
| `ProviderRows.ReducedPrints` | ops/launch/provider_rehearsal.py:1153-1295 | a row whose strings hold no surrogate pair is reduced to one that prints unambiguously |
| `ProviderBook.CollectionForgetsOrder` | ops/launch/provider_rehearsal.py:1298-1316 | another order of the same rows is accepted too and collects the same |
| `ProviderBook.LegsForgetOrder` | ops/launch/provider_rehearsal.py:1205-1264 | the order of an order's legs does not matter either |
| `ProviderBook.OrdersForgetOrder` | ops/launch/provider_rehearsal.py:1196-1316 | two listings of the same orders, with orders and the legs of each order listed in any order, give one collection |
| `ProviderBook.KindsKeepClear` | ops/launch/provider_rehearsal.py:1153-1316 | all four kinds of row print unambiguously if no string of the provider's row holds a surrogate pair |
| `BookCapture.CheckIds` | ops/launch/provider_rehearsal.py:836-843 | accepts exactly the orders among which no order or leg id repeats |
| `BookCapture.OneOrderPerId` | ops/launch/provider_rehearsal.py:836-843 | in accepted orders an id belongs to one order alone, be it the order's own or a leg's |
| `BookCapture.CaptureBook` | ops/launch/provider_rehearsal.py:818-862 | captures exactly the three listings that can be collected and whose order and leg ids do not repeat, as their three collections |
| `BookCapture.CaptureForgetsOrder` | ops/launch/provider_rehearsal.py:818-862 | listing positions, orders, legs and activities in another order captures the same book |
| `ProviderBook.KindsShowIdentity` | ops/launch/provider_rehearsal.py:1158-1295 | every kind of reduced row still shows its identity, so different rows stay different |
| `Sorting.AscendingDetermined` | ops/launch/provider_rehearsal.py:1316 | a list in a strict order is determined by its elements |
| `SortedBy.SortByForgetsOrder` | ops/launch/provider_rehearsal.py:1316 | sorting by distinct keys gives a result that depends on the elements alone |
| `BookDigest.CollectionIsKept` | ops/launch/provider_rehearsal.py:1298-1316 | a collection has the form the digest relies on: distinct rows in the order of their text |
| `BookDigest.SameDigestExactly` | ops/launch/provider_rehearsal.py:2721-2742 | under an injective hash two captures have one digest exactly when role, fingerprint, account, terminal flag and the sets of positions, orders and activities coincide |
| `BookDigest.TidyBookIsKept` | ops/launch/provider_rehearsal.py:818-862 | whatever rows without surrogate pairs a provider lists, the collections of positions, orders and activities have that form |
| `Surrogates.PrintAlikeExactly` | ops/launch/provider_rehearsal.py:2688-2698 | two strings of code points print alike if and only if they are the same once every high surrogate directly before a low one is merged with it; strings without such pairs print alike only if they are equal |
| `Surrogates.ParsedIsUnpaired` | ops/launch/provider_rehearsal.py:1531-1548 | a JSON text without surrogates gives strings in which no high surrogate is directly before a low one: the parser merges their escapes (RFC 8259 section 7) |
| `Surrogates.ParsedIsTidy` | ops/launch/provider_rehearsal.py:1531-1548 | the same for every string and key of a parsed value |
| `OptionSymbol.RenderRestoresExactly` | backend/app/domain/option_contract_symbol.py:41-59 | printing the parsed root, date, right and strike restores the symbol if and only if the symbol is ASCII |
| `OptionSymbol.ParseRestores` | backend/app/domain/option_contract_symbol.py:41-59 | every well-formed contract is parsed back from its printed symbol |
| `OptionSymbol.OneSymbolPerContract` | backend/app/domain/option_contract_symbol.py:41-59 | an ASCII symbol is the only ASCII symbol of its contract |
| `OptionSymbol.ForeignDigitsCollide` | backend/app/domain/option_contract_symbol.py:13-16 | any digit outside ASCII gives a second symbol for some contract |
| `OptionSymbol.StandardMeansLetters` | backend/app/domain/option_contract_symbol.py:33-38 | a contract is standard exactly when its root has no digit |
| `StrictDecimal.ScanExactly` | ops/launch/cli_bootstrap.py:39 | the pattern matches exactly the strings written from its parts |
| `StrictDecimal.PlainRestores` | ops/launch/cli_bootstrap.py:806-807 | formatting a parsed string gives the string back |
| `StrictDecimal.AcceptsExactly` | ops/launch/cli_bootstrap.py:794-810 | accepted strings, the fixed points of render after parse, are exactly those without a needless trailing zero and without negative zero |
| `StrictDecimal.OneStringPerAmount` | ops/launch/cli_bootstrap.py:794-810 | accepted strings for one amount are the same string |
| `StrictDecimal.EveryAmountHasOne` | ops/launch/cli_bootstrap.py:794-810 | every multiple of a ten-thousandth below the bound has an accepted string |
| `StrictDecimal.UnitsAreValue` | ops/launch/cli_bootstrap.py:794-803 | the amount is the value of the Decimal |
| `RollSelection.ParsingIsSound` | backend/app/domain/option_contract_symbol.py:41-59 | symbol parsing is a reader that never gives two ASCII symbols the same contract |
| `RollSelection.Group` | backend/app/alpaca/market_data.py:505-527 | accepts exactly the chains it can read; the groups are the chain filed from left to right, a later listing of a slot taking the place of an earlier one |
| `RollSelection.LastFittingIsFiled` | backend/app/alpaca/market_data.py:505-527 | a slot holds the last listing of the chain that fits it, and is empty exactly when none does |
| `RollSelection.FiledIsGrouped` | backend/app/alpaca/market_data.py:505-527 | each slot holds a fitting listing and every fitting listing has its slot filled |
| `RollSelection.GroupsForgetOrder` | backend/app/alpaca/market_data.py:505-527 | the groups of a chain in which no two different listings fit one slot do not depend on its order |
| `RollOrder.FilingForgetsOrderExactly` | backend/app/alpaca/market_data.py:505-527 | every reordering of a chain is filed alike if and only if no two different listings of the chain fit one slot |
| `RollSelection.AsciiIsUnique` | backend/app/domain/option_contract_symbol.py:41-59 | a chain of ASCII symbols, each listed once, has no two listings for one slot |
| `RollSelection.ForeignChainDependsOnOrder` | backend/app/alpaca/market_data.py:505-659 | for any digit outside ASCII there are two listings whose two orders are filed differently and are both accepted with different offers |
| `RollSelection.CandidatesAre` | backend/app/alpaca/market_data.py:528-538 | the candidates are the earliest complete expirations, in order, at most eight |
| `RollSelection.Weigh` | backend/app/alpaca/market_data.py:549-644 | the first unsound or too wide leg decides; otherwise synchrony decides, and the package spread is within the limit |
| `RollSelection.PackageNeverRejects` | backend/app/alpaca/market_data.py:640-644 | in exact arithmetic the package-spread test never rejects legs that each passed the per-leg test |
| `RollSelection.Choose` | backend/app/alpaca/market_data.py:528-659 | fails exactly when only adjusted contracts were seen, the contract records do not cover the candidates (found before any leg is weighed), or some candidate is unsound; the offers are the fair candidates, narrowest first, then earliest |
| `RollSelection.Select` | backend/app/alpaca/market_data.py:505-659 | the selection accepts exactly the readable chains whose filed candidates do not fail, and returns their one ordered list of offers |
| `RollOrder.GroupsAreReorderings` | backend/app/alpaca/market_data.py:505-527 | the chain can be reordered so that any choice of one fitting listing per slot is what it is filed as |
| `RollOrder.ChoicesAlikeExactly` | backend/app/alpaca/market_data.py:528-659 | all choices of fitting listings lead to one result if and only if every choice fails, or none fails and each candidate has one listing per strike or a strike with no listing that is priced and narrow enough |
| `RollOrder.SelectionForgetsOrderExactly` | backend/app/alpaca/market_data.py:505-659 | the selection returns the same for every order of a chain if and only if an entry cannot be read, every choice of fitting listings fails, or no choice fails and each candidate has one listing per strike or a strike without a good listing |
| `RollOrder.RiskyExactly` | backend/app/alpaca/market_data.py:549-639 | some choice of listings makes an expiration unsound if and only if an unpriced listing can be reached past good ones, or all strikes have good listings of which two are quoted too far apart |
| `RollOrder.NoChoiceFailsExactly` | backend/app/alpaca/market_data.py:528-639 | no choice fails if and only if adjusted contracts are not all there is, the contract records cover every choice, and no candidate is risky |
| `RollOrder.SelectionForgetsOrder` | backend/app/alpaca/market_data.py:505-659 | for a chain with unique slots neither acceptance nor the offers and their order depend on the order of the chain |

## Left out

- Tar, gzip and zip decoding: a layer is its sequence of members, and reading a member's data cannot fail.
- Error texts: only which errors exist and when one is raised, not the wording or, where several checks fail at once, which is reported first.
- Recursion limits of the interpreter for deep link chains and deep JSON.
- Floats: a float is its literal; which literal `repr` prints and which pass the magnitude test are parameters, and NaN and infinity are unsupported values.
- Python's equality across types: header and schema fields are compared as JSON values, so `1`, `1.0` and `True` are different here.
- ArtifactSeal.SealedVerifies: does not model the order of writes, chmod, rename without replace and rollback in `_seal`, because file descriptors and permissions are outside the model.
- The package-lock and uv-lock loaders, apart from how `_load_node_lock` groups its roots.
- `_normalize_venv_path`, license texts, notices and the comparison of declared with observed components.
- MarketWindow.RunWindow: does not prove that a run ends, because the clock may stop answering; a run whose answers are used up is a prefix of a longer one. Signals and the parsing of schedule files are left out.
- MarketWindow.RunWindow: slots are distinct, but a slow sender can make later ticks follow one another at once; no spacing in time is stated.
- BundleWriter.WriteBundle: does not model other writers in the directory or a clean-up unlink that fails, and a write that takes nothing counts as taking one unit.
- Dispatch.AtMostOnce: the content of an order and the checks on approval fields, hashes and the tool's reports are one condition each; two paths that name one file are different paths.
- Pagination.ListPayloads: HTTP statuses and schema errors of a page are one provider failure; turning payloads into activity items and the order lineage of `collect` are left out.
- OrderLineage.OpenOrders: the structure checks of a multi-leg order are one condition of an order.
- `contracts_for`: the pagination of option contracts, whose page limits and duplicate checks are those of the activity listing again.
- BookCapture.CaptureBook: the account's own fields, its id and its fingerprint are left out.
- ProviderBook.NormalizeCollection: how a provider number is rendered is a parameter; the SDK's own records and their validation are left out.
- BookDigest.SameDigestExactly: requires strings without a high surrogate directly before a low one, as every JSON text that holds no surrogates itself parses to (`Surrogates.ParsedIsTidy`); strings that hold such a pair print like the merged ones (`Surrogates.PrintAlikeExactly`).
- OptionSymbol.RenderRestoresExactly: reads all six date digits through the digit table; `strptime` takes only ASCII digits in some of those places, so it accepts no more.
- RollSelection.Weigh: contract status, sizes, greeks and quote age are one condition of a listing, the window of expirations is a predicate, and which symbols the contract source has records for is a function of the request.
- Decimal rounding to 28 digits: market arithmetic is exact.
- `_confirmation_points`, the trading client, FastAPI routes, sessions and the frontend.
