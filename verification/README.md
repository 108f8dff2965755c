# Verified model of ovstorage's concurrent core

Machine-checked Dafny models of five parts of ovstorage and its OpenUSD resolver, and of two byte-level routines they rest on.
`dafny verify dfyconfig.toml` checks all of it.

**Coroutine ownership** (`Coroutine*.dfy`). The C++20 wrapper's `task<T>` coroutines are resumed by C callbacks on worker threads while
their task objects may be dropped at any moment. The protocol is a transition system with one atomic operation to a step: a task's
`state`, its `resume_owner`, the awaiter's `state`, and the chain of frames a worker has to release, for any number of frames and
workers. `Coroutine` is the machine, `CoroutineInvariant` its invariant and one lemma for each step, `CoroutineSafety` what holds of
whole runs, `CoroutineAwait` when an await suspends and what wakes it, `CoroutineProgress` that nothing goes on for ever or leaks, and that
nothing hangs but bodies that wait for each other in a circle, which only task objects taken in from outside can bring about;
`CoroutineExample` is one whole run.

**Streaming reads** (`StreamRead.dfy`). The multi-fire callback that assembles a read from chunks.

**Existence cache** (`Existence*.dfy`). A cache with single-flight probes, times to live, least-recently-used eviction and invalidation
by writes. `ExistenceCache` has the critical sections, as functions and as the methods that run them; `ExistenceProtocol` puts them into
a world of callers, writers and a changing store, where `stat` and the bridge write are steps of their own; `ExistenceSteps` and
`ExistenceLaws` prove what callers may rely on, and `ExistenceTiming` for how long an answer is kept and which one makes room. The store's whole history is kept, so that "fresh" means: true of the store after the write.

**Write sessions** (`WriteSession.dfy`, `WriteOverlay.dfy`, `WritableAsset.dfy`, `WriteHistory.dfy`, `WriteAdmission.dfy`). Seed, overlay at any offset, one conditional PUT of the
whole object. `WritableAsset` is the object with its fields, proved to do what a `Session` does as a value; `WriteHistory` runs any number of
sessions against one object, and `WriteAdmission` says when the PUT of one may be taken.

**Identifiers** (`Strings.dfy`, `Dot*.dfy`, `Identifier*.dfy`). Format arguments, packages, URLs and dot segments, from which the
cache keys and the write targets are made. `DotLaws` and `IdentifierText` say on the text alone what becomes of it. The set of remote schemes is a parameter. `WriteInvalidation.dfy` joins them to the cache:
which entry a write through an identifier invalidates.

**Credentials** (`Utf8.dfy`, `Auth*.dfy`). `AuthWire` specifies the wire format by an encoder and
proves the reader inverse to it; `AuthErrors` says byte by byte what a message looks like and what it is refused for; `AuthDecoder` is the decoder with its cursor, its record filled in place and its manual memory, on a heap
where freeing a block twice violates a precondition.

## What turned out false

- `normalizeIdentifier` is not idempotent on every identifier with format arguments. The normalized asset may end in all but the last
  character of `:SDF_FORMAT_ARGS:`, and the arguments then start 16 characters earlier when it is split again. `NormalizeTwiceFails` has an
  identifier, `NormalizeTwiceExactly` the exact condition.
- For the same reason a probe and a write through one identifier may use two cache keys (`KeyIsTargetFails`), and the write then leaves
  the probe's entry in place (`WriteLeavesEntry`). `KeyIsTargetExactly` and `WriteErasesExactly` have the exact condition; every write
  target as such is its own key (`WriteTargetIsFixed`).
- The comment at `ovstorage-usd-resolver/src/identifier.cpp:182-193` promises that the bytes of a bracketed IPv6 host and the case of
  userinfo are kept. The code folds all that follows the first '@'. A bracketed host is kept exactly when it holds no capital
  (`HostKeptExactly`, `HostNotKept`), userinfo exactly when no capital stands between its first and last '@' (`UserKeptExactly`,
  `UserNotKept`).
- After the invalidation section of a write a caller may still be told what was so before it, by joining a probe that was already
  running (`JoinMayBeStale`), exactly when that probe's `stat` had already returned from before the write (`JoinIsFreshExactly`). Hits are
  fresh (`HitIsFresh`).
- A session is not latched only by writes that answer fewer bytes than they were given: one of no bytes that fails answers 0, which is all it
  was given, and latches too (`EmptyWriteLatches`). `LatchedExactly` and `LatchedAtClose` have the exact condition.
- On a route that does not take If-Match an update may be lost (`UpdateMayBeLost`): what it puts is its writes laid over the version it
  replaces exactly when that version agrees, outside the ranges written, with the one it was opened on (`LaidOverExactly`).

## Model

| member | source | states |
|---|---|---|
| `CoroutineSafety.NoUseAfterDestroy` | ovstorage/ovstorage-c-source/include/ovstorage.hpp:2447-2485 | In every run, whatever step can come next is defined, touches living frames only and only contexts that their workers still have, meets the ownership assertions of `activate_resume` and `release_resume_before_suspend`, resumes the frame that waits for exactly this event, and takes only outcomes that were stored |
| `CoroutineSafety.DestroyedExactlyOnce` | ovstorage/ovstorage-c-source/include/ovstorage.hpp:2639-2651 | In every run a frame is destroyed at most once; a task frame has been destroyed if and only if its body has finished, its task object is gone and no worker has it in its chain or is about to destroy it |
| `CoroutineSafety.DestroyedForGood` | ovstorage/ovstorage-c-source/include/ovstorage.hpp:2414-2438 | No step of any run changes a destroyed frame |
| `CoroutineSafety.ResumedExactlyOnce` | ovstorage/ovstorage-c-source/include/ovstorage.hpp:2987-3003 | In every run a frame has been resumed as often as it was suspended, once less exactly while it is suspended: no double resume |
| `CoroutineAwait.WokenByItsTarget` | ovstorage/ovstorage-c-source/include/ovstorage.hpp:2447-2463 | In every run a suspended body stays suspended until the worker of the operation it waits for activates it, or the body of the task it waits for transfers to it, and then it goes on, on that worker's stack, to take what it waited for |
| `CoroutineAwait.SuspendsExactly` | ovstorage/ovstorage-c-source/include/ovstorage.hpp:2603-2629 | In every run publishing a suspension suspends the body if and only if the callback has still to deliver, or the awaited body has still to end; otherwise it goes on, on its stack, without having been suspended |
| `CoroutineAwait.ReadyExactly` | ovstorage/ovstorage-c-source/include/ovstorage.hpp:2597-2601 | In every run awaiting a task goes on at once if and only if the body of the task has ended |
| `CoroutineExample.SyncWaitEnds` | ovstorage/ovstorage-c-source/include/ovstorage.hpp:2830-2845 | A run in which `sync_wait` drives a task that awaits one operation: both bodies are woken on the callback's stack, and at the end both frames have been suspended, resumed and destroyed once |
| `CoroutineProgress.UnfinishedExactly` | ovstorage/ovstorage-c-source/include/ovstorage.hpp:2517-2535 | In every run, when the machine has no step left to take on its own, a body is unfinished if and only if it is in a knot, a set of bodies each of which waits for another of them: whichever of callback and suspension came first, no wakeup is lost |
| `CoroutineProgress.KnotIsForever` | ovstorage/ovstorage-c-source/include/ovstorage.hpp:2603-2629 | Bodies that wait for each other in a circle do so for the rest of the run |
| `CoroutineProgress.NoLostWakeup` | ovstorage/ovstorage-c-source/include/ovstorage.hpp:2517-2535 | In every run in which bodies take in tasks from outside in order of rank, if at all, the machine can take a step on its own while any frame is unfinished: no lost wakeup, no deadlock |
| `CoroutineProgress.InternalStepsRunOut` | ovstorage/ovstorage-c-source/include/ovstorage.hpp:3057-3065 | From any point of a run, the steps the machine takes on its own come to an end, after at most a number known at that point |
| `CoroutineProgress.QuietMeansClean` | ovstorage/ovstorage-c-source/include/ovstorage.hpp:2987-3003 | When no such step is left, in any run, the finished frames that have been destroyed are exactly those whose task objects are gone, each once, and no task object is left in a destroyed frame: abandoned tasks do not leak |
| `CoroutineProgress.QuietMeansFinished` | ovstorage/ovstorage-c-source/include/ovstorage.hpp:2987-3003 | In an ordered run every body has finished by then |
| `CoroutineSafety.RunKeepsInv` | ovstorage/ovstorage-c-source/include/ovstorage.hpp:2414-2651 | The ownership invariant holds after every step of every run, for any number of workers, chains of any length and frames that move from worker to worker |
| `CoroutineSafety.StepKeepsInv` | ovstorage/ovstorage-c-source/include/ovstorage.hpp:2414-2651 | Every single step, from any state that satisfies it, keeps the ownership invariant |
| `CoroutineSafety.StepKeepsRanks` | ovstorage/ovstorage-c-source/include/ovstorage.hpp:2597-2629 | Every step, adoptions of tasks from outside in order of rank included, keeps the order along which frames wait for each other |
| `CoroutineSafety.RunKeepsRanks` | ovstorage/ovstorage-c-source/include/ovstorage.hpp:2597-2629 | Ordered runs keep that order throughout |
| `CoroutineSafety.SpawnCanBeOrdered` | ovstorage/ovstorage-c-source/include/ovstorage.hpp:2569-2573 | A running body can always call another coroutine in order |
| `CoroutineSafety.SpawnOutsideCanBeOrdered` | ovstorage/ovstorage-c-source/include/ovstorage.hpp:2569-2573 | So can code outside all bodies, and `sync_wait` can always make its runner: only taking in tasks from outside may break the order |
| `CoroutineSafety.UntouchedIsUnchanged` | ovstorage/ovstorage-c-source/include/ovstorage.hpp:2414-2535 | A step changes the memory of the frames it touches and of no other |
| `CoroutineInvariant.KeepsAdopt` | ovstorage/ovstorage-c-source/include/ovstorage.hpp:2585-2593 | A running body may take in a task held outside, whatever its frame waits for |
| `CoroutineInvariant.KeepsDetach` | ovstorage/ovstorage-c-source/include/ovstorage.hpp:2469-2485 | Leaving the active context before suspending keeps the invariant: the frame's record is the head of its worker's chain |
| `CoroutineInvariant.KeepsReacquire` | ovstorage/ovstorage-c-source/include/ovstorage.hpp:2623-2627 | Taking the old context back after an await that completed inline keeps the invariant |
| `CoroutineInvariant.KeepsPublishTask` | ovstorage/ovstorage-c-source/include/ovstorage.hpp:2603-2629 | Publishing a suspension on a task keeps the invariant, whether the awaited body has completed or not, on any stack |
| `CoroutineInvariant.KeepsPublishLeafInline` | ovstorage/ovstorage-c-source/include/ovstorage.hpp:3057-3065 | Publishing a suspension after the callback has fired keeps the invariant: the body goes on without suspending |
| `CoroutineInvariant.KeepsPublishLeafOn` | ovstorage/ovstorage-c-source/include/ovstorage.hpp:3057-3065 | Publishing a suspension before the callback fires keeps the invariant on a worker's stack, which then starts to release its chain |
| `CoroutineInvariant.KeepsFinalExchange` | ovstorage/ovstorage-c-source/include/ovstorage.hpp:2517-2535 | The exchange in `route_final_suspend` keeps the invariant for each state it may find |
| `CoroutineInvariant.KeepsTransfer` | ovstorage/ovstorage-c-source/include/ovstorage.hpp:2523-2530 | Symmetric transfer to the continuation, with or without activating it in the worker's context, keeps the invariant |
| `CoroutineInvariant.KeepsPark` | ovstorage/ovstorage-c-source/include/ovstorage.hpp:2531-2534 | Parking an abandoned body and asking the worker to destroy it keeps the invariant |
| `CoroutineInvariant.KeepsDeliver` | ovstorage/ovstorage-c-source/include/ovstorage.hpp:2987-2990 | The exchange in `deliver` keeps the invariant, whether or not the body has suspended |
| `CoroutineInvariant.KeepsActivate` | ovstorage/ovstorage-c-source/include/ovstorage.hpp:2447-2463 | Publishing resume ownership and entering the body keeps the invariant |
| `CoroutineInvariant.KeepsReleaseNext` | ovstorage/ovstorage-c-source/include/ovstorage.hpp:2417-2437 | One turn of the release loop keeps the invariant: the record is unlinked and its owner exchanged |
| `CoroutineInvariant.KeepsReclaim` | ovstorage/ovstorage-c-source/include/ovstorage.hpp:2430-2435 | Destroying a frame on behalf of its task object keeps the invariant |
| `CoroutineInvariant.KeepsDropExchange` | ovstorage/ovstorage-c-source/include/ovstorage.hpp:2639-2643 | The exchange in a task object's destructor keeps the invariant at any moment of the body's and the worker's lives |
| `CoroutineInvariant.KeepsDropRequest` | ovstorage/ovstorage-c-source/include/ovstorage.hpp:2499-2508 | Requesting deferred destruction keeps the invariant, granted or refused |
| `CoroutineInvariant.KeepsDropDestroy` | ovstorage/ovstorage-c-source/include/ovstorage.hpp:2647-2649 | Destroying the frame from a task object's destructor keeps the invariant |
| `StreamRead.StreamOutcome` | ovstorage/ovstorage-c-source/include/ovstorage.hpp:3322-3371 | For every sequence of callbacks the contract allows: nothing is delivered before the last one, which reclaims the state and delivers once; the result is all the chunks in order exactly when the stream finished and every chunk was kept, the error's code exactly when it ended in an error whose message could be copied, and the failure it was seeded with otherwise; the buffers released are those of the chunks, each once |
| `StreamRead.StreamState.OnChunk` | ovstorage/ovstorage-c-source/include/ovstorage.hpp:3333-3370 | One firing of the callback, with the state borrowed only while it has not been reclaimed |
| `StreamRead.RunOfChunks` | ovstorage/ovstorage-c-source/include/ovstorage.hpp:3342-3363 | Chunks accumulate in order and fail the read at its end if one could not be kept |
| `Utf8.ValidUtf8` | ovstorage/ovstorage-c-source/include/ovstorage.hpp:274-316 | True exactly when the bytes are the encodings, one after the other, of some Unicode scalar values, as in section 3 of RFC 3629 |
| `Utf8.TableUtf8` | ovstorage/ovstorage-c-source/src/utf8.c:9-96 | The validator that goes by tables is true of the same byte strings |
| `Utf8.EncodingIsUnique` | ovstorage/ovstorage-c-source/include/ovstorage.hpp:274-316 | No two texts have the same encoding |
| `Utf8.EncodedReadsBack` | ovstorage/ovstorage-c-source/include/ovstorage.hpp:285-306 | The encoding of a scalar value is a well-formed character and reads back as that value |
| `Utf8.ReadIsEncoded` | ovstorage/ovstorage-c-source/include/ovstorage.hpp:300-312 | A well-formed character, neither overlong nor a surrogate nor too large, is the encoding of the value it reads as |
| `Utf8.TableIsRight` | ovstorage/ovstorage-c-source/src/utf8.c:27-93 | The tables accept exactly the well-formed characters, section 4 of RFC 3629 |
| `Utf8.TextStep` | ovstorage/ovstorage-c-source/include/ovstorage.hpp:278-313 | Bytes are text exactly when what the first byte announces is a character and the rest is text |
| `AuthWire.DecodesExactly` | ovstorage/ovstorage-c-source/src/auth_credential.c:307-407 | A message decodes to version v and credential c if and only if it is the encoding of (v, c) and (v, c) is proper: valid strings, no empty optional field, no headers in version 1 |
| `AuthWire.EncodedOnce` | ovstorage/ovstorage-remote/ovstorage-authz-context/src/lib.rs:199-238 | No two proper credentials have the same encoding, so decoding gives back the one that was encoded. A credential here has a list of headers: the encoder's absent and empty forwarded values, which have one encoding, are both the empty list |
| `AuthWire.DecodeMeans` | ovstorage/ovstorage-c-source/src/auth_credential.c:405-407 | Whatever is accepted is the encoding of what it is decoded to: no trailing data, no second meaning |
| `AuthWire.CountFits` | ovstorage/ovstorage-c-source/src/auth_credential.c:368-372 | The early check of the header count refuses no encodable list |
| `AuthErrors.VersionTwo` | ovstorage/ovstorage-c-source/src/auth_credential.c:312-403 | A message of 2, a proper bearer, transport and header list decodes to exactly these; `TransportTags`, `BlobLayout`, `OptionalLayout` and `ListLayout` write out the layout of each |
| `AuthErrors.VersionOne` | ovstorage/ovstorage-c-source/src/auth_credential.c:312-403 | A message of 1, a proper bearer and transport decodes to exactly these, and no headers |
| `AuthErrors.UdsMessage` | ovstorage/ovstorage-c-source/src/auth_credential.c:312-364 | The 22 bytes of a version 2 message with no bearer, a Unix domain socket and no headers decode, whatever its twelve bytes of numbers are, to the numbers these are in little-endian order, the process signed |
| `AuthErrors.WordLayout` | ovstorage/ovstorage-c-source/src/auth_credential.c:59-70 | A number is four bytes, the least significant first |
| `AuthErrors.UnsupportedExactly` | ovstorage/ovstorage-c-source/src/auth_credential.c:316-318 | A message is refused for its version if and only if it starts with neither 1 nor 2 |
| `AuthErrors.BadTagExactly` | ovstorage/ovstorage-c-source/src/auth_credential.c:331-364 | It is refused for its tag if and only if it starts with 1 or 2, a bearer follows, and then a byte above 2 |
| `AuthErrors.InvalidExactly` | ovstorage/ovstorage-c-source/src/auth_credential.c:119-139 | It is refused for a string if and only if, behind a known version and proper fields, an address, an identity or one of the announced headers' names and values is complete and is not UTF-8 |
| `AuthErrors.TrailingExactly` | ovstorage/ovstorage-c-source/src/auth_credential.c:405-407 | It is refused for what follows if and only if a proper message stands at its start and something behind it |
| `AuthErrors.TruncatedExactly` | ovstorage/ovstorage-c-source/src/auth_credential.c:36-50 | It is refused as cut short if and only if it is empty or of a known version, and neither a proper message nor refused for any of the other reasons |
| `AuthWire.ReadBlobExactly` | ovstorage/ovstorage-c-source/src/auth_credential.c:83-94 | A length-prefixed field is read exactly when its encoding stands there |
| `AuthWire.ReadTransportExactly` | ovstorage/ovstorage-c-source/src/auth_credential.c:331-364 | Each transport is read exactly when its encoding stands there, and its strings are valid |
| `AuthWire.ReadListExactly` | ovstorage/ovstorage-c-source/src/auth_credential.c:366-403 | A header list is read exactly when its encoding stands there, and its strings are valid |
| `AuthDecoder.DecodeCredential` | ovstorage/ovstorage-c-source/src/auth_credential.c:307-422 | Fails with the error of the first reader that fails, which the laws of `AuthErrors` tell from the bytes alone, and then leaves the heap as it was; otherwise the record shows the credential the message encodes, and the blocks it added to the heap are exactly those the record points to, each from one slot |
| `AuthDecoder.FreeCredential` | ovstorage/ovstorage-c-source/src/auth_credential.c:425-433 | Frees every block of a record once and nothing else, so that the heap is as it was before it, and overwrites the bearer first |
| `AuthDecoder.DecodeAndFree` | ovstorage/ovstorage-c-source/src/auth_credential.c:275-433 | Decoding any message and freeing the answer leaves the heap as it was; a message is accepted exactly when it is the encoding of a proper credential |
| `AuthDecoder.DecodeHeader` | ovstorage/ovstorage-c-source/src/auth_credential.c:395-401 | A header whose name was copied is owned by the record even if its value fails |
| `AuthDecoder.DecodeEach` | ovstorage/ovstorage-c-source/src/auth_credential.c:391-402 | The header loop reads what the header list says and owns every string it copied, wherever it stops |
| `AuthDecoder.CopyString` | ovstorage/ovstorage-c-source/src/auth_credential.c:119-139 | Copies a valid string into one new block; allocates nothing otherwise |
| `AuthDecoder.Cursor.Take` | ovstorage/ovstorage-c-source/src/auth_credential.c:36-50 | Advances by the count, or sets the sticky error |
| `AuthDecoder.Cursor.Word32` | ovstorage/ovstorage-c-source/src/auth_credential.c:59-70 | The four bytes read, the least significant first, and nothing once there is an error |
| `AuthDecoder.ClearBearer` | ovstorage/ovstorage-c-source/src/auth_credential.c:191-199 | The bearer's block is all zeros when it is freed |
| `AuthDecoder.ClearTransport` | ovstorage/ovstorage-c-source/src/auth_credential.c:161-182 | Frees what the transport's tag says it owns |
| `AuthDecoder.ClearHeaders` | ovstorage/ovstorage-c-source/src/auth_credential.c:201-209 | Frees the strings of the headers counted, and the array, placeholder or not |
| `AuthDecoder.AllocatePlaceholder` | ovstorage/ovstorage-c-source/src/auth_credential.c:414-419 | The placeholder array belongs to the record like any other |
| `AuthMemory.OwnsLess` | ovstorage/ovstorage-c-source/src/auth_credential.c:141-159 | Freeing what one slot points to and clearing that slot keeps every other block owned by exactly one slot |
| `AuthMemory.OwnsMore` | ovstorage/ovstorage-c-source/src/auth_credential.c:106-117 | A new block stored in an empty slot keeps every block owned by exactly one slot |
| `DotSegments.NormalizeDotSegments` | ovstorage-usd-resolver/src/identifier.cpp:126-180 | Computes the rendering of the component stack that the pieces of the path lead to, which the laws of `DotLaws` tell from the path alone |
| `DotLaws.NameGoesDown` | ovstorage-usd-resolver/src/identifier.cpp:152-152 | Behind a slash, a name leads one level down from where the path leads |
| `DotLaws.ParentUndoes` | ovstorage-usd-resolver/src/identifier.cpp:140-145 | A parent segment undoes the name before it and nothing else: the path has the normal form it has without the two |
| `DotLaws.DotStays` | ovstorage-usd-resolver/src/identifier.cpp:136-139 | Leaving out a dot segment does not change the normal form |
| `DotLaws.SecondSlash` | ovstorage-usd-resolver/src/identifier.cpp:136-139 | Nor does leaving out a second slash |
| `DotLaws.AboveTheRoot` | ovstorage-usd-resolver/src/identifier.cpp:146-150 | `/../` and what follows has the normal form of `/` and what follows |
| `DotLaws.ParentsStay` | ovstorage-usd-resolver/src/identifier.cpp:146-150 | A relative path keeps all the parent segments it starts with |
| `DotSegments.NormalizedIsCanonical` | ovstorage-usd-resolver/src/identifier.cpp:126-180 | Two paths have the same normal form if and only if both or neither are absolute, they lead to the same components, and they agree on the trailing slash or lead nowhere |
| `DotSegments.NormalizedKeepsMeaning` | ovstorage-usd-resolver/src/identifier.cpp:126-180 | The normal form leads where the path leads, and its components are in lowest terms |
| `DotSegments.NormalizedTwice` | ovstorage-usd-resolver/src/identifier.cpp:126-180 | Normalizing a path twice is normalizing it once |
| `DotSegments.NormalizedOccurs` | ovstorage-usd-resolver/src/identifier.cpp:134-168 | What occurs in a normal form and has no slash occurred in the path |
| `Identifier.ParsePackageIdentifier` | ovstorage-usd-resolver/src/identifier.cpp:392-475 | Computes the package parse: past a bracketed host, the first opening bracket and its match |
| `Identifier.MatchingClose` | ovstorage-usd-resolver/src/identifier.cpp:428-449 | Finds the matching bracket; the branch for a negative depth is never taken |
| `Identifier.NormalizeRemotePath` | ovstorage-usd-resolver/src/identifier.cpp:194-272 | Computes the composition of the normalized parts of the URL |
| `Identifier.UriSchemeOf` | ovstorage-usd-resolver/src/identifier.cpp:326-353 | True exactly of identifiers with a scheme of two characters or more |
| `IdentifierText.SchemeExactly` | ovstorage-usd-resolver/src/identifier.cpp:326-362 | The scheme is what stands before the first colon, in small letters, if that is two characters or more of letters, digits, '+', '-' and '.', the first a letter; otherwise there is none |
| `IdentifierText.RemoteExactly` | ovstorage-usd-resolver/src/identifier.cpp:364-375 | An identifier is remote if and only if it has a scheme that, in small letters, is advertised |
| `IdentifierText.PlainExactly` | ovstorage-usd-resolver/src/identifier.cpp:290-295 | An identifier that is no package is normalized if its scheme is advertised and left as it is if not |
| `IdentifierText.LeftAlone` | ovstorage-usd-resolver/src/identifier.cpp:277-295 | A malformed package, and an identifier without a colon, are left as they are |
| `IdentifierText.UrlExactly` | ovstorage-usd-resolver/src/identifier.cpp:194-272 | A URL normalizes to its scheme in small letters, its authority folded, its path normalized and its query and fragment as they are |
| `IdentifierText.SameUrlExactly` | ovstorage-usd-resolver/src/identifier.cpp:194-272 | Two URLs have the same normal form if and only if each of the four parts has |
| `IdentifierText.HostIsFolded` | ovstorage-usd-resolver/src/identifier.cpp:250-261 | An authority keeps what stands before its first '@' and has the rest in small letters |
| `IdentifierText.NotUrlUnchanged` | ovstorage-usd-resolver/src/identifier.cpp:196-200 | Text without `://` is not changed |
| `IdentifierText.StartBehindBracketed` | ovstorage-usd-resolver/src/identifier.cpp:397-420 | The brackets of a bracketed host, with or without userinfo before it, are no package's: the search starts behind them |
| `IdentifierText.StartBehindScheme` | ovstorage-usd-resolver/src/identifier.cpp:397-420 | In any other URL the search starts behind the scheme |
| `IdentifierText.StartOfText` | ovstorage-usd-resolver/src/identifier.cpp:397-398 | In text that is no URL it starts at the front |
| `IdentifierText.ParsedOpen` | ovstorage-usd-resolver/src/identifier.cpp:453-458 | Text whose first bracket, from where the search starts, is never closed is refused for that |
| `IdentifierText.ParsedTrailing` | ovstorage-usd-resolver/src/identifier.cpp:460-465 | Text behind the bracket that closes the first one is refused for that |
| `IdentifierText.ParsedEmpty` | ovstorage-usd-resolver/src/identifier.cpp:467-474 | A closed package with an empty part is refused for that, and still shows both parts |
| `IdentifierText.ParsedParts` | ovstorage-usd-resolver/src/identifier.cpp:467-474 | Any other closed package is valid, with the parts before and within the first bracket: with the three rows above, each case exactly |
| `IdentifierText.ArgsExactly` | ovstorage-usd-resolver/src/identifier.cpp:377-390 | Format arguments start at the first `:SDF_FORMAT_ARGS:` |
| `IdentifierText.ArgsAreKept` | ovstorage-usd-resolver/src/identifier.cpp:497-501 | Normalizing normalizes what precedes the format arguments and keeps these as they are |
| `IdentifierText.ProviderExactly` | ovstorage-usd-resolver/src/identifier.cpp:477-484 | With format arguments or without, the provider's identifier is the outer asset of a valid package, and otherwise the asset, a malformed package included |
| `IdentifierText.TargetExactly` | ovstorage-usd-resolver/src/identifier.cpp:486-495 | There is a write target exactly when the asset is no package, valid or not, and it is the asset's normal form |
| `IdentifierPackages.PackageExactly` | ovstorage-usd-resolver/src/identifier.cpp:422-474 | A valid parse into outer and inner is exactly the input put together as outer[inner], with both non-empty, the inner path bracket-balanced and no bracket opening in the outer asset after its host |
| `IdentifierPackages.OuterNeverPackage` | ovstorage-usd-resolver/src/identifier.cpp:394-426 | The outer asset of a package is not a package |
| `IdentifierPackages.ProviderIdentifierTwice` | ovstorage-usd-resolver/src/identifier.cpp:477-484 | `storageProviderIdentifier` is idempotent |
| `IdentifierPackages.SplitArgsFree` | ovstorage-usd-resolver/src/identifier.cpp:377-390 | The split loses nothing, leaves no marker before the arguments and finds arguments exactly when there is a marker |
| `IdentifierUrls.ComposeParts` | ovstorage-usd-resolver/src/identifier.cpp:196-244 | Putting four well-formed parts together and taking the URL apart gives the same parts |
| `IdentifierUrls.SplitParts` | ovstorage-usd-resolver/src/identifier.cpp:196-244 | Taking a URL apart loses nothing, and gives well-formed parts |
| `IdentifierUrls.NormalIsRemote` | ovstorage-usd-resolver/src/identifier.cpp:355-375 | A normalized URL is remote exactly when the URL was |
| `IdentifierLaws.NormalRemoteKeeps` | ovstorage-usd-resolver/src/identifier.cpp:246-271 | Normalizing a URL keeps userinfo up to the first '@', query and fragment byte for byte, scheme and authority but for case, and where the path leads |
| `IdentifierHosts.AuthorityKeptExactly` | ovstorage-usd-resolver/src/identifier.cpp:246-261 | An authority is kept byte for byte if and only if it holds no capital after its first '@', or none at all without one |
| `IdentifierHosts.HostKeptExactly` | ovstorage-usd-resolver/src/identifier.cpp:182-193 | Normalizing a URL keeps a bracketed host byte for byte if and only if it holds no capital |
| `IdentifierHosts.UserKeptExactly` | ovstorage-usd-resolver/src/identifier.cpp:182-193 | Normalizing a URL keeps its userinfo byte for byte, up to the last '@' where the package parser ends it, if and only if no capital stands between the first '@' and the last |
| `IdentifierHosts.HostNotKept` | ovstorage-usd-resolver/src/identifier.cpp:250-261 | With "s3" among the remote schemes, the host of `s3://[FE80::1]/x` is not kept |
| `IdentifierHosts.UserNotKept` | ovstorage-usd-resolver/src/identifier.cpp:250-261 | With "s3" among the remote schemes, the userinfo of `s3://a@B@h/x` is not kept |
| `IdentifierLaws.NormalRemoteTwice` | ovstorage-usd-resolver/src/identifier.cpp:194-272 | Normalizing any URL twice is normalizing it once |
| `IdentifierLaws.NormalPackage` | ovstorage-usd-resolver/src/identifier.cpp:274-288 | Normalizing a package normalizes its outer asset, and the result is a package with the same inner path |
| `IdentifierLaws.NormalAssetTwice` | ovstorage-usd-resolver/src/identifier.cpp:274-296 | Normalizing any asset twice is normalizing it once: packages, malformed packages, bracketed hosts and repeated '@' included |
| `IdentifierLaws.NormalAssetFree` | ovstorage-usd-resolver/src/identifier.cpp:274-296 | Normalizing makes no marker |
| `IdentifierLaws.NormalizeTwice` | ovstorage-usd-resolver/src/identifier.cpp:497-501 | `normalizeIdentifier` is idempotent on identifiers without the marker |
| `IdentifierLaws.WriteTargetIsFixed` | ovstorage-usd-resolver/src/identifier.cpp:486-501 | A write target is its own write target, its own normal form and its own existence-cache key |
| `IdentifierArgs.NormalizeTwiceExactly` | ovstorage-usd-resolver/src/identifier.cpp:497-501 | `normalizeIdentifier` is idempotent on an identifier if and only if it is not the case that it has arguments and its URL resolves, with no query, fragment or final slash, to a path ending in a dot segment followed by all but the last character of the marker |
| `IdentifierArgs.KeyIsTargetExactly` | ovstorage-usd-resolver/src/runtime.cpp:164-166 | The existence-cache key of an identifier is its write target if and only if it is not the case that it has arguments and its URL resolves to a path ending in all but the last character of the marker |
| `WriteInvalidation.KeyIsTargetFails` | ovstorage-usd-resolver/src/runtime.cpp:164-166 | With "s3" among the remote schemes, a probe of `s3://h/..:SDF_FORMAT_ARGS/.:SDF_FORMAT_ARGS:` and a write to it use two keys |
| `WriteInvalidation.WriteErasesExactly` | ovstorage-usd-resolver/src/runtime.cpp:338-350 | Whatever the cache holds, the section of a write to an identifier erases the entry that a probe of it uses if and only if the condition of `KeyIsTargetExactly` holds |
| `WriteInvalidation.WriteMarksExactly` | ovstorage-usd-resolver/src/runtime.cpp:345-349 | It marks the probe in flight for that identifier if and only if the same condition holds |
| `WriteInvalidation.WriteLeavesEntry` | ovstorage-usd-resolver/src/runtime.cpp:338-350 | A write to `s3://h/..:SDF_FORMAT_ARGS/.:SDF_FORMAT_ARGS:` leaves the entry that a probe of it uses in place |
| `WriteInvalidation.RunsAreKeyed` | ovstorage-usd-resolver/src/runtime.cpp:219-220 | In every run each probe in flight is registered under its own key, as the two laws above assume |
| `IdentifierArgs.NormalizeTwiceFails` | ovstorage-usd-resolver/src/identifier.cpp:497-501 | With "s3" among the remote schemes, `s3://h/..:SDF_FORMAT_ARGS/.:SDF_FORMAT_ARGS:` is not normalized after one pass |
| `ExistenceLaws.HitIsFresh` | ovstorage-usd-resolver/src/runtime.cpp:178-195 | A hit is what a `stat` of that key said less than its time to live ago, that the object is there or is not; it was true of a store no older than any write to the key whose invalidation section is over, and its probe was registered after that section |
| `ExistenceLaws.EntryIsLater` | ovstorage-usd-resolver/src/runtime.cpp:338-350 | After the section of a write, any cached entry for its key comes from a probe registered after that section, and a probe in flight that is older is marked |
| `ExistenceLaws.SingleFlight` | ovstorage-usd-resolver/src/runtime.cpp:174-221 | In every run: the cache is within its capacity, use stamps are distinct, no key is both cached and in flight, at most one probe runs for a key, and the identity test before removing the in-flight record succeeds |
| `ExistenceLaws.WaiterGetsAnswer` | ovstorage-usd-resolver/src/runtime.cpp:197-217 | A caller that waits for a probe waits for that probe, until it returns what that probe's `stat` said |
| `ExistenceLaws.WaiterIsServed` | ovstorage-usd-resolver/src/runtime.cpp:246-304 | While a caller waits, its probe is complete or the call that runs the probe can take its next step |
| `ExistenceLaws.InsertEvictsOne` | ovstorage-usd-resolver/src/runtime.cpp:270-294 | Keeping an answer evicts at most one live entry, the least recently used of all that live |
| `ExistenceTiming.HitExactly` | ovstorage-usd-resolver/src/runtime.cpp:178-195 | In every run a call is answered from the cache with an answer if and only if some earlier second section kept that answer for its key, less than the positive time to live ago for a positive answer and the negative one for a negative answer, and no write to the key and no eviction of it came in between |
| `ExistenceTiming.HitInTime` | ovstorage-usd-resolver/src/runtime.cpp:250-252 | A hit that is positive was kept less than the positive time to live ago, one that is negative less than the negative one |
| `ExistenceTiming.KeepsForItsTime` | ovstorage-usd-resolver/src/runtime.cpp:246-293 | The second section of an unmarked probe caches a positive answer for the positive time to live and a negative one for the negative, unless that is zero, as the latest used entry; any other changes nothing in the cache |
| `ExistenceTiming.StampsFollowUse` | ovstorage-usd-resolver/src/runtime.cpp:182-182 | In every run the use stamps of two entries are in the order of the last hit or insertion of each |
| `ExistenceTiming.HitIsLatest` | ovstorage-usd-resolver/src/runtime.cpp:180-193 | A hit makes its entry the latest used and changes nothing else |
| `ExistenceTiming.MakesRoomExactly` | ovstorage-usd-resolver/src/runtime.cpp:258-287 | In every run, when an answer is kept, another entry stays if and only if it has not expired and it is not the case that the cache is full of live entries all of which were used after it |
| `ExistenceTiming.AnswersAreStats` | ovstorage-usd-resolver/src/runtime.cpp:164-305 | In every run every answer, by hit, by waiting or by probing, is what a `stat` of the caller's key said |
| `ExistenceLaws.JoinIsFreshExactly` | ovstorage-usd-resolver/src/runtime.cpp:198-217 | What a waiter is told is no older than a write whose section is over when it waits if and only if the probe's `stat` had not already returned by then from before that write |
| `ExistenceLaws.JoinIsFresh` | ovstorage-usd-resolver/src/runtime.cpp:198-217 | In particular it is no older while no write has marked the probe |
| `ExistenceLaws.JoinMayBeStale` | ovstorage-usd-resolver/src/runtime.cpp:198-217 | A run in which a caller calls after the section of a write, joins a running probe and is told what was so before the write: freshness is for hits |
| `ExistenceSteps.StepKeepsInv` | ovstorage-usd-resolver/src/runtime.cpp:164-363 | Every critical section, `stat`, bridge write, change from outside and tick keeps the invariant of the cache |
| `ExistenceCache.ResolveExistenceState.Enter` | ovstorage-usd-resolver/src/runtime.cpp:174-221 | The first section: a live entry, a probe to wait for, or a new one |
| `ExistenceCache.ResolveExistenceState.Finish` | ovstorage-usd-resolver/src/runtime.cpp:246-303 | The second section, from any state: keep the answer if it may be kept, with room made for it, complete the probe, remove it from flight |
| `ExistenceCache.CompletesExactly` | ovstorage-usd-resolver/src/runtime.cpp:246-303 | With distinct stamps, which every run has, the second section has one outcome only, the one the protocol goes on with |
| `ExistenceCache.ResolveExistenceState.Sweep` | ovstorage-usd-resolver/src/runtime.cpp:258-268 | Leaves exactly the entries that have not expired |
| `ExistenceCache.ResolveExistenceState.FindLeastUsed` | ovstorage-usd-resolver/src/runtime.cpp:272-281 | Finds an entry with the smallest use stamp, if there is an entry |
| `ExistenceCache.ResolveExistenceState.Evict` | ovstorage-usd-resolver/src/runtime.cpp:270-287 | From any cache: evicts least recently used entries, no more than needed, until there is room for one more |
| `ExistenceCache.EvictedExactly` | ovstorage-usd-resolver/src/runtime.cpp:270-287 | With distinct stamps the loop leaves one cache only |
| `ExistenceCache.ResolveExistenceState.AfterWrite` | ovstorage-usd-resolver/src/runtime.cpp:342-350 | Erases the entry and marks the probe in flight |
| `ExistenceCache.EvictedIsLeastUsed` | ovstorage-usd-resolver/src/runtime.cpp:270-287 | Everything evicted was used no later than everything that stays |
| `WriteHistory.HistoryIsFold` | ovstorage-usd-resolver/src/openusd/writable_asset.cpp:231-316 | On a route that takes If-Match, every version of the object is the first one with the sessions' writes folded over it in the order of their PUTs: an update over exactly the version it replaces, or over nothing when there is no object; a replacement over nothing. No session puts twice |
| `WriteHistory.SeedIsCurrent` | ovstorage-usd-resolver/src/openusd/writable_asset.cpp:241-283 | Whenever the precondition chosen at open admits the PUT, the seed is what the current version gives |
| `WriteAdmission.AdmittedExactly` | ovstorage-usd-resolver/src/openusd/writable_asset.cpp:241-300 | In every run, on either kind of route, the precondition chosen at open admits the PUT if and only if the session replaces; or it updates what it found and, with If-Match, there has been no version since; or it updates what was missing and there is nothing now |
| `WriteHistory.StepKeepsInv` | ovstorage-usd-resolver/src/openusd/writable_asset.cpp:215-466 | Opening, writing, closing, destroying and changes from outside keep the invariant of the history |
| `WriteHistory.LaidOverExactly` | ovstorage-usd-resolver/src/openusd/writable_asset.cpp:410-431 | On any route, the version a session puts is its writes laid over the version it replaces if and only if the version it was opened on and the one it replaces agree outside the ranges it wrote |
| `WriteOverlay.SameOverlaidExactly` | ovstorage-usd-resolver/src/openusd/writable_asset.cpp:319-354 | The same writes over two files give the same result exactly when the files agree outside the ranges written |
| `WriteOverlay.OverlaidAt` | ovstorage-usd-resolver/src/openusd/writable_asset.cpp:319-354 | After any writes each byte is what was written there last, or what the seed had, or zero in a gap |
| `WriteHistory.UpdateMayBeLost` | ovstorage-usd-resolver/src/openusd/writable_asset.cpp:247-258 | A run on a route without If-Match in which the second of two updates undoes the first |
| `WriteSession.SessionLife` | ovstorage-usd-resolver/src/openusd/writable_asset.cpp:319-432 | Over any sequence of writes, closes and destruction a session makes one PUT at most: that of its first close, exactly when every write before it was complete and the local close and read-back succeeded, with the seed overlaid by those writes; once it is closed or destroyed its staging directory is gone |
| `WriteSession.RunOfWrites` | ovstorage-usd-resolver/src/openusd/writable_asset.cpp:319-354 | Complete writes are overlaid on the seed in order; an incomplete one is latched |
| `WriteSession.LatchedExactly` | ovstorage-usd-resolver/src/openusd/writable_asset.cpp:319-354 | Over any calls a session is latched as failed if and only if some write answered fewer bytes than it was given, or was given none and failed or came when the file was gone |
| `WriteSession.LatchedAtClose` | ovstorage-usd-resolver/src/openusd/writable_asset.cpp:319-354 | Up to the first close it is latched if and only if some write answered fewer bytes than it was given, or was given none and failed |
| `WriteSession.EmptyWriteLatches` | ovstorage-usd-resolver/src/openusd/writable_asset.cpp:335-343 | A write of nothing that fails answers 0, which is all it was given, and latches |
| `WritableAsset.Asset.Open` | ovstorage-usd-resolver/src/openusd/writable_asset.cpp:215-317 | Replace starts from nothing and overwrites; Update of an object starts from its bytes and requires their tag with If-Match, where it fails exactly without a tag, and overwrites without; Update of a missing object starts from nothing and fails if one is present; any other answer, and any local failure, opens nothing. Leaves no staging directory when it fails, and exactly one when it succeeds |
| `WritableAsset.Asset.Write` | ovstorage-usd-resolver/src/openusd/writable_asset.cpp:319-354 | Overlays what was written, answers how much that was, 0 when it failed or the file is gone, and latches exactly these and short writes |
| `WritableAsset.Asset.Close` | ovstorage-usd-resolver/src/openusd/writable_asset.cpp:356-432 | Makes the PUT that the session as a value makes, exactly when the session was open, nothing failed and the file could be closed and read back; answers true exactly when it was made and accepted, and removes the staging directory |
| `WritableAsset.Asset.Destroy` | ovstorage-usd-resolver/src/openusd/writable_asset.cpp:203-213 | Removes the staging directory of a session that was not closed, and makes no PUT |
| `WritableAsset.Asset.CleanupTemp` | ovstorage-usd-resolver/src/openusd/writable_asset.cpp:434-453 | Removes the staging directory the session owns, once |

## Left out

- Memory orders: every atomic operation is sequentially consistent.
- Exceptions in coroutine bodies, which terminate the program, and a callback that never fires: each submitted operation fires once.
- Task objects that are move-assigned over a live one or moved by a body into its own frame; an empty task object.
- `sync_wait`'s blocking of its own thread: its runner is modelled as an untracked frame.
- `LayerHandle`, `Stack`, `Registry` and the other wrappers around C calls: they only forward.
- Null arguments of the credential decoder and the error object it allocates for its caller.
- AuthDecoder.DecodeCredential: assumes a 64-bit `size_t` and an allocator that does not fail, since the program aborts when it does; the check that the header array's size does not overflow is then always passed.
- The `NULL` pointer that `ovc_utf8_is_valid` accepts with length 0: byte strings here have no address.
- ExistenceCache.ResolveExistenceState.FindLeastUsed: stamps are unbounded, so that the counter does not wrap and its largest value is not used as a bound.
- ExistenceLaws.SingleFlight: the capacity is at least 1, as the configuration is validated to have.
- Clocks: time is an integer that does not run backwards. Traces of cache events.
- A bridge write that fails: it may have changed the store or not, and is a change from outside.
- WriteHistory.HistoryIsFold: each version has an entity tag of its own, materializing answers the current version with its own tag, and the route's support of If-Match does not change.
- The file system behind the staging directory: removing it succeeds, and a staged file is the bytes that went through it. `TfSafeOutputFile` and `ArchPWrite` are a byte file that may fail at each call.
- Plugin loading, the resolver glue to OpenUSD, the command line and the Python package.
- Joining identifiers, file extensions and redaction for diagnostics: short functions that neither the cache keys nor the write targets depend on.
- Case folding and character classes are those of ASCII; strings are sequences of characters, not of encoded bytes.
