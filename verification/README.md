# A verified model of the application shell's core

This project models the parts of the shell that carry real state, recursion or concurrency, and proves what
they keep over every input, every heap, every interleaving or every run. `dafny verify dfyconfig.toml` checks
all of it.

## Components

**Values across the JavaScript boundary** (`BaseValues`, `V8Heap`, `V8FromValue`, `V8FromValueLemmas`,
`V8Reads`, `V8Repeats`, `V8ValueConverter`, `V8Represents`, `V8RoundTrip`, `V8Limits`, `V8Engine`). A JavaScript
heap is a map from object ids to arrays (with holes) and objects (with ordinary and callback properties); it may
be cyclic and shared. The converter from JavaScript is a pair of classes in the source's own steps, with the
depth counter and the hash-bucketed index as mutable state, proved against a function on the heap. About that
function: the index test is set membership whatever the hash collisions, each object is expanded at most once
and reads as null when met again, the result has as many lists and dictionaries as objects were entered in the
index, and its depth is bounded. The converter to JavaScript allocates in a mutable heap; its result is an
unshared copy built only of new objects. From the two follows the round trip: a tree comes back truncated at
level 20, and unchanged exactly when it fits.

**Main loop and embed thread** (`NodeBindings`). Both threads as one step relation with program counters, a
semaphore, the closed flag, the posted tasks (including nested UvRunOnce calls) and the level-triggered async
wakeup. Proved by an inductive invariant and a shutdown measure.

**Custom protocols** (`ProtocolSpec`, `ProtocolProofs`, `Protocol`). The registry on the UI thread, the job
factory on the IO thread, the task queue between them, and handler objects that own one another. Proved for
every interleaving of calls and tasks: draining the queue leaves what the UI map predicts.

**asar archives** (`AsarLookup`, `AsarArchive`, `AsarStream`, `AsarPath`). Lookup through linked directories,
file information, listing, the split of a path at an archive, and the streaming reader against the
whole-slice reader. Recursion through links is bounded by a fuel in the functions; `NodeAt` takes any fuel that
suffices and more fuel never changes an answer, so the laws mention none. The methods carry it as a ghost argument.

**Quit and window lifecycle** (`Lifecycle`, `LifecycleClosing`). A step relation with an explicit stack of the calls in progress,
so that event handlers may veto, request closes, close windows or quit again at any depth. What quits and
emptyings need and lead to, whom a quit asks to close, and when it reaches its end.

**Guest web views** (`GuestTables`, `GuestRuns`). The three tables of the manager, adds, removes, and navigations
as the separate steps they are: the old process is remembered, a new renderer is launched, and later committed or
abandoned. Proved for every interleaving.

**Loops and routing** (`DependencyClosure`, `TtsDispatch`, `SpellCheck`, `MenuAccelerators`).

## Where the code and its promises part

- A list on the last level keeps its length and holds nulls, so a result may reach one level of nulls below the
  limit of 20 (v8_value_converter.cc:297-303): `V8Limits.NullBelowTheLimit`.
  `V8Limits.TruncatedStrictlyFits` says which trees come back within the limit, `V8Limits.FromValueStrictlyFits`
  when a heap does, and `FitsLevels` bounds the result on every heap.
- The comment at node_bindings.cc:249-253 wants PollEvents called only while the object is alive. The code can
  enter it after the destructor has begun, even after the closed flag is set:
  `NodeBindings.PollsAfterClosed`. `NodeBindings.PollsDuringDestructor` says exactly when. It is never entered
  after the join.
- Four kinds of calls are accepted that make the UI map and the factory disagree: intercepting a scheme whose
  unregistration is still queued (`ProtocolProofs.InterceptAfterUnregister`), unregistering an interception
  (`UnregisterInterception`), unintercepting a registration (`UninterceptRegistration`), and looking up an unknown
  scheme (`LookUpUnknown`). Excluding these is necessary and sufficient: `ProtocolProofs.CallKeepsPrediction`.
- A directory link that names another link is not followed further, although a file link is:
  `AsarLookup.SecondLinkLosesFile`. `AsarLookup.LinkIsTransparent` says exactly when a link stands for what it
  names.
- On an archive cut short, the streaming job ends well with the bytes there are, while reading the file at once
  fails: `AsarStream.Drain`.
- A veto of a before-quit raised from within will-quit does not stop the quit under way:
  `Lifecycle.NestedVetoStillQuits`. `Lifecycle.VetoStopsQuit` says exactly when a veto does. (Raised within the quit
  event itself it comes after the fact; the code may then even emit a second quit event.)
- Navigations of two guests that overlap overwrite the one process remembered as dying, and a guest's row goes
  to the wrong renderer: `GuestTables.OverlapLosesRow`. A guest removed between launch and commit leaves a row
  behind: `GuestRuns.RemovalInFlightLeavesRow`. `GuestRuns.StepKeepsAgreementExactly` says exactly which steps
  the tables survive.

## Model

| member | source | states |
|---|---|---|
| `V8ValueConverter.FromV8ValueState.UpdateAndCheckUniqueness` | atom/common/native_mate_converters/v8_value_converter.cc:49-63 | for any hash function, with any collisions, the bucket scan answers set membership and files the object |
| `V8ValueConverter.Converter.FromV8Value` | atom/common/native_mate_converters/v8_value_converter.cc:105-112 | on every heap, cyclic or shared, and for every hash: terminates, result within the level limit, with at most as many lists and dictionaries as the heap has objects |
| `V8ValueConverter.Converter.FromV8ValueImpl` | atom/common/native_mate_converters/v8_value_converter.cc:203-267 | the stateful conversion refines the heap function in result and index, and gives the depth counter back as it was |
| `V8ValueConverter.Converter.FromV8Array` | atom/common/native_mate_converters/v8_value_converter.cc:269-306 | holes skipped, unconvertible elements null, repeated arrays null: as the heap function says |
| `V8ValueConverter.Converter.FromV8Object` | atom/common/native_mate_converters/v8_value_converter.cc:308-385 | callback, unconvertible and (if asked) null properties dropped, repeated objects null: as the heap function says |
| `V8Reads.ArrayReads` | atom/common/native_mate_converters/v8_value_converter.cc:269-306 | an array not met before: exactly one place, in order, for every slot that is no hole, holding what its value reads as when all before it has been read, or null |
| `V8Reads.ObjectReads` | atom/common/native_mate_converters/v8_value_converter.cc:308-385 | any other object not met before: for every property that is no callback the entry its value calls for when all before it has been read, and no other entry |
| `V8Reads.ObjectsByKind` | atom/common/native_mate_converters/v8_value_converter.cc:234-263 | which objects are expanded, one level further in, and how allowed dates (in seconds), patterns and refused functions read |
| `V8Reads.PrimitivesRead` | atom/common/native_mate_converters/v8_value_converter.cc:213-232 | primitives read as themselves, numbers as integers exactly when they hold a 32-bit integer |
| `V8FromValueLemmas.FromValueExpandsOnce` | atom/common/native_mate_converters/v8_value_converter.cc:203-267 | a conversion yields exactly one list or dictionary per object it adds to the index, within its budget of levels, for any index it starts from |
| `V8FromValueLemmas.FromObjectExpandsOnce` | atom/common/native_mate_converters/v8_value_converter.cc:269-276 | the same for one array or object, met before or not |
| `V8FromValueLemmas.FromElementsExpandsOnce` | atom/common/native_mate_converters/v8_value_converter.cc:283-305 | the same over the elements of an array, the index threaded from one to the next |
| `V8FromValueLemmas.FromPropertiesExpandsOnce` | atom/common/native_mate_converters/v8_value_converter.cc:322-384 | the same over the properties of an object |
| `V8FromValueLemmas.BoundedByHeap` | atom/common/native_mate_converters/v8_value_converter.cc:24-74 | from an empty index: as many containers as objects met, and no more than the heap has |
| `V8Repeats.MetBeforeIsNull` | atom/common/native_mate_converters/v8_value_converter.cc:49-63 | within the depth limit any array, plain object, disallowed date or regular expression, or allowed function reads as null if and only if it was met before, and has been met afterwards |
| `V8Repeats.MetElementIsNull` | atom/common/native_mate_converters/v8_value_converter.cc:283-305 | an element of an array reads as null if and only if its object was met by then, be it earlier in the array or anywhere below |
| `V8Repeats.RepeatedElementIsNull` | atom/common/native_mate_converters/v8_value_converter.cc:269-305 | an object at two places of an array: the later place in the list is null |
| `V8Repeats.MetPropertyIsNull` | atom/common/native_mate_converters/v8_value_converter.cc:322-384 | a property is null, or left out when nulls are stripped, if and only if its object was met by then |
| `V8Repeats.RepeatedPropertyIsNull` | atom/common/native_mate_converters/v8_value_converter.cc:308-384 | an object at two properties: the later one is null, or left out when nulls are stripped |
| `V8FromValueLemmas.ElementsKeepTheirPlaces` | atom/common/native_mate_converters/v8_value_converter.cc:285-305 | a list has one place, in order, for every element that is no hole; undefined, disallowed functions and too deep values are null there, primitives themselves |
| `V8FromValueLemmas.PropertiesKept` | atom/common/native_mate_converters/v8_value_converter.cc:325-382 | no entry for callbacks, undefined, disallowed functions, too deep values, or stripped nulls; an entry for every other primitive |
| `V8Engine.Engine.ToV8Value` | atom/common/native_mate_converters/v8_value_converter.cc:114-157 | the result is a copy of the tree that shares no object, made only of objects allocated by this call; every older object is untouched |
| `V8Engine.Engine.ToV8Array` | atom/common/native_mate_converters/v8_value_converter.cc:159-177 | the same for a list |
| `V8Engine.Engine.ToV8Object` | atom/common/native_mate_converters/v8_value_converter.cc:179-201 | the same for a dictionary, wherever the engine lists the new names |
| `V8Represents.RepresentsFrame` | atom/common/native_mate_converters/v8_value_converter.cc:114-201 | a copy depends on nothing outside its footprint, so later allocations keep it |
| `V8RoundTrip.FromCopy` | atom/common/native_mate_converters/v8_value_converter.cc:203-267 | reading any unshared copy yields the truncated tree, for any budget and any index disjoint from it, and marks only the copy's objects |
| `V8RoundTrip.TruncateIsIdentity` | atom/common/native_mate_converters/v8_value_converter.cc:24-47 | a tree survives truncation unchanged if and only if it fits the levels and holds no binary value and no integral double |
| `V8Limits.TruncatedStrictlyFits` | atom/common/native_mate_converters/v8_value_converter.cc:297-303 | a tree comes back with no more than the allowed levels if and only if its lists on the last level are empty |
| `V8Limits.NullBelowTheLimit` | atom/common/native_mate_converters/v8_value_converter.cc:297-303 | lists nested to the limit of 20 around an integer come back with a null below it |
| `V8Limits.FromValueStrictlyFits` | atom/common/native_mate_converters/v8_value_converter.cc:203-267 | on any heap the result has no more than the allowed levels when no chain of that many objects ends in an array with an element |
| `V8Engine.RoundTrip` | atom/common/native_mate_converters/v8_value_converter.cc:98-112 | any tree sent to JavaScript and read back is that tree truncated at level 20, and is unchanged exactly when it fits |
| `NodeBindings.InvStep` | atom/common/node_bindings.cc:183-261 | every step of either thread keeps the token count, the flags and the wakeup obligations |
| `NodeBindings.TokensAreConserved` | atom/common/node_bindings.cc:195-261 | until the destructor posts: semaphore count, the thread between wait and wakeup, queued and active UvRunOnce add up to the RunMessageLoop calls |
| `NodeBindings.PollAndRunExclude` | atom/common/node_bindings.cc:205-261 | with one RunMessageLoop call, polling and uv_run never overlap and at most one UvRunOnce is queued |
| `NodeBindings.MessageLoopIsSet` | atom/common/node_bindings.cc:229-233 | the message loop is set whenever the embed thread posts to it; libuv has armed the wakeup before any poll |
| `NodeBindings.WatcherBreaksPoll` | atom/common/node_bindings_linux.cc:33-39 | in every reachable state a new watcher lets a polling embed thread leave the poll without an event from outside |
| `NodeBindings.WakeupStays` | atom/common/node_bindings_linux.cc:41-50 | it stays so through any interleaving until the poll is left or uv_run drains the wakeup |
| `NodeBindings.WokenOnlyBySent` | atom/common/node_bindings.cc:235-237 | in every run, such a wakeup has been sent by a watcher or the destructor, and not drained since |
| `NodeBindings.PollLeadsToTask` | atom/common/node_bindings.cc:254-259 | while the bindings stay open, in any interleaving the third step of the embed thread from the poll on posts UvRunOnce |
| `NodeBindings.PollPostsTask` | atom/common/node_bindings.cc:254-259 | leaving the poll queues one task more and leaves the thread waiting |
| `NodeBindings.TaskRunsUv` | atom/common/node_bindings.cc:205-227 | the queued task runs uv_run once and gives one semaphore count back |
| `NodeBindings.CountLeadsToPoll` | atom/common/node_bindings.cc:243-254 | a semaphore count lets the waiting thread poll again |
| `NodeBindings.WorkDecreases` | atom/common/node_bindings.cc:113-124 | once the destructor has begun, every step of either thread uses up work |
| `NodeBindings.ShutdownIsBounded` | atom/common/node_bindings.cc:113-124 | the steps taken plus the work left never exceed the work at the start |
| `NodeBindings.ShutdownCompletes` | atom/common/node_bindings.cc:113-124 | from any interleaving at which the destructor starts, runs are bounded and never stuck before the join: it completes without outside events |
| `NodeBindings.NothingAfterJoin` | atom/common/node_bindings.cc:119-123 | after the join neither thread can step, so PollEvents is not entered |
| `NodeBindings.PollsDuringDestructor` | atom/common/node_bindings.cc:245-256 | after the destructor has begun, PollEvents can still be entered if and only if the thread is past its check or a count lets it pass before the flag is set |
| `NodeBindings.PollsAfterClosed` | atom/common/node_bindings.cc:249-254 | a reachable state in which the flag is set and PollEvents is about to be called |
| `Protocol.AtomURLRequestJobFactory.SetProtocolHandler` | atom/browser/net/atom_url_request_job_factory.cc:22-43 | refines the table step: set refuses a present scheme, reset deletes the handler with what it owns |
| `Protocol.AtomURLRequestJobFactory.ReplaceProtocol` | atom/browser/net/atom_url_request_job_factory.cc:45-57 | refines the table step: hands back the handler replaced, or nothing and no change |
| `Protocol.Registry.RegisterProtocol` | atom/browser/api/atom_api_protocol.cc:212-223 | throws exactly when the scheme is taken in either map or built in; otherwise records and posts |
| `Protocol.Registry.UnregisterProtocol` | atom/browser/api/atom_api_protocol.cc:225-235 | throws exactly when the scheme is not recorded; otherwise forgets and posts |
| `Protocol.Registry.InterceptProtocol` | atom/browser/api/atom_api_protocol.cc:241-254 | throws exactly when the factory lacks the scheme now or it is recorded; otherwise records and posts |
| `Protocol.Registry.UninterceptProtocol` | atom/browser/api/atom_api_protocol.cc:256-266 | throws exactly when the scheme is not recorded; otherwise forgets and posts |
| `Protocol.Registry.GetProtocolHandler` | atom/browser/api/atom_api_protocol.cc:187-190 | an absent scheme leaves an empty callback in the map |
| `Protocol.Registry.RunIoTask` | atom/browser/api/atom_api_protocol.cc:268-288 | refines the task function on the factory and reports its outcome |
| `Protocol.Registry.InterceptProtocolInIO` | atom/browser/api/atom_api_protocol.cc:290-309 | wraps the present handler, or reports that there is none |
| `Protocol.Registry.UninterceptProtocolInIO` | atom/browser/api/atom_api_protocol.cc:311-333 | puts the wrapped handler back and deletes only the wrapper, or reports that nothing is wrapped |
| `ProtocolProofs.CallKeepsPrediction` | atom/browser/api/atom_api_protocol.cc:187-266 | a call keeps "the UI map predicts the drained factory" if and only if it is disciplined, a condition on the present state |
| `ProtocolProofs.IoKeepsPrediction` | atom/browser/api/atom_api_protocol.cc:268-333 | the oldest task always succeeds: no error event, no null handler, a registration never refused; the prediction and single ownership stay |
| `ProtocolProofs.TaskAsPlanned` | atom/browser/api/atom_api_protocol.cc:268-333 | a task changes its own scheme as planned, no other scheme, and keeps single ownership |
| `ProtocolProofs.ExactlyOneOwner` | atom/browser/net/atom_url_request_job_factory.cc:22-57 | every live handler has exactly one owner, the table or one wrapper, and no owner holds a dead handler |
| `ProtocolProofs.ShapeFrame` | atom/browser/net/atom_url_request_job_factory.cc:45-57 | changes confined to one scheme's handlers leave every other scheme as it was |
| `ProtocolProofs.InitialInv` | atom/browser/net/atom_url_request_job_factory.cc:16-16 | a factory with native handlers only, and empty UI map and queue, satisfies everything |
| `ProtocolProofs.BuiltinIsRefused` | atom/browser/api/atom_api_protocol.cc:214-216 | in any state, registering a scheme that the net stack handles itself is refused and changes nothing |
| `ProtocolProofs.BuiltinNeverRegistered` | atom/browser/api/atom_api_protocol.cc:212-223 | in every run such a scheme is never registered, and the factory has a handler for it only if a native one was there |
| `ProtocolProofs.CallbackIsLatest` | atom/browser/api/atom_api_protocol.cc:187-266 | a scheme's callback is that of the call accepted last for it; calls leave all other schemes alone |
| `ProtocolProofs.DrainedFactoryIsPredicted` | atom/browser/api/atom_api_protocol.cc:212-333 | after any disciplined interleaving, draining leaves custom, wrapped-native, the identical native handler or nothing, as the UI map says |
| `ProtocolProofs.DrainFollowsPlan` | atom/browser/api/atom_api_protocol.cc:268-333 | where no queued task fails, draining does to every scheme what is planned, disciplined or not |
| `ProtocolProofs.InterceptAfterUnregister` | atom/browser/api/atom_api_protocol.cc:241-254 | from every start-up state and for every free scheme: an intercept behind a queued unregister is accepted, breaks the prediction and finds no handler |
| `ProtocolProofs.UnregisterInterception` | atom/browser/api/atom_api_protocol.cc:225-235 | from every start-up state and for every native scheme: unregistering an interception is accepted and leaves no handler at all |
| `ProtocolProofs.UninterceptRegistration` | atom/browser/api/atom_api_protocol.cc:256-266 | unintercepting a registration is accepted, reports an error and leaves the scheme handled |
| `ProtocolProofs.LookUpUnknown` | atom/browser/api/atom_api_protocol.cc:187-190 | looking up an unknown scheme makes it impossible to register |
| `AsarArchive.GetFilesNode` | atom/common/asar/archive.cc:37-50 | one link followed, its target's files taken directly |
| `AsarArchive.GetChildNode` | atom/common/asar/archive.cc:53-60 | the named dictionary among the files |
| `AsarArchive.GetNodeFromPath` | atom/common/asar/archive.cc:63-84 | the find-and-erase loop computes the fold over the split components, whenever following links ends |
| `AsarLookup.SplitJoin` | atom/common/asar/archive.cc:72-81 | the components of `p/q` are those of `p` followed by those of `q` |
| `AsarLookup.MoreFuel` | atom/common/asar/archive.cc:37-84 | an answer reached within some nesting of links is the answer for every larger one |
| `AsarLookup.LookupComposes` | atom/common/asar/archive.cc:63-84 | looking up `p/q` is descending through `q` from the node of `p`; one diverges exactly when the other does |
| `AsarLookup.LinkedDirectory` | atom/common/asar/archive.cc:40-47 | below a link to a real directory, lookup is lookup below that directory |
| `AsarLookup.LinkIsTransparent` | atom/common/asar/archive.cc:40-49 | for a link to a node that exists, lookup below the link and below what it names agree on every path if and only if that node is no link, or leads to no other children than its own files entry offers |
| `AsarLookup.LinkToLink` | atom/common/asar/archive.cc:40-49 | below a link whose target has no files of its own, such as another link, nothing is found |
| `AsarLookup.SecondLinkLosesFile` | atom/common/asar/archive.cc:40-49 | an archive in which a file is found through a link and not through a link to that link |
| `AsarLookup.RankTerminates` | atom/common/asar/archive.cc:37-84 | if the links entered from some paths lead to others of them of smaller rank, lookup of each terminates, nested at most rank deep |
| `AsarLookup.FollowedNeedsLess` | atom/common/asar/archive.cc:37-84 | if a path can be resolved, so can each link entered on the way, with strictly less nesting |
| `AsarLookup.TerminatesExactly` | atom/common/asar/archive.cc:37-84 | lookup of a path terminates if and only if the links that can be followed from it admit a decreasing rank |
| `AsarLookup.ListingIsLookup` | atom/common/asar/archive.cc:203-222 | in any directory and in the root, a separator-free name can be looked up exactly when it is listed as a dictionary, and then leads to that one |
| `AsarLookup.FoundInHeader` | atom/common/asar/archive.cc:53-84 | a path is found exactly when the files of its directory hold a dictionary of that name |
| `AsarLookup.FilesInHeader` | atom/common/asar/archive.cc:37-50 | those files are the "files" of the node, or of the node that its "link" names from the root |
| `AsarArchive.PackedFileInfo` | atom/common/asar/archive.cc:86-106 | a packed file recorded with a decimal offset is found at header size plus that offset, absent overflow |
| `AsarArchive.DecimalRoundTrip` | atom/common/asar/archive.cc:98-102 | the decimal digits of a number parse back to it |
| `AsarArchive.ParsesExactly` | atom/common/asar/archive.cc:98-102 | an offset is accepted exactly when it is a decimal form, leading zeros included, of a number that fits 64 bits, and means that number |
| `AsarArchive.FileInfoExactly` | atom/common/asar/archive.cc:86-106 | for every node: when there is information at all, its size modulo 32 bits, unpacked exactly when so marked, and a packed file's offset modulo 64 bits |
| `AsarArchive.Archive.GetFileInfo` | atom/common/asar/archive.cc:165-178 | along any finite chain of links, the information of the first node that is no link |
| `AsarArchive.Archive.Readdir` | atom/common/asar/archive.cc:203-222 | every key once and no other; in any directory and in the root, a separator-free name can be looked up exactly when listed as a node |
| `AsarStream.URLRequestAsarJob.Start` | atom/browser/net/asar/url_request_asar_job.cc:35-46 | all bytes remain; opening, or decided by the immediate answer |
| `AsarStream.URLRequestAsarJob.DidOpen` | atom/browser/net/asar/url_request_asar_job.cc:92-107 | goes on only when the seek answers later |
| `AsarStream.URLRequestAsarJob.DidSeek` | atom/browser/net/asar/url_request_asar_job.cc:109-118 | ready exactly when the stream stands at the file's offset |
| `AsarStream.URLRequestAsarJob.ReadRawData` | atom/browser/net/asar/url_request_asar_job.cc:53-86 | delivered plus remaining is the size, delivered is a prefix of the slice; nothing read into a non-empty buffer means the slice is complete |
| `AsarStream.URLRequestAsarJob.DidRead` | atom/browser/net/asar/url_request_asar_job.cc:120-136 | the same for an answer that comes later; the job succeeds only with the whole slice that exists |
| `AsarStream.Drain` | atom/common/asar/asar_util.cc:81-87 | any mix of immediate and later reads with any buffers: unless a read fails, the bytes are those of the whole-slice reader, exactly when the archive is not cut short |
| `AsarStream.SliceIs` | atom/browser/net/asar/url_request_asar_job.cc:35-118 | the bytes to deliver are, one by one, those of the archive from the offset on, as far as it reaches |
| `AsarStream.ReadsAllOrNothing` | atom/common/asar/asar_util.cc:81-87 | reading at once succeeds exactly when all bytes are there, and gives them |
| `AsarPath.GetAsarArchivePath` | atom/common/asar/asar_util.cc:39-59 | succeeds if and only if the path is no archive and a proper ancestor is; then the longest such ancestor, the two parts joining to the input |
| `AsarPath.ArchiveNames` | atom/common/asar/asar_util.cc:24-24 | an archive's name is anything followed by `.asar` in upper or lower case |
| `Lifecycle.InvStep` | atom/browser/browser.cc:30-47 | every step, at any depth of handlers, keeps the history and the per-window counts |
| `Lifecycle.StateIsHistory` | atom/browser/browser.cc:30-47 | in every run the quit flag and the window list are what the events so far say |
| `Lifecycle.QuitFlagMeans` | atom/browser/browser.cc:107-133 | the flag as told by the events: a quit was let through or delivered, and since then no before-quit or will-quit vetoed and no close cancelled |
| `Lifecycle.QuitOnlyWhenClean` | atom/browser/browser.cc:107-126 | in every run a quit event has no window open, an unvetoed will-quit just before, and an unvetoed before-quit with no close cancelled since |
| `Lifecycle.EmptyingAnsweredOnce` | atom/browser/browser.cc:135-140 | the list empties exactly when the last window is removed; the answer is the automatic will-quit if and only if a quit is going on by the events so far, the all-closed event otherwise, once and for nothing else |
| `Lifecycle.ClosedExactlyOnce` | atom/browser/native_window.cc:500-512 | each window is reported closed once and removed once; outside handlers none is in between |
| `Lifecycle.CountWithout` | atom/browser/window_list.cc:41-47 | removing a window takes every occurrence of it off the list and nothing else |
| `Lifecycle.ArmedMeans` | atom/browser/browser.cc:128-133 | the quit flag's history: a before-quit was let through and no close cancelled since |
| `Lifecycle.QuitsUnaskedExactly` | atom/browser/browser.cc:30-47 | while the quit flag is down, some continuation quits without another before-quit let through if and only if a will-quit or quit event is being delivered |
| `Lifecycle.VetoStopsQuit` | atom/browser/browser.cc:30-40 | a vetoed before-quit stops the quit if and only if it was not raised while a will-quit or quit event is being delivered |
| `Lifecycle.NestedVetoStillQuits` | atom/browser/browser.cc:30-40 | whenever no window is open, a before-quit can be raised and vetoed within a will-quit, and the quit still go through |
| `LifecycleClosing.QuitAsksEachOnce` | atom/browser/window_list.cc:71-75 | a quit let through while windows are open gives each of them one turn, in order, and asks exactly those still listed at their turn, whatever handlers do in between |
| `LifecycleClosing.QuitNobodyObjectsTo` | atom/browser/browser.cc:30-47 | from every reachable before-quit: let through, with no veto and every window going when asked, a quit event follows without another call to quit |
| `LifecycleClosing.VetoedQuitAsksNobody` | atom/browser/browser.cc:30-33 | while every before-quit is vetoed, no window is asked to close but by a request for it |
| `LifecycleClosing.FlagFollowsAnswers` | atom/browser/browser.cc:107-126 | a veto of before-quit, will-quit or a close lowers the quit flag; only before-quit and the end of Shutdown raise it |
| `LifecycleClosing.UnloadCancelsQuit` | atom/browser/native_window.cc:636-647 | a page that keeps its window cancels the quit |
| `LifecycleClosing.WindowOpensAndGoes` | atom/browser/native_window.cc:500-512 | a window that goes is reported first and off the list after its handlers |
| `GuestTables.WebViewManager.AddGuest` | atom/browser/web_view_manager.cc:57-72 | one row in each table |
| `GuestTables.WebViewManager.RemoveGuest` | atom/browser/web_view_manager.cc:74-91 | the rows of the guest, its current process and one of its elements, and no other |
| `GuestTables.WebViewManager.UpdateGuestProcessID` | atom/browser/web_view_manager.cc:36-49 | the row moves to the new process, if there is one |
| `GuestTables.WebViewManager.GetInfo` | atom/browser/web_view_manager.cc:93-101 | while the tables agree, a live guest's record is found under its current process |
| `GuestTables.WebViewManager.GetGuestByInstanceID` | atom/browser/web_view_manager.cc:103-115 | while the tables agree, an element leads to its guest, and only elements of live guests lead anywhere |
| `GuestTables.AtomBrowserClient.OverrideSiteInstanceForNavigation` | atom/browser/atom_browser_client.cc:137-152 | the dying process is remembered unless one restart was suppressed |
| `GuestTables.AtomBrowserClient.AppendExtraCommandLineSwitches` | atom/browser/atom_browser_client.cc:154-214 | a renderer's switches come from its window, the dying process's window or the moved guest; the dying process is then forgotten |
| `GuestTables.AtomBrowserClient.Navigate` | atom/browser/atom_browser_client.cc:137-214 | the two callbacks in a row launch the renderer that replaces the one current now, also after a navigation that was left half done; a suppressed restart changes nothing |
| `GuestTables.TablesAreDetermined` | atom/browser/web_view_manager.cc:57-72 | live guests and their processes leave no choice in any of the three tables |
| `GuestTables.AddAgrees` | atom/browser/web_view_manager.cc:57-72 | adding a fresh guest keeps the tables in bijection |
| `GuestTables.RemoveAgrees` | atom/browser/web_view_manager.cc:74-91 | removing a guest keeps the tables in bijection |
| `GuestTables.RekeyAgrees` | atom/browser/web_view_manager.cc:36-49 | moving a guest to a fresh process keeps the tables in bijection |
| `GuestRuns.SwapGoesThrough` | atom/browser/atom_browser_client.cc:137-214 | a swap that nothing interrupts keeps the bijection, ends with the new process current, and starts a guest's renderer with the record the guest was added with |
| `GuestTables.LaunchAgrees` | atom/browser/atom_browser_client.cc:154-214 | whatever navigations began before, launching a renderer keeps the bijection if and only if the process remembered as dying is the one replaced, or no guest is concerned; a guest then gets its own switches |
| `GuestTables.SwitchesOfWindow` | atom/browser/atom_browser_client.cc:161-192 | a renderer of a window, or one that replaces a window's dying one, gets that window's switches and moves no row; none are given only when neither a window nor the table knows the process |
| `GuestRuns.WindowKeepsSwitches` | atom/browser/atom_browser_client.cc:170-192 | a navigated window's new renderer gets the window's own switches, and no table changes |
| `GuestTables.OverlapLosesRow` | atom/browser/atom_browser_client.cc:147-148 | when a second guest's navigation begins between the halves of a first one's, the first new renderer starts with the second guest's switches and the bijection is lost |
| `GuestRuns.StepKeepsAgreementExactly` | atom/browser/web_view_manager.cc:36-91 | in any interleaving of adds, removes, and beginning, launching, committed or abandoned navigations, a step keeps the bijection if and only if it fits, a condition on the state before it |
| `GuestRuns.RemovalInFlightLeavesRow` | atom/browser/web_view_manager.cc:82-83 | a guest removed between launch and commit leaves the row of its new renderer behind |
| `GuestRuns.RemoveUndoesAdd` | atom/browser/web_view_manager.cc:57-91 | after add, any operations on other guests and any navigations, and remove, the world is the one those operations alone lead to |
| `GuestRuns.RunIsDetermined` | atom/browser/web_view_manager.cc:36-91 | a sequence of operations leads to one world only, whichever element the removal finds first |
| `GuestRuns.EmptyIsGood` | atom/browser/web_view_manager.cc:51-52 | the manager starts in agreement |
| `GuestRuns.RunsAgree` | atom/browser/web_view_manager.cc:36-91 | any sequence of fitting operations from a state in agreement ends in agreement, and under the current processes once no navigation is in flight |
| `DependencyClosure.Closure` | tools/posix/generate_breakpad_symbols.py:266-274 | terminates on finite graphs; the result is the set reachable from the start, each binary expanded exactly once |
| `TtsDispatch.TtsDispatcher.Speak` | chromium_src/chrome/renderer/tts_dispatcher.cc:60-74 | takes the next shared id and files the utterance under it |
| `TtsDispatch.TtsDispatcher.OnControlMessageReceived` | chromium_src/chrome/renderer/tts_dispatcher.cc:109-200 | refines the handling function: a callback only for a known utterance, erased after a terminal one |
| `TtsDispatch.CallbacksAreRouted` | chromium_src/chrome/renderer/tts_dispatcher.cc:60-200 | for any dispatchers and messages: callbacks reach only the dispatcher that spoke, at most one is terminal, and none follows it |
| `TtsDispatch.DeliveredToSpeaker` | chromium_src/chrome/renderer/tts_dispatcher.cc:36-54 | offered to every dispatcher, a message makes exactly one callback, at the one concerned |
| `TtsDispatch.DeliveredToNobody` | chromium_src/chrome/renderer/tts_dispatcher.cc:88-94 | a message that concerns no dispatcher makes none |
| `TtsDispatch.SpokenIsHeard` | chromium_src/chrome/renderer/tts_dispatcher.cc:60-74 | the next message about an utterance just spoken makes one callback, at its speaker |
| `TtsDispatch.DeliveryKeeps` | chromium_src/chrome/renderer/tts_dispatcher.cc:109-200 | only a message that ends an utterance makes it unknown, and no message changes anything else that is known |
| `SpellCheck.SpellCheckText` | atom/renderer/api/atom_api_spell_check_client.cc:118-156 | all misspellings in order, or the first of them |
| `SpellCheck.IsValidContraction` | atom/renderer/api/atom_api_spell_check_client.cc:224-243 | every part is accepted, and conversely |
| `SpellCheck.MisspellingsGrow` | atom/renderer/api/atom_api_spell_check_client.cc:137-155 | the results for the first words are a prefix of the results for all |
| `SpellCheck.AllMisspelledReported` | atom/renderer/api/atom_api_spell_check_client.cc:137-155 | reported are, in order and with their place and length, exactly the words refused that have a refused part |
| `SpellCheck.SwapIs` | atom/renderer/api/atom_api_spell_check_client.cc:193-194 | a swap exchanges two neighbours and nothing else |
| `SpellCheck.GetAutoCorrectionWord` | atom/renderer/api/atom_api_spell_check_client.cc:173-218 | a correction exactly when one adjacent swap alone is accepted, and then that swap; none for words too short or too long |
| `MenuAccelerators.AcceleratorTable.Generate` | atom/browser/ui/accelerator_util.cc:200-216 | the walk enters the tree's commands in preorder, later ones over earlier ones |
| `MenuAccelerators.LastWins` | atom/browser/ui/accelerator_util.cc:200-216 | the table holds exactly the accelerators of commands, each with the last command that carries it |
| `MenuAccelerators.LastOnMenus` | atom/browser/ui/accelerator_util.cc:200-216 | the last command entered for an accelerator is the item that carries it last when the menus are read from top to bottom, submenus in place |
| `MenuAccelerators.Activate` | atom/browser/ui/accelerator_util.cc:200-226 | triggering on a fresh table activates the item that carries the accelerator last on the menus, submenus in place, or nothing if none does |

## Left out

- NodeBindings and Lifecycle are step relations on values: two threads and re-entrant handlers are what matters
  there. Update in place is not captured.
- Quitting the message loop from libuv (node_bindings.cc:222-223), the checks on the current thread, and the
  Windows and Mac variants of PollEvents. Destroying the bindings before PrepareMessageLoop, when the semaphore
  and the thread do not exist yet.
- Getters that throw or change the heap, V8 contexts and scopes, `__proto__`, text encodings, and the order in
  which a dictionary's keys are listed; property reads are pure and strings opaque.
- Doubles are reals with the special values kept apart; dividing a date by 1000 is exact.
- Setters on the prototype chain that would intercept a property being set; dictionary keys are plain names.
- The results of custom request jobs, request dispatch by scheme, and the lock of the job factory; the schemes
  the net stack handles itself are a fixed set.
- Dereferencing a null handler, or a native one as if it were custom, is an outcome of its own that changes
  nothing; `ProtocolProofs.IoKeepsPrediction` proves that disciplined runs never come to it.
- Reading, unpickling and parsing the header of an archive; Stat, Realpath, CopyFileOut and its cache of
  extracted files, and the global map of archives: they add only easy members.
- Decimal parsing of offsets takes plain digits, as the library's contract says; sizes that a cast to a 32-bit
  signed integer would change are not treated in ReadFileToString.
- Paths to archives are sequences of components, already normalised; on Windows both separators count.
- Response headers, killing a job and MIME types of the streaming job.
- The timer that reports a window as unresponsive, and web contents of a window that are already gone.
- Shutting down directly through the auto updater, and handlers that open windows while a quit is being
  delivered: the code does not guard against these, and runs exclude them.
- Closing a window of the snapshot that is already off the list is a step without effect; in the code it is a
  call on an object that may have been deleted (window_list.cc:72-74).
- Guests: an embedder that changes its process after a guest was added, and web contents that are destroyed
  while a guest of theirs is still in the tables.
- The recursive search for a library in a bundle, and everything else in the script but the worklist.
- Wrap-around of the utterance counter, the voice list, and the process-ending check of negative character
  positions.
- GetAutoCorrectionWord: for words containing a NUL only the limits on the length are stated, because the
  result is cut at the NUL.
- The word iterators' own rules and their failure to initialise; what they yield is a parameter.
- Parsing of accelerators from text.
