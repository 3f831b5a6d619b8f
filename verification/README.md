# Verified models of the vendored reload machinery

This project models, in Dafny 4.11, the third-party code that the reloader carries with it: the
watcher (`watchdog`), the glob compiler (`globmatch`), dependency resolution and markers
(`pkg_resources`, `packaging`), semantic versions and the WebSocket server. The tables and loops at
the centre of each have a counterpart ("Left out" names those that do not), and the theorems are
about all inputs, all runs or all interleavings. `dafny verify dfyconfig.toml` checks everything.

## What is modelled

**Pairing of renames** (`DelayedQueue`, `InotifyBuffer`, `PairingMachine`, `PairingTheorems`,
`PairingConsumer`). A
producer reads raw events, groups them and puts them into a delayed queue, and may take a waiting
IN_MOVED_FROM back out; a consumer looks at the head, sleeps without the lock and then takes the
head only if it is still there. The classes are proved against functions on their contents. The
machine interleaves the atomic steps of both (tick, read, group one event, put one element, close,
peek, recheck) in any order, a step that is not possible leaving the state alone. Kernel events
carry their position in the whole history, so identity of queue elements is equality. Producer and
consumer of the machine are the methods of the classes, step by step, and from every open state the
consumer can deliver all that waits. Timing
theorems assume a clock that does not go back and rename cookies used for one rename only.

**Watch tables** (`InotifyWatches`, `InotifyReader`, `InotifyMoves`, `InotifyRecords`). The two dictionaries
between paths and descriptors, through adding, removing, renames of whole subtrees, IN_IGNORED and
simulated events for new directories; and the parser of the kernel's byte buffer. The kernel's
answers and the traversal order of a copied dictionary are arbitrary inputs. The code does not
always do what its bookkeeping suggests, and the model says exactly when: a refused permission
leaves descriptor -1 recorded, so two such paths share it; an IN_IGNORED for a path that is no
longer recorded, as after `remove_watch` or after the re-added path was renamed, ends in a failed
lookup; and a name that ends in a NUL byte does not survive the record format.

**Glob compiler** (`GlobTranslation`, `GlobMatching`, `GlobTheorems`, `GlobSubentries`). The translator builds the
regular expression as text, as the source does; a syntax tree with that very text carries the
meaning, including lookbehind over absolute positions. What the characters of a part mean is stated
by a matcher over them, without the tree. For every pattern and every text, the text
is accepted exactly when its segments can be handed out to the parts in order, `**` taking any
number and every other part one or more. A part takes more than one only where a bracket expression
accepts the separator; without such an expression this is the matcher that goes segment by segment,
and with one, acceptance without a match of that kind has its exact condition and an example.

**Dependency resolution** (`Packages`, `ResolverLog`, `ResolverSearch`, `Resolver`, `Environments`,
`ZipIndex`). The breadth-first resolver over any finite universe of requirements, cyclic or not, with
the exact order in which it goes through them; the newest-first environment; the
zip directory index that walks each path from its end and stops at the first directory known. Its
root has the same text as the directory of a name that starts with a separator: the two share a list,
so `/x` lists `x` in the root, and the model says exactly when that is right.
Extras registered for a requirement are those of the requirement that asked for it last.

**Markers** (`Markers`, `MarkerShapes`, `MarkerMeanings`). Grammar, printer and evaluator of PEP 508
markers over tokens. The printer
drops the parentheses of a list that wraps a single item at every depth, not only on the outside as
its comment has it: `((a or b)) and c` prints as `a or b and c`. The shapes of markers that keep
their meaning are given exactly.

**Snapshots and polling** (`Snapshots`, `SnapshotWalk`, `SnapshotCoverage`, `SnapshotTheorems`,
`Polling`). The walk of a directory tree, the two dictionaries filled from it, the set-changing difference of two
snapshots, and the emitter that reports it each round. Sets are traversed in any order.

**Event queue and observer** (`SkipRepeats`, `Observer`, `ObserverHandlers`). The queue that drops an item equal to the
last one put, with equality by value on one side and by identity on the other; the registry of
watches, handlers and emitters, where a failing start leaves things half done; and the dispatch of
an event to handlers that may use the registry while they are called.

**Semantic versions** (`Decimals`, `Texts`, `Versions`, `VersionOrder`, `VersionText`,
`VersionRoundTrips`, `VersionCoercion`, `CoercedParts`). Comparison operator by operator, including the operators
derived by `total_ordering` and the reflected ones of the maximum identifier; the next versions;
the two patterns as deterministic matchers proved to find the only match there is; printing,
parsing and coercion. Text is ASCII without a trailing newline.

**WebSocket frames** (`WebSocketFrames`). Reading masked frames in any length form and writing
headers in the shortest. The reader takes fewer bytes at the end of the stream for what they are,
so a payload cut short is handed over as if complete; `CutFrame` says exactly what happens.

`Common` holds what several modules use.

## Model

| member | source | states |
|---|---|---|
| `DelayedQueues.DelayedQueue.Put` | src/watchdog/utils/delayed_queue.py:30-35 | the element goes to the end with its time and delay flag |
| `DelayedQueues.DelayedQueue.Close` | src/watchdog/utils/delayed_queue.py:37-43 | the queue is closed and its contents stay |
| `DelayedQueues.DelayedQueue.Peek` | src/watchdog/utils/delayed_queue.py:51-59 | first critical section of `get`: closed wins over waiting, else the head is remembered and left in place |
| `DelayedQueues.DelayedQueue.DelayPassed` | src/watchdog/utils/delayed_queue.py:62-66 | the sleep is over exactly when the element has no delay or its delay has passed |
| `DelayedQueues.DelayedQueue.TryPop` | src/watchdog/utils/delayed_queue.py:69-72 | second critical section of `get`: the head goes exactly if it is still the remembered element |
| `DelayedQueues.DelayedQueue.Remove` | src/watchdog/utils/delayed_queue.py:74-82 | the first element satisfying the predicate is taken out and all others stay in order, or nothing changes |
| `InotifyBuffers.InotifyBuffer.GroupEvents` | src/watchdog/observers/inotify_buffer.py:53-78 | grouping a batch on the shared queue is the fold of grouping one event: joined in the batch first, then from the queue, else alone |
| `InotifyBuffers.BatchIsSearchedFirst` | src/watchdog/observers/inotify_buffer.py:62-67 | an IN_MOVED_TO joins the first IN_MOVED_FROM of its batch with its cookie, in the place of that one, and the queue stays as it is |
| `InotifyBuffers.QueueIsSearchedNext` | src/watchdog/observers/inotify_buffer.py:69-75 | else it takes the first such element out of the queue, and the pair goes to the end of the batch |
| `InotifyBuffers.InotifyBuffer.RunRound` | src/watchdog/observers/inotify_buffer.py:87-100 | one round groups all events and then puts the groups in order, each with its own clock reading; it tells if the root was deleted |
| `PairingMachine.RunKeeps` | src/watchdog/observers/inotify_buffer.py:53-100 | every interleaving keeps the invariant of conservation, order and timing, of which the theorems below are consequences |
| `PairingTheorems.EachEventInOnePlace` | src/watchdog/observers/inotify_buffer.py:53-92 | in every interleaving each grouped event occurs exactly once among delivered, waiting and grouped elements, alone or in one pair; nothing else occurs, and no pair holds one event twice |
| `PairingTheorems.NothingIsLost` | src/watchdog/utils/delayed_queue.py:45-82 | once nothing waits and all is grouped, every event read has been delivered exactly once; `PairingConsumer.EverythingCanBeDelivered` reaches such a state from every open one |
| `PairingTheorems.DeliveriesFollowPutOrder` | src/watchdog/utils/delayed_queue.py:30-82 | deliveries followed by the queue are the puts in order, without the elements taken back, each of which is in a pair; no element is put twice |
| `PairingTheorems.PairsAreRenames` | src/watchdog/observers/inotify_buffer.py:59-72 | whatever the cookies, a pair is an IN_MOVED_FROM and a later IN_MOVED_TO with equal cookies |
| `PairingTheorems.GroupSettles` | src/watchdog/observers/inotify_buffer.py:62-75 | grouping an IN_MOVED_TO forms its pair unless the other half was delivered alone before |
| `PairingTheorems.LoneMovedFromWaited` | src/watchdog/utils/delayed_queue.py:58-72 | an IN_MOVED_FROM delivered alone waited the full delay, and its IN_MOVED_TO was not grouped by then |
| `PairingTheorems.PairedUnlessDeliveredAlone` | src/watchdog/observers/inotify_buffer.py:53-92 | once both halves are grouped, exactly one of two holds: the pair exists, or the first half was delivered alone |
| `PairingTheorems.GroupedWhileWaitingIsPaired` | src/watchdog/observers/inotify_buffer.py:62-72 | an IN_MOVED_TO grouped while its IN_MOVED_FROM waits puts both into one pair for the rest of every run |
| `PairingTheorems.UninterruptedRound` | src/watchdog/observers/inotify_buffer.py:80-92 | a round of the method is the run of the machine in which only time passes in between: same queue, put log and end mark |
| `PairingConsumer.LookAtHead` | src/watchdog/utils/delayed_queue.py:51-59 | the first critical section of `get` on the object is the machine's step of looking: same queue, and the same entry is remembered, if any |
| `PairingConsumer.WakeUp` | src/watchdog/utils/delayed_queue.py:61-72 | waking up on the object is the machine's recheck: it goes on exactly if the delay has passed, leaves the same queue and hands over the element that the machine delivers |
| `PairingConsumer.GetOnce` | src/watchdog/utils/delayed_queue.py:45-72 | a turn of `get` with a sleep hands over the head exactly if the queue is open and not empty and the head is ready by then, and that is the machine's run of looking, time passing and recheck |
| `PairingConsumer.WaitingCanBeDelivered` | src/watchdog/utils/delayed_queue.py:45-72 | from every open state of every run steps of the consumer alone empty the queue and deliver exactly its entries in order; then the deliveries are all that was put and not taken back |
| `PairingConsumer.EverythingCanBeDelivered` | src/watchdog/utils/delayed_queue.py:45-82 | from every open state a run goes on in which every event read so far is delivered, each exactly once |
| `PairingConsumer.BatchCanBeDelivered` | src/watchdog/observers/inotify_buffer.py:80-92 | unless the root was deleted, any further batch can be read and delivered, each of its events exactly once |
| `PairingConsumer.OthersGoAtOnce` | src/watchdog/observers/inotify_buffer.py:90-92 | a head that is no lone IN_MOVED_FROM is delivered without any time passing |
| `PairingConsumer.DeletedRootEndsReading` | src/watchdog/observers/inotify_buffer.py:85-100 | once the deletion of the root was put, nothing is read in any continuation |
| `InotifyWatches.ReplaceRebases` | src/watchdog/observers/inotify_c.py:315 | textual replacement rebases a path exactly when the old prefix does not occur again in it |
| `InotifyWatches.NoSharedDescriptor` | src/watchdog/observers/inotify_c.py:386-387 | consistent tables give no two paths one descriptor |
| `InotifyWatches.AddKeepsIff` | src/watchdog/observers/inotify_c.py:383-388 | adding keeps the tables consistent exactly when the descriptor is not recorded for another path |
| `InotifyWatches.RemoveKeeps` | src/watchdog/observers/inotify_c.py:232-234 | removing keeps the tables consistent |
| `InotifyWatches.MoveKeeps` | src/watchdog/observers/inotify_c.py:307-310 | moving one entry keeps them consistent whatever stood at the new path |
| `InotifyWatches.RenameKeeps` | src/watchdog/observers/inotify_c.py:306-317 | a rename keeps them consistent for every traversal order, even one that is not exact |
| `InotifyWatches.IgnoreKeeps` | src/watchdog/observers/inotify_c.py:323-325 | IN_IGNORED keeps them consistent, also for an old descriptor of a path that was added again |
| `InotifyWatches.RenameIsExact` | src/watchdog/observers/inotify_c.py:302-317 | after a recursive rename src and src/rest are recorded at dst and dst/rest with their descriptors, every other entry is unchanged and there is no other, exactly if no watch inside src has its text again in the rest and no two of these places coincide |
| `InotifyReader.Inotify.AddWatch` | src/watchdog/observers/inotify_c.py:373-405 | the tables get the kernel's descriptor, -1 where permission is denied, and stay unchanged where an error is raised |
| `InotifyReader.Inotify.RemoveWatch` | src/watchdog/observers/inotify_c.py:225-236 | both entries go; it fails exactly if one is missing or the kernel refuses, with the tables as the steps before left them |
| `InotifyReader.Inotify.MoveWatches` | src/watchdog/observers/inotify_c.py:306-317 | the loop over the copied table is the rename in some traversal order of all its entries |
| `InotifyReader.Inotify.RecursiveSimulate` | src/watchdog/observers/inotify_c.py:262-280 | watches and events for the contents of a new directory, entry by entry, up to a failed lookup |
| `InotifyReader.Inotify.TrackMove` | src/watchdog/observers/inotify_c.py:298-319 | remembers the source of a rename, or moves its watches along some traversal of the whole copied table; the event carries the path reported; `InotifyMoves.RenameInTwoEvents` says what the two halves do together |
| `InotifyReader.Inotify.ForgetIgnored` | src/watchdog/observers/inotify_c.py:321-326 | drops the descriptor, and its path only if that still has this descriptor; fails if the path is not recorded |
| `InotifyReader.Inotify.ProcessEvent` | src/watchdog/observers/inotify_c.py:295-345 | one raw event changes the tables and emits events as its steps in sequence do, a rename going through the whole copied table |
| `InotifyReader.CompletedRenameIsExact` | src/watchdog/observers/inotify_c.py:295-328 | processing one IN_MOVED_TO that completes a rename does so too, under exactly that condition, and emits its event |
| `InotifyReader.IgnoredFailsIff` | src/watchdog/observers/inotify_c.py:321-324 | an IN_IGNORED fails exactly if its descriptor is unknown or has a path that is not recorded |
| `InotifyReader.SimulateFailsIff` | src/watchdog/observers/inotify_c.py:274-276 | simulation fails exactly on a file whose directory has no watch at that moment |
| `InotifyReader.ProcessFailsIff` | src/watchdog/observers/inotify_c.py:295-345 | the exact conditions under which processing an event ends in a failed lookup |
| `InotifyReader.IgnoredAfterRemoveFails` | src/watchdog/observers/inotify_c.py:233-234 | the IN_IGNORED that follows a removed watch fails |
| `InotifyReader.StaleDescriptorFails` | src/watchdog/observers/inotify_c.py:323-324 | so does that of an old descriptor once the re-added path was renamed, with consistent tables throughout |
| `InotifyReader.TablesStayConsistent` | src/watchdog/observers/inotify_c.py:225-388 | in every state reached by adds, removals and events with fresh descriptors, each recorded path is the one recorded for its descriptor |
| `InotifyReader.DeniedTwiceShares` | src/watchdog/observers/inotify_c.py:400-403 | two refused permissions leave two paths with one descriptor |
| `InotifyMoves.RenameInTwoEvents` | src/watchdog/observers/inotify_c.py:298-319 | an IN_MOVED_FROM, any inputs that are no other one with its cookie, and the IN_MOVED_TO: the watch of the file named by the first is recorded at the file named by the last, and with subdirectories everything under it too and nothing else changes, exactly under the condition of `InotifyWatches.RenameIsExact` |
| `InotifyMoves.UnknownSourceMovesNothing` | src/watchdog/observers/inotify_c.py:301-306 | without an IN_MOVED_FROM with its cookie before it an IN_MOVED_TO moves no watch |
| `InotifyMoves.EventIsReported` | src/watchdog/observers/inotify_c.py:295-328 | the event comes first, as it was read, with the path of its directory, a separator and its name |
| `InotifyMoves.IgnoredIsForgotten` | src/watchdog/observers/inotify_c.py:321-326 | after IN_IGNORED the descriptor is gone, its path too if that had this descriptor, and nothing else |
| `InotifyMoves.RemovedIsForgotten` | src/watchdog/observers/inotify_c.py:225-236 | after a removal the path and its descriptor are gone, and nothing else |
| `InotifyMoves.NewDirectoryIsWatched` | src/watchdog/observers/inotify_c.py:330-345 | a directory created in a recursive watch is recorded under the kernel's descriptor before its contents are looked at |
| `InotifyMoves.ContentsAreReported` | src/watchdog/observers/inotify_c.py:262-280 | each entry in a new directory that can be watched has its event, in the order of the walk, a file under the descriptor of its directory; every path ends up with the last descriptor given to it |
| `InotifyRecords.ParseEventBuffer` | src/watchdog/observers/inotify_c.py:425-430 | the loop ends on every buffer and yields its records |
| `InotifyRecords.ParseCut` | src/watchdog/observers/inotify_c.py:425-430 | a buffer cut inside a record yields the complete ones and, if the last header is complete, one more with the part of its name that came |
| `InotifyRecords.RoundTripIff` | src/watchdog/observers/inotify_c.py:407-430 | encoding any list of records and parsing gives it back exactly when no name ends in a NUL byte |
| `InotifyRecords.RecordLayout` | src/watchdog/observers/inotify_c.py:410-428 | the four words of a record are at bytes 0, 4, 8 and 12, least byte first, the name is at 16, and NUL bytes follow |
| `GlobTranslation.ScanClass` | src/globmatch/translation.py:94-100 | finds where a bracket expression closes, a leading `!` and `]` not counting |
| `GlobTranslation.EscapeHides` | src/globmatch/translation.py:111-112 | a literal character that means something in an expression is written with a backslash, a letter, a digit or an underscore without |
| `GlobTranslation.TranslateToken` | src/globmatch/translation.py:86-112 | one turn of the loop appends the text of the token read there and goes on after it; `GlobMatching.TokensMean` says what that token stands for |
| `GlobTranslation.TranslateGlobPart` | src/globmatch/translation.py:78-113 | the text built for a part is that of its syntax tree; `GlobMatching.PartTranslated` says what it matches |
| `GlobTranslation.DoubleStarText` | src/globmatch/translation.py:51-58 | only the part `**` translates to the text the joiner compares with |
| `GlobTranslation.JoinTranslated` | src/globmatch/translation.py:44-75 | the joined text is that of the tree for the parts, both for inner and for final `**` |
| `GlobTranslation.TranslateGlob` | src/globmatch/translation.py:34-41 | the text for a pattern is that of the tree for its exploded parts, anchored at the end; `GlobTheorems.AcceptsText` says what it accepts |
| `GlobMatching.DoubleStarMatches` | src/globmatch/translation.py:13-14 | the expression for an inner `**` spans exactly to positions at the start or after a separator |
| `GlobMatching.FinalDoubleStar` | src/globmatch/translation.py:58-63 | a final `**` matches exactly what is not empty |
| `GlobMatching.TokensMatch` | src/globmatch/translation.py:83-113 | the expression for a part matches exactly the texts its tokens match piece by piece |
| `GlobMatching.TokensMean` | src/globmatch/translation.py:86-112 | the tokens of a part match a text exactly as its characters say: `*` is any run without a separator, `?` none or one such character, a closed bracket one character of its class, with `!` one outside it, and any other character itself |
| `GlobMatching.PartTranslated` | src/globmatch/translation.py:78-113 | so the expression for a part matches exactly what its characters mean |
| `GlobTheorems.AcceptsIffSpans` | src/globmatch/translation.py:34-113 | for all parts and all segments the pattern accepts the joined path exactly when the segments can be handed out to the parts, each part matching character by character |
| `GlobTheorems.AcceptsText` | src/globmatch/translation.py:34-113 | the same for any text, cut at its separators |
| `GlobTheorems.AcceptedBeyondSegmentsIff` | src/globmatch/translation.py:34-113 | a path is accepted without a match segment by segment exactly when every way to hand out its segments gives some part other than `**` two or more |
| `GlobTheorems.AcceptsIffMatches` | src/globmatch/translation.py:34-113 | the translated pattern accepts a joined path of non-empty segments exactly when they match its parts one by one, character by character, if no bracket expression accepts a separator |
| `GlobTheorems.ClassCrossesSegments` | src/globmatch/translation.py:103-110 | `a[!b]c` accepts `a/c`, which no segment matcher does |
| `GlobTheorems.ExplodeJoined` | src/globmatch/pathutils.py:8-21 | exploding a joined path gives its segments back |
| `GlobTheorems.ExplodeIsPieces` | src/globmatch/pathutils.py:8-21 | the parts of any text are its pieces between separators, after a root that may be kept; empty pieces are left out |
| `GlobSubentries.AcceptsBeginnings` | src/globmatch/translation.py:64-67 | with entries below matched too, a text is accepted exactly when it begins with text whose pieces can be handed out to the parts, even in the middle of a name |
| `GlobSubentries.DoubleStarTakesEntries` | src/globmatch/translation.py:59-63 | with `**` at the end that makes no difference |
| `GlobTheorems.GlobMatchIff` | src/globmatch/__init__.py:7-23 | whatever the texts, a path matches exactly when its segments can be handed out to the parts of some pattern |
| `GlobTheorems.GlobMatchSegmentsIff` | src/globmatch/__init__.py:7-23 | for non-empty segments and brackets that accept no separator this is matching some pattern's parts segment by segment and character by character |
| `Resolver.WorkingSet.Resolve` | src/pkg_resources/__init__.py:727-791 | terminates on every finite universe; the requirements, last first, and behind them the dependencies of each one processed, last first, are gone through in this order, and an entry is processed unless it was before or its markers fail; success ends at the end of this log with the distributions in the order found, and each failure names the entry it stopped at, what was asked for and why it could not be met |
| `Resolver.WorkingSet.Meet` | src/pkg_resources/__init__.py:751-781 | a requirement gets the distribution of its key and the dependencies that lists, or fails with no match, a conflict or an unknown extra |
| `ResolverLog.LogEntries` | src/pkg_resources/__init__.py:727-743 | the log begins with the requirements from the last to the first |
| `ResolverLog.LogDependencies` | src/pkg_resources/__init__.py:780-781 | the dependencies of the requirement processed next stand behind all that was found before it, from the last to the first |
| `ResolverLog.MarkersPassIff` | src/pkg_resources/__init__.py:930-942 | markers pass if there are none, or under a registered extra, or under one asked for, or without any if none is asked for |
| `Resolver.WorkingSet.Pick` | src/pkg_resources/__init__.py:751-773 | chosen before, else active, else best match, with what is remembered and activated |
| `Resolver.RegisterNew` | src/pkg_resources/__init__.py:784-786 | the extras registered last win |
| `ResolverSearch.PassingIsClosed` | src/pkg_resources/__init__.py:741-791 | where every dependency's markers pass under the extras it was asked with, as without markers, every requirement and every dependency is met by an activated distribution, and no key has two |
| `Environments.Environment.Add` | src/pkg_resources/__init__.py:1016-1023 | a compatible new distribution is put in and the list sorted; nothing else changes |
| `Environments.Environment.Remove` | src/pkg_resources/__init__.py:986-988 | the first equal distribution goes; fails if there is none |
| `Environments.Environment.BestMatch` | src/pkg_resources/__init__.py:1025-1051 | an active match is kept; else the greatest listed distribution that meets the requirement, else the installer's |
| `Environments.AddToKeeps` | src/pkg_resources/__init__.py:1019-1023 | adding keeps a list strictly newest first and adds exactly the new order key |
| `Environments.RemoveFromKeeps` | src/pkg_resources/__init__.py:986-988 | removing keeps it and takes out exactly that order key |
| `Environments.AnySequence` | src/pkg_resources/__init__.py:972-1023 | over any sequence of changes a list is strictly newest first, compatible, and holds exactly what was accepted and not removed since |
| `ZipIndex.ZipProvider.Index` | src/pkg_resources/__init__.py:1831-1846 | the loops with their early break build the index once, and later calls return it |
| `ZipIndex.AncestorsListed` | src/pkg_resources/__init__.py:1840-1842 | why the break is right: the whole ancestor chain of a key is listed |
| `ZipIndex.BuildDescribes` | src/pkg_resources/__init__.py:1835-1844 | on component lists: keys are the directories, and a list holds a name once for every path of that name and once more if it is a directory |
| `ZipIndex.KeysAreDirectories` | src/pkg_resources/__init__.py:1831-1846 | for all archived names a text is a key exactly when it is a directory on the way to one of them |
| `ZipIndex.EntriesAreCounted` | src/pkg_resources/__init__.py:1831-1846 | for all archived names how often a directory lists a name; the two directories with the empty text share a list, in which at most one entry is missing |
| `ZipIndex.EntriesExactIff` | src/pkg_resources/__init__.py:1831-1846 | every list holds exactly the next components if and only if the two roots, should both be directories, have the same names inside |
| `ZipIndex.EntriesAreInside` | src/pkg_resources/__init__.py:1831-1846 | the list of any other directory holds exactly the next components, whatever the names, and so does the roots' list if these agree |
| `ZipIndex.RelativeNamesAreExact` | src/pkg_resources/__init__.py:1837-1844 | if no name starts with a separator every list is exact |
| `ZipIndex.AbsoluteNameMixesRoot` | src/pkg_resources/__init__.py:1837-1844 | a name that starts with a separator lists its next component in the root |
| `ZipIndex.ListsDistinctIff` | src/pkg_resources/__init__.py:1838-1844 | for all different names no list repeats one exactly when no name is a directory of another, the roots have no name in common, and at most one thing lists the empty name |
| `ZipIndex.ListsRepeatIffNested` | src/pkg_resources/__init__.py:1838-1844 | where no name starts with a separator, only nesting repeats a name |
| `Markers.AliasIsCanonical` | src/pkg_resources/_vendor/packaging/markers.py:89-117 | renaming an old variable gives a modern one, which is renamed no further |
| `Markers.ParsedIsShaped` | src/pkg_resources/_vendor/packaging/markers.py:139-151 | whatever the right-recursive grammar accepts is a list of operands separated by `and`/`or` at every depth |
| `Markers.PrintedReadsBack` | src/pkg_resources/_vendor/packaging/markers.py:154-179 | what is printed always parses, to the tree with its wrapped lists opened |
| `Markers.TreeSurvivesIff` | src/pkg_resources/_vendor/packaging/markers.py:159-175 | the tree comes back, up to lists of one item, exactly without doubled parentheses around several items below the top level |
| `Markers.PrintingKeepsMeaning` | src/pkg_resources/_vendor/packaging/markers.py:154-179 | value and error of what reads back are the same in every environment, for every comparison, unless an opened operand with an `or` comes to stand beside an `and`; where the tree survives this cannot be |
| `MarkerShapes.ShapePrintsRightIff` | src/pkg_resources/_vendor/packaging/markers.py:154-179 | all markers of a shape, whatever their comparisons, keep value and error exactly if no opened operand with an `or` comes to stand beside an `and` in it |
| `Markers.DoubledParenthesesLost` | src/pkg_resources/_vendor/packaging/markers.py:163-168 | `((x or y)) and z` comes back as `x or y and z`, which has another value whenever x holds and z does not |
| `Markers.EvaluateMarkers` | src/pkg_resources/_vendor/packaging/markers.py:231-256 | the groups give the value of the reading in which `and` binds tighter than `or`, or the first error from the left |
| `MarkerMeanings.ComparisonMeans` | src/pkg_resources/_vendor/packaging/markers.py:240-250 | the value of the variable is compared on the side where the variable stands, and a name that the environment lacks is the error |
| `MarkerMeanings.TextMeans` | src/pkg_resources/_vendor/packaging/markers.py:109-139 | so it is for the text of a comparison, an old name reading the entry of the modern one |
| `MarkerMeanings.OrMeans` | src/pkg_resources/_vendor/packaging/markers.py:231-256 | an `or` at the top level divides a marker in two whatever stands beside it; one true side is enough, and the first error from the left wins |
| `MarkerMeanings.AndMeans` | src/pkg_resources/_vendor/packaging/markers.py:231-256 | an `and` with no `or` beside it needs both sides |
| `Snapshots.DirectorySnapshot.constructor` | src/watchdog/utils/dirsnapshot.py:244-254 | the two dictionaries are the fold of root and walk, later entries winning, and every file is found by its inode |
| `Snapshots.FaithfulIff` | src/watchdog/utils/dirsnapshot.py:244-254 | when every path is met once, each inode names one path exactly if no two entries share an inode |
| `Snapshots.TakenStats` | src/watchdog/utils/dirsnapshot.py:244-254 | of the entries met with one path the last gives its stat |
| `Snapshots.LookupKept` | src/watchdog/utils/dirsnapshot.py:244-254 | of the entries met with one inode the last gives its path |
| `SnapshotWalk.Walk` | src/watchdog/utils/dirsnapshot.py:256-286 | the entries of a directory, then its subdirectories; which errors end the walk and which are passed over; `SnapshotCoverage.WalkCovers` says what it meets |
| `SnapshotWalk.TreeFaithfulIff` | src/watchdog/utils/dirsnapshot.py:238-286 | the walk of any tree meets no path twice, so its snapshot is faithful exactly if no two of the files met share an inode |
| `SnapshotCoverage.WalkCovers` | src/watchdog/utils/dirsnapshot.py:256-286 | a recursive walk meets exactly the entries that a chain of directories leads to, except in directories that come after one whose listing fails for good |
| `SnapshotCoverage.WalkFailsIff` | src/watchdog/utils/dirsnapshot.py:256-286 | it ends with an error exactly if it comes to such a directory, and with a permission error exactly if the root may not be listed |
| `SnapshotCoverage.CompleteWalkCovers` | src/watchdog/utils/dirsnapshot.py:256-286 | a complete walk meets everything that a chain of directories leads to, and nothing else |
| `SnapshotCoverage.FlatWalkCovers` | src/watchdog/utils/dirsnapshot.py:256-277 | a walk that is not recursive meets exactly the entries of the directory itself |
| `SnapshotCoverage.PathOfNames` | src/watchdog/utils/dirsnapshot.py:256-286 | what is met lies at the root's path with the names on the way behind it |
| `SnapshotCoverage.TreeSnapshotHolds` | src/watchdog/utils/dirsnapshot.py:238-286 | the snapshot of a complete walk has the root and every such file with what `stat` said of it, and nothing else |
| `Snapshots.Differing` | src/watchdog/utils/dirsnapshot.py:83-97 | the paths one side has alone, and those that name another file |
| `Snapshots.PairDeleted` | src/watchdog/utils/dirsnapshot.py:101-107 | deleted paths whose inode is found become moves, the others stay |
| `Snapshots.PairCreated` | src/watchdog/utils/dirsnapshot.py:109-114 | created paths whose inode is found become moves, the others stay |
| `Snapshots.Modified` | src/watchdog/utils/dirsnapshot.py:118-127 | paths that stayed or moved and have another time or size |
| `Snapshots.DirectorySnapshotDiff.constructor` | src/watchdog/utils/dirsnapshot.py:82-136 | the eight lists together are the four sets, each path with the files or the directories as its side has it |
| `SnapshotTheorems.DiffIsExact` | src/watchdog/utils/dirsnapshot.py:82-127 | for faithful snapshots the difference is the plain comparison by inode: new, gone and renamed files, and those with another time or size |
| `SnapshotTheorems.MovesOneToOne` | src/watchdog/utils/dirsnapshot.py:100-114 | no file moves to two places and no two files to one |
| `SnapshotTheorems.DiffReplays` | src/watchdog/utils/dirsnapshot.py:82-114 | old paths without deleted ones and sources, with created ones and destinations, are the new path-to-inode table |
| `SnapshotTheorems.OneDevice` | src/watchdog/utils/dirsnapshot.py:86-91 | on one device it makes no difference whether devices are compared |
| `SnapshotTheorems.RenumberedDevice` | src/watchdog/utils/dirsnapshot.py:86-127 | between snapshots with different device numbers, devices not compared: paths with the same inode number on both sides stay, all others are created or deleted, and no move is found |
| `Polling.PollingEmitter.QueueEvents` | src/watchdog/observers/polling.py:73-113 | a stopped emitter does nothing; a failing snapshot reports the root deleted and stops; else the difference is queued and the new snapshot kept |
| `Polling.PollingEmitter.QueueDiff` | src/watchdog/observers/polling.py:95-113 | every change is queued once, files before directories, kind by kind, and nothing else |
| `Polling.RunRebuilds` | src/watchdog/observers/polling.py:84-93 | replaying every batch of any polling run, each as simultaneous changes, rebuilds each snapshot's table |
| `Polling.EventsTellPaths` | src/watchdog/observers/polling.py:84-113 | the events of a run alone determine the paths of the latest snapshot |
| `SkipRepeats.SkipRepeatsQueue.PutItem` | src/watchdog/utils/bricks.py:89-96 | an item equal in value to the last one is dropped without a trace in the task count |
| `SkipRepeats.SkipRepeatsQueue.GetItem` | src/watchdog/utils/bricks.py:98-102 | the head leaves, and the last item is forgotten exactly if it is that very object |
| `SkipRepeats.RunKeeps` | src/watchdog/utils/bricks.py:85-102 | over every run taken and waiting items equal the puts once equal neighbours are made one, and the task count is waiting plus taken but not done |
| `SkipRepeats.FreshNeverRepeats` | src/watchdog/observers/api.py:122-132 | if no object is put while it waits, as every queued event is a new tuple, no two equal neighbours ever wait |
| `SkipRepeats.RepeatsIffUnguarded` | src/watchdog/utils/bricks.py:85-102 | gets and one put of a new object can make equal neighbours exactly if the object at the end is not remembered or waits elsewhere too |
| `SkipRepeats.ReusedObjectRepeats` | src/watchdog/utils/bricks.py:98-102 | putting an object again while it waits makes two equal neighbours wait |
| `Observer.BaseObserver.ScheduleWatch` | src/watchdog/observers/api.py:285-296 | handler, emitter and watch are recorded in that order, and an emitter that does not start leaves the watch out |
| `Observer.BaseObserver.RemoveHandlerForWatch` | src/watchdog/observers/api.py:331-332 | the handler goes, or the lookup fails and nothing changes |
| `Observer.BaseObserver.UnscheduleWatch` | src/watchdog/observers/api.py:343-347 | handlers, emitter and watch go in that order, up to the first failing lookup |
| `Observer.BaseObserver.UnscheduleEvery` | src/watchdog/observers/api.py:352-355 | nothing is registered any more |
| `Observer.BaseObserver.Start` | src/watchdog/observers/api.py:252-259 | the emitters are started in the order they are traversed, one that cannot be is taken out and ends it, and then the thread of the observer, which can be started once |
| `Observer.StartTriesInOrder` | src/watchdog/observers/api.py:252-259 | a start runs exactly the emitters before the first that fails or runs already, and takes that one out |
| `Observer.BaseObserver.Dispatch` | src/watchdog/observers/api.py:363-369 | the loop, with handlers that use the observer, is the turn by turn dispatch in some order of the handlers registered at the start |
| `Observer.ApplyKeepsTied` | src/watchdog/observers/api.py:215-237 | emitter map and emitter set agree after every operation, even a failing one |
| `Observer.ApplyKeepsMatchedIff` | src/watchdog/observers/api.py:252-355 | watches and emitters stay one-to-one exactly when no emitter fails to start, and all emitters keep running exactly unless a new one does |
| `ObserverHandlers.OneChange` | src/watchdog/observers/api.py:261-355 | one operation registers the handler it names, takes out those it takes out, and leaves every other handler of every watch as it was, whether it fails or not |
| `ObserverHandlers.RegisteredIff` | src/watchdog/observers/api.py:261-355 | after any list of operations a handler is registered for a watch exactly if it was at some point and nothing later took it out |
| `ObserverHandlers.FailsIff` | src/watchdog/observers/api.py:261-355 | scheduling fails exactly if a new emitter does not start while the observer runs, removing exactly if there is nothing to remove |
| `Observer.UnscheduleRemoves` | src/watchdog/observers/api.py:334-347 | a scheduled watch, and only such a one, can be taken out, and the others keep their handlers |
| `Observer.FailedStartUnmatches` | src/watchdog/observers/api.py:252-258 | a failing start of the observer leaves a watch without an emitter |
| `Observer.RetryLeavesEmitterIdle` | src/watchdog/observers/api.py:289-295 | scheduling again after a failed start succeeds and restores the correspondence without starting the emitter |
| `Observer.FailedNeverRuns` | src/watchdog/observers/api.py:261-355 | an emitter that failed to start does not run, over every list of operations that neither takes its watch out nor starts the observer again |
| `Observer.RestartRunsIdleIff` | src/watchdog/observers/api.py:252-259 | starting the observer again runs such an emitter exactly if every emitter up to it in the traversal can be started |
| `Observer.RunKeepsInStep` | src/watchdog/observers/api.py:261-355 | over every list of operations that makes only emitters that start, and does not start the observer again, the correspondence holds and all emitters run |
| `Observer.CalledIffRegistered` | src/watchdog/observers/api.py:367-369 | turns follow the order fixed at the start, and a handler is called exactly if registered at its turn |
| `Observer.TurnsSeeChanges` | src/watchdog/observers/api.py:364-369 | the registry at each turn is what the handlers before it made of it |
| `Observer.CalledAtMostOnce` | src/watchdog/observers/api.py:367-369 | no handler has two turns |
| `Observer.StopsIffRaised` | src/watchdog/observers/api.py:367-370 | a dispatch ends early exactly when the handler called last raises |
| `Observer.DispatchKeepsInStep` | src/watchdog/observers/api.py:360-370 | handlers that do not start the observer again cannot break the correspondence as long as emitters start |
| `VersionOrder.LessIffPrecedes` | src/semantic_version.py:410-460 | `<` on full versions is lower precedence as section 11 of SemVer 2.0.0 defines it |
| `VersionOrder.IdOpsAgree` | src/semantic_version.py:17-76 | the own, derived and reflected operators of different identifiers all come from one order |
| `VersionOrder.OperatorsAgree` | src/semantic_version.py:457-475 | `>`, `<=` and `>=` are what `<` makes of them, ties being versions that differ in build only |
| `VersionOrder.ComparesTotally` | src/semantic_version.py:410-460 | of two versions exactly one comes first, unless they differ in build only |
| `VersionOrder.LessTransitive` | src/semantic_version.py:457-460 | `<` is transitive |
| `VersionOrder.LessOrTiedTransitive` | src/semantic_version.py:462-465 | `<=` is transitive, hence a total preorder |
| `VersionOrder.TiedAndEqual` | src/semantic_version.py:441-450 | versions are tied exactly if they differ in build at most, and equal exactly if not even in that |
| `VersionOrder.NextPatchLeast` | src/semantic_version.py:159-173 | the least release above the version |
| `VersionOrder.NextMinorLeast` | src/semantic_version.py:143-157 | the least release above it whose patch is zero |
| `VersionOrder.NextMajorLeast` | src/semantic_version.py:127-141 | the least release above it whose minor and patch are zero |
| `VersionText.MatchIff` | src/semantic_version.py:81-82 | both patterns match a text in at most one way, which is the one found |
| `VersionText.ValidateIdentifiers` | src/semantic_version.py:351-361 | accepts exactly lists without empty identifiers and, unless allowed, without leading zeroes |
| `VersionText.Parse` | src/semantic_version.py:291-349 | the version of the matched groups, or nothing where the source raises |
| `VersionText.Str` | src/semantic_version.py:385-396 | the printed groups of the version, spelled out |
| `VersionRoundTrips.ParsedIsFull` | src/semantic_version.py:291-361 | whatever the full pattern accepts is valid by sections 2, 9 and 10 of SemVer 2.0.0 |
| `VersionRoundTrips.PrintedParses` | src/semantic_version.py:291-396 | every valid full version is what its printed form parses to |
| `VersionRoundTrips.ParsedPrints` | src/semantic_version.py:291-396 | text that parses as a full version is what that version prints |
| `VersionRoundTrips.PartialPrintedParses` | src/semantic_version.py:304-349 | every parsed partial version is what its printed form parses to |
| `VersionRoundTrips.PartialParsedPrintsIff` | src/semantic_version.py:392-395 | partial text prints as it was exactly unless an empty prerelease stands before a build |
| `VersionCoercion.Coerce` | src/semantic_version.py:211-289 | the loop that adds `.0`, the stripping, cleaning and dividing hand the coerced text to the parser |
| `VersionCoercion.CoerceMeans` | src/semantic_version.py:211-289 | when coercion fails, and else the version: numbers found, zeroes for the others unless it may be partial, identifiers of the cleaned rest |
| `CoercedParts.RestIsBuild` | src/semantic_version.py:258-282 | a rest that begins with a dot or a `+` is build data only, every further `+` a dot and every character that cannot stand there a hyphen |
| `CoercedParts.RestIsDivided` | src/semantic_version.py:258-282 | any other rest is a prerelease up to the first `+` and build data after it, without a hyphen in front |
| `CoercedParts.ExtraNumbersAreBuild` | src/semantic_version.py:211-289 | identifiers behind the third number, and any after a `+`, are the build of the version |
| `VersionCoercion.CoercePrinted` | src/semantic_version.py:255-289 | coercing what a valid version prints gives that version |
| `VersionCoercion.CoerceParsed` | src/semantic_version.py:211-289 | coercion agrees with the parser wherever the parser accepts |
| `VersionCoercion.CoerceSettles` | src/semantic_version.py:211-289 | coercion gives valid full versions and changes nothing the second time |
| `WebSocketFrames.WebSocketHandler.ReadNextMessage` | src/websocket_server.py:283-335 | one call consumes and hands over what one frame's branch does, faults and too few bytes included |
| `WebSocketFrames.Unmask` | src/websocket_server.py:331-334 | the bytes combined with the mask, round and round |
| `WebSocketFrames.MaskingTwice` | src/websocket_server.py:331-334 | masking twice gives the payload back (section 5.3 of RFC 6455) |
| `WebSocketFrames.LengthReadsBack` | src/websocket_server.py:325-328 | a length in any form that can hold it reads back as it was (section 5.2 of RFC 6455) |
| `WebSocketFrames.NetworkOrder` | src/websocket_server.py:325-328 | lengths have their most significant byte first |
| `WebSocketFrames.ReadFrame` | src/websocket_server.py:283-335 | a masked text, ping or pong frame is consumed exactly and its payload handed over |
| `WebSocketFrames.ReadFrames` | src/websocket_server.py:273-335 | so is any list of them, in order, whatever follows |
| `WebSocketFrames.CutFrame` | src/websocket_server.py:280-335 | what a frame cut anywhere leads to: closing, an exception, or a payload cut short handed over |
| `WebSocketFrames.OtherFrames` | src/websocket_server.py:295-323 | a frame without a mask or with another opcode hands nothing over and closes, but continuation and binary frames are passed over with their header only |
| `WebSocketFrames.WireOpcodes` | src/websocket_server.py:295-319 | opcodes 1, 9 and 10 are text, ping and pong (section 5.2 of RFC 6455) |
| `WebSocketFrames.StandardExamples` | src/websocket_server.py:283-405 | the masked `Hello` of section 5.7 of RFC 6455 is read as such, and the headers given there for an unmasked one, for 256 and for 65536 bytes are those sent |
| `WebSocketFrames.SendText` | src/websocket_server.py:380-405 | header and payload are sent, or nothing from 2^64 bytes on |
| `WebSocketFrames.SendMessage` | src/websocket_server.py:337-338 | a message goes out as one text frame that begins with the byte 0x81, unless it has 2^64 bytes or more |
| `WebSocketFrames.SendPong` | src/websocket_server.py:340-341 | a pong begins with the byte 0x8A |
| `WebSocketFrames.SentFirstByte` | src/websocket_server.py:384-399 | a sent header has the FIN bit, no reserved bit and the opcode in its first byte |
| `WebSocketFrames.SentHeadShortest` | src/websocket_server.py:384-399 | a sent header stands for the payload's length and no shorter header does |

## Left out

- Operating-system calls, sockets and the file system are inputs: kernel answers, directory listings, `stat` results, clock readings and bytes read.
- Threads are interleaved atomic steps; condition variables and joining are not modelled, and nothing is claimed about wakeups after `close`.
- DelayedQueues.DelayedQueue.Peek: the loops of `get` around the sleep are not one method; the machine repeats its critical sections as steps in any interleaving, and `PairingConsumer` ties them to the object.
- `_add_dir_watch` at construction, the loop of `read_events` around an interrupted read, and the `handle` loop of the WebSocket server, which only repeat modelled steps.
- GlobTheorems.AcceptsIffSpans: which characters a bracket expression accepts is left to the regular expression engine.
- Resolver.WorkingSet.Resolve: `replace_conflicting=True`, installers that change the working set and completeness of the greedy search; the best match of the environment is a function here and `Environments.Environment.BestMatch` there.
- Requirement equality is represented by its equality class with the extras as a set, and the order of distributions by an integer; PEP 440 versions and specifiers are parameters.
- `WorkingSet.add`, `find_plugins`, `insert_on`, and the scan of search paths.
- Markers.PrintingKeepsMeaning: a marker outside its condition may keep its value by chance, if comparisons repeat as in `((a or a)) and a`; `MarkerShapes.ShapePrintsRightIff` is exact for markers of one shape.
- Markers.PrintedReadsBack: the grammar works on tokens; a quoted value that itself holds a double quote would not be read back from characters.
- SnapshotTheorems.DiffIsExact: hard links, where one inode names several paths, and `ignore_device=True` between snapshots that each span several devices.
- SnapshotWalk.Walk: the tree of answers is finite, so a walk that follows a cycle of links is not covered.
- The lists of a difference come from sets in no particular order and are sets here.
- Observer.BaseObserver.Start: the thread of the observer does not end in the model, so to have been started and to be alive are one.
- `dispatch_events` without the wait for the queue; emitters are identities with a running flag, not threads.
- VersionText.MatchIff: text in which a pattern's end mark would pass a trailing newline, and digits outside ASCII.
- Ordering of partial versions, `truncate` and the deprecated comparison `__cmp__`.
- WebSocketFrames.WebSocketHandler.ReadNextMessage: decoding is identity; the payloads of binary and continuation frames stay in the stream and are read as frames, as in the source. Lengths of 2^63 and more are read although RFC 6455 forbids them.
- The WebSocket handshake, closing frames sent by the server, and everything about clients.
- Launch maps of asgiref, dataclass copies, the vendored typing and appdirs code, and the editor plugins: reflection, interface code or easy facts only.
