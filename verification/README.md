# A verified model of NiaOS package logic

Dafny models of the parts of the repository where a mistake would be hard to see:
Debian version order and final-set checking, the deferred-trigger state machine, the
independent tar clock cursor, the exact-tree check, the supervised effect protocol, and
the canonical codecs and listings around them. Each model follows the code branch by
branch; the theorems are about all inputs, all runs or all reachable states.

`dafny verify dfyconfig.toml` checks everything.

How the modules fit together:

- `DebianVersion`, `Relations`, `FinalSet`: the comparator, the relation-field parser,
  the final-set check and the indexed dependency report. `FinalSet` takes each relation
  field as the outcome of `Relations.Parse`.
- `Triggers`, `WaitGraph`, `TriggerState`: routing, the worklist over the awaited graph,
  and the state machine with its stored checkpoint.
- `TarNumbers`, `TarTimes`, `TarPax`, `TarClocks`, `TarArchive`, `TarPrinter`: number and
  timestamp readers, pax records, the cursor object, the archive grammar it accepts, and
  the writer whose archives it reads back.
- `RootTree`, `CompleteTree`: what an exact tree is, and the sort, search and count that
  decide it.
- `Environment`, `Observers`, `ObserverTrace`, `Scopes`, `OperatorGuard`, `SupplyGuard`,
  `RootSession`, `Channels`, `EffectPermits`, `Supervisor`: the supervised effect protocol.
  Clock, kernel, helper and native answers are arbitrary (`Environment.World`), the clock
  never goes back. The world keeps a ghost record of every clock reading, every poll and every
  event of a run: boundaries begun, checks asked and answered, messages of workers and of the
  controller, consents and admissions, looks at the mounted root, readings that judge an
  observation, effects, and the close. Each
  kind of event is recorded by the one operation of the world that performs it, at the time of
  the clock; each observer's pipe keeps every chunk that was read from it. The run theorems
  are statements about those records.
- `Handoff`, `LifecycleCheck`: the channel relation and the exhaustive checker, which is
  proved sound, complete and terminating for any step function.
- `Deb822`, `TarLinks`, `InterimPackage`, `CatalogQuery`, `CatalogListing`, `RateLimiter`:
  codecs, listings, the hard-link pass and the query limiter.
- `NiaCommon`, `Ordering`, `Text`, `Bytes`: shared vocabulary.

Assumptions. `sha` is a parameter of the codecs; attempt and content digests are the records
they digest, so equal digests mean equal records. `parse_json` inverts `canonical`
(`InterimPackage.Faithful`; `TriggerState` works on the document itself). Python code that
raises returns `Invalid` with a reason; reasons are for the reader and only sometimes part
of a contract. A sorted duplicate-free tuple in the trigger state is the set it lists.

Where the documented intent and the code differ, the code is modelled:

- The indexed dependency report and the plain scan differ when an unqualified package is
  present (`FinalSet.UnqualifiedBystander`). "The report is empty exactly when the dependency
  phase accepts" holds exactly when an empty report comes with groups that are all sheltered:
  every package is qualified, or one that matches the first alternative comes before every
  package that is not (`FinalSet.EmptyMeansAcceptedExactly`).
- An observer reply longer than its frame is refused or accepted by where the pipe cuts it
  (`Observers.LongRepliesDependOnChunks`); all cuts of a reply are gathered alike exactly
  when it is no longer than the frame (`Observers.CutsAgreeExactly`).

## Model

| member | source | states |
|---|---|---|
| DebianVersion.SplitExactly | tools/debian_semantics.py:16-29 | a text is accepted with these parts exactly when it spells them: an epoch before a colon if there is one, canonical and at most 2147483647, then `upstream-revision`, or `upstream` alone with revision 0, over the allowed characters and lengths |
| DebianVersion.SplitRendered | tools/debian_semantics.py:16-29 | a canonical version, written out, splits into exactly its epoch, upstream and revision |
| DebianVersion.DigitsAreNumeric | tools/debian_semantics.py:31-33 | digit runs of any length compare as the numbers they write |
| DebianVersion.Part | tools/debian_semantics.py:41-54 | the two-cursor loop computes the lexicographic order of two canonical keys |
| DebianVersion.Compare | tools/debian_semantics.py:56-58 | raises exactly on an invalid version, else gives the order that the rows below say |
| DebianVersion.PiecesDecide | tools/debian_semantics.py:56-58 | the smaller epoch number decides whatever follows; with equal epochs the upstream parts decide unless they tie, and only then the revisions |
| DebianVersion.AfterPrefix | tools/debian_semantics.py:41-54 | a common beginning of two parts decides nothing, unless it ends inside a number |
| DebianVersion.FirstDifference | tools/debian_semantics.py:35-54 | where two parts first differ outside a number, a tilde is before the end, the end before a letter, a letter before everything else, each kind in code order, whatever follows |
| DebianVersion.NumberDecides | tools/debian_semantics.py:31-54 | numbers in the same place are compared as numbers, and only equal ones leave the rest to decide |
| DebianVersion.ComparisonAntisymmetric | tools/debian_semantics.py:31-58 | swapping the arguments negates the sign, and a version equals itself |
| DebianVersion.ComparisonTransitive | tools/debian_semantics.py:31-58 | the order is transitive in its strict and weak forms on all valid versions |
| DebianVersion.ComparisonZero | tools/debian_semantics.py:31-58 | two versions tie exactly when their normalised keys are equal |
| DebianVersion.TildeBeforeEnd | tools/debian_semantics.py:35-54 | a tilde sorts before the end of a part, whatever follows it |
| Relations.Parse | tools/debian_semantics.py:69-87 | returns what the field means and raises on everything else, limits included |
| Relations.AtomReads | tools/debian_semantics.py:67 | the pattern reads the text of every well-shaped atom as that atom, whatever white space stands around its version |
| Relations.ItemExactly | tools/debian_semantics.py:75-82 | an item is read as an atom exactly when the field may hold that atom and the item is its text with some white space in and around it |
| Relations.ReadsBack | tools/debian_semantics.py:69-87 | any groups printed with any white space read back as those groups, for every kind of field |
| Relations.FieldExactly | tools/debian_semantics.py:69-87 | a field means some groups exactly when it is blank and there are none, or it spells them, with any white space, within 65536 characters and 1024 atoms |
| Relations.AcceptedIsValid | tools/debian_semantics.py:69-87 | accepted fields hold non-empty groups of valid atoms, single where alternatives are refused |
| FinalSet.CheckVersion | tools/debian_semantics.py:89-93 | an unversioned capability never meets a versioned need; otherwise the operator decides on the order |
| FinalSet.OperatorsMean | tools/debian_semantics.py:89-93 | `>=` is met exactly when the wanted version is not later, `>>` is the negation of `<=`, `<<` that of `>=`, `=` both, and no operator always holds |
| FinalSet.BoundsAreKept | tools/debian_semantics.py:89-93 | a later version still meets a lower bound, an earlier one an upper bound |
| FinalSet.MatchProvider | tools/debian_semantics.py:95-106 | a provider matches through its name or a capability, raising first on an unqualified package |
| FinalSet.ProviderMatchesMeaning | tools/debian_semantics.py:95-106 | where every version can be read, a package matches exactly when its own name and version or one of its capabilities meets the atom, and it is marked allowed if any architecture is asked |
| FinalSet.BuildIndex | native/audit_transition.py:79-85 | the index lists, for each name, the packages able to provide it, in order |
| FinalSet.MissingDependencies | native/audit_transition.py:79-94 | the nested loops compute the indexed report, in order, or raise where it does |
| FinalSet.ReportListsUnmatched | native/audit_transition.py:79-94 | on qualified packages a row is in the report exactly when it is a group of a selected package of which no selected package matches any alternative |
| FinalSet.ReportInOrder | native/audit_transition.py:86-94 | rows of earlier packages come first, and for one package those of its pre-dependencies |
| FinalSet.IndexAgreesWithPlainScan | native/audit_transition.py:79-94 | on qualified packages the indexed report is the plain report, raises included |
| FinalSet.PlainScanMeaning | tools/debian_semantics.py:120-123 | a group is satisfied exactly when some package matches some alternative |
| FinalSet.GroupSheltered | tools/debian_semantics.py:120-123 | a group that the index satisfies passes the plain scan exactly when it is sheltered, which is a test on the packages |
| FinalSet.DependencyPhaseAgrees | tools/debian_semantics.py:116-123 | the dependency phase accepts exactly when the indexed report is empty and every group is sheltered |
| FinalSet.EmptyMeansAcceptedExactly | tools/debian_semantics.py:116-123 | empty report and accepting phase coincide exactly on the sets where an empty report comes with sheltered groups |
| FinalSet.EmptyExactlyWhenAccepted | tools/debian_semantics.py:116-123 | on qualified packages, the report is empty exactly when the dependency phase accepts |
| FinalSet.UnqualifiedBystander | tools/debian_semantics.py:95-98 | without qualification the two differ, by a concrete set of three packages |
| FinalSet.CheckFinal | tools/debian_semantics.py:108-128 | returns the number of selected identities exactly on a valid final set |
| FinalSet.FinalSetMeaning | tools/debian_semantics.py:108-128 | an accepted set has known distinct identities, one package to a name, every dependency group matched by some taken package and every conflict by none but its owner; and where no scan meets a package it cannot judge, every such set is accepted |
| FinalSet.ValidSetMissesNothing | tools/debian_semantics.py:108-128 | an accepted set has every dependency satisfied and nothing in the report |
| Triggers.CollectInterests | tools/debian_triggers.py:135-147 | raises exactly on refused declarations, else tabulates every interest |
| Triggers.Route | tools/debian_triggers.py:184-204 | one delivery per interested receiver, name and origin, in order; awaiting exactly when an activation and the interest both wait and the receiver is not the origin |
| Triggers.RouteIgnoresOrder | tools/debian_triggers.py:184-204 | the deliveries depend on the set of activations only |
| Triggers.RouteKeysAreUnique | tools/debian_triggers.py:191-204 | no receiver, name and origin are delivered twice |
| Triggers.BatchView | tools/debian_triggers.py:207-229 | accepts exactly well-formed batches and groups exactly their pending and awaited pairs |
| Triggers.RoutedBatchAccepted | tools/debian_triggers.py:207-229 | a routed batch is never refused: no self-await, within every limit |
| WaitGraph.Release | tools/debian_trigger_state.py:139-154 | the worklist terminates and keeps an edge exactly when its target can reach a busy package or a cycle, whatever the order |
| WaitGraph.RankedIsFree | tools/debian_trigger_state.py:139-154 | every released package can reach neither a busy package nor a cycle |
| WaitGraph.StuckIsBlocked | tools/debian_trigger_state.py:139-154 | every package left with an outgoing edge is blocked, by a cycle if nothing is busy |
| WaitGraph.FixpointIsRemaining | tools/debian_trigger_state.py:139-154 | an exhausted queue leaves exactly the blocked edges |
| TriggerState.ObserveSuccess | tools/debian_trigger_state.py:129-158 | succeeds exactly on a valid state with a batch, a revision to spare and the current token; pending work is kept, the batch ends, and a wait stays exactly when along the waits its target reaches pending work or a cycle |
| TriggerState.CompletionSucceedsExactly | tools/debian_trigger_state.py:119-158 | the same of the transition: nothing but the token, the batch and the revision can refuse a completion |
| TriggerState.ActivateState | tools/debian_trigger_state.py:88-101 | the merged tables, encoded for their size, are the specified activation, and the same state when nothing is new |
| TriggerState.StartState | tools/debian_trigger_state.py:104-116 | the receiver's pending names become the batch exactly as specified |
| TriggerState.StartSucceedsExactly | tools/debian_trigger_state.py:104-116 | a start succeeds exactly when nothing runs, the revision is not exhausted and the receiver has pending work; it moves exactly that work into the batch, and its size never refuses it |
| TriggerState.CompletionValid | tools/debian_trigger_state.py:51-76 | the state after a completion satisfies the whole invariant |
| TriggerState.ActivationRefusedOnlyByLimits | tools/debian_trigger_state.py:88-101 | an accepted batch is refused only by the table bounds and the encoded size, and otherwise adds exactly its pairs, with a new revision exactly when one of them is new |
| TriggerState.RoutedActivation | tools/debian_trigger_state.py:88-101 | routed deliveries reach the state without any other refusal |
| TriggerState.ActivationIsIdempotent | tools/debian_trigger_state.py:88-101 | activating the same deliveries again changes nothing, not even the revision |
| TriggerState.StepKeepsInvariant | tools/debian_trigger_state.py:51-76 | every step keeps the invariant and the binding and moves the revision by at most one |
| TriggerState.RunKeepsInvariant | tools/debian_trigger_state.py:51-158 | so does every run |
| TriggerState.ReleasedTargetIsIdle | tools/debian_trigger_state.py:129-158 | an edge leaves only when its target has no pending, running or awaited work left |
| TriggerState.IdleStateHoldsOnlyCycles | tools/debian_trigger_state.py:129-158 | an idle state that still waits holds a cycle |
| TriggerState.PendingUntilStarted | tools/debian_trigger_state.py:104-116 | a pending pair stays, or the step is the start that puts it into the batch |
| TriggerState.PendingOverRun | tools/debian_trigger_state.py:88-158 | over any run a pair stays pending until its receiver is started |
| TriggerState.PendingComesFromActivation | tools/debian_trigger_state.py:88-101 | pending work appears only from an activation that carries it |
| TriggerState.BatchIsFrozen | tools/debian_trigger_state.py:104-158 | the running batch changes only by its own completion |
| TriggerState.ReactivationIsNewWork | tools/debian_trigger_state.py:88-101 | activation during a run makes new pending and awaited work and leaves the batch alone |
| TriggerState.StaleForever | tools/debian_trigger_state.py:119-131 | a token from an earlier start is refused in every later state |
| TriggerState.CompletedTokenNeverAccepted | tools/debian_trigger_state.py:119-131 | a completed attempt is never accepted again |
| TriggerState.EncodeState | tools/debian_trigger_state.py:161-177 | refuses exactly the states over the size bound |
| TriggerState.AddRows | tools/debian_trigger_state.py:161-177 | the accumulated size is the sum of the row lengths, refused exactly past the limit |
| TriggerState.FramingAllowanceSuffices | tools/debian_trigger_state.py:161-177 | the written text never exceeds the accumulated bound, so the last size test cannot fire |
| TriggerState.CompletionEncodable | tools/debian_trigger_state.py:129-177 | a completion of a state that fits the stored size fits it too |
| TriggerState.DecodeInvertsEncode | tools/debian_trigger_state.py:161-204 | a stored state reads back as itself |
| TriggerState.EveryReachableStateIsStorable | tools/debian_trigger_state.py:88-204 | from the first state on, every state of every run encodes, and its document reads back as that state |
| TriggerState.DecodeAcceptsOnlyEncoding | tools/debian_trigger_state.py:180-204 | whatever is accepted is the one text of the state returned, with its binding and digest |
| TriggerState.DecodeState | tools/debian_trigger_state.py:180-204 | the tables are read row by row and the state's own text compared: accepts exactly what the specified reading accepts |
| TriggerState.DecodeExactly | tools/debian_trigger_state.py:161-204 | decoding gives a state exactly when the text is that state's encoding, under its binding and digest |
| TarNumbers.BinaryField | native/worker/tar_clocks.c:46-54 | a base-256 field reads as its two's complement number, refused exactly outside 64 bits |
| TarNumbers.OctalField | native/worker/tar_clocks.c:55-66 | an octal field reads as its number, refused exactly when malformed or past 63 bits |
| TarNumbers.Integer | native/worker/tar_clocks.c:46-68 | accepts exactly the numbers that fit, in either notation |
| TarNumbers.FieldUnique | native/worker/tar_clocks.c:46-68 | a field never denotes two numbers |
| TarNumbers.NumberReadsBack | native/worker/check_tar_clocks.py:20-23 | every 64-bit number, written in octal or base 256, reads back |
| TarTimes.WholeSeconds | native/worker/tar_clocks.c:73-78 | seconds accumulate negative, with C's truncating division, and overflow exactly past the 64-bit range |
| TarTimes.FractionNanos | native/worker/tar_clocks.c:79-89 | nine digits count, later ones must be zero |
| TarTimes.ClockText | native/worker/tar_clocks.c:69-97 | accepts exactly the decimals whose value is a whole number of nanoseconds with a 64-bit floor second, and returns that value |
| TarTimes.ClockOfExact | native/worker/tar_clocks.c:69-97 | the staged reading is the rational the text writes, for every text |
| TarTimes.WrittenSplit | native/worker/tar_clocks.c:69-89 | a text has one reading into sign, whole part and fraction |
| TarPax.SizeText | native/worker/tar_clocks.c:117-125 | a size override is accepted exactly when it is digits within 63 bits |
| TarPax.RecordSplits | native/worker/tar_clocks.c:101-116 | the self-counting record at a position is the only one the reader can find there |
| TarPax.ReadRecord | native/worker/tar_clocks.c:101-116 | one record: its key, value and end, or a refusal |
| TarPax.GatherMeaning | native/worker/tar_clocks.c:117-128 | records are accepted exactly when each of size, mtime, atime, ctime and LIBARCHIVE.creationtime is absent or occurs once with a readable value, and those values are the settings, in that order |
| TarPax.ScanExact | native/worker/tar_clocks.c:98-132 | an extension is accepted exactly when it is a list of records with that meaning |
| TarPax.Pax | native/worker/tar_clocks.c:98-132 | the loop computes that reading of the whole extension |
| TarPax.RecordText | native/worker/check_tar_clocks.py:12-17 | the length loop settles on the smallest length that counts itself |
| TarPax.RenderedRecords | native/worker/check_tar_clocks.py:12-17 | printed records read back as their keys and values, in order |
| TarClocks.ReadHead | native/worker/tar_clocks.c:155-158 | a header is accepted exactly when its checksum field is the sum with that field blank |
| TarClocks.Cursor.ZeroRange | native/worker/tar_clocks.c:37-45 | the chunked scan accepts exactly ranges of zeros |
| TarClocks.Cursor.Next | native/worker/tar_clocks.c:143-189 | one call gives exactly the specified outcome and leaves offset and extension count within file and budget |
| TarClocks.TypeflagDecides | native/worker/tar_clocks.c:133-142 | a header confirms an entry exactly when its flag is one the ustar format has for that link or type of file, the sizes agree, and only a regular file has a body |
| TarClocks.AdvanceMoves | native/worker/tar_clocks.c:143-189 | an entry moves the offset by one or more whole blocks, inside the file, with extensions inside the budget |
| TarArchive.MemberAdvances | native/worker/tar_clocks.c:143-189 | every entry of the grammar, within the budget, is read with its clocks |
| TarArchive.AdvanceMember | native/worker/tar_clocks.c:143-189 | whatever one call reads is an entry of the grammar |
| TarArchive.ReadEntryIsTyped | native/worker/tar_clocks.c:133-179 | an entry that is read ends with a header that has one of its typeflags, its own size, and zero padding after the body |
| TarArchive.ChainShapes | native/worker/tar_clocks.c:164-176 | an entry has one pax header alone, or each long name at most once, in either order |
| TarArchive.WalkReadsArchives | native/worker/tar_clocks.c:143-189 | repeated calls complete exactly on archives, with exactly their clocks, then 0 |
| TarArchive.ArchiveEndsInZeros | native/worker/tar_clocks.c:150-154 | an archive ends in at least 1024 zero bytes |
| TarPrinter.HeaderReads | native/worker/check_tar_clocks.py:20-23 | a written header reads back with its size, kind and time |
| TarPrinter.FramePrinted | native/worker/check_tar_clocks.py:26-27 | a written frame is a frame of the grammar, body and padding included |
| TarPrinter.ArchiveRoundTrip | native/worker/check_tar_clocks.py:30-32 | every written archive, each entry under any typeflag of its kind and after a pax header or long names in either order, reads back as each entry's clocks in order and then the end |
| RootTree.NormalPath | native/worker/root_extract.c:285-302 | keeps exactly paths of proper components, less one leading dot-slash and one trailing slash |
| RootTree.NormalExactly | native/worker/root_extract.c:285-302 | a name gives a normal path exactly when it is that path of proper components, with `./` before it or a slash after it or both, or the root, within the length limit |
| RootTree.NormalIsIdempotent | native/worker/root_extract.c:285-302 | a normal path is its own normal form and never absolute or empty |
| RootTree.NamesExactly | native/worker/root_extract.c:334 | `.` and `..` are passed over, and every other name is kept as often as it is listed |
| RootTree.ReachedIsNormal | native/worker/root_extract.c:330-339 | every path that the walk builds, within the length limit, is its own normal form |
| RootTree.ChildInjective | native/worker/root_extract.c:330-339 | different directory entries have different paths |
| RootTree.CountedIsExact | native/worker/root_extract.c:326-345 | distinct records with all children recorded and one child fewer than records are exactly the tree |
| RootTree.ExactIsCounted | native/worker/root_extract.c:326-345 | an exact namespace passes that count |
| CompleteTree.BSearch | native/worker/root_extract.c:339 | the search finds a path exactly when it is recorded |
| CompleteTree.PathsDistinct | native/worker/root_extract.c:322-325 | comparing neighbours after the sort decides whether all paths are distinct |
| CompleteTree.CountChildren | native/worker/root_extract.c:326-345 | counts every child, failing only on a namespace that is not exact or a path too long |
| CompleteTree.CountDecides | native/worker/root_extract.c:344-345 | the count of children decides the namespace |
| CompleteTree.ScanGroup | native/worker/root_extract.c:347-350 | one run of the second sort is exactly one inode, with its originals counted |
| CompleteTree.InodesComplete | native/worker/root_extract.c:346-353 | accepts exactly when every non-directory inode has all links recorded and one original |
| CompleteTree.Check | native/worker/root_extract.c:318-355 | returns 0 exactly when the records are the tree of all entries but `.` and `..`, and every link is accounted for |
| Observers.RunsCountUp | native/operator_guard.py:38-47 | every run of events accepts 1, 2, 3 and so on, at most 1200 |
| Observers.NothingAfterTheEnd | native/operator_guard.py:38-47 | nothing is accepted after a failure or close |
| Observers.IntervalsDisjoint | native/operator_guard.py:179-187 | the intervals of accepted checks never overlap |
| Observers.ChunkingIrrelevant | native/operator_guard.py:168-178 | a reply up to the frame size is gathered alike however it is cut |
| Observers.LongRepliesDependOnChunks | native/operator_guard.py:168-178 | every reply longer than the frame has one cut that is refused and one that is accepted, by reads the loop can make |
| Observers.CutsAgreeExactly | native/operator_guard.py:168-178 | all cuts of a reply are gathered alike exactly when it is no longer than the frame |
| OperatorGuard.Guard.Current | native/operator_guard.py:122-135 | a reading of the clock only while open, before the deadline, and before an open check's own deadline |
| OperatorGuard.FrameExactly | native/operator_guard.py:177-180 | a reply carries an observation exactly when it is the magic text and the three numbers packed in order |
| OperatorGuard.Guard.RequestCheck | native/operator_guard.py:147-160 | opens the next numbered check only from rest, at a clock reading taken here and before the deadline, from which its own deadline counts; failure is final |
| OperatorGuard.Guard.Receive | native/operator_guard.py:162-191 | accepts only the open check, from chunks that were read from its pipe since that check was requested and join to exactly one reply, finished at most 1000 ms before a clock reading taken here that is before both deadlines; failure is final |
| OperatorGuard.Guard.EveryReplyWasRead | native/operator_guard.py:162-191 | every accepted reply is exactly what was read from the pipe in a stretch of its own, and the stretches follow one another |
| OperatorGuard.Guard.Close | native/operator_guard.py:193-195 | closed, keeping every invariant of its history |
| SupplyGuard.Guard.Current | native/supply_guard.py:136-150 | as for the operator |
| SupplyGuard.FrameExactly | native/supply_guard.py:192-196 | the same, with the binding and the UTC packed after them |
| SupplyGuard.Guard.RequestCheck | native/supply_guard.py:161-175 | as for the operator, without a longer first check |
| SupplyGuard.Guard.Receive | native/supply_guard.py:177-208 | accepts only the open check for the expected binding, from the same reads and in the same time; observed UTC never goes back, below the floor or past 2^53-1 |
| SupplyGuard.Guard.EveryReplyWasRead | native/supply_guard.py:177-208 | the same for supply replies and their UTC |
| SupplyGuard.Guard.Accept | native/supply_guard.py:201-205 | phase, floor and last UTC move before the last look at the helper; lost there, the guard fails and returns nothing |
| RootSession.Session.Prepare | native/root_session_client.py:178-192 | at most one prepare request, from NEW only; failure is final |
| RootSession.Session.Observe | native/root_session_client.py:194-203 | an observe request only while held and within 1200 exchanges |
| RootSession.Session.Receive | native/root_session_client.py:239-286 | an answer returns to HELD only as the exact text for the root then seen mounted, from root and the one process that answered before, without descriptors; the bare end of a closing session ends it; anything else fails |
| RootSession.Session.HeardBeforeEffect | native/root_session_client.py:239-286 | whatever was heard before an effect was the exact text for the root looked at next, from the one controller process |
| RootSession.Session.Physical | native/root_session_client.py:205-237 | accepts only a root in its own bank, in a private stage on the bank's device, with both records as expected, and, once known, the same root by path and by the descriptor held |
| RootSession.Session.OneRoot | native/root_session_client.py:205-237 | any two looks of a run, however far apart, saw the same root in that bank |
| RootSession.Session.Finish | native/root_session_client.py:298-307 | a close request only while held |
| RootSession.Session.Abort | native/root_session_client.py:309-315 | closed and disconnected |
| RootSession.Session.RequestsFollowScript | native/root_session_client.py:178-307 | the requests in the record are one prepare, then observations, then at most one close |
| Channels.Channel.Receive | native/root_handoff.py:181-218 | from READY only, and only the bytes of this scope, from the launched child, with exactly two descriptors; a refusal fails the channel |
| Channels.Channel.Complete | native/root_handoff.py:227-244 | the reply is sent from RECEIVED only, once |
| EffectPermits.ActionsAreFresh | native/root_supervisor.py:71-200 | in the record of a run each effect follows, in order, its own boundary's beginning, a request to each observer and its reply, the admission, for a handoff the physical look, the consent, the admission of what is held, and two clock readings at most 1000 ms after what the replies say; nothing else was done in between |
| EffectPermits.ObservationsServeOnce | native/root_supervisor.py:159-200 | a later effect's boundary begins after an earlier effect, its requests follow the earlier replies, and the observed intervals do not overlap |
| EffectPermits.EffectsUseChecks | native/root_supervisor.py:159-200 | each effect uses up a check of its own, so there are no more effects than checks |
| Supervisor.Supervisor.OperatorStep | native/root_supervisor.py:88-96 | keeps exactly the newest operator observation; answers the open check, or asks a new one only when none is open and it is due |
| Supervisor.Supervisor.SupplyStep | native/root_supervisor.py:98-106 | the same for supply |
| Supervisor.Supervisor.Wait | native/root_supervisor.py:108-157 | without a target it returns only with both observers at rest past the asked numbers, with one only when a poll reports it before any fault or controller message; no earlier poll reported either; every request it makes is later than its start, and it does nothing else |
| Supervisor.Supervisor.Judge | native/root_supervisor.py:148-156 | one poll wakes the wait, leaves it or refuses it by the first report that matters |
| Supervisor.Supervisor.EffectCurrent | native/root_supervisor.py:173-180 | succeeds only with the consent, the admission of what is held, and two clock readings taken here, each at most 1000 ms after the last observation it judges, both observers at rest |
| Supervisor.Supervisor.FreshChecks | native/root_supervisor.py:159-170 | the boundary is recorded first; then both checks are requested and answered, and not requested again |
| Supervisor.Supervisor.Checkpoint | native/root_supervisor.py:159-171 | ends with those checks, the admission of this boundary after them, and last the consent, what is held, and two recent clock readings |
| Supervisor.Supervisor.Accept | native/root_supervisor.py:182-188 | at most two channels, each once; success ends with the worker's own genuine message, on a channel that was ready |
| Supervisor.Supervisor.Request | native/root_supervisor.py:208-209 | either nothing is done or the boundary begins at once and the request it is for, with its own permit, is the last event; then the session awaits that answer |
| Supervisor.Supervisor.Answered | native/root_supervisor.py:191-196 | returns true only when the controller was heard and the root looked at last, or at a close the controller's bare end was heard last; nothing is done meanwhile |
| Supervisor.Supervisor.CompleteHandoff | native/root_supervisor.py:190-200 | the same for the reply, whose permit holds the controller's answer to the request before it, the physical look and two clock readings after it |
| Supervisor.Supervisor.Prepare | native/root_supervisor.py:203-213 | success is the worker's message, one request, the controller's answer and then one reply, each effect with its own boundary and permit; failure does a prefix of the two effects and closes; a scope other than the session's, or a closed supervisor, does nothing |
| Supervisor.Supervisor.Reinspect | native/root_supervisor.py:215-231 | the same with an observation, only while the root is held, and only for its scope, deadline and identity |
| Supervisor.Supervisor.WaitReadable | native/root_supervisor.py:238-248 | waiting causes no effect, succeeds only when a poll reports the descriptor before a fault or the controller, failure closes, and a closed supervisor stays closed |
| Supervisor.Supervisor.Finish | native/root_supervisor.py:250-260 | closes however it ends; success is the close request with its permit, then the controller's bare end, and nothing after it |
| Supervisor.Supervisor.Close | native/root_supervisor.py:262-272 | session, channels and observers all end closed; the end is the one event recorded |
| Supervisor.Supervisor.EveryEffect | native/root_supervisor.py:108-274 | at any point of any run every effect so far was preceded, in order and in time, by all of that |
| Supervisor.Supervisor.EveryReplyWasAnswered | native/root_supervisor.py:190-200 | at any point of any run each reply to a worker follows the request it completes, the last effect before it, then the controller's exact text for the root looked at next, and then its own boundary |
| Supervisor.Supervisor.OneController | native/root_supervisor.py:190-200 | at any point of any run all that was heard before effects came with one process's credentials |
| Supervisor.Supervisor.NoSharedObservation | native/root_supervisor.py:108-274 | at any point of any run no observation has served two effects |
| Supervisor.Supervisor.EffectsAreBounded | native/root_supervisor.py:108-274 | at any point of any run there are at most as many effects as operator checks, so at most 1200 |
| Supervisor.Supervisor.ControllerScript | native/root_supervisor.py:203-260 | at any point of any run the controller has been sent one prepare, then observations, then at most one close |
| Supervisor.Supervisor.EveryAnswerWasRead | native/root_supervisor.py:88-106 | at any point of any run each recorded answer is exactly what was read from that observer's pipe in one stretch |
| Supervisor.Supervisor.OneRoot | native/root_supervisor.py:190-237 | at any point of any run all looks at the mounted root saw one root |
| Supervisor.Supervisor.NothingAfterClose | native/root_supervisor.py:71-74 | at any point of any run a supervisor whose close is recorded is closed, and no effect follows that close |
| LifecycleCheck.Expand | native/check_handoff_lifecycle.py:34-55 | one configuration is explored completely, or an unsafe edge is reported |
| LifecycleCheck.Check | native/check_handoff_lifecycle.py:26-58 | for any step function it terminates, and passes exactly when every reachable edge is safe and the coverage assertions hold; the counts are the graph's |
| LifecycleCheck.SafeSequences | native/check_handoff_lifecycle.py:43-52 | then every accepted event sequence keeps acknowledgments, completions, accepts, requests ordered and at most one, completes only acknowledged, never reopens, and a close leads to CLOSED |
| LifecycleCheck.HandoffSafe | native/root_handoff.py:54-69 | the runtime relation is safe |
| LifecycleCheck.HandoffCovers | native/root_handoff.py:54-69 | and reaches every phase and an acknowledgment |
| LifecycleCheck.CheckHandoff | native/check_handoff_lifecycle.py:26-58 | so the check passes on it |
| Deb822.Parse | tools/deb_archive.py:22-48 | the loop over lines computes the stanzas of the text or refuses it |
| Deb822.ParseInvertsRender | tools/deb_archive.py:22-48 | stanzas read back in order whatever the case of keys, blanks before values, marks of folded lines, blank lines around stanzas, end of the last line and kind of line ends |
| Deb822.StanzasExactly | tools/deb_archive.py:22-48 | a text within the size limit gives exactly the records it prints in one of those ways, and is refused when there are none |
| TarLinks.Follow | tools/deb_archive.py:176-185 | a hard link resolves exactly when a regular file is reached within 64 names, and to that file's digest |
| TarLinks.RevisitedIsLost | tools/deb_archive.py:177-180 | the cycle test never refuses a link that leads to a file |
| TarLinks.AncestorIsAbove | tools/deb_archive.py:172-174 | each joined prefix is a path the entry lies below |
| TarLinks.AboveIsAncestor | tools/deb_archive.py:172-174 | and each path the entry lies below is one of them |
| TarLinks.CheckAncestors | tools/deb_archive.py:172-175 | refuses exactly an entry below a recorded non-directory |
| TarLinks.CheckEntry | tools/deb_archive.py:171-185 | decides one entry and changes only its own resolved digest |
| TarLinks.ResolveLinks | tools/deb_archive.py:170-185 | the in-place pass accepts exactly when every entry fits, and then has resolved every link |
| InterimPackage.CheckManifest | native/interim_package.py:56-112 | accepts exactly ordered, duplicate-free manifests of well-formed advisories, digests and replacements, and returns their artifacts in order |
| InterimPackage.Encode | native/interim_package.py:128-142 | writes the one encoding of exactly the valid packages |
| InterimPackage.HeadLayout | native/interim_package.py:138 | magic and version, the size of the manifest in four bytes, the manifest |
| InterimPackage.PieceLayout | native/interim_package.py:139-141 | the digest in 32 bytes, the size in eight, the content |
| InterimPackage.Decode | native/interim_package.py:145-178 | reads one encoding, position by position, or refuses it |
| InterimPackage.DecodeInvertsEncode | native/interim_package.py:128-178 | a package reads back from its encoding |
| InterimPackage.EncodeInvertsDecode | native/interim_package.py:145-178 | accepted bytes are the encoding of what they decode to |
| InterimPackage.EncodingFits | native/interim_package.py:22-27 | a valid package never encodes past the size limit |
| CatalogQuery.Decode | native/catalog_query.py:77-127 | reads one frame, offset by offset, or refuses it |
| CatalogQuery.SnapshotLayout | native/catalog_query.py:77-88 | the offsets of magic, descriptor, both clock readings, count and rows |
| CatalogQuery.RowLayout | native/catalog_query.py:97-105 | the offsets of original, size and flags in the fixed bytes of a row |
| CatalogQuery.RowTexts | native/catalog_query.py:106-121 | name, version and architecture follow, each behind its length in two bytes |
| CatalogQuery.DecodeInvertsRender | native/catalog_query.py:77-127 | a valid snapshot reads back from its rendering |
| CatalogQuery.DecodeAcceptsOnlyRendering | native/catalog_query.py:77-127 | accepted bytes are the one rendering of a valid snapshot |
| CatalogQuery.RowsAreUnique | native/catalog_query.py:97-125 | originals strictly increase and no name and architecture repeat |
| CatalogListing.SelectRows | native/management_service.py:40-45 | exactly the selected packages, in order |
| CatalogListing.Selectors | native/management_service.py:32-36 | no operands select everything; refused exactly past 64 patterns, or for a pattern past 256 characters or with a slash or backslash |
| CatalogListing.Present | native/management_service.py:32-62 | the text is the listing of exactly the packages the operands select, refused when they select none or are refused themselves |
| CatalogListing.FieldsInvertColonLine | native/management_service.py:50-56 | splitting an escaped line on unescaped colons gives back its values |
| CatalogListing.ListingParses | native/management_service.py:39-62 | a colon listing splits into its lines, and each line into name, version, COMMITTED and architecture |
| CatalogListing.PlainListingParses | native/management_service.py:47-62 | the plain form splits at its tabs into the same four columns |
| RateLimiter.Limiter.Admit | native/management_service.py:86-97 | one query prunes every user, then admits or refuses, and the table is updated accordingly |
| RateLimiter.GrantedEntries | native/management_service.py:86-97 | a user's entry is always the live part of what that user was granted |
| RateLimiter.HistorySeen | native/management_service.py:91 | what a decision sees is exactly the user's grants younger than ten seconds |
| RateLimiter.RefusedExactly | native/management_service.py:86-97 | over any run, a query is refused exactly when four of its user were granted in the last 10000 ms, or none was and 1024 users had one granted in that time |
| RateLimiter.WindowBound | native/management_service.py:86-97 | any ten-second window admits at most four queries of one user |
| RateLimiter.TableBound | native/management_service.py:86-97 | never more than 1024 users, nor an empty or longer than four-entry list |

## Left out

- Supervisor.Supervisor.Wait: poll timeouts and the choice of descriptors only decide when a turn happens, so they are arbitrary answers of the environment.
- RootSession.Session.Receive: the expected text is a function of the observed identity, a parameter of the session.
- RootSession.Session.Physical: what the kernel and the files answer is arbitrary; how a mount is identified from its descriptor, and how the two record texts are written, is not modelled.
- Channels.Channel.Receive: the expected scope bytes are a parameter of the channel; descriptors are numbers, and their later checks and releases are arbitrary answers.
- TarClocks.Cursor.Next: read errors, the deadline and failed allocations, which only add failures; the clocks are returned instead of being stored into libarchive's entry.
- CompleteTree.Check: what the earlier passes established about the records (`RootTree.Observed`) is a precondition; directory reading and allocation faults and the deadline are left out.
- CompleteTree.QSort: the C library's sort and search are modelled by an insertion sort and a binary search with the same contracts.
- FinalSet.CheckFinal: each relation field arrives as the outcome of `Relations.Parse` on its text (unfolded to one line first in the report).
- InterimPackage.CheckManifest: the scalar fields (schema, label, description, release, architecture, dates, security epoch) are one predicate, because each is settled by reading it.
- CatalogListing.SelectRows: the shell-style pattern match of the Python library is a parameter.
- TriggerState.EncodeState: the JSON text is the document it denotes, with its exact length.
- Trigger declaration text, state and file activations (tools/debian_triggers.py:52-173): line splitting and set unions that feed `route`.
- `ar_members` and the reading loop of `tar_inventory`: one more framed reader beside those proved here, and Python's tarfile.
- Descriptors, process identities, mounts, polkit, cryptography, upstream clients, translation and terminal code: only their outcomes enter the models.
