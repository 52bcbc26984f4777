# vibeOS gate tools: a verified model

vibeOS is a kernel whose repository carries Python tools that gate and generate it. This project models
the algorithms and protocols among those tools, and one kernel routine, in Dafny and proves what they
promise:

- **Module cycles** (`Graphs`, `Tarjan`, `Cycles`): the explicit-stack Tarjan search of the module graph
  with its low-link and stack invariants, the two-way-edge rule, and the theorem that both lists, two-way
  pairs and long components, are empty exactly on the acyclic graphs.
- **The `ci-history` branch** (`HistoryFiles`, `HistoryProtocol`, `History`, `HistoryCalls`,
  `HistoryTries`, `HistoryReasons`, `HistorySpent`, `HistoryExamples`): any
  interleaving of writers that push optimistically and rotators that replace the branch under a lease,
  including pushes that take effect and are reported failed. What a tip has, every later tip has; a
  rotation takes exactly the oldest dated year and conserves the reported records; a writer touches only its
  own files; and how a whole call ends says exactly how often it moved the branch and tried to.
- **The system-call table compiler** (`Syscalls`, `SyscallCode`, `SyscallPath`): the emitted stubs,
  number tables and dispatch arms as expressions with a meaning, and the path from a stub's parameters to
  the handler's.
- **The YAML subset reader** (`Yaml`, `YamlParser`, `YamlLines`, `YamlProperties`, `YamlInline`,
  `YamlRoundTrip`, `YamlBody`, `YamlExamples`):
  the reader that rewrites its line buffer in place terminates, consumes every line with text once and in
  order, and gives back every printed tree, in block or flow style, plain or quoted, and every block scalar.
- **SPDX expressions** (`Spdx`, `SpdxText`, `SpdxGrammar`, `SpdxReader`): the texts that write a token list, the
  parser that distributes AND over OR while it reads, the language it accepts, and which part of that language is SPDX.
- **Stack sizes and call chains** (`StackSizes`, `CallGraph`): ULEB128 entries, breadth-first reachability
  with shortest call chains, and the functions over the bound.
- **Closures and resolution** (`Wave`, `Aliases`): the boxes of wave 1 as a least closed set, and name
  resolution through cyclic `use` aliases.
- **Pages** (`UserElf`, `Physmap`): page sharing between ELF segments, and filling gaps in the physmap.
- **Budget** (`Budget`): weekly job-hours and lane shares.

`Wrappers`, `Sets`, `Text` and `Order` hold the shared definitions (Python's `strip`, `sorted` and the
order of strings and lists).

Code that changes state is modelled as classes and methods with loops, each tied to a specification
function or predicate; the theorems are lemmas about those specifications. Exceptions are `None`,
`Unsupported`, `Crash` or `Panic` results.

## Where the code and its description differ

- `rotate` may raise after it has moved the branch: `HistoryExamples.RaisesAfterMoving`,
  `HistoryExamples.RaisesAfterReport`. A call that raises or returns None has moved it if and only if a push of
  its took effect and was reported failed, or its last push took effect and was reported and the command after
  it failed: `HistoryCalls.RotateCall`. What never happens is a partial rotation:
  `HistoryCalls.RotateCallConserves`.
- A year whose archive was released by a call that has ended, in whatever way, can never be rotated again, even
  if it is still on the branch: `HistorySpent.SpentForever`, `HistorySpent.SpentRaises`.
- A writer can bring its own file back after a rotation took it away: `HistoryExamples.OwnFileComesBack`;
  `History.PushTouchesOwn` says exactly when a file comes back.
- `commit_files` reports a stale checkout as unchanged: `HistoryExamples.StaleCheckout`. Unless one of the
  client's own unpushed commits wrote a path of the files, the report is right: `History.UnchangedHeld`.
- `commit_files` returns None though its push was reported, if the pushed commit is not found after it:
  `HistoryCalls.WriteCall`.
- `has` answers true for a rotated run whose file was no valid record: `HistoryExamples.InvalidFileListed`,
  and exactly then: `HistoryFiles.RotationHas`.
- An x86_64 number of 2^31 or more passes the table's checks and never reaches its handler:
  `SyscallPath.StubReachesHandler` is an equivalence.
- Two names the table accepts can give one enum variant: `SyscallPath.VariantsCanCoincide`; they do if and only
  if they have one canonical form: `SyscallPath.SameVariantExactly`. A variant can also be empty, start with a
  digit, be a keyword or hold a newline: `SyscallPath.VariantsNotNames`; when it is an identifier:
  `SyscallPath.VariantIsName`. A keyword with a newline after it is accepted as a name:
  `SyscallPath.NameExactly`.
- A flow mapping entry without a value raises IndexError instead of `Unsupported`:
  `YamlExamples.ReaderCrashes`; `YamlProperties.FlowCrashExactly` says on which flow texts.
- A doubled quote ends a single-quoted value for the comment scan, so `'it''s #1'` is cut at a comment:
  `YamlExamples.DoubledQuoteCuts`; `YamlInline.SingleExactly` says exactly when.
- The reader's tab test looks only at leading spaces, so it never fires:
  `YamlProperties.TabIndentNeverRefused`.
- `options` raises on a well-formed `(A OR B) AND C`, accepts the ill-formed `(A OR B) AND C D`, and takes any
  token after WITH: `Spdx.OptionsMeanExpr`, `SpdxGrammar.IllFormedAccepted`, `SpdxGrammar.AnyAfterWith`. What it
  accepts, and what of that is SPDX: `SpdxGrammar.AcceptedExactly`, `SpdxGrammar.WellFormedExactly`.
- In `map_gap` the step that would overflow cannot be reached; rounding the end up panics first:
  `Physmap.Rounded`.

## Model

| member | source | states |
|---|---|---|
| Tarjan.EnterInv | scripts/check_cycles.py:626-641 | indexing, stacking and framing a new node keeps the low-link and stack invariant |
| Tarjan.AdvanceInv | scripts/check_cycles.py:633-643 | moving the top frame's iterator past a node already indexed keeps the invariant |
| Tarjan.LowerInv | scripts/check_cycles.py:642-643 | lowering `low` to the index of a stacked node the frame's node reaches keeps the invariant |
| Tarjan.FoldInv | scripts/check_cycles.py:647-648 | folding a finished node's `low` into its parent's keeps the invariant |
| Tarjan.LeaveInv | scripts/check_cycles.py:644-658 | leaving a frame whose `low` is below its index keeps the invariant |
| Tarjan.AboveIsComponent | scripts/check_cycles.py:649-658 | when `low` equals the index of an exhausted top frame, the stack from its node up is exactly that node's strongly connected component |
| Tarjan.PopCompInv | scripts/check_cycles.py:649-658 | popping that component and listing it, if it has three or more nodes, keeps the invariant |
| Tarjan.IdleFacts | scripts/check_cycles.py:630-663 | with no work left the stack is empty and the list is right for every indexed node |
| Cycles.BuildAdjacency | scripts/check_cycles.py:613-616 | the adjacency map has every node and edge end, each with its targets in edge order |
| Cycles.SortedNodes | scripts/check_cycles.py:660-660 | the nodes in strictly ascending order, all of them |
| Cycles.Search.Enter | scripts/check_cycles.py:626-641 | the new state, and the invariant kept |
| Cycles.Search.Scan | scripts/check_cycles.py:633-643 | either a new node was entered or the iterator ended with nothing indexed, invariant kept |
| Cycles.Search.PopTo | scripts/check_cycles.py:650-656 | pops exactly the stack from the node up, each node once |
| Cycles.Search.TakeComponent | scripts/check_cycles.py:649-658 | pops one whole component and keeps the invariant |
| Cycles.Search.Leave | scripts/check_cycles.py:644-658 | one frame fewer, the same indices, invariant kept |
| Cycles.Search.Visit | scripts/check_cycles.py:624-658 | terminates with the node indexed, nothing un-indexed, and the idle invariant |
| Cycles.LongCycles | scripts/check_cycles.py:611-663 | returns exactly the strongly connected components of three or more nodes, each sorted and once, in sorted order |
| Cycles.LongComponentsUnique | scripts/check_cycles.py:611-663 | that specification fixes the result |
| Cycles.TwoWay | scripts/check_cycles.py:589-591 | exactly the pairs of modules with edges both ways, smaller name first, each once |
| Cycles.BuildEdges | scripts/check_cycles.py:555-567 | an edge for every pair of different nodes some reference joins, each once, and no self edge |
| Cycles.ShortCycle | scripts/check_cycles.py:586-663 | on a cycle in a component of under three nodes the first edge is two-way |
| Cycles.BothRules | scripts/check_cycles.py:586-663 | no two-way pair and no long component if and only if the graph has no cycle |
| Cycles.CheckCycles | scripts/check_cycles.py:666-672 | for any references: the edges, pairs and components, and both empty if and only if acyclic |
| HistoryFiles.RecordPath | scripts/ci_history.py:633-636 | the path names the workflow and its file name reads back as the run id |
| HistoryFiles.RecordExactly | scripts/ci_history.py:838-862 | the file at a run's path is reported if and only if it is a valid record of that run and of a known workflow |
| HistoryFiles.ArchivesExactly | scripts/ci_history.py:883-897 | the entries are those of the index, none without one, and an error if and only if another file is in its place |
| HistoryFiles.YearExactly | scripts/ci_history.py:1506-1521 | a run record belongs to the year it started in, else to the year it was created in, and a host record to the year its name starts with |
| HistoryFiles.ListedExactly | scripts/ci_history.py:1589-1593 | an archive lists a run if and only if it holds a file named by the run's id under the workflow |
| HistoryFiles.TagsDiffer | scripts/ci_history.py:1573-1573 | no two years share a tag |
| HistoryFiles.ArchivedExactly | scripts/ci_history.py:1572-1575 | the archive holds a path if and only if the branch holds it and it is dated with the year, with the same file |
| HistoryFiles.KeptExactly | scripts/ci_history.py:1594-1601 | every other path of the branch but the index stays with the same file, and no further one; the index gets the one entry of the archive |
| HistoryFiles.CopiesSplit | scripts/ci_history.py:1550-1601 | a rotation splits the copies of every record between the new branch and the archive |
| HistoryFiles.ArchivedCopiesGrow | scripts/ci_history.py:912-945 | further releases change no archived copy |
| HistoryFiles.RotationConserves | scripts/ci_history.py:865-945 | a rotation whose archive is released leaves every record's multiplicity in `records()` as it was |
| HistoryFiles.RotationHas | scripts/ci_history.py:876-881 | after a rotation `has` is true for a run if and only if it was before or the archive lists the run |
| HistoryProtocol.StartInv | scripts/ci_history.py:735-761 | the empty remote satisfies the protocol invariant |
| HistoryProtocol.WriteKeepsHas | scripts/ci_history.py:801-811 | writing good files takes no run away and leaves the archive index alone |
| HistoryProtocol.RotationKeepsHas | scripts/ci_history.py:1538-1614 | a rotation takes no run away |
| HistoryProtocol.MakeCommitInv | scripts/ci_history.py:813-836 | committing the call's files on the checked-out commit keeps the invariant and the tip |
| HistoryProtocol.PushInv | scripts/ci_history.py:813-836 | a push that takes effect, reported or not, keeps the invariant and makes the pusher's commit the tip |
| HistoryProtocol.LeaseInv | scripts/ci_history.py:1594-1614 | so does a leased push |
| HistoryProtocol.ReleaseInv | scripts/ci_history.py:1550-1601 | releasing, losing the report of a release, and reusing one keep the invariant and the tip |
| HistoryProtocol.StepInv | scripts/ci_history.py:735-836 | every step of every client keeps the invariant; only a push that takes effect moves the tip |
| HistoryProtocol.StepGrows | scripts/ci_history.py:1550-1614 | commits and releases are immutable |
| History.PushOnto | scripts/ci_history.py:813-836 | a push takes effect only if the old tip is an ancestor, and all that is new is the pusher's |
| History.LeaseOnto | scripts/ci_history.py:1594-1608 | a leased push takes effect only on the tip it read, and is that tip's rotation with its archive released |
| History.LeaseTakesOldest | scripts/ci_history.py:1558-1607 | a leased push that takes effect takes from the tip exactly the files dated with its oldest year, leaves every other file as it was, and lists the release that holds them |
| History.EveryLeaseTakesOldest | scripts/ci_history.py:1538-1614 | so does every leased push of every run from the empty remote |
| History.StepKeepsHas | scripts/ci_history.py:813-836 | no step takes a run away from the tip |
| History.HasForever | scripts/ci_history.py:876-881 | in every interleaving, once the tip has a run every later tip has it |
| History.Reachable | scripts/ci_history.py:813-836 | the invariant holds after every run |
| History.EveryRunKeeps | scripts/ci_history.py:876-881 | so from the empty remote every later tip has what a tip had |
| History.PushTouchesOwn | scripts/ci_history.py:813-836 | a push changes a path only if the pusher's own unpushed commits write it, and brings an absent path in if and only if they do |
| History.RunKept | scripts/ci_history.py:813-836 | in every run the tip has every run of every commit the remote ever held |
| History.PushedHolds | scripts/ci_history.py:813-836 | a push reported successful leaves the tip holding all the call's files |
| History.UnchangedHeld | scripts/ci_history.py:801-836 | finding nothing to change, unless one of the client's own unpushed commits wrote a path of the files, means that a commit the remote has held has all the files |
| History.UnchangedHolds | scripts/ci_history.py:801-836 | and then the tip has the call's runs, whatever happened since the checkout |
| History.RotationAllOrNothing | scripts/ci_history.py:1538-1614 | every step of a rotation leaves the multiset of reported records unchanged, and the tip as it was or without exactly the files of its oldest dated year, which are then a release the index lists |
| HistoryCalls.MovesArePushes | scripts/ci_history.py:813-836 | over any stretch of any run a client moves the tip once per push of its that takes effect |
| HistoryCalls.CallEnds | scripts/ci_history.py:1549-1614 | inside a call a push is reported at most once and then one more step ends the call, with the commit or the tag unless a command fails; every other end returns None or raises |
| HistoryCalls.RotateCall | scripts/ci_history.py:1538-1614 | over one whole call in any interleaving: it returns a tag if and only if it ends in a reported push and the rename after it; it moves the branch once per push that takes effect; raising or returning None it has moved the branch if and only if a push was misreported or the command after its reported push failed |
| HistoryCalls.WriteCall | scripts/ci_history.py:813-836 | the same of one whole call of `commit_files`: it returns the commit if and only if it ends in a reported push and finding that commit |
| HistoryCalls.RotateCallConserves | scripts/ci_history.py:1538-1614 | every step of a whole call, however it ends, leaves the reported records' multiset unchanged and the tip as it was or without exactly its oldest dated year |
| HistoryTries.TriesAdd | scripts/ci_history.py:824-836 | from anywhere inside a call, the pushes it still tries are at most those left, and it gives up if and only if it has tried them all and none was reported |
| HistoryTries.CallTries | scripts/ci_history.py:1550-1614 | one whole call of `rotate` or `commit_files`, in any interleaving, tries at most ten pushes; it gives up if and only if it tried ten and none was reported, `rotate` having renamed its branch after the tenth |
| HistoryReasons.RaisesRight | scripts/ci_history.py:1563-1588 | an error says what was so: nothing dated, nothing dated before the current year, the tag released by another call, or released by this one with other records |
| HistoryReasons.LeasesPlanned | scripts/ci_history.py:1565-1571 | in every run a leased push rotates a year that was over when the call chose it |
| HistoryReasons.OpenedUnchanged | scripts/ci_history.py:735-811 | a writer that opens the branch and at once finds nothing to change is right: the tip holds all its files |
| HistoryReasons.OpenedCommit | scripts/ci_history.py:735-827 | one that commits at once writes its files on the tip, and the branch can be moved to that commit |
| HistoryExamples.RaisesAfterMoving | scripts/ci_history.py:1563-1614 | a call that raises for want of a dated record after its own misreported push rotated the branch |
| HistoryExamples.RaisesAfterReport | scripts/ci_history.py:1604-1611 | a call that raises because the command after its reported push fails, with the branch rotated and no push misreported |
| HistorySpent.EveryEndSpends | scripts/ci_history.py:1575-1588 | in every run a call that ends, in whatever way, leaves each tag it released spent: released, and by no call still going on |
| HistorySpent.LostReleaseSpends | scripts/ci_history.py:1582-1588 | so does a release created and reported failed, with the branch as it was |
| HistorySpent.SpentForever | scripts/ci_history.py:1575-1611 | in every run a spent tag stays spent and no call returns it anew |
| HistorySpent.SpentCall | scripts/ci_history.py:1538-1614 | no whole call of `rotate` begun then returns the tag |
| HistorySpent.SpentLease | scripts/ci_history.py:1604-1607 | nor does any push in any such run lease it |
| HistorySpent.SpentRaises | scripts/ci_history.py:1578-1588 | a call that has chosen a year with a spent tag raises next, without moving the branch |
| HistoryExamples.OwnFileComesBack | scripts/ci_history.py:822-836 | a run in which a misreported writer restores its own rotated file |
| HistoryExamples.StaleCheckout | scripts/ci_history.py:801-821 | a run in which the call reports nothing to change though the branch never held the file |
| HistoryExamples.InvalidFileListed | scripts/ci_history.py:1589-1593 | an invalid run file `has` denies before a rotation and affirms after |
| HistoryExamples.GoodExactly | scripts/ci_history.py:813-836 | non-empty files keep every run of every branch if and only if they are good |
| Syscalls.CheckArgs | scripts/gen_syscalls.py:366-424 | argument names pass if and only if they are identifiers and distinct |
| Syscalls.Parse | scripts/gen_syscalls.py:425-500 | rows are returned if and only if each is well formed and no two share a name or an architecture's number, in order; each has its table row's name, arguments and both numbers, and register j the argument `aarch64_order[j]` names, or argument j without an order |
| SyscallCode.CTypeExactly | scripts/gen_syscalls.py:697-699 | the Rust type of a C type has exactly its values |
| SyscallCode.CutBack | scripts/gen_syscalls.py:697-699 | cutting the 64-bit extension of a value of a C type back to that type gives the value |
| SyscallCode.CastRoundTrip | scripts/gen_syscalls.py:979-986 | the kernel cast undoes the stub's cast on every value of the argument's type |
| SyscallCode.SlotHolds | scripts/gen_syscalls.py:728-737 | a slot holds a variant if and only if a row has that number and variant |
| SyscallCode.LookupExactly | scripts/gen_syscalls.py:218-225 | `lookup` names a row if and only if the low 32 bits, signed on x86_64, are its number |
| SyscallCode.NumberExactly | scripts/gen_syscalls.py:232-236 | `number` gives n if and only if a row with that variant has number n |
| SyscallCode.LookupThenNumber | scripts/gen_syscalls.py:218-236 | `number` of what `lookup` found is the number the register named |
| SyscallCode.NumberThenLookup | scripts/gen_syscalls.py:218-236 | `lookup` of a row's number finds the row if and only if the number is below 2^31 (x86_64) or 2^32 (aarch64) |
| SyscallPath.TableNumbers | scripts/gen_syscalls.py:448-457 | in an accepted table names and each architecture's numbers differ, and no row has more than six arguments |
| SyscallPath.OrderIsPermutation | scripts/gen_syscalls.py:473-481 | the parsed `aarch64_order` gives every argument exactly one register |
| SyscallPath.CallRow | scripts/gen_syscalls.py:743-757 | `call` with a row's variant runs that row's arm, or answers ENOSYS if the row has no number |
| SyscallPath.DispatchExactly | scripts/gen_syscalls.py:758-769 | a number that is some table row's for the architecture runs that row's handler, and any other calls no handler |
| SyscallPath.ReachesHandler | scripts/gen_syscalls.py:706-772 | registers holding the extended arguments reach the row's handler with the same values if and only if the register rule can name the number |
| SyscallPath.StubReachesHandler | scripts/gen_syscalls.py:1143-1150 | with the x86_64 number of a table row, its stub reaches exactly its handler with its own arguments if and only if the number is below 2^31 |
| SyscallPath.OrderReachesHandler | scripts/gen_syscalls.py:743-757 | with the aarch64 number of a table row and each argument in the register `aarch64_order` gives it, the handler gets the arguments in canonical order if and only if the number is below 2^32 |
| SyscallPath.CanonCamel | scripts/gen_syscalls.py:297-299 | a name and its canonical form have one variant |
| SyscallPath.SnakeOfCamel | scripts/gen_syscalls.py:297-299 | a canonical name is recovered from its variant |
| SyscallPath.SameVariantExactly | scripts/gen_syscalls.py:297-299 | two names give one variant if and only if they have one canonical form |
| SyscallPath.VariantsDifferExactly | scripts/gen_syscalls.py:297-299 | the variants of an accepted table differ if and only if the canonical forms of its names do |
| SyscallPath.VariantStarts | scripts/gen_syscalls.py:297-299 | a variant starts with a capital if and only if the canonical name starts with a letter |
| SyscallPath.NameExactly | scripts/gen_syscalls.py:358-363 | a name is accepted if and only if it is a Rust identifier or `_`, no keyword, and without capitals; with a newline at its end, a keyword is accepted too |
| SyscallPath.VariantIsName | scripts/gen_syscalls.py:297-363 | the variant of an accepted name is an identifier and no keyword if and only if the canonical name starts with a letter and is not `self` and no newline ends the name |
| SyscallPath.VariantsNotNames | scripts/gen_syscalls.py:358-363 | accepted names whose variants are empty, start with a digit, are a keyword and hold a newline |
| SyscallPath.VariantsCanCoincide | scripts/gen_syscalls.py:297-299 | an accepted table two of whose names give one variant |
| YamlParser.ScanAll | scripts/check_workflows.py:127-139 | the line buffer of the whole text |
| YamlParser.Parser.SkipBlank | scripts/check_workflows.py:141-143 | stops at the next line with text, consuming none |
| YamlParser.Parser.ReadBlockScalar | scripts/check_workflows.py:251-278 | reads the literal or folded body and consumes exactly its lines with text |
| YamlParser.Parser.ReadBlock | scripts/check_workflows.py:162-167 | reads what the block function says and consumes its lines in order |
| YamlParser.Parser.ReadMap | scripts/check_workflows.py:169-195 | the mapping, or the same error, with buffer and position as specified |
| YamlParser.Parser.ReadSeq | scripts/check_workflows.py:197-220 | the sequence, with the line of each mapping item rewritten in place |
| YamlParser.Parser.ReadValue | scripts/check_workflows.py:222-249 | the value after a key or dash |
| YamlParser.ParseText | scripts/check_workflows.py:152-160 | terminates on every text; a tree is returned only after every line with text was consumed, once and in order |
| YamlLines.BlockKept | scripts/check_workflows.py:162-220 | every line keeps its number and comment, and its text unless that is a `- key: value`, which may become what stands after the dash |
| YamlLines.ParsedLines | scripts/check_workflows.py:152-278 | in every returned tree each line, unless empty or a lone dash, became the line of a node or a line of a block scalar's text |
| YamlProperties.MapBlockKeys | scripts/check_workflows.py:169-195 | a block mapping has distinct keys, each entry on a later line than the one before |
| YamlProperties.ParsedKeys | scripts/check_workflows.py:152-195 | in every returned tree every mapping has distinct keys on ever later lines, or, as a flow mapping, all entries on one line |
| YamlProperties.TabIndentNeverRefused | scripts/check_workflows.py:132-138 | a line is refused if and only if it is a document marker; the tab test never fires |
| YamlProperties.FlowEntriesCrash | scripts/check_workflows.py:339-348 | flow entries raise IndexError if and only if, before any entry is refused, one has a key and no value |
| YamlProperties.FlowItemsNeverCrash | scripts/check_workflows.py:332-338 | flow sequences never do |
| YamlProperties.FlowCrashExactly | scripts/check_workflows.py:294-348 | a flow text raises IndexError if and only if it is a `{`, closed by `}` with only white space after it, one of whose entries has a key and no value while all before it read |
| YamlProperties.CrashNeedsEmptyFlowValue | scripts/check_workflows.py:152-348 | the reader fails otherwise than by `Unsupported` only on a text one of whose lines has, after its dashes and key, such a flow mapping |
| YamlProperties.ValueRefuses | scripts/check_workflows.py:222-249 | anchors, aliases and tags are refused, and so is a deeper line after a value that ends on its own line |
| YamlProperties.MapRefuses | scripts/check_workflows.py:169-195 | a mapping refuses a deeper line, a line without a key, a merge key, and a key it has already |
| YamlInline.QuotedReads | scripts/check_workflows.py:280-292 | every value in single quotes, doubled inside, or in double quotes, escaped inside, reads as itself |
| YamlInline.QuotedKey | scripts/check_workflows.py:111-121 | a quoted key is split from its value |
| YamlInline.SingleExactly | scripts/check_workflows.py:86-104 | no comment is found in a single-quoted value unless a `#` follows white space after a quote of its own, and then, without a double quote in the value, one is |
| YamlInline.EscapesExactly | scripts/check_workflows.py:280-285 | a backslash is dropped before a slash, a quote or a backslash, and stays before a character that is no escape |
| YamlInline.DoubleQuiet | scripts/check_workflows.py:86-104 | no comment is found in a double-quoted value, after white space, a bracket, a brace, a comma or a colon |
| YamlInline.CommentSplits | scripts/check_workflows.py:86-104 | after a text without quotes or a comment of its own, ` #` starts the comment |
| YamlInline.FlowReads | scripts/check_workflows.py:294-349 | `[a, b]` and `{a, b}` of any plain or quoted parts are taken apart into exactly those parts, in order |
| YamlRoundTrip.FlowItemsRead | scripts/check_workflows.py:332-338 | the parts of a flow sequence read as scalar items with their values, in order |
| YamlRoundTrip.FlowEntriesRead | scripts/check_workflows.py:339-349 | the parts of a flow mapping read as its keys and values, in order |
| YamlRoundTrip.ShowsUnique | scripts/check_workflows.py:162-249 | a node shows at most one tree, its styles aside |
| YamlRoundTrip.ValueReads | scripts/check_workflows.py:222-249 | a printed value, in block or flow style, plain or quoted, is read back from wherever it stands |
| YamlRoundTrip.EntriesRead | scripts/check_workflows.py:169-195 | so are printed mapping entries |
| YamlRoundTrip.ItemsRead | scripts/check_workflows.py:197-220 | so are printed sequence items, through the rewrite of `- key: value` lines |
| YamlRoundTrip.RoundTrip | scripts/check_workflows.py:152-349 | for every tree of non-empty mappings with distinct plain keys, non-empty sequences, scalars and nulls, in block style, indented or flush with the key, or, of scalars, in flow style, and plain or quoted so that no comment is found, reading its printing gives the tree back |
| YamlBody.BlockScalarReads | scripts/check_workflows.py:251-278 | a literal block scalar reads as its lines joined by newlines and a folded one as its lines joined by spaces, at any indentation and in any surroundings; empty lines after it are dropped |
| YamlBody.DocumentReads | scripts/check_workflows.py:152-278 | a text of one key with a block scalar below it parses to that key with that value and line |
| YamlExamples.FlowEmptyValueCrashes | scripts/check_workflows.py:294-348 | `{a:}` is an IndexError |
| YamlExamples.ReaderCrashes | scripts/check_workflows.py:152-348 | so is the text `k: {a:}` |
| YamlExamples.DoubledQuoteCuts | scripts/check_workflows.py:86-104 | `'it''s #1'` reads as `it's #1`, and is cut at a comment before it is read |
| SpdxReader.Tokenize | scripts/check_provenance.py:179-194 | the token list the text writes, or a ValueError if and only if it writes none |
| SpdxReader.Reader.ReadAtom | scripts/check_provenance.py:213-226 | what the atom function reads, and where it stops |
| SpdxReader.Reader.ReadDistributed | scripts/check_provenance.py:232-232 | one operand read per option on the left, each option joined with the options of its own operand |
| SpdxReader.Reader.ReadConj | scripts/check_provenance.py:228-233 | what the AND-chain function reads |
| SpdxReader.Reader.ReadAlt | scripts/check_provenance.py:235-240 | what the OR-chain function reads |
| SpdxReader.ReadOptions | scripts/check_provenance.py:197-245 | the options of the whole text, or a ValueError |
| SpdxReader.IsNoticeOnly | scripts/check_provenance.py:248-254 | true if and only if the text writes a token list that parses and some option is made only of notice-only ids |
| Spdx.TokensOfRender | scripts/check_provenance.py:182-194 | tokens written with spaces between them are read back |
| SpdxText.TokensExactly | scripts/check_provenance.py:179-194 | a text is read as a token list if and only if it is those tokens with any white space between them, which only two ids need |
| SpdxText.OperatorsExactly | scripts/check_provenance.py:201-240 | AND, OR and WITH are recognised in either case, OR also as a slash, and every other token but a parenthesis is a word |
| Spdx.ExprParses | scripts/check_provenance.py:213-240 | on a well-formed expression anywhere in the tokens the parser returns its options and stops after it, or raises |
| Spdx.OptionsMeanExpr | scripts/check_provenance.py:197-245 | on a well-formed expression `options` returns if and only if only the last operand of each AND chain has alternatives, and then its options mean the expression under SPDX precedence (section D.4.5 of the SPDX Specification 2.3) |
| Spdx.NoticeOnlyExactly | scripts/check_provenance.py:248-254 | `notice_only` accepts a well-formed expression if and only if `options` returns and the notice-only ids satisfy it |
| SpdxGrammar.AcceptedExactly | scripts/check_provenance.py:197-245 | for every token list: accepted if and only if a tree of the reader's own grammar writes it; the tree is unique and its options are returned |
| SpdxGrammar.WellFormedExactly | scripts/check_provenance.py:213-240 | an accepted list is an SPDX expression's if and only if, in its tree, every AND takes one operand and every WITH is followed by a word |
| SpdxGrammar.NoticeOnlyOfTokens | scripts/check_provenance.py:248-254 | `notice_only` accepts a token list if and only if its tree has an option made only of notice-only ids |
| SpdxGrammar.NoticeOnlyOfAll | scripts/check_provenance.py:248-254 | that is, an expression in the reader's form which the notice-only ids satisfy, or no expression and misread with a notice-only option |
| SpdxGrammar.IllFormedAccepted | scripts/check_provenance.py:228-233 | every list `( x OR y ) AND u v` is accepted, none is an expression, and it passes `notice_only` if x and u are notice-only |
| SpdxGrammar.AnyAfterWith | scripts/check_provenance.py:221-225 | `x WITH t` is accepted for every token t, and is an expression if and only if t is a word |
| StackSizes.ReadUleb | scripts/check_stack_sizes.py:95-106 | the number and the offset after it, or a truncation |
| StackSizes.UlebRoundTrip | scripts/check_stack_sizes.py:95-106 | any natural number, encoded, is read back and passed, whatever surrounds it (section 7.6 of DWARF Version 5) |
| StackSizes.UlebCut | scripts/check_stack_sizes.py:95-106 | cut anywhere inside, it is rejected |
| StackSizes.ParseStackSizes | scripts/check_stack_sizes.py:109-120 | the section's sizes, or a truncation |
| StackSizes.StackSizesRoundTrip | scripts/check_stack_sizes.py:109-120 | any prefix of an encoded list is accepted if and only if it ends between entries, and then gives each address its largest size |
| CallGraph.Shortest | scripts/check_stack_sizes.py:262-277 | no call path from a root is shorter than the search's distance |
| CallGraph.SearchedExactly | scripts/check_stack_sizes.py:262-277 | the parent map holds a function if and only if a root reaches it |
| CallGraph.Expand | scripts/check_stack_sizes.py:272-276 | looking at a function's calls keeps the breadth-first invariant |
| CallGraph.Reachable | scripts/check_stack_sizes.py:262-277 | terminates with exactly the reached functions and a parent tree of shortest chains |
| CallGraph.Chain | scripts/check_stack_sizes.py:280-285 | terminates with a call path from a root that no other is shorter than |
| CallGraph.Violations | scripts/check_stack_sizes.py:324-333 | exactly the reached functions over the bound, each once with its frame and a shortest chain, largest first; none if and only if every reached frame is within the bound |
| Wave.MatchKey | scripts/gatelib.py:138-154 | the one line that holds the key, if it is a box; an error in every other case |
| Wave.HoldsExactly | scripts/gatelib.py:138-154 | a line holds a key if and only if it is the key with some text before and after |
| Wave.NeedsEdges | scripts/gatelib.py:232-248 | an edge if and only if some row's key names the one box and one of its needs names the other |
| Wave.Cited | scripts/gatelib.py:270-279 | exactly the boxes before the end of the closed scope that cite a finding rated critical or high and not latent |
| Wave.AddRoots | scripts/gatelib.py:280-287 | adds exactly the boxes the phase-10 roots name |
| Wave.Close | scripts/gatelib.py:289-297 | terminates, on cycles too, with the least set that holds the seeds and is closed under needs |
| Wave.WaveOneLines | scripts/gatelib.py:251-297 | the least set of lines that holds the urgent boxes and the roots and is closed under needs; all of them boxes |
| Aliases.Lookup | scripts/check_safety.py:220-239 | terminates on every module graph with the answer the specification gives under `seen` |
| Aliases.RouteExactly | scripts/check_safety.py:209-254 | a `use` path starts at the crate, at its own module, at its parent or at `vibeos` as its first name says, and else at its own module if that has the name as a child or alias, or at the crate root |
| Aliases.OwnMeaning | scripts/check_safety.py:220-239 | a loaded child module is the one meaning of its name; any other name a module defines or implements methods for means that item |
| Aliases.WalkUse | scripts/check_safety.py:241-269 | the target of a `use` path, or none |
| Aliases.DerivedItem | scripts/check_safety.py:220-269 | every item a name can mean is a definition or an impl type of a loaded module |
| Aliases.OneModule | scripts/check_safety.py:220-269 | a name means at most one module |
| Aliases.FindsModule | scripts/check_safety.py:220-269 | the search finds a module meaning if nothing already seen has one as shallow |
| Aliases.LookupExactly | scripts/check_safety.py:220-269 | the guard against cycles costs no answer: a name is answered if and only if it means something, with a module if and only if it means that module, else with an item of a loaded module |
| Aliases.ItemExactly | scripts/check_safety.py:220-269 | a name that means no module is answered with the last definition on the trail of its aliases before that ends or repeats, so with an alias's item before its own |
| Aliases.FindImpl | scripts/check_safety.py:300-303 | true if and only if some module of the crate has such an impl item |
| Aliases.Resolves | scripts/check_safety.py:272-297 | true if and only if, from where the path starts, its names lead through modules to an item or an impl item |
| Aliases.LeadsToItem | scripts/check_safety.py:272-297 | a path that resolves ends at an item of a loaded module or of an impl in one |
| UserElf.MeetExactly | scripts/check_user_elf.py:75-84 | two non-empty stretches' whole pages meet if and only if some 4 KiB page holds a byte of both |
| UserElf.CheckHeaders | scripts/check_user_elf.py:150-165 | exactly the interpreter, dynamic, past-2-GiB and writable-and-executable headers are reported |
| UserElf.CheckPairs | scripts/check_user_elf.py:166-175 | sharing is reported for exactly the pairs with a page that holds a byte of both, in memory or in the file |
| UserElf.CheckSegments | scripts/check_user_elf.py:150-175 | exactly these problems, for any headers |
| UserElf.AcceptedLoads | scripts/check_user_elf.py:166-175 | a list without memory sharing, loaded page by page in any order over any memory, keeps every segment's bytes (Program Loading, chapter 5 of the System V gABI) |
| UserElf.SharingLoses | scripts/check_user_elf.py:166-175 | a list with sharing that loses a byte |
| Physmap.Rounded | src/acpi/acpi_init.rs:42-62 | the loop's pages are exactly those that touch the range, and rounding overflows if and only if `phys + len` is above 2^64 - 4096 |
| Physmap.FilledOwn | src/acpi/acpi_init.rs:62-72 | filling gaps keeps every physmap page at its own frame |
| Physmap.CanonicalExactly | src/acpi/acpi_init.rs:62-72 | every missing page has a canonical address if and only if every page from 2^48 on is already mapped |
| Physmap.Machine.Map4k | src/mm/paging_init.rs:315-321 | one fresh leaf where none was, or an error and no leaf |
| Physmap.Machine.MapGap | src/acpi/acpi_init.rs:55-79 | true if and only if every page that touches the range is mapped, and if and only if every missing page has a canonical address and none of its calls, one for each page it maps, is refused; earlier leaves are unchanged, new ones are pages of the range at their own frames; it panics if and only if the rounded end overflows |
| Physmap.Machine.Read | src/acpi/acpi_init.rs:22-40 | true if and only if the buffer is empty, or the end does not overflow and the gaps were filled; the buffer then holds what the processor reads, which is exactly the requested physical bytes where the physmap shows pages at their own frames; else the buffer is unchanged |
| Budget.DisjointFits | scripts/ci_history.py:1287-1288 | runs that never overlap fill no window more than once |
| Budget.OverlapExactly | scripts/ci_history.py:1287-1288 | a run inside a window overlaps it by its length, and one apart from it by nothing |
| Budget.Tally | scripts/ci_history.py:1343-1361 | per week, each workflow's hours and each lane's share are the summed overlaps of its jobs |
| Budget.HoursSum | scripts/ci_history.py:1331-1361 | over consecutive weeks a row sums to its jobs' run time inside the weeks' union |
| Budget.AllHours | scripts/ci_history.py:1331-1361 | if all the jobs ran inside the weeks, a row sums to the whole time they ran |
| Budget.ShareAtMostOne | scripts/ci_history.py:1356-1361 | a lane whose jobs never overlap has a weekly share between 0 and 1 |

## Left out

- Subprocesses, the `git` and `gh` command lines, the network, tar, zstd and file access. The remote is a
  tip with fast-forward and lease checks, a digest stands for the archive it is of, and a release is
  created once and never changed.
- `ci_history.py`: a local archive file that `_archive_records` prefers to the released one and a refused
  `rotate` may have overwritten; files a failed `git commit` leaves staged, which the next call without `open`
  commits too; which attempt of a run wins, host records under `records/` other than their moving, the
  retry delays, schema details below a record's top level, and digits other than ASCII ones.
- `budget`: waits, problem texts, the choice of weeks and floating-point rounding; seconds are real numbers.
- `check_cycles.py`: the tokenizer, the resolver and the rules other than the two on cycles; the references
  and their nodes are inputs.
- `gen_syscalls.py`: TOML, C type texts, what each address argument points at, error lists and documents; a table without a
  number for an architecture, on which `render_arch` raises.
- `check_workflows.py`: splitting the text into lines, which is given as a list, the error messages, and the
  rules on the parsed tree. `_flow` is modelled on values.
- YamlProperties.CrashNeedsEmptyFlowValue: one direction only, because such a line may stand in a block scalar,
  or after a line that is refused first; the exact condition is given per flow text by
  `YamlProperties.FlowCrashExactly`.
- History.UnchangedHeld: one direction only, because the remote may hold the same files from another writer
  although an own unpushed commit wrote them too.
- `check_provenance.py`: upper-casing beyond ASCII letters, and everything but the expression reader.
- `check_stack_sizes.py`: reading ELF sections and disassembly, so the call edges are an input; the list of
  known exceptions.
- `gatelib.py`: parsing roadmap, review and needs files; lines come with their box, scope and citation marks.
- `check_safety.py`: loading modules from files, comment scanning and its other rules. What loading ensures,
  that a module is stored under its own crate and path and no alias is empty, is a precondition.
- `check_user_elf.py`: decoding the headers from bytes, section headers and symbols.
- `acpi_init.rs`: table parsing, the uncacheable patch and the HPET. A 2 MiB leaf counts as its 4 KiB pages,
  page-table frames as a yes or no per call, and a copy that would run past the end of the address space
  wraps.
- The other gates and documents checkers, which are mostly single-branch rules over regular expressions.
