# Verified model of the sqlite3 extension toolkit

This project models, in Dafny, the parts of the C++ toolkit in `include/` whose correctness is hardest to see
by reading, and proves what they promise. `dafny verify dfyconfig.toml` checks everything.

**Concurrent protocols.** Threads are program counters, memory is sequentially consistent, and every atomic
operation or critical section is one step. A run is any finite list of steps of any number of threads. Beside
each protocol stands a class whose methods perform the operations in place, with the other threads' steps in the
gaps, and whose contracts tie the new state to the protocol.

- `SmartPtr.dfy`, `SmartPtrInvariant.dfy`, `SmartPtrHeap.dfy`: `SqliteSharedPtr` and `SqliteWeakPtr`. The
  counters are exact in every run, the deleter and the final free happen at most once and not too early, no step
  touches a freed block, `lock()` is linearizable and ends after two undisturbed turns. The objects follow the class of C++17 section 23.11.2.
- `TinyLock.dfy`: the spinlock and the wait/notify lock (`memory.atomic.wait32` and notify of the WebAssembly
  threads proposal). Mutual exclusion, no lost wakeup, and why the no-lost-wakeup condition is the right one.
- `Registry.dfy`, `RegistryCalls.dfy`, `HybridState.dfy`: the keyed registries behind `SqliteExtState`,
  `SqliteConnState` and `SqliteHybridState`, with resurrection of an entry during its teardown and with the
  optimistic construction race of connection states.

**Virtual-table arguments.** Scanners, keyword search, column and constraint parser, classifier, DDL formatter and
parameter schema of `sqlite3_vtab_arg.hpp` (`VTabText.dfy`, `VTabGrammar.dfy`, `VTabKeywords.dfy`, `VTabSpelling.dfy`,
`VTabColumn.dfy`, `VTabConstraint.dfy`, `VTabConstraintRoundTrip.dfy`, `VTabArg.dfy`, `VTabArgKinds.dfy`,
`VTabDdl.dfy`, `VTabDdlItems.dfy`, `VTabSchema.dfy`, `VTabSchemaExact.dfy`). The loops of the source are methods proved
against functions on the rest of the text; the functions are then related to printers, to a character-by-character
quote scanner, to the spelled words of a text, and to each other.

**Hashing and rows.** MurmurHash64A, `combine` and Bloom probing (`Murmur.dfy`, `Bloom.dfy`, on the words of
`Words.dfy`), with known values worked out on numerals (`MurmurKnown.dfy`,
`Numerals.dfy`), and the operators and hash of row views (`Rows.dfy`).

## Where the code does less than its documentation

- `docs/EXT_STATE_ARCHITECTURE.md` (section 7) says that re-checking the count under the lock always prevents a use
  after free. That holds if at most one thread per entry is between "the decrement returned zero" and the erase
  (`NeverTouchesDeleted`, `TeardownIsSafe`, with resurrection allowed: `OneResurrectionIsFine`). Without this it
  fails: `SecondReleaseIsNot` is a concrete run, and `DisciplineIsSafety` shows that the hypothesis is exact: a
  release keeps it iff every continuation that keeps it touches only entries that have not been deleted.
- `generated_expression()` does not look at what precedes `AS` (`AliasIsMistaken`; `AliasWitness` is an input).
  `GeneratedExactly` says when it reads the expression behind an `AS` back, for all balanced expressions: iff no
  earlier `AS (` is met outside literals, at whatever boundary, and every literal before it is closed.
- Constraint and column names come back with doubled quotes still doubled, so unchanged iff they contain none
  (`NamesSurviveIff`).
- If a key is repeated, `parse` and the getters can disagree (`RepeatedKeyDiffers`), and an enum binding writes -1
  where `get_enum` keeps the default (`EnumUnknownDiffers`). `AgreementIsExact` gives the condition on the
  parameter texts, for bindings of every type and any number of matching parameters, under which they agree for
  every number scanner and every old content; `EnumAgreesIff` gives it for one old content of an enum output.

## Model

| member | source | states |
|---|---|---|
| SmartPtrInvariant.CountersAreExact | include/sqlite3_smart_ptr.hpp:48-68 | in every run of any number of threads, strong count = live shared handles, weak count = live weak handles + 1 until the shared handles' common reference is dropped |
| SmartPtrInvariant.StepKeepsInv | include/sqlite3_smart_ptr.hpp:48-260 | every atomic step of every operation keeps the exact counters, the lifecycle of object and block, and the facts lock() relies on |
| SmartPtrInvariant.NeverTouchesFreed | include/sqlite3_smart_ptr.hpp:48-260 | no step of any run reads or writes a control block that has been freed |
| SmartPtrInvariant.DeleterRunsOnceAfterLastHandle | include/sqlite3_smart_ptr.hpp:48-62 | the deleter is called only with no shared handle left, for the first time, and the block still points to its object |
| SmartPtrInvariant.NoDoubleDelete | include/sqlite3_smart_ptr.hpp:81-95 | no object handed to a constructor is deleted twice, also when its control block cannot be allocated |
| SmartPtrInvariant.AtRestNothingLeaks | include/sqlite3_smart_ptr.hpp:48-62 | with no thread inside an operation: deleted iff no shared handle owns the object, freed (once) iff no handle of either kind is left |
| SmartPtrInvariant.ExpiryIsForever | include/sqlite3_smart_ptr.hpp:246-267 | once the strong count is zero it never becomes positive again, whatever the threads do |
| SmartPtrInvariant.LockIsLinearizable | include/sqlite3_smart_ptr.hpp:254-267 | in every run lock() takes effect at one step: a handle at a successful CAS on a living object, or empty at a step where the object is dead; its other steps change nothing |
| SmartPtrInvariant.StepMovesHandles | include/sqlite3_smart_ptr.hpp:48-267 | which handles every step adds, renames and removes, and on which block: independent of the counters |
| SmartPtr.CasSucceeds | include/sqlite3_smart_ptr.hpp:258-263 | a CAS that meets the positive count the thread has read ends lock() with one more handle of that block, from count 1 on |
| SmartPtr.LockCompletes | include/sqlite3_smart_ptr.hpp:254-267 | from any point of the loop, two turns without other threads and spurious failures end the call: with a handle iff some shared handle owns the object |
| SmartPtr.LockAlone | include/sqlite3_smart_ptr.hpp:254-267 | a whole call of lock() on its own returns a handle iff some shared handle owns the object |
| SmartPtr.TearDownFinishes | include/sqlite3_smart_ptr.hpp:48-62 | release() always comes to its end, with the invariant intact, whatever other threads do between its steps |
| SmartPtr.Heap.Construct | include/sqlite3_smart_ptr.hpp:81-95 | null gives an empty handle; a failed block allocation deletes the object at once; otherwise the handle is the only owner |
| SmartPtr.Heap.Copy | include/sqlite3_smart_ptr.hpp:99 | a copied handle is exactly one protocol increment; an empty handle copies to an empty one |
| SmartPtr.Heap.Move | include/sqlite3_smart_ptr.hpp:103-105 | the reference changes hands and no counter moves |
| SmartPtr.Heap.Release | include/sqlite3_smart_ptr.hpp:48-62 | decrement, then with interference: deleter, clearing, dropping the common weak reference, free; the thread ends outside |
| SmartPtr.Heap.CopyAssign | include/sqlite3_smart_ptr.hpp:112-119 | nothing on self-assignment; otherwise release, then copy what the source holds afterwards |
| SmartPtr.Heap.MoveAssign | include/sqlite3_smart_ptr.hpp:123-130 | nothing on self-assignment; otherwise release, then move |
| SmartPtr.Heap.WeakCreate | include/sqlite3_smart_ptr.hpp:197-199 | one weak increment on the block of the shared handle |
| SmartPtr.Heap.WeakCopy | include/sqlite3_smart_ptr.hpp:202 | one weak increment on the block of the weak handle |
| SmartPtr.Heap.WeakRelease | include/sqlite3_smart_ptr.hpp:175-182 | whoever takes the weak count to zero frees the block |
| SmartPtr.Heap.Expired | include/sqlite3_smart_ptr.hpp:246-250 | true iff the handle is empty or no shared handle owns the object |
| SmartPtr.Heap.LockWeak | include/sqlite3_smart_ptr.hpp:254-267 | the CAS loop under any schedule is a run of the protocol: when it finishes it has locked iff the object is alive, and the returned handle owns the object; `LockCompletes` says that it finishes |
| TinyLockProtocol.LockIsSafe | include/sqlite3_tiny_lock.h:78-117 | in every run, native or wasm: at most one thread in the critical section, the word is 1 exactly while one is, and no wakeup is lost |
| TinyLockProtocol.StepKeepsInv | include/sqlite3_tiny_lock.h:78-117 | every atomic operation keeps exclusion and the wakeup condition, under spurious CAS failure and barging |
| TinyLockProtocol.WaiterCanAcquire | include/sqlite3_tiny_lock.h:78-95 | from every reachable state a waiting thread can still be brought into the critical section without newcomers |
| TinyLockProtocol.StrandedForever | include/sqlite3_tiny_lock.h:15-17 | without a witness of the wakeup condition nothing can happen any more unless a newcomer arrives |
| TinyLockProtocol.SleeperIsRescuedIffNoLostWakeup | include/sqlite3_tiny_lock.h:15-17 | the wakeup condition holds iff the threads already inside can bring a sleeper into the critical section |
| TinyLockProtocol.LockRunIsSafe | include/sqlite3_tiny_lock.h:78-95 | a call of lock(), cut off anywhere, is a run of the protocol |
| TinyLock.Lock.Acquire | include/sqlite3_tiny_lock.h:78-95 | the nested loops of lock() under any schedule end holding the lock or still waiting |
| TinyLock.Lock.TryAcquire | include/sqlite3_tiny_lock.h:101-105 | succeeds iff no thread is in the critical section |
| TinyLock.Lock.Release | include/sqlite3_tiny_lock.h:110-117 | store 0, then (wasm) one waiter is woken if there is one |
| RegistryInvariant.StepKeepsInv | include/sqlite3_ext_state.hpp:116-152 | every disciplined step keeps exact counts, the map, and the ownership of entries outside the map |
| RegistryRuns.NeverTouchesDeleted | include/sqlite3_ext_state.hpp:128-152 | in every disciplined run no step, including the key comparisons of a lookup, touches a deleted entry |
| RegistryRuns.TeardownIsSafe | include/sqlite3_ext_state.hpp:128-142 | an entry is unlinked only when no registration holds it, the erase removes exactly that entry, and it is deleted once |
| RegistryRuns.Conservation | include/sqlite3_ext_state.hpp:237-252 | with no thread inside, a key is mapped iff it has an outstanding registration, its count is their number, and every other entry ever made was deleted once |
| RegistryRuns.OneResurrectionIsFine | include/sqlite3_ext_state.hpp:132-135 | an entry re-retained between the decrement to zero and the re-check survives |
| RegistryRuns.SecondReleaseIsNot | include/sqlite3_ext_state.hpp:128-152 | a concrete run with two pending teardowns of one entry in which a step touches the deleted entry |
| RegistryRuns.DisciplineIsExact | include/sqlite3_ext_state.hpp:147-152 | among all steps exactly the disciplined ones keep the invariant |
| RegistryRuns.UndisciplinedIsFatal | include/sqlite3_ext_state.hpp:128-152 | every decrement to zero while another teardown of the entry is pending opens a continuation, itself disciplined, that touches the deleted entry |
| RegistryRuns.DisciplineIsSafety | include/sqlite3_ext_state.hpp:128-152 | a release is disciplined iff every disciplined continuation of any length touches only entries that have not been deleted |
| RegistryRuns.LockComesFree | include/sqlite3_ext_state.hpp:128-142 | whoever holds the registry lock has one step to make, which is always enabled and frees it |
| RegistryRuns.StepMovesRegistrations | include/sqlite3_conn_state.hpp:129-269 | every step by its effect on the map and the registrations: an init or lookup gives out the mapped entry with its count grown by one, also when the thread has built its own meanwhile; otherwise a new entry; nothing only for want of memory or insertion |
| ConnStateRace.InitRace | include/sqlite3_conn_state.hpp:229-269 | with no release of a connection: every init that completes, by finding, publishing or adopting, holds the mapped entry at the end; it is the only one ever published, its count is their number, and every other entry built is deleted exactly once, unpublished |
| RegistryCalls.FinishEnds | include/sqlite3_conn_state.hpp:129-155 | every call of init or release comes to its end with the invariant intact, once the registry lock is free when it needs it |
| Registries.Registry.InitShared | include/sqlite3_ext_state.hpp:237-252 | find or allocate, insert and retain in one critical section; null iff absent and out of memory |
| Registries.Registry.EntryGet | include/sqlite3_ext_state.hpp:188-197 | find and retain |
| Registries.Registry.InitConn | include/sqlite3_conn_state.hpp:229-269 | fast path, construction outside the lock, then adopt exactly the entry mapped at the second critical section, publish the own one, or give up when insertion fails; never null when memory and insertion are granted |
| Registries.Registry.EntryRelease | include/sqlite3_conn_state.hpp:150-155 | decrement, and teardown at zero |
| Registries.Registry.EntryFree | include/sqlite3_ext_state.hpp:128-142 | re-check under the lock, unlink, unlock, delete; gives up if the entry was retained again |
| HybridState.SharedRoundTrip | include/sqlite3_ext_state.hpp:201-252 | a shared init followed by its destructor restores the registry, for every outcome of the allocation |
| HybridState.ConnRoundTrip | include/sqlite3_conn_state.hpp:186-269 | a connection init followed by its destructor restores the registry, for every outcome of allocation and insertion |
| HybridState.Hybrid.Init | include/sqlite3_hybrid_state.hpp:46-65 | a null connection or a failing holder allocation leaves both registries as before; otherwise the holder owns one registration in each that succeeded |
| HybridState.Hybrid.Destroy | include/sqlite3_hybrid_state.hpp:70-81 | drops exactly the registrations the holder owns, then the holder |
| HybridState.InitThenDestroy | include/sqlite3_hybrid_state.hpp:46-81 | init then destructor leaves both registries and the holders as before |
| VTabText.SkipSpaces | include/sqlite3_vtab_arg.hpp:121-123 | stops at the first character that is not a space |
| VTabText.SkipQuoted | include/sqlite3_vtab_arg.hpp:148-163 | consumes one literal, never past the end |
| VTabText.SkipParenthesized | include/sqlite3_vtab_arg.hpp:166-183 | always terminates, never past the end |
| VTabText.TrimSlice | include/sqlite3_vtab_arg.hpp:126-130 | both loops together give the trimmed text |
| VTabText.TrimSplits | include/sqlite3_vtab_arg.hpp:126-130 | every text is its trimmed text between spaces |
| VTabGrammar.LiteralIsSkipped | include/sqlite3_vtab_arg.hpp:148-163 | a printed literal is consumed whole, whatever its body, unless its own close character follows |
| VTabGrammar.TextIsSkipped | include/sqlite3_vtab_arg.hpp:166-183 | inside parentheses any text of characters, literals and nested groups is consumed whole at the same depth |
| VTabGrammar.GroupIsSkipped | include/sqlite3_vtab_arg.hpp:166-183 | the scan stops exactly past the matching parenthesis |
| VTabKeywords.HasKeywordSequence | include/sqlite3_vtab_arg.hpp:195-223 | the search loop computes the specified search |
| VTabKeywords.SearchIsExact | include/sqlite3_vtab_arg.hpp:195-223 | true iff the keywords occur at identifier boundaries, separated by spaces only, at a position that a character-by-character scan finds outside all literals |
| VTabSpelling.CharClasses | include/sqlite3_vtab_arg.hpp:117-146 | the characters of identifiers, spaces and quotes, and the close character of each quote |
| VTabSpelling.LowerIsSameLetter | include/sqlite3_vtab_arg.hpp:195-231 | two characters compare equal iff they are the same letter of the alphabet in either case, or the same character |
| VTabSpelling.KeywordAtIsWords | include/sqlite3_vtab_arg.hpp:206-218 | what is matched at one position: the words, in any case, with only spaces between them, and no identifier character on either side |
| VTabSpelling.FlagsOfOneWord | include/sqlite3_vtab_arg.hpp:563-579 | each one-word keyword, in any mix of cases, sets exactly its own flag; AS sets the generated flag |
| VTabSpelling.FlagsOfTwoWords | include/sqlite3_vtab_arg.hpp:569-570 | NOT NULL and PRIMARY KEY, in any mix of cases and with any spaces between, set exactly their own flag |
| VTabKeywords.FlagsIgnoreLiterals | include/sqlite3_vtab_arg.hpp:563-579 | column flags do not change when the inside of a closed literal is replaced by any other escaped text |
| VTabColumn.ColumnRoundTrip | include/sqlite3_vtab_arg.hpp:501-522 | name, spaces and definition are split where they were joined, for quoted and plain names |
| VTabColumn.FullDefIsWhole | include/sqlite3_vtab_arg.hpp:501-543 | splitting a trimmed definition and joining the views again loses nothing |
| VTabColumn.ScanGeneratedExpression | include/sqlite3_vtab_arg.hpp:601-626 | the scanning loop computes the specified expression |
| VTabColumn.GeneratedExactly | include/sqlite3_vtab_arg.hpp:601-626 | for any text before AS: every balanced e comes back trimmed, with any spaces and whatever follows, iff no earlier group opens outside literals and every literal before it is closed |
| VTabColumn.GeneratedRoundTrip | include/sqlite3_vtab_arg.hpp:601-626 | `T GENERATED ALWAYS AS (e) ...` gives the trimmed e for every balanced e under that condition |
| VTabColumn.PlainIsClear | include/sqlite3_vtab_arg.hpp:606-612 | the condition holds of every text without quotes and parentheses |
| VTabColumn.AliasIsMistaken | include/sqlite3_vtab_arg.hpp:611 | behind any identifier character, where AS is not a keyword, the group is taken for a generated expression all the same |
| VTabColumn.AliasWitness | include/sqlite3_vtab_arg.hpp:601-626 | "ALIAS (10) GENERATED ALWAYS AS (x)" gives 10 |
| VTabConstraint.Parse | include/sqlite3_vtab_arg.hpp:790-852 | the constructor's scans compute kind, name and column text |
| VTabConstraint.ForEachColumnName | include/sqlite3_vtab_arg.hpp:870-900 | the loop reports the names of the comma-separated fields, in order |
| VTabConstraintRoundTrip.ColumnNamesOf | include/sqlite3_vtab_arg.hpp:246-260 | every list that mixes quoted and bare names, with any spaces and any order text such as ASC behind the names, gives exactly these names in order |
| VTabConstraintRoundTrip.NameBeforeGroup | include/sqlite3_vtab_arg.hpp:801-812 | a bare constraint name ends at a space or at a parenthesis |
| VTabConstraintRoundTrip.BlankFields | include/sqlite3_vtab_arg.hpp:880-887 | a field without a name is passed over |
| VTabConstraintRoundTrip.KindsAreWords | include/sqlite3_vtab_arg.hpp:818-827 | the kind is decided by the word the text opens with, and no text opens with two of them |
| VTabConstraintRoundTrip.GroupContents | include/sqlite3_vtab_arg.hpp:823-851 | the constructor takes the trimmed contents of the first group, whatever balanced text that is |
| VTabConstraintRoundTrip.NoGroupNoContents | include/sqlite3_vtab_arg.hpp:829-851 | without a group, or with one that is never closed, the column text is empty |
| VTabConstraintRoundTrip.ContentsRoundTrip | include/sqlite3_vtab_arg.hpp:790-852 | printing a constraint of any kind, its words in any case, named (quoted or bare) or not, around any balanced text and parsing it gives the kind, the name and the trimmed text, whatever follows |
| VTabConstraintRoundTrip.ConstraintRoundTrip | include/sqlite3_vtab_arg.hpp:790-900 | printing `[CONSTRAINT n] PRIMARY KEY (c1, c2, ...)`, or UNIQUE, CHECK or FOREIGN KEY, and parsing it gives the kind, the name and the column names in order: quoted and bare names in any mix, with commas, parentheses and spaces inside quotes and order text behind |
| VTabConstraintRoundTrip.NamesSurviveIff | include/sqlite3_vtab_arg.hpp:234-260 | for a constraint of any kind, named or not, the constraint name and the column names come back exactly iff no quoted one contains the close character of its quotes |
| VTabConstraintRoundTrip.PrintedIsConstraint | include/sqlite3_vtab_arg.hpp:942-995 | the classifier takes every printed constraint for that constraint, also when it mentions WITHOUT ROWID or '=' |
| VTabArg.MakeArg | include/sqlite3_vtab_arg.hpp:978-1043 | the four steps of the classifier, with the scan for '=' |
| VTabArgKinds.EqualsIsExact | include/sqlite3_vtab_arg.hpp:1003-1027 | the '=' of a parameter is the first one that a character-by-character scan finds outside the literals, if no '(' outside them precedes it |
| VTabArgKinds.KindsExactly | include/sqlite3_vtab_arg.hpp:978-1043 | exactly when an argument is empty, constraint, option, parameter or column, in terms of the words and the '=' of its trimmed text, and what is taken from the text |
| VTabArgKinds.ColumnArgRoundTrip | include/sqlite3_vtab_arg.hpp:1039-1042 | a text that is none of the other kinds is a column with the name, spaces and definition it was put together from |
| VTabArg.ClassifyIgnoresPadding | include/sqlite3_vtab_arg.hpp:978-1043 | spaces around an argument change neither its kind nor any part of the result |
| VTabArg.ParamRoundTrip | include/sqlite3_vtab_arg.hpp:1003-1038 | `key = value` is read as that parameter, for every trimmed value and every key without spaces, also a quoted one containing '=' or parentheses |
| VTabDdl.Format | include/sqlite3_vtab_arg.hpp:1525-1590 | the formatter returns the full length of the specified text and leaves its terminated prefix in the buffer, for every capacity and also without a buffer |
| VTabDdl.StoredIsLongestPrefix | include/sqlite3_vtab_arg.hpp:1535-1542 | the buffer holds exactly the longest prefix that fits with its NUL; nothing else is written |
| VTabDdl.ItemIsTrimmed | include/sqlite3_vtab_arg.hpp:1548-1579 | an argument contributes its trimmed text, as a column iff it is one and as a constraint iff it is one |
| VTabDdlItems.EmittedInPlace | include/sqlite3_vtab_arg.hpp:1548-1579 | each column is emitted among the columns and each constraint among the constraints, at the place of its argument, and nothing else is |
| VTabDdlItems.KnownDdl | include/sqlite3_vtab_arg.hpp:1525-1590 | a known statement with all sections: columns, extra columns, constraints, separators, suffix; no parameter |
| VTabDdlItems.TableNames | include/sqlite3_vtab_arg.hpp:1529-1530 | the override, else the name from the arguments, else x |
| VTabDdl.DefinitionSurvives | include/sqlite3_vtab_arg.hpp:536-543 | the definition of a column or constraint is its trimmed argument and classifies to the same column or constraint |
| VTabDdl.DdlIsIdempotent | include/sqlite3_vtab_arg.hpp:1525-1590 | feeding the emitted items, and the option if the suffix was printed, back through the formatter gives the identical text |
| VTabSchema.ParamSchema.Bind | include/sqlite3_vtab_arg.hpp:1658-1667 | bindings beyond the sixteenth are dropped |
| VTabSchema.ParamSchema.Parse | include/sqlite3_vtab_arg.hpp:1762-1814 | one pass over the parameters; each reaches only the first matching binding; returns how many were converted |
| VTabSchema.ParamSchema.Validate | include/sqlite3_vtab_arg.hpp:1831-1854 | the number of unbound parameters and the first of their keys |
| VTabSchemaExact.MatchedCounts | include/sqlite3_vtab_arg.hpp:1762-1814 | parse returns the number of parameters whose first matching binding has an output and accepts the text |
| VTabSchemaExact.UnknownAreUnbound | include/sqlite3_vtab_arg.hpp:1845-1854 | validate returns the number of parameters without a binding |
| VTabSchemaExact.FirstUnknown | include/sqlite3_vtab_arg.hpp:1847-1852 | the reported key is that of the first parameter without a binding |
| VTabSchemaExact.KeysMatchIff | include/sqlite3_vtab_arg.hpp:1751-1756 | keys match iff they are the same letters in any case, quoted or not on either side |
| VTabSchemaExact.OtherQuotesStay | include/sqlite3_vtab_arg.hpp:234-243 | quotes are stripped only as a whole pair |
| VTabSchemaExact.ConvertsExactly | include/sqlite3_vtab_arg.hpp:1770-1805 | what a text means to a binding of each type: a number, a Boolean, the whole text with its quotes, the first enum value it is equal to or -1 |
| VTabSchemaExact.BoolRules | include/sqlite3_vtab_arg.hpp:388-415 | a Boolean is a number that is zero or not, or one of the six words in any case, and nothing else |
| VTabSchemaExact.ParamInPlace | include/sqlite3_vtab_arg.hpp:1215-1221 | each key=value argument is visited at its place, with the trimmed texts on both sides of its '=' |
| VTabSchemaExact.OthersAreSkipped | include/sqlite3_vtab_arg.hpp:1215-1221 | no argument of another kind is visited |
| VTabSchema.ParseIsAssignAll | include/sqlite3_vtab_arg.hpp:1762-1814 | each output holds the successive conversions of exactly the parameters that match its binding |
| VTabSchema.ParseAgreesWithGetter | include/sqlite3_vtab_arg.hpp:1123-1200 | after parse an output equals the first-match getter with the old value as default: for all but enum bindings when no two keys match, for all types under a condition on the texts |
| VTabSchema.AgreementIsExact | include/sqlite3_vtab_arg.hpp:1762-1814 | that condition is exact for every type of binding: parse and getter agree for every scanner and every old content iff it holds |
| VTabSchema.RepeatedKeyDiffers | include/sqlite3_vtab_arg.hpp:1182-1186 | a repeated key on which parse and getter differ |
| VTabSchema.EnumTakesLast | include/sqlite3_vtab_arg.hpp:1792-1805 | parse leaves the first value that the last matching text is equal to, or -1 |
| VTabSchema.EnumAgreesIff | include/sqlite3_vtab_arg.hpp:366-375 | when an enum output and get_enum agree for a given old content and any number of matching texts; for one text: it is a known value, or the old content is -1 |
| VTabSchema.EnumUnknownDiffers | include/sqlite3_vtab_arg.hpp:1792-1805 | an unknown value on which they differ |
| VTabSchema.ValidIffAllBound | include/sqlite3_vtab_arg.hpp:1845-1854 | validate is 0 iff every parameter key is bound |
| VTabSchema.BoundIffParsed | include/sqlite3_vtab_arg.hpp:1817-1824 | a key is bound iff parse has a slot for it |
| VTabSchema.KeysAreNonEmpty | include/sqlite3_vtab_arg.hpp:1132-1134 | every parsed parameter has a key, so an empty key means "not found" |
| Murmur.MurmurHash2 | include/sqlite3_hash.hpp:45-95 | block loop, byte-wise block assembly, tail switch and finalisation compute the specified hash, with the null and empty cases; the specification is fixed by the known values and by the part of the length |
| Murmur.FinalizeIsPermutation | include/sqlite3_hash.hpp:90-92 | finalisation is a permutation of the 64-bit words |
| Murmur.BlockStepPermutesStates | include/sqlite3_hash.hpp:69-74 | for a fixed block, absorbing it permutes the states |
| Murmur.BlockStepPermutesBlocks | include/sqlite3_hash.hpp:69-74 | for a fixed state, absorbing permutes the blocks |
| Murmur.OneBlockNeverCollides | include/sqlite3_hash.hpp:45-95 | equal-length keys that differ only inside one block hash alike iff they are equal |
| Murmur.TailNeverCollides | include/sqlite3_hash.hpp:77-95 | equal-length keys that differ only in the tail hash alike iff they are equal |
| Murmur.EveryHashIsReached | include/sqlite3_hash.hpp:45-95 | by choice of one block every hash value is reached |
| MurmurKnown.KnownLongHash | include/sqlite3_hash.hpp:45-95 | the hash of the bytes 1 to 19 under seed 0, as a numeral: two blocks and a tail |
| MurmurKnown.KnownSeededHash | include/sqlite3_hash.hpp:45-95 | the hash of one byte under a seed that is not 0, as a numeral |
| MurmurKnown.NullKeysApart | include/sqlite3_hash.hpp:46-53 | null keys hash alike iff their lengths are equal, for every seed |
| MurmurKnown.ZeroKeysApart | include/sqlite3_hash.hpp:45-95 | all-zero keys shorter than one block, the empty one among them, hash alike iff their lengths are equal, for every seed |
| HashCombine.CombineInjective | include/sqlite3_hash.hpp:165-167 | combine is injective in its second argument |
| HashCombine.KnownCombine | include/sqlite3_hash.hpp:165-167 | a known value of combine, with carries out of every part |
| Bloom.ProbeNeverWraps | include/sqlite3_hash.hpp:183-188 | neither product nor sum of a probe reaches 2^64, so the position is the unbounded one |
| Bloom.HalvesOf | include/sqlite3_hash.hpp:185-186 | the two halves of a hash are the numbers it is put together from |
| Bloom.KnownProbe | include/sqlite3_hash.hpp:183-188 | a known position: the low half is the start, the high half the stride |
| Bloom.ProbesMeet | include/sqlite3_hash.hpp:183-188 | two probes share a position iff their distance is a multiple of num_bits / gcd |
| Bloom.BloomCoverage | include/sqlite3_hash.hpp:183-188 | the first k probes hit exactly min(k, num_bits / gcd(h2, num_bits)) positions, all below num_bits |
| Rows.Equal | include/sqlite3_row.hpp:545-554 | the equality loop over views of any store is row equality |
| Rows.Less | include/sqlite3_row.hpp:558-569 | the `<` loop is the lexicographic order |
| Rows.Greater | include/sqlite3_row.hpp:570-581 | the separately written `>` loop is `<` with the rows exchanged |
| Rows.LessEqual | include/sqlite3_row.hpp:582-584 | not greater means less or equal |
| Rows.GreaterEqual | include/sqlite3_row.hpp:585-587 | not less means greater or equal |
| Rows.Trichotomy | include/sqlite3_row.hpp:544-587 | exactly one of a < b, a == b, b < a |
| Rows.LessTransitive | include/sqlite3_row.hpp:558-569 | `<` is transitive |
| Rows.LessIsLexicographic | include/sqlite3_row.hpp:558-569 | some column decides, all columns before it being equal: the left row ends there, or its value is less |
| Rows.EqualIsCongruence | include/sqlite3_row.hpp:545-569 | equality is an equivalence and equal rows can replace each other in `<` |
| Rows.ScalarIsOneColumn | include/sqlite3_row.hpp:591-710 | every scalar operator, in both directions, compares with the one-column row |
| Rows.Hash | include/sqlite3_row.hpp:210-222 | the hash loop; a one-column row hashes as its value |
| Rows.NarrowHashes | include/sqlite3_row.hpp:210-222 | no column hashes as 0, one column as its value, two and three columns by combining from the left |
| Rows.HashAppends | include/sqlite3_row.hpp:217-220 | every further column is combined with the hash of the columns before it |
| Rows.StoresAgree | include/sqlite3_row.hpp:964-983 | argument vector, pointer array, contiguous array, owned array and statement with the same columns are the same row; null pointers read as null |
| Rows.MissingStores | include/sqlite3_row.hpp:1196-1204 | a missing argument vector reads as null values, a missing owned array as no columns, an index outside the row as null |
| Rows.SameColumnsSameHash | include/sqlite3_row.hpp:964-983 | views over any stores whose columns are equal one by one compare equal and hash alike, even with different representations |
| Rows.EqualRowsHashAlike | include/sqlite3_row.hpp:210-222 | rows that compare equal hash alike, even with different representations |
| Rows.LastColumnDecides | include/sqlite3_row.hpp:210-222 | rows that agree in all but the last column collide iff the hashes of their last columns are equal |

## Left out

Hypotheses of the concurrent models:

- Memory is sequentially consistent; weaker orderings and the compiler intrinsics are not modelled.
- A handle of the smart pointers is used by one thread at a time, a weak handle is not destroyed or moved while `lock()` runs on it, and fewer than 2^31 handles exist; a deleter that itself uses handles appears as another thread.
- The reference counts of the registries are unbounded integers: fewer than 2^31 registrations are assumed.
- `duo::HashMap` is a mathematical map; insertion always succeeds for `SqliteExtState`, whose code does not check it.
- The registry mutex of `SqliteExtState` exists (its lazy creation and a null mutex are not modelled), and the path of a connection does not change.
- A pointer obtained by `get` or kept after its registration is released is not protected by the registry and not modelled; neither is the auxdata cache of `from_db`.

Not modelled:

- `SqliteConnState::remove` and its C twin: they drop a reference the registry does not own, so they need a contract with the caller that the code does not state.
- Assignment and `reset` of weak handles, and `reset` of shared handles: compositions of release, copy and move like the modelled ones.
- `affinity()`, `collation()`, `default_value()`, `data_type()`, and the column lookups of `SqliteVTabArgs`.
- `sscanf` is a partial function from texts to numbers, a dynamic value is its literal; floating-point values are known by their bit pattern.
- VTabDdl.Format: the length is unbounded, where the code converts it to `int`.
- Registries.Registry.EntryRelease: requires that no other teardown of the entry is pending when it drops the last reference; what the code does otherwise is `UndisciplinedIsFatal`.
- RegistryCalls.FinishEnds: assumes that the gaps last until the registry lock is free when the call needs it; `LockComesFree` shows that they can, but fairness of the lock is not modelled.
- HybridState.Hybrid.Init: covers calls with no other thread inside the two registries, which is what "as before" can mean; interleavings are covered by the registries' own results.
- HybridState.Hybrid.Destroy: the same.
- The order, equality and hash of values are hypotheses (`Lawful`), as are comparisons of values with scalars of other types.
- xxHash3, allocators, result types, unique pointers, wrappers around SQLite calls, virtual-table callback tables, coroutines, and the C macro twins of these headers.
