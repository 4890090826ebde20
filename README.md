# Reassembler: an in-order delivery buffer, in Dafny

The reassembler takes items in any order and hands them on in sequence
order. Each item carries a sequence value, which a user-supplied
sequence function extracts. The engine keeps two pieces of state:

- a cursor `nextSeq`, the sequence value it expects next;
- a side buffer from sequence values to items that arrived early.

Each arriving item falls into one of three cases:

- **Stale.** Its value is behind the cursor. It is dropped, and the drop
  callback gets an `Issue` of kind `PackageLessThanNextSeq` carrying the
  current cursor.
- **Early.** Its value is ahead of the cursor. It is stored in the buffer,
  and a later item with the same value replaces it.
- **Expected.** Its value equals the cursor. It is emitted. The cursor then
  advances, emitting and removing each buffered item at the cursor, until
  the buffer has no entry for the cursor.

The project has five files:

- `issue.dfy` (module `Issues`): the issue kinds, the `Issue` record, its
  constructor and the `Is` comparison.
- `assembler.dfy` (module `Assembler`): the reorder step as pure functions,
  then the engine as a class over that state.
  - The pure functions are `Drain` (the drain loop), `Handle` (one item) and
    `Feed` (a stream of items).
  - The class is `Reassembler`. Its methods update its fields in place:
    `HandlePackage` contains the drain loop, in `DrainBuffer`. Each method
    is proved against the pure functions.
  - `Valid` is the class invariant. It states the buffer invariant, that the
    output is exactly the items numbered `begin .. nextSeq-1`, and that every
    callback call reports a stale item.
  - `NewReassembler` is the fallible factory.
- `assembler_properties.dfy` (module `AssemblerProperties`): the three cases
  of one step, the invariants a whole stream keeps, and the proof that any
  shuffle of a numbered stream is delivered in order.
- `assembler_test.dfy` (module `AssemblerTest`): the repository's own test
  scenario. A message is cut into numbered one-byte packages, shuffled, fed
  through an engine started at 0 and read back. The test's random shuffle
  becomes any rearrangement.
- `wrappers.dfy`: `Option` and `Result`.

Transport is replaced by logs that only grow:

- The outbound channel becomes `outLog`.
- Calls of the drop callback become `dropLog`. Each entry is a `Notice`:
  which callback was installed, and the `Dropped` record (the item and its
  issue) it was given. The pure semantics reports drops with the same
  `Dropped` record.
- The drop callback field becomes `Option<Observer>`. `None` stands for a nil
  callback, `DefaultLogger` for the logger that `NewReassembler` installs,
  and `Installed(h)` for a callback installed through `OnDrop`.
- Error values become a `Cause` datatype. It keeps the arguments given to the
  error message, not the message text.

Two behaviours of the code that the model keeps:

- `NewReassembler` (assembler.go:95-110) takes no drop callback. It always
  installs the default logger, and only `OnDrop` can change it.
- `Start` (assembler.go:74-75) only sets the cursor. Calling it once is a
  precondition of the model, not something the code checks.

## Model

| member | source | states |
|---|---|---|
| Issues.NewIssue | issue.go:21-26 | the issue built has exactly the given kind, cursor value and cause |
| Issues.KindValues | issue.go:5-9 | the kinds Unknown, PackageLessThanNextSeq and PanicOccurred are 0, 1 and 2, and pairwise distinct |
| Issues.IsComparesKindOnly | issue.go:17-19 | `i.Is(j)` holds exactly when the kinds are equal; an issue matches any issue of its kind, whatever cursor value and cause it carries |
| Issues.IsEquivalence | issue.go:17-19 | `Is` is reflexive, symmetric and transitive |
| Issues.DistinctKindsDoNotMatch | issue.go:5-19 | issues of different kinds never match, in either direction, whatever cursor value and cause they carry |
| Assembler.DrainSpec | assembler.go:61-69 | draining from cursor c emits the buffered items at c, c+1, … in that order, each at its own key. It stops at the first key the buffer lacks. It removes exactly the drained keys and leaves every other entry as it was |
| Assembler.StepKeepsOrder | assembler.go:52-70 | one step keeps every buffered key above the cursor, with its item's sequence value. The cursor moves forward by the number of items emitted. The items emitted carry the values old cursor, old cursor+1, …. An issue means a stale item, reported against the old cursor |
| Assembler.StepKeepsDelivered | assembler.go:39-72 | on a started engine, one step never moves the cursor back. It keeps "output = items begin .. nextSeq-1 in order". It keeps "every callback call reports a stale item, with nondecreasing cursor values" |
| Assembler.Reassembler.constructor | assembler.go:100-109 | a new engine holds the given name and sequence function, an empty buffer, cursor 0, empty logs and the default logger as drop callback |
| Assembler.Reassembler.Start | assembler.go:74-75 | the cursor and the recorded start value become `begin`; nothing is buffered or emitted yet; the invariant holds |
| Assembler.Reassembler.OnDrop | assembler.go:91-93 | the callback is replaced by the given one (not added to), and the invariant is kept |
| Assembler.Reassembler.HandlePackage | assembler.go:39-72 | the new cursor and buffer are those of one reorder step. The items it emits are appended to the output. Its issue, if any, reaches the installed callback once, and no callback is called when none is installed. The cursor never decreases, and the invariant is kept |
| Assembler.Reassembler.DrainBuffer | assembler.go:61-70 | the loop leaves cursor, buffer and output exactly as draining the old buffer from old cursor + 1 specifies |
| Assembler.NewReassembler | assembler.go:95-110 | fails exactly when the sequence function is absent, with a "sequence function not set" cause naming the engine. Otherwise it returns a fresh engine with the given name and sequence function, an empty buffer, cursor 0, empty logs and the default logger installed, not yet started |
| AssemblerProperties.StaleItem | assembler.go:47-55 | a stale item leaves cursor and buffer unchanged and emits nothing. It yields exactly one drop, of kind PackageLessThanNextSeq, reported against the current cursor, whose cause names the item's value and the cursor |
| AssemblerProperties.EarlyItem | assembler.go:56-57 | an early item is stored under its value, replacing any previous entry. Cursor unchanged, nothing emitted, no issue |
| AssemblerProperties.ExpectedItem | assembler.go:58-70 | the expected item is emitted first, then the buffered items at cursor+1, cursor+2, … in order. The new cursor is old cursor + number emitted, and it is a key neither the old nor the new buffer holds. Exactly the drained keys are removed, the other entries are unchanged, and there is no issue |
| AssemblerProperties.FeedInOrder | assembler.go:39-72 | over any stream, from any state satisfying the buffer invariant: the invariant holds at the end, and the cursor has moved by the number of items emitted. The output carries start, start+1, … with no gap or repeat. Every drop is a stale item reported against a cursor value between the start and the end, and these values never decrease |
| AssemblerProperties.ShuffledDelivered | assembler.go:39-72 | any rearrangement of items numbered begin, begin+1, …, fed from cursor begin, is delivered as the items in their original order. Nothing is dropped, the buffer ends empty and the cursor ends just past the last item |
| AssemblerTest.Packages | assembler_test.go:46-52 | package i of a message has sequence value i and the message's i-th byte |
| AssemblerTest.Data | assembler_test.go:23-29 | the payload of a list of packages is their bytes, in list order |
| AssemblerTest.ReassembleShuffled | assembler_test.go:31-80 | an engine created with the package's own sequence number and started at 0 is fed any shuffle of a message's packages through `HandlePackage`; the bytes read from its output are exactly the message |
| AssemblerTest.ShuffledMessage | assembler_test.go:45-78 | for any shuffle of a message's packages, the output bytes equal the message, with no drops and an empty buffer |
| AssemblerTest.OutOfOrderExample | assembler.go:54-70 | packages 2 'C', 0 'A', 1 'B' come out as "ABC": none is dropped, the buffer ends empty and the cursor at 3 |
| AssemblerTest.DuplicateExample | assembler.go:54-55 | value 0 sent twice: the first copy is emitted and the second is dropped as stale against cursor 1 |

## Left out

- The goroutine, the `in` and `out` channels, `context` cancellation and the `select` loop (assembler.go:24-37, 76-88) are transport. Submitting an item is a call of `HandlePackage`, and sending on `out` is an append to `outLog`. Closing the channels on shutdown, and discarding whatever is still buffered, are not modelled.
- Panic recovery in `handlePackage` and `In` (assembler.go:25-29, 42-46) is left out, and so is its `PanicOccurred` issue. The sequence function is a total Dafny function, so it cannot panic. The `PanicOccurred` kind is still declared in `Issues`.
- The concurrency safety of `sync.Map` and the type assertion on loaded values (assembler.go:64) are left out. The buffer is a plain `map<int, T>`.
- The text of error messages and the default logger's printing (assembler.go:80, 106-108) are left out. A cause keeps the engine's name and the values the message reports. A callback is an `Observer` token, and each call of it is logged as a `Notice`. What a user callback does when called is not modelled.
- The sequence type `S` is an unbounded `int`. Wrap-around of a fixed-width `S` on `nextSeq += 1` (assembler.go:62) is not modelled.
- In the test, the random shuffle (assembler_test.go:55-58) is replaced by any rearrangement with the same multiset of packages. Bytes are `char`s, `uint32` sequence numbers are `nat`s, and printing is left out.
- The source does not stop `Start` from being called twice, nor `handlePackage` from running before `Start` (outside the goroutine that `Start` launches, it never runs). `Reassembler.Start` requires a fresh engine, and `Reassembler.HandlePackage` requires a started one. These are recorded in the ghost field `started`.
- `NewIssue` and `NewReassembler` return pointers in the source. The model returns an `Issue` value, and a `Result` holding the new engine or the cause of failure.
- Go's `IssueType` is `uint`. The model takes it as 64 bits wide.
