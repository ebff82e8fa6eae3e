# Luce in Dafny

A Dafny 4.11 model of the algorithmic core of Luce, a C++20 coroutine network library: its JSON
parser and printer, its two thread pools, its coroutine tasks, its serializer with packet framing and
RPC, its buffer pool, its timer heap, its TinyPB codec and its string functions. `dafny verify
dfyconfig.toml` checks the whole project.

| file | modules | models |
|---|---|---|
| `JsonValue.dfy`, `JsonParser.dfy`, `JsonRoundTrip.dfy`, `JsonText.dfy`, `JsonRestart.dfy` | `JsonValue`, `JsonGrammar`, `JsonParser`, `JsonRoundTrip`, `JsonText`, `JsonRestart` | `luce/common/json` |
| `TaskMachine.dfy` | `TaskMachine` | `luce/co/task.h`, `co_spawn` |
| `CoThreadPool.dfy` | `CoThreadPool` | `luce/co/co_thread_pool.cpp` over `luce/common/blocking_queue.h` |
| `ThreadPool.dfy` | `ThreadPool` | `luce/common/thread_pool.h` |
| `Serializer.dfy`, `Packet.dfy`, `PacketFlow.dfy`, `Rpc.dfy` | `SerializerFormat`, `Serializer`, `Packet`, `PacketFlow`, `RpcFormat`, `Rpc` | `luce/codec/serializer.h`, `luce/io/io_awaiter.cpp`, `luce/net/rpc` |
| `BufPool.dfy` | `BufPool` | `luce/io/io_buffer.cpp` |
| `Timer.dfy` | `TimerHeap`, `TimerWitness`, `TimerManager` | `luce/timer/timer.h` |
| `TinyPb.dfy` | `TinyPbFormat`, `TinyPbCoder` | `luce/codec/tinypb_coder.cpp`, `luce/net/util.h` |
| `Strings.dfy` | `StringUtil` | `luce/common/string_util.cpp` |
| `Bytes.dfy`, `Sums.dfy` | `Slices`, `Bytes`, `Options`, `Sums` | shared: positions in a text, memory images, sums |

How the code is rendered:

- Code that updates a cursor, a buffer, a vector or linked nodes is a class or a method with loops,
  and each such method is proved equal to a function of its old state (`JsonParser.Parser` against
  `JsonGrammar`, `Serializer.Serializer` against `SerializerFormat`, `TimerManager` against
  `TimerHeap`, `TinyPbCoder` against `TinyPbFormat`, `BufPool.Pool` against `BufPool.View`). The
  theorems are about those functions.
- Concurrency is a state machine: one step is one lock section, one notify, one wake-up, one access
  of an atomic flag or one transfer of control, and a run is any sequence of enabled steps. Falling
  asleep on a condition variable and releasing its mutex is one step; spurious wake-ups are steps.
- `::read` and `::write` follow a script of results (some bytes, try again, closed, failed), one for
  the transfers of headers and one for those of bodies; the theorems hold for every script, and say
  for which scripts a transfer completes.
- What C++ leaves undefined is an outcome of its own: `Overrun` when a copy leaves its buffer,
  `None` for the dangling result of `pop`. What an uninitialised buffer holds is a parameter.
- `JsonText` describes the texts the JSON parser reads, and what they mean, without the parser; the
  two are proved to agree. Wire formats are also stated byte by byte, and histories of the pools in
  terms of the calls made.
- `JsonGrammar` reports the event that the JSON cursor wraps to 0 as `CursorReset`; `JsonRestart`
  follows the code beyond it.

Findings with their exact condition, each proved as an if-and-only-if:

- The JSON parser returns a value exactly where a tree of tokens that means it stands, with any white
  space and newline-terminated comments between the tokens (`JsonText.FromStringExactly`); what stands
  behind the tree is ignored, and a later key replaces an earlier one.
- Printing and parsing a JSON value gives it back exactly when its ints are not negative (the parser
  refuses `-`) and each string and key has its inner quotes escaped and does not end in an odd run of
  backslashes (`JsonRoundTrip.RoundTripExactly`).
- `TimerManager::Erase` keeps heap order exactly when the slot is the root or the timer moved into it
  expires no earlier than the slot's parent (`TimerHeap.EraseOrderExactly`); a concrete run in which
  `RemoveTimer` lets a later timer fire first is `TimerWitness.RemovalCanDelayATimer`.
- A sleeping `ThreadPool::Shutdown` is sure to be woken exactly when there is at most one caller
  (`ThreadPool.CallerWakeUpExactly`).
- The coroutine pool's shutdown is sure to resume every accepted handle exactly when every
  `ScheduleById` that is still pushing at the moment `stopped_` is set was called by a coroutine of the
  pool, and pushes into the queue of the worker it runs on because it is pinned there or there is no
  other (`CoThreadPool.ShutdownDrainsExactly`); a concrete run that loses a handle is
  `CoThreadPool.LatePushIsStranded`.
- The JSON parser comes to an end exactly when no comment without newline stands where it looks for a
  value; such a comment sends the cursor back to the start for ever, one where a mark is expected makes
  it throw (`JsonRestart.EndsExactly`, `JsonRestart.GrammarIsTheCode`; the text `//x` never ends,
  `JsonRestart.LoneCommentLoops`).
- `Split` ends on a text that is not empty exactly when the delimiter is not empty
  (`StringUtil.SplitEndsExactly`).
- With headers that move whole, an RPC call of a bound function gets through, and the client gets an
  answer at all, exactly when the schedules of the two directions carry the request and the reply
  (`Rpc.RemoteCall`), and a stream of packets exactly when its schedule carries all the bodies
  (`Packet.Relay`).
- A call of an unbound RPC function makes the client read past the reply exactly when the return type
  occupies any bytes (`RpcFormat.UnboundCallOverruns`).
- A serialized value is read back, and the cursor advanced by its length, exactly when every sequence
  count is below 2^32 and the length below 2^31 (`SerializerFormat.RoundTripExactly`).
- A TinyPB message survives encoding and decoding exactly when its texts are NUL-free and fit the
  decoder's stack buffers (`TinyPbFormat.RoundTripExactly`).

Other findings:

- `TimerManager::pop` returns the timer that comes next, never the one it removes
  (`TimerHeap.PopReturnsTheNextTimer`), so no firing of `Tick` starts the task of the timer that
  expired, whatever calls are made in between (`TimerHeap.NoFiringStartsItsOwn`). With no other call in
  between `Tick` is one timer behind: the first timer's task never runs and every other one runs as
  soon as its predecessor expires (`TimerHeap.TicksAreOneBehind`). A timer added in between can make
  it start the same task twice (`TimerWitness.TaskStartsTwice`).
- A client whose header read fails reports success and decodes an empty buffer
  (`Rpc.BlockingRpcClient.ReceiveReply`).
- A TinyPB message of 2^31 bytes or more makes `new char[]` throw, or overruns its buffer
  (`TinyPbCoder.EncodeTinyPB`).

## Model

| member | source | states |
|---|---|---|
| JsonValue.InsertIsMapUpdate | luce/common/json/JObject.h:97-103 | assigning `dict[key]` keeps the key order of the map, binds the key to the new value and leaves every other binding alone |
| JsonValue.LessIsLexicographic | luce/common/json/JObject.h:97-103 | keys are ordered as std::strings: the first difference decides, and a prefix comes first |
| JsonValue.StrToInt | luce/common/json/Parser.cpp:82-84 | a literal below 2^31 is read exactly; one up to LONG_MAX is reduced modulo 2^32 into the int range; one beyond saturates and becomes -1 |
| JsonValue.DigitsValuePrintNat | luce/common/json/JObject.cpp:46-48 | the decimal digits printed for a number denote that number |
| JsonValue.PrintIntDenotes | luce/common/json/JObject.cpp:46-48 | a negative number is printed as a minus sign and the digits of its magnitude; no number but 0 has a leading zero |
| JsonValue.ToString | luce/common/json/JObject.cpp:31-85 | the printer with its loops produces the recursive rendering of the value |
| JsonValue.ListToString | luce/common/json/JObject.cpp:55-68 | the list loop writes a comma between neighbours and nowhere else |
| JsonValue.DictToString | luce/common/json/JObject.cpp:69-80 | the dictionary loop writes the entries in key order, a comma between neighbours and nowhere else |
| JsonGrammar.Parse | luce/common/json/Parser.cpp:13-35 | from any position: a returned value leaves the cursor strictly further on and within the text; the recursion, which stops at a cursor reset, has measure size - idx |
| JsonGrammar.ParseItems | luce/common/json/Parser.cpp:135-148 | the element loop, from any point on: ends in a value with the cursor strictly further on and within the text, or fails |
| JsonGrammar.ParseEntries | luce/common/json/Parser.cpp:163-185 | the entry loop, from any point on: the same progress as the element loop |
| JsonGrammar.ClosingQuoteIsFirst | luce/common/json/Parser.cpp:99-122 | a string ends at the first quote that follows an even run of backslashes; every quote passed over follows an odd one |
| JsonGrammar.BackRunIs | luce/common/json/Parser.cpp:225-233 | the run of backslashes before a position is all of them up to the first other character |
| JsonGrammar.TrimRight | luce/common/json/Parser.cpp:217-223 | the trimmed text is a prefix that does not end in white space, and what was dropped is white space |
| JsonParser.Parser.FromString | luce/common/json/Parser.cpp:7-11 | the reused parser instance gives the result the grammar defines, whatever it held before |
| JsonParser.Parser.Init | luce/common/json/Parser.cpp:211-215 | the cursor is at the start of the right-trimmed text |
| JsonParser.Parser.GetNextToken | luce/common/json/Parser.cpp:37-48 | white space and whole comment lines are skipped and the character behind them is returned |
| JsonParser.Parser.SkipComment | luce/common/json/Parser.cpp:190-209 | consecutive comment lines are skipped; a comment without newline ends in the event from which `JsonRestart.Token` goes on |
| JsonParser.Parser.Parse | luce/common/json/Parser.cpp:13-35 | the cursor-driven dispatch computes the grammar's outcome and leaves the cursor behind the value |
| JsonParser.Parser.ParseNumber | luce/common/json/Parser.cpp:70-97 | the digit loops compute the grammar's number, integer or decimal, with its two error cases |
| JsonParser.Parser.IsEscConsume | luce/common/json/Parser.cpp:225-233 | the leftward walk decides whether the run of backslashes is even |
| JsonParser.Parser.FindClosingQuote | luce/common/json/Parser.cpp:101-117 | the search loop stops at the closing quote of the grammar, or finds none |
| JsonParser.Parser.ParseString | luce/common/json/Parser.cpp:99-122 | the raw text up to the closing quote, or one of the two missing-quote errors |
| JsonParser.Parser.ParseList | luce/common/json/Parser.cpp:124-151 | the loop with push_back computes the grammar's list outcome |
| JsonParser.Parser.ParseDict | luce/common/json/Parser.cpp:153-188 | the loop with map updates computes the grammar's dictionary outcome, later keys overwriting earlier ones |
| JsonRoundTrip.ClosingQuoteOf | luce/common/json/Parser.cpp:99-122 | the parser finds the printer's own closing quote if and only if the string body is safe |
| JsonRoundTrip.PrintedParses | luce/common/json/Parser.cpp:13-188 | wherever the text of a printable value stands before a delimiter, parsing there yields that value and stops right behind it |
| JsonRoundTrip.PrintedThrows | luce/common/json/Parser.cpp:70-80 | a value with a negative int anywhere in it prints to text the parser refuses |
| JsonRoundTrip.ParseIsSound | luce/common/json/Parser.cpp:13-188 | wherever parsing starts outside strings and comments, it ends outside them with a tidy value, or throws, or met a comment without newline |
| JsonRoundTrip.TokenOnCode | luce/common/json/Parser.cpp:37-48 | the next token stands outside strings and comments if the cursor did |
| JsonRoundTrip.ParsedIsTidy | luce/common/json/Parser.cpp:13-188 | whatever text is parsed, the value has safe strings and keys, ordered dictionaries and 32-bit ints; it has no double unless some literal outside strings and comments is a decimal, and no negative int unless one is 2^31 or more |
| JsonRoundTrip.RoundTripExactly | luce/common/json/JObject.cpp:31-85 | FromString(ToString(v)) == v if and only if strings and keys are safe and ints are not negative |
| JsonRoundTrip.PrintInjective | luce/common/json/JObject.cpp:31-85 | two printable values with the same text are the same value |
| JsonRoundTrip.NormalForm | luce/common/json/Parser.cpp:7-35 | a parsed value is in normal form, and printing and parsing it again changes nothing if and only if no literal wrapped to a negative int |
| JsonRoundTrip.NormalFormOfPlainText | luce/common/json/Parser.cpp:70-97 | parse-print-parse is parse for every text whose literals, outside strings and comments, are neither decimals nor 2^31 or more |
| JsonRoundTrip.ResetNeedsBareComment | luce/common/json/Parser.cpp:190-209 | the cursor can only be reset by a text in which some `//` outside strings and comments has no newline behind it |
| JsonText.SpaceCharacters | luce/common/json/Parser.cpp:38-40 | white space is the six characters of isspace, digits are the ten of isdigit |
| JsonText.GapSkipped | luce/common/json/Parser.cpp:37-48 | any white space and whole comment lines before a token are skipped, up to the token |
| JsonText.GapThere | luce/common/json/Parser.cpp:37-48 | what is skipped before a token is white space and whole comment lines, and the token begins with neither |
| JsonText.TreeParses | luce/common/json/Parser.cpp:13-188 | wherever a tree of tokens with gaps between them stands, parsing yields what it means and stops right behind it |
| JsonText.TreeThere | luce/common/json/Parser.cpp:13-188 | wherever parsing yields a value, a tree that means it stands there and ends where parsing stops |
| JsonText.ParsesExactly | luce/common/json/Parser.cpp:13-188 | parsing from a position returns a value and a cursor if and only if a gap and a tree that means the value stand there and end at the cursor |
| JsonText.FromStringExactly | luce/common/json/Parser.cpp:7-11 | the same for whole texts, trimmed at the right; what stands behind the tree is not looked at |
| JsonText.TextParses | luce/common/json/Parser.cpp:7-35 | every tree with a gap in front and blanks behind is read as what it means |
| JsonText.SpacedTextParses | luce/common/json/Parser.cpp:7-188 | any white space and comments around the tokens of a printed value make no difference |
| JsonText.DecimalReadsBack | luce/common/json/Parser.cpp:85-96 | a double printed as a decimal literal is read back as that literal |
| JsonText.StringErrors | luce/common/json/Parser.cpp:99-117 | which of the two errors a string without end gives |
| JsonText.ScalarErrors | luce/common/json/Parser.cpp:13-35 | which error a malformed value gives, by its first character |
| JsonText.ItemsErrors | luce/common/json/Parser.cpp:135-148 | errors of elements pass through, and only a comma or a closing bracket may follow one |
| JsonText.EntryErrors | luce/common/json/Parser.cpp:163-175 | a key must be a string and only a colon may follow it |
| JsonText.EntriesErrors | luce/common/json/Parser.cpp:163-185 | errors of entries pass through, and only a comma or a closing brace may follow one |
| JsonRestart.GrammarIsTheCode | luce/common/json/Parser.cpp:7-209 | the code with its wrap to position 0 ends with the value or error the grammar defines, after a number of calls bounded by the size of the text; where the grammar meets a reset at a value it never ends, and where at a mark it throws |
| JsonRestart.EndsExactly | luce/common/json/Parser.cpp:7-209 | the parser comes to an end if and only if no comment without newline stands where it looks for a value |
| JsonRestart.ValueAgrees | luce/common/json/Parser.cpp:13-35 | the same from any position of a text, for any outcome of parsing it from the start |
| JsonRestart.LoneCommentLoops | luce/common/json/Parser.cpp:190-209 | the text `//x` is never finished with |
| TaskMachine.InitInv | luce/co/scheduler.cpp:6-10 | a spawned root task satisfies the frame invariant |
| TaskMachine.CallKeepsInv | luce/co/task.h:90-95 | creating an owned task keeps the invariant |
| TaskMachine.SpawnKeepsInv | luce/co/scheduler.cpp:6-10 | detaching a task and handing its handle to the pool keeps the invariant |
| TaskMachine.AwaitSuspendKeepsInv | luce/co/task.h:101-112 | setting the continuation and transferring to the child keeps the invariant |
| TaskMachine.AwaitResumeKeepsInv | luce/co/task.h:126-151 | reading the child's result and destroying its frame keeps the invariant |
| TaskMachine.FinalAwaitKeepsInv | luce/co/task.h:49-69 | the final awaiter's destroy-if-detached and transfer keep the invariant |
| TaskMachine.StepKeepsInv | luce/co/task.h:45-151 | every step of every interleaving keeps: values as in direct style, parent and child agreeing on where each is, one continuation per owned frame |
| TaskMachine.NoUseAfterDestroy | luce/co/task.h:53-62 | a step reads only frames that exist, and a finished child transfers to the very frame that awaits it |
| TaskMachine.Progress | luce/co/task.h:45-151 | while any frame exists some frame can step: control is never lost |
| TaskMachine.StepDoesOneUnit | luce/co/task.h:45-151 | each step takes one off the work outstanding, a number direct style fixes in advance |
| TaskMachine.StepKeepsShares | luce/co/task.h:45-151 | no step makes a task that direct style does not call for, or loses one |
| TaskMachine.TasksRefineDirectStyle | luce/co/task.h:45-177 | every interleaving ends after the same number of steps, and then every promise held its direct-style value, every co_await was resumed once, and every frame was destroyed once: by ~Task if owned, at final suspend if detached |
| TaskMachine.TasksAreThoseOfDirectStyle | luce/co/scheduler.cpp:6-10 | at the end of every interleaving there has been one frame for each task direct style calls for: as many of each value, awaited or spawned, and no others |
| CoThreadPool.EnqueueKeepsLocated | luce/common/blocking_queue.h:11-29 | push and try_push put a handle into one queue and nowhere else |
| CoThreadPool.DequeueKeepsLocated | luce/common/blocking_queue.h:31-56 | pop and try_pop_if move the front handle from its queue into one worker's hand |
| CoThreadPool.StepKeepsLocated | luce/co/co_thread_pool.cpp:35-64 | every step keeps each accepted handle in exactly one place |
| CoThreadPool.StepKeepsPinned | luce/co/co_thread_pool.cpp:43-49 | no step lets a handle scheduled to an explicit id leave that queue and worker |
| CoThreadPool.StepKeepsFifo | luce/common/blocking_queue.h:11-56 | every step keeps each queue's pops a prefix of its pushes, in order |
| CoThreadPool.StepKeepsStopOrder | luce/co/co_thread_pool.cpp:94-110 | queue stop implies stopped_, and a worker that saw its queue empty and stopped leaves only handles that were in flight |
| CoThreadPool.StepKeepsCalls | luce/co/co_thread_pool.cpp:51-62 | a worker whose coroutine is inside ScheduleById stays until the call has pushed and notified, so none leaves with a handle of its own making in its queue |
| CoThreadPool.StepKeepsWakes | luce/common/blocking_queue.h:31-40 | a worker asleep on a queue that has work or is stopped has a notify on its way |
| CoThreadPool.StepKeepsInv | luce/co/co_thread_pool.cpp:35-128 | every step of every interleaving keeps all of the above |
| CoThreadPool.EveryRunIsSafe | luce/co/co_thread_pool.cpp:35-128 | in every run the tickets are the ScheduleById calls made, in order, with the ids they were given; handles are conserved, queues are consumed in push order, a handle scheduled to an id is resumed by that worker only, and a resumed handle is never resumed again |
| CoThreadPool.TicketsAreCalls | luce/co/co_thread_pool.cpp:104-128 | a run adds one ticket for each ScheduleById call, with the id and the caller of that call |
| CoThreadPool.TriesReachEveryQueue | luce/co/co_thread_pool.cpp:112-123 | a call without an id in a stealing pool tries every queue twice, in order, before it pushes to any |
| CoThreadPool.RoundsReachEveryQueue | luce/co/co_thread_pool.cpp:41-49 | a worker tries every queue once, its own first, and takes the front handle of the one whose turn it is if it may |
| CoThreadPool.RoundsEndAtPop | luce/co/co_thread_pool.cpp:41-51 | if no try succeeds it waits at its own queue |
| CoThreadPool.StepKeepsResumed | luce/co/co_thread_pool.cpp:60-62 | no step moves a handle that was resumed |
| CoThreadPool.ResumedOnce | luce/co/co_thread_pool.cpp:60-62 | nor does any run |
| CoThreadPool.FalsePopEndsWorker | luce/co/co_thread_pool.cpp:51-58 | a false pop always ends the worker |
| CoThreadPool.ShutdownDrains | luce/co/co_thread_pool.cpp:94-110 | when all workers have exited, every handle not still being pushed when stopped_ was set has been resumed; if there was none, all queues are empty |
| CoThreadPool.QuietStepsDecrease | luce/co/co_thread_pool.cpp:35-64 | every step the pool takes by itself lowers a natural-number measure |
| CoThreadPool.QuietRunsEnd | luce/co/co_thread_pool.cpp:35-102 | left to itself the pool comes to rest within a bounded number of steps, whatever the schedule |
| CoThreadPool.StuckOnlyWhenFinished | luce/co/co_thread_pool.cpp:35-102 | it rests only when every accepted handle is resumed, or, after shutdown began, when all workers are joined and only handles in flight at that time can be left |
| CoThreadPool.Overtake | luce/co/co_thread_pool.cpp:94-128 | from any state after stopped_ was set, all workers can leave past a handle that is still being pushed or lies in the queue of a worker that has left, except the worker whose coroutine is pushing it |
| CoThreadPool.Deliver | luce/co/co_thread_pool.cpp:104-128 | a call can bring its handle into any queue it may choose while everybody else waits |
| CoThreadPool.StrandInside | luce/co/co_thread_pool.cpp:104-128 | a worker that pushes into the queue of another, when all others have left, loses the handle for good |
| CoThreadPool.Strand | luce/co/co_thread_pool.cpp:94-128 | every handle still being pushed that its caller does not keep to itself can be lost for good |
| CoThreadPool.KeptIsResumed | luce/co/co_thread_pool.cpp:51-62 | one that its caller keeps to itself is resumed before all workers have left |
| CoThreadPool.StrandedForGood | luce/co/co_thread_pool.cpp:35-64 | once all workers have left nothing more is resumed |
| CoThreadPool.ShutdownDrainsExactly | luce/co/co_thread_pool.cpp:94-128 | from every reachable state: every way the shutdown can go resumes all accepted handles if and only if each one still being pushed when stopped_ is set is pushed by a worker that can only push it into its own queue |
| CoThreadPool.LatePushIsStranded | luce/co/co_thread_pool.cpp:108-127 | a run in which a handle accepted before shutdown is pushed after its worker has gone and is never resumed |
| ThreadPool.StepKeepsFifo | luce/common/thread_pool.h:52-53 | every step keeps: the tasks committed are the tasks taken, in order, followed by the queue |
| ThreadPool.StepKeepsRunOnce | luce/common/thread_pool.h:40-60 | every step keeps: a taken task has been run or is being run by its taker, not both |
| ThreadPool.StepKeepsDrained | luce/common/thread_pool.h:90-101 | every step keeps: stop_ implies an empty queue, and no worker has exited before stop_ |
| ThreadPool.StepKeepsWorkersWake | luce/common/thread_pool.h:43-51 | every step keeps: with tasks queued some worker is awake or a Commit has yet to notify; after stop_ a sleeping worker has notify_all coming |
| ThreadPool.StepKeepsCallersWake | luce/common/thread_pool.h:54-57 | with at most one Shutdown caller every step keeps: a caller asleep implies a non-empty queue |
| ThreadPool.EveryRunIsSafe | luce/common/thread_pool.h:37-101 | in every run with at least one worker: the tasks of the Commit calls made before stop_ are the tasks taken, in order, followed by the queue, with the other invariants; once any worker has exited, all of them have been taken |
| ThreadPool.CommittedIsAccepted | luce/common/thread_pool.h:73-87 | a run enqueues the tasks of exactly the Commit calls made while stop_ was unset, in order |
| ThreadPool.CallerWakeUpExactly | luce/common/thread_pool.h:54-95 | the Shutdown caller's wake-up is safe in every run if and only if there is at most one caller |
| ThreadPool.SecondCallerSleepsOn | luce/common/thread_pool.h:54-95 | a run in which a second caller sleeps on with the queue empty |
| ThreadPool.QuietRunsEnd | luce/common/thread_pool.h:37-101 | without new calls the pool comes to rest within a bounded number of steps |
| ThreadPool.StuckOnlyWhenFinished | luce/common/thread_pool.h:37-101 | it rests only with every committed task run, and with Shutdown returned and all workers gone if it was called |
| ThreadPool.LeftAloneItFinishes | luce/common/thread_pool.h:37-101 | from the initial state, after any history: at rest the task of every Commit made before stop_ has been run, and Shutdown has returned if called |
| Bytes.LittleEndianInverse | luce/codec/serializer.h:33-46 | reading back the memory image of an integer gives the integer |
| Bytes.FromLittleEndianInverse | luce/codec/serializer.h:33-46 | every byte string is the image of the integer it is read as |
| Bytes.LittleEndianByte | luce/codec/serializer.h:33-46 | byte k of the image is digit k of the number to the base 256, lowest first |
| Bytes.LittleEndianImages | luce/codec/serializer.h:33-46 | the images of uint16_t, uint32_t and size_t, written out |
| Bytes.CStringWhole | luce/codec/tinypb_coder.cpp:64-66 | a text copied through a char array comes back whole if and only if it is NUL-free |
| Bytes.CStringCut | luce/codec/tinypb_coder.cpp:64-66 | a text is cut at its first NUL and nowhere else |
| SerializerFormat.DecodeEncode | luce/codec/serializer.h:33-167 | wherever the encoding of a value stands within the first 2^31 bytes of a buffer, reading at its type yields the value and stops right behind it |
| SerializerFormat.EncodeSize | luce/codec/serializer.h:33-107 | how many bytes a value occupies: a string has eight in front of it, a sequence four |
| SerializerFormat.WireLayout | luce/codec/serializer.h:33-107 | what stands where: scalar bytes lowest first, a length in front of the contents, elements and members in order |
| SerializerFormat.DecodeHasType | luce/codec/serializer.h:40-167 | any bytes read at a type give a value of that type |
| SerializerFormat.DecodeFits | luce/codec/serializer.h:40-118 | no bytes at any position give a value with a sequence of 2^32 or more elements, and the int cursor stays in its range |
| SerializerFormat.RoundTripExactly | luce/codec/serializer.h:33-167 | for every value, type and suffix: deserializing serialize(v) and the suffix gives v and advances the cursor by its length if and only if every sequence count is below 2^32 and the length below 2^31 |
| SerializerFormat.PrefixFree | luce/codec/serializer.h:33-167 | encodings at one type are self-delimiting: they determine both the value and what follows |
| SerializerFormat.DecodeCutOff | luce/codec/serializer.h:40-167 | reading a value whose encoding is cut short overruns the buffer: no proper prefix passes for a value |
| SerializerFormat.DecodeAtEnd | luce/codec/serializer.h:40-46 | with nothing left, reading overruns if and only if the type occupies bytes |
| Serializer.Serializer.Serialize | luce/codec/serializer.h:33-107 | appends the encoding of the value to the buffer |
| Serializer.Serializer.SerializeItems | luce/codec/serializer.h:104-106 | the element loop appends the elements' encodings in order |
| Serializer.Serializer.SerializeFields | luce/codec/serializer.h:158-162 | appends the members' encodings in order |
| Serializer.Serializer.Deserialize | luce/codec/serializer.h:39-118 | reads what the format defines at the cursor and advances the cursor accordingly |
| Serializer.Serializer.DeserializeItems | luce/codec/serializer.h:109-118 | the loop reads the announced number of elements |
| Serializer.Serializer.DeserializeFields | luce/codec/serializer.h:164-167 | reads the members in order |
| Packet.FramesUnique | luce/io/io_awaiter.cpp:51-102 | a byte stream can be cut into a given number of packets in one way only |
| Packet.FrameBytes | luce/io/io_awaiter.cpp:77-82 | a packet is its length in four bytes, lowest first, and its payload |
| Packet.AsyncWritePacket | luce/io/io_awaiter.cpp:77-102 | exactly the header part that moved and as many body bytes as were written are appended; with a whole header and less than 2^32 bytes that is the start of the frame, all of it on success; it ends as the schedule of the body says, or waits for ever on the header |
| Packet.WriteBody | luce/io/io_awaiter.cpp:84-100 | over any schedule a prefix of the body is written, the whole of it if and only if the schedule carries it; already + remaining never changes |
| Packet.AsyncReadPacket | luce/io/io_awaiter.cpp:51-75 | header bytes and buffer are what was taken off the stream; a header that comes in part is completed by what the stack holds; with a whole header success means one frame was taken and its payload returned; it ends as the schedule says, or waits for ever on the header |
| Packet.ReadBody | luce/io/io_awaiter.cpp:57-73 | over any schedule the bytes taken off the stream are the buffer's contents, as many as announced if and only if it succeeds, which it does if and only if the schedule carries what is there |
| Packet.WriteAll | luce/io/io_awaiter.cpp:77-102 | packets written one after the other leave their frames on the stream; with whole headers all are written if and only if the schedule carries them |
| Packet.ReadAll | luce/io/io_awaiter.cpp:51-75 | what is read is a cutting of the stream into frames, and frames that were sent are all read if and only if the schedule carries them |
| Packet.CarryExplained | luce/io/io_awaiter.cpp:62-70 | loops that do not complete were closed by the peer, failed, or wait for ever |
| Packet.CarryNeeds | luce/io/io_awaiter.cpp:57-100 | a schedule that neither closes nor fails carries everything once as many of its outcomes move something as there are bytes, however small the pieces and however many the retries |
| Packet.Relay | luce/io/io_awaiter.cpp:51-102 | whatever the schedule of short transfers and retries, as long as headers move whole: the packets come out as they went in and leave the stream empty if and only if the schedule carries all the bodies in and out |
| PacketFlow.StepKeepsInv | luce/io/io_awaiter.cpp:51-102 | every transfer of a writer and a reader at work at the same time keeps: what was read is the first of what was sent, and what is on its way makes up the frames in between |
| PacketFlow.StuckOnlyWhenDelivered | luce/io/io_awaiter.cpp:51-102 | they never wait for each other for ever if the stream has room for a header |
| PacketFlow.EveryInterleaving | luce/io/io_awaiter.cpp:51-102 | in every interleaving, over a stream buffer of any size, the packets read are at every moment the first of those sent, the number of transfers is bounded, and a run that cannot go on has delivered everything |
| RpcFormat.ServeRequest | luce/net/rpc/rpc_server.h:56-62 | the server decodes the name and arguments the client encoded and answers with the handler's result |
| RpcFormat.ReadReply | luce/net/rpc/rpc_value.h:37-47 | the client reads back code 0, no message and the handler's result |
| RpcFormat.RequestBytes | luce/net/rpc/rpc_client.h:55-64 | a request is the length of the name, the name and the arguments |
| RpcFormat.ReplyBytes | luce/net/rpc/rpc_value.h:37-41 | a reply is code 0 in two bytes, an empty message and the result |
| RpcFormat.NotFoundReplyReads | luce/net/rpc/rpc_server.h:114-120 | an unbound name is answered with code 1 and "function not bind: " followed by the name, byte by byte, and that is what is read back |
| RpcFormat.UnboundCallOverruns | luce/net/rpc/rpc_server.h:114-120 | an unbound name is answered without a detail value, which the client reads past if and only if the return type occupies bytes |
| Rpc.RpcServer.Bind | luce/net/rpc/rpc_server.h:33-38 | binds the name up to its first NUL and leaves other bindings alone |
| Rpc.RpcServer.CallImpl | luce/net/rpc/rpc_server.h:111-125 | an unbound name gets the not-found reply, a bound one its proxy's |
| Rpc.RpcServer.CallProxy | luce/net/rpc/rpc_server.h:167-183 | the reply is the response to the handler applied to the decoded arguments |
| Rpc.RpcServer.Dispatch | luce/net/rpc/rpc_server.h:57-63 | the reply to a request is the one its name and arguments define |
| Rpc.RpcServer.SendResponse | luce/net/rpc/rpc_server.h:101-109 | the start of the reply's frame is appended, all of it if and only if the schedule carries it |
| Rpc.RpcServer.OnRequest | luce/net/rpc/rpc_server.h:48-70 | one round takes one request frame and appends the frame of the reply defined for it, if and only if the schedules carry them |
| Rpc.BlockingRpcClient.WritePacket | luce/net/rpc/rpc_client.h:148-177 | the part of the header that moved and as many body bytes as returned were appended, all of them if and only if the schedule carries the body |
| Rpc.BlockingRpcClient.ReadHeader | luce/net/rpc/rpc_client.h:108-123 | exactly four bytes are taken off the stream, retrying and polling a closed connection; they are the header if they came in one piece |
| Rpc.BlockingRpcClient.ReadPacket | luce/net/rpc/rpc_client.h:107-146 | after the four header bytes the buffer holds what was taken off the stream; with a header in one piece and a complete body that is one frame; it ends as the schedule says; -1 when reading the header fails |
| Rpc.BlockingRpcClient.SendRequest | luce/net/rpc/rpc_client.h:55-84 | the request frame is appended if and only if the schedule carries it; after a timeout nothing is sent |
| Rpc.BlockingRpcClient.ReceiveReply | luce/net/rpc/rpc_client.h:86-105 | an empty reply is a timeout and is remembered; a failed header read becomes success and reads past an empty buffer; any other reply is decoded as the response; what is received is a prefix of what was sent |
| Rpc.RemoteCall | luce/net/rpc/rpc_client.h:55-177 | over any fragmentation and retries of the bodies, as long as headers move whole: a call of a bound function gets through if and only if the schedules carry request and reply, and the client returns a response if and only if it got through; then that is err_code 0 and the handler's result on the caller's arguments, and both streams are empty |
| Rpc.CutReplyOverruns | luce/net/rpc/rpc_client.h:99-104 | no proper part of a reply is decoded as a response |
| Rpc.EnoughOutcomesCarry | luce/net/rpc/rpc_client.h:125-175 | a schedule that neither closes nor fails carries a packet of n bytes in and out if 2n of its outcomes move something |
| Rpc.UncarriedIsExplained | luce/net/rpc/rpc_client.h:125-175 | a schedule that does not carry a packet closes, fails, or is used up |
| BufPool.ClassOf | luce/io/io_buffer.cpp:92-111 | the smallest size class that holds the request, none above 8 MB |
| BufPool.UnlinkKeepsSound | luce/io/io_buffer.cpp:131-135 | taking a list's head keeps: lists acyclic, of their key's capacity, disjoint from each other and from what is handed out |
| BufPool.RevertKeepsSound | luce/io/io_buffer.cpp:140-152 | putting an outstanding buffer back keeps the same |
| BufPool.HandOutKeepsSound | luce/io/io_buffer.cpp:115-128 | handing out a new buffer keeps the same |
| BufPool.NewListKeepsSound | luce/io/io_buffer.cpp:66-85 | adding a whole free list keeps the same |
| BufPool.PlacesAreDisjoint | luce/io/io_buffer.cpp:92-152 | a buffer on a free list is not handed out and is on no other list |
| BufPool.RevertUndoesUnlink | luce/io/io_buffer.cpp:131-152 | taking a buffer and putting it back restores the pool |
| BufPool.Pool.constructor | luce/io/io_buffer.cpp:36-64 | seven free lists of 5000, 1000, 500, 200, 50, 20 and 10 buffers, 334240 KB accounted for, the invariant established |
| BufPool.Pool.AllocPoolMem | luce/io/io_buffer.cpp:66-85 | one free list of the given number of buffers is added and the summed capacity grows by theirs |
| BufPool.Pool.Install | luce/io/io_buffer.cpp:66-85 | a linked list of new buffers becomes the free list of its capacity; the other lists stay |
| BufPool.Pool.LinkedList | luce/io/io_buffer.cpp:67-84 | the loop links new buffers front to back, ending in null |
| BufPool.Pool.AllocBuf | luce/io/io_buffer.cpp:92-136 | refuses above 8 MB, exits at the memory limit, otherwise hands out a clear buffer of the smallest class that fits, reused if the list has one and new if not; total_mem_ stays the summed capacity and below the limit; no buffer's head or length changes |
| BufPool.Pool.Revert | luce/io/io_buffer.cpp:140-152 | the buffer is cleared and becomes the head of its capacity's list; nothing else changes |
| TimerHeap.SiftUpOrders | luce/timer/timer.h:63-72 | sifting up repairs a heap whose only early timer is the one sifted |
| TimerHeap.SiftDownOrders | luce/timer/timer.h:74-92 | sifting down repairs a heap whose only late timer is the one sifted |
| TimerHeap.PushAdds | luce/timer/timer.h:113-116 | Push adds exactly the new timer |
| TimerHeap.PushKeepsOrder | luce/timer/timer.h:113-116 | Push keeps heap order |
| TimerHeap.EraseRemoves | luce/timer/timer.h:94-98 | Erase(i) removes exactly the timer at i, ordered or not |
| TimerHeap.EraseOrderExactly | luce/timer/timer.h:74-98 | Erase(i) keeps heap order if and only if i is the root or the last timer expires no earlier than i's parent; always for the last slot |
| TimerHeap.FrontIsEarliest | luce/timer/timer.h:102 | the front of an ordered heap is the earliest timer |
| TimerHeap.DrainPermutes | luce/timer/timer.h:94-98 | repeated Erase(0) discharges exactly what was held |
| TimerHeap.DrainSorts | luce/timer/timer.h:46-58 | from an ordered heap it discharges in order of expiry |
| TimerHeap.PopReturnsTheNextTimer | luce/timer/timer.h:104-111 | pop returns the earliest of the timers that stay, never the one it removes |
| TimerHeap.TicksAreOneBehind | luce/timer/timer.h:46-58 | over any clock readings with no other call in between, the k-th firing waits for the k-th timer to expire and starts the task of the next one; the last starts what the dangling reference reads |
| TimerHeap.FirstTaskNeverStarts | luce/timer/timer.h:46-58 | with no other call in between, the task of the earliest timer held is never started |
| TimerHeap.NoFiringStartsItsOwn | luce/timer/timer.h:27-58 | among any calls, every firing waits for the front timer to expire and does not start that timer's task |
| TimerHeap.StepKeepsAccounted | luce/timer/timer.h:27-44 | ids are used once, and timers held plus timers gone are the timers added |
| TimerHeap.StepOrderExactly | luce/timer/timer.h:27-44 | adding and popping keep heap order; removing keeps it if and only if it is harmless, a test on the heap before the call |
| TimerHeap.EveryRun | luce/timer/timer.h:27-116 | over every run ids are unique; after runs whose removals are harmless the heap is ordered, its front earliest and its discharge sorted and complete |
| TimerWitness.RemovalCanDelayATimer | luce/timer/timer.h:36-44 | a run of adds, one removal and two pops with a later timer in front of an earlier one |
| TimerWitness.TaskStartsTwice | luce/timer/timer.h:27-58 | a run in which a timer added between two firings makes the second start the same task again |
| TimerManager.TimerManager.AddTimer | luce/timer/timer.h:27-34 | returns the next id and pushes a timer with it |
| TimerManager.TimerManager.RemoveTimer | luce/timer/timer.h:36-44 | erases the first timer with the id, or nothing |
| TimerManager.TimerManager.HeapifyUp | luce/timer/timer.h:63-72 | the recursive swaps compute the sift up |
| TimerManager.TimerManager.HeapifyDown | luce/timer/timer.h:74-92 | the recursive swaps compute the sift down |
| TimerManager.TimerManager.Erase | luce/timer/timer.h:94-98 | swap, drop and sift compute the erased heap |
| TimerManager.TimerManager.Pop | luce/timer/timer.h:104-111 | erases the root and returns what the front slot then holds |
| TimerManager.TimerManager.Tick | luce/timer/timer.h:46-58 | one round fires if and only if the front has expired, and then starts the task pop returns |
| TinyPbFormat.NetBytesInverse | luce/net/util.h:9-15 | a 32-bit value survives htonl and ntohl |
| TinyPbFormat.FromNetBytesInverse | luce/net/util.h:9-15 | any four bytes are the network form of the value read from them |
| TinyPbFormat.NetBytesAreBigEndian | luce/net/util.h:9-15 | a length is written with its highest byte first |
| TinyPbFormat.FromNetBytesIsBigEndian | luce/net/util.h:9-15 | and read so, as a signed 32-bit value |
| TinyPbFormat.FrameLayout | luce/codec/tinypb_coder.cpp:123-196 | every part of an encoded frame stands at the offset the lengths before it give |
| TinyPbFormat.FrameBytes | luce/codec/tinypb_coder.cpp:123-187 | a frame from front to back, with its start, end and check-sum bytes and the default id |
| TinyPbFormat.EarlyRejections | luce/codec/tinypb_coder.cpp:30-55 | what is turned away before any field is read: no start byte, a length other than that of the input, no end byte, nothing in between |
| TinyPbFormat.DecodeLayout | luce/codec/tinypb_coder.cpp:30-121 | a frame of this layout decodes to its parts with texts cut at their first NUL, or a copy overruns its buffer |
| TinyPbFormat.RoundTripExactly | luce/codec/tinypb_coder.cpp:13-196 | decoding an encoded message restores every field, an empty id as the default, if and only if the texts are NUL-free, the id under 100 bytes and the others under 512 |
| TinyPbFormat.AcceptedLayout | luce/codec/tinypb_coder.cpp:30-121 | decode accepts frames of this layout only |
| TinyPbFormat.FrameRestoredExactly | luce/codec/tinypb_coder.cpp:30-196 | encoding a decoded message restores the frame, check sum apart, if and only if no text in the frame holds a NUL and its id is not empty |
| TinyPbCoder.Put | luce/codec/tinypb_coder.cpp:137-148 | the bytes are written at the pointer, which moves behind them; what precedes is kept |
| TinyPbCoder.WriteFrame | luce/codec/tinypb_coder.cpp:134-187 | the write pointer fills the whole buffer with the frame |
| TinyPbCoder.EncodeTinyPB | luce/codec/tinypb_coder.cpp:123-196 | below 2^31 bytes the buffer holds the message's frame and the message's length fields are stamped; otherwise the int length makes the allocation throw or the copies overrun |
| TinyPbCoder.Encode | luce/codec/tinypb_coder.cpp:13-28 | the frame is appended to the output buffer if and only if it is below 2^31 bytes |
| TinyPbCoder.Decode | luce/codec/tinypb_coder.cpp:30-121 | the fields are filled as the format defines, with its rejections and overruns |
| StringUtil.Find | luce/common/string_util.cpp:58-61 | the first occurrence at or behind the start position, or none |
| StringUtil.Join | luce/common/string_util.cpp:5-24 | the parts with the delimiter between neighbours |
| StringUtil.Split | luce/common/string_util.cpp:90-114 | the pieces between leftmost occurrences, without the empty ones unless they are kept; nothing for an empty text |
| StringUtil.SplitOfNothing | luce/common/string_util.cpp:93-95 | an empty text has no pieces at all |
| StringUtil.NonEmptyFilters | luce/common/string_util.cpp:99-101 | leaving out the empty pieces keeps all others, in order |
| StringUtil.RoundsSplit | luce/common/string_util.cpp:97-112 | with a delimiter the rounds of the loop end, after at most as many as the text is long, in the pieces |
| StringUtil.SplitEndsExactly | luce/common/string_util.cpp:90-114 | on a text that is not empty the loop ends if and only if the delimiter is not empty |
| StringUtil.Replace | luce/common/string_util.cpp:56-63 | the pieces glued with the replacement at the first `count` joints and with the original at the others; for an empty original, `count` replacements in front of the text |
| StringUtil.GlueSome | luce/common/string_util.cpp:56-63 | with fewer replacements than matches the first ones are replaced and the others kept |
| StringUtil.ConcatPieces | luce/common/string_util.cpp:90-114 | the pieces with the delimiter between neighbours are the text |
| StringUtil.PiecesAreLeftmost | luce/common/string_util.cpp:90-114 | each piece ends where the delimiter first occurs |
| StringUtil.SplitUndoesJoin | luce/common/string_util.cpp:5-24 | splitting is the only leftmost decomposition: it gives back any leftmost pieces that were joined |
| StringUtil.NoPieceContains | luce/common/string_util.cpp:90-114 | no piece contains the delimiter |
| StringUtil.ReplaceIsSplitThenJoin | luce/common/string_util.cpp:56-63 | with a count of at least the number of matches the result of Replace is the result of Join on the result of Split |
| StringUtil.JoinUndoesSplit | luce/common/string_util.cpp:5-24 | Join undoes Split with empty pieces kept, on every text |
| StringUtil.ReplaceBothWays | luce/common/string_util.cpp:56-114 | Replace, Split and Join called on one text agree |

## Left out

- Sockets, epoll registration, EventManager, acceptor, TCP server and connection: system calls and wiring; `::read` and `::write` are a script of results.
- HTTP request, response, router and server: shallow string handling.
- JSON doubles: strtof64 and stream formatting are library behaviour; a decimal literal is kept as its text and the printer takes the format as a parameter.
- JObject setters, pop_back and the typed Value accessors: one assignment or one type test each.
- A packet header that moves in pieces: what the code then does is stated packet by packet, but the theorems on whole streams and calls assume that headers move whole.
- AsyncRead and AsyncWrite without header, and the server's unused blocking WritePacket: the same loops with less to say.
- Rpc.RpcServer.Bind: the string_view is taken to end in a NUL, as literals and std::strings do; otherwise `name.data()` reads past it.
- Rpc.BlockingRpcClient.constructor: sets the error code to success; the C++ leaves it uninitialised. Connecting is not modelled.
- RPC functions returning void, member-function Bind, and std::map serialization: the C++ has no usable definition of them.
- Task::run, which reads the promise of a frame that may be gone; yield_value; awaiting one task twice; loops and recursion in coroutine bodies, which are finite trees here.
- Rpc.RemoteCall: client and server take turns; a writer and a reader at work on one stream at the same time are in PacketFlow.
- Memory order and hardware scheduling: lock sections and atomic accesses are single steps; a resumed coroutine or a running task always finishes.
- CoThreadPool.Strand: a try_lock may fail at any time (the C++ standard allows it, and another thread may be in GetItemCount, which is not modelled), so a worker may miss a handle it could steal.
- A coroutine pool built with thread count 0, whose queue vector is empty; CPU affinity; GetItemCount.
- Joining worker threads twice, which a second Shutdown caller would do.
- Exits of the process (`exit(1)`, LOG_FATAL) are results of the modelled call.
- IOBuf contents (Adjust, Copy, pop): a memmove and two additions.
- TimerManager.TimerManager.HeapifyDown: indices are unbounded; the uint32_t arithmetic wraps only in a heap of more than 2^31 timers. Clock reads are a parameter; Tick's thread and 64-bit id wrap-around are not modelled.
- TinyPbCoder.EncodeTinyPB: what the overrun of the heap buffer destroys, for messages of 2^32 bytes or more, is not modelled. The check_sum field is never written or read by the coder and is not a field here.
- StringUtil.Split: an empty delimiter with a text that is not empty is excluded from the method, because the loop never ends on it; SplitEndsExactly says so.
- Trim, StartsWith, EndsWith, Contains, Format: one expression each.
- Logger, Timestamp, file_util, Singleton, CountDownLatch, the second blocking-queue pool, type traits.
