# A verified model of the webserv libraries

The repository holds a small C++20 asynchronous library (`src/async-core`), an HTTP/1.1 library on top of it
(`src/http`), a parser for nginx-style configuration (`src/config-parser`) and a server (`src/webserv.cpp`).
This project models the parts that carry an algorithm or a protocol and proves what they are for.
`dafny verify dfyconfig.toml` checks all of it.

| files | what they model |
|---|---|
| `Bytes`, `Ordering`, `Folds` | byte buffers, C strings, `std::to_string`/`std::stoul`/`std::atoi`, the iteration order of `std::map`, histories |
| `MessageParser`, `MessageAnswers`, `ChunkInvariance` | the resumable request and response parsers, what they answer to which input, and how chunks may be cut |
| `HeldBytes`, `NulCuts` | what the bytes held between chunks, those behind them, and a NUL among them do |
| `Serializer`, `WriteEntity` | the serializers, and the loops of short writes |
| `MessageRoundTrip`, `Transport` | what survives serializing and parsing; a message from writer to reader |
| `ForwardList`, `MpmcQueue`, `Channel`, `ThreadPool`, `JoinEnds` | the linked list, the queue, all interleavings of a channel, the thread pool and the end of its shutdown |
| `SharedState`, `Futures`, `FuturesSafety`, `FuturesCost`, `Sums`, `PromiseContainer` | promise cells, chains of `map` and `flatmap` under any schedule, how long they run, `collect` |
| `ConfLexer`, `ServConf`, `ConfGrammar`, `ConfErrors`, `ConfRoundTrip`, `Config`, `ConfigMeaning`, `ConfiguredRoute` | tokenizer, recursive parser, its grammar, its errors, its round trip, the table of servers, what the blocks say, and the way from text to location |
| `EventLoop`, `Routing` | one-shot event handlers, and the choice of server and location |

Code that updates fields or loops is a class or a method here, each proved equal to a function of the old state;
the theorems are about those functions. Protocols between threads are machines whose steps are the sections under
the mutex, and the theorems range over all runs. The two HTTP parsers are the same text but for three places, so
they are one machine with a `Kind`.

Ranges of the results that the code itself decides:

- **Held bytes.** Between two chunks the parser holds the start of an unfinished header line and later makes a C
  string of it (src/http/parsers/HttpRequestParser.cpp:28-29). The vector ends without a NUL, so the source reads on
  behind it. The model takes the bytes found there as an input, `past`. `PastExact` says for every parser and chunk
  when they make no difference: nothing or a NUL is held, no line is closed, or the line is decided without them.
  At line starts and in the body nothing is held, and the theorems on chunks hold whatever lies behind; for a cut
  inside a header line they ask for a NUL there (`Quiet`).
- **Header lines.** Where the held bytes come back, a cut between header bytes is harmful exactly when the next chunk
  starts with a line feed (`HeaderCutExact`). A NUL before the cut is another matter: it loses bytes of the line, and
  `NulCutRequest`, `NulCutStatus` and `NulCutHeader` say exactly when the parser notices. Behind a bare blank line the
  cut is harmful before a line feed (`BodyCutExact`).
- **Which messages survive.** A message comes back exactly when it is `Sendable`: tokens without spaces, no line
  feed, keys without a colon, and a Content-Length that reads as the size of the body (`RoundTripExact`).
- **The count of `write_all`.** It completes with a number of bytes, but the recursion does not add up
  (src/async-core/io/FutWrite.hpp:71-72), so the number is right exactly when one write took everything (`CountExact`). `write_entity` reports 0. Delivery is therefore stated over the bytes that the writer saw.
- **`fastest`.** A promise set again after its callback was dispatched from `set_callback` uses an emptied callback
  (src/async-core/future/detail/_shared_state.hpp:71-76); `FastestExact` says when. It also shows that, when several
  inputs complete before the callback is attached, `fastest` delivers the last of them, not the first.
- **Futures that never end.** A `flatmap` function may ask for itself again, so a program need not finish. It can
  finish exactly when every chain has a value, and then all schedules take the same number of steps.
- **Configuration.** Words pending before `}` are dropped and the end of the input closes open blocks; both are in
  the grammar.

## Model

| member | source | states |
|---|---|---|
| Bytes.DecimalRoundTrip | src/http/writers/HttpResponseSerializer.cpp:14 | the text of `to_string` is read back by `atoi`, and by `stoul` when it fits 64 bits |
| Bytes.DecimalIsOnto | src/http/writers/HttpResponseSerializer.cpp:14 | every digit string without leading zeros is what `to_string` writes for its value |
| Bytes.NumberIsRead | src/http/parsers/HttpResponseParser.cpp:97 | of any text, split into blanks, a sign, digits and the rest: `atoi` and `stoul` give the number the digits write, negated or wrapped at 2^64 by a minus; `stoul` fails without digits and from 2^64 on |
| Bytes.CStringStops | src/http/parsers/HttpRequestParser.cpp:28-29 | a C string is what lies before the first NUL |
| Ordering.InOrder | src/webserv.cpp:109 | a map iterates over exactly its keys, each after all smaller ones |
| Ordering.LessExact | src/webserv.cpp:109 | a key is smaller exactly when it is a proper prefix, or smaller at the first character that differs |
| MessageParser.RequestOrResponseParser.constructor | src/http/parsers/HttpRequestParser.hpp:15-49 | a new parser is in the fresh state of its kind |
| MessageParser.RequestOrResponseParser.HandleBody | src/http/parsers/HttpRequestParser.cpp:123-139 | `read_body` takes the missing bytes and no more; GET is ready at once; without a valid length it throws |
| MessageParser.RequestOrResponseParser.HandleFirstLine | src/http/parsers/HttpResponseParser.cpp:138-159 | the fields and the error that `ParseFirstLine` gives, the fields assigned before an error included; `RequestLineExact` and `StatusLineExact` say what these are |
| MessageParser.RequestOrResponseParser.HandleLine | src/http/parsers/HttpRequestParser.cpp:45-61 | first line or header line; an error makes the parser ready |
| MessageParser.RequestOrResponseParser.HandlePart | src/http/parsers/HttpRequestParser.cpp:7-71 | one call of the parser on a chunk is `Feed` of the old state and of the bytes behind the held ones, exceptions included |
| MessageParser.RequestOrResponseParser.TakeEntity | src/http/parsers/HttpResponseParser.cpp:105-119 | the entity or the stored error; the status code is read |
| MessageParser.Feed | src/http/parsers/HttpResponseParser.cpp:6-70 | any chunk leaves a valid state: the body is never longer than its length, and nothing is held back once the body has begun |
| MessageAnswers.RequestLineExact | src/http/parsers/HttpRequestParser.cpp:142-160 | three parts between the first two blanks are accepted as they stand if and only if none is empty |
| MessageAnswers.StatusLineExact | src/http/parsers/HttpResponseParser.cpp:138-159 | a status line is accepted if and only if its parts are not empty and its code lies in 100..599; which error comes first otherwise |
| MessageAnswers.FewTokens | src/http/parsers/HttpRequestParser.cpp:145-152 | a first line with fewer than two blanks is a parse error of its kind |
| MessageAnswers.HeaderLineExact | src/http/parsers/HttpRequestParser.cpp:74-85 | the key ends at the first colon, one character after it is dropped whatever it is; without that character it throws, without a colon it is an error |
| MessageAnswers.RequestStream | src/http/parsers/HttpRequestParser.cpp:7-160 | what reading a request of any three parts and any header lines answers, in any admissible pieces: error, GET without body, exception for a missing or unreadable length, the body of exactly that length, or waiting |
| MessageAnswers.ResponseStream | src/http/parsers/HttpResponseParser.cpp:6-159 | the same for a response with any text as its code |
| MessageAnswers.StatusRangeExact | src/http/HttpResponse.hpp:18-25 | a status line with a printed code is accepted if and only if 100 <= code < 600, and else answered with the invalid-status error |
| MessageAnswers.BadHeaderStream | src/http/parsers/HttpResponseParser.cpp:51-57 | a header line without a colon after any good ones answers the parse error of its kind; one that its only colon ends throws |
| MessageAnswers.ReceivedIsSound | src/http/parsers/HttpResponseParser.cpp:105-119 | whatever is read, in whatever pieces: an empty code is never used, and an entity received has non-empty parts, a code in 100..599, and a body of exactly the declared length (none for GET) |
| ChunkInvariance.ChunksJoin | src/http/parsers/HttpRequestParser.cpp:12-67 | feeding a then b gives the full state and the answer of feeding a + b, if the bytes held between come back: always at a line start and in the body |
| ChunkInvariance.HeldExact | src/http/parsers/HttpRequestParser.cpp:26-31 | held bytes come back if and only if there are none, or they hold no NUL and a NUL lies behind them |
| ChunkInvariance.BodyIsPrefix | src/http/parsers/HttpRequestParser.cpp:40-43 | the header lines end at a line start, a blank line follows, and the body is a prefix of what comes after it, all of it while more is wanted |
| ChunkInvariance.Stable | src/http/parsers/HttpRequestParser.cpp:40-57 | an answer once given does not depend on later bytes |
| ChunkInvariance.HeaderCutExact | src/http/parsers/HttpRequestParser.cpp:23-38 | in the headers, a cut that gives the held bytes back is harmless if and only if the next chunk does not start with a line feed (or one chunk is empty) |
| ChunkInvariance.BodyCutExact | src/http/parsers/HttpRequestParser.cpp:36-42 | after the headers a cut is harmless if and only if it is not between a bare blank line and a line feed, or the whole body would be line feeds either way |
| HeldBytes.PastExact | src/http/parsers/HttpRequestParser.cpp:26-34 | the bytes behind the held ones make no difference if and only if they are not read (nothing held, a NUL held, no line closed) or the line is settled: a first line already rejected; a header written again later in the chunk; or, for a line that ends in its colon and so throws, one that is written again later where the later lines write nothing new and throw at a header line themselves |
| HeldBytes.PastEntersVersion | src/http/parsers/HttpRequestParser.cpp:155 | a request line cut inside its version gets the bytes behind the held ones into its version |
| NulCuts.NulCutRequest | src/http/parsers/HttpRequestParser.cpp:27-34 | a request line accepted in one piece survives a cut if and only if no NUL comes before it |
| NulCuts.NulCutStatus | src/http/parsers/HttpResponseParser.cpp:26-33 | a status line survives a cut if and only if no NUL comes before it, or NUL and cut lie in the code and the rest of the code reads the same |
| NulCuts.NulCutHeader | src/http/parsers/HttpRequestParser.cpp:53-60 | a header line accepted in one piece survives a cut if and only if no NUL comes before it, or neither reading makes a difference: the header is there already or written again later, and what the cut leaves is such a header too, or ends the headers where the later lines write nothing and end alike |
| NulCuts.NewHeaderIsLost | src/http/parsers/HttpRequestParser.cpp:53-60 | a header with a new name is always lost when the cut leaves no header line |
| NulCuts.NulCutLosesBytes | src/http/parsers/HttpRequestParser.cpp:28-29 | an input on which a NUL before the cut changes the parser's answer |
| ChunkInvariance.LaterChunkIsDefined | src/http/parsers/HttpRequestParser.cpp:23-24 | the byte before the chunk is read only when the chunk starts with a line feed |
| Serializer.MessageSerializer.constructor | src/http/writers/HttpRequestSerializer.cpp:7-32 | first line, headers in map order, blank line, as C strings; the body untouched |
| Serializer.MessageSerializer.GetData | src/http/writers/HttpResponseSerializer.cpp:39-57 | what is handed out and what remains is what remained: each part once |
| Serializer.ReadyAfterBoth | src/http/writers/HttpRequestSerializer.cpp:38-70 | a serializer is ready if and only if two or more parts were taken, and has then handed out the whole message |
| Serializer.MessageSerializer.IsReady | src/http/writers/HttpResponseSerializer.cpp:59-71 | ready exactly when the next part is empty and taking it changes nothing; then nothing remains |
| WriteEntity.WriteAllDelivers | src/async-core/io/FutWrite.hpp:52-80 | for any short writes the writer has seen a prefix of the data, and all of it on success |
| WriteEntity.WriteMessageDelivers | src/async-core/io/FutWrite.hpp:83-113 | the same for head and body of a serializer, without gap or repetition |
| WriteEntity.WriteAllSends | src/async-core/io/FutWrite.hpp:52-80 | the writer has seen as much as the writes offered to take up to the first failure, and no more than there was |
| WriteEntity.DoneExact | src/async-core/io/FutWrite.hpp:70-74 | without a failure the write completes if and only if there was a write and all bytes were taken, and waits otherwise |
| WriteEntity.WriteMessageFails | src/async-core/io/FutWrite.hpp:99-100 | a write that fails while the message is being written ends it with that error, nothing more is sent, and later writes are not used |
| WriteEntity.BrokenExact | src/async-core/io/FutWrite.hpp:65-66 | writing ends with an error if and only if a write failed with it while the earlier ones left the message unfinished |
| WriteEntity.CountExact | src/async-core/io/FutWrite.hpp:61-78 | the reported count is the size of the data if and only if one write took it all |
| WriteEntity.CountForgets | src/async-core/io/FutWrite.hpp:71-72 | two one-byte writes report one byte |
| WriteEntity.WriteAllFinishes | src/async-core/io/FutWrite.hpp:52-80 | writes that take something finish after at most as many writes as bytes, one for empty data |
| WriteEntity.WriteMessageFinishes | src/async-core/io/FutWrite.hpp:83-113 | the same for a whole message, counted part by part |
| MessageRoundTrip.AnyHeadIsRead | src/http/parsers/HttpRequestParser.cpp:14-62 | any accepted first line and any `key: value` lines, in any order and with repeated keys, put the parser at the start of the body with that first line and those fields written in turn |
| MessageRoundTrip.LastFieldWins | src/http/parsers/HttpRequestParser.cpp:60 | of fields with one key the last is kept, and no other key appears |
| MessageRoundTrip.HeadIsRead | src/http/parsers/HttpRequestParser.cpp:14-62 | the printed head puts the parser at the start of the body with the message's first line and headers |
| MessageRoundTrip.WireIsPrinted | src/http/writers/HttpRequestSerializer.cpp:15-31 | the text printed for a message without NULs: the parts of the first line between blanks, `key: value` lines in key order, an empty line, the body |
| MessageRoundTrip.BareLineIsRead | src/http/parsers/HttpRequestParser.cpp:23-38 | a line that ends in a line feed alone is read as the same line, and a line feed right behind it is skipped |
| MessageRoundTrip.RequestLineIsRead | src/http/parsers/HttpRequestParser.cpp:142-160 | the printed request line gives back its three tokens |
| MessageRoundTrip.StatusLineIsRead | src/http/parsers/HttpResponseParser.cpp:138-159 | the printed status line gives back version, decimal code and status |
| MessageRoundTrip.RoundTripExact | src/http/writers/HttpRequestSerializer.cpp:7-32 | a message fed back whole returns if and only if it is `Sendable` |
| MessageRoundTrip.DecimalDeclaresBody | src/http/parsers/HttpRequestParser.cpp:88-103 | a Content-Length printed from the body's size declares the body |
| Transport.PiecesJoin | src/async-core/io/FutRead.hpp:99-122 | for any parser and any stream, well-formed or not: reading it in pieces whose cuts are admissible answers what feeding it at once answers |
| Transport.SplitsAgree | src/async-core/io/FutRead.hpp:99-122 | two admissible splits of one stream agree |
| Transport.BodyOfStream | src/http/parsers/HttpRequestParser.cpp:123-139 | the body of whatever is received is a prefix of what follows the blank line in the stream |
| Transport.FaultIsAnswered | src/async-core/io/FutRead.hpp:109-110 | a read that fails while the parser waits completes the future with its error, whatever would be read later |
| Transport.AnswerStands | src/async-core/io/FutRead.hpp:112-119 | an answer is unchanged by any later reads and failures; while there is none, the later reads go on from the same parser |
| Transport.FaultExact | src/async-core/io/FutRead.hpp:99-122 | reading ends with an error if and only if some read failed with it before there was an answer |
| Transport.StreamIsRead | src/async-core/io/FutRead.hpp:91-123 | a stream that starts with a message gives that message in any pieces that keep header line ends; unconditional in what lies behind held bytes for cuts at line starts and in the body, with a NUL there for cuts inside a header line |
| Transport.EndToEnd | src/async-core/io/FutWrite.hpp:83-113 | any short writes followed by any such reads give the entity sent |
| Transport.RequestEndToEnd | src/http/parsers/HttpRequestParser.cpp:7-160 | the same for a request named by its parts |
| Transport.ResponseEndToEnd | src/http/parsers/HttpResponseParser.cpp:6-159 | the same for a response named by its parts |
| ForwardList.List.constructor | src/async-core/mpmc-queue/detail/forward_list.hpp:78-84 | a dummy node that is head and tail: the empty sequence |
| ForwardList.List.PushBack | src/async-core/mpmc-queue/detail/forward_list.hpp:115-122 | appends one node and one value; the chain stays acyclic and ends in the tail |
| ForwardList.List.PopFront | src/async-core/mpmc-queue/detail/forward_list.hpp:128-144 | removes the first value, and resets the tail with the last |
| ForwardList.List.IsEmpty | src/async-core/mpmc-queue/detail/forward_list.hpp:124-126 | head is tail exactly when the sequence is empty |
| MpmcQueue.UnboundedMPMCQueue.Push | src/async-core/mpmc-queue/mpmc_queue.hpp:66-75 | refuses exactly when no consumer is counted, else appends |
| MpmcQueue.UnboundedMPMCQueue.PopOrWait | src/async-core/mpmc-queue/mpmc_queue.hpp:77-87 | one turn of the loop: the first value, closed, or a wait |
| MpmcQueue.UnboundedMPMCQueue.TryPop | src/async-core/mpmc-queue/mpmc_queue.hpp:89-96 | closed, nothing, or the first value |
| MpmcQueue.UnboundedMPMCQueue.DecrProducers | src/async-core/mpmc-queue/mpmc_queue.hpp:58-64 | all sleepers are notified when the last producer goes |
| Channel.StepKeepsInv | src/async-core/mpmc-queue/mpmc_queue.hpp:43-96 | every step of every thread and handle keeps the three invariants below |
| Channel.Safety | src/async-core/mpmc-queue/mpmc_queue.hpp:58-87 | in every reachable state: counters are the live handles, popped ++ queued == pushed, sleepers are outnumbered |
| Channel.SomeoneIsAwake | src/async-core/mpmc-queue/mpmc_queue.hpp:77-87 | a non-empty or closed queue never has all its poppers asleep |
| Channel.ErrorsExact | src/async-core/mpmc-queue/mpmc_queue.hpp:66-96 | `send` fails if and only if no receiver lives; `recv` reports closed if and only if no sender lives and all was popped |
| Channel.ClosedForever | src/async-core/mpmc-queue/mpmc_queue.hpp:110-144 | a closed channel stays closed and takes nothing more |
| Channel.ReceivedInOrder | src/async-core/mpmc-queue/mpmc_queue.hpp:66-87 | what is received is always a prefix of what was sent, and only grows |
| Channel.CanSend | src/async-core/mpmc-queue/mpmc_queue.hpp:66-75 | a live sender can send in every state, whoever sleeps |
| Channel.SendExact | src/async-core/mpmc-queue/mpmc_queue.hpp:66-75 | in any run a send appends its value to those sent, and wakes one sleeper if there are any, if and only if a receiver lives; else it changes nothing |
| Channel.ReceiveExact | src/async-core/mpmc-queue/mpmc_queue.hpp:77-96 | in any run a receive gets the first value sent and not yet received; without one, `pop` returns exactly when no sender lives and sleeps otherwise |
| ThreadPool.CreateIsARun | src/async-core/executors/StaticThreadPool.hpp:49-71 | the pool's handles come from a new channel by copying and dropping |
| ThreadPool.MoveKeepsInv | src/async-core/executors/StaticThreadPool.hpp:19-100 | every move of pool and workers keeps the pool invariant |
| ThreadPool.NoThrow | src/async-core/executors/StaticThreadPool.hpp:24-31 | no worker sees a closed channel; `execute` throws exactly in a pool of no workers; no pill is refused |
| ThreadPool.Shutdown | src/async-core/executors/StaticThreadPool.hpp:92-100 | jobs start once each in the order sent; at join all have, the queue is empty, each worker took one pill |
| ThreadPool.SubmittedExact | src/async-core/executors/StaticThreadPool.hpp:81-90 | a pool with workers has taken exactly the jobs given to `execute`, in order |
| ThreadPool.StartedExact | src/async-core/executors/StaticThreadPool.hpp:23-36 | a job starts exactly when a worker goes over to running it, and that worker is busy until the job ends |
| ThreadPool.JoinIsNotStuck | src/async-core/executors/StaticThreadPool.hpp:96-97 | while joining, some worker can go on without a spurious wake-up |
| JoinEnds.JoiningEnds | src/async-core/executors/StaticThreadPool.hpp:92-100 | once joining, every schedule takes exactly the same number of steps, counted from queue and workers, and is then joined; before that a step is always possible |
| SharedState.State.SetValue | src/async-core/future/detail/_shared_state.hpp:52-61 | stores, or dispatches and clears the callback |
| SharedState.State.SetCallback | src/async-core/future/detail/_shared_state.hpp:71-76 | stores, or dispatches and leaves the emptied callback engaged |
| SharedState.State.CallByExecutor | src/async-core/future/detail/_shared_state.hpp:25-30 | moves value and callback into the job |
| SharedState.FastestExact | src/async-core/future/future.hpp:176-192 | which value the callback of `fastest` gets, and when an emptied callback is used |
| Futures.ValueIsUnique | src/async-core/future/future.hpp:70-102 | a chain has at most one evaluation |
| Futures.StartDenotes | src/async-core/future/future.hpp:64-66 | a chain without operations has the value its promise is set to |
| Futures.MapDenotes | src/async-core/future/future.hpp:70-81 | `map` applies its function to the value of the chain |
| Futures.FlatMapDenotes | src/async-core/future/future.hpp:85-102 | the value of a `flatmap` is the value of the inner chain |
| FuturesSafety.StepKeepsInv | src/async-core/future/future.hpp:64-102 | every set, call and attach, in any order, keeps the delivery invariant |
| FuturesSafety.RightValueAtMostOnce | src/async-core/future/detail/_shared_state.hpp:52-76 | in every interleaving a terminal callback is called at most once, with the value its chain denotes, and nothing emptied is used |
| FuturesSafety.CallIsRecorded | src/async-core/future/future.hpp:64-66 | a terminal callback is recorded behind those called before it, with its own chain and value, and only when it is called |
| FuturesSafety.CallsGrow | src/async-core/future/future.hpp:64-66 | in any run the completions up to one moment are the first ones at every later moment |
| FuturesSafety.AllCalledAtTheEnd | src/async-core/future/future.hpp:64-102 | when no job is left every terminal callback has been called |
| FuturesSafety.ScheduleIndependence | src/async-core/future/future.hpp:70-102 | two complete schedules make the same calls |
| FuturesSafety.LocksNestInOrder | src/async-core/future/detail/_shared_state.hpp:52-76 | locks nested by callbacks that are called on the spot, from a set or from an attach, never repeat a cell, and any two such paths meet shared cells in the same order |
| FuturesCost.StepTakesOne | src/async-core/future/future.hpp:85-102 | every step takes exactly one off the weight of what is set, called and attached |
| FuturesCost.CompleteExact | src/async-core/future/detail/_shared_state.hpp:25-30 | a run has at most the budget of its chains as steps, and is complete if and only if it has as many |
| FuturesCost.RunCompletes | src/async-core/future/future.hpp:70-102 | every partial run of chains with values goes on to a complete one |
| FuturesCost.CascadeStopsExact | src/async-core/future/future.hpp:85-102 | some run completes if and only if every chain has a value |
| FuturesCost.EndlessRetry | src/async-core/io/FutWrite.hpp:61-75 | a `flatmap` that asks for itself again never completes |
| PromiseContainer.SharedContainer.AddValue | src/async-core/future/detail/_promise_container.hpp:44-57 | appends; calls and clears a held callback once enough values are there |
| PromiseContainer.SharedContainer.SetCallback | src/async-core/future/detail/_promise_container.hpp:67-74 | calls at once with all values, or holds |
| PromiseContainer.CollectExact | src/async-core/future/future.hpp:145-174 | wherever the callback comes among the adds: one call with all values when there are n before it, else with the first n, else none |
| PromiseContainer.CollectAtAnyTime | src/async-core/future/future.hpp:156-172 | over any run of futures: nothing before n completions, then one delivery, in completion order, by different futures, of the values they denote |
| PromiseContainer.CollectIsFixed | src/async-core/future/detail/_promise_container.hpp:44-57 | once n futures have completed the delivery is settled: at every later moment of the run it is made of the completions up to then, in the order in which they came |
| PromiseContainer.CollectAtTheEnd | src/async-core/io/out-of-context/ExecutionContext.cpp:34-36 | a complete run has made as many adds as there are futures, so the barrier opens |
| ConfLexer.Tokenize | src/config-parser/serv-conf/ServConf.cpp:9-41 | the loops compute the tokens of the character machine |
| ConfLexer.TokensAreTokens | src/config-parser/serv-conf/ServConf.cpp:20-37 | every token is a word without key characters, one mark, or a comment |
| ConfLexer.TokensJoined | src/config-parser/serv-conf/ServConf.cpp:19-41 | the tokens joined are the input without blanks outside comments and without the newlines that end comments |
| ConfLexer.WordExact | src/config-parser/serv-conf/ServConf.cpp:20-22 | characters other than the seven key characters make one word, up to the next key character |
| ConfLexer.KeyCharExact | src/config-parser/serv-conf/ServConf.cpp:23-37 | blank, line feed and tab only separate; braces and semicolon are tokens of their own |
| ConfLexer.CommentExact | src/config-parser/serv-conf/ServConf.cpp:26-33 | a hash sign begins one token that goes on to the end of the line |
| ConfLexer.LayoutInsensitive | src/config-parser/serv-conf/ServConf.cpp:23-33 | blanks and comments at any token boundary of any text leave the other tokens as they are |
| ConfLexer.RenderIsRead | src/config-parser/serv-conf/ServConf.cpp:9-41 | tokens written with any layout that separates words are read back |
| ServConf.TokenList.Parse | src/config-parser/serv-conf/ServConf.cpp:43-105 | the recursion over the shared list equals the machine with a stack of open blocks, errors included |
| ServConf.From | src/config-parser/serv-conf/ServConf.cpp:107-116 | tree or error of a whole text |
| ConfGrammar.GrammarExact | src/config-parser/serv-conf/ServConf.cpp:43-105 | items are read from tokens if and only if they are well-formed and written by those tokens, comments aside |
| ConfErrors.ErrorExact | src/config-parser/serv-conf/ServConf.cpp:55-103 | the parser fails with an error if and only if one scan over balance, last token and last mark finds that error |
| ConfErrors.ViableExact | src/config-parser/serv-conf/ServConf.cpp:49-104 | tokens can be completed to a configuration if and only if no error has been reported for them |
| ConfErrors.ErrorIsFirst | src/config-parser/serv-conf/ServConf.cpp:55-103 | the error is that of the first token that no configuration could have there, or of the end of the input |
| ConfRoundTrip.SourceOrder | src/config-parser/serv-conf/ServConf.cpp:67-76 | the nodes of a key are those written with it, in source order, at every depth |
| ConfRoundTrip.ItemsRoundTrip | src/config-parser/serv-conf/ServConf.cpp:107-116 | any well-formed items in any layout are parsed to their tree |
| ConfRoundTrip.RoundTrip | src/config-parser/serv-conf/ServConf.cpp:9-105 | parsing the print of any tree of words and non-empty blocks gives the tree |
| ConfRoundTrip.PrintedAgain | src/config-parser/serv-conf/ServConf.cpp:107-116 | every parsed tree is such a tree, so printing and parsing it again changes nothing |
| ConfRoundTrip.SameConf | src/config-parser/serv-conf/ServConf.cpp:50-53 | blanks and comments at token boundaries change neither tree nor error of any text |
| Config.GetLocation | src/config-parser/Config.cpp:51-96 | the loop over the location blocks computes `LocationsOf`, which `LocationsExact` and `LocationsErrorExact` characterise |
| Config.LastLocationWins | src/config-parser/Config.cpp:93 | every path names the last location written for it |
| Config.ServersExact | src/config-parser/Config.cpp:114-136 | reading stops at the first server block that fails, and goes through exactly when none does |
| Config.From | src/config-parser/Config.cpp:98-143 | the table has exactly the addresses listened on, each with its servers in source order, or there is the error of `ConfigErrorExact`; `ServerExact` says what a server is |
| ConfigMeaning.LocationExact | src/config-parser/Config.cpp:62-94 | a location is read from a block if and only if the block has one argument, its path, and `root`, `proxy_pass` and `cgi` are each the one argument of the one operator of that name or empty without one, and the methods are the arguments of `accepted_method` |
| ConfigMeaning.LocationErrorExact | src/config-parser/Config.cpp:62-88 | the error of a location block, in the order operator, argument count, `root`, `proxy_pass`, `cgi`, `accepted_method`, each with its text |
| ConfigMeaning.LocationsExact | src/config-parser/Config.cpp:59-96 | locations are read if and only if there are location blocks and all of them are locations; the map holds the last one for each path |
| ConfigMeaning.LocationsErrorExact | src/config-parser/Config.cpp:56-66 | no location block, or the error of the first block that is not a location |
| ConfigMeaning.ServerExact | src/config-parser/Config.cpp:114-134 | a server is read if and only if `listen` is the one argument of its one operator or 80 without one, the names are the arguments of `server_name`, and the locations are read |
| ConfigMeaning.ServerErrorExact | src/config-parser/Config.cpp:117-132 | the error of a server block, in the order `listen`, `server_name`, locations |
| ConfigMeaning.ConfigErrorExact | src/config-parser/Config.cpp:98-142 | the configuration fails if and only if there is no http block, no server block, or a server block that is not a server: the first of those in the text gives the error |
| ConfigMeaning.OperatorsWritten | src/config-parser/serv-conf/ServConf.cpp:67-76 | in terms of the text: a block has one operator of a name with these arguments if and only if exactly one item in it starts with that name, and it is that operator |
| Routing.PrefixOrder | src/webserv.cpp:109-119 | of two prefixes of one path the later in map order is the longer |
| Routing.FindServer | src/webserv.cpp:87-102 | the first server that names the host |
| Routing.ChooseLocation | src/webserv.cpp:108-121 | keeping the last match gives the longest configured prefix that accepts the method, or none when there is none |
| Routing.GetLocation | src/webserv.cpp:80-122 | server, location, no location, or the exception on an empty list |
| Routing.AnswerIsUnique | src/webserv.cpp:80-122 | no request has two answers of that description |
| ConfiguredRoute.TextToLocation | src/webserv.cpp:80-122 | from the text of a configuration: a request is answered with a location if and only if that is the longest fitting one among the last written for each path in the first server block, in the order of the text, whose `listen` and `server_name` serve it; and an address in the table always has a server |
| ConfiguredRoute.TableExact | src/config-parser/Config.cpp:135 | an address is in the table if and only if some server block is on it |
| EventLoop.ExecutionContext.AddHandlerForEvent | src/async-core/io/out-of-context/ExecutionContext.hpp:57-61 | watches and stores, or throws and changes nothing |
| EventLoop.ExecutionContext.HandleBatch | src/async-core/io/out-of-context/ExecutionContext.cpp:19-32 | one wakeup: each event unwatched, its handler taken out and run |
| EventLoop.BatchRuns | src/async-core/io/out-of-context/ExecutionContext.cpp:19-36 | a wakeup runs exactly the handlers due, in order, keeps the others, and throws only when a handler adds a watched descriptor |
| EventLoop.BatchRegisters | src/async-core/io/out-of-context/ExecutionContext.hpp:57-61 | after a wakeup that goes through, all registrations of its handlers are there in order: reported descriptors are unwatched, added ones watched, and each waits for the handler that was added with it |
| EventLoop.BatchExact | src/async-core/io/out-of-context/ExecutionContext.cpp:19-36 | a wakeup goes through if and only if no descriptor is added twice in it, and none that was watched before its own event has come |
| EventLoop.MayRegister | src/async-core/io/out-of-context/ExecutionContext.hpp:57-61 | a handler can add exactly what is not watched and its own descriptor, each once |
| EventLoop.OneShot | src/async-core/io/out-of-context/ExecutionContext.hpp:33-43 | over any run: interest set == handler keys, every registration waits or has run, none twice, and the missing-handler exception is unreachable |

## Left out

- Sockets, pipes, acceptors and the epoll, kqueue and poll wrappers: reads and writes are arbitrary chunks and counts, the interest set is a set of descriptors.
- A descriptor that is closed while it is watched, which the operating system forgets by itself.
- CGI, static files, the server's pipeline, the echo servers, coroutine adapters, `Res`, `unique_function` and the thread-local buffer: language adapters and foreign calls.
- The copy and move operations of `forward_list`: the queue does not use them.
- What lies behind the bytes of `not_handled_data` in memory, beyond being some bytes up to a NUL: reading them is undefined in the language, and the model lets them be anything.
- Integers: `atoi` and the required amount of `collect` are unbounded, and 2^32 live handles are not reached. `stoul` has its 64-bit limit.
- Moved-from strings and containers are taken to be empty, which the language leaves open.
- Handles that are dropped or moved while a thread is inside `pop` on them.
- Workers that begin to receive while `create` is still handing out receivers: the pool starts when all have theirs.
- Destructors of `forward_list` and of the pool beyond `shutdown`.
- ThreadPool.MoveKeepsInv: the worker loop and the loops of `shutdown` are moves of a machine, not loops of a method, because they interleave.
- WriteEntity.WriteAllDelivers, and Transport.StreamIsRead likewise: the recursion through `flatmap` is a recursive function over the answers of the low-level writes and reads; the futures in between are those of the module Futures.
- `read_until`, `try_get`, `get_value` and `with_executor`: no caller in the modelled parts depends on their order.
- FuturesSafety.StepKeepsInv: an executor that runs a callback on the spot does several of these steps in one; what it does is still one of the runs.
- FuturesSafety.ScheduleIndependence: the future that a `flatmap` function returns is made when the function is called, as everywhere in the repository; one that was made earlier and is handed over (src/async-core/future/future.hpp:93) is not modelled.
- FuturesSafety.RightValueAtMostOnce: each promise is set once and each future has one callback; more than one set is in SharedState.FastestExact, and what follows the use of an emptied callback is not modelled.
- The lock order of the inner future that a `flatmap` function returns, and of other locks its function takes: FuturesSafety.LocksNestInOrder follows the callbacks that wait or are being attached.
- Real memory order, and the registry used by several threads at once: `loop` does not lock what `add_handler_for_event` locks, and the server runs both on one thread.
- The end of a run after an exception leaves the loop, the pool or the parser.
- Header names that differ in case, chunked transfer coding and persistent connections: not in the code.
