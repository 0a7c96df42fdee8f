# Verified model of graylog-logger

graylog-logger hands log messages to consoles, files and a Graylog server. This
project models its three involved parts and one reader, and proves what they
promise:

* **The option parser of the command-line program** (`console_logger/getopt.h`).
  The parser keeps static state between calls, permutes `argv` lazily and in
  place by following cycles of positions, and resolves abbreviated long options.
  `PermuteArgs` works on an array; `Scanner` is the static state; the parser is
  proved against a scan on lists that never moves an argument.
* **The connection to the Graylog server** (`src/GraylogConnection.cpp`): the
  handlers that resolve, connect, receive, write, wait and post, reconnection,
  and a buffer that is sent in pieces. `Connection` has the fields and handlers;
  each method does what a step machine says, and the properties are proved of
  every run of the machine.
* **The logging pipeline** (`LoggingBase`, `ThreadedExecutor`, the console and
  file handlers): calls put work on one queue, whose worker puts work on the
  queue of each handler.
* **The reader of the NUL-terminated stream** (`unit_tests/LogTestServer.cpp`).

## Files

| file | contents |
|---|---|
| `Gcd.dfy`, `PermuteArgs.dfy` | number theory of the block exchange; the exchange in place |
| `LongOptions.dfy` | which long option a name means |
| `OptionScan.dfy`, `OptionRun.dfy` | reading one option; one call and a whole scan, on lists |
| `ArgvLayout.dfy`, `Getopt.dfy`, `CommandLine.dfy` | the markers; the parser; the client's loop |
| `Reordering.dfy` | scanning the permuted arguments again |
| `OptionGrammar.dfy` | how options with their arguments are spelled, and that they are read back |
| `Framing.dfy`, `LogTestServer.dfy` | the byte stream and its reader |
| `ConnectionModel.dfy`, `ConnectionInvariant.dfy`, `ConnectionSafety.dfy`, `ConnectionEffects.dfy`, `GraylogConnection.dfy` | the connection: steps, invariant, properties, what each step does, class |
| `LogUtil.dfy`, `ThreadedExecutor.dfy` | additional fields; the worker loop |
| `Pipeline.dfy`, `PipelineInvariant.dfy`, `PipelineSafety.dfy`, `PipelineEffects.dfy`, `LoggingBase.dfy` | the pipeline: steps, invariant, properties, what callers get, classes |

## Assumptions about what is not modelled

Option parser: `argv` holds `nargc` strings and a null pointer behind them.
`POSIXLY_CORRECT` is a parameter. A whole run keeps its parameters, and a reset
(`optreset`, or `optind` set to 0) comes before its first call only. The table of
long options is a finite list, as if ended by an entry without a name. The table
of the command-line program (`console_logger/ConsoleLogger.cpp:38-47`) has no
such entry, so that the loop at `console_logger/getopt.h:303` may run past it;
what is proved of a run is proved for that table with an end.

Connection: ready handlers run one at a time in the order in which they became
ready. Closing the socket makes its outstanding operations ready with an error.
Starting to connect opens the socket, which may fail. An operation on a closed
socket becomes ready with an error. A write reports a number of bytes between 0
and its size, and all of them if there is no error. The properties of the reader
assume that bytes reported as written arrive in order, or that at any time some
part of them from the beginning on has arrived, over all the connections made;
bytes lost with a connection are not considered. Setting the timer makes a wait
that is outstanding ready. `try_enqueue` may fail at any time, and so may a
timed dequeue. `std::sort` yields any order that puts IPv4 before IPv6.

Pipeline: each queue is one first-in-first-out sequence, whichever threads put
items into it. Whether a marker is reached in time is up to the environment, but
only a marker that was reached can be in time. `log` reads the severity limit at
one moment and enqueues at another, between which the worker may get on; other
calls are one step. Calls that wait for the worker are not made to wait, so that
the runs considered include all the real ones; what such a call waits for is that
its work has been done. The logger and the handlers take closures off their
queues one at a time, at any moment; that a worker's loop has ended with exactly
the work in front of the stop item done, as `ThreadedExecutor.Destroy` states it,
is the premise of what is proved about destruction. A file's stream may be good
or not whenever a message is to be written.

## Where code and documentation differ

`include/graylog_logger/GraylogInterface.hpp:37-43` lets `flush` return true once
all messages were transmitted and calls an exception possible, though unlikely.
In the code `flush` may also return true with messages unsent, in two ways. If
the queue has no room for the marker, the promise is given up and `flush` returns
true at once; `ConnectionSafety.RejectedFlushIff` says exactly when all earlier
messages are written then, and `RejectedFlushDeliversNothing` gives a run. And on the first
attempt to send after a connection was made, the marker is taken although bytes
are left over from a failed write; by `ConnectionSafety.AcceptedFlushIff` that is
the only case in which an accepted marker is taken with earlier messages not yet
written, and `AcceptedFlushDeliversNothing` gives a run.

A table of long options may have an entry without a flag variable and with the
value -1. Looked up, such an entry is taken for "not found": the parser goes on to
read the name as short options after `optind` has moved on, and may read past the
end of the argument. Only the call that does so is excluded here. As the argument
of `-W` such an entry ends the client's loop early (`CommandLine.MinusOneEntry`).

Without a table of long options a group of letters that ends in `-` ends the scan
without the last permutation (`console_logger/getopt.h:535-536`).
`CommandLine.ParseAll` says that a run misses the partition exactly if it stops
that way and a non-option has been passed over: `optind` is then behind that
non-option. `CommandLine.OrderKeptIff` says that non-options are left in front of
options exactly if an option stands behind the last non-option passed over, and
`CommandLine.DashSkipsExchange` is a run of the parser in which that happens.

The header of `permute_args` promises to keep the order within each block, which
is proved. That the permuted arguments still mean the same to a second scan is
nowhere promised; it is true but for one family of command lines, which
`Reordering.PermutationKeepsMeaningIff` describes.

## Model

| member | source | states |
|---|---|---|
| Gcds.ComputeGcd | console_logger/getopt.h:156-167 | the remainder loop returns a common divisor that no other exceeds |
| Gcds.GcdIsGreatest | console_logger/getopt.h:153-167 | Euclid's recursion yields the greatest common divisor |
| Permutation.CyclesPartitionBlocks | console_logger/getopt.h:179-201 | cycle i returns to its start after (left+right)/gcd moves, visits no position twice, and visits exactly the positions congruent to i: the cycles are disjoint and cover both blocks |
| Permutation.DuringCycle | console_logger/getopt.h:187-201 | within a cycle: passed positions hold their predecessor's element, the start holds the one displaced last, positions ahead are untouched |
| Permutation.AllCyclesExchange | console_logger/getopt.h:187-201 | following all gcd cycles exchanges the two blocks |
| Permutation.FollowCycle | console_logger/getopt.h:188-200 | the inner loop does in place what the cycle does to the block, and leaves the rest of the array alone |
| Permutation.PermuteArgs | console_logger/getopt.h:169-202 | in place: the two blocks trade places, each in its old order; nothing outside them moves |
| LongOptions.FindMatch | console_logger/getopt.h:303-325 | the table loop finds what the name means: the first exact name; else the first eligible abbreviation if all eligible ones agree; ambiguous if two differ; else unknown |
| LongOptions.MeaningIsUnique | console_logger/getopt.h:303-332 | a name has one meaning at most |
| LongOptions.ResolveMeans | console_logger/getopt.h:303-332 | the meaning computed from the first exact name and the first abbreviation is the meaning declared |
| LongOptions.FoundIff | console_logger/getopt.h:303-325 | a name means entry k exactly if k is the first of that name; or if none has it, the name is no single known option letter, and k is the first entry whose name it properly begins, all of them agreeing in has_arg, flag and val |
| LongOptions.AmbiguousIff | console_logger/getopt.h:321-331 | ambiguous exactly if no entry has that name, it is no single known option letter, and two entries whose names it begins differ in has_arg, flag or val |
| LongOptions.UnknownIff | console_logger/getopt.h:303-324 | unknown exactly if it is no entry's name and begins none, unless as a single known option letter |
| LongOptions.ExactNameWins | console_logger/getopt.h:308-313 | an exact name is found whatever abbreviations stand before or behind it |
| Getopt.Scanner.TakeMatch | console_logger/getopt.h:326-391 | code, optarg, optopt, index, flag and arguments used for every outcome of the look-up, with the null pointer behind the last argument for a missing one |
| Getopt.Scanner.ParseLongOptions | console_logger/getopt.h:278-393 | a long option is read as the list model reads it, or left unread if it may be a short one |
| Getopt.Scanner.TakeW | console_logger/getopt.h:544-559 | -W takes the rest of the argument, or the next one, for a long option |
| Getopt.Scanner.TakeArgument | console_logger/getopt.h:563-579 | an attached, following, optional or missing argument |
| Getopt.Scanner.ReadShortOption | console_logger/getopt.h:527-581 | a short option is read as the list model reads it, including unknown letters and the lone dash |
| Getopt.Scanner.TryLong | console_logger/getopt.h:506-525 | the name is looked up with or without its second dash; if not found nothing changes; an entry that delivers -1 leaves optind moved on and place at the name |
| Getopt.Scanner.ReadHere | console_logger/getopt.h:506-581 | long before short: unless an entry found delivers -1, the option that place points to is read as the list model reads it |
| Getopt.Scanner.ExchangeBlocks | console_logger/getopt.h:442-476 | both blocks are non-empty and below optind, so that the arguments still to come never move |
| Getopt.Scanner.PassNonOption | console_logger/getopt.h:472-480 | after any exchange that is due, argv is the options so far, then the non-options with one more passed over, then the rest |
| Getopt.Scanner.Settle | console_logger/getopt.h:438-451 | at the end argv is options, non-options and the rest, with optind behind the options |
| Getopt.Scanner.EndAtDashes | console_logger/getopt.h:490-503 | "--" counts among the options and the non-options come after it |
| Getopt.Scanner.NextArgument | console_logger/getopt.h:435-504 | the loop goes on to the argument at which one step on the lists stops |
| Getopt.Scanner.GetoptInternal | console_logger/getopt.h:399-582 | one call, after a reset or not, in any of the three modes, unless it finds an entry that delivers -1: reports and leaves what one step on the lists does, and the markers stay in order (1 <= start < end <= optind <= nargc, end < optind between arguments); with optind set behind the end of argv it returns -1 and changes nothing |
| Getopt.Scanner.ResetBeginsAnew | console_logger/getopt.h:412-434 | after a reset the scan begins with the argument at optind, or the first one if optind is 0, with nothing passed over or half read |
| ArgvLayout.ExchangeSettlesView | console_logger/getopt.h:475-479 | an exchange brings the options read since the non-options in front of them and changes nothing else of what the layout stands for |
| ArgvLayout.SettleExchanged | console_logger/getopt.h:440-443 | the last exchange and the correction of optind leave options, non-options, rest |
| ArgvLayout.ReadingAdvances | console_logger/getopt.h:484-581 | reading an option moves optind on within the same layout and keeps the markers in order |
| OptionRun.StepFollowsScan | console_logger/getopt.h:434-582 | each call reports the next event of a single left-to-right scan that never permutes and leaves the rest of it to the later calls; the last one leaves the arguments where the scan says, and stops at a lone dash if the scan does |
| OptionRun.SelectionsPartition | console_logger/getopt.h:434-504 | every argument is an option part, an operand or untouched, and none is lost or doubled |
| OptionRun.ScanRoles | console_logger/getopt.h:454-536 | the scan comes, over options with their arguments and non-options, to the place where it ends: the end, a "--" that is no option's argument, a non-option if that is asked for, or a lone dash; exactly the arguments behind it are untouched |
| OptionRun.PassedOver | console_logger/getopt.h:454-481 | what is passed over are non-options, and only when permuting |
| OptionRun.SinceBeginsWithOption | console_logger/getopt.h:454-481 | the options read since the last non-option begin with an argument that is none |
| OptionRun.StopsAtDashIff | console_logger/getopt.h:530-536 | a call takes the exit that skips the final permutation exactly if there is no long option table and it goes on within a group of letters at a dash that ends the group and is no option letter; a call that begins with a new argument never does |
| OptionRun.EndsAtDashIff | console_logger/getopt.h:530-536 | a whole run ends that way exactly if the scan comes to such a dash |
| OptionRun.NeverStopsAtDash | console_logger/getopt.h:535-536 | with a table of long options that exit is never taken |
| OptionRun.EventsBounded | console_logger/getopt.h:434-582 | at most as many results other than the final -1 as there are unread characters, plus one for each argument if non-options are returned in order |
| CommandLine.StepProgresses | console_logger/getopt.h:434-582 | a call that goes on uses up an argument or reads on in it |
| CommandLine.TableOkSuffices | console_logger/getopt.h:519-524 | if no entry without a flag variable has the value -1, no result of a scan has that code |
| CommandLine.MinusOneEntry | console_logger/getopt.h:519-559 | an entry with the value -1: "--ab" is found, uses one argument and yields -1, which is taken for unknown; and "-Wab" yields -1 before the option behind it |
| CommandLine.LastCallFollowsScan | console_logger/getopt.h:434-582 | the calls up to -1 end as the scan does, leaving its lists, unless some result of the scan has the code -1 |
| CommandLine.ParseAll | console_logger/ConsoleLogger.cpp:49-54 | calling until -1 ends, for any table or none, unless a call takes an entry it has found for unknown; the codes and reported variables are those of the left-to-right scan of the arguments as they were, up to the first -1; if no option has the code -1, argv is left stably partitioned with optind behind the options exactly if the run does not stop at a lone dash after passing over a non-option; if it does, the options since the last non-option come behind the non-options |
| CommandLine.FreshRun | console_logger/getopt.h:434-582 | for a run from the beginning the events, the options, the non-options and whether it stops at a lone dash are those of one scan of the arguments |
| CommandLine.OrderKeptIff | console_logger/getopt.h:535-536 | without the last exchange a run from the beginning leaves the arguments in the order of the partition exactly if nothing was passed over or no option comes behind the last argument passed over |
| CommandLine.DashSkipsExchange | console_logger/getopt.h:535-536 | a run of the parser on "x -b -a-" without a table: it reports b and a and leaves "x" in front of "-b", with optind behind both |
| CommandLine.ParseCommandLine | console_logger/ConsoleLogger.cpp:48-136 | the same for a program's own argv and its table, from the initial static state: the results of the scan, at most as many as EventsBounded says, and the arguments rearranged |
| CommandLine.SettledIsPermutation | console_logger/getopt.h:434-504 | a run loses and doubles no argument |
| Reordering.ReadingIsLocal | console_logger/getopt.h:346-356 | how an option is read depends only on the arguments it uses, unless it wants one more than there are |
| Reordering.Reparse | console_logger/getopt.h:434-504 | the options of a scan, read again with non-options behind them (or anything behind "--"), give the same results |
| Reordering.PermutationKeepsMeaningIff | console_logger/getopt.h:434-504 | unless the scan stops at a lone dash, the permuted arguments mean the same to a second scan exactly if the last option does not want an argument or there is no non-option |
| Reordering.PermutationChangesMeaning | console_logger/getopt.h:567-573 | "x -p" for an option p with an argument becomes "-p x", which means something else |
| CommandLine.ObservedAt | console_logger/ConsoleLogger.cpp:49-54 | with each result the client sees its code and optarg; optopt, the index and every flag variable are as the last result that set them left them |
| OptionGrammar.PlainLetter | console_logger/getopt.h:560-562 | a letter without argument, anywhere in a group, is returned; the scan goes on behind it, or with the next argument |
| OptionGrammar.AttachedArgument | console_logger/getopt.h:563-566 | for every letter that takes an argument and every text v that is not empty, the letter followed by v gives optarg v, one argument being used |
| OptionGrammar.FollowingArgument | console_logger/getopt.h:567-579 | with nothing attached, a required argument is the next one, or is complained of with optopt set to the letter; an optional one is missing |
| OptionGrammar.UnknownLetter | console_logger/getopt.h:527-542 | a letter not among the options, and a colon, yield '?' with optopt set to it |
| OptionGrammar.DashAmongLetters | console_logger/getopt.h:528-542 | without a table a dash within a group is unknown, and one that ends it ends the scan unless it is an option letter |
| OptionGrammar.DashAsLetter | console_logger/getopt.h:454-455 | a dash that is an option letter is read as one when alone or at the end of a group |
| OptionGrammar.LongOptionReads | console_logger/getopt.h:296-391 | for every name without '=', with any value v attached by '=' or none: optarg is v, or the next argument if one is required, the code is val, or 0 with val stored in the flag variable, and the index is that of the entry meant; a missing or unwanted argument, an ambiguous and an unknown name are complained of |
| OptionGrammar.LongOnlyReads | console_logger/getopt.h:512-525 | with getopt_long_only a single dash is enough, unless the name is unknown and its first character is an option letter: then it is read as short options |
| OptionGrammar.WReads | console_logger/getopt.h:544-558 | "-Wname" and "-W name" mean what "--name" does, with as many arguments more as they are longer |
| OptionGrammar.WLacksName | console_logger/getopt.h:548-553 | -W without a name is complained of |
| OptionGrammar.ReadingScans | console_logger/getopt.h:506-581 | what is read, be it an option or an error, is the first result of the scan, which goes on behind the arguments used |
| OptionGrammar.ItemsScan | console_logger/getopt.h:434-581 | the scan of any sequence of groups of letters, long options, -W options and non-options, with arguments attached or following, finds exactly these, and goes on with whatever stands behind them |
| OptionGrammar.CommandLineMeans | console_logger/getopt.h:434-581 | so a command line written from such items, closed by nothing, by "--" and more, or by a non-option that stops the scan, yields their results; the words of options, the operands and what is left alone are told apart |
| OptionGrammar.ConfigureReads | console_logger/getopt.h:425-430 | a leading '+' stops the scan at the first non-option, a leading '-' returns non-options in order, and neither is an option letter; otherwise POSIXLY_CORRECT decides |
| Framing.ChunksDoNotMatter | unit_tests/LogTestServer.cpp:93-102 | reading in chunks equals reading at once, wherever the cuts are |
| Framing.RoundTrip | unit_tests/LogTestServer.cpp:93-102 | reading framed messages without NUL, in any chunks, yields exactly them |
| Framing.PrefixYieldsPrefix | unit_tests/LogTestServer.cpp:93-102 | the beginning of a framed stream yields the first messages and a beginning of the next |
| Framing.DecodedFramesBack | unit_tests/LogTestServer.cpp:93-102 | any stream is the framing of what was read from it and a remainder |
| TestServer.LogTestServer.HandleRead | unit_tests/LogTestServer.cpp:79-107 | the byte loop reads the chunk as specified and keeps the last message and the counts, and the next read is started; an error removes the socket, keeps the message half read and starts accepting again; the server keeps waiting for or reading from one connection at a time |
| TestServer.LogTestServer.OnConnectionAccept | unit_tests/LogTestServer.cpp:62-77 | the connection accepted is the only one read from; after an error none is accepted any more |
| TestServer.LogTestServer.RemoveSocket | unit_tests/LogTestServer.cpp:109-116 | the first occurrence of the socket is removed, or nothing |
| TestServer.LogTestServer.GetLatestMessage | unit_tests/LogTestServer.cpp:54-58 | the latest message is handed out once |
| ConnectionInvariant.FirstHandler | src/GraylogConnection.cpp:63-171 | what is outstanding and ready besides a handler that is about to run |
| ConnectionInvariant.TrySendKeeps | src/GraylogConnection.cpp:122-154 | an attempt to send starts one link of the chain and loses no byte |
| ConnectionInvariant.WrittenKeeps | src/GraylogConnection.cpp:156-171 | a write, complete, partial or failed, keeps the invariant |
| ConnectionInvariant.ConnectedKeeps | src/GraylogConnection.cpp:75-92 | a connection made or not made keeps the invariant |
| ConnectionInvariant.ResolvedKeeps | src/GraylogConnection.cpp:63-73 | a lookup, failed or with any sorting of what it found, keeps the invariant: one attempt to connect, or one wait |
| ConnectionInvariant.ReceivedKeeps | src/GraylogConnection.cpp:109-120 | a lost connection keeps the invariant although its last link of the chain may still be ready |
| ConnectionInvariant.TimedOutKeeps | src/GraylogConnection.cpp:94-96 | the end of a wait keeps the invariant: one lookup takes its place |
| ConnectionInvariant.PostedKeeps | src/GraylogConnection.cpp:140-153 | a posted attempt to send keeps the invariant, also when the connection was lost meanwhile and the chain ends |
| ConnectionInvariant.EnqueueKeeps | src/GraylogConnection.hpp:35-38 | an item accepted at any moment keeps the invariant |
| ConnectionInvariant.CompleteKeeps | src/GraylogConnection.cpp:45-180 | an operation that completes, with whatever result, keeps the invariant |
| ConnectionInvariant.ReachableInvariant | src/GraylogConnection.cpp:45-180 | the invariant holds in every state of every run |
| ConnectionSafety.OneControlOneChain | src/GraylogConnection.cpp:45-171 | always one resolve, connect, receive or wait, the one that the status names, so one reconnect per lost connection; never two links of the sending chain, and one while the connection is up |
| ConnectionSafety.BufferStableDuringWrite | src/GraylogConnection.cpp:122-171 | while a write is outstanding the buffer is what the write was given |
| ConnectionSafety.BytesConserved | src/GraylogConnection.cpp:122-171 | bytes written, buffer and framed queue are always the framed messages accepted, in order |
| ConnectionSafety.ReaderGetsMessagesInOrder | src/GraylogConnection.cpp:145-148 | a reader that goes on across reconnects and has any part of the bytes reported written, from their beginning on, has the first messages accepted and a beginning of the next |
| ConnectionSafety.DrainedMeansReceived | src/GraylogConnection.cpp:122-171 | with queue and buffer empty, and all bytes reported written received, it has all of them |
| ConnectionSafety.ItemTakenMeansEarlierWritten | src/GraylogConnection.cpp:122-171 | when an item leaves the queue, all bytes accepted before it are reported written exactly if this is not the first attempt after a reconnect with bytes left over by a failed write |
| ConnectionSafety.AcceptedFlushDelivers | src/GraylogConnection.cpp:204-213 | a flush whose marker was accepted ends only when all earlier messages are written or in the buffer |
| ConnectionSafety.AcceptedFlushIff | src/GraylogConnection.cpp:204-213 | at the step that takes the marker of a flush, all messages accepted before the flush are reported written exactly if this is not the first attempt after a connection was made with bytes left in the buffer |
| ConnectionSafety.AcceptedFlushDeliversNothing | src/GraylogConnection.cpp:75-84 | such a flush: a run of 15 steps in which the marker is accepted and taken, and no byte of the message before it has been written |
| ConnectionSafety.RejectedFlushIff | src/GraylogConnection.cpp:204-213 | a flush whose marker was rejected ends at once; earlier messages are then written exactly if the queue holds none and the buffer is empty, and handed over at all exactly if the queue holds none |
| ConnectionSafety.RejectedFlushDeliversNothing | src/GraylogConnection.cpp:208-212 | such a flush with a message still queued |
| ConnectionSafety.GivesUpAfterAll | src/GraylogConnection.cpp:86-90 | when the last attempt fails, the socket is closed and the next lookup waits for the long delay; every endpoint found was tried once, IPv4 before IPv6 |
| ConnectionSafety.LossWaitsBriefly | src/GraylogConnection.cpp:109-115 | a lost connection is closed and looked up again after the short delay, with nothing left of it but a last link of the chain |
| ConnectionSafety.FailedLookupWaits | src/GraylogConnection.cpp:66-70 | a failed lookup is repeated after the long delay |
| ConnectionSafety.NextEndpointIsTried | src/GraylogConnection.cpp:33-92 | a failed attempt is followed by the next endpoint and one fewer remains |
| ConnectionEffects.WriteFails | src/GraylogConnection.cpp:156-169 | in every run a failed write, whatever part was written, closes the socket and starts nothing on it; the part written counts as sent, the rest stays in the buffer, the queue is unchanged, and the receiver is told |
| ConnectionEffects.WriteSucceeds | src/GraylogConnection.cpp:156-171 | in every run a write that succeeds has sent the whole buffer; while the connection is up the next item is taken and written, or the attempt is posted; otherwise the chain ends |
| ConnectionEffects.PostedRuns | src/GraylogConnection.cpp:122-154 | a posted attempt finds the buffer empty and does the same |
| ConnectionEffects.Connects | src/GraylogConnection.cpp:77-84 | once connected the receiver is started and the bytes left over are written, behind them one item if they are at most 3000 bytes and the queue delivers one in time |
| ConnectionEffects.ConnectFails | src/GraylogConnection.cpp:86-92 | a failed attempt closes the socket and tries the next endpoint, or waits for the long delay if there is none; no byte is lost |
| ConnectionEffects.Resolves | src/GraylogConnection.cpp:63-73 | a lookup is followed by an attempt with one of the endpoints found, IPv4 if there is any, the others coming after it; with the default endpoint if none was found; or by the long wait if it failed |
| ConnectionEffects.LosesConnection | src/GraylogConnection.cpp:109-115 | a failed receive closes the socket and waits for the short delay; a write under way is aborted with the buffer as it is |
| ConnectionEffects.Receives | src/GraylogConnection.cpp:116-119 | what is received is dropped and the receiver started again |
| ConnectionEffects.WaitEnds | src/GraylogConnection.cpp:173-180 | after a wait there is one lookup and nothing else |
| ConnectionEffects.Completes | src/GraylogConnection.cpp:45-180 | the end of an operation makes its own handler ready with the result and changes nothing else |
| ConnectionEffects.Enqueues | src/GraylogConnection.hpp:35-38 | an item goes to the end of the queue if there is room |
| GraylogConnection.Connection.constructor | src/GraylogConnection.cpp:54-61 | the first lookup is under way |
| GraylogConnection.Connection.Enqueue | src/GraylogConnection.hpp:35-38 | an item is queued or refused; the invariant is kept |
| GraylogConnection.Connection.Complete | src/GraylogConnection.cpp:45-180 | an operation that is over makes its handler ready; the invariant is kept |
| GraylogConnection.Connection.RunOne | src/GraylogConnection.cpp:45-197 | running the handler that is due, with all the fields it updates in place, is a step of the machine and keeps the invariant |
| LogUtil.LogMessage.AddField | include/graylog_logger/LogUtil.hpp:86-101 | the search loop replaces the value in place or appends the key |
| LogUtil.LookupPutAll | include/graylog_logger/LogUtil.hpp:86-101 | after any writes each key has its last value, or else the one before |
| LogUtil.KeysPutAll | include/graylog_logger/LogUtil.hpp:86-101 | keys are unique and in the order of their first insertion |
| Executor.ThreadedExecutor.WorkerLoop | include/graylog_logger/ThreadedExecutor.hpp:34-44 | whatever is sent meanwhile, the work in front of the first stop item is done once, in order, and none behind it |
| Executor.ThreadedExecutor.Destroy | include/graylog_logger/ThreadedExecutor.hpp:25-28 | all work sent before the destructor is done before the join |
| Executor.ThreadedExecutor.SendWork | include/graylog_logger/ThreadedExecutor.hpp:29-29 | work goes to the end of the queue |
| Executor.StopBehindTasks | include/graylog_logger/ThreadedExecutor.hpp:25-44 | the work in front of the stop item is the work sent before it |
| PipelineInvariant.ExecuteKeeps | include/graylog_logger/LoggingBase.hpp:43-57 | the worker's step keeps the invariant |
| PipelineInvariant.AnswerKeeps | include/graylog_logger/LoggingBase.hpp:110-131 | a handler that answers in time has dealt with the messages before the flush |
| PipelineInvariant.ReachableInvariant | include/graylog_logger/LoggingBase.hpp:29-54 | the invariant holds in every state of every run |
| PipelineSafety.PipelineRefinesFold | include/graylog_logger/LoggingBase.hpp:36-58 | in every reachable state each handler was sent the messages of a fold over the calls, in order and once, filtered by the limit read by the call, with handlers and base fields as they were when executed; and has written those it has come to with the function set last, as far as its stream was good |
| PipelineSafety.DrainedOutput | src/ConsoleInterface.cpp:30-36 | with empty queues, a handler whose function was never changed and whose stream was always good has written exactly the messages of the fold |
| PipelineSafety.FlushTrueMeansProcessed | include/graylog_logger/LoggingBase.hpp:110-131 | if flush returned true, every handler registered then has dealt with every message logged before |
| PipelineSafety.ComposedFields | include/graylog_logger/LoggingBase.hpp:43-53 | a message's field has its last extra value, or else its base value |
| PipelineSafety.BaseFields | include/graylog_logger/LoggingBase.hpp:102-105 | the base message has the fields that addField wrote; log never changes it |
| PipelineSafety.BaseKeys | include/graylog_logger/LoggingBase.hpp:102-105 | its keys are unique, in the order in which they were first added |
| PipelineSafety.AddedHandlerGetsLaterMessages | src/LoggingBase.cpp:113-120 | addLogHandler waits: once its work is done, a message logged later is sent to the handler unless all handlers are removed in between |
| PipelineSafety.DestroyedMeansSent | include/graylog_logger/ThreadedExecutor.hpp:25-28 | once the logger's worker has ended, exactly the work sent before the destructor has been done, and every handler has been sent the messages of the fold over it |
| PipelineSafety.DestroyedMeansProcessed | include/graylog_logger/ThreadedExecutor.hpp:25-28 | once a handler's worker has ended as well, the handler has dealt with all of them, writing whenever its stream was good; among them every message logged before the logger was destroyed, if the handler was registered for it |
| PipelineSafety.RemovedGetsNothing | src/LoggingBase.cpp:122-129 | after removeAllHandlers a handler is sent nothing, whatever is done, until it is added again |
| PipelineSafety.RegisteredGetsEachOnce | include/graylog_logger/LoggingBase.hpp:54-56 | a handler added once, and not removed or added again, is sent every message logged since exactly once, in order |
| PipelineEffects.LimitIsLastSet | src/LoggingBase.cpp:133-140 | the limit is the one set last by setMinSeverity, and that of a notice before any was set |
| PipelineEffects.CallIsQueued | include/graylog_logger/LoggingBase.hpp:39-43 | in every run a call of log is queued exactly if its severity is not above the limit set last when it reads it; every other call is queued |
| PipelineEffects.SetMinSeverityTakesEffect | src/LoggingBase.cpp:133-140 | once setMinSeverity(L) is done, a later call of log adds its work to the queue exactly if its severity is at most L, unless another limit is set before it reads the limit |
| PipelineEffects.RegisteredAsOftenAsAdded | src/LoggingBase.cpp:113-129 | a handler is registered as often as it was added since all handlers were removed last |
| PipelineEffects.IdentityIsLastFound | src/LoggingBase.cpp:97-109 | host, process id and process name are those found last; a host name that cannot be found leaves the one before |
| PipelineEffects.ComposedTells | include/graylog_logger/LoggingBase.hpp:44-53 | the message made of a call has its text, severity and thread, the time at which it is made, host and process found last, and for each key the value written last by addField or by the call |
| PipelineEffects.MessagesTell | include/graylog_logger/LoggingBase.hpp:43-56 | after any work each handler has been sent, for each call of log in turn, exactly one message for each time it was registered then, and each message tells that call's text, severity, thread, time, identity and fields |
| PipelineEffects.LaterMessageTold | src/LoggingBase.cpp:113-120 | a message logged after addLogHandler has returned is among those sent to the handler, with its text, severity, thread and time, unless all handlers are removed in between |
| PipelineEffects.EachToldOnce | include/graylog_logger/LoggingBase.hpp:43-56 | a handler registered once is sent exactly one message for each call of log since, index by index with that call's contents |
| PipelineEffects.WritesLines | src/FileInterface.cpp:28-42 | a handler writes exactly one line for each message that comes while its stream is good, in their order, each by the function set last before it |
| PipelineEffects.HandlerWrites | src/ConsoleInterface.cpp:30-43 | so it is in every state of every run for the work that the handler has done |
| PipelineEffects.ParserIsQueued | src/ConsoleInterface.cpp:38-43 | a function set goes behind all that the handler was sent before, and concerns no other handler |
| PipelineEffects.SinkDoesNext | include/graylog_logger/ThreadedExecutor.hpp:34-44 | a handler's worker does the next of its work only |
| PipelineEffects.FlushAsks | include/graylog_logger/LoggingBase.hpp:113-118 | a flush asks each handler registered when it is carried out, as often as it is registered |
| PipelineEffects.MarkerIsQueued | src/FileInterface.cpp:44-50 | a handler that is asked puts its marker behind all it was sent before; other handlers are left alone |
| PipelineEffects.AnswerInTime | src/FileInterface.cpp:51-51 | an answer in time means that every message sent before is dealt with; it changes no other handler's answer |
| PipelineEffects.FlushResult | include/graylog_logger/LoggingBase.hpp:119-131 | flush returns true exactly if every handler registered has answered in time, and false exactly if one has not |
| Logging.LoggingBase.LoadMinSeverity | include/graylog_logger/LoggingBase.hpp:39-39 | the limit read is that of the work done so far |
| Logging.LoggingBase.SendUnlessBelow | include/graylog_logger/LoggingBase.hpp:39-58 | the call is given up or queued, by the limit that it has read, though the worker may have got on since |
| Logging.LoggingBase.Log | include/graylog_logger/LoggingBase.hpp:36-58 | both in one: the call is given up or queued by the limit of the work done so far |
| Logging.LoggingBase.Request | src/LoggingBase.cpp:113-140 | the other calls are queued |
| Logging.LoggingBase.ComposeMessage | include/graylog_logger/LoggingBase.hpp:44-53 | the copy of the base message gets the extra fields and the call's values |
| Logging.LoggingBase.DeliverToHandlers | include/graylog_logger/LoggingBase.hpp:54-56 | each handler is sent the message as often as it is registered |
| Logging.LoggingBase.ChangeSettings | src/LoggingBase.cpp:97-138 | handlers, base message and limit after each kind of work |
| Logging.LoggingBase.DoWork | include/graylog_logger/LoggingBase.hpp:43-57 | each kind of closure changes what it owns and nothing else: handlers' queues for a message, the flush for a flush, settings for the others |
| Logging.LoggingBase.ExecuteNext | include/graylog_logger/LoggingBase.hpp:43-57 | the worker's next closure is a step of the machine |
| Logging.LoggingBase.AskHandler | include/graylog_logger/LoggingBase.hpp:115-118 | a handler asked to flush is sent its own marker, behind all it was sent before |
| Logging.LoggingBase.TakeAnswer | include/graylog_logger/LoggingBase.hpp:120-122 | its answer is recorded, in time only if the marker was reached |
| Logging.LoggingBase.FinishFlushing | include/graylog_logger/LoggingBase.hpp:119-127 | the loop over the answers returns whether all were in time |
| Logging.LogHandler.AddMessage | src/FileInterface.cpp:28-35 | the message goes to the end of the handler's queue |
| Logging.LogHandler.SetMessageStringCreatorFunction | src/ConsoleInterface.cpp:38-43 | so does the new function |
| Logging.LogHandler.RunNext | src/FileInterface.cpp:28-52 | the handler's worker writes the message with the function set last if the stream is good then, changes the function, or reaches a marker |

## Left out

- Getopt.Scanner.GetoptInternal: a null `options` string, printing of warnings, characters with a negative code, and the caching of `POSIXLY_CORRECT` are not modelled; what a call does after an entry found has delivered -1 is not followed beyond TryLong, because it may read past the end of the argument.
- CommandLine.ParseAll: runs with such a call are excluded for the same reason.
- CommandLine.ParseCommandLine: the table of the command-line program is taken with an end, which it lacks in the source.
- Logging.LoggingBase.Request: returns without waiting; that the waiting calls wait is a premise of AddedHandlerGetsLaterMessages.
- Logging.LogHandler.RunNext: the text made without a function set by the user is a parameter.
- TestServer.LogTestServer.CloseFunction: the sockets' shutdown calls.
- Sockets, name lookup, timers and the shutdown of the asio service: replaced by the assumptions above.
- The lock-free queues and the approximate queue sizes: replaced by sequences.
- `fmt_log`, JSON text, time formats, host and process name lookup: foreign calls.
- The Graylog handler as a handler of the pipeline: its flush is weaker than that of the console and file handlers, as described above.
- `Log.cpp`, `Logger.cpp`, `GraylogInterface.cpp`, `Semaphore.hpp`, the rest of the command-line program: forwarding and glue that would add easy members only.
