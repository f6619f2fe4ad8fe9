# Verified models of the operating-systems exercises

The repository holds C programs written for two operating-systems courses. Several are small but
complete concurrent or distributed protocols. This project models their logic in Dafny and proves
what the programs rely on, for every input, every number of processes and every interleaving.

Check it with `dafny verify dfyconfig.toml`.

## How the models are built

* A **protocol** is a state machine: a `State`, labelled steps with `Enabled` and `Apply`, runs as
  sequences of states, an inductive invariant, and a measure that every step decreases. Statements
  such as "every run ends" or "nothing is stuck" are about all runs, so no fairness assumption is
  needed: runs are finite and a state without an enabled step is shown to be the intended one.
* **Code that changes things in place** is a method over an array or a class with mutable fields. Its
  contract ties the new state to the specification function that the lemmas are about.
* System calls are steps or parameters: short reads are any positive number of bytes, `rand()` and
  arriving replies are functions of the call number, the network is a set of datagrams from which
  any datagram may be delivered any number of times in any order or never.

| file | program | main result |
|---|---|---|
| `SopNet.dfy`, `UdpServer.dfy`, `UdpClient.dfy`, `UdpTransfer.dfy`, `UdpReplay.dfy` | stop-and-wait file transfer over UDP | a client that finishes has had its whole file delivered by one server session (`EndToEnd`), and any file can be delivered any number of times (`DeliveredManyTimes`) |
| `WhisperingRing.dfy` | ring of clients over message queues of capacity 2 | the game completes if and only if words + 1 <= 3 clients + 2 (`RingCapacity`) |
| `AllPairs.dfy` | two teams exchanging records over n x n pipes | no deadlock, exactly 4 n^2 operations (`ExchangeCompletes`) |
| `Notification.dfy` | one-shot queue notification, re-armed before draining | no message is stranded (`NothingLost`) |
| `BoundedBuffer.dfy` | producer and consumer with condition variables | FIFO refinement, no double sleep, termination (`BufferCorrect`) |
| `CardRing.dfy` | card game around a ring of pipes | cards are conserved, bounded skew, no deadlock before a win (`GameSafety`) |
| `Voting.dfy` | voting server with reusable descriptors | seats and votes are a function of the event history (`ServerRefinesHistory`) |
| `RobustMutex.dfy` | a process killed while holding a mutex | the producer always finishes if and only if the mutex is robust or the consumer never dies (`RobustnessNeeded`) |
| `PathBuffer.dfy` | worker threads counting bytes of queued files | each string freed once, histogram exact, who returns (`BufferSafety`, `WholeProgram`, `WhoReturns`) |
| `Shuffle.dfy` | Fisher-Yates with scaled division | a bijection between choices and orders, all orders reached (`EveryOrderReached`) |
| `SplitToggle.dfy` | a file split over children that toggle the case of letters | for which files and numbers of children the parts make up the toggled file (`OutputsMakeUpFile`) |
| `Requirements.dfy` | package list kept in a text file | the text refines a map (`FileRefinesMap`) |
| `LineEditor.dfy` | append, delete and print lines of a file | agreement with the unique list of lines (`DeleteRemovesLine`, `PrintsLines`) |

## What the code does not do

The models follow the code. Where it falls short of what one might expect, the exact condition is
proved.

* The UDP server forgets a session with its last chunk, so old copies of datagrams can open another
  one: exactly-once holds per session, and globally for no file at all. For every file and every
  n > 0 there is a run in which its client sends it once and n sessions each deliver the whole of
  it (`UdpReplay.DeliveredManyTimes`, `UdpReplay.NeverAtMostOnce`).
* The UDP server claims a slot before it looks at the chunk number, so a late copy of a later chunk
  leaves an empty session behind. Finished transfers can keep the whole table occupied if and only
  if there are five of more than one chunk (`UdpReplay.WhenTableCanBeTaken`); everybody else is
  then ignored (`UdpReplay.FinishedClientsFillTable`).
* The UDP server prints payloads with `%s`, which stops at the first NUL and reads on behind the
  buffer if there is none. What it shows are the parts of the file if and only if the file has one
  chunk and no NUL (`UdpTransfer.WhatIsShown`); the delivery results are about payloads.
* In the whispering ring the parent sends everything before it receives anything, which blocks for
  ever as soon as the ring is too small for the sentence (`WhisperingRing.NeverSendsAll`).
* Toggling chunks separately is not toggling the file, unless every chunk with a letter starts after
  an even number of letters of the file (`SplitToggle.OutputsMakeUpFile`); two children already fail
  on "ab" (`SplitToggle.TwoLettersFail`).
* Appending a line and deleting the last one restores only files that are empty or end in a newline
  (`LineEditor.AppendDelete`, `LineEditor.TerminatedIs`); "a" is one that it loses
  (`LineEditor.AppendDeleteLoses`). Appending to a file that holds a NUL
  byte leaves the file as it was (`LineEditor.AppendLine`).
* The letter counter walks the directory before it starts workers, so more files than buffer slots
  means that nothing is ever counted; and its workers test the queue length without the lock, so
  with two or more workers and at least one file some run leaves a worker waiting for ever
  (`PathBuffer.WholeProgram`, `PathBuffer.WhoReturns`). A popped path stays allocated only until
  as many pushes as there are slots have followed its own (`PathBuffer.FreedWhen`).
* The comment above the wiring loops of the all-pairs exchange calls `read_fds` the ends a player
  writes to; the code stores read ends there, and the model follows the code.

## Model

| member | source | states |
|---|---|---|
| SopNet.NtohlHtonl | sop2/lab04/udp_test/udp_client.c:50-56 | the header numbers survive the byte-order round trip, for every 32-bit value |
| SopNet.HtonlIsBigEndian | sop2/lab04/udp_test/udp_client.c:50-56 | a header word holds the two's complement number, most significant byte first |
| SopNet.BulkRead | sop2/lab04/sop_net.h:152-168 | under any schedule of short reads the result is the longest available prefix of the rest of the file, contiguous, and nothing else in the buffer changes, unless a read failed |
| SopNet.File.Read | sop2/lab04/sop_net.h:152-168 | what one read may do: any positive number of bytes, 0 only at end of file, or an error that changes nothing |
| UdpServer.Server.FindIndex | sop2/lab04/udp_test/udp_server.c:42-63 | the sender's own slot if there is one, else the last free slot, claimed with chunk number 0, else -1 and no change |
| UdpServer.Server.constructor | sop2/lab04/udp_test/udp_server.c:73-74 | the table starts with all five slots free, whatever was in memory |
| UdpServer.Server.OnDatagram | sop2/lab04/udp_test/udp_server.c:65-105 | one turn of the receive loop: the verdict (deliver, repeat, ignore, table full), the payload handed to printf, whether the datagram is echoed, and the new table; in terms of the number alone, chunks up to the one after the session's last are echoed, only that one is delivered, and the table changes accordingly |
| UdpServer.ServedIsDeterministic | sop2/lab04/udp_test/udp_server.c:79-103 | the specification of a turn leaves no freedom: slot, verdict and new table are determined |
| UdpServer.ServedCases | sop2/lab04/udp_test/udp_server.c:79-103 | an already delivered chunk is acknowledged again and changes nothing, the next one is delivered, counted, acknowledged and ends the session if flagged, a later one is ignored |
| UdpServer.ServedKeepsSessions | sop2/lab04/udp_test/udp_server.c:42-103 | one slot per address is kept; an occupied slot is never reassigned and its chunk number grows by at most one; a datagram is dropped for want of room exactly when all slots belong to others |
| UdpClient.Chunks | sop2/lab04/udp_test/udp_client.c:46-66 | a file of length L makes floor(L / 568) + 1 chunks |
| UdpClient.Part | sop2/lab04/udp_test/udp_client.c:48-55 | chunk k carries at most 568 bytes and is short exactly when it is the last |
| UdpClient.PacketFields | sop2/lab04/udp_test/udp_client.c:50-56 | the datagram of chunk k reads back as number k, flagged exactly when k is the last, with the zero-padded part as payload |
| UdpClient.BuildChunk | sop2/lab04/udp_test/udp_client.c:48-56 | reading and header writing in the reused buffer produce exactly that datagram, for every short-read schedule |
| UdpClient.ConfirmChunk | sop2/lab04/udp_test/udp_client.c:57-65 | the retry loop performs exactly the exchanges of the client machine for one chunk, confirmed or given up |
| UdpClient.DoClient | sop2/lab04/udp_test/udp_client.c:37-67 | for every file, read schedule and reply schedule the loop sends what the client machine sends, at most six datagrams per chunk, ends as the machine ends, and has then sent every packet in order if it ended normally |
| UdpClient.Exchange | sop2/lab04/udp_test/udp_client.c:19-66 | one send and wait of the machine: retry, give up after the sixth, next chunk, or finished; an unanswered wait leaves the previous reply in place |
| UdpClient.ClientOkSteps | sop2/lab04/udp_test/udp_client.c:46-66 | the client's invariant (counter, send budget, position) is kept by sending and by waiting, whatever arrives |
| UdpClient.GivesUpAfterSix | sop2/lab04/udp_test/udp_client.c:58-65 | the client gives up exactly after sending one chunk six times in a row without a datagram of that number in return |
| UdpClient.MachineSendBound | sop2/lab04/udp_test/udp_client.c:58-66 | no schedule of replies makes the client send more than six datagrams per chunk |
| UdpClient.SentInOrder | sop2/lab04/udp_test/udp_client.c:46-66 | without immediate repeats, the datagrams sent are the packets of chunks 1, 2, ... in order, for any replies; DoClient adds that a normal end has sent all of them |
| UdpTransfer.RunInv | sop2/lab04/udp_test/udp_server.c:75-104 | the joint invariant of clients, network, table and session logs holds on every run |
| UdpTransfer.ServeSession | sop2/lab04/udp_test/udp_server.c:79-103 | what an answered datagram does to the log of the one session that answers |
| UdpTransfer.DeliverExtends | sop2/lab04/udp_test/udp_server.c:81-95 | delivering a genuine datagram appends exactly the next chunk of its sender's file |
| UdpTransfer.SessionSafety | sop2/lab04/udp_test/udp_server.c:42-103 | on every run, with foreign senders present: one slot per address, every session log is exactly chunks 1..k of its sender, an occupied slot's chunkNo is the length of its session's log, and every acknowledgement c in flight is backed by a session that delivered 1..c |
| UdpTransfer.EndToEnd | sop2/lab04/udp_test/udp_client.c:46-66 | under any loss, duplication and reordering, a client that left its loop without giving up had all its chunks delivered, in order, by one single session, whose payloads are the file followed by zeros |
| UdpTransfer.DeliveryAt | sop2/lab04/udp_test/udp_server.c:85-95 | entry k of such a log is chunk k, flagged exactly when it is the last |
| UdpTransfer.ContentIsFile | sop2/lab04/udp_test/udp_client.c:48-56 | the payloads of chunks 1..k are the first k * 568 bytes of the file continued by zeros |
| UdpTransfer.WhatIsShown | sop2/lab04/udp_test/udp_server.c:89-93 | printf shows every delivered part as it is if and only if the file has one chunk and no NUL |
| UdpReplay.ServeChunk | sop2/lab04/udp_test/udp_server.c:79-103 | with chunk k + 1 on the network, a slot whose session stands at k, or the last free slot if k is 0, takes it and the slot is free again after the last |
| UdpReplay.RepeatAcknowledged | sop2/lab04/udp_test/udp_server.c:83-96 | from any point of a session, a copy of a chunk already delivered can be acknowledged again without any change to the session |
| UdpReplay.Transfer | sop2/lab04/udp_test/udp_client.c:46-66 | over a network that behaves, a client at any chunk finishes and its session becomes complete, with all its packets left on the network |
| UdpReplay.Replay | sop2/lab04/udp_test/udp_server.c:75-104 | those packets alone complete a further session for the same address |
| UdpReplay.DeliveredManyTimes | sop2/lab04/udp_test/udp_server.c:87-91 | for every file, any other files and every n > 0, a run with n complete sessions for the one transfer of that file |
| UdpReplay.NeverAtMostOnce | sop2/lab04/udp_test/udp_server.c:87-91 | no file is delivered at most once on every run |
| UdpReplay.LateChunk | sop2/lab04/udp_test/udp_server.c:55-84 | a copy of chunk 2 or later, of an address without a session, occupies the last free slot with an empty session |
| UdpReplay.FinishedClientsFillTable | sop2/lab04/udp_test/udp_server.c:55-84 | any five transfers of more than one chunk can all finish and leave the five slots to empty sessions of theirs, every other address being ignored |
| UdpReplay.RunNoShort | sop2/lab04/udp_test/udp_server.c:79-95 | on no run is a slot occupied for the client of a one-chunk file: the turn that claims it frees it |
| UdpReplay.WhenTableCanBeTaken | sop2/lab04/udp_test/udp_server.c:42-95 | some run leaves all slots occupied for finished clients if and only if five of the files have more than one chunk |
| WhisperingRing.RingCapacity | sop2/lab02/zad03/zad03.c:139-164 | every run is finite; when nobody can move, the game is complete if w + 1 <= 3m + 2 and otherwise the parent is blocked in a send with every place full |
| WhisperingRing.NeverSendsAll | sop2/lab02/zad03/zad03.c:139-150 | with w + 1 > 3m + 2 no run completes the sending loop |
| WhisperingRing.Capacity | sop2/lab02/zad03/zad03.c:17-68 | the first i clients and their queues never hold more than 3i + 2 messages |
| WhisperingRing.StuckSending | sop2/lab02/zad03/zad03.c:144-150 | a parent that is stuck while sending faces full queues and clients all the way round |
| WhisperingRing.StuckAfterSending | sop2/lab02/zad03/zad03.c:65-87 | after the last send the only state without a step is the completed game, everybody having left |
| WhisperingRing.PendingStep | sop2/lab02/zad03/zad03.c:65-87 | each step performs exactly one of the queue operations still to be done |
| WhisperingRing.RunInv | sop2/lab02/zad03/zad03.c:65-161 | steps taken plus operations pending are constant, so no run exceeds 2 (m + 1) (w + 1) steps |
| WhisperingRing.StreamPreserved | sop2/lab02/zad03/zad03.c:67-86 | item k in flight or received is the image of message k: same order, count and lengths, and only the terminator looks like one |
| WhisperingRing.LeftStep | sop2/lab02/zad03/zad03.c:70-75 | a client has left exactly when everything up to the terminator has passed it |
| WhisperingRing.UnmangledGame | sop2/lab02/zad03/zad03.c:77-83 | a completed game returns as many words of the same lengths, and with p = 0 the words themselves |
| WhisperingRing.Mangle | sop2/lab02/zad03/zad03.c:77-83 | the loop draws every character of the string in place; length, terminator and what lies behind the string stay, and no terminator is made, for all rand() results |
| WhisperingRing.DrawnInOrder | sop2/lab02/zad03/zad03.c:81-82 | one result of rand() decides by r % 100 < p whether a character is replaced, and only then the next one chooses the letter 'a' + r % 26 |
| WhisperingRing.FinalMessage | sop2/lab02/zad03/zad03.c:152-161 | the collected message is the received words joined by single spaces, and split at spaces it gives them back |
| WhisperingRing.JoinAt | sop2/lab02/zad03/zad03.c:158-160 | in joined words, word k stands behind the words before it and one space for each, and there is nothing else |
| WhisperingRing.TokensOfJoin | sop2/lab02/zad03/zad03.c:139-161 | what strtok makes of joined words are the words, in their order |
| WhisperingRing.FinalIsSentence | sop2/lab02/zad03/zad03.c:139-161 | with p = 0 the final message of a completed game has the words of the sentence, in order |
| WhisperingRing.JoinKeepsLength | sop2/lab02/zad03/zad03.c:152-161 | so it is as long as the words joined by single spaces, however mangled, and fits the sentence's buffer |
| AllPairs.CreatePipes | sop2/lab01/prelab/prelab.c:79-97 | the triple loop gives every ordered pair of opponents its own pipe, written at one end and read at the other |
| AllPairs.AddPipe | sop2/lab01/prelab/prelab.c:91-94 | one iteration extends a correct partial wiring by one pipe |
| AllPairs.RunInv | sop2/lab01/prelab/prelab.c:51-76 | pipe contents and received records are what the rounds of both players say, and each step is one operation |
| AllPairs.Unblocked | sop2/lab01/prelab/prelab.c:69-74 | if any player is unfinished somebody can step: a player j blocked in round k waits for opponent k, stuck in a round below j |
| AllPairs.ExchangeCompletes | sop2/lab01/prelab/prelab.c:51-76 | every run has at most 4 n^2 steps and can stop only after all of them, with every opponent's record received once in index order and all pipes empty |
| Notification.SendInv | sop2/lab02/mq_test2/forum.c:115-116 | a message into an empty queue turns the registration into a handler and keeps the token invariant |
| Notification.HandlerInv | sop2/lab02/mq_test2/forum.c:46-76 | re-arming, receiving and stopping keep it, for any number of handlers at once |
| Notification.HandlersNeverBlock | sop2/lab02/mq_test2/forum.c:56-76 | the system is without a handler step exactly when no handler is left |
| Notification.NothingLost | sop2/lab02/zad04/zad04.c:42-69 | registering never collides, armed plus not yet re-armed handlers are one, a non-empty queue has a live handler, and when none is left everything sent was received once, in order |
| Notification.AnyMessagesDelivered | sop2/lab02/mq_test2/forum.c:56-76 | any sequence of messages can be sent and received, each notified to a handler of its own, through a queue with room for one |
| Notification.Process.RegisterNotification | sop2/lab02/mq_test2/forum.c:46-54 | the registration step, failing exactly when one is already in place |
| Notification.Process.ReceiveOne | sop2/lab02/mq_test2/forum.c:65-74 | one turn of the drain loop, ending exactly on an empty queue |
| Notification.Process.HandleMessages | sop2/lab02/mq_test2/forum.c:56-76 | an undisturbed handler leaves the registration armed, the queue empty and everything received |
| BoundedBuffer.RingIsQueue | sop2/lab03/prod_cons/prod_cons.c:40-61 | putting appends to the window of unconsumed items and taking removes its first |
| BoundedBuffer.NeverStuck | sop2/lab03/prod_cons/prod_cons.c:36-66 | producer and consumer are never both asleep, and without spurious wake-ups somebody can step until both are done |
| BoundedBuffer.StepRemaining | sop2/lab03/prod_cons/prod_cons.c:31-67 | every step decreases the work left, a spurious wake-up adds two |
| BoundedBuffer.BufferCorrect | sop2/lab03/prod_cons/prod_cons.c:29-68 | mutual exclusion, consumed plus window is produced, runs of bounded length, and a run that cannot go on has consumed all n items in order |
| BoundedBuffer.WhenTheySleep | sop2/lab03/prod_cons/prod_cons.c:37-57 | on every run the producer's test ends in sleep exactly if the unconsumed items fill the ring, the consumer's exactly if there are none |
| BoundedBuffer.ProducerAhead | sop2/lab03/prod_cons/prod_cons.c:31-48 | for every capacity the producer can fill the whole ring before the consumer's first step |
| BoundedBuffer.Context.Produce | sop2/lab03/prod_cons/prod_cons.c:40-43 | the producer's update in place appends the item to the window |
| BoundedBuffer.Context.Consume | sop2/lab03/prod_cons/prod_cons.c:59-61 | the consumer's update in place removes and returns the oldest item |
| CardRing.StepConserves | sop2/lab01/zad05/zad05.c:76-125 | a give or take keeps the number of copies of every card in hands and pipes |
| CardRing.Skew | sop2/lab01/zad05/zad05.c:76-110 | the player d places to the right is at most d sends ahead |
| CardRing.PipeBound | sop2/lab01/zad05/zad05.c:80-99 | no pipe ever holds more than n cards |
| CardRing.SomebodyMoves | sop2/lab01/zad05/zad05.c:76-125 | until a player has won some player can move |
| CardRing.GameSafety | sop2/lab01/zad05/zad05.c:61-126 | on every run: cards conserved, as many cards in pipes as players in mid-exchange, skew at most (i - j) mod n, winners hold one suit, no deadlock before the first win |
| CardRing.WinnersLeave | sop2/lab01/zad05/zad05.c:110-124 | on every run nobody goes on playing with a hand of one suit after an exchange |
| CardRing.CardsInOrder | sop2/lab01/zad05/zad05.c:80-110 | each player takes exactly the cards its left neighbour gave, in the order given, and the rest is in the pipe |
| CardRing.GivingNeverBlocks | sop2/lab01/zad05/zad05.c:78-99 | on every run a player between exchanges can give any of its cards, and one in mid-exchange goes on exactly if its left pipe holds a card |
| CardRing.NoCardTwice | sop2/lab01/zad05/zad05.c:133-153 | in a game dealt from the shuffled deck each of the 52 cards is in at most one place, at any time |
| CardRing.StartTotal | sop2/lab01/zad05/zad05.c:144-153 | the dealt hands together are the first n * m cards of the deck |
| CardRing.CheckWin | sop2/lab01/zad05/zad05.c:31-40 | true exactly for a hand of one suit |
| CardRing.SuitsAreFour | sop2/lab01/zad05/zad05.c:33-36 | two cards are of one suit exactly if their numbers differ by a multiple of four |
| CardRing.ShuffledDeck | sop2/lab01/zad05/zad05.c:133-143 | the loop performs its 52 swaps, and whatever rand() gives the deck is a permutation of 0..51 |
| CardRing.EveryDeckReached | sop2/lab01/zad05/zad05.c:137-143 | every order of the 52 cards is the outcome of some results of rand() |
| CardRing.Deal | sop2/lab01/zad05/zad05.c:144-153 | player i is dealt cards i*m .. i*m + m - 1 |
| CardRing.Player.GiveCard | sop2/lab01/zad05/zad05.c:78-97 | the chosen card is handed on and its place emptied |
| CardRing.Player.TakeCard | sop2/lab01/zad05/zad05.c:99-112 | the card read fills that place, and the win test is exact |
| Voting.Search | sop2/lab04/zad02/zad02.c:56-64 | the first index of a value, -1 exactly if it is absent |
| Voting.HoldsStep | sop2/lab04/zad02/zad02.c:143-184 | which histories give a descriptor a seat: kept until it hangs up, taken only by asking for a vacant one |
| Voting.SeatsStep | sop2/lab04/zad02/zad02.c:120-191 | one event keeps the seat table equal to what the history assigns |
| Voting.VotesStep | sop2/lab04/zad02/zad02.c:169-179 | one event keeps every recorded vote equal to the seat's last valid vote |
| Voting.ServerRefinesHistory | sop2/lab04/zad02/zad02.c:120-191 | after any possible history with reused descriptors, seats are an injective map into open descriptors and votes[k] is the last valid vote sent by whoever held seat k then |
| Voting.OpenIsConnected | sop2/lab04/zad02/zad02.c:125-185 | after every possible history the open descriptors are the accepted connections that have neither hung up nor, unseated, sent a byte that is no seat number or asks for a taken seat |
| Voting.RecordedVotesValid | sop2/lab04/zad02/zad02.c:194-200 | the tally never indexes outside the score array |
| Voting.ScoresSumToVoted | sop2/lab04/zad02/zad02.c:194-200 | the scores add up to the number of seats that voted |
| Voting.Tally | sop2/lab04/zad02/zad02.c:234-240 | score[c] counts the seats whose vote is c + 1 |
| Voting.Winner | sop2/lab04/zad02/zad02.c:242-255 | the lowest-numbered candidate of maximal score, none if nobody voted |
| Voting.ScoreIsBackers | sop2/lab04/zad02/zad02.c:234-240 | the score of a candidate is the number of seats whose last valid vote in the history is for it |
| Voting.WinnerIsElected | sop2/lab04/zad02/zad02.c:234-255 | after every possible history the winner of the scores is the lowest-numbered candidate with the most seats behind it, none if no seat has voted |
| Voting.Announce | sop2/lab04/zad02/zad02.c:234-255 | tally and winner loops on the recorded votes announce that candidate |
| Voting.Server.OnByte | sop2/lab04/zad02/zad02.c:136-180 | a byte updates the tables in place as the specified event: seat taken, impostor or stranger closed, vote recorded, or ignored |
| Voting.Server.OnHangup | sop2/lab04/zad02/zad02.c:181-185 | end of file frees the seat and keeps its vote |
| Shuffle.IndexInRange | sop1/lab04/zad2/sop-mss.c:54-54 | the scaled division always lands in [i, n - 1] |
| Shuffle.IndexBuckets | sop1/lab04/zad2/sop-mss.c:54-54 | place j is chosen by exactly the results r with (j - i) q <= r < (j - i + 1) q, q = RAND_MAX / (n - i) + 1 |
| Shuffle.IndexReached | sop1/lab04/zad2/sop-mss.c:54-54 | place j can be chosen in step i if and only if (j - i) (RAND_MAX / (n - i) + 1) <= RAND_MAX |
| Shuffle.AllPlacesReached | sop1/lab04/zad2/sop-mss.c:54-54 | that holds for all d places once RAND_MAX >= d (d - 1) |
| Shuffle.StepSettles | sop1/lab04/zad2/sop-mss.c:53-58 | step i settles place i with the card that stood at the chosen place |
| Shuffle.RunPermutes | sop1/lab04/zad2/sop-mss.c:50-60 | the result is a permutation |
| Shuffle.RunInjective | sop1/lab04/zad2/sop-mss.c:50-60 | different index sequences give different orders of a duplicate-free array |
| Shuffle.RunSurjective | sop1/lab04/zad2/sop-mss.c:50-60 | every order is produced by some index sequence |
| Shuffle.ShuffleInPlace | sop1/lab04/zad2/sop-mss.c:50-60 | the in-place loop performs exactly the swaps of its index sequence, for any rand() results |
| Shuffle.EveryOrderReached | sop1/lab04/zad2/sop-mss.c:173-175 | every order of n cards is the outcome of some rand() results when RAND_MAX >= n (n - 1); for the 52 cards that is 2652, well below 32767, the least value C allows (section 7.22.2.1 of ISO C11) |
| SplitToggle.ToggleAt | sop1/lab02/prelab/workshop/src/sop-l2.c:110-123 | byte i is flipped exactly if it is a letter with an even number of letters before it (odd, from the other phase) |
| SplitToggle.FlipKeepsLetter | sop1/lab02/prelab/workshop/src/sop-l2.c:113-122 | a flip goes between the two cases of the same letter |
| SplitToggle.ToggleTwice | sop1/lab02/prelab/workshop/src/sop-l2.c:110-123 | toggling is its own inverse |
| SplitToggle.ToggleConcat | sop1/lab02/prelab/workshop/src/sop-l2.c:110-123 | toggling a concatenation, with the phase carried over |
| SplitToggle.TogglePhase | sop1/lab02/prelab/workshop/src/sop-l2.c:110-123 | the start phase matters exactly for texts with a letter |
| SplitToggle.Split | sop1/lab02/prelab/workshop/src/sop-l2.c:146-192 | the loop hands child i the bytes from min(i q, size) to min((i + 1) q, size), q being ceil(size / n) |
| SplitToggle.PerChildRoundsUp | sop1/lab02/prelab/workshop/src/sop-l2.c:146-146 | the chunk size is size / n rounded up |
| SplitToggle.CutIsFile | sop1/lab02/prelab/workshop/src/sop-l2.c:146-192 | these pieces, none longer than q, concatenate to the file |
| SplitToggle.ChildWork | sop1/lab02/prelab/workshop/src/sop-l2.c:110-136 | writes the toggled chunk, or the prefix ending with the byte after which the interrupt was seen |
| SplitToggle.ToggledTogether | sop1/lab02/prelab/workshop/src/sop-l2.c:110-192 | for any division into chunks, the outputs make up the toggled file if and only if every chunk with a letter starts after an even number of letters |
| SplitToggle.OutputsMakeUpFile | sop1/lab02/prelab/workshop/src/sop-l2.c:110-192 | for which files and numbers of children that happens: every i with a letter in piece i has an even number of letters before min(i q, size) |
| SplitToggle.TwoLettersFail | sop1/lab02/prelab/workshop/src/sop-l2.c:110-192 | two children turn "ab" into "A" and "B" instead of "Ab" |
| SplitToggle.EvenChunksInPhase | sop1/lab02/prelab/workshop/src/sop-l2.c:110-192 | in particular when each chunk but the last has an even number of letters |
| Requirements.Reader.ReadLine | sop1/lab01/tutorial/example03/sop-venv.c:57-75 | reads up to and including a newline, at most count bytes |
| Requirements.ReadsOneLine | sop1/lab01/tutorial/example03/sop-venv.c:57-75 | what is read ends at the first newline, at the end of the file or after count bytes |
| Requirements.ScanIs | sop1/lab01/tutorial/example03/sop-venv.c:126-142 | the scan rejects exactly the names in the list |
| Requirements.KeepIs | sop1/lab01/tutorial/example03/sop-venv.c:199-224 | the rebuilt text is that of the list without the name, and found says whether it was there |
| Requirements.InstallIs | sop1/lab01/tutorial/example03/sop-venv.c:121-155 | installing an absent package appends its line, a present one is an error |
| Requirements.RemoveIs | sop1/lab01/tutorial/example03/sop-venv.c:199-241 | removing is exactly the filter of the other lines, byte for byte, an absent name an error |
| Requirements.ReadBack | sop1/lab01/tutorial/example03/sop-venv.c:77-94 | name and version can be read back from the bytes of a line, with the rest of the file |
| Requirements.TextDetermines | sop1/lab01/tutorial/example03/sop-venv.c:77-94 | the bytes of the file determine the packages, their order and their versions |
| Requirements.ErrorAnswers | sop1/lab01/tutorial/example03/sop-venv.c:109-207 | empty name, empty version, package already there, and a line without a space, each with its own error and in this order |
| Requirements.InstallRemove | sop1/lab01/tutorial/example03/sop-venv.c:121-241 | installing an absent package and removing it restores the file |
| Requirements.FileRefinesMap | sop1/lab01/tutorial/example03/sop-venv.c:121-241 | after any sequence of installs and removes the file is the text of a duplicate-free list equal to the map the operations describe |
| Requirements.InstallPkg | sop1/lab01/tutorial/example03/sop-venv.c:121-155 | the reading loop with its cut-off buffer computes that outcome; a success appends name, space, version and newline |
| Requirements.RemovePkg | sop1/lab01/tutorial/example03/sop-venv.c:199-241 | the byte-by-byte rebuild computes that outcome |
| Requirements.Appender.WriteLine | sop1/lab01/tutorial/example03/sop-venv.c:77-94 | the four writes together append name, space, version and newline to the file |
| LineEditor.LinesExist | sop1/lab01/editor/sop-ed.c:63-79 | every file has a list of lines |
| LineEditor.LinesUnique | sop1/lab01/editor/sop-ed.c:63-79 | and only one |
| LineEditor.AdvanceLines | sop1/lab01/editor/sop-ed.c:66-78 | where the skipping loop stops, for every number of lines asked for |
| LineEditor.DeleteRemovesLine | sop1/lab01/editor/sop-ed.c:51-104 | every answer of a deletion: empty file, exactly line k removed, no change one past the end of a terminated file, and further on an error |
| LineEditor.PrintsLines | sop1/lab01/editor/sop-ed.c:106-150 | every answer of a bounded print: invalid limits, empty file, no such line, or exactly lines l .. min(r, last) |
| LineEditor.AppendedIsLineList | sop1/lab01/editor/sop-ed.c:25-49 | appending adds a line, or lengthens a last line that had no newline |
| LineEditor.AppendDelete | sop1/lab01/editor/sop-ed.c:25-104 | appending a line and deleting the last is the identity if and only if the file was empty or ended in a newline |
| LineEditor.TerminatedIs | sop1/lab01/editor/sop-ed.c:63-79 | those are the files that are empty or have a newline as last byte |
| LineEditor.AppendDeleteLoses | sop1/lab01/editor/sop-ed.c:25-104 | "a", with "b" appended and line 1 deleted, is the empty file |
| LineEditor.AppendLine | sop1/lab01/editor/sop-ed.c:33-48 | read, strcpy, strlen and write-back through the buffer append the line, or leave the file as it was if it holds a NUL |
| LineEditor.SkipLines | sop1/lab01/editor/sop-ed.c:63-79 | the first reading loop consumes what the specification says and leaves the same count |
| LineEditor.DeleteLine | sop1/lab01/editor/sop-ed.c:51-104 | the three reading loops compute that deletion |
| LineEditor.PrintLimits | sop1/lab01/editor/sop-ed.c:106-150 | the two reading loops compute that print |
| PathBuffer.PushOk | sop1/lab03/prelab/prelab.c:85-100 | a push frees the string pushed one full turn of the buffer earlier and keeps the buffer's shape |
| PathBuffer.PopOk | sop1/lab03/prelab/prelab.c:102-119 | a pop yields the oldest queued path, which has not been freed |
| PathBuffer.FreedWhen | sop1/lab03/prelab/prelab.c:92-98 | a string is freed before destroy exactly if as many pushes as slots followed its own; never while it is queued |
| PathBuffer.EachFreedOnce | sop1/lab03/prelab/prelab.c:72-80 | with destroy, every string pushed has been freed exactly once |
| PathBuffer.StepConserved | sop1/lab03/prelab/prelab.c:201-227 | every byte stays unpopped, unread or counted |
| PathBuffer.StepWork | sop1/lab03/prelab/prelab.c:82-231 | every step decreases the work left |
| PathBuffer.BufferSafety | sop1/lab03/prelab/prelab.c:54-119 | for every interleaving of pusher and workers: pops in push order, each once; frees only after the pop and exactly once in all; no byte counted twice; finite runs |
| PathBuffer.WholeProgram | sop1/lab03/prelab/prelab.c:201-231 | without an interrupt the final freq is the byte histogram of all files if they fit in the buffer, and all zero if they do not |
| PathBuffer.QuitOnlyWhenAsked | sop1/lab03/prelab/prelab.c:209-217 | no worker leaves on the quit flag unless it has been set |
| PathBuffer.StopsSoon | sop1/lab03/prelab/prelab.c:207-224 | once it is set, all that is still counted, however long the run, are the bytes that workers already held |
| PathBuffer.WhoReturns | sop1/lab03/prelab/prelab.c:102-202 | all workers return on every run if and only if the files fit and there is one worker or no file |
| PathBuffer.Settle | sop1/lab03/prelab/prelab.c:102-119 | every run can go on until nothing moves, and a stranded worker stays stranded |
| PathBuffer.CircBuf.Push | sop1/lab03/prelab/prelab.c:92-98 | the update in place of a push, with the call of free() |
| PathBuffer.CircBuf.TryPop | sop1/lab03/prelab/prelab.c:106-116 | one turn of the pop loop, on a full or an empty queue |
| PathBuffer.CircBuf.FreeAll | sop1/lab03/prelab/prelab.c:72-80 | destroy completes one free per string |
| PathBuffer.CountFile | sop1/lab03/prelab/prelab.c:207-224 | the counting loop adds the file's histogram to freq |
| RobustMutex.StepInv | sop2/lab03/dying/dying.c:28-82 | ownership, consistency, local register and counter agree after every step, death included |
| RobustMutex.CrashRecovery | sop2/lab03/dying/dying.c:28-158 | never two processes in the critical section, no error exit, bounded runs; a run that cannot go on has finished the producer with counter n - min(n, 4) |
| RobustMutex.UnrepairedMutexIsLost | sop2/lab03/dying/dying.c:36-53 | leaving the critical section without pthread_mutex_consistent would make every later lock fail |
| RobustMutex.OrdinaryMutexBlocks | sop2/lab03/dying/dying.c:119-127 | with a mutex that is not robust and n >= 4 there is a run in which the producer waits for ever |
| RobustMutex.RobustnessNeeded | sop2/lab03/dying/dying.c:119-127 | the producer finishes on every run if and only if the mutex is robust or n <= 3 |
| RobustMutex.Context.Produce | sop2/lab03/dying/dying.c:32-53 | one iteration of the producer restores a free, consistent mutex also after the consumer's death |
| RobustMutex.Context.Consume | sop2/lab03/dying/dying.c:60-81 | one iteration of the consumer, killed with the mutex held when i is 3 |

## Left out

- Sockets, epoll, process creation, printing, argument parsing, allocation failures and the exits through `ERR`: system calls appear as steps or parameters with their documented effect.
- UdpTransfer.EndToEnd: safety only; a retransmitted last chunk of a longer file is ignored once the slot is free, so no liveness is claimed.
- UdpTransfer.SessionSafety: files have fewer than 2^31 chunks and there is one transfer per address; the server's `chunkNo + 1` would overflow after that. A short foreign datagram is covered as one of arbitrary content, and clients receive only from the server.
- UdpServer.Server.OnDatagram: a send error other than EPIPE ends the program and is not a step.
- WhisperingRing.RingCapacity: starts when all queues are open (queue names are reused through process ids, so clients may race at startup) and assumes words that do not start with '!'. A word's send reads 256 bytes from the word on; the model keeps the word up to its NUL.
- AllPairs.ExchangeCompletes: a record fits in a pipe, so writes do not block; what the `Player` record holds is opaque. A read delivers a whole record, as one write of less than PIPE_BUF bytes is atomic.
- Notification.NothingLost: starts with the first call of the handler, an empty or filled queue being given; a send on a full queue is not enabled, while in the programs it ends the sender.
- BoundedBuffer.BufferCorrect: condition variables have one possible waiter each, as in the program; the sleeps are only delays.
- CardRing.GameSafety: covers the game up to the first departure; what players do after a neighbour has left (end of file, EPIPE, SIGUSR1) is not modelled, nor are `encode_number` and the FIFO.
- Voting.ServerRefinesHistory: events are handled one at a time; batching by epoll and an accept that fails with EAGAIN are not modelled, and the welcome text is not part of the state.
- Shuffle.EveryOrderReached: says which orders can occur, nothing about their probability.
- SplitToggle.ChildWork: the signal is observed after a byte is written, as in the code; waiting for SIGUSR1 is left out.
- Requirements.FileRefinesMap: one environment per invocation, names without space or newline, versions without newline, lines below 256 bytes, no NUL bytes; splitting the argument at `==` and the random package file are left out.
- LineEditor.DeleteRemovesLine: for text without NUL bytes, as the program measures text with `strlen`; only the append is modelled on files with a NUL.
- PathBuffer.WholeProgram: bytes below 128, for which `freq` has an element; the directory walk is the list of paths it pushes.
- PathBuffer.BufferSafety: one pushing thread; the test of `len` before the lock and the locked part are separate steps, each locked part is one step.
- RobustMutex.CrashRecovery: the increments are separate loads and stores; the iteration count is any natural number, and the counter then stays between -4 and it.
- The remaining programs: the barrier game in `sop1/lab04/zad2/sop-mss.c`, the teacher and student pipes, the Monte Carlo programs, the signal and directory demonstrations, the TCP calculator and chat, and the bingo programs.
