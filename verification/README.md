# Mosh: synchronization, encryption and display

This project models the three hardest parts of Mosh, as they are in `mosh/src`, and proves what they promise.

**The State Synchronization Protocol.** Two endpoints keep copies of each other's state over a network that loses,
repeats and reorders datagrams. `UserStream.dfy` is the synchronized object and its diffs. `Protocol.dfy` has the two
halves of an endpoint as functions on values, and `Transport.dfy` the two classes that update their lists in place,
each method proved equal to its function. `Synchronization.dfy` puts two endpoints and a network together, with ghost
records of what every state number was given to and of what was handed out, and states the invariant; `Runs.dfy` shows
that every step keeps it; `Guarantees.dfy`, `Heartbeat.dfy` and `Recovery.dfy` draw the conclusions for whole runs.
`Schedule.dfy` says exactly when a side sends, by what has happened to it and not by its timers, and `Promptness.dfy` what
that means for data, retransmissions and acknowledgments.
`Bytes.dfy`, `Fragments.dfy` and `Datagrams.dfy` put fragmentation below the protocol and prove that nothing changes;
`Delivery.dfy` carries recovery down to datagrams, and `Codec.dfy` shows that the encoding they suppose can be had.
`Packets.dfy` has packets and the counters that keep nonces unique, and `EchoAck.dfy` the acknowledgment of input.

**Authenticated encryption.** `OcbSpec.dfy` is OCB as sections 2 and 4 of RFC 7253 define it, one block at a time, over
any block cipher. `OcbCode.dfy` and `OcbContext.dfy` are the code: four blocks at a time, incremental, with a table of
L values and a cached nonce. `OcbSessions.dfy` compares whole messages, and `Session.dfy` goes on to the strings
that are sent.

**Terminal and display.** `Terminal.dfy` is the screen and the operations that the frame writer sends it. `Console.dfy` is
the whole emulator as functions: every control function it dispatches, its modes, tab stops, saved cursor, wide and
combining characters. `Laws.dfy` has laws of these functions that do not depend on how they are computed. `Sharing.dfy` has
a pool of rows that framebuffers share, and `Emulator.dfy` performs the functions in place in one framebuffer of such a pool.
`Utf8.dfy`, `Parsing.dfy`, `Dispatch.dfy` and `Graphics.dfy` are the way from bytes to functions, and `Machine.dfy` puts
all of it together: what holds after every string of bytes and every change of size. `ParserLaws.dfy` says what the parser
makes of whole strings, and `Sequences.dfy`, `Motions.dfy`, `Modes.dfy`, `Printing.dfy` and `Renditions.dfy` what every
control sequence and every character does, cell by cell and from the characters that are read. `Complete.dfy` is the object that does
all this in place, and leaves every copy of itself alone. `Drawing.dfy`, `Display.dfy` and
`Frames.dfy` are the frame writer, which turns two frames into operations: the class `FrameState` carries a ghost copy
of the receiving terminal, and every method says what that terminal shows. `Defaults.dfy` and `Interpreter.dfy` show that
the emulator reads the writer's operations back, and `Transmission.dfy` joins both ends.

The unit of network behaviour is an instruction or a datagram that may arrive at any later time, any number of times,
or never. Clocks are monotone and otherwise free; retransmission timeout and send interval are parameters. The
assertions of the modelled code are written out as conditions and proved to hold.

Three promises turn out not to hold everywhere, and have exact conditions instead:

- The cursor after a frame. When the bottom right corner of the screen is written and the cursor belongs one to four
  columns before the end of the bottom row, but not in the first column, backspaces are counted from a column that
  does not exist, and the cursor ends one column too far left. The client does not look at the terminal and goes on from
  there. `Frames.NewFrame` states exactly when the cursor is in step after a frame. If it was in step before, or the screen
  was cleared: if and only if there is no such overrun (`Frames.Overrun`). If it was behind: if and only if not
  `Frames.StaysBehind`. Both are conditions on the two frames. A cursor that is behind comes into step when it is addressed
  or returned to the first column; it stays behind when it is moved by backspaces or not at all. So whether the cursor is in
  step follows for every session from its frames (`Frames.Client.OutputNewFrame`). `Frames.OverrunHappens`,
  `Frames.SameFrameAgain` and `Frames.ChangeAbove` are instances.
- The cells of a frame that is written while the cursor is behind. `Frames.NewFrame` states that they are right if and only
  if `Frames.CellsRight`, a condition on the two frames. It holds when the display scrolls or a row above the bottom row
  changes, because the writer then addresses the cursor before it draws. Otherwise the bottom row decides. Nothing goes
  wrong if it does not change, or if its first changed column is reached by an address or a carriage return. If that column
  is the tracked one or up to four columns to its left, everything up to the end of that stretch of drawing appears one
  column too far left (`Displays.Display.RowTrace`), and the row is right only if the cells concerned look alike.
  `Frames.TwoFrames` is an instance, and `Frames.ThreeFrames` a session of three frames that ends so. With a cursor in step,
  the cells are always right.
- The echo acknowledgment. Its subtraction of 50 ms wraps around below 50 ms, so a first acknowledgment may come too
  early and be taken back. `EchoAcks.EchoAckMonotone` states that it never decreases if and only if the clock
  starts at 50 ms or later; `EchoAcks.TooEarly` is an instance.

## Model

| member | source | states |
|---|---|---|
| UserStreams.UserStream.PushBack | mosh/src/statesync/user.h:79-80 | one event is added behind all others |
| UserStreams.UserStream.Subtract | mosh/src/statesync/user.cc:44-57 | takes a prefix away and leaves the rest, also when the prefix is the object itself; the three assertions hold |
| UserStreams.UserStream.DiffFrom | mosh/src/statesync/user.cc:59-101 | the message is the coalesced form of what is behind the common prefix |
| UserStreams.UserStream.ApplyString | mosh/src/statesync/user.cc:103-119 | appends exactly the events that a message stands for, whatever its shape |
| UserStreams.CoalesceRoundTrip | mosh/src/statesync/user.cc:59-119 | expanding a coalesced message gives the events back, and only no events give the empty message |
| UserStreams.CoalesceCanonical | mosh/src/statesync/user.cc:72-98 | keystrokes are joined as far as possible: no empty group and no two neighbouring groups of bytes |
| UserStreams.CanonicalUnique | mosh/src/statesync/user.cc:72-98 | there is only one canonical message for a list of events |
| UserStreams.DiffApply | mosh/src/statesync/user.cc:59-119 | applying a diff to the stream it was made against gives the newer stream, and equal streams have the empty diff |
| TransportClasses.TransportSender.constructor | mosh/src/network/transportsender-impl.h:50-57 | one sent state, numbered 0, that is also the assumed and the current one |
| TransportClasses.TransportSender.UpdateAssumedReceiverState | mosh/src/network/transportsender-impl.h:256-278 | the walk over the list stops at the last state sent within the timeout |
| TransportClasses.TransportSender.RationalizeStates | mosh/src/network/transportsender-impl.h:281-292 | cuts the acknowledged state out of all others, in an order that survives cutting it out of itself |
| TransportClasses.CutFromBack | mosh/src/network/transportsender-impl.h:281-292 | the loop from the back computes what cutting with the unchanged first state would |
| TransportClasses.TransportSender.CalculateTimers | mosh/src/network/transportsender-impl.h:75-110 | assumed state, rationalized states and both timers as functions of the state before |
| TransportClasses.TransportSender.WaitTime | mosh/src/network/transportsender-impl.h:113-134 | the time until the next wakeup as an `int`, `INT_MAX` without an address, and the timers calculated on the way |
| TransportClasses.TransportSender.SetTimers | mosh/src/network/transportsender-impl.h:85-109 | the two timers, by the cases of new data, unacknowledged data and shutdown |
| TransportClasses.TransportSender.AddSentState | mosh/src/network/transportsender-impl.h:212-222 | appends, and beyond 32 states erases the sixteenth from the end without losing the assumed one |
| TransportClasses.TransportSender.SendInFragments | mosh/src/network/transportsender-impl.h:306-346 | the instruction names the assumed state as base and the acknowledged one as throwaway limit |
| TransportClasses.TransportSender.SendEmptyAck | mosh/src/network/transportsender-impl.h:190-209 | a new number for an unchanged state |
| TransportClasses.TransportSender.SendToReceiver | mosh/src/network/transportsender-impl.h:225-253 | a new number only for a new state; afterwards the newest state is the assumed one |
| TransportClasses.TransportSender.AttemptProspectiveResend | mosh/src/network/transportsender-impl.h:398-415 | the base chosen, and the diff against it |
| TransportClasses.TransportSender.Tick | mosh/src/network/transportsender-impl.h:138-187 | the sender after the call and the instruction sent, if any |
| TransportClasses.TransportSender.ProcessAcknowledgmentThrough | mosh/src/network/transportsender-impl.h:349-371 | erases older states if the acknowledged one is in the list, else nothing |
| TransportClasses.TransportSender.StartShutdown | mosh/src/network/transportsender.h:133-139 | sets the flag and the time once |
| TransportClasses.TransportSender.ShutdownAckTimedOut | mosh/src/network/transportsender-impl.h:373-386 | whether a shutdown is given up |
| TransportClasses.EraseBelow | mosh/src/network/networktransport-impl.h:179-192 | walking and erasing keeps exactly the states not below the number |
| TransportClasses.Find | mosh/src/network/networktransport-impl.h:85-103 | finds the first state with a number, or says that there is none |
| TransportClasses.Transport.constructor | mosh/src/network/networktransport-impl.h:42-65 | both halves of an endpoint at the start |
| TransportClasses.Transport.Recv | mosh/src/network/networktransport-impl.h:68-175 | the endpoint after an instruction, in every case: wrong version, known state, missing base, full queue, inserted, appended |
| TransportClasses.Transport.StoreNew | mosh/src/network/networktransport-impl.h:134-173 | the diff applied to a copy is inserted in order of numbers, and acknowledged if it is the newest |
| TransportClasses.Transport.GetRemoteDiff | mosh/src/network/networktransport-impl.h:194-212 | the diff since the last call, and all states cut by the oldest, itself included |
| TransportClasses.DiffFrom | mosh/src/statesync/user.cc:59-101 | the diff of two states that `tick` and the receiver ask for, with the prefix assertions as a precondition |
| Synchronization.AssumedIsFrontOrBack | mosh/src/network/transportsender-impl.h:256-278 | with a monotone clock the assumed state is the first or the last of the list |
| Synchronization.CullSparesBase | mosh/src/network/transportsender-impl.h:212-222 | what is culled from the middle of the list is never the base of the next diff |
| Synchronization.FrontIsPrefix | mosh/src/network/transportsender-impl.h:281-292 | the acknowledged state is a prefix of all later ones, so cutting it never fails an assertion |
| Synchronization.BothPrefixes | mosh/src/network/transportsender-impl.h:146-150 | whenever a tick sends, the assumed and the acknowledged state are prefixes of the current one, as the two diffs assert |
| Synchronization.AddKeeps | mosh/src/network/transportsender-impl.h:212-222 | adding and culling keep numbers, times, meanings and the length limit |
| Synchronization.TimersKeep | mosh/src/network/transportsender-impl.h:75-110 | rationalizing keeps the stream that every number stands for |
| Synchronization.EmptyAckKeeps | mosh/src/network/transportsender-impl.h:190-209 | an empty acknowledgment gives a new number the meaning of the current stream |
| Synchronization.ResendKeeps | mosh/src/network/transportsender-impl.h:225-253 | sending the newest state again does not change what its number stands for |
| Synchronization.NewDataKeeps | mosh/src/network/transportsender-impl.h:225-253 | new data get a number that nothing else has |
| Synchronization.TickKeeps | mosh/src/network/transportsender-impl.h:138-187 | a tick keeps the sender invariant, and its assertions hold, those of the two diffs included |
| Runs.ThrowawayKeeps | mosh/src/network/networktransport-impl.h:179-192 | throwing away leaves every state that is still needed as a base |
| Runs.AcceptKeeps | mosh/src/network/networktransport-impl.h:134-173 | an accepted state stands for what its number means at the sender |
| Runs.StoreKeeps | mosh/src/network/networktransport-impl.h:111-173 | so does everything the receiver holds after storing or refusing |
| Runs.RecvKeeps | mosh/src/network/networktransport-impl.h:68-175 | receiving any instruction that was ever sent keeps the invariant of both directions |
| Runs.AckKeeps | mosh/src/network/transportsender-impl.h:349-371 | an acknowledgment only ever moves the front of the list to a state that the receiver holds |
| Runs.FetchKeeps | mosh/src/network/networktransport-impl.h:194-212 | handing out and cutting keep all meanings and hand out exactly what is new |
| Runs.StepAKeeps | mosh/src/network/networktransport-impl.h:68-212 | every step of a process keeps the invariant, and no assertion of the source fails in it |
| Guarantees.RunInv | mosh/src/network/networktransport-impl.h:68-212 | in every run over a network that loses, repeats and reorders, every state is good and no assertion fails |
| Guarantees.ShortRunSound | mosh/src/network/transportsender-impl.h:190-253 | fewer than 2^64 - 2 moves cannot use up the state numbers |
| Guarantees.MirrorSound | mosh/src/network/networktransport-impl.h:42-65 | what is proved from one side to the other holds in both directions |
| Guarantees.RecordsTrue | mosh/src/network/networktransport-impl.h:194-212 | the ghost records are what the applications pushed and what was handed out |
| Guarantees.NeverReassigned | mosh/src/network/transportsender-impl.h:190-253 | a number keeps its meaning for ever |
| Guarantees.Agreement | mosh/src/network/networktransport-impl.h:68-175 | a state held under a number that was sent is exactly what the sender had produced when it sent that number |
| Guarantees.AgreementOnAll | mosh/src/network/networktransport-impl.h:68-175 | every held number is 0, with the empty stream, or was sent, with what had been produced by then |
| Guarantees.OneMeaning | mosh/src/network/transportsender-impl.h:190-253 | a number sent twice stands for the same stream both times |
| Guarantees.ExactlyOnce | mosh/src/network/networktransport-impl.h:194-212 | what has been handed out is always a prefix of what was produced |
| Guarantees.FetchComplete | mosh/src/network/networktransport-impl.h:194-212 | right after handing out, everything up to the newest received state has been handed out |
| Guarantees.NoWedging | mosh/src/network/networktransport-impl.h:94-135 | in every state of every run the receiver holds the state the sender falls back to, and nothing in flight can take it away |
| Guarantees.Convergence | mosh/src/network/transportsender-impl.h:138-187 | sending against the acknowledged state, received next while the queue is not full or has been long enough, brings the receiver up to date |
| Guarantees.FirstExchange | mosh/src/network/transportsender-impl.h:138-187 | a run exists in which a first instruction is sent and received next |
| Guarantees.ShutdownComplete | mosh/src/network/transportsender.h:133-157 | once the shutdown number is acknowledged the other side holds everything that was produced |
| Guarantees.SentListBounded | mosh/src/network/transportsender-impl.h:212-222 | the list has at most 32 entries, ordered by time and number, in every run |
| Heartbeats.Heartbeat | mosh/src/network/transportsender-impl.h:75-110 | a tick three seconds or more after the last sending sends again |
| Heartbeats.RunPaced | mosh/src/network/transportsender-impl.h:75-110 | in every run the next acknowledgment is due in time after the last sending |
| Heartbeats.WaitThenTick | mosh/src/network/transportsender-impl.h:113-150 | in every run `wait_time` is at most three seconds, and zero if and only if a tick at the same moment passes its first check |
| Schedules.Assumed | mosh/src/network/transportsender-impl.h:256-278 | the last state is assumed to be received unless the oldest one that was not acknowledged was sent too long ago; then only the acknowledged one is |
| Schedules.Received | mosh/src/network/networktransport-impl.h:136-178 | exactly an instruction that makes the newest state sets the time of hearing, and exactly one with data asks for an acknowledgment |
| Schedules.RunTracked | mosh/src/network/transportsender-impl.h:73-110 | in every run the timers and flags of the sender are what has happened: the first look that found new data, the first look after data were brought, the last renewal, the last sending |
| Schedules.NoticeMeans | mosh/src/network/transportsender-impl.h:89-94 | what the first look that found new data is |
| Schedules.AskMeans | mosh/src/network/transportsender-impl.h:85-87 | what the first look after data were brought is |
| Schedules.TickExactly | mosh/src/network/transportsender-impl.h:73-205 | exactly when a tick sends, in every run: new data were noticed 8 ms ago and the last sending is an interval ago; or all was sent, the oldest unacknowledged state is older than the timeout and 100 ms, the last sending is an interval ago and the other side was heard from within 10 s; or an acknowledgment is due |
| Promptness.WaitExactly | mosh/src/network/transportsender-impl.h:112-136 | `wait_time` is the time until the earlier of the two sendings that are due, told by what has happened |
| Promptness.SendingMeans | mosh/src/network/transportsender-impl.h:138-253 | a sending acknowledges the newest received state under a number that stands for all that was produced; new or lost data are sent as data, and nothing outstanding means no data |
| Promptness.NewsInTime | mosh/src/network/transportsender-impl.h:89-94 | new data noticed 8 ms ago go out, if the last sending is an interval ago |
| Promptness.NewsNotBefore | mosh/src/network/transportsender-impl.h:89-94 | and not before, unless an acknowledgment is due |
| Promptness.LostSentAgain | mosh/src/network/transportsender-impl.h:95-101 | what is not acknowledged is sent again, as data, within 10 s of hearing from the other side |
| Promptness.OnlyReplies | mosh/src/network/transportsender-impl.h:100-104 | with nothing outstanding only acknowledgments are sent, exactly when they are due |
| Promptness.RepliesSoon | mosh/src/network/networktransport-impl.h:160-178 | data that made the newest state are acknowledged by a tick 100 ms after the first look at the clock, by an instruction with this number or a larger one |
| Promptness.ResendChoice | mosh/src/network/transportsender-impl.h:394-416 | a diff against the acknowledged state is sent whenever it is shorter than 100 bytes or no longer than the other, and the choice never costs 100 bytes more |
| Promptness.CulledOne | mosh/src/network/transportsender-impl.h:210-222 | beyond 32 entries the sixteenth from the end is lost, and no other |
| Promptness.FloodLimited | mosh/src/network/networktransport-impl.h:117-133 | while more than 1024 states are kept, at most one more is stored in any 15 s |
| Promptness.GivesUpExactly | mosh/src/network/transportsender-impl.h:373-386 | in every run a shutdown is given up exactly when 16 instructions have gone out since it began, or 10 s have passed |
| Recoveries.FallsBack | mosh/src/network/transportsender-impl.h:256-278 | a tick that comes after the timeout and the acknowledgment interval sends, and against the acknowledged state |
| Recoveries.RunTimely | mosh/src/network/networktransport-impl.h:119-133 | clocks and the end of the quenching time stay within 64 bits in every run |
| Recoveries.ThreeMoves | mosh/src/network/networktransport-impl.h:68-212 | from every state of every run, a late enough tick, the arrival of what it sends and a fetch hand out all that was produced, also at a receiver whose queue was full |
| Fragments.ParseToString | mosh/src/network/transportfragment.cc:56-89 | parsing undoes writing a fragment |
| Fragments.ToStringParse | mosh/src/network/transportfragment.cc:56-89 | every string with a header is that of exactly one fragment |
| Fragments.Layout | mosh/src/network/transportfragment.cc:43-75 | the bytes of a fragment: identifier, final bit and number, contents |
| Fragments.ChunksJoin | mosh/src/network/transportfragment.cc:178-192 | the pieces of a payload join to it |
| Fragments.ChunksCount | mosh/src/network/transportfragment.cc:178-192 | there are no more pieces than needed |
| Fragments.FragmentsFit | mosh/src/network/transportfragment.cc:64-66 | for payloads up to 4 MiB and datagrams of 500 bytes or more the fragment number stays below 2^15, and strings fit the datagram |
| Fragments.SplitUp | mosh/src/network/transportfragment.cc:174-194 | the loop makes the numbered fragments of the payload, the last one marked final |
| Fragments.Fragmenter.MakeFragments | mosh/src/network/transportfragment.cc:156-195 | a new identifier exactly when the instruction or the size differs, and the fragments of the encoded instruction |
| Codecs.LosslessExists | mosh/src/network/compressor.cc:39-55 | a codec that every instruction survives exists, so that what is proved under this hypothesis is not empty |
| Fragments.FragmentAssembly.Add | mosh/src/network/transportfragment.cc:91-127 | the assembly after one fragment, and whether it is complete |
| Fragments.FragmentAssembly.GetAssembly | mosh/src/network/transportfragment.cc:129-148 | the joined contents, and an empty assembly |
| Fragments.AddCollects | mosh/src/network/transportfragment.cc:91-127 | fragments lost, repeated, reordered or mixed never fail an assertion and never mix their contents |
| Fragments.CompleteSpells | mosh/src/network/transportfragment.cc:129-148 | a complete assembly joins to the payload of its list |
| Datagrams.SameIdSameList | mosh/src/network/transportfragment.cc:156-195 | the same identifier always means the same fragments |
| Datagrams.DiffDetermined | mosh/src/network/transportfragment.cc:167-169 | equal old and new numbers have equal diffs, as the fragmenter asserts |
| Datagrams.SendKeeps | mosh/src/network/transportfragment.cc:156-195 | sending keeps what each identifier stands for |
| Datagrams.ArriveKeeps | mosh/src/network/transportfragment.cc:91-148 | an assembled instruction is exactly the one that was sent under its identifier |
| Datagrams.FullStepAKeeps | mosh/src/network/networktransport-impl.h:68-84 | every step of the protocol with its fragments keeps the invariant, and no assertion fails |
| Datagrams.RefinesProtocol | mosh/src/network/networktransport-impl.h:68-84 | every run over datagrams has a run of the protocol behind it with the same states |
| Datagrams.EndToEnd | mosh/src/network/networktransport-impl.h:194-212 | over datagrams too, what has been handed out is a prefix of what was produced |
| Deliveries.AddProgress | mosh/src/network/transportfragment.cc:91-127 | when the fragments of a list arrive in any order, each once, the assembly is complete exactly once, whatever it had collected before |
| Deliveries.ChannelArrives | mosh/src/network/transportfragment.cc:91-148 | what it then gives is the instruction that was sent |
| Deliveries.RunIds | mosh/src/network/transportfragment.cc:156-195 | fragment identifiers are used one by one, so a short run does not exhaust them |
| Deliveries.HandedOut | mosh/src/network/networktransport-impl.h:194-212 | what has been handed out over datagrams is what the state records |
| Deliveries.Recovery | mosh/src/network/networktransport-impl.h:68-212 | from every state of every run over datagrams, a late enough tick, the arrival of its datagrams in any order and a fetch hand out all that was produced |
| BigEndian.SpellValue | mosh/src/network/transportfragment.cc:44-54 | reading a number in network byte order undoes writing it |
| BigEndian.ValueSpell | mosh/src/network/transportfragment.cc:76-89 | writing undoes reading |
| Packets.NonceRoundTrip | mosh/src/crypto/crypto.cc:169-182 | the number of a nonce is read back from its twelve bytes |
| Packets.PacketRoundTrip | mosh/src/network/network.cc:70-96 | a packet is read back from its message |
| Packets.MessageRoundTrip | mosh/src/network/network.cc:70-96 | every message with a proper nonce is that of the packet read from it |
| Packets.Connection.Unique | mosh/src/crypto/crypto.cc:64-72 | numbers count up; wrapping to 0 is an exception |
| Packets.Connection.Spend | mosh/src/crypto/crypto.cc:218-238 | the blocks of a text are counted, and 2^47 of them end the session |
| Packets.Connection.Send | mosh/src/network/network.cc:367-376 | the message sent, or none once a counter has ended the process |
| Packets.SendOneKeeps | mosh/src/crypto/crypto.cc:218-238 | every packet costs a block, so the budget keeps the counter below 2^47 |
| Packets.NoncesDistinct | mosh/src/network/network.cc:85-96 | in every run of both processes no two packets share a nonce |
| Packets.Layout | mosh/src/network/network.cc:85-96 | the bytes of a packet: direction bit and number in the nonce, two timestamps of two bytes, payload |
| Packets.SentCarries | mosh/src/network/network.cc:98-114 | what is sent reads back as a packet with the number and direction of its sender and with the timestamps and the payload that were given |
| Packets.SentWithinBudget | mosh/src/crypto/crypto.cc:216-241 | a packet goes out if and only if the process lives and its blocks leave something of 2^47 |
| Packets.RunCarries | mosh/src/network/network.cc:367-376 | in every run of both processes, the packets of a side carry what it was asked to send, in order and numbered from 0, and all of it while it lives |
| Sessions.BytesOfBits | mosh/src/crypto/crypto.cc:194-243 | bytes survive being seen as bits |
| Sessions.BitsOfBytes | mosh/src/crypto/crypto.cc:245-282 | bits survive being seen as bytes |
| Sessions.Session.Encrypt | mosh/src/crypto/crypto.cc:194-243 | eight bytes of the nonce, then ciphertext and tag of the text |
| Sessions.Session.Decrypt | mosh/src/crypto/crypto.cc:245-282 | opens a string if and only if it is a sealed message, and to that message; shorter strings never are |
| Sessions.OpensSealed | mosh/src/crypto/crypto.cc:245-282 | what one side seals opens to the same text |
| Sessions.SealedOnce | mosh/src/crypto/crypto.cc:183-243 | different messages are sealed differently |
| Sessions.Receive | mosh/src/network/network.cc:478-485 | a string that was sealed is read as its packet, unless it has the reader's own direction |
| Sessions.Across | mosh/src/network/network.cc:367-485 | what one side sends, the other opens and reads: number, direction, timestamps and payload |
| Ocb.PlainOfCipher | mosh/src/crypto/ocb_internal.cc:1102-1297 | the plaintext definition undoes the ciphertext definition |
| Ocb.CipherOfPlain | mosh/src/crypto/ocb_internal.cc:888-1076 | and the other way round |
| Ocb.OpensExactly | mosh/src/crypto/ocb_internal.cc:1271-1296 | decryption accepts exactly the encryptions, and returns what was encrypted |
| OcbCode.DoubleBlockDoubles | mosh/src/crypto/ocb_internal.cc:349-354 | shifting two words with carry is doubling in the field of section 2 of RFC 7253 |
| OcbCode.GenOffsetWindow | mosh/src/crypto/ocb_internal.cc:325-335 | shifting three words picks the 128 bits of the stretched string that section 4.2 of RFC 7253 asks for |
| OcbCode.TopNotZero | mosh/src/crypto/ocb_internal.cc:709-711 | a formatted nonce is never the zero block, so the unused cache is never hit |
| OcbCode.BatchOffsets | mosh/src/crypto/ocb_internal.cc:775-787 | four offsets at a time, with the cancelled L_0, are the offsets of section 4.1 of RFC 7253 |
| OcbCode.TableReaches | mosh/src/crypto/ocb_internal.cc:652-665 | below the limit every L index is in the table |
| OcbContexts.MakeTable | mosh/src/crypto/ocb_internal.cc:691-733 | the table holds the L values |
| OcbContexts.AeContext.constructor | mosh/src/crypto/ocb_internal.cc:691-733 | the values that depend on the key |
| OcbContexts.AeContext.GenOffsetFromNonce | mosh/src/crypto/ocb_internal.cc:737-761 | with or without the cached block, the offset is Offset_0 of section 4.2 of RFC 7253 |
| OcbContexts.Ecb | mosh/src/crypto/ocb_internal.cc:458-470 | each block is encrypted once, in place |
| OcbContexts.AeContext.EncryptBatches | mosh/src/crypto/ocb_internal.cc:917-975 | the ciphertext of whole batches, and offset and checksum behind them |
| OcbContexts.AeContext.TailOffsets | mosh/src/crypto/ocb_internal.cc:1002-1018 | the offsets of up to three remaining full blocks |
| OcbContexts.AeContext.TailInputs | mosh/src/crypto/ocb_internal.cc:1002-1018 | the cipher inputs and the checksum of the remaining full blocks |
| OcbContexts.AeContext.Seal | mosh/src/crypto/ocb_internal.cc:1019-1036 | the partial block and the tag from one run of cipher calls |
| OcbContexts.AeContext.TailCipher | mosh/src/crypto/ocb_internal.cc:1037-1053 | the ciphertext of the remaining full blocks |
| OcbContexts.AeContext.EncryptTail | mosh/src/crypto/ocb_internal.cc:977-1054 | ciphertext and tag of what is left after the batches |
| OcbContexts.AeContext.DecryptBatches | mosh/src/crypto/ocb_internal.cc:1139-1196 | the plaintext of whole batches |
| OcbContexts.AeContext.OpenPartial | mosh/src/crypto/ocb_internal.cc:1233-1243 | the partial block, its padding rebuilt by xoring the pad with itself |
| OcbContexts.RebuiltPad | mosh/src/crypto/ocb_internal.cc:1236-1240 | copying over the pad and xoring with the pad leaves plaintext and zeros |
| OcbContexts.AeContext.TailPlain | mosh/src/crypto/ocb_internal.cc:1245-1269 | the plaintext of the remaining full blocks, and the checksum of all |
| OcbContexts.AeContext.ExpectedTag | mosh/src/crypto/ocb_internal.cc:1271-1275 | the tag that the message should have |
| OcbContexts.AeContext.DecryptTail | mosh/src/crypto/ocb_internal.cc:1198-1275 | plaintext and expected tag of what is left after the batches |
| OcbContexts.AeContext.AdBatches | mosh/src/crypto/ocb_internal.cc:772-816 | the hash of whole batches of associated data |
| OcbContexts.AeContext.AdInputs | mosh/src/crypto/ocb_internal.cc:839-852 | the cipher inputs of the remaining associated data |
| OcbContexts.XorDown | mosh/src/crypto/ocb_internal.cc:862-880 | adding contributions from the last to the first gives the same sum |
| OcbContexts.AeContext.AdTail | mosh/src/crypto/ocb_internal.cc:818-882 | the hash of the remaining associated data |
| OcbContexts.AeContext.ProcessAd | mosh/src/crypto/ocb_internal.cc:763-884 | HASH of section 4.1 of RFC 7253, whatever way the data are divided into batches |
| OcbContexts.AeContext.NewMessage | mosh/src/crypto/ocb_internal.cc:904-911 | a nonce begins a message; a negative length keeps the hash of the associated data |
| OcbContexts.AeContext.AeEncrypt | mosh/src/crypto/ocb_internal.cc:888-1076 | however a message is divided into calls, the ciphertexts put together are that of the whole, and the last call has its tag |
| OcbContexts.AeContext.AeDecrypt | mosh/src/crypto/ocb_internal.cc:1102-1297 | the plaintext of each call, and at the end a refusal exactly when the tag differs |
| OcbSessions.EncryptOnce | mosh/src/crypto/ocb_internal.cc:888-1076 | one call computes section 4.2 of RFC 7253 |
| OcbSessions.EncryptSameAd | mosh/src/crypto/ocb_internal.cc:909-915 | a negative length equals giving the last associated data again |
| OcbSessions.EncryptInPieces | mosh/src/crypto/ocb_internal.cc:904-975 | however associated data and text are divided into pending calls and a final one, the result is that of a single call |
| OcbSessions.DecryptOnce | mosh/src/crypto/ocb_internal.cc:1102-1297 | one call computes section 4.3 of RFC 7253 |
| OcbSessions.DecryptInPieces | mosh/src/crypto/ocb_internal.cc:1102-1297 | however associated data and ciphertext are divided into calls, the result is that of a single call, the refusal included |
| OcbSessions.ThereAndBack | mosh/src/crypto/ocb_internal.cc:888-1297 | what one context seals another opens, to the same plaintext, for every length in bytes |
| Terminal.StepKeeps | mosh/src/terminal/terminalframebuffer.cc:121-189 | every operation of the frame writer keeps height rows of width cells, the cursor on the screen, ordered margins, and empty cells in their reset form |
| Terminal.Run | mosh/src/terminal/terminalframebuffer.cc:121-189 | so does every list of operations |
| Terminal.ResizeKeeps | mosh/src/terminal/terminalframebuffer.cc:406-455 | a new size does too |
| Consoles.ToRowHeld | mosh/src/terminal/terminalframebuffer.cc:133-144 | a move to a row, within the margins in origin mode, keeps size, shape, tab slots and clean cells |
| Consoles.AutoscrollHeld | mosh/src/terminal/terminalframebuffer.cc:169-189 | so does a move up or down that scrolls at a margin |
| Consoles.ScrollByHeld | mosh/src/terminal/terminalframebuffer.cc:305-350 | so do inserted and deleted rows |
| Consoles.PrintWideHeld | mosh/src/terminal/terminal.cc:58-114 | so does a narrow or wide character, with wrapping and insert mode |
| Consoles.CombiningNotWide | mosh/src/terminal/terminal.cc:116-131 | the assertion that an empty cell which a character joins is not wide |
| Consoles.CombineHeld | mosh/src/terminal/terminal.cc:114-138 | a combining character keeps the same, also where its cell has been cleared |
| Consoles.DecModesHeld | mosh/src/terminal/terminalfunctions.cc:280-352 | so does every list of private modes |
| Consoles.RestoreHeld | mosh/src/terminal/terminalframebuffer.cc:284-303 | so do saving and restoring the cursor and the soft reset, whatever size the screen had when it was saved |
| Consoles.PerformHeld | mosh/src/terminal/terminalfunctions.cc:49-690 | every function keeps height rows of width cells, the cursor on the screen, ordered margins, one tab slot for each column, and empty cells narrow and in their reset form |
| Consoles.DispatchedHeld | mosh/src/terminal/terminaldispatcher.cc:197-238 | so does the dispatcher, unknown functions included |
| Consoles.ResizedWf | mosh/src/terminal/terminalframebuffer.cc:406-455 | so does a new size, for cells, margins, cursor, tab slots and the combining place |
| ConsoleLaws.TabAfterMeans | mosh/src/terminal/terminalframebuffer.cc:212-221 | a tabulation goes to the stop with exactly that many stops on the way, or there are fewer |
| ConsoleLaws.TabBeforeMeans | mosh/src/terminal/terminalframebuffer.cc:222-228 | so does one backwards, where the first column stands in for missing stops |
| ConsoleLaws.InsertCellsShift | mosh/src/terminal/terminalframebuffer.cc:362-366 | inserting cells one by one shifts the rest of the row at once and drops what has no room |
| ConsoleLaws.DeleteCellsShift | mosh/src/terminal/terminalframebuffer.cc:368-372 | deleting cells one by one shifts it back and brings in blank cells |
| ConsoleLaws.InsertThenDelete | mosh/src/terminal/terminalframebuffer.cc:362-372 | deleting what was inserted restores the row but for the cells that fell off |
| ConsoleLaws.InsertThenDeleteLines | mosh/src/terminal/terminalframebuffer.cc:305-350 | the same for rows within the margins |
| ConsoleLaws.LineFeedRows | mosh/src/terminal/terminalframebuffer.cc:169-189 | a line feed on the bottom margin raises the rows between the margins by one and moves none elsewhere |
| ConsoleLaws.LineFeedCursor | mosh/src/terminal/terminalframebuffer.cc:169-189 | where the cursor is after it, for every region and mode |
| ConsoleLaws.ReverseIndexRows | mosh/src/terminal/terminalframebuffer.cc:169-189 | a reverse index on the top margin lowers them |
| ConsoleLaws.ReverseIndexCursor | mosh/src/terminal/terminalframebuffer.cc:169-189 | where the cursor is after it; it leaves a region that is only the last row |
| ConsoleLaws.UpMeans | mosh/src/terminal/terminalfunctions.cc:110-112 | up, not beyond the first row |
| ConsoleLaws.DownMeans | mosh/src/terminal/terminalfunctions.cc:113-115 | down, not beyond the last row |
| ConsoleLaws.ForwardMeans | mosh/src/terminal/terminalfunctions.cc:116-118 | right, not beyond the last column |
| ConsoleLaws.BackMeans | mosh/src/terminal/terminalfunctions.cc:119-121 | left, not beyond the first column |
| ConsoleLaws.OriginMeans | mosh/src/terminal/terminalframebuffer.cc:254-262 | in origin mode positions count from the top margin and stay between the margins |
| ConsoleLaws.SaveThenRestore | mosh/src/terminal/terminalframebuffer.cc:284-303 | the saved cursor comes back with rendition and modes, in its place if and only if that is still within the limits |
| ConsoleLaws.WideMeans | mosh/src/terminal/terminal.cc:102-113 | a wide character takes two columns |
| ConsoleLaws.CombiningMeans | mosh/src/terminal/terminal.cc:114-138 | a combining character after a character joins it and moves nothing |
| ConsoleLaws.LargerAndBack | mosh/src/terminal/terminalframebuffer.cc:406-427 | a larger size and back keeps every cell, and clears only wrap bits |
| ConsoleLaws.CursorBackAgain | mosh/src/terminal/terminalframebuffer.cc:429-455 | and cursor and tab stops |
| ParserLaws.Anywhere | mosh/src/terminal/parserstate.cc:40-60 | where the characters lead that mean the same in every state |
| ParserLaws.StringsLeft | mosh/src/terminal/parserstate.cc:239-382 | exactly which other characters leave the states of strings and of what is ignored, and where to |
| ParserLaws.SequencesLeft | mosh/src/terminal/parserstate.cc:142-237 | the same within escape and control sequences |
| ParserLaws.DeviceStringsLeft | mosh/src/terminal/parserstate.cc:108-318 | the same at the start of device control strings and after an escape character |
| ParserLaws.ReadEscapeAnywhere | mosh/src/terminal/parserstate.cc:50-53 | an escape character starts afresh from any state |
| ParserLaws.Cancelled | mosh/src/terminal/parserstate.cc:40-49 | 0x18 and 0x1A lead to the ground from any state and only cancel a pending wrap |
| ParserLaws.EightBit | mosh/src/terminal/parserstate.cc:40-49 | an 8-bit control character ends what went before and is executed |
| ParserLaws.ReadSystemCommand | mosh/src/terminal/parserstate.cc:352-373 | an operating system command ended by a bell or a string terminator leaves its text, up to the limit, the parser on the ground and the screen as it was |
| ParserLaws.ReadIgnoredString | mosh/src/terminal/parserstate.cc:252-350 | a device control string, or one that is ignored, leaves the screen as it was, whatever is in it |
| ParserLaws.ReadEscapeSequence | mosh/src/terminal/parserstate.cc:108-157 | an escape sequence is dispatched with exactly its characters, or as the 8-bit control character it stands for |
| ParserLaws.ReadControlSequence | mosh/src/terminal/parserstate.cc:159-237 | a control sequence is dispatched with its parameters and exactly its other characters, from any state |
| ParserLaws.ControlHere | mosh/src/terminal/parserstate.cc:78-102 | a control character is executed in the middle of a sequence, which stays as it is |
| ParserLaws.ControlInside | mosh/src/terminal/parserstate.cc:159-216 | the sequence is then dispatched as without it |
| ParserLaws.Spoils | mosh/src/terminal/parserstate.cc:164-237 | what spoils a control sequence |
| ParserLaws.ReadSpoilt | mosh/src/terminal/parserstate.cc:239-250 | a malformed control sequence is skipped up to its final character and not dispatched |
| ParserLaws.ReadPrinted | mosh/src/terminal/parserstate.cc:90-101 | on the ground every other character is printed |
| SequenceLaws.EraseInDisplayMeans | mosh/src/terminal/terminalfunctions.cc:77-102 | `ESC [ n J` resets exactly the cells from the cursor on, up to it, or all; nothing else changes |
| SequenceLaws.EraseInLineMeans | mosh/src/terminal/terminalfunctions.cc:57-74 | `ESC [ n K` the same in the row |
| SequenceLaws.EraseCharactersMeans | mosh/src/terminal/terminalfunctions.cc:564-575 | `ESC [ n X` exactly n cells from the cursor on, as far as the row goes |
| SequenceLaws.InsertLinesMeans | mosh/src/terminal/terminalfunctions.cc:493-504 | `ESC [ n L`: where every row is afterwards, and the cursor |
| SequenceLaws.DeleteLinesMeans | mosh/src/terminal/terminalfunctions.cc:507-518 | `ESC [ n M` likewise |
| SequenceLaws.ScrollForwardMeans | mosh/src/terminal/terminalfunctions.cc:677-682 | `ESC [ n S`: where every row within the margins is afterwards |
| SequenceLaws.ScrollBackwardMeans | mosh/src/terminal/terminalfunctions.cc:685-690 | `ESC [ n T` likewise |
| SequenceLaws.InsertCharactersMeans | mosh/src/terminal/terminalfunctions.cc:521-530 | `ESC [ n @`: where every cell of the row is afterwards |
| SequenceLaws.DeleteCharactersMeans | mosh/src/terminal/terminalfunctions.cc:533-542 | `ESC [ n P` likewise |
| SequenceLaws.BareMeans | mosh/src/terminal/terminaldispatcher.cc:133-148 | a missing number is 0, for every control sequence |
| SequenceLaws.LargeMeans | mosh/src/terminal/terminaldispatcher.cc:78-131 | a number above 65535 counts as missing |
| SequenceLaws.MissingFirst | mosh/src/terminal/terminaldispatcher.cc:78-131 | so does nothing before a semicolon |
| SequenceLaws.MissingSecond | mosh/src/terminal/terminaldispatcher.cc:78-131 | and nothing behind one |
| MotionLaws.CursorUpMeans | mosh/src/terminal/terminalfunctions.cc:105-132 | `ESC [ n A`: the cursor's place, within its limits; nothing else changes |
| MotionLaws.CursorDownMeans | mosh/src/terminal/terminalfunctions.cc:105-133 | `ESC [ n B` |
| MotionLaws.CursorForwardMeans | mosh/src/terminal/terminalfunctions.cc:105-134 | `ESC [ n C` |
| MotionLaws.CursorBackMeans | mosh/src/terminal/terminalfunctions.cc:105-135 | `ESC [ n D` |
| MotionLaws.PositionMeans | mosh/src/terminal/terminalfunctions.cc:105-137 | `ESC [ y ; x H`, in origin mode counted from the top margin |
| MotionLaws.RowPositionMeans | mosh/src/terminal/terminalfunctions.cc:545-551 | `ESC [ n d` |
| MotionLaws.ColumnPositionMeans | mosh/src/terminal/terminalfunctions.cc:554-561 | `ESC [ n G` |
| MotionLaws.ForwardTabsMeans | mosh/src/terminal/terminalfunctions.cc:235-248 | `ESC [ n I`: the n-th tab stop to the right, or the last column if there are fewer |
| MotionLaws.BackwardTabsMeans | mosh/src/terminal/terminalfunctions.cc:235-248 | `ESC [ n Z`: the n-th to the left, or the first column |
| MotionLaws.TabMeans | mosh/src/terminal/terminalfunctions.cc:229-233 | a horizontal tab |
| MotionLaws.ReturnMeans | mosh/src/terminal/terminalfunctions.cc:181-194 | carriage return and backspace |
| MotionLaws.LineFeedMeans | mosh/src/terminal/terminalfunctions.cc:169-178 | line feed, vertical tab and form feed: the row below, or the rows within the margins one up |
| MotionLaws.IndexMeans | mosh/src/terminal/terminalfunctions.cc:169-202 | `ESC D` and its mirror image `ESC M` |
| MotionLaws.NextLineMeans | mosh/src/terminal/terminalfunctions.cc:205-211 | `ESC E` |
| ModeLaws.SetTabMeans | mosh/src/terminal/terminalfunctions.cc:251-256 | `ESC H` sets exactly the tab stop at the cursor |
| ModeLaws.ClearTabMeans | mosh/src/terminal/terminalfunctions.cc:259-278 | `ESC [ n g` clears exactly that one, all, or none |
| ModeLaws.SaveMeans | mosh/src/terminal/terminalfunctions.cc:458-468 | what `ESC 7` saves |
| ModeLaws.RestoreMeans | mosh/src/terminal/terminalfunctions.cc:463-469 | what `ESC 8` brings back, and where the cursor is if its place is no longer allowed |
| ModeLaws.FullResetMeans | mosh/src/terminal/terminalfunctions.cc:578-583 | `ESC c`: every cell, the cursor, margins, tab stops and modes |
| ModeLaws.SoftResetMeans | mosh/src/terminal/terminalfunctions.cc:586-591 | `ESC [ ! p`: modes, margins, rendition and saved cursor; cells and cursor stay |
| ModeLaws.AlignmentMeans | mosh/src/terminal/terminalfunctions.cc:156-166 | `ESC # 8` |
| ModeLaws.SwitchMeans | mosh/src/terminal/terminalfunctions.cc:280-314 | private modes 7 and 25, on and off; unknown ones change nothing |
| ModeLaws.OriginModeMeans | mosh/src/terminal/terminalfunctions.cc:295-298 | private mode 6 moves the cursor home |
| ModeLaws.ColumnModeMeans | mosh/src/terminal/terminalfunctions.cc:285-292 | private mode 3 moves it home and clears the screen |
| ModeLaws.ModesInTurn | mosh/src/terminal/terminalfunctions.cc:324-352 | several modes are set one after the other |
| ModeLaws.InsertModeMeans | mosh/src/terminal/terminalfunctions.cc:357-388 | mode 4, on and off |
| ModeLaws.MarginsMean | mosh/src/terminal/terminalfunctions.cc:391-405 | `ESC [ a ; b r`: when it is valid, the margins, and the cursor home |
| ModeLaws.OtherSequences | mosh/src/terminal/terminaldispatcher.cc:197-238 | every other control sequence only cancels a pending wrap |
| ModeLaws.OtherControls | mosh/src/terminal/terminaldispatcher.cc:197-238 | so does every other control character |
| ModeLaws.OtherEscapes | mosh/src/terminal/terminaldispatcher.cc:197-238 | and every other escape sequence without intermediate characters |
| ModeLaws.ResizeMeans | mosh/src/terminal/terminalframebuffer.cc:406-455 | a new size: every cell, tab stop and margin, the cursor and the combining place |
| PrintingLaws.PrintMeans | mosh/src/terminal/terminal.cc:58-114 | a narrow or wide character in every mode: every cell of its row, the cursor, a pending wrap, and the line break before it |
| PrintingLaws.StaysInRow | mosh/src/terminal/terminal.cc:75-79 | with autowrap off a character after the last column stays in the row |
| PrintingLaws.StartsNextRow | mosh/src/terminal/terminal.cc:75-79 | with autowrap on it starts the next row, and the old one is marked |
| PrintingLaws.MovesRest | mosh/src/terminal/terminal.cc:94-99 | in insert mode the rest of the row moves right by the width of the character |
| PrintingLaws.CombineMeans | mosh/src/terminal/terminal.cc:114-138 | a combining character joins the text of its cell below 32 bytes and changes no other; an empty cell becomes a fallback cell, and the cursor moves on |
| PrintingLaws.UnprintableMeans | mosh/src/terminal/terminal.cc:139-146 | what has no width is not shown |
| RenditionLaws.OnMeans | mosh/src/terminal/terminalframebuffer.cc:492-520 | each on code sets its attribute and nothing else |
| RenditionLaws.OffMeans | mosh/src/terminal/terminalframebuffer.cc:492-520 | each off code clears it and nothing else |
| RenditionLaws.PlainMeans | mosh/src/terminal/terminalframebuffer.cc:464-468 | 0 resets everything |
| RenditionLaws.IndexedMeans | mosh/src/terminal/terminalframebuffer.cc:523-539 | indexed colours; an index above 255 means nothing |
| RenditionLaws.ShortMeans | mosh/src/terminal/terminalframebuffer.cc:478-490 | the codes from 30, 40, 90 and 100 are the first sixteen of these |
| RenditionLaws.DefaultMeans | mosh/src/terminal/terminalframebuffer.cc:470-476 | 39 and 49 |
| RenditionLaws.TrueColorMeans | mosh/src/terminal/terminalfunctions.cc:434-447 | true colours by their components |
| RenditionLaws.UnknownMeans | mosh/src/terminal/terminalframebuffer.cc:492-520 | all other codes mean nothing |
| RenditionLaws.CodesInTurn | mosh/src/terminal/terminalfunctions.cc:416-453 | several codes take effect one after the other |
| RenditionLaws.OnlyRendition | mosh/src/terminal/terminalfunctions.cc:416-455 | nothing but the rendition changes, and a pending wrap stays |
| Machines.ActionsAsserted | mosh/src/terminal/parserstate.cc:40-250 | the parser executes only characters up to 255 and collects only digits and semicolons as parameters, as the dispatcher asserts |
| Machines.Act | mosh/src/terminal/terminal.cc:53-167 | every action of the parser keeps the emulator well formed; its assertions are preconditions |
| Machines.EveryInput | mosh/src/terminal/terminal.cc:40-172 | after every sequence of bytes and positive new sizes the screen is in shape, cursor and margins are on it, there is one tab slot for each column, empty cells are narrow, and all buffers are within their bounds |
| Machines.OneByOne | mosh/src/terminal/parser.cc:74-154 | bytes that arrive one by one are read as the characters of the whole string |
| Emulators.Emulator.constructor | mosh/src/terminal/terminalframebuffer.cc:63-84 | a blank screen with default tab stops and modes in a new framebuffer of the pool, and every other framebuffer as before |
| Emulators.Emulator.PutRow | mosh/src/terminal/terminalframebuffer.h:459-470 | writing a row changes this framebuffer in one row and no other framebuffer of the pool |
| Emulators.Emulator.PutCell | mosh/src/terminal/terminalframebuffer.h:472-480 | so does writing a cell |
| Emulators.FoundAside | mosh/src/terminal/terminalframebuffer.cc:86-104 | what is kept aside determines every other framebuffer |
| Emulators.Emulator.SnapCursorToBorder | mosh/src/terminal/terminalframebuffer.cc:121-131 | the nearest position on the screen, or within the margins in origin mode |
| Emulators.Emulator.MoveRowTo | mosh/src/terminal/terminalframebuffer.cc:133-144 | the row, kept within its limits, with no wrap pending and a new place to combine |
| Emulators.Emulator.MoveColTo | mosh/src/terminal/terminalframebuffer.cc:146-167 | the column, kept on the screen; an implicit move combines with the place before it, and only one beyond the edge leaves a wrap pending |
| Emulators.Emulator.DeleteLine | mosh/src/terminal/terminalframebuffer.cc:329-350 | erasing and inserting rows is scrolling up within the margins |
| Emulators.Emulator.InsertLine | mosh/src/terminal/terminalframebuffer.cc:305-327 | and scrolling down |
| Emulators.Emulator.MoveRowsAutoscroll | mosh/src/terminal/terminalframebuffer.cc:169-189 | any number of rows up or down, scrolling at the margins only from within them |
| Emulators.Emulator.ClearLine | mosh/src/terminal/terminalfunctions.cc:49-54 | exactly the cells of the range are reset |
| Emulators.Emulator.EraseCharacters | mosh/src/terminal/terminalfunctions.cc:564-573 | at most the rest of the row is erased |
| Emulators.Emulator.ResetRows | mosh/src/terminal/terminalfunctions.cc:92-96 | exactly the rows of the range are blank |
| Emulators.Emulator.EraseLine | mosh/src/terminal/terminalfunctions.cc:57-72 | the three parts of a row |
| Emulators.Emulator.EraseDisplay | mosh/src/terminal/terminalfunctions.cc:77-100 | the three parts of the screen |
| Emulators.Emulator.FillWithE | mosh/src/terminal/terminalfunctions.cc:156-164 | every cell holds an E |
| Emulators.Emulator.InsertCharacters | mosh/src/terminal/terminalfunctions.cc:521-528 | cells shift right and blank ones come in |
| Emulators.Emulator.DeleteCharacters | mosh/src/terminal/terminalfunctions.cc:533-540 | cells shift left and blank ones come in |
| Emulators.Emulator.SetScrollingRegion | mosh/src/terminal/terminalframebuffer.cc:230-252 | margins within the screen and in order, and the cursor between them in origin mode |
| Emulators.Emulator.SetMargins | mosh/src/terminal/terminalfunctions.cc:391-403 | invalid margins change nothing; valid ones move the cursor home |
| Emulators.Emulator.BreakIfNeeded | mosh/src/terminal/terminal.cc:75-95 | the line break for a pending wrap, or for a wide character in the last column |
| Emulators.Emulator.PrintWidth | mosh/src/terminal/terminal.cc:71-114 | a narrow or wide character is written at the cursor after the line break, with insert mode, and the cell that it overlaps is cleared |
| Emulators.Emulator.Join | mosh/src/terminal/terminal.cc:114-138 | a combining character joins the cell before the cursor, up to 32 bytes; an empty cell becomes a fallback cell and the cursor moves on |
| Emulators.Emulator.GetNextTab | mosh/src/terminal/terminalframebuffer.cc:212-228 | the column of the tab stop so many stops further or back, or that there is none |
| Emulators.Emulator.Tabulate | mosh/src/terminal/terminalfunctions.cc:214-227 | a tabulation, which keeps a pending wrap |
| Emulators.Emulator.ClearTabStops | mosh/src/terminal/terminalfunctions.cc:259-275 | one tab stop or all of them |
| Emulators.Emulator.SetDecModes | mosh/src/terminal/terminalfunctions.cc:280-352 | the private modes of a sequence, one after the other |
| Emulators.Emulator.SetAnsiModes | mosh/src/terminal/terminalfunctions.cc:357-385 | insert mode |
| Emulators.Emulator.RestoreCursorState | mosh/src/terminal/terminalframebuffer.cc:293-303 | the saved cursor, brought back onto the screen, with its modes |
| Emulators.Emulator.FullyReset | mosh/src/terminal/terminalframebuffer.cc:384-392 | a new screen of the same size |
| Emulators.Emulator.SoftReset | mosh/src/terminal/terminalframebuffer.cc:394-404 | modes, margins, rendition and saved cursor as at the start; cells and cursor stay |
| Emulators.Emulator.Resize | mosh/src/terminal/terminalframebuffer.cc:406-427 | rows cut off or blank ones added, in both directions, with tab slots and combining place |
| Emulators.Emulator.ResizeDrawState | mosh/src/terminal/terminalframebuffer.cc:429-455 | margins reset only by a real change, tab slots for the new width, the cursor snapped and a combining place off the screen forgotten |
| Emulators.WithTabs | mosh/src/terminal/terminalframebuffer.cc:55-61 | new columns get no tab stops, or the default ones |
| Emulators.Emulator.Dispatch | mosh/src/terminal/terminaldispatcher.cc:197-238 | each function with its parameters, updating in place, is its function on values; an unknown one only cancels a pending wrap |
| Emulators.Emulator.Act | mosh/src/terminal/terminal.cc:53-167 | for every action of the parser, emulator and dispatcher together are the machine of `Machine.dfy`, over rows that are shared, and no other framebuffer of the pool changes |
| CompleteTerminals.Complete.constructor | mosh/src/statesync/completeterminal.h:64-66 | the machine at its start |
| CompleteTerminals.Complete.Copy | mosh/src/terminal/terminalframebuffer.cc:86-104 | a copy is in the same state, and making it changes nothing |
| CompleteTerminals.Complete.ReadOctet | mosh/src/statesync/completeterminal.cc:46-56 | one byte through decoder, parser and emulator is one step of the machine |
| CompleteTerminals.Complete.Resize | mosh/src/statesync/completeterminal.cc:61-66 | so is a new size |
| CompleteTerminals.Complete.Act | mosh/src/statesync/completeterminal.cc:44-66 | for every sequence of bytes and positive new sizes, the object updated in place over shared rows is the machine after that sequence, and no other framebuffer changes |
| CompleteTerminals.ActBeside | mosh/src/terminal/terminalframebuffer.h:459-480 | another emulator of the same pool stays exactly what it was |
| CompleteTerminals.Snapshot | mosh/src/terminal/terminalframebuffer.cc:86-104 | a copy taken before stays what the original was, whatever the original reads afterwards |
| Drawing.DownTimes | mosh/src/terminal/terminalframebuffer.cc:169-189 | line feeds above the bottom margin move the cursor down |
| Drawing.ScrollTimes | mosh/src/terminal/terminalframebuffer.cc:169-189 | line feeds on the bottom margin scroll by as many rows |
| Drawing.BackTimes | mosh/src/terminal/terminalfunctions.cc:189-192 | backspaces move left |
| Drawing.PrintTimes | mosh/src/terminal/terminal.cc:58-114 | repeated characters fill a stretch of the row and leave a wrap pending at its end |
| Drawing.PrintWrapped | mosh/src/terminal/terminal.cc:75-79 | a pending wrap sends the next character to the next row |
| SharedRows.SingleOwner | mosh/src/terminal/terminalframebuffer.h:459-470 | a row counted once is held nowhere else |
| SharedRows.Pool.GetMutableRow | mosh/src/terminal/terminalframebuffer.h:459-470 | after the call nobody else holds the row, and no framebuffer looks different |
| SharedRows.Pool.SetCell | mosh/src/terminal/terminalframebuffer.h:472-480 | writing a cell changes one framebuffer in one place, however rows are shared |
| SharedRows.Pool.SetRow | mosh/src/terminal/terminalframebuffer.h:459-480 | so does writing a whole row |
| SharedRows.Pool.DeleteLines | mosh/src/terminal/terminalframebuffer.cc:329-350 | one blank row put in several times behaves like separate rows |
| SharedRows.Pool.InsertLines | mosh/src/terminal/terminalframebuffer.cc:305-327 | the same above a row |
| SharedRows.Pool.Resize | mosh/src/terminal/terminalframebuffer.cc:406-427 | every old row gets the new width and loses its wrap bit; copied rows and one blank row for all that come in leave every other framebuffer alone |
| SharedRows.Pool.Reset | mosh/src/terminal/terminalframebuffer.cc:384-392 | so does a reset |
| SharedRows.Pool.CopyFrame | mosh/src/terminal/terminalframebuffer.cc:86-104 | a copy is independent of its original |
| SharedRows.Pool.NewFrame | mosh/src/terminal/terminalframebuffer.cc:75-84 | so are the rows of a new framebuffer |
| Displays.FrameState.AppendMove | mosh/src/terminal/terminaldisplay.cc:496-522 | carriage return and line feeds, backspaces or an address lead to the position, except that backspaces after the last column go one column too far; a cursor that was one column behind stays so by backspaces and by nothing else |
| Displays.FrameState.AppendSilentMove | mosh/src/terminal/terminaldisplay.cc:484-494 | the real cursor is at the position afterwards, or still one column behind, and hidden if it had to move |
| Displays.FrameState.UpdateRendition | mosh/src/terminal/terminaldisplay.cc:524-531 | the terminal has the rendition afterwards |
| Displays.FrameState.AppendSpaces | mosh/src/terminal/terminaldisplay.cc:395-396 | spaces show as blank cells of the current rendition, where the real cursor is |
| Displays.FrameState.AppendErase | mosh/src/terminal/terminaldisplay.cc:391-393 | erased cells show as blank cells of the current rendition, from the real cursor on |
| Displays.FrameState.AppendCell | mosh/src/terminal/terminaldisplay.cc:426-428 | the cell shows at the position of the real cursor |
| Displays.FrameState.AppendWrapped | mosh/src/terminal/terminaldisplay.cc:339-346 | the cell shows in the first column of the row that the cursor wraps into |
| Displays.Display.FlushBlanks | mosh/src/terminal/terminaldisplay.cc:386-398 | a run of blank cells shows, by erasing or by spaces, in place or one column too far left |
| Displays.Display.EndRow | mosh/src/terminal/terminaldisplay.cc:436-450 | a run of blank cells at the end shows, and the last column is written only by spaces |
| Displays.Display.DrawCell | mosh/src/terminal/terminaldisplay.cc:412-428 | one cell shows, at a position that is forced in the last column of a wrapping row |
| Displays.Display.PutCell | mosh/src/terminal/terminaldisplay.cc:361-432 | one turn of the loop: the cells up to here show as the trace says, or wait in a run of blanks |
| Displays.Display.PutCells | mosh/src/terminal/terminaldisplay.cc:352-450 | the row looks right if and only if the cursor was in step, or tracked in another row, or `RowRight`; what it looks like otherwise (`RowTrace`); whether a cursor that was behind still is, and where it is tracked (`RowRest`); and whether the last column was written |
| Displays.Display.ReachedMeans | mosh/src/terminal/terminaldisplay.cc:352-450 | what the bottom row shows is what `RowTrace` foretells from the two rows and the tracked column |
| Drawing.TraceDone | mosh/src/terminal/terminaldisplay.cc:352-450 | a row drawn one column too far left over a stretch is right if and only if the cells of the stretch look alike and so does the old cell left behind it |
| Displays.Display.PutForced | mosh/src/terminal/terminaldisplay.cc:338-346 | the forced first cell shows and no other cell looks different |
| Displays.Display.NextRow | mosh/src/terminal/terminaldisplay.cc:464-468 | carriage return and line feed reach the next row without scrolling |
| Displays.Display.PutRow | mosh/src/terminal/terminaldisplay.cc:324-469 | whether the row shows, that all other rows look as before, exactly when a cursor that was behind still is, and exactly when the next row starts by wrapping |
| Frames.FindScroll | mosh/src/terminal/terminaldisplay.cc:167-195 | how far the display moved up and how many rows are then in place |
| Frames.PlanSound | mosh/src/terminal/terminaldisplay.cc:167-195 | these rows are equal in both frames |
| Frames.ShiftRows | mosh/src/terminal/terminaldisplay.cc:240-247 | moving rows in place gives the shifted list |
| Frames.ScrollWhole | mosh/src/terminal/terminaldisplay.cc:218-221 | carriage return and line feeds scroll the whole screen |
| Frames.ScrollRegion | mosh/src/terminal/terminaldisplay.cc:222-238 | margins, line feeds and reset margins scroll the top of the screen |
| Frames.ScrollTerminal | mosh/src/terminal/terminaldisplay.cc:207-238 | the terminal rows are shifted with blank rows below |
| Frames.TryScroll | mosh/src/terminal/terminaldisplay.cc:166-250 | after the shortcut the terminal shows the shifted rows, and the first of them are done |
| Frames.FitRows | mosh/src/terminal/terminaldisplay.cc:147-164 | rows wide and many enough for the new frame; unchanged for an unchanged size |
| Frames.StartOver | mosh/src/terminal/terminaldisplay.cc:122-145 | a cleared terminal with known cursor and rendition, whatever it was before |
| Frames.PutRows | mosh/src/terminal/terminaldisplay.cc:252-256 | every row shows if and only if the cursor was in step, or a row above the bottom row changed, or the bottom row comes out right; exactly when a cursor that was behind still is, and where; and exactly when the bottom right corner was written |
| Frames.PlaceCursor | mosh/src/terminal/terminaldisplay.cc:258-262 | the cursor is in place, or one column to the left: exactly after an overrun, or when it was behind and moves by backspaces |
| Frames.Finish | mosh/src/terminal/terminaldisplay.cc:258-276 | the same with visibility and rendition, which are always right |
| Frames.NewFrame | mosh/src/terminal/terminaldisplay.cc:61-322 | every cell of the frame shows if and only if the cursor was in step or `CellsRight`; the cursor is in step afterwards if and only if there is no overrun, or, if it was behind before, if and only if not `StaysBehind`; and what a bottom row that comes out wrong looks like |
| Frames.OverrunHappens | mosh/src/terminal/terminaldisplay.cc:512-516 | an overrun exists |
| Frames.TwoFrames | mosh/src/terminal/terminaldisplay.cc:484-494 | two frames after which the cells are wrong |
| Frames.TwoFramesSeen | mosh/src/terminal/terminaldisplay.cc:484-494 | what a bottom row with their trace shows |
| Frames.SameFrameAgain | mosh/src/terminal/terminaldisplay.cc:496-522 | the same frame again keeps the cells right and leaves the cursor behind |
| Frames.ChangeAbove | mosh/src/terminal/terminaldisplay.cc:252-262 | a frame that changes a row above the bottom row keeps the cells right, and the cursor is behind afterwards only by an overrun |
| Frames.FirstOverrun | mosh/src/terminal/terminaldisplay.cc:512-516 | an overrun on a cleared screen |
| Frames.InStep | mosh/src/frontend/stmclient.cc:275-294 | the terminal shows a frame with its cursor if and only if its cells show and the cursor is not behind |
| Frames.ThreeFrames | mosh/src/frontend/stmclient.cc:275-294 | a session of three frames, each sent by `OutputNewFrame`, after which the terminal shows B and A instead of a blank and B |
| Frames.RowsAside | mosh/src/terminal/terminalframebuffer.cc:121-189 | cursor, margins and rendition after any operations do not depend on the cells |
| Frames.Client.OutputNewFrame | mosh/src/frontend/stmclient.cc:275-294 | in every session: a repaint shows the cells of the new frame; otherwise they show, if the last ones did, if and only if the cursor was in step or `CellsRight`; whether the cursor is in step is exactly `StaysBehind` or `Overrun` of the two frames; after a frame that showed with its cursor, the next one does if and only if there is no overrun |
| Utf8.ViableMeans | mosh/src/terminal/parser.cc:93-94 | the byte tables are the sequences of section 4 of RFC 3629 and their beginnings |
| Utf8.SplitJoins | mosh/src/terminal/parser.cc:96-153 | decoding loses no byte |
| Utf8.FirstPiece | mosh/src/terminal/parser.cc:93-124 | each replaced piece is the longest beginning of a character there |
| Utf8.Replaced | mosh/src/terminal/parser.cc:108-131 | a piece that is no character reads as U+FFFD |
| Utf8.SplitSnoc | mosh/src/terminal/parser.cc:74-154 | decoding a longer string goes on from what remained |
| Utf8.RoundTrip | mosh/src/terminal/parser.cc:74-154 | decoding undoes encoding, for every text |
| Utf8.Verdicts | mosh/src/terminal/parser.cc:99-131 | what the three answers mean for a buffer with one new byte |
| Utf8.Utf8Parser.Drain | mosh/src/terminal/parser.cc:84-153 | the loop passes on exactly the characters in the buffer, keeps the rest, and ends with every byte accounted for |
| Utf8.Utf8Parser.Input | mosh/src/terminal/parser.cc:74-154 | byte by byte, what is passed on and kept is what decoding the whole input gives, and what decoding the kept bytes with the new one gives; the buffer never overflows |
| EscapeParser.Parser.Input | mosh/src/terminal/parser.cc:52-66 | the next state and the actions in their order |
| Dispatching.DecimalValue | mosh/src/terminal/terminalframebuffer.cc:566-598 | written numbers read back |
| Dispatching.ParseJoined | mosh/src/terminal/terminaldispatcher.cc:78-131 | parameters read back as they were written |
| Dispatching.Dispatcher.NewParamChar | mosh/src/terminal/terminaldispatcher.cc:51-60 | at most 100 parameter characters are kept, and a parsed list is forgotten |
| Dispatching.Dispatcher.Collect | mosh/src/terminal/terminaldispatcher.cc:62-69 | at most eight dispatch characters are kept |
| Dispatching.Dispatcher.Clear | mosh/src/terminal/terminaldispatcher.cc:71-76 | everything collected is forgotten |
| Dispatching.Dispatcher.OscPut | mosh/src/terminal/terminaldispatcher.cc:240-246 | at most 16384 characters of an operating system command are kept |
| Dispatching.Dispatcher.ParseParams | mosh/src/terminal/terminaldispatcher.cc:78-131 | the loop finds the parameters between the semicolons, missing and too large ones marked |
| Dispatching.Dispatcher.ParamCount | mosh/src/terminal/terminaldispatcher.cc:150-157 | their number |
| Dispatching.Dispatcher.GetParam | mosh/src/terminal/terminaldispatcher.cc:133-148 | one of them, or its default |
| Graphics.SelectGraphicRendition | mosh/src/terminal/terminalfunctions.cc:416-453 | the loop applies the parameters one after the other |
| Graphics.SelectReachable | mosh/src/terminal/terminalfunctions.cc:416-453 | no parameter list leads out of the renditions that can be written |
| Graphics.OneReachable | mosh/src/terminal/terminalframebuffer.cc:462-521 | nor does any single code |
| Graphics.ColorReachable | mosh/src/terminal/terminalframebuffer.cc:523-539 | nor any colour |
| Graphics.TrueColorParts | mosh/src/terminal/terminalframebuffer.h:79-82 | three bytes make a colour by adding up |
| Graphics.ComponentsColor | mosh/src/terminal/terminalframebuffer.cc:565-571 | a colour is made again from its written components |
| Graphics.SgrBounds | mosh/src/terminal/terminalframebuffer.cc:541-605 | at most 17 parameters of three digits, which fit the parameter buffer |
| Graphics.SgrRoundTrip | mosh/src/terminal/terminalframebuffer.cc:541-605 | the parameters written for a rendition turn any rendition into it |
| Interpreter.ReadSequence | mosh/src/terminal/parserstate.cc:103-216 | a control sequence is dispatched with its parameters and final character, whatever was collected before |
| Defaults.SequenceSame | mosh/src/terminal/terminalfunctions.cc:49-100 | in the default modes the control sequences of the frame writer do what its operations say |
| Defaults.PrintSame | mosh/src/terminal/terminal.cc:58-114 | so does a narrow character |
| Defaults.ControlSame | mosh/src/terminal/terminalfunctions.cc:169-194 | so do the control characters |
| Interpreter.ReadRendition | mosh/src/terminal/terminalframebuffer.cc:541-605 | the control sequence of a rendition, read from the ground state, selects exactly it |
| Interpreter.ReadLink | mosh/src/terminal/terminalframebuffer.cc:619-633 | ending a hyperlink cancels a pending wrap and does nothing else |
| Interpreter.ReadOp | mosh/src/terminal/parserstate.cc:40-250 | every operation is read back from its spelling |
| Interpreter.ReadOps | mosh/src/terminal/terminaldispatcher.cc:197-238 | reading the spelling of operations performs them |
| Transmission.BytesPerform | mosh/src/terminal/parser.cc:74-154 | a terminal in the default modes that takes the bytes for operations one by one performs exactly these |
| Transmission.NewFrameBytes | mosh/src/terminal/terminaldisplay.cc:61-322 | a terminal that decodes, parses and dispatches the bytes of a frame one by one shows every cell of it if and only if its cursor was in step or `CellsRight`, and its cursor is in step afterwards if and only if not `StaysBehind`, or no overrun if it was in step before |
| EchoAcks.Complete.RegisterInputFrame | mosh/src/statesync/completeterminal.cc:156-159 | the frame is added to the history |
| EchoAcks.Complete.FindNewest | mosh/src/statesync/completeterminal.cc:130-136 | the last entry old enough |
| EchoAcks.Complete.EraseBelow | mosh/src/statesync/completeterminal.cc:138-145 | walking and erasing keeps exactly the entries that are not older |
| EchoAcks.Complete.SetEchoAck | mosh/src/statesync/completeterminal.cc:127-154 | the history and the acknowledgment afterwards, and whether it changed |
| EchoAcks.NewestIsLatest | mosh/src/statesync/completeterminal.cc:130-136 | no entry old enough is newer |
| EchoAcks.TooEarly | mosh/src/statesync/completeterminal.cc:133 | before the clock reaches the timeout the subtraction wraps, and a later call lowers the acknowledgment |
| EchoAcks.EchoAckMonotone | mosh/src/statesync/completeterminal.cc:127-159 | the acknowledgment never decreases in runs from a clock on if and only if that clock is at least 50 ms |
| EchoAcks.AckExactly | mosh/src/statesync/completeterminal.cc:127-159 | after every tick of a run from 50 ms on, the acknowledgment is the newest input that was registered 50 ms ago or more, or 0 |

## Left out

- TransportClasses.TransportSender.SendInFragments: returns the instruction; the fragments and datagrams made of it are in `Fragments` and `Datagrams`, and verbose output is not modelled.
- TransportClasses.TransportSender.Tick: an encoding larger than the compressor's buffer throws out of the source's call before the timers are set; here that leaves the link without the datagrams, with the timers as after sending.
- Guarantees.RunInv: speaks of runs in which no side uses all 2^64 - 1 ordinary state numbers; `Guarantees.ShortRunSound` bounds how long that takes.
- Fragments.Fragmenter.MakeFragments: protobuf and zlib are one abstract codec with an inverse on every instruction and nonempty output. This is more than the code has: it refuses to uncompress an instruction to more than 2048 * 2048 bytes.
- Datagrams.RefinesProtocol: a datagram that fails authentication never reaches the assembly; datagrams that were not sent do not arrive.
- Deliveries.Recovery: supposes that what the late tick sends fits in the compressor's buffer, where the source throws an exception otherwise, and a run short enough not to use up the state numbers.
- Packets.Connection.Send: sockets, roaming, port hopping, timestamps and round trip times are parameters or absent.
- Sessions.Session.Encrypt: the block budget is `Packets.Connection.Spend`; key files and base64 are not modelled.
- OcbContexts.AeContext.AeEncrypt: messages and associated data stay below 2^16 blocks, where the L table suffices; the tag goes behind the ciphertext, and plaintext and ciphertext do not share memory.
- OcbContexts.AeContext.AeDecrypt: the same limits; comparing tags in constant time is equality here.
- OcbCode.DoubleBlockDoubles: words are in the order of the specification; byte swaps and the vector instruction variants are not modelled.
- Ocb.OpensExactly: the block cipher is any bijection on blocks.
- Frames.NewFrame: cells are empty, in their reset form, or hold one narrow character, and have no hyperlink; wide, combining and fallback cells, bell, titles, clipboard, reverse video, paste and mouse modes are not modelled.
- Frames.FitRows: the generation number of an added row is 0, where the source counts; generations only ever prevent rows from being found equal.
- Transmission.NewFrameBytes: has the bytes for what is modelled of a frame, in the source's order, and none for what is not.
- Utf8.Verdicts: `Mbrtowc` stands for the C library's function in a UTF-8 locale, as one that refuses a sequence at its first wrong byte; the source's later checks for surrogates and large values then never apply.
- Machines.Act: `wcwidth` is a parameter that answers -1, 0, 1 or 2; titles, clipboard, hyperlinks, the bell, reports to the host and the modes of keyboard, mouse and paste are not part of the machine, and none of them touches what is.
- Consoles.PerformHeld: parameters are at most 65535 and the screen has any size, so additions of the source that would overflow an `int` are not modelled.
- CompleteTerminals.Complete.Act: replies to the host are not part of the machine; the echo acknowledgment of the same class is `EchoAcks.Complete`.
- SharedRows.Pool.GetMutableRow: rows are entries of a table and their use count is the number of places that hold them; freeing rows is not modelled.
- Heartbeats.Heartbeat: the send interval is any number up to 250 ms, the limit that the source puts on it.
- Schedules.TickExactly: the retransmission timeout is any number up to 1 s and the send interval up to 250 ms, the limits that the source puts on them; clocks stay 25 s clear of the end of the 64-bit range. The smallest delay is the 8 ms of the constructor; the client lowers it to 1 ms.
- Prediction and notification overlays, pseudo-terminals, curses, signals, the Android application and its scripts: not part of this model.
