# AVB switch: a verified model

This project models three parts of the AVB switch firmware in Dafny 4.11 and proves what they
promise, or exactly when they keep it. `dafny verify dfyconfig.toml` checks everything.

**Software 64-bit arithmetic** (`Words`, `Int64`, `Division`, `Timestamps`,
`PdelayMeasurement`, `RtcIncrement`). 64-bit numbers are pairs of 32-bit words with explicit
wrap-around. Every routine is proved against the mathematical integer it stands for, the divider
through its leading-bit search, four-way alignment and shift-subtract loop. On top of it come
mixed-sign timestamps, the neighbour rate ratio, the propagation delay and the clock increment
in 1.31 fixed point.

**IEEE 802.1AS** (`PdelayMachine`, `PdelayExchange`, `PdelayPort`, `Priority`, `BestMaster`,
`AnnounceInfo`, `AnnounceRuns`, `GptpBridge`, `Network`, `NetworkSafety`, `Rounds`, `Convergence`,
`HopCount`, `Spreading`, `OnTime`, `StalePath`). The peer delay machine and the announce machines
are functions with a class beside them that updates its fields in place and is proved to compute
them. `PdelayExchange` says when an exchange completes and a port becomes or stays capable,
`AnnounceRuns` what a run does to a port, receipt timeouts included, both in the fields alone.
`Network` puts bridges
together over in-order links, as interleaved steps (a port announces, a frame arrives, a port
machine runs, a bridge selects, a port becomes enabled); `NetworkSafety` holds for every
interleaving, `Rounds` to `StalePath` for synchronous rounds. A round is announcing, delivering,
running and selecting. The program's tick selects, announces and then runs, and frames come in
between, so what these modules count as one round takes two ticks.

**MRP and MSRP** (`MrpMachine`, `MrpSending`, `MrpReservations`, `MrpAttributes`, `MrpPacking`,
`MrpLayout`, `MrpPdu`, `MrpReceive`, `MrpDelivery`, `MrpTransmit`). The Applicant and Registrar
machines and the messages they send, the reservation table, and the PDU codec: events packed in
base 6 and base 4 are inserted in place into messages in the middle of a send buffer, a
transmission opportunity makes a frame of any series of such calls, and the receiver walks the
same bytes back, visiting for each call its attribute and event.

`Octets` and `Wrappers` are shared.

## Where the code and its promises differ

* `long_multiply` loses a carry: the product is short by 2^48 exactly when the sum of the cross
  products does not fit a word (`Int64.LongMultiplyExact`). Seconds to nanoseconds is exact below
  2^31 s (`Int64.SecondsExact`).
* The same loss makes the propagation delay wrong: the requester interval at the neighbour's rate
  comes out 2^17 ns short exactly when the low product loses its carry
  (`PdelayMeasurement.AtRateExact`), and the delay 2^16 ns short (`PdelayMeasurement.LostCarry`);
  `PdelayMeasurement.ShortDelay` is an exchange with a delay of 1 us that measures more than 4 s.
  At ratio 1.0 it never happens.
* Nanoseconds are taken from frames and from the clock as they are, so a time stamp may hold more
  than a second of them. A sum or difference is exact if and only if its raw nanoseconds fit 32
  bits. It comes out normalised whenever they are less than two seconds, as those of proper stamps
  are; `Timestamps.CarriedExactly` says exactly which others do, and `Timestamps.ImproperInput`
  is one that does not.
* The sanity check of the rate ratio looks at the seconds only, so an interval between -1 s and 0
  is not seen as negative (`PdelayMeasurement.Interval`).
* The peer delay loop ends only if the request interval is at least one tick, that is, if the
  logarithm of the interval is not negative (`PdelayMachine.TerminatesIff`).
* Port structures start zeroed, so a role selection before a port left BEGIN would adopt the zero
  root (`NetworkSafety.SelectingTooEarly`); the tick order prevents it.
* The source identity on the wire keeps only six of the eight bytes of the clock identity, behind
  a second FF FE. It is the clock identity exactly if its last five bytes are FF FE FF FE FF
  (`Network.WireSourceIs`). Any other bridge's own announcement passes the source test, and is
  stopped only if the bridge is on the path it announces (`Network.OwnAnnouncement`). It is a
  condition of `Spreading.Converges` that no receiver takes a neighbour's source for its own.
* The best root does not reach a bridge `d` hops away within `d` rounds. A bridge that follows a
  worse root copies its path trace and goes on announcing it for a round after it turned to a
  better one; whoever is on that stale path ignores it. In every run the root comes one hop
  further in every round if and only if each bridge that is next has a closer neighbour whose
  announcement passes the guards of `qualifyAnnounce` (`OnTime.OnTimeExactly`); for one bridge,
  `OnTime.AdoptedExactly` says exactly in which round it adopts the root. Without that condition
  it takes at least d + 1 and at most 2d rounds, counting the first selection as a round
  (`Spreading.Converges`); `StalePath.LineIsLate` and `StalePath.LineNotClear` are a line of four
  bridges that needs more than d + 1.
* The applicant tables exist twice. The initializers that are compiled list the columns in the
  order of the standard, which is not the order of the event enumeration, and their VN row lacks
  a column; the assignments by event name (under `#if 0`) are what the comments describe. Both
  are modelled: the declaration theorem holds for the assignments (`MrpMachine.DeclaresAsRequested`)
  and, step by step, exactly outside Join and Lv in VN for the initializers
  (`MrpMachine.CompiledDeclares`, `MrpMachine.CompiledWithdraws`). The registrar is taken by event
  name. The entries VP/rIn and VP/tx are taken from the initializers, because the assignments omit
  the one and send without a transition in the other.
* A FLUSH that finds the registrar in IN ends a registration without an indication; the
  indications balance exactly up to those (`MrpMachine.IndicationsBalance`).
* A listener's leave looks the reservation up by its four-packed value instead of its type, so it
  releases its own key exactly if that value is Ready, 2 (`MrpReservations.LeaveIsIntended`,
  `MrpReservations.ListenerEndsTalker`).
* The number of values of a message is stored in one octet. A merge keeps the PDU well-formed
  exactly if the message had fewer than 255 values (`MrpPdu.SentWellFormed`,
  `MrpReceive.WrappedUnseen`).
* Nothing tests whether the PDU still fits before `doTx` writes to it: the verdict of `send` is
  dropped, and `mrp_pdu_full` only chooses between two transmit events before the first call, though
  it tells exactly whether some further call would overrun the buffer
  (`MrpPdu.Participant.FullExactly`). Every series of calls fits the buffer up to 44 calls, and the
  frame made of it with its padding and four last octets up to 43; one call more overruns each
  with talkers that do not merge (`MrpTransmit.AlwaysFits`). In one transmission opportunity at
  most 24 machines send, once each, so the program stays within all limits
  (`MrpTransmit.Opportunity`).

## Model

| member | source | states |
|---|---|---|
| Int64.UInt64Add | ptp/vtss_gptp.c:239-245 | the pair is the sum modulo 2^64 |
| Int64.Uint64AddUint32 | ptp/vtss_gptp.c:231-236 | the pair is the sum modulo 2^64 |
| Int64.Uint64SubtractUint32 | ptp/vtss_gptp.c:277-282 | the pair is the difference modulo 2^64 |
| Int64.Int64Add | ptp/vtss_gptp.c:249-254 | signed addition is addition modulo 2^64 |
| Int64.Int64Subtract | ptp/vtss_gptp.c:266-271 | signed subtraction is subtraction modulo 2^64 |
| Int64.Uint64RShiftValue | ptp/vtss_gptp.c:290-305 | a right shift by n is division by 2^n, and zero from 64 on |
| Int64.Int64RShiftValue | ptp/vtss_gptp.c:308-323 | a signed right shift rounds the quotient by 2^n down; amounts outside 0..63 leave the sign |
| Int64.Uint64LShiftValue | ptp/vtss_gptp.c:357-361 | a left shift by n is multiplication by 2^n modulo 2^64, and zero outside 0..63 |
| Int64.LongMultiplyExact | ptp/vtss_gptp.c:95-115 | the product of two words is exact if the cross sum fits a word and short by exactly 2^48 otherwise |
| Int64.LowProduct | ptp/vtss_gptp.c:73-115 | the low word of the product never sees the loss, so only its high word can be wrong |
| Int64.Uint64TimesUint64 | ptp/vtss_gptp.c:191-202 | the product modulo 2^64, up to the bit missing from the product of the low words |
| Int64.Uint64TimesUint32 | ptp/vtss_gptp.c:209-219 | the same for a one-word factor |
| Int64.Int64TimesInt64 | ptp/vtss_gptp.c:122-151 | sign and magnitude multiplication is the product modulo 2^64, up to the missing bit |
| Int64.SecondsExact | ptp/gptpstatmch.c:796-802 | seconds to nanoseconds is exact below 2^31 s |
| Int64.SecondsInexact | ptp/gptpstatmch.c:796-802 | and short by 2^48 ns for the largest second count |
| Int64.TimesOne | ptp/gptpstatmch.c:841-870 | multiplying by 1.0 in 1.31 never loses a bit |
| Division.LeadingBitCorrect | ptp/vtss_gptp.c:369-457 | the binary search finds the leading bit of every word |
| Division.AlignCorrect | ptp/vtss_gptp.c:369-457 | the four-way alignment with word swap is a left shift that loses no bit and brings the divisor above half the dividend |
| Division.DivideStep | ptp/vtss_gptp.c:369-457 | a shift-subtract step keeps the division invariant |
| Division.Uint64DivMod | ptp/vtss_gptp.c:369-457 | quotient and remainder of every 64-bit number by every nonzero one; the marker values for a zero divisor |
| Division.Int64DivMod | ptp/vtss_gptp.c:462-504 | truncating signed division, with the one quotient that does not fit |
| Timestamps.Timestamp.Normalize | ptp/vtss_gptp.c:1458-1470 | one second moves between the fields if their signs differ, the value unchanged; a proper time ends up with one sign |
| Timestamps.Timestamp.Sum | ptp/vtss_gptp.c:1473-1488 | unless the seconds overflow, the exact sum if and only if the raw nanoseconds fit 32 bits; normalised whenever they are less than two seconds |
| Timestamps.Timestamp.Difference | ptp/vtss_gptp.c:1491-1506 | the same for the difference |
| Timestamps.CarriedExactly | ptp/vtss_gptp.c:1473-1506 | carrying once and normalising keeps the time, and when exactly the result is proper and of one sign |
| Timestamps.ImproperInput | ptp/vtss_gptp.c:1473-1506 | nanoseconds that are still more than a second afterwards |
| Timestamps.Timestamp.AbsoluteValue | ptp/vtss_gptp.c:1509-1521 | the absolute value of a normalised time |
| PdelayMeasurement.NanosecondsExact | ptp/gptpstatmch.c:796-802 | a difference in nanoseconds is exact from 0 to 2^31 s, and 2^32 too large if its nanoseconds are negative |
| PdelayMeasurement.LeadingZeros | ptp/gptpstatmch.c:804-812 | the scan finds the shift that brings the leading one to the top |
| PdelayMeasurement.RatioAccurate | ptp/gptpstatmch.c:796-822 | the normalising shift loses nothing, the quotient is within two units of floor(R 2^31 / Q), never below, and 1.0 for equal intervals |
| PdelayMeasurement.RateRatio | ptp/gptpstatmch.c:796-822 | the ratio is defined and that accurate whenever 0 < Q and R <= 2Q, and not defined for Q = 0 |
| PdelayMeasurement.Interval | ptp/gptpstatmch.c:763-802 | the interval as computed, and that only -1 s and less is seen as negative |
| PdelayMeasurement.Measurement.ComputePdelayRateRatio | ptp/gptpstatmch.c:753-839 | first response, invalid interval, empty interval and accurate ratio, and that the current response starts the next interval |
| PdelayMeasurement.Measurement.ComputePropTime | ptp/gptpstatmch.c:841-882 | the delay is half of the requester's time at the neighbour's rate less the responder's, modulo 2^32; at ratio 1.0 it is the mean one-way time, and exactly D if both ways take D < 2^32 ns, whatever the clock offset; nothing changes without a valid ratio |
| PdelayMeasurement.AtRateExact | ptp/gptpstatmch.c:864-865 | the time at the neighbour's rate is floor(Q ratio / 2^31), and exactly 2^17 ns short when the multiplication loses its carry |
| PdelayMeasurement.LostCarry | ptp/gptpstatmch.c:864-870 | a lost carry makes the propagation delay 2^16 ns short |
| PdelayMeasurement.ShortDelay | ptp/gptpstatmch.c:864-870 | an exchange it happens in: more than 4 s for a delay of 1000 ns |
| PdelayMeasurement.PropDelay | ptp/gptpstatmch.c:841-870 | half the difference of the scaled and the responder interval, through multiply, shift and signed subtract |
| PdelayMeasurement.Measurement.OffsetCancels | ptp/gptpstatmch.c:841-870 | a constant clock offset cancels: with D each way the mean of the stamps is exactly D |
| PdelayMeasurement.HalfDifference | ptp/gptpstatmch.c:841-870 | signed subtraction, shift and cut to a word are half the difference modulo 2^32 |
| RtcIncrement.AssembledValue | ptp/vtss_gptp.c:1762-1772 | mantissa and fraction are assembled without overlap |
| RtcIncrement.HalvedQuotient | ptp/vtss_gptp.c:1776-1781 | shifting by 32, dividing and halving is dividing the number shifted by 31 |
| RtcIncrement.RtcClock.SetRtcIncrement | ptp/vtss_gptp.c:1746-1785 | the kept fraction is floor(adjusted 2^31 / nominal) of the low 32 bits of the adjusted increment, and 1.0 for the nominal one below 32 ns |
| RtcIncrement.NothingLost | ptp/vtss_gptp.c:1772-1776 | the shift loses high bits exactly from 32 ns on |
| RtcIncrement.NominalIsOne | ptp/vtss_gptp.c:1746-1785 | the nominal increment gives exactly 1.0 |
| PdelayMachine.TerminatesIff | ptp/gptpstatmch.c:1048-1218 | the fixpoint loop of an enabled port ends if and only if the interval logarithm is not negative |
| PdelayMachine.NeverSettles | ptp/gptpstatmch.c:1048-1218 | with a zero-tick interval every pass changes the state, for ever |
| PdelayMachine.TicksExactly | ptp/gptpstatmch.h:31-37 | the interval in ticks: one for logarithm 0, doubled with each increment, zero below |
| PdelayMachine.AsCapableSound | ptp/gptpstatmch.c:885-1027 | over all runs from power-up, outside NOT_ENABLED asCapable implies a valid ratio, a delay within the threshold and at most allowedLostResponses + 1 resets in a row |
| PdelayMachine.SoundForever | ptp/gptpstatmch.c:885-1027 | and that stays so in every continuation |
| PdelayExchange.Enables | ptp/gptpstatmch.c:1117-1135 | a port found enabled starts a fresh measurement, not capable, and awaits the response to its first request |
| PdelayExchange.AwaitsResponse | ptp/gptpstatmch.c:1161-1188 | a timeout or a response to another request or port loses the exchange and sends the next request; a matching one leads on; otherwise nothing happens |
| PdelayExchange.AwaitsFollowUp | ptp/gptpstatmch.c:1190-1205 | a timeout or a second response loses the exchange; a matching follow-up completes it and leaves asCapable exactly as delay, responder and ratio say; otherwise nothing happens |
| PdelayExchange.AwaitsInterval | ptp/gptpstatmch.c:1207-1213 | after an exchange the next request is sent exactly when the interval has passed; the third one in a row that was answered more than once disables the port |
| PdelayExchange.ForcedOut | ptp/gptpstatmch.c:1064-1072 | a port that is not enabled leaves the exchange and is not capable |
| PdelayExchange.ExchangeCompletes | ptp/gptpstatmch.c:1048-1218 | a request followed, with any ticks in between and within the interval, by a matching response and a matching follow-up completes with exactly that asCapable |
| PdelayExchange.FirstExchange | ptp/gptpstatmch.c:1048-1218 | the same from the moment the port becomes enabled |
| PdelayExchange.NeedsBoth | ptp/gptpstatmch.c:1048-1218 | over every run, no exchange completes without a response and a follow-up that match |
| PdelayExchange.SilentPeriods | ptp/gptpstatmch.c:925-938 | a capable port whose neighbour falls silent stays capable through exactly allowedLostResponses + 1 lost exchanges, those before included |
| PdelayPort.Port.EnterState | ptp/gptpstatmch.c:885-1027 | the entry actions on the port's fields are those of the machine; a completed exchange leaves the ratio of the interval it ends, the delay of its four stamps, and asCapable exactly if delay, responder and ratio allow it |
| PdelayPort.Port.MeasureExchange | ptp/gptpstatmch.c:753-882 | ratio and delay after an exchange, from its stamps and those of the response before |
| PdelayPort.Port.StateMachine | ptp/gptpstatmch.c:1048-1218 | the loop over the port's fields computes the machine's fixpoint, with the outcome and the asCapable of the exchange it completes |
| Priority.MemcmpIsLess | ptp/gptpstatmch.c:48-60 | comparing the 28 bytes of two priority vectors is comparing their fields lexicographically |
| BestMaster.BestWins | ptp/gptpstatmch.c:607-640 | the loop's choice is no worse than the system vector and every foreign path, ties going to the system and the lowest port |
| BestMaster.WinnerUnique | ptp/gptpstatmch.c:607-640 | only one choice is |
| BestMaster.GmSelected | ptp/gptpstatmch.c:573-704 | after a selection gmPriority points to that winner |
| BestMaster.RolesSelected | ptp/gptpstatmch.c:640-676 | every port gets its path vector, its master vector and the role these call for |
| BestMaster.PathsExactly | ptp/gptpstatmch.c:585-604 | a path is the information of the port one step further exactly if announces have not stopped and syncs have not while there is a grandmaster, else nothing; when the sync counter starts again |
| BestMaster.ExpiredLoses | ptp/gptpstatmch.c:585-640 | gmPriority never points to a port whose announces have stopped, or syncs with a grandmaster present |
| BestMaster.PortExactly | ptp/gptpstatmch.c:640-676 | masterPriority, the role and updtInfo of every port, in its fields |
| BestMaster.BridgeExactly | ptp/gptpstatmch.c:676-704 | gmPresent exactly below priority1 255, grandmaster and own path trace exactly if the own vector won, newMaster exactly on a change |
| BestMaster.OneSlave | ptp/gptpstatmch.c:640-676 | a port is a slave exactly if its path won and it holds received information |
| BestMaster.UpdtKeeps | ptp/gptpstatmch.c:573-704 | a selection leaves the information of the ports alone |
| BestMaster.SelectsExactly | ptp/gptpstatmch.c:715-748 | a bridge selects exactly if some port asks, and releases all ports; their flags play no part in the result |
| BestMaster.InitDisables | ptp/gptpstatmch.c:540-558 | leaving INIT_BRIDGE disables all roles and leaves the empty grandmaster vector |
| AnnounceInfo.RunSettles | ptp/gptpstatmch.c:441-536 | from any state the fixpoint loop ends, in DISABLED, AGED or CURRENT, with nothing left to do |
| AnnounceInfo.RunClosedForm | ptp/gptpstatmch.c:441-536 | the whole run is one pending update followed by one message |
| AnnounceInfo.AlwaysConsistent | ptp/gptpstatmch.c:441-536 | over every sequence of events, CURRENT means Mine or Received, AGED means Aged, and no port has both reselect and selected |
| AnnounceRuns.AgesExactly | ptp/gptpstatmch.c:494-520 | a port with nothing else to do ages exactly if it holds received information and announces stopped, or syncs with a grandmaster present; else it stays as it is |
| AnnounceRuns.RunTakes | ptp/gptpstatmch.c:441-536 | the whole run of a port in CURRENT: its message, and then ageing of what it holds by then, timeouts included |
| AnnounceRuns.TakesUpdate | ptp/gptpstatmch.c:441-536 | a selected update is taken over first |
| AnnounceRuns.RunWaits | ptp/gptpstatmch.c:441-536 | a port whose update is not selected yet holds still, and so does an aged one |
| AnnounceRuns.RunEnables | ptp/gptpstatmch.c:441-536 | what becoming enabled and not enabled does |
| AnnounceRuns.ReceivesExactly | ptp/gptpstatmch.c:187-238 | which announces are let through, where they go, and whose path the bridge takes over |
| AnnounceRuns.HearsExactly | ptp/gptpstatmch.c:187-536 | from the frame through the run: the information, flags, state and timeout of the port that hears it |
| GptpBridge.GptpBridge.ComputePaths | ptp/gptpstatmch.c:585-604 | the path vector loop, timeouts included |
| GptpBridge.GptpBridge.ChooseGm | ptp/gptpstatmch.c:607-640 | the grandmaster loop through the pointer |
| GptpBridge.GptpBridge.ComputeRoles | ptp/gptpstatmch.c:640-676 | the role loop |
| GptpBridge.GptpBridge.UpdtRolesTree | ptp/gptpstatmch.c:573-704 | the updates in place compute the selection function |
| GptpBridge.GptpBridge.UpdtRoleDisabledTree | ptp/gptpstatmch.c:540-558 | all roles disabled, the grandmaster pointing at the empty vector |
| GptpBridge.GptpBridge.PortRoleSelection | ptp/gptpstatmch.c:715-748 | the selection machine computes its function |
| GptpBridge.GptpBridge.ReceiveMessage | ptp/gptpstatmch.c:187-238 | a received announce is qualified, and its path taken over on the slave port |
| GptpBridge.GptpBridge.SetInfoState | ptp/gptpstatmch.c:373-438 | the entry actions in place |
| GptpBridge.GptpBridge.PortAnnounceInformation | ptp/gptpstatmch.c:441-536 | the loop in place computes the run |
| Network.WireSourceIs | ptp/vtss_gptp.c:673-680 | the source identity on the wire is the clock identity exactly for one ending |
| Network.OwnAnnouncement | ptp/gptpstatmch.c:187-226 | when exactly a bridge takes its own announcement |
| NetworkSafety.StepSafe | ptp/gptpstatmch.c:573-704 | every step of the network keeps the invariant and makes no grandmaster worse |
| NetworkSafety.SafeAlways | ptp/gptpstatmch.c:573-704 | the invariant holds after every interleaving of steps |
| NetworkSafety.GmNeverWorse | ptp/gptpstatmch.c:573-704 | in every run a bridge's gmPriority is never worse than at any earlier moment |
| NetworkSafety.RootsKnown | ptp/vtss_gptp.c:621-757 | no bridge adopts a root nobody owns or one better than the least identity, and it claims distance 0 exactly for its own |
| NetworkSafety.SlaveUpstream | ptp/gptpstatmch.c:640-676 | across a slave port the neighbour's current (root, stepsRemoved) is strictly smaller |
| NetworkSafety.NoSlaveCycle | ptp/gptpstatmch.c:640-676 | slave ports form no cycle in any reachable state |
| NetworkSafety.SelectingTooEarly | ptp/vtss_gptp.c:985-1105 | selecting before a port left BEGIN would adopt the zero root |
| Rounds.RoundClosed | ptp/vtss_gptp.c:985-1105 | a round of announcing, receiving, running and selecting ends in one state, whatever the order within its parts |
| Rounds.RoundExists | ptp/vtss_gptp.c:985-1105 | there is such a round in every state |
| Convergence.PortRound | ptp/gptpstatmch.c:441-536 | what one round does to a port at rest: it takes over exactly an accepted, better message |
| Convergence.RoundRest | ptp/gptpstatmch.c:715-748 | rounds lead from rest to rest |
| Convergence.FirstRound | ptp/vtss_gptp.c:985-1105 | after the first round every bridge is its own grandmaster and at rest |
| HopCount.RoundNoShortcut | ptp/vtss_gptp.c:621-757 | no bridge ever claims to be closer to the root than its hop distance |
| HopCount.RoundWithin | ptp/vtss_gptp.c:621-757 | the root spreads at most one hop a round |
| HopCount.OffersRoot | ptp/gptpstatmch.c:640-676 | a bridge that has the root announces it on every link that leads away from it |
| HopCount.AdoptsExactly | ptp/gptpstatmch.c:187-226 | a bridge adopts the root in a round exactly if some closer neighbour's announcement passes the guards of qualifyAnnounce |
| HopCount.StaysAdopted | ptp/gptpstatmch.c:573-704 | a root adopted at its hop distance stays |
| Spreading.PathFollows | ptp/gptpstatmch.c:187-226 | a bridge takes over the path trace of the neighbour it follows |
| Spreading.SpreadGrows | ptp/gptpstatmch.c:573-704 | two rounds carry root and path trace one hop further |
| Spreading.Converges | ptp/gptpstatmch.c:573-704 | on every topology, after x rounds every bridge up to x/2 hops away has the least root with stepsRemoved equal to its distance, and none x or more hops away knows it |
| Spreading.RoundsExist | ptp/vtss_gptp.c:985-1105 | runs of every length exist |
| Spreading.RunKeeps | ptp/gptpstatmch.c:573-704 | on every topology, whatever its links let through: no claim below the hop distance, at most one hop a round |
| OnTime.RoundOnTime | ptp/gptpstatmch.c:187-226 | if every bridge less than x hops away has the root, all up to x hops have it after a round exactly if each bridge at x hears a closer neighbour |
| OnTime.OnTimeExactly | ptp/gptpstatmch.c:187-226 | over whole runs: the root spreads one hop in every round if and only if that holds before every round |
| OnTime.AdoptedExactly | ptp/gptpstatmch.c:187-226 | a bridge has adopted the root exactly if a neighbour that had it was let through before one of the rounds |
| StalePath.TempterIsLate | ptp/gptpstatmch.c:187-226 | a family of networks with a bridge three hops away that has not adopted the root after four rounds |
| StalePath.LineIsLate | ptp/gptpstatmch.c:187-226 | a concrete line of four bridges in that family |
| StalePath.LineNotClear | ptp/gptpstatmch.c:187-226 | on that line some bridge that is next does not hear a closer neighbour |
| MrpMachine.MadMachine.AttrEvent | msrp/vtss_msrp.c:2683-2827 | registrar first, then applicant with its exceptions, message, failed transmission and non-participation, on the fields of the machine |
| MrpSending.SendsExactly | msrp/vtss_msrp.c:2790-2815 | which message a step sends, if any, from the state, the event and the registration, with either table |
| MrpSending.FullExactly | msrp/vtss_msrp.c:2780-2815 | a message that does not fit leaves the state and asks for another opportunity |
| MrpSending.RequestsExactly | msrp/vtss_msrp.c:2817-2821 | an opportunity is requested exactly on entry to VN, AN, AA, LA, VP, AP and LO, and when the PDU was full |
| MrpSending.RequestsMove | msrp/vtss_msrp.c:390-922 | local requests, in terms of what a state declares and how many messages it still owes |
| MrpSending.JoinInsMove | msrp/vtss_msrp.c:390-922 | received JoinIn, In and New: when a message of a peer counts as one owed less |
| MrpSending.EmptiesMove | msrp/vtss_msrp.c:390-922 | received Empty and JoinEmpty and the periodic event make quiet states owe one |
| MrpSending.LeavesMove | msrp/vtss_msrp.c:390-922 | Leave, LeaveAll and redeclaration make everybody owe two |
| MrpSending.TxMoves | msrp/vtss_msrp.c:390-922 | a transmission is one message owed less |
| MrpSending.LeaveAllsMove | msrp/vtss_msrp.c:390-922 | the same with a LeaveAll, with and without room |
| MrpSending.StepMoves | msrp/vtss_msrp.c:2737-2826 | the exceptions of the notes, and that a state moves as its table says otherwise |
| MrpSending.RegistersExactly | msrp/vtss_msrp.c:2697-2735 | every registrar step, with its indication |
| MrpSending.LeaveFollows | msrp/vtss_msrp.c:2683-2827 | a declaration withdrawn out of VN, AN, AA or QA is followed by a Leave at the next transmission, unless a new request or a LeaveAll intervenes; with the compiled table out of AN, AA or QA |
| MrpSending.SentTwice | msrp/vtss_msrp.c:2683-2827 | an unanswered declaration is sent exactly twice, and a new one that is not registered once more as a Join |
| MrpMachine.ColumnsMeet | msrp/vtss_msrp.h:135-162 | the k-th event meets the k-th column of the compiled table; the VN row lacks one |
| MrpMachine.TableDeclares | msrp/vtss_msrp.c:390-922 | every entry of the applicant table follows the local requests and nothing else |
| MrpMachine.DeclaresAsRequested | msrp/vtss_msrp.c:2737-2826 | over every event sequence the applicant declares exactly if the last local request was New or Join |
| MrpMachine.CompiledDeclares | msrp/vtss_msrp.c:57-260 | a step with the compiled table follows the requests exactly unless Join or Lv comes in VN |
| MrpMachine.CompiledWithdraws | msrp/vtss_msrp.c:95-111 | New and then Join withdraw the declaration there |
| MrpMachine.IndicationsBalance | msrp/vtss_msrp.c:2697-2735 | announcements equal withdrawals plus FLUSHes in IN plus the present registration, in every run |
| MrpMachine.NothingLost | msrp/vtss_msrp.c:927-1120 | without FLUSH nothing is lost, so the indications balance |
| MrpMachine.EndsAtFourthTimer | msrp/vtss_msrp.c:927-1120 | after a leave in IN the registration ends at exactly the fourth leave timer, with one Leave, whatever leaves come between |
| MrpMachine.RenewalReturns | msrp/vtss_msrp.c:927-1120 | a renewal brings it back to IN with no indication but New |
| MrpReservations.Reservations.Find | msrp/vtss_msrp.c:1730-1746 | the first record with the key, or none if the key is absent |
| MrpReservations.Reservations.GetFree | msrp/vtss_msrp.c:1638-1652 | the first free record, zeroed and taken, all others unchanged |
| MrpReservations.Reservations.Make | msrp/vtss_msrp.c:1655-1727 | the record of a new reservation by attribute type |
| MrpReservations.Reservations.JoinIndication | msrp/vtss_msrp.c:1750-1829 | the key is in the set afterwards, once; what a new record holds; every other record is unchanged; the error and domain cases |
| MrpReservations.Reservations.LeaveIndication | msrp/vtss_msrp.c:1833-1883 | exactly the looked-up key leaves the set |
| MrpReservations.LeaveIsIntended | msrp/vtss_msrp.c:1859-1871 | the leave takes back its join exactly for talkers and for listeners with value 2 |
| MrpReservations.ListenerEndsTalker | msrp/vtss_msrp.c:1859-1871 | a listener leaving with value 0 ends the talker's reservation |
| MrpReservations.HistoryIntended | msrp/vtss_msrp.c:1750-1883 | every history in which listeners leave as Ready does what it is meant to |
| MrpReservations.Follow | msrp/vtss_msrp.c:1750-1883 | the table after any history within its capacity, and that it is then as intended |
| MrpPacking.EncodeThreePacked | msrp/vtss_msrp.c:2454-2460 | the digit loop adds the event times a power of 6 |
| MrpPacking.EncodeFourPacked | msrp/vtss_msrp.c:2254-2260 | the digit loop adds the event times a power of 4 |
| MrpPacking.DecodeThreePacked | msrp/vtss_msrp.c:2844-2850 | the division loop reads one base-6 digit |
| MrpPacking.DecodeFourPacked | msrp/vtss_msrp.c:2835-2841 | the division loop reads one base-4 digit |
| MrpPacking.ThreeAppends | msrp/vtss_msrp.c:2462-2490 | appending events one by one builds ceil(k/3) bytes and no digit carries |
| MrpPacking.FourAppends | msrp/vtss_msrp.c:2263-2292 | the same with ceil(k/4) bytes |
| MrpPacking.ThreeDecodes | msrp/vtss_msrp.c:2917-2921 | reading index i gives the i-th three-packed event |
| MrpPacking.FourDecodes | msrp/vtss_msrp.c:2923-2925 | reading index i gives the i-th four-packed event |
| MrpLayout.ThreeEncoded | msrp/vtss_msrp.c:2462-2490 | the in-place insertion pushes the event onto the message's vector, patches its list length and only shifts everything else |
| MrpLayout.FourEncoded | msrp/vtss_msrp.c:2263-2292 | the same for the four-packed vector behind it |
| MrpPdu.Participant.MoveMemory | msrp/vtss_msrp.c:2434-2451 | both copy directions move the block, overlapping or not |
| MrpPdu.Participant.CreateEmptyMsg | msrp/vtss_msrp.c:2194-2215 | an empty message is appended with correct lengths |
| MrpPdu.Participant.EncodeThreePackedEvent | msrp/vtss_msrp.c:2462-2490 | the buffer after the encoder, byte for byte |
| MrpPdu.Participant.EncodeFourPackedEvent | msrp/vtss_msrp.c:2263-2292 | the buffer after the encoder, byte for byte |
| MrpPdu.Participant.Merge | msrp/vtss_msrp.c:2573-2590 | a message takes an event exactly if its type fits and it is empty or passes the check, and is extended by it |
| MrpPdu.SentLength | msrp/vtss_msrp.c:2624-2646 | the room a call takes, byte for byte, and that it is at most 34 bytes |
| MrpPdu.Participant.FullExactly | msrp/vtss_msrp.c:3085-3097 | the PDU is full exactly if some call would overrun the buffer |
| MrpPdu.Participant.DoTx | msrp/vtss_msrp.c:2624-2646 | whenever the result fits the buffer, the event goes into the first message that takes it or into a new one, all others stay; the PDU stays well-formed exactly below 255 values |
| MrpPdu.SentWellFormed | msrp/vtss_msrp.c:2624-2646 | that condition on the messages |
| MrpPdu.CountIsRight | msrp/vtss_msrp.c:2562 | the count octet tells the number of values exactly up to 255 |
| MrpPdu.WireHeader | msrp/vtss_msrp.c:2194-2215 | type, lengths, count, first value and end mark of a message, octet by octet |
| MrpPdu.WireEvents | msrp/vtss_msrp.c:2462-2490 | the octet and digit of every event, three to an octet and behind them four |
| MrpReceive.Receive | msrp/vtss_msrp.c:2855-2995 | the nested loops visit what the walk function says, for every frame, malformed ones included |
| MrpReceive.MessageVisited | msrp/vtss_msrp.c:2881-2991 | the walk over an encoded message visits its values and stops behind its end mark |
| MrpReceive.ReceivesSent | msrp/vtss_msrp.c:2881-2991 | the walk over a PDU visits exactly its messages and values in order |
| MrpReceive.WrappedUnseen | msrp/vtss_msrp.c:2894-2901 | of a message whose count wrapped the receiver sees nothing |
| MrpReceive.LeaveAllVisited | msrp/vtss_msrp.c:2897-2914 | a vector with LeaveAll bits is a LeaveAll of its type first, and then its values as without them |
| MrpReceive.UnknownEnds | msrp/vtss_msrp.c:2886-2888 | a message of an unknown type ends the reception |
| MrpReceive.OverrunEnds | msrp/vtss_msrp.c:2906-2908 | so does one whose values the frame does not hold |
| MrpReceive.ReceivesCut | msrp/vtss_msrp.c:2881-2991 | a frame cut anywhere is received up to the cut: exactly the messages whose values lie in it |
| MrpDelivery.OneMoreVisit | msrp/vtss_msrp.c:2624-2646 | a call of doTx is exactly one visit more, of its attribute and event and Ready for a listener, last in the first message that takes it or last of all with its own first value; all others stay |
| MrpDelivery.SeriesVisited | msrp/vtss_msrp.c:2624-2646 | over a series: no LeaveAll, the multiset of attributes and events visited is that of the calls, and every visit is explained by one call, with the first value of the call that opened the message |
| MrpDelivery.RunWellFormed | msrp/vtss_msrp.c:2624-2646 | every series of calls that meets no full count leaves well-formed messages |
| MrpDelivery.EveryEventSent | msrp/vtss_msrp.c:2624-2646 | every call adds exactly one value |
| MrpTransmit.SizeBetween | msrp/vtss_msrp.c:2624-2646 | the PDU never shrinks and grows by at most 34 bytes a call |
| MrpTransmit.AlwaysFits | msrp/vtss_msrp.c:3195-3217 | every series of n calls fits the buffer if and only if n <= 44, and its frame if and only if n <= 43 |
| MrpTransmit.CountsFit | msrp/vtss_msrp.c:2562 | no count is full within 255 calls |
| MrpTransmit.SendSeries | msrp/vtss_msrp.c:3150-3166 | the calls of one event, on the buffer: it holds exactly the messages of the series |
| MrpTransmit.ExSend | msrp/vtss_msrp.c:3182-3222 | the frame with its padding and four last octets, and the empty buffer after it |
| MrpTransmit.PaddedExactly | msrp/vtss_msrp.c:3195-3217 | zeros behind the PDU, four and up to 64 octets at least, and then four times 0x55 |
| MrpTransmit.Transmit | msrp/vtss_msrp.c:3225-3245 | from an empty buffer through a series of calls to the frame, if there were any |
| MrpTransmit.RoundTrip | msrp/vtss_msrp.c:3195-3222 | that frame is received as it was sent, with or without padding and last octets |
| MrpTransmit.EndToEnd | msrp/vtss_msrp.c:2624-2646 | from a series of doTx calls to the receiver: one visit for every call, with its attribute and event, in the order of the messages |
| MrpTransmit.Opportunity | msrp/vtss_msrp.c:3150-3166 | every series of at most 43 calls fits its counts, buffer and frame |
| MrpTransmit.TransmitAndReceive | msrp/vtss_msrp.c:3225-3245 | the same on the buffer and through the receiver's loops |

## Left out

- Hardware, operating system, tracing, configuration and frame headers; the clock's byte layout.
- Sync, follow-up and pdelay frame contents; the pdelay machine sees frames as match results of identity and sequence.
- `rtc_update_servo`, `LinkDelaySyncIntervalSetting_StateMachine` and the bitwise helpers other than `Uint64Or`.
- `transmit_pdelay_request` stores the time stamp under a leftover loop index; the model stores it at the sending port.
- The three enabling flags of a port appear only in conjunction and are one flag; in the network a port may become enabled at any time, but is not disabled again.
- Receipt timeouts happen in `BestMaster`, `AnnounceInfo`, `AnnounceRuns` and `GptpBridge`, not in the network, whose steps assume them not to expire.
- `recordOtherAnnounceInfo`, the publication of time properties beyond their presence, and the sequence numbers of announces.
- The path trace is a list of any length; its limit of entries and the byte order in which the receiver reads its length are not modelled.
- Timestamps.Timestamp.Sum: a result aliased with an argument is not modelled, because the program passes none.
- PdelayMeasurement.Measurement.ComputePdelayRateRatio: says nothing about the ratio for R > 2Q or for an interval between -1 s and 0, where the code has no meaningful result, nor for stamps whose nanoseconds differ by two seconds and more.
- PdelayMeasurement.Measurement.ComputePropTime: states the delay for exchanges that run forward on each clock for less than 2^31 s, between stamps whose nanoseconds differ by less than two seconds.
- RtcIncrement.RtcClock.SetRtcIncrement: fractions of more than 27 bits, which the callers mask, are not modelled.
- Spreading.Converges: rounds are synchronous; within a round the order is free. Every bridge has a port, and hop distances count links enabled at both ends.
- The registrar table as compiled by position, the leave-all and periodic machines, timers of a participant and the propagation of joins and leaves between ports.
- MrpReservations.Reservations.GetFree: requires a free record, since the source falls off its end without a result when the table is full.
- The contents of first values and the merge tests of talkers and listeners: first values are opaque bytes and the test an arbitrary predicate of the count and the first value.
- Talker-failed messages are never merged, so `MrpPdu.Participant.DoTx` excludes them; the leave-all field of a sent vector is always zero.
- MrpPdu.Participant.DoTx: requires that the PDU with the new value fits the buffer, since the source would write behind it; the return value, which the source leaves undefined, is an input of `MrpMachine`.
- The 24 machines of a participant themselves: a transmission opportunity is the series of calls they make.
- MrpReceive.Receive: stream lookup, attribute allocation and the mapping of received codes to events; a visit is what is handed to them. The frame is followed by at least one byte that may be read.
