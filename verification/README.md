# QueryLog: a verified model

QueryLog polls laboratory instruments from a script of records. A record has a device, a message to send, a flag to
read the reply, a schedule (first time, last time, period, number of messages, or service requests), and counters.
This project models what happens around the devices and proves what it promises over whole runs.

| file | models |
|---|---|
| `Schedule.dfy` | the schedule of one record as a state machine over polls, and runs of it |
| `Query.dfy` | the class `query`: its setters, `thisRecord`, `finished`, and the turn of a record with its counters |
| `Driver.dfy` | the main loop: service requests, the polling pass, the continuation test, whole runs, termination |
| `Traffic.dfy` | turns of records as events on the wires of their handles, and passes of them |
| `Devices.dfy` | opening a shared device once and closing it once |
| `Program.dfy` | a whole run: opening the devices, the main loop, closing them |
| `Serial.dfy` | the serial port: peeking, reading up to the terminator or the deadline, writing |
| `Conservation.dfy` | every interleaving of what records do with a handle that they share |
| `Script.dfy` | the in-place tokenizer of script lines |
| `Message.dfy` | the message decoder and the checksum field that it appends |
| `Nmea.dfy` | the checksum (NMEA 0183) and its checker |
| `TimeStamp.dfy` | durations and times of day |
| `Regression.dfy` | `calc` of `stats`: mean, deviation, least squares line, correlation |
| `Blocks.dfy` | the reading loop of `stats`: bytes into lines, lines into blocks, blocks into summaries |
| `Windows.dfy` | the key table and the windowed statistics of `QueryRead` |
| `Basics.dfy` | shared value types |

Code that changes state is imperative here too: classes with the source's fields, arrays that are written in place,
loops with invariants. Each method is tied to a function on values, and the theorems are about these functions. The
outside is a parameter: clock samples, arriving bytes, the answers to service requests, the handles that the system
gives, `sqrt`, `strftime`, and what the C library finds in a line of a log.

Results that differ from what one would expect of the code, each with its exact condition:

- The main loop ends whatever the devices answer if and only if every record has a last time, or a number other than
  -1, which must not be positive if the record waits for service requests (`Driver.AlwaysEndsIff`). A number below -1
  never keeps the loop going although it limits nothing.
- A service request makes a record act after its last time (`Schedule.FiresAfterLastIff`).
- A time of day is reached exactly if and only if no given field gets a carry: mm:ss if the seconds do not have to
  carry, hh:mm:ss if neither minutes nor seconds do (`TimeStamp.MeetsRequestIff`). A carry is made after the field it
  goes to was set; 0:0 asked for one second after midnight arrives at minute 1 (`TimeStamp.CarryMisses`).
- An unclosed last parameter with escapes keeps a stale tail (`Script.ReturnedIsUnescapedIff`, with an input in
  `Script.StaleTail`).
- `\x` consumes one digit: it is the byte of its digits, in front of what follows them, if and only if no second digit
  follows (`Message.HexEscape`; `\x41` is two characters, `Message.HexTwoDigits`).
- `\j` reads a whole number and consumes one digit: `\j12` is argument 12, in front of a 2 (`Message.ArgumentTwoDigits`).
- One damaged character of an accepted sentence is reported as an error except in these cases: a star, or a NUL more
  than four places behind the dollar sign, where what stands behind spells the checksum of what stands before; and a
  NUL nearer to the dollar sign, which leaves no checksum to check (`Nmea.DamageJudged`; sentences that fail are in
  `Nmea.DamageGoesUnnoticed`).
- The verdict depends on the text alone if and only if the text has a star or is too short to be checked
  (`Nmea.TextDecidesIff`); otherwise bytes behind its terminator decide (`Nmea.StaleBytesDecide`, with an input in
  `Nmea.BytesBehindDecide`).
- A read ends by the terminator exactly when it delivers it, whatever arrives, if and only if no peeked byte is the
  terminator (`Serial.EndsAsDeliveredIff`). So a record that does not send counts a timeout for a terminator that
  arrives alone, although it delivers it (`Query.LoneTerminatorTimesOut`).

Where comments or the manual differ from the code, the code is modelled: `getParameter` skips blanks and tabs but no
commas, a time may have a fourth field for days, and `NmeaCheck` answers 1 for a wrong checksum, 0 for a right one.

## Model

| member | source | states |
|---|---|---|
| Schedule.SlotsCounts | src/query.cpp:154 | the slot counter counts exactly the slots anchor + k * period that lie before the clock sample, by the strict comparison of the code |
| Schedule.DriftFree | src/query.cpp:178-204 | over every run, the next slot is the anchor plus firings times period and the number has gone down by the firings: lateness never shifts the grid |
| Schedule.FiringStep | src/query.cpp:154-204 | one more poll fires exactly when a slot has passed unused, the number is not used up and `last` has not passed |
| Schedule.NeverEarly | src/query.cpp:154-160 | no run has more firings than slots that have passed |
| Schedule.RefinesSlotCounter | src/query.cpp:136-204 | the firing count follows f' = min(f + 1, slots, N), so the state machine refines a saturating slot counter |
| Schedule.ClosedForm | src/query.cpp:136-204 | the firings of a run are the minimum of its length, the `-n` limit, and over all polls the slots passed by then plus the polls that follow |
| Schedule.CaughtUp | src/query.cpp:136-204 | read off the closed form: a run has caught up with the grid if and only if no poll's allowance falls short of what is due |
| Schedule.FiresUntilCaughtUp | src/query.cpp:136-204 | while polls come at most a period apart, each of them fires until the run has caught up, and from then on it stays caught up |
| Schedule.CatchesUp | src/query.cpp:136-204 | as many such polls as firings are missing are enough |
| Schedule.CatchesUpWithin | src/query.cpp:136-204 | polls less than a period apart catch up fully, within a number of polls that follows from backlog, period and gap alone |
| Schedule.AnswersRequests | src/query.cpp:156-189 | a record that waits for service requests acts once for each poll with a request, up to its limit, and at no other time |
| Schedule.FiresAtEveryPoll | src/query.cpp:154-204 | a record without a period fires at every poll after its slot and up to `last`, up to its limit |
| Schedule.BacklogNeverGrows | src/query.cpp:191-204 | polls at most a period apart never fall further behind |
| Schedule.RunsCompose | src/query.cpp:136-204 | a run continues from the state that the run before it left, and the firings add up |
| Schedule.StaysOnGrid | src/query.cpp:141-204 | after a run of a fresh record with a period, the next slot is its first time, or without one the clock sample that armed it, plus firings times period |
| Schedule.MovesOn | src/query.cpp:191-204 | a firing adds the period to the slot, or to the clock sample if there is no slot yet, modulo 2^64 |
| Schedule.WaitsForFirst | src/query.cpp:141-153 | nothing happens until the clock has passed `first` |
| Schedule.NothingAfterLast | src/query.cpp:162-168 | without a request nothing fires after `last` |
| Schedule.FiresAfterLastIff | src/query.cpp:162-189 | after `last` a record acts if and only if a request asks for it and its number is not used up; a concrete record does |
| Schedule.WholeRun | src/query.cpp:136-204 | the messages of a run from the fresh record on: the closed form over the polls between the arming one and `last` |
| Schedule.WholeRunCatchesUp | src/query.cpp:136-204 | full catch-up over a run from the fresh record on: all that is due by `last` has been sent |
| Schedule.WholeRunWithoutPeriod | src/query.cpp:136-204 | the messages of a run of a fresh record without a period |
| Schedule.BudgetFalls | src/query.cpp:56-204 | a poll under a rising clock takes at least one from an explicit budget of polls and keeps the record a stopping one |
| Schedule.BudgetSpent | src/query.cpp:56-78 | the budget is spent exactly when `finished` no longer asks the loop to go on |
| Schedule.BudgetRuns | src/query.cpp:56-204 | over a strictly rising clock the budget falls with every poll of a run |
| Schedule.NeverStops | src/query.cpp:56-78 | the other configurations ask to go on after every run in which no request uses up their number |
| Query.Query.constructor | src/query.cpp:15-39 | a new record is unarmed, without limit, period, counts or request, and its counters agree |
| Query.Query.SetPeriod | src/query.cpp:41-44 | the period is the duration that the text spells |
| Query.Query.SetFirstTime | src/query.cpp:46-49 | the first time is the text read from the current time on |
| Query.Query.SetLastTime | src/query.cpp:51-54 | the last time likewise |
| Query.Query.SetNumber | src/main.cpp:249 | the number of `-n` as an `int`; the counters agree with it |
| Query.Query.Finished | src/query.cpp:56-78 | the record wants to go on exactly as the schedule says |
| Query.Query.Decide | src/query.cpp:136-204 | the branches of the code on the fields are one step of the schedule |
| Query.Query.ThisRecord | src/query.cpp:136-233 | on the fields: a firing sends if `send` is set, clears if `sendClear` is, and reads if `receiveWait` is and it sends or something is unread; the schedule steps; only a record that does not send peeks, and the byte it takes is held for the read that follows |
| Query.Query.Transmit | src/main.cpp:941-969 | the message, expanded by `strftime` if it has a percent sign, is written, what was unread is discarded, and one more is sent |
| Query.Query.Tally | src/main.cpp:976-1002 | on the fields: received counts the replies that are not empty as C strings, timeouts those without terminator, checked and errors the verdicts of the checker on the buffer |
| Query.Query.Receive | src/main.cpp:971-1002 | the buffer holds the reply as a C string, its outcome joins the history, and the counters follow; nothing stays held |
| Query.Query.Act | src/main.cpp:927-1002 | what the bits ask for: the break of a clear, written bytes, counters and history, and what stays unread, where a reply follows the discarding by the message |
| Query.EndsUnlessPeeked | src/serialPort.cpp:220-272 | the read of a turn ends by the terminator exactly when it delivers it, if and only if it was not peeked or another one follows |
| Query.LoneTerminatorTimesOut | src/serialPort.cpp:220-272 | a terminator that arrives alone for a record that does not send is delivered without ending the read |
| Query.Query.Choose | src/query.cpp:136-233 | `thisRecord` leaves the peeked byte and the queue such that the reply of the turn is fixed |
| Query.Query.Perform | src/main.cpp:919-1014 | a whole turn, if its reply fits into the buffer: the schedule steps, the action follows from it, and break, written bytes, counters, history and unread bytes follow from the action, the peeked byte coming first in the reply; the timeout count tells whether the terminator was delivered exactly if it was not peeked or another one follows |
| Query.Query.Turn | src/main.cpp:919-1014 | on the fields: a firing sends once if `send` is set, sends one break if `sendClear` is, and reads once if `receiveWait` is and it sends or something is unread, else never; what was read joins the history; the counters still agree, and no byte of the device is held back |
| Query.TurnTakesInOrder | src/main.cpp:919-1014 | a turn takes bytes from the front of what waits and arrives and leaves the others in order; a message that is sent discards what waited, so none of it is taken for the reply |
| Query.TurnAgrees | src/main.cpp:919-1014 | a turn keeps the counters those of the reads in the history, sent and breaks equal to the firings or 0 by the flags, reads equal to the firings of a record that sends and receives and 0 of one that does not receive, and firings + number equal to the `-n` limit |
| Query.ReceivedCount | src/main.cpp:976-981 | received is the number of reads in the history that were not empty as C strings |
| Query.TimeoutCount | src/main.cpp:997-1001 | timeouts is the number of reads that ended without terminator |
| Query.CheckedCount | src/main.cpp:983-989 | checked is the number of replies with a verdict |
| Query.ErrorCount | src/main.cpp:990-994 | sumErrors is the number of replies with a bad one |
| Query.CountedBy | src/main.cpp:976-1002 | errors <= checked <= received <= reads, and timeouts <= reads |
| Query.ConsistentAccounts | src/main.cpp:919-1014 | all of this on the fields of a record, between any two turns |
| Driver.ClearRequests | src/main.cpp:857-862 | no record has a request |
| Driver.Broadcast | src/main.cpp:873-882 | the request goes to all waiting records on the device, and to no other |
| Driver.Ask | src/main.cpp:864-885 | the turn of one record: it is asked exactly when no record of its device has answered, and the requests follow the answers so far |
| Driver.ServiceRequests | src/main.cpp:857-885 | on the fields: a record ends with a request exactly when it waits for one and a waiting record of its device answers; the asked records are exactly the waiting ones for which no waiting record of their device before them answered, in order |
| Driver.OneAnswerPerDevice | src/main.cpp:867-882 | of two records of one device that are both asked, the first did not answer: no device is asked again after its answer |
| Driver.GroupAgrees | src/main.cpp:864-885 | all waiting records of a device agree, and they have the request exactly when one that was asked answered |
| Driver.OneTurn | src/main.cpp:919-1014 | a turn steps its record and disturbs no other, though handles may be shared; the bytes on the handle follow |
| Driver.Pass | src/main.cpp:918-1014 | a pass steps every record once with the same clock sample, and on every handle happens what the turns of its records do, one after the other |
| Driver.WantsMore | src/main.cpp:1016-1024 | the test finds out whether any record wants to go on |
| Driver.RequestPhase | src/main.cpp:857-885 | the phase changes the requests of the records, and nothing else of them or of their handles |
| Driver.Iterate | src/main.cpp:855-1025 | one iteration is requests, pass and test, on all records and their handles |
| Driver.MainLoop | src/main.cpp:855-1025 | if every reply fits into the read buffer by itself: the loop takes every record through its own polls, goes on exactly as long as some record wants to, and leaves on every handle what its log of events says, with all bytes conserved; every record has read what was delivered to it and no byte is held; sent, breaks, reads and all counters of every record are exactly those of its firings, flags and reads |
| Driver.LoopConserves | src/main.cpp:855-1025 | after any number of rounds, on every handle the arrived bytes are, in order, those with a fate and the unread ones, and each record got its share in order |
| Traffic.TurnOnWire | src/main.cpp:919-1014 | the events of a turn leave on the wire what the record leaves unread, deliver the reply to it alone, and leave nothing held |
| Traffic.RunsTurn | src/main.cpp:919-1014 | a turn is this stretch of events: the bytes before it, the peek, the break, the message, the read |
| Traffic.ServedLines | src/main.cpp:919-1014 | a turn changes what waits, what was delivered and written, and the number of breaks on its own handle, and nothing on the others |
| Traffic.LinesConserve | src/serialPort.cpp:220-391 | at every moment every handle conserves its bytes |
| Program.OpenedOnLines | src/main.cpp:826-848 | what the opening gives is what the main loop starts from: records share a handle exactly when they name the same device |
| Program.OpenDevices | src/main.cpp:826-848 | opening the devices leaves the records as they were |
| Program.CloseDevices | src/main.cpp:655-671 | the handles that are closed are those the system gave, one for each device |
| Program.RunProgram | src/main.cpp:826-1025 | a whole run, from the devices being opened through the main loop until each of them is closed once, with what the main loop promises |
| Driver.StateStep | src/main.cpp:855-1025 | a pass over all records extends the run of each record by one poll |
| Driver.LoopBound | src/main.cpp:855-1025 | an explicit bound on the passes that covers every record |
| Driver.EndsByBound | src/main.cpp:1016-1025 | once the bound is reached no record wants to go on |
| Driver.EndsInTime | src/main.cpp:855-1025 | a run of the loop over stopping records ends within the bound |
| Driver.GoesOnForEver | src/main.cpp:1016-1025 | any other record keeps the loop going: without a limit always, with one while its device does not answer |
| Driver.AlwaysEndsIff | src/main.cpp:855-1025 | the loop ends whatever the devices answer if and only if every record has a last time, or a number other than -1 which is not positive if it waits for service requests |
| Driver.AllMessagesOfRun | src/main.cpp:855-1025 | if passes come less than a period apart for long enough, a run of the loop has sent everything that is due |
| Driver.AnswersOfRun | src/main.cpp:855-1025 | a record that waits for service requests acts once for each pass in which its device answers, up to its limit |
| Driver.MessagesWithoutPeriod | src/main.cpp:855-1025 | a record without a period acts in every pass after the arming one, up to `last` and its limit |
| Driver.MessagesOfRun | src/main.cpp:855-1025 | how often a timed record acted in a run of the loop: the closed form over the passes between its arming and its `last` |
| Devices.FirstsOncePerDevice | src/main.cpp:828-848 | every device has exactly one of the first occurrences, each listed once and in order |
| Serial.SerialPort.PortOpen | src/serialPort.cpp:40-190 | the record gets the handle that the system gives and points to itself, or to nothing on failure |
| Serial.SerialPort.ReOpen | src/serialPort.cpp:192-204 | the record takes over object and handle of an open one |
| Devices.OpenOne | src/main.cpp:828-847 | one record joins the first record of its device, or opens the port if it is the first |
| Devices.OpenPorts | src/main.cpp:826-848 | ports are opened exactly for the first record of each device, and all records share object and handle with it; a failure ends it at the failing record |
| Devices.ClosePorts | src/main.cpp:655-671 | ports are closed exactly for the first record of each device |
| Devices.OpenAndClose | src/main.cpp:655-848 | what is closed is what was opened: the same records in order, with the handles they got |
| Serial.StreamKeepsOrder | src/serialPort.cpp:250-268 | what a read takes and what it leaves is, in order, what was unread and what arrived |
| Serial.Signed | src/serialPort.cpp:261 | a `char` compared with an `int` is the number in -128..127 with the same low byte |
| Serial.ReadsUntilDeadline | src/serialPort.cpp:250-268 | every turn begins before the deadline, and without terminator the loop goes on until the deadline has passed |
| Serial.TakesWhatIsThere | src/serialPort.cpp:250-268 | each turn takes a byte if one is there: how many are taken is the least of the turns and, over all turns, the bytes that are there by then plus the turns that follow |
| Serial.EndsIff | src/serialPort.cpp:250-268 | the loop ends by the terminator if and only if it is among the bytes that the loop itself took, and then it is the last of them |
| Serial.EndsAsDeliveredIff | src/serialPort.cpp:243-268 | whatever arrives, a read ends by the terminator exactly when it delivers it, if and only if no held byte is the terminator; an idle device shows the failure |
| Serial.SerialPort.DataAvailable | src/serialPort.cpp:366-391 | a peek moves the first unread byte, if any, behind the held ones |
| Serial.SerialPort.Clear | src/serialPort.cpp:341-354 | a clear sends a break and touches no byte |
| Serial.SerialPort.PortWrite | src/serialPort.cpp:274-329 | a write discards what is unread, unless it is empty, and sends its bytes |
| Serial.SerialPort.Drain | src/serialPort.cpp:243-248 | the held bytes go to the front of the buffer and none stays held |
| Serial.SerialPort.Receive | src/serialPort.cpp:250-271 | the loop over the live stream appends what the stream function takes and terminates the buffer |
| Serial.SerialPort.PortRead | src/serialPort.cpp:220-272 | if they fit with a NUL: the buffer holds the held bytes, then those taken, then a NUL; the answer is the length, or -1 without terminator in what was taken; it is true of what was delivered if and only if no terminator was held or one was taken |
| Conservation.ExecConserves | src/serialPort.cpp:220-391 | every event on a shared handle keeps: the arrived bytes are, in order, those with a fate and the unread ones, and each record got and holds its share in order |
| Conservation.RunConserves | src/serialPort.cpp:220-391 | so does every interleaving of peeks, reads, writes and arrivals |
| Conservation.NothingMissing | src/serialPort.cpp:220-391 | each arrived byte is unread, flushed by a write, or with the record it was taken for |
| Conservation.OnlyWritesFlush | src/serialPort.cpp:274-329 | in a run without writes no byte disappears |
| Conservation.SoleReaderGetsAll | src/serialPort.cpp:220-391 | a record alone on its handle that sends nothing gets all arriving bytes in order |
| Conservation.Do | src/serialPort.cpp:220-391 | the port objects do what the event does to the wire, and a read puts what it delivers into the buffer |
| Conservation.Replay | src/serialPort.cpp:220-391 | the port objects follow the wire over every run, so their bytes are conserved |
| Script.Tokenizer.Shuffle | src/common.cpp:40-73 | the write cursor never passes the read cursor: what is unread is untouched, and the unescaped parameter stands behind its start |
| Script.Tokenizer.GetParameter | src/common.cpp:15-90 | the call returns the parameter as the pure scan has it, and the rest of the line is as it was |
| Script.Tokenizer.ReadParameters | src/main.cpp:462-482 | repeated calls fill the parameter rows with the parameters of the line as the pure scan has them, and leave the other rows empty |
| Script.LineRoundTrip | src/common.cpp:15-90 | every list of non-empty parameters comes back, each written as it is, with escapes, or with escapes between quotes, with any blanks around it, as long as a space follows one without quotes; an empty parameter ends the list |
| Script.PlainRoundTrip | src/common.cpp:15-90 | parameters without space and backslash that start with neither tab nor quote come back from a line that has a space between two |
| Script.LineIsText | src/common.cpp:40-73 | such a line is a C string when the parameters are |
| Script.ReturnedIsUnescapedIff | src/common.cpp:75-87 | a parameter is returned as its unescaped text if and only if its delimiter follows or it has no escape |
| Script.StaleTail | src/common.cpp:75-87 | a line whose parameter is returned with a stale letter |
| Message.DecodeInto | src/main.cpp:514-573 | the loop fills the message with the decoded parameter and counts its length; the row needs a second NUL only if the text ends in a cut escape |
| Message.PutEscape | src/main.cpp:521-566 | the branches of an escape write its character and step over it |
| Message.PutArgument | src/main.cpp:541-561 | an escape `\j` copies the argument that it names |
| Message.SumField | src/main.cpp:586-600 | the signed sum loop gives the 8-bit checksum of the standard, or the byte sum of the other mode |
| Message.AppendField | src/main.cpp:577-621 | the field is appended as specified, the message terminated and its length kept, whenever the result fits |
| Message.SetMessage | src/main.cpp:508-622 | from the parameter to the message with its field |
| Message.DecodeUndoesEscape | src/main.cpp:516-573 | decoding undoes an escaping of any characters, CR and LF by their letters, in front of any other text |
| Message.DecodesToMessage | src/main.cpp:514-573 | the same for a whole parameter, which starts with a dash only if the message does |
| Message.ArgumentEscape | src/main.cpp:541-561 | `\j` with one digit copies the argument of that number, without a digit the first |
| Message.ArgumentTwoDigits | src/main.cpp:541-561 | with two digits it copies the argument of both, and the second stays in the message |
| Message.ScriptToMessage | src/main.cpp:469-573 | a message that is escaped for the decoder, in a word of any form on a script line, is decoded to itself, with its length, whatever the other words are |
| Message.SentenceAccepted | src/main.cpp:577-611 | a completed sentence without star and NUL is accepted by the checker if it has a dollar sign, and has no checksum for it otherwise |
| Message.SentenceEnds | src/main.cpp:577-621 | behind a message with a dollar sign stand a star, two upper-case digits of the checksum, CR and LF, or for `-mx` the byte sum, CR and LF |
| Message.SentencePlain | src/main.cpp:577-583 | without the option, or without a dollar sign before the first NUL, nothing is added |
| Message.ByteSumAdds | src/main.cpp:592-600 | the byte sum of two stretches is that of their sums modulo 256, and of a byte the byte |
| Message.ExpandsIff | src/main.cpp:944-958 | a message is expanded by `strftime` if and only if it has a percent sign before its first NUL |
| Message.ScriptToVerdict | src/main.cpp:469-959 | from the script line over the wire to the checker: the sentence of an NMEA message is sent unexpanded and accepted |
| Message.HexEscape | src/main.cpp:533-540 | `\x` consumes one digit; it decodes to the byte of its digits and what follows them if and only if no second digit follows |
| Message.HexWithoutDigit | src/main.cpp:533-540 | without a digit `\x` puts a NUL into the message, and still consumes the character behind it |
| Message.HexTwoDigits | src/main.cpp:533-540 | `\x41` decodes to two characters |
| Nmea.XorLowBits | src/nmea.cpp:33-35 | masking an exclusive or of words is the exclusive or of the masked words |
| Nmea.XorBits | src/nmea.cpp:33 | a bit of an exclusive or is set exactly if the bits of the operands differ |
| Nmea.SumStep | src/nmea.cpp:31-35 | the sign-extended sum of the checker agrees in its low byte with the 8-bit checksum |
| Nmea.HexRoundTrip | src/nmea.cpp:36 | "%x" reads back what "%02X" printed, whatever other than a digit follows |
| Nmea.HexDigitsAre | src/nmea.cpp:36 | the digits are 0 to 9, A to F, a to f, with their values |
| Nmea.NmeaCheck | src/nmea.cpp:11-44 | the loop on the buffer gives the verdict function's answer, signed arithmetic and unsigned counter included |
| Nmea.NoChecksumIff | src/nmea.cpp:22-25 | -1 exactly if the text starts with a star or has no dollar sign before its last four characters |
| Nmea.FieldDecides | src/nmea.cpp:27-41 | otherwise 0 exactly if the number behind the first star is the exclusive or of all between the first dollar sign and that star; a field without a number stands for the place of the star |
| Nmea.StarBeforeDollar | src/nmea.cpp:27-41 | with a star before the dollar sign, 0 exactly if the field spells 0 |
| Nmea.FieldJudged | src/nmea.cpp:27-41 | a text with a two-digit field is judged -1 without dollar sign, else 0 if and only if the field is the checksum |
| Nmea.DetectsOneError | src/nmea.cpp:27-41 | in any accepted text, any one checksummed character replaced by anything but a star or NUL gives 1 |
| Nmea.StarJudged | src/nmea.cpp:24-41 | in any accepted text, a star in a checksummed place is accepted if and only if what follows it spells the checksum of what precedes it |
| Nmea.NulJudged | src/nmea.cpp:22-41 | a NUL in such a place: no checksum near the dollar sign, else accepted by the same condition |
| Nmea.DamageJudged | src/nmea.cpp:22-41 | the verdict on a buffer with an accepted text and any one damaged character, all cases |
| Nmea.DamageGoesUnnoticed | src/nmea.cpp:22-41 | sentences of any length in which a star, or a NUL, goes unnoticed |
| Nmea.StaleBytesDecide | src/nmea.cpp:24-41 | without a star the number behind the terminator is what is compared |
| Nmea.TextDecidesIff | src/nmea.cpp:22-41 | the verdict depends on the text alone if and only if it has a star or is too short |
| Nmea.BytesBehindDecide | src/nmea.cpp:22-41 | a text that is accepted or not by what stands behind its terminator |
| TimeStamp.Strtok.Next | src/timeStamp.cpp:127-146 | each call gives the next token |
| TimeStamp.TokensOfSpread | src/timeStamp.cpp:127-146 | any spaces and colons separate the tokens, and nothing else does |
| TimeStamp.ReadFields | src/timeStamp.cpp:120-151 | the shifting of the fields gives ss, mm:ss, hh:mm:ss or dd:hh:mm:ss |
| TimeStamp.FourNumbersCount | src/timeStamp.cpp:125-151 | numbers behind the fourth do not count, and no text is the time 0 |
| TimeStamp.TimeRoundTrip | src/timeStamp.cpp:70-116 | a time that is split and put together again loses what is below a millisecond |
| TimeStamp.RollForward | src/timeStamp.cpp:162-182 | the edits of the fields move the start second on by what each field lies ahead |
| TimeStamp.StrToAbsTime | src/timeStamp.cpp:118-186 | nothing, a duration that is added, or a time of day |
| TimeStamp.RollsForward | src/timeStamp.cpp:160-183 | a time of day in range lies at its clock distance from the start second: never before it, and within a day, an hour or a minute by the fields given |
| TimeStamp.ArrivesAt | src/timeStamp.cpp:160-183 | the fields of the time reached, with all carries done |
| TimeStamp.MeetsRequestIff | src/timeStamp.cpp:160-183 | the given fields are met exactly if and only if none of them gets a carry, for ss, mm:ss and hh:mm:ss |
| TimeStamp.CarryMisses | src/timeStamp.cpp:160-183 | a request for minute 0 that arrives at minute 1 |
| TimeStamp.SpelledDuration | src/timeStamp.cpp:127-159 | one to four numbers with a plus sign, or on a start of 0, add exactly their seconds |
| TimeStamp.DurationRoundTrip | src/timeStamp.cpp:127-159 | a printed duration is read back as itself |
| Regression.Mean | src/stats.c:30-36 | the loop computes the mean |
| Regression.TwoPass | src/stats.c:30-50 | the mean of the second pass is the mean of the samples, and the times start at 0 |
| Regression.Accumulate | src/stats.c:54-72 | the loop accumulates the moments of times and distances from the mean |
| Regression.Deviation | src/stats.c:81-87 | the loop adds up the squared distances from the line |
| Regression.Calc | src/stats.c:19-102 | mean, deviation, the line with the least residual of all lines, its deviation, and the correlation, whose square is at most 1 and relates the deviations; no number exactly when a denominator is zero |
| Regression.SpreadPositiveIff | src/stats.c:76 | n * sum of squares - square of the sum is never negative, and positive exactly when not all values are equal |
| Regression.SolvesNormal | src/stats.c:76-77 | slope and intercept of the code solve the normal equations |
| Regression.NormalIsLeast | src/stats.c:76-87 | the residual of every other line is greater |
| Regression.LeastSquares | src/stats.c:30-87 | in the coordinates of the samples, the line of the code has the least residual, and only it has |
| Regression.LineIsUnique | src/stats.c:76-87 | two lines with least residual are the same |
| Regression.LeastResidual | src/stats.c:76-89 | the least residual is the spread of the values less what the line explains |
| Regression.Correlation | src/stats.c:79-89 | Cauchy-Schwarz, av squared = sd squared * (1 - rsq squared), and the sign of the correlation is that of the slope |
| Regression.TwoPassMean | src/stats.c:36-50 | a mean of what a rough mean leaves makes the exact mean |
| Blocks.Stats.EndOfLine | src/stats.c:176-225 | a complete line extends the incomplete block by its sample and hands a full block to `calc` |
| Blocks.Stats.Summarize | src/stats.c:216-220 | a full block goes to `calc` and the next one starts |
| Blocks.Stats.Feed | src/stats.c:174-231 | a chunk extends the input that the state stands for |
| Blocks.ReadAndSummarize | src/stats.c:19-232 | however `read` cuts the input: `calc` is called on full blocks of the lines with key and column, taken in order; entry i of block j has the column of line j * number + i of these and the time of that line, or i if it has none; the i-th summary is that of the i-th block: its mean, deviation, least squares line and correlation |
| Blocks.CallsAreLines | src/stats.c:174-225 | the same of the function that gives the calls: an increasing list of lines, exactly those with key and column, gives all entries, and less than a block is left over |
| Blocks.ReadAll | src/stats.c:168-232 | the loop ends in the state that stands for the whole input |
| Blocks.EndsAtNothing | src/stats.c:168-172 | the input ends where `read` first delivers nothing |
| Blocks.SameState | src/stats.c:168-232 | the input fixes the state: calls, line and incomplete block, with their indices |
| Blocks.ReadTwice | src/stats.c:168-232 | two runs of the program on two fragmentations of one input end with the same calls and the same state |
| Blocks.LinesAreInput | src/stats.c:174-230 | lines and tail are the input, cut at every newline |
| Blocks.GroupsPartition | src/stats.c:210-220 | the blocks are consecutive, disjoint and full, and less than a block is left over |
| Windows.Lookup | src/QueryRead.cpp:283-301 | the loop finds the key, or adds it behind the used ones if fewer than 100 are used; used keys stay a duplicate-free prefix |
| Windows.QueryRead.Store | src/QueryRead.cpp:283-333 | a record is stored, under the place of its key, exactly when its key was there or fewer than 100 keys were used, and then the key is in the table |
| Windows.KeepsFirst | src/QueryRead.cpp:283-333 | over any sequence of records, the table holds the first 100 distinct names, and the records of these are kept |
| Windows.KeepsAllIfFew | src/QueryRead.cpp:283-333 | all records are kept if they have at most 100 distinct names |
| Windows.ReadLine | src/QueryRead.cpp:228-333 | a line of the log keeps the program at the first 100 names of the lines so far and all records of these |
| Windows.ReportOn | src/QueryRead.cpp:336-447 | a report at any line is on all records so far of the first 100 names |
| Windows.ReadLog | src/QueryRead.cpp:215-449 | a report follows exactly the lines that separate; for each of the first 100 names in the log up to there and each parameter it has number, mean and deviation of what the young records of that name say |
| Windows.WindowIsFilterIff | src/QueryRead.cpp:361 | the backward scan visits exactly the young samples if and only if no old one stands behind a young one |
| Windows.SortedIsInOrder | src/QueryRead.cpp:361 | samples in the order of their times are so |
| Windows.QueryRead.Sums | src/QueryRead.cpp:361-381 | the first scan leaves, for every key and parameter, number and sum of the window's values |
| Windows.QueryRead.Distances | src/QueryRead.cpp:397-414 | the second scan leaves their squared distances from the mean |
| Windows.QueryRead.Calculate | src/QueryRead.cpp:346-425 | number, mean and deviation of every key and parameter over the window |
| Windows.QueryRead.Report | src/QueryRead.cpp:340-425 | with records in the order of their times, these are the statistics of the young records of that name |
| Windows.GroupIsValues | src/QueryRead.cpp:283-381 | grouping by place in the table is grouping by name |
| Windows.CountsAddUp | src/QueryRead.cpp:361-381 | the counts of all keys add up to the size of the window |
| Windows.DeviationIsVariance | src/QueryRead.cpp:397-425 | the squared deviation is the mean of the squares less the square of the mean |

## Left out

- Real devices: termios and its settings, the Windows branches, the length of a break, pacing, GPIB, NIDAQ, IP
  and command ports, and the Java programs. A failing read counts as a read without a byte,
  and a write takes all its bytes.
- Service requests of real ports: `portService` is an answer from outside; the serial port itself always answers 0.
- The option parser of `config` and the character reader of script files (which takes the byte 0xFF for the end).
- Output: `cleanPrint`, the log file and its rolling, and printed dates. `strftime` is a parameter.
- Rounding: statistics are over `real`. What is not a number in the code is `None`.
- Overflow of the counters of a record, which are natural numbers here.
- Buffer sizes are preconditions: each reply fits into the read buffer of 10001 bytes, the message into its array, the
  20 rows of 128 bytes for the parameters of a script line, a line of `stats` stays below 2048 bytes, `QueryRead` below
  200000 samples.
- The exit signal: a run of the main loop is given the passes until the signal would end it.
- Driver.MainLoop: every read that the loop gets to finds its deadline on the clock, and its reply fits into the read
  buffer. What arrives in all is not limited.
- Schedule.ClosedForm: needs a clock that stays a period below the wrap of the 64-bit time; so do the other theorems on
  whole runs. The step itself wraps.
- Serial.SerialPort.constructor: the terminator is a parameter, as the source leaves it unset until its option is given.
- TimeStamp.StrToAbsTime: a day has 24 hours, without calendar, time zone or daylight saving, as the C library would
  normalise fields that run over.
- TimeStamp.ReadFields: the sum of days and hours wraps as a 32-bit integer, which C leaves undefined.
- Nmea.NmeaCheck: "%x" reads modulo 2^32, without the saturation of numbers above 64 bits, and a prefix "0x" without a
  digit is no number.
- Message.AppendField: for the byte sum of `-mx` only the writing side, as the checker knows the other sum alone.
- Blocks.ReadAndSummarize: key search, time and column of a line are functions of the line; `tm_isdst` of an earlier line
  does not carry over.
- Windows.QueryRead.Store: time, key and all ten parameters of a record are given, since the statistics count all ten:
  one that cannot be read is what its memory held. The number of parameters read, which limits what is printed, minimum
  and maximum are not modelled.
- Serial.SerialPort.PortOpen: only the handle and the object pointer; the names COM1 to COM4, which Linux maps to device
  files, and the settings of the port are not modelled.
- Windows.ReadLog: a line comes with its time, key and parameters, and with the answer whether a report follows it, which
  the separating key or the end of the input decides; the lines end where the reading loop ends, which an empty line does too.
- Program.RunProgram: differently named devices are different queues, so one device under two names is not covered.
