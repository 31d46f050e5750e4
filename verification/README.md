# Infantry robot firmware: a verified model

The firmware drives a small robot from a web page. A phone joins the robot's access point, a captive
DNS responder sends every name to 192.168.4.1, and the page served there turns joystick positions and
buttons into HTTP requests. Each connection gets its own handler, which cuts the target out of the
request line and posts it to a 30-slot mailbox; one consumer takes records out, picks a branch by five
characters and moves two servos, four wheels and the launcher.

The project models that path and proves what holds of it for all inputs, all interleavings and all
runs. `dafny verify dfyconfig.toml` checks everything.

| file | what it models |
|---|---|
| CStrings.dfy, Decimal.dfy | `strstr`, `strlen`, `%d`, `atoi`, `PrefixZero` |
| DnsMessage.dfy | RFC 1035 messages: labels, header, records, compression pointers, a terminating decoder |
| DnsServer.dfy, DnsReply.dfy, DnsBuffer.dfy | the responder's one reused 128-byte buffer, its filter, its in-place reply, what stays in the buffer over runs |
| Mailbox.dfy | handlers, mailbox and consumer as a transition system with arbitrary interleaving |
| UrlData.dfy, HttpRequest.dfy, HttpResponse.dfy | the in-place cuts of the request line; `my_write` and the Content-Length framing |
| Gimbal.dfy, Chassis.dfy, Fire.dfy, Gpio.dfy | saturating angles and pulses, the eight motor pins, the launcher pins |
| Robot.dfy, RobotRuns.dfy, RecordEffects.dfy | the dispatcher, what holds over whole command runs, and what every record does in pin numbers, degrees and microseconds |
| Page.dfy, EndToEnd.dfy | the joystick page, and the whole path from pixels to pins |

## Main results

- **DNS.** In every run over the never-cleared buffer, a query whose question ends within the 100 bytes
  received, whatever its counts and whatever follows its question, is dropped exactly when one visible label
  spells "taobao", "qq", "sogou", "amap", "alipay", "youku", "iqiyi" or "baidu" (`QueryServed`); otherwise it is
  answered, and the reply reads as the captive answer if and only if the query has one question, fewer than 256
  answers, no authority or additional records and nothing received behind its question (`QueryAnswered`). A
  query with an EDNS record therefore gets a reply that does not read as that answer (`EdnsQueryMisread`).
  While the search stays inside the array, what the server does is independent of stale bytes if and only if
  the packet has a zero byte from offset 12 on or itself contains a blocked word (`DecisionIndependentIff`);
  every other packet is answered over one buffer and dropped over another, and two packets without any blocked
  word can make the second one be dropped (`FirstPacketDropsSecond`). After any run each byte of the buffer is
  what the last pass that reached it wrote (`LastWriter`), and the search stays inside the array in every run
  whatsoever if and only if one of the last twelve bytes of the initial buffer is zero (`SearchInsideIff`).
- **Mailbox.** No send fails over any interleaving exactly when at most 30 handlers are ever between
  reset and send (`CapacityExact`). Every posted command meets exactly one of three fates (`OneFate`). The
  handler that resets last is sure to be delivered if and only if fewer than 30 others are between reset and
  send at that moment (`DeliveredIff`), and sure to be executed last if and only if no other handler is
  (`ExecutedLastIff`). On the robot: a stop, or any cell, is sure to decide the chassis under exactly that
  condition (`CellSureIff`); `StopOvertaken` is a run in which it does not.
- **Codec.** For every pixel pair and any rest of the request the robot reads back the page's cell
  (`JoystickRoundTrip`); the request-line cuts undo the printer under an exact condition
  (`ParseUndoesPrint`), and every other request has its outcome spelled out (`EveryOutcome`, `OutcomeAt`).
  Which bytes reach the client is settled for every sequence of `send` results (`MyWrite`, `Respond`); a client
  reads back exactly the page that was sent (`FramingRoundTrip`), and nothing at all from the reply to any
  other method, however much of it arrives (`BadRequestUnframed`).
- **Robot.** Every record, and every run of records, does exactly what a reference in pin numbers, degrees and
  microseconds says (`EveryRecord`, `EveryRun`), so pixels can be followed to pins (`PixelDrives`,
  `PinsFollowPointer`). A gimbal run is one clamped shift (`RunCollapses`), subsystems do not interfere
  (`Projection`), wheel totals cancel and give back the travel times (`WheelConservation`), and dropping
  repeated cells on the page changes nothing on the robot (`DedupPreservesMeaning`).

## Model

| member | source | states |
|---|---|---|
| `DnsMessage.DecodeEncodedName` | components/dns_server/my_dns_server.c:111-112 | wherever the encoding of a name (labels of 1 to 63 bytes, section 3.1 of RFC 1035) stands in a packet, the pointer-following decoder terminates and reads that name back |
| `DnsMessage.NameEndingInPointer` | components/dns_server/my_dns_server.c:111-112 | a name ending in C0 0C spells its own labels and then exactly the labels of the name at offset 12; with no labels of its own it is the pointer alone |
| `DnsServer.Server.IsBlocked` | components/dns_server/my_dns_server.c:95-105 | the eight `strstr` calls together answer yes exactly when the C string at offset 12 spells one of the eight words, each written out letter by letter |
| `DnsServer.BlockedIff` | components/dns_server/my_dns_server.c:95-102 | for every text, blocked means spelling one of the eight words and nothing else |
| `DnsServer.Server.AppendAnswer` | components/dns_server/my_dns_server.c:111-130 | the sixteen appends splice the answer record in at the packet's end and touch nothing else |
| `DnsServer.Server.BuildReply` | components/dns_server/my_dns_server.c:107-130 | header edits and appends turn the received bytes into the reply and leave the rest of the buffer, for packets of every length up to 100 |
| `DnsServer.Server.Serve` | components/dns_server/my_dns_server.c:74-136 | one pass: receive error, truncation to 100 bytes, filter over received and stale bytes, reply; outcome and new buffer contents |
| `DnsServer.Server.ServeAll` | components/dns_server/my_dns_server.c:71-139 | the loop cut after any number of passes gives the outcomes and the buffer contents of the run functions, from any initial buffer |
| `DnsServer.TerminatedDecides` | components/dns_server/my_dns_server.c:95-136 | over every stale buffer a packet with a zero byte from offset 12 on gets the outcome its own bytes decide |
| `DnsServer.IndependentIffTerminated` | components/dns_server/my_dns_server.c:57-105 | reading past the array included, the outcome is the same over all stale buffers if and only if the packet has such a zero byte |
| `DnsServer.OwnWordDrops` | components/dns_server/my_dns_server.c:95-105 | an unterminated packet whose own bytes contain a blocked word is dropped over every buffer that keeps the search inside the array |
| `DnsServer.StaleBytesDecide` | components/dns_server/my_dns_server.c:57-105 | an unterminated packet without a blocked word is answered over one stale buffer and dropped over another |
| `DnsServer.DecisionIndependentIff` | components/dns_server/my_dns_server.c:57-105 | over all stale buffers that keep the search inside the array, the decision and the reply are the same if and only if the packet has a zero byte from offset 12 on or itself contains a blocked word |
| `DnsServer.FirstPacketDropsSecond` | components/dns_server/my_dns_server.c:71-136 | from every initial buffer, two packets without a blocked word of which the first is answered and makes the second, answered on its own, be dropped |
| `DnsServer.RunIndependent` | components/dns_server/my_dns_server.c:57-136 | in every run from every initial buffer, such a packet's outcome and reply bytes do not depend on earlier packets |
| `DnsServer.TextOfName` | components/dns_server/my_dns_server.c:95 | the C string at a name's encoding is its visible labels behind length bytes of 1 to 63, ending at or before the root byte |
| `DnsServer.FlatContains` | components/dns_server/my_dns_server.c:95-102 | no occurrence of a blocked word crosses a label boundary |
| `DnsServer.FilterRefinesLabels` | components/dns_server/my_dns_server.c:95-105 | for every name and anything behind it, the raw search matches if and only if one visible label contains a blocked word |
| `DnsServer.AllVisible` | components/dns_server/my_dns_server.c:95-105 | without zero bytes in labels, every label is visible |
| `DnsReply.TopBitFlags` | components/dns_server/my_dns_server.c:107-108 | QR and RA become set and every other flag field keeps its value |
| `DnsReply.ReplyLayout` | components/dns_server/my_dns_server.c:107-130 | the edits change only the flags and the low byte of ANCOUNT in front of the appended record |
| `DnsReply.AnswerRecord` | components/dns_server/my_dns_server.c:111-130 | the appended bytes decode as an A/IN record, TTL 10, 192.168.4.1, whose pointer resolves to the question's name |
| `DnsReply.ExtraBytesHideAnswer` | components/dns_server/my_dns_server.c:107-130 | bytes between question and record leave no single record that reads as the answer |
| `DnsReply.ReplyCorrectIff` | components/dns_server/my_dns_server.c:107-136 | for all counts and all trailing bytes, the reply decodes to the same identifier and question with exactly the captive answer if and only if QDCOUNT is 1, ANCOUNT below 256, NSCOUNT and ARCOUNT 0 and nothing follows the question |
| `DnsReply.PlainQueryDecodes` | components/dns_server/my_dns_server.c:74 | the encoded query itself decodes to its one question |
| `DnsReply.QueryServed` | components/dns_server/my_dns_server.c:57-136 | in every run from every initial buffer, a query whose question ends within the first 100 bytes, for all counts, trailing bytes and datagram lengths, is dropped if and only if a visible label spells one of the eight words, which are written out |
| `DnsReply.QueryAnswered` | components/dns_server/my_dns_server.c:74-136 | otherwise it is answered with the bytes received, at most 100, and 16 more, and the reply decodes to the captive answer if and only if the counts are 1, below 256, 0, 0 and nothing was received behind the question |
| `DnsReply.NameDecided` | components/dns_server/my_dns_server.c:71-136 | in every run the visible labels of a name that ends within the received bytes decide drop or reply, whatever header and rest are |
| `DnsReply.EdnsQueryMisread` | components/dns_server/my_dns_server.c:107-136 | in every run an undropped query with an OPT record is answered and the reply never decodes to the captive answer |
| `DnsBuffer.OnePass` | components/dns_server/my_dns_server.c:74-130 | byte by byte, what one pass writes: received bytes, header edits and record only if it answers, everything beyond kept |
| `DnsBuffer.LastWriter` | components/dns_server/my_dns_server.c:57-139 | after every run from every initial buffer a byte holds what the last pass that reached it wrote |
| `DnsBuffer.Untouched` | components/dns_server/my_dns_server.c:57-139 | a byte that no pass of the run reached keeps its initial value |
| `DnsBuffer.SearchEnds` | components/dns_server/my_dns_server.c:57-105 | a zero among the last twelve bytes keeps every search of every run inside the array |
| `DnsBuffer.SearchInsideIff` | components/dns_server/my_dns_server.c:57-105 | over all runs from a given buffer the search stays inside the array if and only if one of its last twelve bytes is zero |
| `Mailbox.CapacitySuffices` | components/web_server/webserver.c:169-180 | with at most 30 handlers between reset and send, queue length plus such handlers never exceeds 30 and no send fails |
| `Mailbox.OverloadFails` | components/web_server/webserver.c:173-180 | from every state where the sum exceeds 30, pending sends alone lead to a failed send |
| `Mailbox.CapacityExact` | components/web_server/webserver.c:582 | a bound on handlers between reset and send rules out failed sends over all interleavings if and only if it is at most 30 |
| `Mailbox.SingleConsumer` | components/web_server/webserver.c:543-552 | over every run of accepts, failed creations included, at most one consumer is created and nothing is received without it |
| `Mailbox.QueueIsSuffix` | components/web_server/webserver.c:169-173 | the queue is always a suffix of the commands sent, at most 30 long |
| `Mailbox.SentDistinct` | components/web_server/webserver.c:169-173 | every queued command belongs to a finished handler and none is sent twice |
| `Mailbox.ReceivedInOrder` | components/web_server/webserver.c:242 | the commands received are a subsequence of those sent, in order of sending |
| `Mailbox.ReceivedOnce` | components/web_server/webserver.c:242 | each command is received at most once |
| `Mailbox.NothingLostSilently` | components/web_server/webserver.c:170 | a command neither received nor waiting was erased by a later reset of another handler |
| `Mailbox.OneFate` | components/web_server/webserver.c:169-173 | received, waiting and erased are exhaustive and mutually exclusive |
| `Mailbox.LastResetDelivered` | components/web_server/webserver.c:169-173 | once all handlers finish and the queue drains, the command of the handler that reset last has been received, if fewer than 30 others were between reset and send at that reset |
| `Mailbox.TurnedAway` | components/web_server/webserver.c:169-180 | with 30 others between reset and send, a continuation without further resets comes to rest without delivering it |
| `Mailbox.DeliveredIff` | components/web_server/webserver.c:169-180 | over all continuations without another reset that come to rest, the last resetter is delivered if and only if fewer than 30 others are between reset and send when it resets |
| `Mailbox.LastSenderWins` | components/web_server/webserver.c:169-173 | at rest the last command received is the one sent last |
| `Mailbox.Overtaken` | components/web_server/webserver.c:169-173 | any handler between reset and send when another one resets can be executed after it |
| `Mailbox.ExecutedLastIff` | components/web_server/webserver.c:169-173 | over all continuations without another reset that come to rest, the last resetter is executed last if and only if no other handler is between reset and send when it resets |
| `Mailbox.OvertakenAfterReset` | components/web_server/webserver.c:169-173 | a concrete run of two handlers in which the one that resets last is executed first |
| `HttpRequest.Cut` | components/web_server/webserver.c:119-133 | search and written terminator shorten the C string to what stands in front of the match, changing one byte |
| `HttpRequest.CopyTarget` | components/web_server/webserver.c:156-159 | the copy loop leaves the target followed by zero bytes |
| `HttpRequest.ParseBuffer` | components/web_server/webserver.c:119-159 | the two cuts and the copy agree with splitting the text in front of "HTTP" at its first space, all error cases included |
| `HttpRequest.HandleRequest` | components/web_server/webserver.c:90-159 | the handler on a fresh 1024-byte buffer computes the reference reading of whatever arrived |
| `HttpRequest.FirstVersion` | components/web_server/webserver.c:119-125 | in a printed request line the first "HTTP" is the version's own; none straddles a space |
| `HttpRequest.ParseUndoesPrint` | components/web_server/webserver.c:110-133 | for lines that fit the 1024-byte buffer with targets below 30 bytes: the parse gives back exactly the method and the target with one trailing space if and only if the method has no space and neither contains "HTTP", whatever follows the version |
| `HttpRequest.EveryOutcome` | components/web_server/webserver.c:110-159 | for every request, when each outcome arises: receive error, no "HTTP" in the text of the first 1023 bytes, no space in front of it, a target over 30 bytes, a posted record |
| `HttpRequest.OutcomeAt` | components/web_server/webserver.c:119-159 | the posted or overlong target is the text between the first space and the first "HTTP", the method the text in front of that space |
| `HttpRequest.LongLines` | components/web_server/webserver.c:112-159 | a printed request line with a target of 30 bytes or more overruns the record; one whose "HTTP" comes too late for the buffer is refused |
| `HttpResponse.MyWrite` | components/web_server/webserver.c:58-81 | for every sequence of send results with finitely many interruptions: 0 as soon as the counts taken add up to the length, -1 at the first failed call if they do not, and what is out is exactly the prefix that the counts add up to |
| `HttpResponse.EndsUnique` | components/web_server/webserver.c:58-81 | the send results determine the return value and the number of calls |
| `HttpResponse.EndsMeans` | components/web_server/webserver.c:58-81 | 0 exactly if everything is out, and exactly if no call made failed |
| `HttpResponse.FramingReads` | components/web_server/webserver.c:46-50 | behind the 200 header for n bytes a client reading status line, header lines, Content-Length and that many bytes gets status 200 and exactly the next n bytes, or nothing if fewer follow |
| `HttpResponse.FramingRoundTrip` | components/web_server/webserver.c:203-205 | the client gets status 200 and exactly the page, whatever bytes follow |
| `HttpResponse.Header200Text` | components/web_server/webserver.c:46-50 | the formatted header, character by character, for every page size |
| `HttpResponse.Respond` | components/web_server/webserver.c:201-210 | for every sequence of send results, which prefix of header and of page is on the wire and which write failed; with no failed call exactly header and page, or the 400 text for any other method; a GET whose header went out is read as the page if the second write succeeds and as nothing otherwise, any other method as nothing |
| `HttpResponse.BadRequestUnframed` | components/web_server/webserver.c:52-55 | the 400 head ends in CR LF LF, so from every prefix of it a client insisting on CR LF reads nothing |
| `HttpResponse.BadRequestStatus` | components/web_server/webserver.c:52-55 | the first line of the 400 text carries status 400 |
| `Decimal.PrefixZeroValue` | components/web_server/index.html:377-379 | `PrefixZero` writes n digits that denote num modulo 10^n, for every num and n >= 1 |
| `Decimal.PrefixZeroOfValue` | components/web_server/index.html:377-379 | on every digit string `PrefixZero` undoes decoding |
| `Decimal.AtoiReads` | components/web_server/webserver.c:279 | `atoi` skips white space, applies a sign and stops at the first other character, for every number |
| `Gimbal.RunCollapses` | components/web_server/webserver.c:284-351 | every run of steps on an axis is one shift by their sum and one clamp, whose window is the images of 0 and 270 |
| `Gimbal.RunMonotone` | components/web_server/webserver.c:284-351 | runs keep the order of start angles and never drive them apart |
| `Gimbal.TwentySevenSteps` | components/web_server/webserver.c:284-351 | 27 steps one way reach that limit from every angle; 26 do not suffice from the far end |
| `Gimbal.ReachableAngles` | components/web_server/webserver.c:288-348 | the angle is 5 modulo 10 exactly until the axis first saturates, 0 modulo 10 afterwards, and until then start plus sum of steps |
| `Gimbal.NegativeGoesToMax` | main/Gimbal/src/Gimbal.c:73-83 | a negative angle would drive the servo to the far end, which is why the tracked angle is clamped first |
| `Gimbal.PulseIncreases` | main/Gimbal/src/Gimbal.c:20-25 | the pulse is strictly increasing on 0..270 |
| `Gimbal.PulseInverse` | main/Gimbal/src/Gimbal.c:20-25 | the angle is ceil(27 * (pulse - 500) / 200) |
| `Gimbal.PulseStep` | main/Gimbal/src/Gimbal.c:20-25 | an unsaturated ten-degree step moves the pulse by 74 or 75 |
| `Chassis.AnyOrder` | main/Chassis/src/Chassis.c:27-251 | each motion function writes the four wheels in an order of its own; every order leaves the motion's eight levels and no other change |
| `Chassis.OppositeSpins` | main/Chassis/src/Chassis.c:27-251 | a motion turns all wheels opposite to another exactly if it is its named opposite |
| `Chassis.Rocker` | components/web_server/webserver.c:410-471 | for every integer pair the seven overlapping tests leave the pins of one priority table, sideways before forward and backward |
| `Chassis.DecisionSymmetry` | components/web_server/webserver.c:410-471 | every cell of the 0..10 grid is decided and no other pair; mirroring the stick mirrors the motion |
| `Chassis.OverlapCells` | components/web_server/webserver.c:419-453 | last-writer-wins differs from first-match on exactly the four cells (4 or 6, 4 or 6) |
| `Robot.Controller.constructor` | main/Gimbal/src/Gimbal.c:62-63 | after power-up the tracked angles are 135 while the servos stand at 235 and 90 degrees, pulses of 2240 and 1166 microseconds, no pin written |
| `Robot.Controller.ServoSetAngleTo` | main/Gimbal/src/Gimbal.c:73-119 | only the addressed servo's pulse changes, to the conversion of the clamped angle |
| `Robot.Controller.MoveGimbal` | components/web_server/webserver.c:284-351 | values 0 to 3 move pitch or yaw by ten degrees with saturation and write the servo; other values change nothing (in numbers: `RecordEffects.GimbalAgrees`) |
| `Robot.Slice` | components/web_server/webserver.c:253-261 | the two loops take characters 0..6 and 12..15 |
| `Robot.Branch` | components/web_server/webserver.c:270-475 | the `else if` chain is a lookup of the first five characters |
| `Robot.Controller.Execute` | components/web_server/webserver.c:253-475 | one pass of the consumer changes the whole state as the record's command says |
| `Robot.Controller.ExecuteAll` | components/web_server/webserver.c:237-485 | the consumer's loop is the run of the records' commands |
| `RecordEffects.GimbalAgrees` | components/web_server/webserver.c:284-351 | from every state value 0 takes ten degrees off pitch and 1 adds them, 2 adds to yaw and 3 takes off, held in 0..270, the servo of that axis alone gets 500 + 2000 * angle / 270 microseconds |
| `RecordEffects.MotionLevels` | main/Chassis/src/Chassis.c:27-251 | the levels of pins 16, 17, 32, 33, 13, 15, 0 and 2 in each of the seven motions |
| `RecordEffects.StickAgrees` | components/web_server/webserver.c:410-471 | for every integer pair the overlapping tests send the eight pins where a table of regions says, or leave them alone |
| `RecordEffects.LauncherAgrees` | main/FIRE/src/Fire.c:27-57 | on and off of friction wheel and feeder as levels of pins 26, 25, 18 and 5 |
| `RecordEffects.EveryRecord` | components/web_server/webserver.c:253-475 | for every state and every record the new state is what a reference in pin numbers, degrees and microseconds says of the first five characters and the number |
| `RecordEffects.EveryRun` | components/web_server/webserver.c:237-485 | the same over every run of records |
| `RobotRuns.OrderIrrelevant` | components/web_server/webserver.c:270-475 | any reordering of the branches picks the same branch for every key |
| `RobotRuns.OthersUntouched` | components/web_server/webserver.c:270-475 | a command leaves all other subsystems unchanged, pins and pulses included |
| `RobotRuns.SameOwnSameEnd` | components/web_server/webserver.c:270-475 | two runs that give a subsystem the same commands of its own end alike for it, however they interleave with others |
| `RobotRuns.Projection` | components/web_server/webserver.c:270-475 | yaw, pitch, chassis, friction wheel and feeder each end where their own commands alone take them |
| `RobotRuns.AnglesAndPulses` | components/web_server/webserver.c:284-351 | over every run each angle is the run of its own steps and, from its first command on, the written pulse is the conversion of the tracked angle |
| `RobotRuns.ReachableFromBoot` | main/Gimbal/include/Gimbal.h:41-42 | over every run of records from power-up: range, residue modulo 10, sum while unsaturated, pulse formula, on both axes |
| `RobotRuns.WheelConservation` | main/Chassis/src/Chassis.c:27-251 | integrated over any timed run of all commands the four wheel totals sum to zero and give back net forward, sideways and turning time |
| `RobotRuns.WheelConservationFromRest` | main/Chassis/src/Chassis.c:27-251 | the same with no condition, from unwritten pins |
| `Page.Grid` | components/web_server/index.html:333-351 | every pixel pair lands in the column and row of sixty pixels it lies in; positions outside the 600-pixel canvas count as its border |
| `Page.CellBands` | components/web_server/index.html:333-351 | the cell of a pixel pair is the only one whose column holds x and whose row holds y |
| `Page.PathDigits` | components/web_server/index.html:359 | the path spells two digits of the column, then two of the row |
| `Page.Joystick.constructor` | components/web_server/index.html:264 | loading the page requests "/rocker?val=0505" once, because LastX and LastY are still undefined |
| `Page.Joystick.NewCoordinate` | components/web_server/index.html:333-370 | a cell is requested exactly if it differs from the last one requested, with its path |
| `Page.Joystick.Drag` | components/web_server/index.html:289-370 | over every sequence of pointer events the cells requested are the cells visited without adjacent repeats |
| `Page.DedupProperties` | components/web_server/index.html:352-369 | no two adjacent requests are equal and the first is the first cell visited |
| `Page.DedupKeeps` | components/web_server/index.html:352-369 | a path without repeats is sent in full |
| `Page.DedupStutters` | components/web_server/index.html:352-369 | a request is added exactly when a new cell is entered, and after every step the last request is the current cell |
| `EndToEnd.GetPosts` | components/web_server/webserver.c:119-159 | the GET request for a cell, with any continuation, is posted as that cell's record |
| `EndToEnd.JoystickRoundTrip` | components/web_server/webserver.c:394-408 | for every integer pixel pair and any rest of the request: rocker branch, and `/100` and `%100` give exactly the page's cell |
| `EndToEnd.PathPosts` | components/web_server/webserver.c:119-159 | a GET for any sixteen-character path without H and zero bytes is posted as that path with one space, whatever follows "HTTP" |
| `EndToEnd.PathEffect` | components/web_server/webserver.c:253-475 | such a record acts by the first five characters of the path and the number in its last four |
| `EndToEnd.PixelDrives` | components/web_server/index.html:333-359 | for every pixel pair in a given column and row: the path requested, digit by digit, and the levels its record leaves on the eight motor pins, nothing else changed |
| `EndToEnd.GimbalButtons` | components/web_server/index.html:112-157 | the four gimbal buttons from every state: which angle and pulse change, by how much, saturation included |
| `EndToEnd.LauncherButtons` | components/web_server/index.html:161-216 | the launcher buttons in pin levels; the button labelled stop changes nothing |
| `EndToEnd.ChassisFollowsPointer` | components/web_server/webserver.c:394-471 | over every pointer event sequence, from every robot state, in-order execution leaves the chassis driving as the last visited cell decides |
| `EndToEnd.PinsFollowPointer` | components/web_server/index.html:289-370 | the same in pixels and pins: after every event sequence that ends at a pixel pair, the eight motor pins stand where the table sends its column and row |
| `EndToEnd.ReleaseBrakes` | components/web_server/index.html:303-328 | after any release all eight chassis pins are high |
| `EndToEnd.DedupPreservesMeaning` | components/web_server/index.html:352-369 | sending every visited cell or only the changes takes the robot to the same state |
| `EndToEnd.LastSentCellDrives` | components/web_server/webserver.c:169-173 | over every interleaving at rest, if the last command to enter the mailbox is a cell, the chassis drives as it decides |
| `EndToEnd.CellOvertaken` | components/web_server/webserver.c:169-173 | whoever is between reset and send when a cell's handler resets can leave the chassis driving otherwise |
| `EndToEnd.CellSureIff` | components/web_server/webserver.c:169-173 | from every robot state, whatever the others post: the cell of the last resetter, the stop included, decides the chassis in every continuation that comes to rest if and only if no other handler is between reset and send when it resets |
| `EndToEnd.StopOvertaken` | components/web_server/webserver.c:169-173 | a concrete run in which a stop empties the mailbox last and the robot keeps driving forward |

The methods that write the pins of the single motions and of the launcher carry their own contracts; the rows of
`Chassis.Rocker`, `Robot.Controller.Execute`, `RecordEffects.EveryRecord` and `RobotRuns.WheelConservation` rest on them.

## Where code and documentation differ

- Fire.h documents the feeder as IN1 high and IN2 low; Fire.c writes IN1 low and IN2 high. The model follows Fire.c.
- The page labels `/robott` as stop; the consumer only prints for it. The model treats it as no operation.
- Comments in webserver.c speak of comparing `/rocker?` and the like; only the first five characters are compared.

## Modelling decisions

- `strstr` on the DNS buffer needs a terminator. When the 128 bytes hold none from offset 12 on, the C program
  reads past its array; the model reports this as the outcome `Overread` and goes on.
- `b |= 0x80` is written arithmetically as setting the top bit of a byte 0..255.
- `val_Buff_02` has four bytes and no terminator; `atoi` is taken to act on exactly those four characters.
- A target longer than the 30 bytes of `My_URLString` overruns it in C; the model reports `Overflow`.
- One accepted connection is one handler identity; a queued record is named by its handler, which posts at most once.
- `send` is an oracle: it takes some positive number of bytes up to what was offered, is interrupted, or fails.
- A position divided by 60 and cut with `parseInt` is integer division, positions being integers.
- Page numbers are exact integers; JavaScript prints numbers from 10^21 on differently.

## Left out

- Sockets, Wi-Fi setup, watchdog, real-time delays, logging: library calls; only their results appear, as inputs.
- GPIO and MCPWM drivers and motor physics: the model keeps the last level or pulse written.
- `My_URLBuff`, the copied first four bytes of the request type: never read by the consumer.
- The 32-bit range of the page size printed by `%d` and the fit of the header in its 1024-byte buffer.
- Liveness of the scheduler: delivery is stated for runs that have come to rest.
- Canvas drawing, styling, gesture suppression and which DOM handler calls `new_coordinate`.
- main/ws_echo_server.c, components/Robot_Control, main/LED: not built in or without effect on the command path.
