# Toll-lane controller: verified model

A Dafny model of the parts of a toll-lane controller that carry state: the framer that
cuts two TCP byte streams into command frames, the command handler with its barrier
relays, the configuration file, the display task list with its mailbox, the Base64
codec and the log's double buffer. `dafny verify dfyconfig.toml` checks all of it.

## Structure

- `Sequences` - concatenation and searching. `Checksum` - the exclusive-or block check.
- `Framer` - the receive loop: `Pass`, `Scan` and `Feed` say what it does, the class
  `Receiver` does it on an array. `ReceiveCmd1` and `ReceiveCmd2` are the same machine.
  `FramerSafety` holds for any bytes; `FramerChunking` has the exact condition under
  which a stream of frames survives being cut into reads; `FramerDelivery` has its
  consequences and counterexamples; `FramerResync` is about junk and bad frames.
- `Lane` - authority check, device handling, replies, whole runs of frames, mode
  changes and pulses. `LaneOrders` - what each kind of frame does and is answered, by
  its bytes, its port and the mode switch. `LaneSystem` - both receive loops and the handler, from bytes to
  actions. `Barrier` - the relays one write at a time, with two receiver threads and
  the pulse thread.
- `IniText`, `IniModel`, `IniRoundTrip`, `IniStore`, `IniLaws`, `IniFile` - trimming and
  splitting; reader, printer and updates as functions; reading back what was printed;
  the laws of the updates; errors, comments and places in terms of the text; the object
  with its sections on the heap.
- `ListHead` - the circular list on heap nodes against sequences. `DisplayList` - the
  task list on it. `Mailbox` - producers and the display thread over all interleavings.
- `Base64` and `LogBuffer`.

Programs that change state are classes or methods on arrays, each tied by its
postconditions to a function on values; the laws are lemmas about those functions.

## What turned out false, and the exact conditions

- A stream of frames is not always delivered. The classifier reads 13 bytes ahead when
  only 7 are known to be there, and an unknown type keeps the previous length; and a
  frame that comes behind another waits in the buffer while it announces more bytes
  than are there, which the next read ends. `FramesDeliveredIffCutsSafe` states the
  exact condition in terms of the loop's own guards. For a sender who does not cut long
  frames after their 9th to 13th byte, `DeliveredHoweverCutIffNeedsMet` says which
  streams are always delivered: those in which no frame but the first announces more
  bytes than there are from its start to the end of the stream. `LateOrderNeedsCompany`
  has an order that is lost, and `DisplayFrameCutShortIsLost` shows that the rule for
  cuts is needed. A display frame cut after its 9th to 13th byte is delivered exactly
  while the length of the frame before it exceeds the cut
  (`DisplayFrameCutBehindFrame`).
- Resynchronisation can lose a frame. Discarding bytes leaves them in the buffer, and a
  short frame with nothing behind it is classified by the byte 13 places on, which is
  then one of those. `JunkIsSkipped` and `BadFrameIsSkipped` say for every state that the
  frames are handed over exactly when that byte does not mislead the classifier;
  `JunkInItsOwnRead` and `BadFrameInItsOwnRead` say it over two reads, and
  `OrderLostBehindJunk` has the input: fourteen bytes 0x44, then a barrier order.
- A slice handed over need not start with the header once a bad frame has been
  discarded, because the remembered position is kept (`HeaderlessSliceAfterDiscard`).
  All slices of a run start with it exactly when no pass hands one over after a search
  that found none (`AllHeadedIffSighted`), and a run that discards no bad frame is such
  a run (`SlicesStartWithTheHeader`).
- Load after save is the identity exactly when no section has a right comment
  (`NormalForm`): such a comment is printed after the line break and swallows the next
  line (`RightCommentSwallowsFirstItem`, and `AcceptedTextLosesItem` with a text).
- The authority rule holds exactly when the two configured addresses differ
  (`AuthorityIffAddressesDiffer`).
- Two receivers past the join of the pulse can have both relays on. The interlock holds
  over all runs exactly when they exclude each other there or raising and lowering are
  not both ordered (`InterlockIffExclusiveOrOneDirection`).
- The flash handler receives the type byte in place of the order, so over every run the
  flash stays off, and the display handler never sets its success flag, so no display
  order is answered with success, although the comments beside them name both outcomes
  (`EveryRunIsSound`).
- Cutting an empty list leaves the target head as it was, although the description of
  the operation has it receive the removed part (`ListCutPosition`).

## Assumptions

- The receive buffer starts zeroed and the command length is at least 9; the program
  leaves both uninitialised. Every read leaves 13 bytes of slack in the buffer. A read
  that returns nothing ends the session; a new `Receiver` starts the next one.
- White space is that of the C locale. The comment delimiter is the default `#`.
- Relay writes succeed. Producers post to registered lines, and frames reach the display
  list's append path from one thread at a time.
- The log line array has its three spare bytes, so the line break fits.

## Model

| member | source | states |
|---|---|---|
| Checksum.BCCDataCheck | src/IMachine.cpp:1850-1877 | type 0 answers 1 exactly when the last byte of the range is the exclusive-or of the others; other types return that exclusive-or |
| Checksum.CompletedRangePasses | src/IMachine.cpp:1144-1145 | a range closed with the computed byte is accepted by the comparing check, for any length |
| Checksum.UndetectedIffErrorCancels | src/IMachine.cpp:1856-1867 | a corrupted range still passes if and only if its error pattern cancels out |
| Checksum.SingleByteChangeDetected | src/IMachine.cpp:1856-1867 | changing any one byte, covered or closing, makes the check fail |
| Framer.FindHeader | src/IMachine.cpp:1486-1494 | the result is the first FF FF pair in the searched part of the live bytes, or -1 when there is none |
| Framer.Pass | src/IMachine.cpp:1485-1640 | one run of the loop body keeps the invariant; a jump back to Find_Frame lowers (pos, pos - Index2) |
| Framer.Scan | src/IMachine.cpp:1485-1640 | the passes between two reads end, in a state that satisfies the invariant and holds no more bytes than before |
| Framer.Receiver.constructor | src/IMachine.cpp:1438-1443 | the state before the first read, with a zeroed buffer and a command length of at least 9 |
| Framer.Receiver.Search | src/IMachine.cpp:1486-1494 | the header search loop finds the first header from an index on |
| Framer.Receiver.ReadLength | src/IMachine.cpp:1510-1537 | the look-ahead classification, with the old length kept for an unknown type |
| Framer.Receiver.Announced | src/IMachine.cpp:1607-1636 | the wait condition after a compaction |
| Framer.Receiver.TakeFrame | src/IMachine.cpp:1582-1598 | handing over a frame clears or compacts the buffer, to exactly the bytes behind the frame and zeros |
| Framer.Receiver.Resynchronise | src/IMachine.cpp:1568-1580 | after a failed checksum the search goes on at the next header, or the buffer is emptied and Index1 kept |
| Framer.Receiver.FindFrame | src/IMachine.cpp:1485-1640 | the loop body on the real buffer is one Pass |
| Framer.Receiver.Receive | src/IMachine.cpp:1476-1640 | one read on the real buffer is one Feed; the loop terminates |
| FramerSafety.PassTracks | src/IMachine.cpp:1485-1640 | a pass keeps: the live bytes are the end of the stream, handed-over slices are checked segments of it in order |
| FramerSafety.RunTracks | src/IMachine.cpp:1476-1640 | the same over any run of reads from any such state |
| FramerSafety.DispatchedSlicesAreSegmentsOfTheStream | src/IMachine.cpp:1539-1598 | for any bytes in any reads, the slices handed over are disjoint, strictly increasing segments of the received stream that pass the checksum |
| FramerSafety.SliceHeadedIffFound | src/IMachine.cpp:1486-1502 | a slice a pass hands over starts with FF FF if and only if the search of that pass found a header; with none the position is left from an earlier pass |
| FramerSafety.AllHeadedIffSighted | src/IMachine.cpp:1476-1640 | over any run, all slices handed over start with FF FF if and only if no pass hands one over after a search that found no header |
| FramerSafety.FreshPass | src/IMachine.cpp:1486-1502 | while the remembered position holds a header no such pass happens, and only emptying the buffer after a failed checksum can make it stale |
| FramerSafety.SlicesStartWithTheHeader | src/IMachine.cpp:1476-1640 | both over runs from the start: the exact condition, and that a run which never empties the buffer after a failed checksum meets it |
| FramerSafety.HeaderlessSliceAfterDiscard | src/IMachine.cpp:1578-1580 | after such a discard nine zero bytes are handed over as a frame |
| FramerSafety.StaleSliceLength | src/IMachine.cpp:1486-1537 | a slice handed over after a search without a header starts at the remembered position and has the length announced at the last live byte |
| FramerChunking.ClassifyFrame | src/IMachine.cpp:1503-1537 | a complete frame is classified right, whatever the sticky length was, unless the byte 13 places on is not its own and misleads the classifier, which then announces more than the frame |
| FramerChunking.PassFrame | src/IMachine.cpp:1503-1598 | a pass that comes to a complete frame so classified hands over exactly that frame |
| FramerChunking.ClassifyPart | src/IMachine.cpp:1503-1537 | what the classifier makes of a partial frame: the condition for waiting and the length then in force are given in plain comparisons of its bytes, and the code agrees with both |
| FramerChunking.PassSafeTail | src/IMachine.cpp:1503-1543 | a partial frame that is short or classified longer than it is stays where it is |
| FramerChunking.PassUnsafeTail | src/IMachine.cpp:1539-1581 | a partial frame classified as complete makes the pass hand over a wrong slice or pass over bytes |
| FramerChunking.WreckedPass | src/IMachine.cpp:1485-1640 | once a wrong slice was handed over or bytes were passed over, no pass repairs it |
| FramerChunking.ScanFrames | src/IMachine.cpp:1485-1640 | a search over complete frames and a partial one hands over the frames up to the first that is held back and keeps the rest whole, or is wrecked at the partial one, as the code's own guards decide |
| FramerChunking.SafeCutsHandFramesOver | src/IMachine.cpp:1476-1640 | with safe cuts the slices handed over are the first frames of the stream, in order and once each |
| FramerChunking.FramesDeliveredIffCutsSafe | src/IMachine.cpp:1476-1640 | chunking, exactly: for all frames and all cuttings into reads, the handler gets those frames in order and once each if and only if every search that comes to a partial frame waits for it and no frame is held back after the last read |
| FramerDelivery.HeldBackIffNeeded | src/IMachine.cpp:1605-1637 | behind a frame just handed over, a frame is held back if and only if the length it announces exceeds the bytes from its start on |
| FramerDelivery.AllHandedIffNeedsMet | src/IMachine.cpp:1582-1640 | a search over complete frames hands all of them over if and only if no frame but the first announces more bytes than there are from its start on |
| FramerDelivery.GentleTailIsSafe | src/IMachine.cpp:1503-1537 | a partial frame of a short frame, or with at most 8 or at least 14 bytes, is waited for whatever length is in force |
| FramerDelivery.GentleStreamIsDelivered | src/IMachine.cpp:1476-1640 | chunking independence: reads of at most 1761 bytes that cut long frames only within 8 or from 14 bytes on stay inside the buffer and hand over the first frames in order and once each, and all of them when every announced length is met by the stream |
| FramerDelivery.DeliveredHoweverCutIffNeedsMet | src/IMachine.cpp:1476-1640 | a stream of frames is delivered exactly, however it is so cut, if and only if no frame but the first announces more bytes than there are from its start to the end of the stream |
| FramerDelivery.ModestFramesAreDelivered | src/IMachine.cpp:1476-1640 | so a sender whose frames announce no more than their own length and who cuts them so is always served exactly |
| FramerDelivery.DisplayFrameCutShortIsLost | src/IMachine.cpp:1503-1543 | from the start, a display frame with a sequence byte other than 0x90, cut within its first 13 bytes, is delivered if and only if the first read is shorter than the length the loop starts with |
| FramerDelivery.CutInTwo | src/IMachine.cpp:1510-1543 | from any state between frames, a display frame cut after n of its first 13 bytes is delivered if and only if n is at most 8, or less than the length in force when the sequence byte is not 0x90 |
| FramerDelivery.DisplayFrameCutBehindFrame | src/IMachine.cpp:1510-1543 | behind another frame in a read of its own, such a display frame is delivered if and only if n is at most 8 or less than the length of that frame: the length stays in force |
| FramerDelivery.ShortFrameBehindHeartbeat | src/IMachine.cpp:1607-1640 | a short command behind a heartbeat meets that condition exactly when it announces at most its eleven bytes, or twenty with another heartbeat after it |
| FramerDelivery.LateOrderNeedsCompany | src/IMachine.cpp:1625-1637 | a barrier order that announces twenty bytes is lost behind a heartbeat under some cutting, and under none with another heartbeat after it |
| FramerResync.FramesFromResynchronise | src/IMachine.cpp:1485-1640 | complete frames at the end of the live bytes, behind bytes without a header and in front of whatever an earlier discard has left: they are handed over up to the first that is held back if and only if no leftover byte makes the classifier misread a lone short frame, which otherwise stays in the buffer |
| FramerResync.JunkIsSkipped | src/IMachine.cpp:1486-1502 | that for every state of the loop and every read that completes junk without a header, not ending in FF, and frames behind it; all frames are handed over if and only if also no announced length exceeds the bytes there |
| FramerResync.JunkInItsOwnRead | src/IMachine.cpp:1495-1502 | that over two reads, the junk in the first and the frames in the second, for any leftovers; the deciding byte is the one 13 places behind the frame in the buffer the first read leaves |
| FramerResync.ByteLeftByJunk | src/IMachine.cpp:1495-1502 | with no remembered position that byte is the 14th of the junk, or older when the junk is shorter |
| FramerResync.BadFrameIsSkipped | src/IMachine.cpp:1564-1577 | for every state of the loop: the same behind junk and a complete frame with a bad checksum |
| FramerResync.BadFrameInItsOwnRead | src/IMachine.cpp:1578-1580 | the same over two reads, the bad frame in the first, whatever position is remembered |
| FramerResync.OrderLostBehindJunk | src/IMachine.cpp:1503-1513 | from the start, fourteen bytes of junk in one read and a complete barrier order in the next: nothing is handed over |
| Lane.SealedFrameIsAccepted | src/IMachine.cpp:1110-1145 | every frame sent starts with FF FF and passes the type-0 check |
| Lane.SealedIsWireFrame | src/IMachine.cpp:1110-1145 | every byte of a sent frame: header, zero, sequence byte divided by ten, two zeros, the payload length high byte first, the payload, and the exclusive-or of all but the header |
| Lane.SealedHeartbeat | src/IMachine.cpp:1113-1121 | the heartbeat is the same ten bytes, whatever the sequence byte |
| Lane.ProperRun | src/IMachine.cpp:983-1103 | over any run of frames, switch changes and pulses, with distinct addresses, actions come from the port in charge and replies go back to the port that caused them |
| Lane.AuthorityIffAddressesDiffer | src/IMachine.cpp:990-1090 | that holds over all runs if and only if the two configured addresses differ |
| Lane.OrderIsCarriedOutIffInCharge | src/IMachine.cpp:902-1090 | for every kind of frame, what its bytes order, inner check included, is carried out if and only if its port is in charge (1 with the switch at 0, 2 with it at 1), and nothing else is |
| Lane.SoundRun | src/IMachine.cpp:207-212 | over any run of frames from both ports, mode changes and pulses: the relays are never on together, one that is on has a pulse and was ordered by the last barrier action, the flash is off, and every answer agrees with the outputs at its time |
| Lane.EveryRunIsSound | src/IMachine.cpp:394-422 | the same from the start on: 2 is answered exactly when the barrier is then being raised and 3 exactly when it is being lowered, the flash light stays off, and no display order is answered with success |
| Lane.RunsAreSized | src/IMachine.cpp:1558-1562 | every slice the receive loop hands over, for any bytes, is one the handler can read |
| Lane.LaneController.PulseEnds | src/IMachine.cpp:207-212 | the pulse switches both relays off; no state in between has both on |
| Lane.LaneController.BalusTrade | src/IMachine.cpp:394-422 | an order joins the running pulse, sets the relays and starts a pulse; no state in between has both relays on |
| Lane.LaneController.TrafficControl | src/IMachine.cpp:860-878 | the lamp order sets the lamp and is reported |
| Lane.LaneController.FlashLightControl | src/IMachine.cpp:881-899 | the flash order sets the flash light and is reported |
| Lane.LaneController.DisplayVoice | src/IMachine.cpp:728-748 | the answer says whether the speech call raised an exception |
| Lane.LaneController.DisplayControl | src/IMachine.cpp:754-857 | the success flag stays false, so the answer is failure |
| Lane.LaneController.Analyse | src/IMachine.cpp:902-979 | one frame's device handling: result bytes, the recorded action and the new outputs |
| Lane.LaneController.FillBody | src/IMachine.cpp:1110-1142 | the bytes written to the send buffer before the check byte: two payload bytes copied, three for a coil report, and as many sent as the length says |
| Lane.LaneController.Close | src/IMachine.cpp:1144-1145 | the check byte is appended |
| Lane.LaneController.CommunicationSend | src/IMachine.cpp:1105-1183 | exactly one sealed frame is written, to the socket of the address, or none for a foreign address |
| Lane.LaneController.Act | src/IMachine.cpp:990-1090 | authority check, handling and reply content of one frame |
| Lane.LaneController.CommunicationAnalysis | src/IMachine.cpp:983-1103 | one frame changes history and outputs as specified and keeps the relay invariant |
| Lane.LaneController.SwitchTo | src/IMachine.cpp:278-279 | the mode switch changes nothing but the mode |
| Lane.LaneController.ReportCoils | src/IMachine.cpp:320-341 | a coil report is one frame with its three bytes and their length, to the client the switch points at, or none |
| Lane.LaneController.Heartbeat | src/IMachine.cpp:368-369 | both clients get the ten bytes of the heartbeat |
| LaneOrders.BarrierFrame | src/IMachine.cpp:1039-1064 | a barrier frame adds exactly its action, relays up for 1 and down for 0, if and only if (port 1 and switch 0) or (port 2 and switch 1), and exactly one answer: 2, 3 or 0, or zeros when refused |
| LaneOrders.LampFrame | src/IMachine.cpp:1065-1090 | likewise a lamp frame: on for 0, off for 1, else as before; the answer is 1 for red, else 0 |
| LaneOrders.TaggedFrame | src/IMachine.cpp:902-962 | a tagged display frame of a known type from the port in charge is flash, voice or display by its type byte, carried out if and only if its inner exclusive-or is right, and answered 4, 4 or 5, or 3; the lamp stays as it is |
| LaneOrders.UntaggedFrame | src/IMachine.cpp:963-976 | without the tag it is the barrier or lamp order at byte 9, or nothing |
| LaneOrders.RefusedDisplay | src/IMachine.cpp:990-1038 | from the other port a display frame does nothing; zeros are answered, or a heartbeat when the uninitialised type says so |
| LaneOrders.UnknownFrame | src/IMachine.cpp:983-1103 | other frames, and display frames of an unknown type from the port in charge, change nothing and are not answered |
| LaneOrders.NoFrame | src/IMachine.cpp:207-212 | a mode change changes the mode only; a pulse clears both relays and leaves lamps, actions and answers alone |
| LaneSystem.RunKeepsInv | src/IMachine.cpp:1558-1562 | two receive loops and the handler over any order of reads, frames, mode changes and pulses: every action was ordered by a checked slice of the port then in charge, in the order of the slices |
| LaneSystem.WaitingSliceIsEnabled | src/IMachine.cpp:1558-1562 | every slice that waits for the handler can be handled |
| LaneSystem.ActionsComeFromCheckedSlices | src/IMachine.cpp:983-1103 | from bytes to actions: whatever arrives on both ports, every action comes from a segment of the input of the port in charge that passes the checksum, and no slice causes two |
| Barrier.RunKeepsInv | src/IMachine.cpp:394-422 | the relay invariant at every micro-step of every run with at most one receiver past the join |
| Barrier.InterlockOnExclusiveRuns | src/IMachine.cpp:207-212 | on such runs the relays are never on together and no relay stays on without a pending pulse |
| Barrier.PulseSwitchesOff | src/IMachine.cpp:207-212 | a pending pulse can move and within two moves both relays are off |
| Barrier.RelayWithoutOrderStaysOff | src/IMachine.cpp:406-419 | however the receivers overlap, a relay that no order switches on stays off |
| Barrier.TwoReceiversCanEnergiseBoth | src/IMachine.cpp:397-417 | with two receivers past the join there is a run of one raise and one lower order that has both relays on |
| Barrier.InterlockIffExclusiveOrOneDirection | src/IMachine.cpp:394-422 | for any set of permitted orders, all runs are interlocked if and only if receivers exclude each other past the join or raising and lowering are not both permitted |
| IniText.TrimSplits | src/Get_Inifiles.cpp:628-650 | trimming removes white space at both ends and nothing else, and leaves none there |
| IniText.TrimText | src/Get_Inifiles.cpp:628-650 | the two loops compute that |
| IniText.FindFirst | src/Get_Inifiles.cpp:654-654 | the search stops at the first separator |
| IniText.FindChar | src/Get_Inifiles.cpp:52-52 | the search loop computes that |
| IniText.SplitText | src/Get_Inifiles.cpp:652-675 | both sides of the first separator, trimmed; everything on the left without one |
| IniText.SixSpaces | src/Get_Inifiles.cpp:633-644 | white space is exactly the six characters of the C locale |
| IniRoundTrip.ReadComment | src/Get_Inifiles.cpp:122-132 | the lines of a printed comment are collected again as the same comment |
| IniRoundTrip.ItemLineSplit | src/Get_Inifiles.cpp:134-134 | splitting a printed item line at # gives back the pair and the right comment |
| IniRoundTrip.PairSplit | src/Get_Inifiles.cpp:44-47 | splitting the pair at = gives back key and value |
| IniRoundTrip.ReadItem | src/Get_Inifiles.cpp:82-99 | reading a printed item appends that item to the current section |
| IniRoundTrip.ReadHead | src/Get_Inifiles.cpp:49-80 | reading a printed section line appends that section, without its right comment |
| IniRoundTrip.ReadSection | src/Get_Inifiles.cpp:122-148 | reading a printed section appends it whole |
| IniRoundTrip.ReadBack | src/Get_Inifiles.cpp:101-206 | reading back a printed clean configuration gives it again |
| IniRoundTrip.ReadLineClean | src/Get_Inifiles.cpp:122-148 | every line that is accepted keeps the configuration clean |
| IniRoundTrip.LoadIsClean | src/Get_Inifiles.cpp:101-153 | everything Load accepts is clean: trimmed parts without separators, well-formed comments, distinct names, root first |
| IniRoundTrip.ReadKeepsHeads | src/Get_Inifiles.cpp:77-78 | reading on never changes name or right comment of a section already read |
| IniRoundTrip.RightCommentIsLost | src/Get_Inifiles.cpp:174-176 | the first section with a right comment does not read back with it |
| IniRoundTrip.RightCommentSwallowsFirstItem | src/Get_Inifiles.cpp:169-176 | read back, the right comment of a section and the line of its first item are one comment line, and the item is gone |
| IniRoundTrip.AcceptedTextLosesItem | src/Get_Inifiles.cpp:101-206 | a two-line text that is accepted, has such a comment, and loses its only item by saving and loading |
| IniRoundTrip.ReadsBackIffNoSectionRight | src/Get_Inifiles.cpp:160-206 | a clean configuration reads back unchanged if and only if no section has a right comment |
| IniRoundTrip.NormalForm | src/Get_Inifiles.cpp:101-206 | for every accepted text, load after save reproduces sections, items and comments, and the saved text, exactly when no section has a right comment |
| IniModel.IndexOf | src/Get_Inifiles.cpp:209-218 | the first section of that name, or none |
| IniModel.KeyIndex | src/Get_Inifiles.cpp:338-344 | the first item with that key, or none |
| IniLaws.ErrorOfLine | src/Get_Inifiles.cpp:49-99 | which lines stop the reader and with which code, by their characters: no closing bracket 2, an empty name 3, a known name 4, no equals sign 5; blank and comment lines never do |
| IniLaws.StopsAtLine | src/Get_Inifiles.cpp:122-144 | a line that stops the reader ends the load: nothing behind it is read |
| IniLaws.ValuesAndCommentsMatch | src/Get_Inifiles.cpp:369-377 | values and comments have the same length, one for every item of the key, and both of an item stand at the place given by the items before it |
| IniStore.SetItemValues | src/Get_Inifiles.cpp:429-441 | setting a key replaces the head of its values or appends the first; other keys keep theirs |
| IniStore.DeleteItemValues | src/Get_Inifiles.cpp:544-551 | deleting a key leaves the tail of its values; other keys keep theirs |
| IniLaws.DeleteItemInPlace | src/Get_Inifiles.cpp:540-553 | deleting an item moves those behind it up by one and no other |
| IniStore.LookupIsFirstValue | src/Get_Inifiles.cpp:324-348 | getValue is the head of GetValues with the comment of that item, and fails when there are none |
| IniStore.SetValueLaw | src/Get_Inifiles.cpp:406-444 | setValue over the whole configuration: new head for that key, every other key of every section framed |
| IniLaws.SetValueIsFound | src/Get_Inifiles.cpp:406-444 | after setValue the lookup finds the value, and the comment behind a # unless it is empty |
| IniLaws.CommentSurvives | src/Get_Inifiles.cpp:101-206 | setValue with a comment, Save, Load, getValue gives the value back, and the comment with its # and a line break |
| IniLaws.SetItemInPlace | src/Get_Inifiles.cpp:429-441 | the item set keeps its place, key and right comment, or comes last; every other item stays where it is |
| IniLaws.SetValueInPlace | src/Get_Inifiles.cpp:408-441 | only the items of one section change, its name and comments stay |
| IniLaws.EnsureSectionInPlace | src/Get_Inifiles.cpp:414-427 | an unknown section comes last, the nameless one first, and the others keep their order |
| IniLaws.FailedLookup | src/Get_Inifiles.cpp:330-348 | a failed lookup gives 9 for a missing section and 8 for a missing key, and the integer lookup the default |
| IniStore.DeleteKeyLaw | src/Get_Inifiles.cpp:540-553 | DeleteKey over the whole configuration: the tail for that key, everything else framed |
| IniStore.DeleteSectionLaw | src/Get_Inifiles.cpp:527-538 | DeleteSection leaves no value of the section and frames all others |
| IniStore.NamesStayDistinct | src/Get_Inifiles.cpp:67-78 | section names stay distinct over every sequence of loads (failed ones included), sets and deletes |
| IniStore.AtoiOfPrintInt | src/Get_Inifiles.cpp:242-249 | atoi of the %d text of an integer is that integer (sections 7.22.1.2 and 7.21.6.1 of ISO C11) |
| IniLaws.AtoiReads | src/Get_Inifiles.cpp:242-249 | atoi skips white space, takes a sign of either kind and ignores what follows the digits (section 7.22.1.2 of ISO C11) |
| IniStore.PrintedIntFits | src/Get_Inifiles.cpp:451-456 | a 32-bit integer prints to at most 11 characters, so the 64-byte buffer never truncates |
| IniStore.SetValueClean | src/Get_Inifiles.cpp:406-444 | setting a clean key of a clean section keeps the configuration clean |
| IniStore.IntSettingSurvives | src/Get_Inifiles.cpp:451-456 | SetIntValue, Save, Load, GetIntValue gives the value back, and all values of all other keys are unchanged |
| IniFile.IniFile.GetSection | src/Get_Inifiles.cpp:209-218 | the object of the first section of that name, or null |
| IniFile.IniFile.GetValue | src/Get_Inifiles.cpp:330-348 | the first value and its comment, or the right error |
| IniFile.IniFile.GetIntValue | src/Get_Inifiles.cpp:242-249 | the value as an integer or the default |
| IniFile.IniFile.GetValues | src/Get_Inifiles.cpp:356-385 | all values and comments in order, and the error code |
| IniFile.IniFile.NeedSection | src/Get_Inifiles.cpp:408-427 | an unknown section is appended, the nameless one put in front |
| IniFile.IniFile.SetValue | src/Get_Inifiles.cpp:406-444 | the configuration becomes the specified one, in place |
| IniFile.IniFile.SetIntValue | src/Get_Inifiles.cpp:451-456 | the value goes in through the %d text |
| IniFile.IniFile.DeleteKey | src/Get_Inifiles.cpp:540-553 | the configuration becomes the specified one, in place |
| IniFile.IniFile.DeleteSection | src/Get_Inifiles.cpp:527-538 | the configuration becomes the specified one |
| IniFile.IniFile.UpdateSection | src/Get_Inifiles.cpp:49-80 | a new section, or one of the three errors and no change |
| IniFile.IniFile.AddKeyValuePair | src/Get_Inifiles.cpp:82-99 | a new item in the current section, or the error and no change |
| IniFile.IniFile.TakeLine | src/Get_Inifiles.cpp:123-147 | one line of the reader |
| IniFile.IniFile.Load | src/Get_Inifiles.cpp:101-153 | error code and sections of the specified reader, for every text and for a file that cannot be opened |
| IniFile.IniFile.ItemLines | src/Get_Inifiles.cpp:178-195 | the text of the items |
| IniFile.IniFile.SaveAs | src/Get_Inifiles.cpp:160-196 | the text of the configuration |
| IniLaws.SampleText | src/Get_Inifiles.cpp:160-196 | the exact text of a configuration with a section comment, an item comment and a right comment |
| ListHead.EnterAt | include/list.h:19-21 | a ring can be entered at any of its nodes |
| ListHead.InitListHead | include/list.h:46-50 | a node on its own is an empty ring |
| ListHead.Link | include/list.h:59-67 | the four links of __list_add |
| ListHead.ListAdd | include/list.h:82-85 | the new node comes first; only four links change |
| ListHead.ListAddTail | include/list.h:96-99 | the new node comes last; only four links change |
| ListHead.Detach | include/list.h:121-124 | the entry leaves the ring, which stays in order |
| ListHead.ListDel | include/list.h:126-131 | the entry leaves the ring and its links are cleared |
| ListHead.ListDelInit | include/list.h:164-168 | the entry leaves the ring and is an empty ring itself |
| ListHead.ListReplace | include/list.h:144-151 | the new node takes the old one's place, also when the old one is alone |
| ListHead.ListReplaceInit | include/list.h:153-158 | and the old one becomes an empty ring |
| ListHead.ListMove | include/list.h:175-179 | the entry moves to the front of its ring |
| ListHead.ListMoveTail | include/list.h:186-191 | the entry moves to the end of its ring |
| ListHead.ListMoveAcross | include/list.h:175-179 | the entry moves to the front of another ring; both are valid, and no node's data changes |
| ListHead.ListMoveTailAcross | include/list.h:186-191 | the entry moves to the end of another ring; both are valid, and no node's data changes |
| ListHead.ListRotateLeft | include/list.h:236-244 | the first node becomes the last; an empty ring is left alone |
| ListHead.Cut | include/list.h:255-265 | the nodes up to the entry form the new ring, the others the old one |
| ListHead.ListCutPosition | include/list.h:281-293 | the same with the guards: nothing happens, not even to the target, when the ring is empty, whatever the entry, or its one node is not the entry |
| ListHead.SpliceAfter | include/list.h:295-307 | the links of __list_splice behind the head |
| ListHead.SpliceBefore | include/list.h:295-307 | the links of __list_splice before the head |
| ListHead.ListSplice | include/list.h:314-319 | one ring's nodes come before the other's, with their data |
| ListHead.ListSpliceTail | include/list.h:326-331 | one ring's nodes come after the other's, with their data |
| ListHead.ListSpliceInit | include/list.h:340-347 | and the emptied head is an empty ring |
| ListHead.ListSpliceTailInit | include/list.h:357-364 | and the emptied head is an empty ring |
| ListHead.CutAndSpliceBack | include/list.h:281-319 | cutting a ring and splicing the part back restores every link |
| DisplayList.PostKeepsLines | src/kernel_list.cpp:154-179 | posting keeps lines distinct and in place |
| DisplayList.PostedExactly | src/kernel_list.cpp:154-179 | the first slot of the line, or a new last one, is pending with what was posted, and every other slot is as it was |
| DisplayList.KeepSlotsExact | src/kernel_list.cpp:135-152 | what DelNode leaves are exactly the slots of the other status, in order and once each |
| DisplayList.Klist.constructor | src/kernel_list.cpp:11-35 | an empty ring |
| DisplayList.Klist.HeadTail | src/kernel_list.cpp:68-78 | the node is appended |
| DisplayList.Klist.HeadAdd | src/kernel_list.cpp:80-90 | the node is put in front |
| DisplayList.Klist.NodeAdd | src/kernel_list.cpp:104-114 | the node is inserted behind a node in the middle; the other slots stay as they are |
| DisplayList.Klist.NodeTail | src/kernel_list.cpp:92-102 | the node is inserted before a node in the middle; the other slots stay as they are |
| DisplayList.Klist.FindNode | src/kernel_list.cpp:51-66 | the first node with that status, or none |
| DisplayList.Klist.Overwrite | src/kernel_list.cpp:160-170 | the first slot of the line is overwritten and pending; an unknown line changes nothing |
| DisplayList.Klist.NodeChange | src/kernel_list.cpp:154-179 | overwrite or append, over the real ring; the old nodes keep their order |
| DisplayList.Klist.ShowAdd | src/kernel_list.cpp:181-192 | posts a frame for a line |
| DisplayList.Klist.Take | src/QYLED.cpp:764-769 | clears the status of the found node and yields its payload |
| DisplayList.Klist.ListTaskInit | src/kernel_list.cpp:195-203 | one idle slot for each of the lines 0 to 10 |
| DisplayList.Klist.DelNode | src/kernel_list.cpp:135-152 | exactly the nodes of the other status remain, in order, over the real ring while it is walked |
| Mailbox.EmbeddingPositions | src/QYLED.cpp:755-777 | an in-order subsequence has strictly increasing positions that spell it |
| Mailbox.StepKeepsInv | src/kernel_list.cpp:154-179 | every locked section of either side keeps: pending slots hold the last post, others were last taken with it |
| Mailbox.LatestWins | src/QYLED.cpp:755-777 | in every interleaving, the takes of a line are an in-order subsequence of its posts, and its last post is pending or was the last take |
| Mailbox.Drains | src/QYLED.cpp:755-777 | when posting has stopped and the link is up, wherever the display thread then is, n takes leave exactly n pending slots fewer |
| Mailbox.MailboxEmpties | src/QYLED.cpp:755-777 | so as many takes as there are pending slots empty the mailbox |
| Mailbox.LinkDownKeepsSlots | src/QYLED.cpp:755-777 | with the link down the thread takes nothing, the slot stays pending, and the next search finds the first pending slot |
| Mailbox.DisplayRound | src/QYLED.cpp:757-777 | one round of the display thread on the real list is a search and a take; the frame is written twice |
| Base64.EncodingShape | src/convert.c:94-131 | the encoding has four characters for every three bytes begun, all of the alphabet but for the pads that end it, as many as the last group lacks bytes |
| Base64.TableOfValues | src/convert.c:92-92 | the alphabet is Table 1 of RFC 4648 |
| Base64.DecodeEncode | src/convert.c:133-176 | decoding an encoding gives the bytes back, whatever the decoder's values were before |
| Base64.CanonicalDecodes | src/convert.c:138-174 | encoding the decoded bytes of a canonical string gives the string back although old values survive across pads |
| Base64.EncodeIsCanonical | src/convert.c:94-131 | encodings are correctly padded strings over the alphabet with zero trailing bits |
| Base64.ReproducedIffCanonical | src/convert.c:94-176 | of all strings of whole groups exactly the canonical ones are reproduced (sections 3.5 and 4 of RFC 4648) |
| Base64.NothingBehindPad | src/convert.c:163-172 | a group with a pad gives one or two bytes and ends the decoding |
| Base64.ForeignRepeatsPrevious | src/convert.c:138-145 | a character outside the alphabet counts as the one at its place in the group before |
| Base64.PutGroup | src/convert.c:99-128 | the loop body appends one group and touches nothing else |
| Base64.Base64Encode | src/convert.c:94-131 | the buffer gets the encoding and a closing zero, and is untouched behind it |
| Base64.SearchAlphabet | src/convert.c:141-145 | the search yields the character's value and keeps the old one for any other character |
| Base64.DecodeRound | src/convert.c:140-174 | the loop body appends one group's bytes and stops at a pad |
| Base64.Base64Decode | src/convert.c:133-176 | the buffer gets the decoded bytes and is untouched behind them |
| LogBuffer.StepKeepsInv | src/Log_Message.cpp:489-502 | an append or a swap keeps: swapped bytes then buffered bytes are the accepted lines |
| LogBuffer.TakenIffItFits | src/Log_Message.cpp:489-502 | a line and its break are taken if and only if they leave the buffer below 10485760 bytes, otherwise the line is dropped |
| LogBuffer.Conservation | src/Log_Message.cpp:489-502 | over every interleaving the accepted lines are those that fitted, whole and in order |
| LogBuffer.ConservationFromStart | src/Log_Message.cpp:258-272 | over every interleaving from the start, swapped bytes followed by buffered bytes equal the accepted lines, below the limit |
| LogBuffer.MyLogClass.constructor | src/Log_Message.cpp:202-214 | two distinct buffers, nothing buffered |
| LogBuffer.MyLogClass.TryAppend | src/Log_Message.cpp:489-502 | the line with its line break is taken whole exactly when it fits, and dropped whole otherwise |
| LogBuffer.MyLogClass.SwapOut | src/Log_Message.cpp:268-270 | the data buffer holds the buffered bytes and zeros, and the buffer is empty |
| LogBuffer.MyLogClass.ClearData | src/Log_Message.cpp:280-280 | the data buffer is cleared |

## Left out

- Sockets, serial ports, GPIO files, speech, character-set conversion, signals and process control; inputs are arbitrary values and outputs are booleans or recorded frames.
- Voice phrase table, slicing of display text and the packet builders of the display: a voice or display command is one recorded action.
- The timing of the coil and heartbeat threads, and how the coil inputs become the status byte of a report.
- The default-content timer of the display and its locks.
- Lane.LaneController.CommunicationSend: does not model the return value, which most paths of the program leave undefined, nor a length beyond the payload bytes that are copied, which would send bytes never written.
- Two producers that insert the same unregistered line between the search and the insertion of Node_Change.
- Log formatting, levels, file rotation and directory clean-up; the debug output of the swapped-out text.
- Configuration values other than integers and strings, the accessors for comments alone, comment delimiters of more than one character, and the file path.
- Allocation failure and the pairing of new with free.
- The hash-list half of the list header, which the program does not use.
- Lane.LaneController.DisplayVoice: does not model the phrase text and the sound level given to the speech call, only whether it raised an exception.
- Lane.LaneController.DisplayControl: does not model the lines, colours and brightness sent to the display, nor its timer flags.
- Base64.Base64Decode: does not model strings whose length is not a multiple of four, behind which the program reads on.
- Framer.Receiver.constructor: does not model a start with arbitrary bytes in the buffer or a length below 9, which the program leaves to chance.
- Framer.Receiver.Receive: does not model reads that leave less than 13 bytes of slack, behind which the program looks outside its buffer.
- Framer.Receiver.ReadLength: an unknown type keeps an arbitrary old length, because the program does the same.
- IniStore.AtoiOfPrintInt: does not model atoi on texts beyond the 32-bit range, where ISO C11 leaves the result undefined.
