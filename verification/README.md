# NGDCS: a verified model

NGDCS records images from an imaging spectrometer. This project models the parts of it that carry
real invariants and proves what they promise: the codecs (GPS word stream, USB descriptors, IPC
messages, the saved-settings file), the shared structures (the frame ring, the scanned list, the
plot window) and the state machines of a recording (sequencer, dark frame, calibration lamp, mount).

`dafny verify dfyconfig.toml` checks everything.

How the model is built. Code that changes things step by step is modelled by classes and loops that
do the same: each method's postcondition ties the new state to a specification function of the old
one, and the lemmas are about those functions, over every input, run or interleaving. Frames, file
contents, serial replies and the transport's answers are parameters. Integers are unbounded, and
truncations that matter (16-bit words, 32-bit sums, bytes, file integers) are written out. Frame
rates and gains are reals.

The parts, hardest first:

- **GPS** (`GpsParser`, `GpsStream`, `GpsSimulator`, `GpsComposition`, `GpsMeaning`, `GpsSlowRates`,
  `GpsRates`).
  The seven-state parser over framed words, with its hand-written resynchronisation, and the
  simulator that feeds it. In state 2 the parser looks at the word before the current one; at the
  first word of a frame that is the frame's word count, so a message cut right after its type word
  is dropped. The model keeps this and says exactly when it matters: over all runs of the simulator
  (whose frames carry no other GPS words), every message is heard from the program's first frame on
  if and only if message 3 is not simulated or there are at least 20 frames a second; from any other
  frame the exact condition is also given.  What the messages say is proved word by word on what the
  parser hands on, and that none that is due is dropped exactly from 20 frames a second on.
- **USB descriptors** (`UsbDescriptor`, `UsbParser`, `UsbRoundTrip`, `UsbTotality`, `UsbBytes`,
  `UsbAccepts`). The length-prefixed configuration tree of sections 9.6.3, 9.6.5 and 9.6.6 of the USB 2.0
  specification: which bytes are accepted at all, totality, and print/parse round trips in both
  directions, all stated with the specification's own numbers. An
  accepted tree is not well formed in two cases, given by inputs and told exactly from the bytes by
  one flat pass over the records.
- **Frame ring** (`FrameRing`, `FrameRingRuns`). Fetch thread and consumer as interleaved steps. A
  buffer counts as free from the moment its first frame is handed out, and what is handed out is an
  address: the consumer copies the frame later, without the semaphore. So the fetch thread can
  overwrite frames that are still to be read, the one being read included. Order is kept all along a
  run if and only if no frame is copied onto a different unread one, and both sides go on exactly as
  long as the histories of frames fetched and read say they can; for every number of buffers and
  of frames in a buffer some interleaving does so and loses it, and a consumer that leaves room for
  two buffers does not.
- **SL_List** (`SlList`, `SlListScans`). A growable array with up to four nested cursors, repaired on
  every insertion and every removal but one. `remove_last` compares the cursors with an index computed
  anew from the count that has already dropped: a scan right in front of the last item is set back to
  an item it has returned, and on a list of one item its cursor leaves the list. What a scan returns
  is proved over all runs, exactly up to that.
- **Recording** (`Recorder`, `DarkFrame`, `Obc`, `Mount`). The sequencer and its waits, dark-frame
  accumulation, lamp safety in the register shared with the recorder, the mount's retries. Each
  calibration lasts for its own setting to within half a frame. A storage
  failure with a stop request pending leaves the request set in idle, and the next quiet moment then
  enters a calibration with no file open; the files match the recording all along a run if and only if
  that does not happen. At the program's 42 frame rates the dark frame is computed within its own
  calibration but for one case, the one-second calibration of the largest image at the lowest rate.
- **IPC** (`IpcCodec`, `IpcTransport`, `IpcChannel`, `IpcPrims`, `IpcExchange`, `IpcTermString`).
  Values, arrays, strings and string arrays between hosts of any byte order and word size, over any
  schedule of partial reads and writes; where a connection breaks off, what is accepted are the
  first of the items sent. Accepting an array of no items always fails. A terminator delimits every
  string that does not contain it if and only if it has no border.
- **Settings, rendering, plots** (`SettingsKeys`, `SettingsText`, `SettingsStore`, `SettingsLoad`,
  `SettingsFile`, `SettingsMru`, `Render`, `Plot`). A number in the settings file is moved to the
  nearest bound, except that one no 32-bit int holds is first taken for another; an input and the
  exact condition are given.

The statements about protocols and formats are written with literal numbers, those of the message
and descriptor formats, not with the names of the model's own constants.

## Model

| member | source | states |
|---|---|---|
| GpsStream.ChecksumMeansZeroSum | Code/displayTab.h:19-37 | the checksum test holds exactly when five header words sum to 0 modulo 2^16 |
| GpsParser.Machine.ProcessImage | Code/displayTab.cpp:2620-2766 | handling one image leaves the parser, and what it has handed on, as the frame-level function of the image's GPS words says |
| GpsParser.Machine.Take | Code/displayTab.cpp:2650-2766 | one word moves state, buffer and deliveries by one step of the seven-state machine |
| GpsParser.Machine.TakeAfterChecksum | Code/displayTab.cpp:2697-2722 | the fifth header word: keep the message, restart on a magic number, or give up |
| GpsStream.StepSoundExactly | Code/displayTab.cpp:2650-2766 | the buffer stays the most recent words of the stream and the deliveries true slices of it, exactly when the step does not accept a length for the wrong type |
| GpsStream.DeliveriesAreSlices | Code/displayTab.cpp:2650-2766 | over all frames: every delivery is a well-formed, contiguous slice of the stream, and no two overlap |
| GpsStream.Resynchronises | Code/displayTab.cpp:2652-2760 | a message starting at the next word is delivered whole, ending in state 0, exactly from the states whose partial header cannot swallow its magic number, whatever came before |
| GpsStream.ReadySoon | Code/displayTab.cpp:2652-2760 | from any state and any words, such a state is reached within 24 words |
| GpsStream.OnlyTheFirstLost | Code/displayTab.cpp:2652-2760 | from any state, in a stream of messages without a false header inside, every message but the first two is delivered |
| GpsStream.CutMessage | Code/displayTab.cpp:2674-2677 | a message cut across two frames is delivered exactly when the cut is not right behind the type word |
| GpsStream.BoundaryExact | Code/displayTab.cpp:2636-2677 | at a frame boundary the parser departs from the uncut stream exactly when a length word is lost there |
| GpsStream.ChunkIndependent | Code/displayTab.cpp:2636-2766 | if no boundary loses a length word, frame by frame equals one pass over all words |
| GpsSimulator.Simulator.AddToFrame | Code/displayTab.cpp:2403-2559 | one frame of the simulator leaves the image and the queue that the functions GpsSimulator.PaintedMeans and GpsMeaning.QueuedTells are about, for any queue state and frame number |
| GpsSimulator.PaintedMeans | Code/displayTab.cpp:2419-2426 | a frame that begins a second carries a mark and the frame counter modulo 2^32 in two words, every frame the counter's low half; GPS words stand behind a mark and their number at word 340, and no other word changes |
| GpsSimulator.AreaMeans | Code/displayTab.cpp:2620-2636 | the parser takes its words from behind the count at word 341, unless word 340 says that there are none |
| GpsSimulator.PaintedWords | Code/displayTab.cpp:2544-2559 | the parser's area of such an image holds exactly the words emitted |
| GpsSimulator.Simulator.Drain | Code/displayTab.cpp:2544-2556 | at most 21 words go out, in order, and the rest move up in the buffer |
| GpsComposition.StatusWellFormed | Code/displayTab.cpp:2431-2462 | the simulated 3500 message passes the parser's own test |
| GpsComposition.NavWellFormed | Code/displayTab.cpp:2472-2540 | the simulated 3501 message passes it for any navigation data |
| GpsComposition.WordsConserved | Code/displayTab.cpp:2403-2559 | words queued are words emitted followed by words left, over any run |
| GpsComposition.Consume | Code/displayTab.cpp:2636-2766 | fed any stretch of a queue of messages, from the middle of one to the middle of another, the parser hands on exactly the completed ones |
| GpsComposition.SimulatedMessagesHeard | Code/displayTab.cpp:2403-2766 | if no boundary loses a length word, the parser delivers exactly the simulated messages, in order |
| GpsComposition.FastSimulationHeard | Code/displayTab.cpp:2403-2766 | from 20 frames a second on, or without message 3, it always does |
| GpsMeaning.QueuedTells | Code/displayTab.cpp:2431-2540 | every message queued in a run says what its frame prescribes: word 9 of a 3500 message is 0 before the initialisation, 4 on the ground or 5 in the air for the first 1000 frames from it, 7 after that; a 3501 message carries that frame's data, only the altitude while the mode last told is not 7 |
| GpsMeaning.HeardTells | Code/displayTab.cpp:2403-2766 | so does every message the parser hands on, if no length word is lost |
| GpsMeaning.PunctualExactly | Code/displayTab.cpp:2413-2471 | the messages queued are exactly those due, each in its frame, in every run from 20 frames a second on; below that one due in the first five frames is dropped |
| GpsMeaning.HeardOnTime | Code/displayTab.cpp:2403-2766 | at such rates the i-th message handed on is the i-th of the timetable and says what its own frame prescribes |
| GpsSlowRates.Comes | Code/displayTab.cpp:2415-2556 | at each of the 19 slower rates the queue comes to 19 words from every start frame but those that happen to do |
| GpsSlowRates.SlowRunLoses | Code/displayTab.cpp:2403-2677 | and then a frame ends right behind a type word |
| GpsSlowRates.OnlyNineteenCuts | Code/displayTab.cpp:2403-2677 | from no other level does one |
| GpsSlowRates.LuckyNeverLoses | Code/displayTab.cpp:2403-2677 | so from those start frames none ever does |
| GpsRates.LossIsMissed | Code/displayTab.cpp:2636-2766 | a lost length word costs its message for good |
| GpsRates.HeardFromExactly | Code/displayTab.cpp:2403-2766 | from frame n on all simulated messages are heard in all runs if and only if message 3 is off, or there are at least 20 frames a second, or n is even at two frames a second, or n is 3 modulo 4 at a multiple of four |
| GpsRates.HeardExactly | Code/displayTab.cpp:2060-2071 | from frame 1, the program's first, if and only if message 3 is off or there are at least 20 frames a second |
| UsbParser.ParseDescriptor | libusb-1.0/descriptor.c:43-91 | a format string reads bytes and little-endian words, byte-swapped unless the caller's data are in host order |
| UsbParser.EndpointFormat | libusb-1.0/descriptor.c:127-129 | what the endpoint format string yields, field by field |
| UsbParser.WideField | libusb-1.0/descriptor.c:69-85 | a 32-bit field takes four bytes and a UUID sixteen |
| UsbParser.NumberOfFour | libusb-1.0/descriptor.c:69-81 | four bytes make a number in bus order, or in the host's if the data are in host order |
| UsbParser.SkipExtra | libusb-1.0/descriptor.c:138-164 | the extra-descriptor loop stops at a standard record, a malformed one, one too long for the rest, or the end |
| UsbParser.ParseEndpoint | libusb-1.0/descriptor.c:99-187 | the endpoint read, the bytes used and every error return |
| UsbParser.ParseEndpoints | libusb-1.0/descriptor.c:320-342 | the endpoint loop with its early end |
| UsbParser.ParseAlt | libusb-1.0/descriptor.c:232-343 | one alternate setting with its extra bytes and endpoints |
| UsbParser.ParseInterface | libusb-1.0/descriptor.c:214-361 | all alternate settings of an interface, ending at the first record that is not one |
| UsbParser.ParseConfiguration | libusb-1.0/descriptor.c:376-495 | the whole configuration; the result is the bytes left over or an error |
| UsbParser.ParseNext | libusb-1.0/descriptor.c:423-486 | one turn of the interface loop, with the branch that keeps only the first extra bytes |
| UsbRoundTrip.AltParses | libusb-1.0/descriptor.c:232-343 | a printed alternate setting reads back, whatever follows it that is not a class or vendor record |
| UsbRoundTrip.InterfaceParses | libusb-1.0/descriptor.c:214-361 | so does a printed interface, if what follows is not another setting of it |
| UsbRoundTrip.PrintThenParse | libusb-1.0/descriptor.c:376-495 | a printed configuration, of at most 32 interfaces with at most 32 endpoints in each setting, followed by any bytes that are not part of it parses to the same tree, using exactly its own bytes |
| UsbRoundTrip.RoundTrip | libusb-1.0/descriptor.c:376-495 | on its own it leaves 0 bytes over |
| UsbTotality.SkippedAreRecords | libusb-1.0/descriptor.c:138-164 | the bytes skipped are complete non-standard records |
| UsbTotality.ParsedAlt | libusb-1.0/descriptor.c:232-343 | an accepted setting's endpoint count equals its endpoints exactly unless it declares some and its extra records run into a truncated one; its extras are slices of the input |
| UsbTotality.ParsedInterface | libusb-1.0/descriptor.c:214-361 | only the last setting of an interface can be cut short, and all carry one interface number |
| UsbTotality.NoExtraBehindInterfaces | libusb-1.0/descriptor.c:423-475 | behind the first interface the loop never finds extra bytes, so its missing append is never needed |
| UsbTotality.ParsedIsWellFormed | libusb-1.0/descriptor.c:376-495 | on arbitrary bytes an accepted configuration is well formed exactly when its last setting is not cut short and extra bytes do not stand without an interface |
| UsbBytes.CutExactly | libusb-1.0/descriptor.c:138-361 | its last setting is cut short exactly when, in one pass over the records, one runs past the end with only extra records since an interface record that declares endpoints |
| UsbBytes.LoneExtraExactly | libusb-1.0/descriptor.c:423-486 | it has extra bytes and no interface exactly when interfaces are declared and complete extra records follow the header that no interface record follows |
| UsbBytes.WellFormedExactly | libusb-1.0/descriptor.c:376-495 | so an accepted configuration is well formed if and only if its bytes are neither |
| UsbBytes.CompleteNeverCut | libusb-1.0/descriptor.c:138-164 | an accepted input of complete records is never cut short |
| UsbBytes.CutInput | libusb-1.0/descriptor.c:285-296 | an accepted input of 20 bytes that is cut short |
| UsbBytes.LoneExtraInput | libusb-1.0/descriptor.c:423-475 | an accepted input of 11 bytes with extra bytes alone |
| UsbTotality.ParsePrintParse | libusb-1.0/descriptor.c:376-495 | printing an accepted well-formed tree and parsing again changes nothing |
| UsbAccepts.AcceptsExactly | libusb-1.0/descriptor.c:376-495 | any bytes are accepted if and only if the header is good (nine bytes at least, type 2, at most 32 interfaces) and, where interfaces are declared, one flat pass over the records meets none that is too short, a missing endpoint or more than 32 endpoints |
| UsbAccepts.TooManyRefused | libusb-1.0/descriptor.c:407-411 | a header byte above 32 is refused whatever follows, in a configuration and in a setting |
| UsbAccepts.EndpointBeforeOverrun | libusb-1.0/descriptor.c:138-152 | in front of a record that runs past the end an endpoint is read, its extra records passed over and not kept |
| UsbAccepts.AltBeforeOverrun | libusb-1.0/descriptor.c:280-296 | a setting is the last of its interface there and stands as declared without endpoints |
| UsbAccepts.ListEndsAtOverrun | libusb-1.0/descriptor.c:431-449 | and the list of interfaces ends |
| FrameRing.FrameBuffer.FrameIsAvailable | Code/framebuf.cpp:488-502 | true exactly when the next request would get a frame |
| FrameRing.FrameBuffer.GetFrame | Code/framebuf.cpp:505-539 | the address handed out and how the counters move, including nothing when there is nothing |
| FrameRing.FrameBuffer.ReadFrame | Code/displayTab.cpp:2319-2339 | the consumer gets what is at that address when it copies |
| FrameRing.FrameBuffer.FetchFrame | Code/framebuf.cpp:574-590 | copying a frame into the free buffer and moving on when it is full |
| FrameRing.FrameBuffer.PublishBuffer | Code/framebuf.cpp:592-593 | counting a full buffer under the semaphore |
| FrameRing.FrameBuffer.PollForRoom | Code/framebuf.cpp:594-599 | the wait for a free buffer |
| FrameRing.FetchKeepsOrderExactly | Code/framebuf.cpp:574-590 | a copy keeps first-in-first-out exactly when it does not land on an unread, different frame |
| FrameRing.GetKeepsOrder | Code/framebuf.cpp:505-539 | a handout changes nothing in what is still to be read, nor in its order |
| FrameRing.ReadKeepsOrder | Code/displayTab.cpp:2319-2339 | the frame read is the oldest unread one |
| FrameRingRuns.FetchNeverTouchesReady | Code/framebuf.cpp:562-603 | in every interleaving the free index is populated index plus full buffers modulo N, and the fetch thread never writes a full buffer |
| FrameRingRuns.RunKeepsOrderExactly | Code/framebuf.cpp:488-603 | the order is kept at every point of an interleaving if and only if it contains no such copy |
| FrameRingRuns.FirstInFirstOut | Code/framebuf.cpp:488-603 | then the frames read are the first frames fetched, none lost or repeated |
| FrameRingRuns.RoomNeverClobbers | Code/framebuf.cpp:562-603 | it contains none when every frame is copied with two buffers still to fill or nothing unread in the current one |
| FrameRingRuns.FullBuffers | Code/framebuf.cpp:505-603 | after any run the full buffers are the whole buffers fetched less those the consumer has begun |
| FrameRingRuns.GoesOnExactly | Code/framebuf.cpp:562-603 | after any run the fetch thread, once it has counted and polled, takes the next frame if and only if those are fewer than all buffers |
| FrameRingRuns.DeliversExactly | Code/framebuf.cpp:488-539 | and the consumer gets one more frame if and only if it has read fewer than the whole buffers fetched held |
| FrameRingRuns.OrderCanBeLost | Code/framebuf.cpp:505-603 | for any number of buffers and of frames in one, some interleaving delivers a later frame in place of the first |
| SlList.SL_List.PrepareToExpand | Code/lists.h:158-164 | doubling keeps the contents and makes room |
| SlList.SL_List.Add | Code/lists.h:166-168 | appends, whatever the cursors |
| SlList.SL_List.InsertAt | Code/lists.h:170-178 | inserts in place and moves every cursor behind the place on by one |
| SlList.SL_List.RemoveAt | Code/lists.h:180-190 | removes in place and pulls every cursor behind it back by one, for an index that does not change on the way |
| SlList.SL_List.RemoveByTop | Code/lists.h:180-190 | the same for an index behind the innermost cursor, computed anew for each cursor |
| SlList.SL_List.InsertFront | Code/lists.cc:516-521 | inserts at the front |
| SlList.SL_List.InsertPlaced | Code/lists.cc:525-533 | inserts in front of the first item the placement function chooses, or at the end |
| SlList.SL_List.InsertBeforeCurrent | Code/lists.cc:609-625 | inserts in front of the item last returned |
| SlList.SL_List.RemoveCurrent | Code/lists.cc:174-187 | removes the item last returned |
| SlList.SL_List.RemovePrevious | Code/lists.cc:207-224 | removes the one before it |
| SlList.SL_List.RemoveFirst | Code/lists.cc:413-422 | removes the first item the predicate accepts |
| SlList.SL_List.RemoveLast | Code/lists.cc:505-513 | returns the last item, and compares the cursors with the index computed from the dropped count |
| SlList.RemoveLastExactly | Code/lists.cc:505-513 | which is the removal of the last item if and only if no open cursor stands right in front of it |
| SlList.RemoveLastValidExactly | Code/lists.cc:505-513 | and leaves every cursor in the list if and only if that is so or more than one item was there |
| SlList.SL_List.InitScan | Code/lists.cc:270-289 | opens a nested scan, up to four, and fails on the fifth |
| SlList.SL_List.Next | Code/lists.cc:291-297 | returns the next item or closes the scan at the end |
| SlList.SL_List.NextMatching | Code/lists.cc:299-308 | returns the next item the predicate accepts |
| SlList.SL_List.Previous | Code/lists.cc:332-340 | steps back, or returns nothing at the front |
| SlList.SL_List.ScanDone | Code/lists.cc:628-642 | closes the innermost scan |
| SlListScans.AddIsInsertAtEnd | Code/lists.h:166-178 | appending is inserting at the end, cursors included |
| SlListScans.ScanKeeps | Code/lists.h:158-208 | along any run of insertions, removals and nested scans, what a scan has returned and still has ahead keeps the spared items as they were ahead of it at the start, if and only if no removal of the last item sets it back to one of them |
| SlListScans.ScanSeesSurvivors | Code/lists.cc:270-297 | a scan run to its end returns each item present at its start and never removed as often as it was there, in order, if and only if it is not set back |
| SlListScans.InsertedItem | Code/lists.h:170-178 | an item inserted behind the cursor is never returned, and at or after it comes up exactly once, if and only if the scan is not set back to it |
| SlListScans.EndCloses | Code/lists.cc:291-297 | the end of a scan closes it and leaves the scans around it where they stood |
| SlListScans.FourScans | Code/lists.cc:270-289 | at most four are open, and a fifth is not opened |
| SlListScans.ReturnedTwice | Code/lists.cc:505-513 | a run in which a scan is set back: it returns the first of two items twice |
| SlListScans.ReturnedAgain | Code/lists.cc:505-513 | in any list of more than one item, a scan in front of the last one returns the one before it again |
| SlListScans.CursorLeavesList | Code/lists.cc:505-513 | on a list of one item a fresh scan's cursor becomes -1 |
| Recorder.StepKeepsFilesExactly | Code/displayTab.cpp:2019-2213 | files open exactly while recording and header lines equal to frames written: kept by a step if and only if it does not honour a stop in idle |
| Recorder.RunKeepsFilesExactly | Code/displayTab.cpp:1979-2213 | and all along a run if and only if none of its steps does |
| Recorder.PendingArisesExactly | Code/displayTab.cpp:2130-2150 | a stop comes to be pending in idle exactly when storage fails while a stop is pending |
| Recorder.CleanRunKeepsFiles | Code/displayTab.cpp:1979-2213 | so from the program's start the files match the recording in every run without that |
| Recorder.PendingRequestReopensRecording | Code/displayTab.cpp:2019-2034 | what that exception leads to: a calibration with no file open |
| Recorder.RunTracks | Code/displayTab.cpp:2130-2213 | frame by frame, the trace of an undisturbed recording is a prefix of its prescribed sequence with the wait counter telling where |
| Recorder.RecordingSequence | Code/displayTab.cpp:3497-3648 | an undisturbed recording is the first dark calibration, science, second dark, medium, bright and laser, then idle; the frames of each calibration are within half a frame of its own setting times the rate, and none without automatic control |
| Recorder.WaitIsNearest | Code/displayTab.cpp:3514-3517 | the wait of a calibration is the whole number nearest to seconds times rate |
| Recorder.ScienceUntilStop | Code/displayTab.cpp:2130-2213 | without a stop the recording never ends: every frame is written, the first as the dark calibration and all others as science |
| Recorder.StopReachesIdle | Code/displayTab.cpp:2130-2213 | a stop reaches idle within one frame plus the waits still due |
| Recorder.ZeroWaitNeverEnds | Code/displayTab.cpp:2155-2160 | a wait that rounds to zero never ends |
| Recorder.OnlyDataMoves | Code/displayTab.cpp:3393-3494 | buttons and space messages while recording change the two request flags or the space flag at most, each in its own states |
| Recorder.AbortEnds | Code/displayTab.cpp:2152-2154 | after an abort in any state the next data frame or quiet moment ends the recording with the files closed and no calibration |
| Recorder.StorageFailureEnds | Code/displayTab.cpp:2132-2150 | a frame that cannot be stored ends it with the files closed, and nothing is written until space is found again |
| Recorder.DisplayTab.EnterCalState | Code/displayTab.cpp:3514-3616 | entering a calibration sets its state and the wait that Recorder.WaitIsNearest is about |
| Recorder.DisplayTab.RecordButtonWork | Code/displayTab.cpp:3263-3286 | starting a recording, or nothing when the files cannot be opened |
| Recorder.DisplayTab.StopButtonWork | Code/displayTab.cpp:3393-3403 | a stop request, taken in the science state |
| Recorder.DisplayTab.AbortButtonWork | Code/displayTab.cpp:3474-3494 | an abort request, taken while recording |
| Recorder.DisplayTab.LookForImageData | Code/displayTab.cpp:1979-2213 | one turn of the data loop equals one step of the sequencer |
| Recorder.DisplayTab.AfterWrite | Code/displayTab.cpp:2130-2213 | the transition taken after a frame is written |
| Recorder.DisplayTab.EnterIdleState | Code/displayTab.cpp:3619-3648 | closing the files writes the frame count to the header |
| DarkFrame.Timeline | Code/displayTab.cpp:2073-2100 | for every number of frames since the calibration began: how many were summed, their sum, and whether the dark frame has been computed |
| DarkFrame.FitsInCalibration | Code/displayTab.cpp:3514-3528 | from 5 Hz on, settling, summing and dividing fit within the calibration's own frames |
| DarkFrame.FullRates | Code/framebuf.cpp:26-82 | the six full rates, by clock ticks a second and ticks a frame |
| DarkFrame.Fractions | Code/framebuf.cpp:26-82 | the other 36 as fractions of them |
| DarkFrame.FitsExactly | Code/framebuf.cpp:26-82 | at the program's own 42 rates they do, for any period, if and only if it is not one second of the largest image at the lowest multiplier |
| DarkFrame.DarkFrameIsMean | Code/displayTab.cpp:2073-2100 | exactly ceil(0.7 R) frames are summed without overflow; the stored value fits 16 bits, is at least the floored mean and above the mean by less than one part in 0.7 R |
| DarkFrame.DarkFrameOfRecording | Code/displayTab.cpp:2073-2160 | outside that case, while an undisturbed recording that began with a dark calibration records science data, every pixel's dark value is such a mean of the calibration's own frames |
| DarkFrame.DarkImage.ProcessFrame | Code/displayTab.cpp:2073-2100 | every pixel behind the first line takes the same step, in place |
| DarkFrame.DarkImage.EnterDarkCal | Code/displayTab.cpp:3554-3570 | counters and sums are cleared |
| Obc.CommandSafety | Code/appFrame.cpp:352-405 | over every run of calls from the assumed-bright start: lamp A never without the shutter, and what follows a bright command, or comes first, is the medium pattern or lamps low with the shutter high |
| Obc.CommandDrives | Code/framebuf.cpp:693-704 | the masked update puts exactly the commanded lines on the register |
| Obc.PxiLeavesLines | Code/framebuf.cpp:693-704 | a recorder update leaves the calibrator's lines |
| Obc.LampSafety | Code/appFrame.cpp:352-440 | the same safety for the register's own values, over every run mixing calibrator and recorder requests |
| Obc.StateDrives | Code/appFrame.cpp:352-417 | each of the seven states raises exactly its own lines, by way of the ramp when leaving bright for anything but medium, and changes no other bit |
| Obc.RequestBits | Code/appFrame.cpp:521-526 | a recorder request sets bit 8 to start and bit 9 to stop, clears the other, and changes no other bit |
| Obc.RunHolds | Code/appFrame.cpp:352-526 | after any run mixing both clients the lines are those of the last state set, the recorder's bits those of the last request, and all others as they were |
| Obc.ControlByte | Code/appFrame.cpp:414-439 | the packed control byte is the encoding of the five lines |
| Obc.AppFrame.SetOBC | Code/appFrame.cpp:352-417 | the exact register writes of one call, the ramp first when leaving bright, none without the interface |
| Obc.AppFrame.SetPXIRecord | Code/appFrame.cpp:521-526 | the recorder's one write |
| Mount.SilentRun | Code/displayTab.cpp:4033-4090 | where the handler stands after any number of polls without a reply |
| Mount.GivesUpAfterThreeTries | Code/displayTab.cpp:4033-4090 | a command is sent exactly three times, and the handler is idle and red with the 600th failed poll and not before |
| Mount.OnlyItsCommands | Code/displayTab.cpp:4033-4111 | after setMount(X) only X's commands are sent until the next |
| Mount.GreenOnlyOnStatus | Code/displayTab.cpp:4033-4090 | the light turns green if and only if some poll confirms the state asked for: a "+1" in answer to "s" on the active path, any reply to "S0" on the other |
| Mount.FirstSend | Code/displayTab.cpp:4033-4090 | each state that sends a command enters, on a successful write, the state the three-tries result starts from |
| Mount.Exchange | Code/displayTab.cpp:4005-4090 | a command written, silence for less than 600 polls, then a reply: the command has been sent once and again with every 200th poll, and the reply turns the light green or moves the handler on |
| Mount.Opens | Code/displayTab.cpp:4033-4111 | a request opens the connection with the next poll and is then about to send its own first command, or turns idle and red |
| Mount.FailedWriteTurnsRed | Code/displayTab.cpp:4005-4090 | a write that fails, the first or a repeated one, turns idle and red |
| Mount.SetMountStartsPath | Code/displayTab.cpp:4093-4111 | setMount starts the path asked for, from any state, and sends nothing itself |
| Mount.MountHandler.SetMountState | Code/displayTab.cpp:4093-4111 | the same in the fields |
| Mount.MountHandler.HandleMount | Code/displayTab.cpp:4033-4090 | one poll equals one step of the handshake |
| IpcCodec.FlipWord | IPC/ipcprims.cpp:57-68 | the bytes of a word are reversed in place and nothing else changes |
| IpcCodec.Canonize | IPC/ipcosdep.cpp:50-87 | the destination holds the canonical bytes; failing exactly when the native form is wider |
| IpcCodec.Uncanonize | IPC/ipcosdep.cpp:89-126 | the destination holds the native bytes; failing exactly when the canonical form is narrower |
| IpcCodec.CanonicalForm | IPC/ipcosdep.cpp:50-87 | whatever the host, the canonical form is the value's big-endian digits, zero-extended |
| IpcCodec.NativeForm | IPC/ipcosdep.cpp:89-126 | reading them back gives the host's own layout of the low-order bytes |
| IpcCodec.AcrossHosts | IPC/ipcosdep.cpp:50-126 | between any two hosts a scalar survives exactly when it fits the receiver's type |
| IpcChannel.ScalarWire | IPC/ipcprims.cpp:133-138 | a value is one, two, four or eight bytes by its type, the most significant first |
| IpcChannel.TextWireIs | IPC/ipcprims.cpp:188-230 | a string is its length in four bytes and its bytes, the null string four bytes of all ones, an array of strings begins with their number |
| IpcChannel.MemorySizes | IPC/ipcosdep.cpp:50-126 | only longs and pointers differ in size between hosts |
| IpcTransport.TransferExactly | IPC/ipcsock.cpp:112-189 | a full transfer moves as many bytes as are there and the schedule carries, up to n, and succeeds exactly when those are all n |
| IpcTransport.PartialExactly | IPC/ipcsock.cpp:176-182 | a read that takes what is there succeeds exactly when something is |
| IpcTransport.WSocketChan.SendBytes | IPC/ipcsock.cpp:280-365 | a prefix of the data is sent, all of it on success, through signals and partial writes |
| IpcTransport.RSocketChan.AcceptBytes | IPC/ipcsock.cpp:112-189 | the buffer gets the next bytes of the stream in order, and the byte counter moves only on success |
| IpcPrims.SendScalar | IPC/ipcprims.cpp:133-138 | the stream is extended by the value's wire form, whatever the host |
| IpcPrims.SendArray | IPC/ipcprims.cpp:139-148 | by the items' forms, one behind the other |
| IpcPrims.SendText | IPC/ipcprims.cpp:188-198 | by the length and the bytes, or by the length -1 for a null pointer |
| IpcPrims.SendStrArray | IPC/ipcprims.cpp:224-230 | by the count and the strings |
| IpcPrims.AcceptScalar | IPC/ipcprims.cpp:332-343 | reads one value of the receiver's type |
| IpcPrims.AcceptArray | IPC/ipcprims.cpp:332-355 | reads n values, alike for n = 1, and fails for n = 0 |
| IpcPrims.AcceptText | IPC/ipcprims.cpp:419-435 | reads a string or a null pointer |
| IpcPrims.AcceptStrArray | IPC/ipcprims.cpp:497-508 | reads an array of strings |
| IpcChannel.StreamRoundTrip | IPC/ipcprims.cpp:133-508 | for every run of values, every receiver and every splitting of the bytes, the matching accepts give the same values and stop right behind them, or the connection broke |
| IpcChannel.CompletesExactly | IPC/ipcprims.cpp:332-355 | over a connection that stays up the round trip completes exactly when no array is empty |
| IpcExchange.BrokenOff | IPC/ipcprims.cpp:332-508 | whatever part of the bytes gets through, the items accepted are the first of those sent |
| IpcExchange.SendItem | IPC/ipcprims.cpp:133-230 | a send of any type extends the stream by its wire form |
| IpcExchange.SendItems | IPC/ipcprims.cpp:133-230 | a run of sends, given up at the first that fails, sends a prefix of the run's bytes, all of them on success |
| IpcExchange.AcceptItems | IPC/ipcprims.cpp:332-508 | a run of accepts gets what the reader function says |
| IpcExchange.Exchange | IPC/ipcprims.cpp:133-508 | one host sends, another accepts, over any two schedules: it gets the first items, and over connections that stay up all of them exactly when no array is empty |
| IpcTermString.DelimitsExactly | IPC/ipcprims.cpp:204-216 | a terminator ends every string not containing it, and no sooner, exactly when none of its proper prefixes is its suffix |
| IpcTermString.ReadTermExactly | IPC/ipcprims.cpp:466-484 | on a connection that stays up the accept succeeds exactly when the first terminator ends within 1023 bytes, returns what stands before it up to a zero byte, and consumes exactly through it |
| IpcTermString.TermRoundTripExactly | IPC/ipcprims.cpp:204-216 | a string comes back exactly when its own terminator is the first, both fit, and it holds no zero byte |
| IpcTermString.TermsRoundTrip | IPC/ipcprims.cpp:448-484 | whole runs of such strings come back, however the bytes are split |
| IpcTermString.SendTermString | IPC/ipcprims.cpp:204-216 | string and terminator are sent as one, each up to its first zero byte; a null string fails and sends nothing |
| IpcTermString.AcceptTermString | IPC/ipcprims.cpp:448-484 | the byte-by-byte loop with its bounded buffer does what the reader function says |
| SettingsText.MatchesOwnLine | Code/settingsBlock.cpp:1668-1681 | a line matches a key exactly when it is the key's own, though keys be prefixes of one another and values contain the delimiter |
| SettingsText.LookupLine | Code/settingsBlock.cpp:1657-1697 | a whole line in a file is found or passed over |
| SettingsText.StrtolOfDecimal | Code/settingsBlock.cpp:1473-1505 | a number an int can hold reads back as it was written, with nothing behind it |
| SettingsKeys.FieldsApart | Code/settingsBlock.cpp:212-315 | no two of the 52 settings share a key |
| SettingsStore.SettingsRoundTrip | Code/settingsBlock.cpp:212-403 | for any table of fields: in-range, newline-free settings with lines that fit are restored by a load, whatever was set before, the first-time flag cleared |
| SettingsStore.AnyFileInRange | Code/settingsBlock.cpp:212-320 | loading any file at all over the defaults leaves every number in bounds and every choice in its table, bands within the frame height just loaded |
| SettingsLoad.FoundFirst | Code/settingsBlock.cpp:1657-1697 | in a file of lines that fit the buffer, a key's value is what stands behind "key = " on the first line that begins so |
| SettingsLoad.LookupPiece | Code/settingsBlock.cpp:1657-1697 | a longer line is taken in pieces of 256 characters, each compared like a line |
| SettingsLoad.StrtolReads | Code/settingsBlock.cpp:1479-1484 | blanks, a sign and a decimal, octal or hexadecimal numeral, in either case, are read with their value, up to what follows |
| SettingsLoad.NumberLoads | Code/settingsBlock.cpp:1473-1505 | loading a line "key = number" sets the key to the number if within bounds, else to the bound no value in bounds is closer than; bands by the frame height just loaded |
| SettingsLoad.NearestExactly | Code/settingsBlock.cpp:1479-1501 | for numbers of any size that is so if and only if an int holds the number or its low 32 bits lie beyond the same bound |
| SettingsLoad.TooLargeInput | Code/settingsBlock.cpp:1479-1501 | an input that fails: 2^32, for bounds 1 to 65535, is loaded as 1 |
| SettingsLoad.UnclearStays | Code/settingsBlock.cpp:1480-1497 | a number with something behind it leaves the setting as it was |
| SettingsLoad.NoNumberStays | Code/settingsBlock.cpp:1479-1497 | so does a text without a number, but an empty one counts as 0 |
| SettingsLoad.MissingStays | Code/settingsBlock.cpp:1473-1505 | so does a missing key |
| SettingsLoad.TextLoads | Code/settingsBlock.cpp:1537-1581 | a choice becomes the table entry equal to the text, or the first of all, and a string the text itself |
| SettingsLoad.HeightsNamed | Code/settingsBlock.cpp:38-43 | each choice of frame height names its own number of lines |
| SettingsFile.TableWellFormed | Code/settingsBlock.cpp:212-403 | the program's fields make such a table: keys apart, bounds in order, the frame height ahead of the bands |
| SettingsFile.ProgramRoundTrip | Code/settingsBlock.cpp:212-403 | what one settings block saved, another loads |
| SettingsFile.SettingsBlock.SaveSettings | Code/settingsBlock.cpp:323-403 | the file written is the one the round trip is about |
| SettingsFile.SettingsBlock.LoadSettings | Code/settingsBlock.cpp:212-320 | loading reads every key from the whole file in order, and does nothing without a file |
| SettingsFile.SettingsBlock.GetValue | Code/settingsBlock.cpp:1657-1697 | the value on the first line of the key, line by line from the start of the file |
| SettingsFile.SettingsBlock.GetIntValue | Code/settingsBlock.cpp:1473-1505 | the value kept within its bounds as SettingsLoad.NearestExactly says, or no change when something follows it |
| SettingsFile.SettingsBlock.StringToIndex | Code/settingsBlock.cpp:1555-1581 | the first equal entry, or the first of all |
| SettingsMru.InsertInMRU | Code/settingsBlock.cpp:1602-1654 | the chosen name in front, the others behind it in order, blanks at the end |
| SettingsMru.InsertRemembers | Code/settingsBlock.cpp:1602-1654 | the list is always the four most recent different choices, newest first |
| Render.StretchMonotone | Code/displayTab.cpp:1694-1704 | the stretch never decreases, whatever its bounds |
| Render.StretchIs | Code/displayTab.cpp:1694-1704 | black below min, white from max on and above the largest word, and in between the level in proportion to within one step |
| Render.BrightenedIs | Code/displayTab.cpp:1705-1721 | a gained level is the whole number nearest to gain times the level, at most 255 |
| Render.ShadeIs | Code/displayTab.cpp:2771-2800 | subtracting the dark frame takes out what it added, and never goes below zero |
| Render.ShownMeans | Code/displayTab.cpp:2771-2800 | pixel c of screen row r shows word incr * c of line 1 + incr * r in its three bytes |
| Render.RowsAre | Code/displayTab.cpp:2771-2800 | a row is shown for every line below the first, or every second one |
| Render.TablesMonotone | Code/displayTab.cpp:1687-1721 | all three tables are non-decreasing over every word a pixel can hold |
| Render.DisplayTab.UpdateStretch | Code/displayTab.cpp:1687-1721 | each table's every entry, for equal and reversed bounds too |
| Render.DisplayTab.DisplayCurrentFrame | Code/displayTab.cpp:2771-2800 | each shown pixel is the table's entry for the image word of its line and column, less the dark frame when enabled and never below zero; everything else of the screen buffer is untouched |
| Plot.ShowsTheLast | Code/plotting.cpp:241-286 | after any run of points and resets a curve shows the last of its values since the reset, at most 300, in order |
| Plot.HeightIs | Code/plotting.cpp:241-256 | a value is plotted at its height in proportion, without the fraction, or at the edge it lies beyond |
| Plot.HigherIsLarger | Code/plotting.cpp:241-256 | a larger value is plotted no lower; min and below at 220, max and above at 20 |
| Plot.PlotDisplay.AddPoint | Code/plotting.cpp:241-269 | every curve gains its clamped value, the oldest going when full, columns numbered from the margin, one counter for all |
| Plot.PlotDisplay.Reset | Code/plotting.cpp:284-286 | empties every curve |

## Left out

- User interface, logging, dialogs, indicator lights, navigation plots and their skip counter, CSV and log printing.
- Alpha Data, Maxon, AIOUSB and serial devices, the password cipher and libtomcrypt: foreign calls, or parameters.
- Sleeps and timeouts: a timeout is one way a transfer fails; the 60 ms lamp ramp and the 10 ms ring poll are steps without duration.
- GpsStream.DeliveriesAreSlices: assumes that no frame's word count is itself 3500 or 3501; the recorder rejects counts above 300.
- GpsSimulator.Simulator.AddToFrame: navigation data are a parameter, the real-valued flight simulation behind them is not modelled beyond what it shows before navigation, and the frame counter does not wrap.
- GPS initialisation command and the handling of messages by the display.
- UsbParser.ParseDescriptor: results are values, so alignment and padding of the C structs are not modelled; the program's formats contain no other letters than b and w.
- Memory-allocation failure in the descriptor parser; recursive cleanup after an error.
- FrameRing: the failed flag, the shutdown of the threads and the camera's dropped-frame count; each critical section is one atomic step.
- FrameRing.FrameBuffer.FetchFrame: a frame is copied in one step, and read in one step by ReadFrame, so a frame overwritten while it is being read counts as the old or the new one, never a mixture. Either way the copy lands on an unread frame.
- GpsComposition.SimulatedMessagesHeard: the images' own GPS areas are empty, as the simulated images' are; a frame without queued words leaves its image's area alone, so a camera image's words would be read.
- GpsComposition.FastSimulationHeard: the same.
- GpsRates.HeardFromExactly: the same.
- GpsRates.HeardExactly: the same.
- SL_List: watches, clear, the add_replace and find families and the variants with extra callback arguments or traces. The scan theorems are about next without a predicate and do not cover previous; a run with a cursor outside the list is not followed further.
- SlList.SL_List.NextMatching: the calling loop's predicate is pure.
- Recorder.DisplayTab.AbortButtonWork: the confirmation dialog.
- Recorder.DisplayTab.EnterCalState: the same routines start the dark frame, modelled in DarkFrame, and command the calibrator, modelled in Obc.
- Recorder.DisplayTab.EnterIdleState: removing the files after an abort, and the requests to the recorder and the mount.
- Recorder: disk-space arithmetic, GPS and PPS files, and the Medium-to-Bright lamp commands, which are in Obc; every button press and every frame is one atomic step, and the configuration stays fixed during a recording.
- DarkFrame.DarkFrameIsMean: rates and the division are real, not floating point.
- Obc.AppFrame.SetOBC: the state letter sent to the camera and the error message for an unknown state.
- IPC over UDP, buffered and traced variants, redirection of standard output, and exit on a fatal communication error, which is a failure here.
- IpcPrims.AcceptText: a received length below -1 makes the program write outside its buffer; here it is read as the unsigned length it is passed on as. No sender produces one.
- IpcPrims.AcceptArray: partial reads of items (read_everything off) are modelled for bytes only, and array sizes do not wrap at 32 bits.
- IpcExchange.SendItems: the run of sends, and that of accepts, stand for a client's calls one after the other; the library has no such routine.
- IpcTermString.AcceptTermString: the branch for UDP datagrams.
- SettingsFile.SettingsBlock.GetValue: a matching line longer than the buffer has no newline to stop at, and the program then copies beyond it; here the value ends with the buffer. The round trip is about lines that fit.
- SettingsStore.SettingsRoundTrip: gains and the password are carried along but not restored, since their text forms are not modelled.
- SettingsMru.InsertInMRU: names are strings of any length, and the comparison one slot behind the last, whose outcome the program ignores, is not made.
- Render.DisplayTab.DisplayCurrentFrame: the width is even when every second pixel is shown, as both widths of the program are; the waterfall display is not modelled.
- Plot.PlotDisplay.AddPoint: values are reals and the plot's range is not empty.
