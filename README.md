# NVDA testing driver, modelled in Dafny

This project models the core of the NVDA testing driver. The driver is a C# library that lets
automated UI tests listen to the NVDA screen reader. It starts a portable NVDA, connects to the
NVDA Remote add-on over TLS, sends key presses as JSON frames, and gathers what NVDA says from
the `speak` and `cancel` messages it receives. The model covers:

- **Protocol and driver** (`protocol.dfy`, `driver.dfy`, `polling.dfy`, `wire.dfy`).
  - The state of an `NvdaDriver` is a `Protocol.Session` value: the TCP client, the streams,
    the token source, the reader, the NVDA process, the log of written frames, a scripted list
    of connection attempts and a logical clock in milliseconds.
  - Each operation is a function of that state.
  - The class `Driver.NvdaDriver` holds the same fields and changes them step by step, with the
    source's loops. Each method is proved equal to its function.
  - Inbound traffic is a script of `(time, frame, parsed JSON)` arrivals. The reader parses
    every frame that is due whenever the clock moves.
- **Disposal gate** (`disposal.dfy`): `TrackingDisposer` and `TrackingDisposable`, with each
  `lock` section as one atomic method.
- **Commands and keys** (`commands.dfy`, `keys.dfy`): the command and combination classes and
  their description helpers.
- **Test assertion helpers** (`testhelper.dfy`, over the string primitives in `text.dfy`).
- **Options** (`settings.dfy`): the defaults, the language codes and their equality, and the
  `nvda.ini` document the options writer builds.

Every driver operation takes a `Protocol.Variant`:

- `AsWritten` follows the code line by line, including the defects listed under
  "## Findings".
- `Corrected` follows what the code evidently intends at those places and is the same
  everywhere else.
- `Driver.NvdaDriver` fixes its variant in a constant when it is constructed, and each of its
  methods is proved equal to the function of that variant.
- The laws about the operations state both behaviours side by side.

Where the code and its documentation disagree elsewhere, both variants follow the code:

- A "cancel" object nested in a `speak` sequence is not a cancel. `ParseSpeak` only tests the
  token itself for `type == "cancel"`.
- A frame that is not JSON, or has no `type`, is not dropped. The parse throws, the reader task
  faults, and `DisconnectAsync` rethrows when it awaits the reader.
- The speech window is 300 ms (NvdaDriver.cs:939).

## Model

| member | source | states |
|---|---|---|
| Keys.KeyCombination.constructor | src/NvdaTestingDriver/KeyCombination.cs:26-29 | a new combination holds no key |
| Keys.KeyCombination.FromKeys | src/NvdaTestingDriver/KeyCombination.cs:35-39 | the combination holds exactly the given keys, in order (what enumeration yields) |
| Keys.KeyCombination.Add | src/NvdaTestingDriver/KeyCombination.cs:45 | the key is appended at the end; earlier keys are unchanged |
| Keys.DescriptionOfShort | src/NvdaTestingDriver/Extensions/KeyCombinationExtensions.cs:18-21 | an empty combination is described as ""; a one-key combination by the key's bare name, with no "+" |
| Keys.DescriptionSplits | src/NvdaTestingDriver/Extensions/KeyCombinationExtensions.cs:18-21 | splitting the description at "+" gives back the key names in order, when no name holds "+" |
| Keys.DescriptionOfAdd | src/NvdaTestingDriver/Extensions/KeyCombinationExtensions.cs:20 | adding a key appends "+" and its name to the description |
| Commands.NvdaCommand.Named | src/NvdaTestingDriver/Commands/NvdaCommand.cs:26-29 | both sets are exactly `[desktop]`, and Name is the given name |
| Commands.NvdaCommand.constructor | src/NvdaTestingDriver/Commands/NvdaCommand.cs:37-50 | the desktop set is `[desktop]`; the laptop set is `[laptop]` when one is given and `[desktop]` otherwise; Name is the given one |
| Commands.NvdaCommand.FromSets | src/NvdaTestingDriver/Commands/NvdaCommand.cs:57-68 | the desktop list is copied in order; the laptop set is the laptop list when given, the desktop list otherwise; Name stays null |
| Commands.NvdaCommand.SetName | src/NvdaTestingDriver/Commands/NvdaCommand.cs:92 | only Name changes |
| Commands.MakeQuitNvda | src/NvdaTestingDriver/Commands/NvdaCommands/BasicCommands.cs:24 | QuitNvda is the single combination Nvda+Q, in both sets, named "QuitNvda" |
| Commands.CombinationDescAppend | src/NvdaTestingDriver/Extensions/NvdaCommandExtensions.cs:42-45 | one more combination adds ", (desc)" at the end of the list's description |
| Commands.DescriptionCases | src/NvdaTestingDriver/Extensions/NvdaCommandExtensions.cs:19-35 | it fails with ArgumentNull exactly for a null command, or an unnamed one with a null desktop set; a non-blank name is returned unchanged; otherwise the text starts "Unknown name." + NewLine + "Desktop combinations: ", and it ends in "." exactly when there is no laptop ("Lactop") part |
| Text.Trim | src/NvdaTestingDriver/NvdaDriver.cs:688 | no trimmed character is left at either end; the result is a contiguous part of the input; an input already trimmed is unchanged |
| Text.CollapseIsCollapsed | src/NvdaTestingDriver/NvdaDriver.cs:689 | after replacing `\s+` with " ", every white-space character is a single space with no white space after it |
| Text.CollapseKeepsNonWhite | src/NvdaTestingDriver/NvdaTestHelper.cs:50 | the replacement keeps every other character, in order |
| Text.CollapseOfCollapsed | src/NvdaTestingDriver/NvdaTestHelper.cs:50 | a text already collapsed is left unchanged |
| Text.JoinAppend | src/NvdaTestingDriver/Extensions/KeyCombinationExtensions.cs:20 | joining one more part appends the separator and the part |
| Text.SplitJoin | src/NvdaTestingDriver/Extensions/KeyCombinationExtensions.cs:20 | splitting a join at its separator gives back the parts, when no part holds the separator |
| Text.IndexOfSpec | src/NvdaTestingDriver/Extensions/StringExtensions.cs:29 | IndexOf returns the first index where the value occurs under the comparison, and -1 exactly when it does not occur |
| Text.IntTextRoundTrip | src/NvdaTestingDriver/Settings/NvdaDriverOptionsWriter.cs:108-109 | an integer written as text reads back as the same integer |
| TestHelper.ContainsSpec | src/NvdaTestingDriver/Extensions/StringExtensions.cs:27-29 | Contains holds exactly when the value occurs in the text; the empty value is always contained; any match makes it true |
| TestHelper.ContainsIgnoresCase | src/NvdaTestingDriver/Extensions/StringExtensions.cs:29 | under OrdinalIgnoreCase, upper-casing either side does not change the answer |
| TestHelper.NormalizeLaws | src/NvdaTestingDriver/NvdaTestHelper.cs:47-59 | after the white-space step each run is one space and neither end is white space; no CR or LF is left; normalising never makes a text longer |
| TestHelper.NormalizePlain | src/NvdaTestingDriver/NvdaTestHelper.cs:47-59 | a text that is already one-line, collapsed and trimmed only has its hyphens replaced |
| TestHelper.HyphenJoinsSpaces | src/NvdaTestingDriver/NvdaTestHelper.cs:50-57 | the hyphen step runs after the white-space step, so "x - y" normalises to three spaces between x and y |
| TestHelper.HyphenAtEdges | src/NvdaTestingDriver/NvdaTestHelper.cs:51-57 | trimming runs before the hyphen step, so "-x" gives " x" and "x-" gives "x " |
| TestHelper.TextContainsReflexive | src/NvdaTestingDriver/NvdaTestHelper.cs:33-39 | TextContains(t, t) and TextContains(t, "") hold for every t |
| TestHelper.SameNormalForm | src/NvdaTestingDriver/NvdaTestHelper.cs:33-39 | texts that normalise alike contain each other |
| TestHelper.CollapseAppend | src/NvdaTestingDriver/NvdaTestHelper.cs:50 | the white-space replacement works piece by piece when the first piece ends in a character that is not white space |
| TestHelper.SpreadOfSpaced | src/NvdaTestingDriver/NvdaTestHelper.cs:49-50 | the line-break and white-space steps leave visible ASCII text with single inner spaces as it is |
| TestHelper.SpreadGap | src/NvdaTestingDriver/NvdaTestHelper.cs:49-50 | after such a text, a run of white space before a non-white character, or at the end, becomes exactly one space |
| TestHelper.HyphenatedHeading | src/NvdaTestingDriver/NvdaTestHelper.cs:33-59 | a reading with single spaces contains an expected text with doubled spaces when their pieces agree once hyphens become spaces |
| TestHelper.ContactHeadingMatches | src/samples/AccessibleDemo.Core.Tests/ContactShould.cs:30 | the contact page's check holds: NVDA's reading "Contact by e mail collapsed link heading level 3" contains "Contact by e-mail collapsed  link heading  level 3" |
| TestHelper.NormalizeUpper | src/NvdaTestingDriver/NvdaTestHelper.cs:47-59 | normalising and upper-casing commute |
| TestHelper.TextContainsIgnoresCase | src/NvdaTestingDriver/NvdaTestHelper.cs:33-39 | texts that upper-case alike give the same TextContains answer |
| Wire.KeyFrameIsJoin | src/NvdaTestingDriver/NvdaDriver.cs:699-703 | a key frame is its five fields joined by commas, in the order scan_code, extended, vk_code, pressed, type |
| Wire.KeyFrameFieldsHaveNoComma | src/NvdaTestingDriver/NvdaDriver.cs:699-703 | no field of a key frame holds a comma |
| Wire.KeyFrameRoundTrip | src/NvdaTestingDriver/NvdaDriver.cs:699-703 | decoding a key frame gives back the scan code, the extended flag, the virtual-key code and the pressed flag, with the booleans as lowercase true/false |
| Wire.Terminate | src/NvdaTestingDriver/NvdaDriver.cs:572-575 | the written message ends in "\n", starts with the message, and is at most one character longer |
| Wire.TerminateLaws | src/NvdaTestingDriver/NvdaDriver.cs:572-575 | a message that already ends in "\n" is unchanged, any other gets exactly one "\n"; terminating is idempotent |
| Wire.HandshakeFrames | src/NvdaTestingDriver/NvdaDriver.cs:45-47 | the protocol-version message gets a line feed; the join message already has one and gets none |
| Wire.ParseSpeak | src/NvdaTestingDriver/NvdaDriver.cs:652-679 | the method with its StringBuilder loop gives the event the specification function `SpeakEvent` gives |
| Wire.CollectSpeech | src/NvdaTestingDriver/NvdaDriver.cs:665-672 | the loop appends each sanitized string element and a line break, skipping other elements |
| Wire.ParseMessage | src/NvdaTestingDriver/NvdaDriver.cs:623-646 | the method gives the event `MessageEvent` gives |
| Wire.SpeakTextEmpty | src/NvdaTestingDriver/NvdaDriver.cs:665-678 | the collected text is empty exactly when the sequence has no string element, so then no speak event is raised |
| Wire.MessageEventCancel | src/NvdaTestingDriver/NvdaDriver.cs:623-663 | a frame raises the cancel event exactly when it is a non-blank object whose type is "cancel" |
| Wire.MessageEventSpoken | src/NvdaTestingDriver/NvdaDriver.cs:623-679 | a frame raises a speak event exactly when its type is "speak" and its "sequence" array holds a string element |
| Wire.MessageEventErrors | src/NvdaTestingDriver/NvdaDriver.cs:625-631 | a blank frame raises nothing; a frame that is not a JSON object throws JsonReader; an object without "type" throws ArgumentNull |
| Wire.UrlRoundTrip | src/NvdaTestingDriver/NvdaDriver.cs:690 | URL-decoding undoes form encoding (spaces as "+", "%hh" escapes) |
| Wire.UrlDecodePlain | src/NvdaTestingDriver/NvdaDriver.cs:690 | a text with no "+" or "%" is not changed by URL-decoding |
| Wire.SanitizeOfEncoded | src/NvdaTestingDriver/NvdaDriver.cs:686-691 | sanitizing a form-encoded text whose only white space is spaces gives the text back |
| Wire.SanitizeOfRaw | src/NvdaTestingDriver/NvdaDriver.cs:686-691 | sanitizing a text without escapes leaves it collapsed and keeps its non-white characters in order |
| Wire.SpeakRoundTrip | src/NvdaTestingDriver/NvdaDriver.cs:639-678 | a speak message of encoded texts decodes to one speak event holding each text followed by a line break |
| Wire.SpeakMessageParses | src/NvdaTestingDriver/NvdaDriver.cs:637-641 | a speak message is decoded from its "sequence" alone |
| Wire.FramingRoundTrip | src/NvdaTestingDriver/NvdaDriver.cs:591-611 | a message whose length is not a multiple of 1024 is read back exactly, leaving the following reads alone |
| Wire.FramingGlue | src/NvdaTestingDriver/NvdaDriver.cs:591-611 | a message of exactly 1024 characters is glued to the next one, because the reader only stops after a short read |
| Polling.ListenJoins | src/NvdaTestingDriver/NvdaDriver.cs:947-959 | the speech handler keeps the non-blank messages joined by line breaks, and its first time is that of the first non-blank message |
| Polling.PumpLaws | src/NvdaTestingDriver/NvdaDriver.cs:585-617 | the reader consumes a prefix of the inbound script, only frames that are due, and leaves nothing due unread; a stopped reader reads nothing |
| Polling.PumpWellFormed | src/NvdaTestingDriver/NvdaDriver.cs:947-959 | the handler's text is empty exactly while it has no first-message time, whatever it hears |
| Polling.SpeechWaitExit | src/NvdaTestingDriver/NvdaDriver.cs:969-974 | the wait moves in whole 100 ms steps; it stops once the window after the first message has passed or the timeout has elapsed; it never runs a full step past the timeout; with nothing collected it only stops at the timeout |
| Polling.SilentSpeechWait | src/NvdaTestingDriver/NvdaDriver.cs:969-974 | with no reader running the wait ends exactly at the timeout |
| Polling.SpeechResult | src/NvdaTestingDriver/NvdaDriver.cs:976-984 | corrected verdict: the collected text, or Timeout exactly when nothing was collected |
| Polling.SpeechResultsDiffer | src/NvdaTestingDriver/NvdaDriver.cs:977 | the written and the intended verdicts differ only on an empty text at exactly the timeout |
| Polling.EmptyMessageAtTimeout | src/NvdaTestingDriver/NvdaDriver.cs:969-981 | with the 3 s default and no speech, the code returns "" instead of Timeout |
| Polling.StopWaitExit | src/NvdaTestingDriver/NvdaDriver.cs:1048-1052 | the stop wait ends once a cancel is heard or the timeout has elapsed, in whole 100 ms steps, less than one step past the timeout |
| Polling.SilentStopWait | src/NvdaTestingDriver/NvdaDriver.cs:1048-1052 | with no cancel coming, the stop wait ends at exactly the timeout when the timeout is a whole number of 100 ms steps |
| Polling.StopResult | src/NvdaTestingDriver/NvdaDriver.cs:1054-1057 | corrected verdict: Timeout exactly when no cancel was heard |
| Polling.CancelFrameEvent | src/NvdaTestingDriver/NvdaDriver.cs:642-663 | NVDA Remote's cancel message raises the cancel event |
| Polling.LateCancelTimesOut | src/NvdaTestingDriver/NvdaDriver.cs:1048-1057 | with a 450 ms timeout and a cancel at 420 ms, the code reports Timeout although the cancel was heard |
| Polling.SocketLoopLaws | src/NvdaTestingDriver/NvdaDriver.cs:533-563 | the retry loop uses a prefix of the attempts; it connects only on the first successful attempt, after sleeping 500 ms per failure; it fails only with a socket error once more than the timeout has elapsed |
| Protocol.CheckConnectivity | src/NvdaTestingDriver/NvdaDriver.cs:518-524 | passes exactly when the TCP client is connected, the network stream exists and the TLS stream is writable; otherwise NotConnected |
| Protocol.CheckConnectivityDiffers | src/NvdaTestingDriver/NvdaDriver.cs:520 | the written check differs from the intended one exactly when there is no TCP client, where it throws NullReference |
| Protocol.Check | src/NvdaTestingDriver/NvdaDriver.cs:518-524 | in either variant the check passes exactly when the TCP client is connected, the network stream exists and the TLS stream is writable; as written a driver with no TCP client throws NullReference and any other unconnected one NotConnected; corrected, always NotConnected |
| Protocol.FreshDriverDereferencesNull | src/NvdaTestingDriver/NvdaDriver.cs:518-524 | a driver fresh from its constructor fails the written check with NullReference, and so does SendKeysAsync on it; the corrected check and SendKeysAsync give NotConnected |
| Protocol.Render | src/NvdaTestingDriver/NvdaDriver.cs:570-580 | every message written to the TLS stream ends in "\n" |
| Protocol.FrameDecodes | src/NvdaTestingDriver/NvdaDriver.cs:699-703 | a written key frame is the JSON object plus one line feed, and it decodes to the key's codes and the pressed flag |
| Protocol.KeyFrames | src/NvdaTestingDriver/NvdaDriver.cs:805-815 | one frame per key, in the given order, all with the same pressed flag |
| Protocol.Reversed | src/NvdaTestingDriver/NvdaDriver.cs:811 | `keys.Reverse()` enumerates the keys last to first |
| Protocol.PressOrder | src/NvdaTestingDriver/NvdaDriver.cs:801-816 | a combination of n keys is 2n frames: frame i presses key i, and frame 2n-1-i releases key i |
| Protocol.SendAllLaws | src/NvdaTestingDriver/NvdaDriver.cs:788-794 | in either variant, sending combinations writes all their frames in order exactly when the driver is connected (or there is nothing to send); otherwise it throws the check's exception and writes nothing: NullReference as written for a driver that never connected, NotConnected in every other case |
| Protocol.SendAllStops | src/NvdaTestingDriver/NvdaDriver.cs:788-794 | after the first exception nothing more is sent |
| Protocol.SequenceFrames | src/NvdaTestingDriver/NvdaDriver.cs:992-1000 | a key sequence presses and releases each key before the next one |
| Protocol.NonEmpty | src/NvdaTestingDriver/NvdaDriver.cs:777 | the filtered set holds only combinations with a key, and is no longer than the set |
| Protocol.NonEmptyAppend | src/NvdaTestingDriver/NvdaDriver.cs:777 | filtering a concatenation filters each part |
| Protocol.NonEmptyFrames | src/NvdaTestingDriver/NvdaDriver.cs:775-781 | skipping empty combinations changes nothing written |
| Protocol.CombinationSetSkipsEmpty | src/NvdaTestingDriver/NvdaDriver.cs:775-794 | in either variant, on a connected driver a combination set and the same combinations sent one by one are equal; a set of empty combinations sends nothing and passes even when not connected, where SendKeyCombinations throws the check's exception (NullReference as written for a driver that never connected) |
| Protocol.GetKeyCombinationSet | src/NvdaTestingDriver/NvdaDriver.cs:716-737 | corrected selection: a null command throws ArgumentNull; otherwise the set chosen by the layout is returned unchanged exactly when it exists and holds a key, and InvalidCommand is thrown otherwise |
| Protocol.CombinationSetSelections | src/NvdaTestingDriver/NvdaDriver.cs:723-736 | whenever the written selection succeeds, the intended one returns the same set; in the desktop layout the two agree on every command |
| Protocol.Select | src/NvdaTestingDriver/NvdaDriver.cs:716-737 | a null command throws ArgumentNull in both variants; an accepted set is the one the layout chooses and holds a key; corrected, as `GetKeyCombinationSet`; as written, a command is accepted exactly when the corrected selection accepts it and its desktop set exists and is not empty |
| Protocol.LaptopOnlyCommandRefused | src/NvdaTestingDriver/NvdaDriver.cs:726 | in the laptop layout a command with an empty desktop set and the laptop set Nvda+Q is refused with InvalidCommand by the code, so SendCommandAsync writes nothing; the corrected selection returns Nvda+Q and SendCommandAsync sends it |
| Protocol.SendCommandLaws | src/NvdaTestingDriver/NvdaDriver.cs:290-301 | in either variant, a command the selection refuses reports its own error, never ObjectDisposed, even on a disposed driver, and writes nothing; an accepted one on a connected driver writes the frames of the set the selection returned |
| Protocol.QuitNvdaFrames | src/NvdaTestingDriver/NvdaDriver.cs:1066-1069 | in either variant and layout, QuitNvda is described by its name, selected as the single combination Nvda+Q, and sent as Nvda down, Q down, Q up, Nvda up |
| Protocol.ConnectLaws | src/NvdaTestingDriver/NvdaDriver.cs:837-870 | a connected driver throws AlreadyConnected and changes nothing; otherwise nvda.ini holds the options and the connection either fails with a socket error after more than 10 s, writing nothing, or leaves the driver connected with exactly the protocol_version frame and then the join frame written |
| Protocol.PumpKeepsNobody | src/NvdaTestingDriver/NvdaDriver.cs:865-867 | the reader started by ConnectAsync delivers to nobody until a wait subscribes |
| Protocol.DisconnectBeforeConnect | src/NvdaTestingDriver/NvdaDriver.cs:884-885 | in either variant, disconnecting a driver that never connected throws NullReference from the null token source and changes nothing |
| Protocol.DisconnectLaws | src/NvdaTestingDriver/NvdaDriver.cs:876-906 | in either variant, disconnecting a connected driver sends Nvda+Q (down, down, up, up), stops the reader, kills NVDA and leaves it disconnected; a second disconnect throws ObjectDisposed from the disposed token source |
| Protocol.StopVerdict | src/NvdaTestingDriver/NvdaDriver.cs:1054-1057 | the stop fails only with Timeout: as written exactly when the elapsed time is past the timeout, whether a cancel was heard or not; corrected, exactly when no cancel was heard |
| Protocol.StopReadingLaws | src/NvdaTestingDriver/NvdaDriver.cs:1029-1060 | afterwards no handler of this call is left to hear anything (the code unsubscribes on the normal path, and the handler it leaks on the failure paths only writes a dead local); a driver that is not connected throws the check's exception (NullReference as written when it never connected) and writes nothing; a connected one sends Control down and up once and waits until a cancel is heard or the timeout has elapsed, less than one step past it; the only failure is Timeout: as written exactly when the elapsed time at exit is past the timeout, cancel or no cancel; corrected, exactly when no cancel was heard |
| Protocol.SilentStop | src/NvdaTestingDriver/NvdaDriver.cs:1048-1057 | with no NVDA traffic and the 500 ms default, the written stop waits exactly 500 ms and passes, because 500 is not past 500; the corrected stop fails with Timeout |
| Protocol.SpeechVerdict | src/NvdaTestingDriver/NvdaDriver.cs:976-984 | the verdict is the collected text or Timeout, and Timeout only with nothing collected: as written exactly when nothing was collected and the elapsed time is past the timeout; corrected, exactly when nothing was collected |
| Protocol.GetNextSpokenLaws | src/NvdaTestingDriver/NvdaDriver.cs:928-985 | a wait without an action writes nothing, unsubscribes, never runs a full step past the timeout, and returns what the handler heard; with nothing heard it has waited at least the timeout; the only failure is Timeout: as written exactly when nothing was heard and the elapsed time is past the timeout, so "" comes back when the wait ends at exactly the timeout; corrected, exactly when nothing was heard |
| Protocol.SilentWait | src/NvdaTestingDriver/NvdaDriver.cs:969-981 | with no speech and the defaults the written wait returns "" after exactly 3 s, and the corrected one fails with Timeout |
| Protocol.SpokenAfterKeysFrames | src/NvdaTestingDriver/NvdaDriver.cs:823-830 | in either variant, SendKeysAndGetSpokenText writes Control down and up first, then, when the stop passed, the keys' own frames |
| Protocol.SilentComposition | src/NvdaTestingDriver/NvdaDriver.cs:744-768 | with no NVDA traffic, the written SendKeysAndGetSpokenText passes its silent stop, sends Control and then the keys, and returns ""; the corrected one fails the stop with Timeout, having written only Control |
| Protocol.DisposeLeavesConnected | src/NvdaTestingDriver/NvdaDriver.cs:340-351 | as written Dispose throws ArgumentNull and leaves a connected driver connected and not disposed, on every call; with a logger handed to the disposer it marks the driver disposed but still leaves it connected with nothing written, and a second Dispose changes nothing; the corrected Dispose passes, quits NVDA and disconnects, is idempotent, and the disposed driver refuses to connect |
| Protocol.DisposeThroughGate | src/NvdaTestingDriver/TrackingDisposer.cs:169-192 | without a logger the gate's Dispose throws ArgumentNull and changes nothing, so calls are still tracked, and the written NvdaDriver Dispose fails the same way; with a logger and nothing pending it marks the gate disposed and runs the finaliser once, whose DisconnectAsync the same gate refuses, so the driver is only marked disposed |
| Driver.NvdaDriver.constructor | src/NvdaTestingDriver/NvdaDriver.cs:86-92 | a new driver keeps the given variant and options, has every connection field null, and has written nothing |
| Driver.NvdaDriver.WriteMessage | src/NvdaTestingDriver/NvdaDriver.cs:570-580 | the message is appended to the written log; nothing else changes |
| Driver.NvdaDriver.SendKeysInternal | src/NvdaTestingDriver/NvdaDriver.cs:801-816 | result and new state are those of `Protocol.SendKeys` for the driver's variant (as written NullReference on a driver that never connected) |
| Driver.NvdaDriver.PressDown | src/NvdaTestingDriver/NvdaDriver.cs:805-809 | the loop writes one key-down frame per key, in order |
| Driver.NvdaDriver.Release | src/NvdaTestingDriver/NvdaDriver.cs:811-815 | the loop writes one key-up frame per key, last key first |
| Driver.NvdaDriver.SendKeys | src/NvdaTestingDriver/NvdaDriver.cs:257-266 | result and new state are those of `Protocol.SendKeys` for the driver's variant (as written NullReference on a driver that never connected), including the refusal once disposed |
| Driver.NvdaDriver.SendKeyCombinations | src/NvdaTestingDriver/NvdaDriver.cs:219-231 | result and new state are those of `Protocol.SendKeyCombinations` for the driver's variant |
| Driver.NvdaDriver.SendKeySequence | src/NvdaTestingDriver/NvdaDriver.cs:186-194 | result and new state are those of `Protocol.SendKeySequence` for the driver's variant |
| Driver.NvdaDriver.SendKeyCombinationSet | src/NvdaTestingDriver/NvdaDriver.cs:775-781 | result and new state are those of `Protocol.SendKeyCombinationSet` for the driver's variant |
| Driver.NvdaDriver.SendCommand | src/NvdaTestingDriver/NvdaDriver.cs:290-301 | result and new state are those of `Protocol.SendCommand` for the driver's variant (as written the emptiness test reads the desktop set) |
| Driver.NvdaDriver.CatchUp | src/NvdaTestingDriver/NvdaDriver.cs:589-615 | the reader loop parses every frame due by the given time, as `Polling.Pump` says |
| Driver.NvdaDriver.Delay | src/NvdaTestingDriver/NvdaDriver.cs:973 | the clock moves on by the delay and the reader catches up |
| Driver.NvdaDriver.StopReadingInternal | src/NvdaTestingDriver/NvdaDriver.cs:1029-1060 | result and new state are those of `Protocol.StopReading` for the driver's variant (as written Timeout exactly when the elapsed time is past the timeout) |
| Driver.NvdaDriver.WaitForCancel | src/NvdaTestingDriver/NvdaDriver.cs:1048-1052 | the loop ends in the state and at the time `Polling.StopWait` gives |
| Driver.NvdaDriver.StopReading | src/NvdaTestingDriver/NvdaDriver.cs:332-335 | result and new state are those of `Protocol.StopReading` for the driver's variant (as written Timeout exactly when the elapsed time is past the timeout) |
| Driver.NvdaDriver.RunAction | src/NvdaTestingDriver/NvdaDriver.cs:962-967 | result and new state are those of `Protocol.RunAction` for the driver's variant |
| Driver.NvdaDriver.WaitForSpeech | src/NvdaTestingDriver/NvdaDriver.cs:969-974 | the loop ends in the state and at the time `Polling.SpeechWait` gives |
| Driver.NvdaDriver.GetNextSpokenMessage | src/NvdaTestingDriver/NvdaDriver.cs:928-985 | result and new state are those of `Protocol.GetNextSpokenMessage` for the driver's variant (as written "" when nothing was heard and the wait ended at exactly the timeout) |
| Driver.NvdaDriver.Listen | src/NvdaTestingDriver/NvdaDriver.cs:944-984 | result and new state are those of `Protocol.Listen` for the driver's variant (as written "" when nothing was heard and the wait ended at exactly the timeout) |
| Driver.NvdaDriver.GetNextSpokenMessageAfter | src/NvdaTestingDriver/NvdaDriver.cs:155-163 | result and new state are those of `Protocol.GetNextSpokenMessageAfter` for the driver's variant; a null action throws ArgumentNull |
| Driver.NvdaDriver.SpokenAfter | src/NvdaTestingDriver/NvdaDriver.cs:744-768 | result and new state are those of `Protocol.SpokenAfter` for the driver's variant: StopReading, then the wait with the sending action (as written a silent stop passes at exactly 500 ms) |
| Driver.NvdaDriver.SendKeysAndGetSpokenText | src/NvdaTestingDriver/NvdaDriver.cs:823-830 | result and new state are those of `Protocol.SendKeysAndGetSpokenText` for the driver's variant |
| Driver.NvdaDriver.SendKeySequenceAndGetSpokenText | src/NvdaTestingDriver/NvdaDriver.cs:1009-1019 | result and new state are those of `Protocol.SendKeySequenceAndGetSpokenText` for the driver's variant |
| Driver.NvdaDriver.SendKeyCombinationsAndGetSpokenText | src/NvdaTestingDriver/NvdaDriver.cs:761-768 | result and new state are those of `Protocol.SendKeyCombinationsAndGetSpokenText` for the driver's variant |
| Driver.NvdaDriver.SendCommandAndGetSpokenText | src/NvdaTestingDriver/NvdaDriver.cs:311-322 | result and new state are those of `Protocol.SendCommandAndGetSpokenText` for the driver's variant |
| Driver.NvdaDriver.ConnectSocket | src/NvdaTestingDriver/NvdaDriver.cs:533-563 | the retry loop ends with the outcome, the remaining attempts and the time `Polling.SocketLoop` gives |
| Driver.NvdaDriver.Connect | src/NvdaTestingDriver/NvdaDriver.cs:837-870 | result and new state are those of `Protocol.Connect` |
| Driver.NvdaDriver.OpenStreams | src/NvdaTestingDriver/NvdaDriver.cs:861-869 | the streams and token source exist, the reader runs, and the protocol_version and join frames are written |
| Driver.NvdaDriver.DisconnectInternal | src/NvdaTestingDriver/NvdaDriver.cs:876-906 | result and new state are those of `Protocol.DisconnectInternal` for the driver's variant |
| Driver.NvdaDriver.TearDown | src/NvdaTestingDriver/NvdaDriver.cs:884-905 | result and new state are those of `Protocol.TearDown` |
| Driver.NvdaDriver.Disconnect | src/NvdaTestingDriver/NvdaDriver.cs:144-147 | result and new state are those of `Protocol.Disconnect` for the driver's variant |
| Driver.NvdaDriver.Dispose | src/NvdaTestingDriver/NvdaDriver.cs:340-351 | result and new state are those of `Protocol.Dispose` for the driver's variant: as written ArgumentNull with nothing changed, because the disposer has no logger; corrected, Pass after disconnecting first |
| Disposal.FreshInv | src/NvdaTestingDriver/TrackingDisposer.cs:46 | a new disposer satisfies the gate invariant |
| Disposal.RemoveFirst | src/NvdaTestingDriver/TrackingDisposer.cs:89 | removing a pending task drops exactly that entry and keeps the others |
| Disposal.TrackLaws | src/NvdaTestingDriver/TrackingDisposer.cs:57-164 | a null function throws ArgumentNull; a disposed gate calls nothing and refuses, or throws ArgumentNull from its log line when the logger is null; a live gate puts a fresh task at the front of the list, carries the function's task, and keeps the invariant |
| Disposal.CompleteLaws | src/NvdaTestingDriver/TrackingDisposer.cs:78-98 | completion removes exactly the finished task; with a logger it runs the finaliser exactly when the gate is disposed and the list is now empty; without one that last completion throws ArgumentNull and runs nothing; the wrapper task ends with the function's own outcome except on that last completion, where a failing finaliser's exception, or the ArgumentNull, replaces it |
| Disposal.DisposeLaws | src/NvdaTestingDriver/TrackingDisposer.cs:169-192 | without a logger Dispose throws ArgumentNull and changes nothing; with one it is idempotent, the first call sets IsDisposed and runs the finaliser exactly when nothing is pending, and the invariant is kept |
| Disposal.FinaliserAtMostOnce | src/NvdaTestingDriver/TrackingDisposer.cs:64-191 | over any order of Track, completion and Dispose, the finaliser runs at most once and only after Dispose; with a logger exactly when nothing is pending; without one the disposer is never disposed and the finaliser never runs |
| Disposal.FinaliserTrackRefused | src/NvdaTestingDriver/TrackingDisposable.cs:88-91 | once the finaliser has run, every Track is refused, so the finaliser's own DisconnectAsync is refused |
| Disposal.TrackingDisposer.constructor | src/NvdaTestingDriver/TrackingDisposer.cs:37-48 | a new disposer is not disposed and has no pending task |
| Disposal.TrackingDisposer.Track | src/NvdaTestingDriver/TrackingDisposer.cs:57-164 | the lock section has the effect of `GateTrack` for the disposer's logger |
| Disposal.TrackingDisposer.Complete | src/NvdaTestingDriver/TrackingDisposer.cs:84-97 | the Ending handler has the effect of `GateComplete` for the disposer's logger and reports whether it finalised, or the ArgumentNull |
| Disposal.TrackingDisposer.Dispose | src/NvdaTestingDriver/TrackingDisposer.cs:169-192 | has the effect of `GateDispose` for the disposer's logger and reports whether it finalised, or the ArgumentNull |
| Disposal.TrackingDisposable.constructor | src/NvdaTestingDriver/TrackingDisposable.cs:33-34 | a disposable owns a fresh disposer |
| Disposal.TrackingDisposable.SetLogger | src/NvdaTestingDriver/TrackingDisposable.cs:42-50 | the logger is stored and handed to the disposer; nothing else changes |
| Disposal.TrackingDisposable.Finalise | src/NvdaTestingDriver/TrackingDisposable.cs:56-60 | FinishDispose runs, then FinishDisposeAsync |
| Disposal.TrackingDisposable.Dispose | src/NvdaTestingDriver/TrackingDisposable.cs:65-66 | delegates to the disposer: ArgumentNull when it has no logger; otherwise Pass, with the two hooks run when the disposer finalises (the finaliser's task is not awaited) |
| Disposal.TrackingDisposable.Complete | src/NvdaTestingDriver/TrackingDisposer.cs:78-98 | a completion runs the hooks exactly when the disposer finalises, and the wrapper task ends with `Ending`: the function's outcome unless the finally block throws |
| Disposal.TrackingDisposable.Track | src/NvdaTestingDriver/TrackingDisposable.cs:88-103 | both overloads return the wrapped task when tracking succeeds, and throw ObjectDisposed when the disposer refuses |
| Settings.EqualityLaws | src/NvdaTestingDriver/Settings/NvdaLanguage.cs:418-452 | == holds exactly when the codes are equal; != is its negation; Equals(object) is false for anything that is not a language |
| Settings.HashAgreesWithEquality | src/NvdaTestingDriver/Settings/NvdaLanguage.cs:460-463 | equal languages hash alike, because the hash reads only the code |
| Settings.Defaults | src/NvdaTestingDriver/Settings/NvdaDriverOptions.cs:21-123 | the default language is English, the layout Desktop, the punctuation Some, the browse mode 100 characters by 25 lines, and progress bars beep with background bars off |
| Settings.SymbolLevel | src/NvdaTestingDriver/Settings/NvdaDriverOptionsWriter.cs:153-161 | All gives 300, Most 200, Some 100 and None 0 |
| Settings.ProgressModeText | src/NvdaTestingDriver/Settings/NvdaDriverOptionsWriter.cs:41-44 | "both" exactly when the Beep and Speak flags are both set; otherwise the lowered name ("beep", "speak") |
| Settings.InConcat | src/NvdaTestingDriver/Settings/NvdaDriverOptionsWriter.cs:45-145 | every line of every section is a line of the document |
| Settings.IniStartsWithSchema | src/NvdaTestingDriver/Settings/NvdaDriverOptionsWriter.cs:45 | the document starts with "schemaVersion = 3", whatever the options |
| Settings.SectionInIni | src/NvdaTestingDriver/Settings/NvdaDriverOptionsWriter.cs:53-145 | each line of the [general] to [documentFormatting] sections is a line of the document |
| Settings.GeneralLines | src/NvdaTestingDriver/Settings/NvdaDriverOptionsWriter.cs:53-59 | [general] has no welcome dialog, saves nothing on exit, does not ask to exit, logs at DEBUG, and writes the language code verbatim |
| Settings.SpeechLines | src/NvdaTestingDriver/Settings/NvdaDriverOptionsWriter.cs:60-66 | [speech] selects the oneCore synthesiser and writes the symbol level through its mapping |
| Settings.KeyboardLines | src/NvdaTestingDriver/Settings/NvdaDriverOptionsWriter.cs:79 | keyboardLayout is "desktop" for the desktop layout and "laptop" otherwise |
| Settings.PresentationLines | src/NvdaTestingDriver/Settings/NvdaDriverOptionsWriter.cs:104-105 | the progress-bar mode is written through its mapping |
| Settings.BrowseModeLines | src/NvdaTestingDriver/Settings/NvdaDriverOptionsWriter.cs:108-109 | maxLineLength and linesPerPage are written as the given integers and read back as the same integers |
| Settings.DefaultIni | src/NvdaTestingDriver/Settings/NvdaDriverOptions.cs:25-99 | the default options write language = en, keyboardLayout = desktop, symbolLevel = 100 and progressBarOutputMode = beep |

## Left out

- Process and OS plumbing: starting and killing NVDA, `WaitForInputIdle`, the registry lookup, the zip extraction and the integrity check are OS calls. The process is an abstract "exited" flag.
- TCP and TLS: the socket, the SSL handshake and the accept-all certificate callback are network I/O. Each connection attempt is a scripted `(duration, success)` pair. The streams are flags, and what is written is a log of messages.
- Concurrency: the reader runs as a task beside the caller. In the model it catches up with the clock each time the clock moves. Ordering within one clock tick and the cancellation of a read in progress are not modelled.
- The `lock` sections of the disposer are single atomic methods; threads are not modelled.
- Clocks: `DateTime.Now`, `Task.Delay` and `Thread.Sleep` are a logical clock in milliseconds. A `Task.Delay(100)` takes exactly 100 ms, and a failed connection attempt takes its scripted duration.
- Logging is a no-op, except that the disposer's log lines are modelled as throwing ArgumentNull on a null logger. NvdaDriver never assigns the disposer's `Logger` (it fills its own `_logger`, NvdaDriver.cs:395), so its Dispose throws there (see "## Findings").
- JSON parsing and the UTF-8 decoder are library code. A frame arrives with its parsed document (or none, when it does not parse).
- Wire.UrlDecode: models `WebUtility.UrlDecode` on ASCII only ("+" and "%hh" below 0x80); multi-byte UTF-8 escapes are not decoded.
- The file write of `nvda.ini` (with ASCII encoding) is left out; the model returns the document's lines and text instead.
- Settings.IniContent: joins the lines with "\n". The source's verbatim string takes its line breaks from the source file, which may be CR LF on Windows.
- Settings.HashCode: `string.GetHashCode` is a parameter, because .NET seeds it per process.
- Settings: `VisionSettings` and `ToFirstCapitalizedString` are used by the writer but not declared in the options class. The vision group is a field (all flags off by default), and the helper writes "True"/"False".
- Settings.EqualityLaws: `default(NvdaLanguage)` has a null `Value`, and `Equals` then throws NullReference on the null code of its receiver (`this` in `Equals(NvdaLanguage)`, the argument in `Equals(object)`); languages with a null code are not modelled.
- Settings.EqualityLaws: `Equals` compares the codes with `StringComparison.CurrentCulture` (NvdaLanguage.cs:451, :474), and the model compares them ordinally. The two agree on the plain ASCII codes the language constants hold. For other strings, such as a precomposed "é" against "e" followed by a combining accent, culture equality can hold where ordinal equality does not.
- Settings.HashAgreesWithEquality: proved for ordinal equality. The hash is the ordinal `Value.GetHashCode()` (NvdaLanguage.cs:462), so two codes that are culture-equal but ordinally different would hash differently.
- The language constants wrap the codes of NvdaLanguage.cs:32-400 (Greek is "the"); no lemma is stated about them.
- Keys: `Key` has no `Name` member in Key.cs although the description helpers read one. It is a field of the key value.
- The logging-only text built by `SendKeyCombinationsAsync`, `SendKeysAsync` and the sequence operations is left out. The description `SendCommandAsync` builds is kept, because it can throw.
- Keys.KeyCombination: enumeration is the `keys` field itself, so no separate enumerator is modelled.
- Driver.NvdaDriver: the `...AndGetSpokenText` actions run as a data value (`Protocol.Action`) rather than as a closure.
- Text.UpperAscii: upper-cases only the ASCII letters, while `OrdinalIgnoreCase` upper-cases every character with the invariant culture's table; so "MENÚ" and "menú" match in .NET but not in the model.
- TestHelper.ContainsIgnoresCase: inherits the ASCII-only fold of `Text.UpperAscii`; its law is stated for that fold, not for the full invariant upper-casing.
- TestHelper.NormalizeUpper: proved for the ASCII-only fold of `Text.UpperAscii`, not for the full invariant upper-casing.
- TestHelper.TextContainsIgnoresCase: proved for the ASCII-only fold of `Text.UpperAscii`, not for the full invariant upper-casing.
- Keys.KeyCombination.FromKeys: takes a sequence, so the ArgumentNullException that `AddRange(null)` throws for a null list (KeyCombination.cs:38) cannot arise.
- Commands.NvdaCommand.FromSets: takes a sequence for the desktop list, so the ArgumentNullException that `AddRange(null)` throws for a null desktop list (NvdaCommand.cs:59) cannot arise; a null laptop list is an `Option` and is modelled.
- Commands.NvdaCommand.constructor: the desktop combination is not nullable, so a null one, which the code adds to both sets as a null element (NvdaCommand.cs:39, :47), cannot arise; a null laptop combination is an `Option` and is modelled.
- Commands.NvdaCommand.Named: the combination is not nullable, so a null one, which the code passes on to the main constructor and stores in both sets (NvdaCommand.cs:26-29), cannot arise.
- Protocol.StopReading: when the send of Control fails, or the Timeout is thrown (NvdaDriver.cs:1047, :1056), the code skips the unsubscribe at :1059 and leaves its cancel handler subscribed. That handler only writes a local nobody reads again, so the model empties the listener slot on every path; the leaked subscription itself is not modelled.
- Protocol.Listen: an action that throws (NvdaDriver.cs:965) skips the unsubscribe at :976 and leaves the speech handler subscribed. It only appends to a builder nobody reads again, so the model empties the listener slot; the leaked subscription itself is not modelled.
- Driver.NvdaDriver.SendKeys: takes a sequence, so the ArgumentNullException for a null array (NvdaDriver.cs:259), which comes before Track and so even on a disposed driver, cannot arise.
- Driver.NvdaDriver.SendKeysAndGetSpokenText: takes a sequence, so the ArgumentNullException for a null array (NvdaDriver.cs:275), thrown before Track, cannot arise.
- Driver.NvdaDriver.SendKeySequence: takes a sequence, so the ArgumentNullException for a null array (NvdaDriver.cs:188), thrown before Track, cannot arise.
- Driver.NvdaDriver.SendKeySequenceAndGetSpokenText: takes a sequence, so the ArgumentNullException for a null array (NvdaDriver.cs:205), thrown before Track, cannot arise.
- Driver.NvdaDriver.SendKeyCombinations: takes a sequence of combinations, so neither the ArgumentNullException for a null array (NvdaDriver.cs:221) nor the exception the description throws for a null element (:226-227), both before Track, can arise.
- Driver.NvdaDriver.SendKeyCombinationsAndGetSpokenText: takes a sequence of combinations, so neither the ArgumentNullException for a null array (NvdaDriver.cs:240) nor the exception the description throws for a null element (:245-247), both before Track, can arise.
- Disposal.TrackingDisposable.Dispose: a synchronous exception from `FinishDispose` would escape Dispose (TrackingDisposable.cs:58); the hooks are recorded but their failures are not modelled, and NvdaDriver's `FinishDispose` is the empty base method.

## Findings

Each operation takes the variant, so the as-written and corrected members below are paths the model's operations take. `Protocol.DisposeWithLogger` is the exception: it is the path behind the first Dispose row's throw, and it is reached only once that throw is fixed.

| source | as written | input that shows it | evidently intended | confidence | as-written member | corrected member |
|---|---|---|---|---|---|---|
| src/NvdaTestingDriver/NvdaDriver.cs:520 | `_tcpClient.Connected` is read before any null test, so a driver that never connected throws NullReference | any operation on a driver fresh from its constructor | throw NotConnected | high, not executed | Protocol.CheckConnectivityAsWritten, used by `Protocol.Check` for `AsWritten` (shown by Protocol.FreshDriverDereferencesNull) | Protocol.CheckConnectivity, used by `Protocol.Check` for `Corrected` |
| src/NvdaTestingDriver/TrackingDisposer.cs:172 | NvdaDriver fills its own `_logger` (NvdaDriver.cs:395) and never the disposer's `Logger` (TrackingDisposable.cs:42-49), so the disposer's first log line runs on a null logger and throws ArgumentNull before IsDisposed is set; the connection and NVDA stay up and every later call is still tracked | Dispose on any NvdaDriver | Dispose quits NVDA and disconnects | high, not executed | Protocol.DisposeAsWritten, used by `Protocol.Dispose` for `AsWritten` (shown by Protocol.DisposeLeavesConnected and Protocol.DisposeThroughGate) | Protocol.DisposeCorrected, used by `Protocol.Dispose` for `Corrected` (proved by Protocol.DisposeLeavesConnected) |
| src/NvdaTestingDriver/NvdaDriver.cs:344-346 | behind that throw: once the disposer has a logger, Dispose finalises through `FinishDisposeAsync`, whose `DisconnectAsync` goes through Track; Track now refuses, so the connection and NVDA would still stay up | Dispose, with a logger handed to the disposer, on a connected driver with no call pending | quit NVDA and disconnect on Dispose | medium, not executed; reached only once the logger defect is fixed | Protocol.DisposeWithLogger (shown by Protocol.DisposeLeavesConnected and Protocol.DisposeThroughGate) | Protocol.DisposeCorrected (proved by Protocol.DisposeLeavesConnected) |
| src/NvdaTestingDriver/NvdaDriver.cs:1054 | the Timeout test reads only the elapsed time, so a cancel heard on the last step is still a Timeout | timeout 450 ms, cancel arriving at 420 ms, heard at 500 ms; conversely, no cancel at all with the default 500 ms passes, because the wait ends at exactly 500 ms, which is not past it | Timeout only when no cancel arrived | medium, not executed | Polling.StopResultAsWritten and `Protocol.StopVerdict` for `AsWritten` (shown by Polling.LateCancelTimesOut and Protocol.SilentStop) | Polling.StopResult and `Protocol.StopVerdict` for `Corrected` |
| src/NvdaTestingDriver/NvdaDriver.cs:977 | the loop stops at `elapsed >= timeout`, but Timeout needs `elapsed > timeout`, so an empty text is returned when the wait ends exactly at the timeout | no speech, default 3 s timeout: the 30th 100 ms step ends at exactly 3000 ms | Timeout whenever nothing was collected | medium, not executed; systematic under the logical clock, while under `DateTime.Now` (about 15.6 ms granularity) hitting exactly 3000 ms is plausible, not certain | Polling.SpeechResultAsWritten and `Protocol.SpeechVerdict` for `AsWritten` (shown by Polling.EmptyMessageAtTimeout and Protocol.SilentWait) | Polling.SpeechResult and `Protocol.SpeechVerdict` for `Corrected` |
| src/NvdaTestingDriver/NvdaDriver.cs:726 | the emptiness test reads the desktop set even in the laptop layout | laptop layout, command with an empty desktop set and laptop set Nvda+Q | test the chosen set | medium, not executed | Protocol.GetKeyCombinationSetAsWritten, used by `Protocol.Select` for `AsWritten` (shown by Protocol.LaptopOnlyCommandRefused) | Protocol.GetKeyCombinationSet, used by `Protocol.Select` for `Corrected` |
