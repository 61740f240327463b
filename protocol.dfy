/** The driver's operations as functions of its state. Each public operation goes through
    the disposer's Track, checks its arguments as the source does, and then either writes
    frames to NVDA Remote, waits on the clock for what the reader hears, or moves the
    connection between its states. Driver.NvdaDriver implements these step by step. */
module Protocol {
  import opened Wrappers
  import opened Text
  import opened Keys
  import opened Commands
  import opened Settings
  import opened Wire
  import opened Polling
  import Disposal

  /** A CancellationTokenSource. */
  datatype TokenSource = TokenSource(cancelled: bool, disposed: bool)

  /** The driver's fields, with sockets, streams and the process reduced to the facts the
      code tests: a null field is None; `tcp` holds TcpClient.Connected, `ssl` holds
      SslStream.CanWrite, `process` whether the Process has been disposed, `ini` the options
      last written to nvda.ini (whose text is Settings.IniContent of them). `written` is
      every message written to the TLS stream, `dials` the outcome of each TCP connection
      attempt still to come, `now` the clock and `disposed` the disposer's IsDisposed. */
  datatype Session = Session(
    tcp: Option<bool>, network: bool, ssl: Option<bool>, cts: Option<TokenSource>,
    feed: Feed, process: Option<bool>, ini: Option<Options>,
    written: seq<Message>, dials: seq<Dial>, now: int, disposed: bool)

  /** A freshly constructed driver: every field null, nothing written. */
  function Initial(inbound: seq<Arrival>, dials: seq<Dial>, now: int): Session {
    Session(None, false, None, None, Feed(NotStarted, inbound, Nobody), None, None, [], dials, now, false)
  }

  // ------------------------------------------------------------ connectivity

  /** CheckConnectivity as written: `_tcpClient.Connected` is read before anything else,
      so a driver that has never connected throws NullReference. */
  function CheckConnectivityAsWritten(s: Session): Outcome {
    if s.tcp.None? then Fail(NullReference)
    else if !s.tcp.value || !s.network || s.ssl.None? || !s.ssl.value then Fail(NotConnected)
    else Pass
  }

  /** Connected TCP client, a network stream, and a writable TLS stream. */
  predicate Connected(s: Session) {
    s.tcp == Some(true) && s.network && s.ssl == Some(true)
  }

  /** CheckConnectivity as intended: NotConnected unless connected. */
  function CheckConnectivity(s: Session): (r: Outcome)
    ensures r.Pass? <==> Connected(s)
    ensures r.Fail? ==> r.error == NotConnected
  {
    if s.tcp.None? || !s.tcp.value || !s.network || s.ssl.None? || !s.ssl.value then Fail(NotConnected)
    else Pass
  }

  /** The two checks disagree exactly on a driver without a TCP client, where the written
      one throws NullReference instead of NotConnected. */
  lemma CheckConnectivityDiffers(s: Session)
    ensures CheckConnectivityAsWritten(s) != CheckConnectivity(s) <==> s.tcp.None?
    ensures s.tcp.None? ==> CheckConnectivityAsWritten(s) == Fail(NullReference) && CheckConnectivity(s) == Fail(NotConnected)
  {
  }

  /** Which driver the operations model: the code as written, or the code with the
      corrections of the five findings applied (the intended connectivity check, key-set
      selection, stop and speech verdicts, and a Dispose that disconnects). */
  datatype Variant = AsWritten | Corrected

  /** CheckConnectivity in either variant: both pass exactly on a connected driver; only
      the written one throws NullReference, on a driver without a TCP client. */
  function Check(v: Variant, s: Session): (r: Outcome)
    ensures r.Pass? <==> Connected(s)
    ensures r.Fail? ==> r.error == (if v == AsWritten && s.tcp.None? then NullReference else NotConnected)
  {
    if v == AsWritten then CheckConnectivityAsWritten(s) else CheckConnectivity(s)
  }

  /** A driver fresh from its constructor fails the check as written with NullReference,
      so sending it keys throws NullReference; corrected, NotConnected. */
  lemma FreshDriverDereferencesNull(inbound: seq<Arrival>, dials: seq<Dial>, now: int, keys: seq<Key>)
    ensures CheckConnectivityAsWritten(Initial(inbound, dials, now)) == Fail(NullReference)
    ensures CheckConnectivity(Initial(inbound, dials, now)) == Fail(NotConnected)
    ensures var s := Initial(inbound, dials, now);
      && SendKeys(AsWritten, s, keys) == (Fail(NullReference), s)
      && SendKeys(Corrected, s, keys) == (Fail(NotConnected), s)
  {
  }

  // ----------------------------------------------------------------- key frames

  /** A message written to the TLS stream: a key event, or one of the handshake texts. */
  datatype Message = Frame(key: Key, pressed: bool) | Handshake(text: string)

  /** The text WriteMessageAsync puts on the wire for a message. */
  function Render(m: Message): (r: string)
    ensures |r| >= 1 && r[|r| - 1] == '\n'
  {
    match m
    case Frame(k, down) => Terminate(KeyFrame(k, down))
    case Handshake(text) => Terminate(text)
  }

  /** A written key frame is the JSON object and one line feed, and decodes to the key's
      codes and the pressed flag. */
  lemma FrameDecodes(k: Key, down: bool)
    ensures Render(Frame(k, down)) == KeyFrame(k, down) + "\n"
    ensures var r := Render(Frame(k, down));
      DecodeKeyFrame(r[..|r| - 1]) == Some(KeyEvent(k.scanCode, k.extended, k.keyCode, down))
  {
    var f := KeyFrame(k, down);
    var head := (ScanField + IntText(k.scanCode)) + "," + (ExtendedField + BoolText(k.extended)) + ","
      + (VkField + IntText(k.keyCode)) + "," + (PressedField + BoolText(down)) + ",";
    assert f == head + TypeField;
    assert f[|f| - 1] == TypeField[|TypeField| - 1] == '}';
    assert (f + "\n")[..|f|] == f;
    KeyFrameRoundTrip(k, down);
  }

  /** The frames of some keys, all pressed or all released, in order. */
  function KeyFrames(keys: seq<Key>, down: bool): (r: seq<Message>)
    ensures |r| == |keys|
    ensures forall i | 0 <= i < |keys| :: r[i] == Frame(keys[i], down)
  {
    seq(|keys|, i requires 0 <= i < |keys| => Frame(keys[i], down))
  }

  /** The keys in reverse order, as `keys.Reverse()` enumerates them. */
  function Reversed(keys: seq<Key>): (r: seq<Key>)
    ensures |r| == |keys|
    ensures forall i | 0 <= i < |keys| :: r[i] == keys[|keys| - 1 - i]
    decreases |keys|
  {
    if keys == [] then [] else [keys[|keys| - 1]] + Reversed(keys[..|keys| - 1])
  }

  /** The frames one combination is sent as: every key down in order, then every key up
      in reverse order. */
  function Press(keys: seq<Key>): seq<Message> {
    KeyFrames(keys, true) + KeyFrames(Reversed(keys), false)
  }

  /** A combination is written as 2n frames: frame i presses key i, and frame n + j
      releases key n - 1 - j, so the last key pressed is the first released. */
  lemma PressOrder(keys: seq<Key>)
    ensures |Press(keys)| == 2 * |keys|
    ensures forall i | 0 <= i < |keys| :: Press(keys)[i] == Frame(keys[i], true)
    ensures forall i | 0 <= i < |keys| :: Press(keys)[2 * |keys| - 1 - i] == Frame(keys[i], false)
  {
    var ups := KeyFrames(Reversed(keys), false);
    forall i | 0 <= i < |keys|
      ensures Press(keys)[2 * |keys| - 1 - i] == Frame(keys[i], false)
    {
      assert Press(keys)[2 * |keys| - 1 - i] == ups[|keys| - 1 - i];
      assert Reversed(keys)[|keys| - 1 - i] == keys[i];
    }
  }

  // ------------------------------------------------------------ sending keys

  /** Track's refusal: a disposed driver throws ObjectDisposed and does nothing. */
  function Refused(s: Session): (Outcome, Session) {
    (Fail(ObjectDisposed), s)
  }

  /** SendKeysAsync: CheckConnectivity, then the downs in order and the ups in reverse. */
  function SendKeys(v: Variant, s: Session, keys: seq<Key>): (Outcome, Session) {
    if s.disposed then Refused(s)
    else match Check(v, s)
      case Fail(e) => (Fail(e), s)
      case Pass => (Pass, s.(written := s.written + Press(keys)))
  }

  /** SendKeysAsync on each combination in turn, stopping at the first exception. */
  function SendAll(v: Variant, s: Session, cs: seq<seq<Key>>): (Outcome, Session)
    decreases |cs|
  {
    if cs == [] then (Pass, s)
    else
      var (r, s1) := SendAll(v, s, cs[..|cs| - 1]);
      if r.Fail? then (r, s1) else SendKeys(v, s1, cs[|cs| - 1])
  }

  /** The frames of each combination in turn. */
  function Frames(cs: seq<seq<Key>>): seq<Message>
    decreases |cs|
  {
    if cs == [] then [] else Frames(cs[..|cs| - 1]) + Press(cs[|cs| - 1])
  }

  /** Sending several combinations writes all their frames, in order, exactly when the
      driver is connected (or there is nothing to send); otherwise nothing is written and
      the connectivity check's exception is thrown: NotConnected, or, as written, a
      NullReference on a driver that never had a TCP client. */
  lemma {:induction false} SendAllLaws(v: Variant, s: Session, cs: seq<seq<Key>>)
    requires !s.disposed
    ensures var (r, s') := SendAll(v, s, cs);
      && (r.Pass? <==> cs == [] || Connected(s))
      && (r.Pass? ==> s' == s.(written := s.written + Frames(cs)))
      && (r.Fail? ==> r == Check(v, s) && s' == s)
    decreases |cs|
  {
    if cs != [] {
      SendAllLaws(v, s, cs[..|cs| - 1]);
      var (r, s1) := SendAll(v, s, cs[..|cs| - 1]);
      if r.Pass? {
        assert s.written + Frames(cs[..|cs| - 1]) + Press(cs[|cs| - 1]) == s.written + Frames(cs);
      }
    }
  }

  /** The first exception ends the sends: nothing after it is sent. */
  lemma {:induction false} SendAllStops(v: Variant, s: Session, cs: seq<seq<Key>>, more: seq<seq<Key>>)
    requires SendAll(v, s, cs).0.Fail?
    ensures SendAll(v, s, cs + more) == SendAll(v, s, cs)
    decreases |more|
  {
    if more == [] {
      assert cs + more == cs;
    } else {
      var init := more[..|more| - 1];
      SendAllStops(v, s, cs, init);
      assert (cs + more)[..|cs + more| - 1] == cs + init;
    }
  }

  /** One single-key combination per key. */
  function Singles(keys: seq<Key>): (r: seq<seq<Key>>)
    ensures |r| == |keys|
    ensures forall i | 0 <= i < |keys| :: r[i] == [keys[i]]
  {
    seq(|keys|, i requires 0 <= i < |keys| => [keys[i]])
  }

  /** SendKeySequenceAsync: each key sent as its own combination. */
  function SendKeySequence(v: Variant, s: Session, keys: seq<Key>): (Outcome, Session) {
    if s.disposed then Refused(s) else SendAll(v, s, Singles(keys))
  }

  /** A key sequence presses and releases each key before the next one. */
  lemma {:induction false} SequenceFrames(keys: seq<Key>)
    ensures |Frames(Singles(keys))| == 2 * |keys|
    ensures forall i | 0 <= i < |keys| ::
      Frames(Singles(keys))[2 * i] == Frame(keys[i], true)
      && Frames(Singles(keys))[2 * i + 1] == Frame(keys[i], false)
    decreases |keys|
  {
    if keys != [] {
      var init := keys[..|keys| - 1];
      var k := keys[|keys| - 1];
      SequenceFrames(init);
      assert Singles(keys)[..|keys| - 1] == Singles(init);
      assert Press([k]) == [Frame(k, true), Frame(k, false)];
      assert Frames(Singles(keys)) == Frames(Singles(init)) + Press([k]);
    }
  }

  /** SendKeyCombinationsAsync: every combination, empty ones included. */
  function SendKeyCombinations(v: Variant, s: Session, cs: seq<seq<Key>>): (Outcome, Session) {
    if s.disposed then Refused(s) else SendAll(v, s, cs)
  }

  /** The combinations that hold a key, in order. */
  function NonEmpty(cs: seq<seq<Key>>): (r: seq<seq<Key>>)
    ensures |r| <= |cs|
    ensures forall i | 0 <= i < |r| :: r[i] != []
    decreases |cs|
  {
    if cs == [] then []
    else NonEmpty(cs[..|cs| - 1]) + (if cs[|cs| - 1] == [] then [] else [cs[|cs| - 1]])
  }

  /** Filtering a concatenation filters each part. */
  lemma {:induction false} NonEmptyAppend(cs: seq<seq<Key>>, more: seq<seq<Key>>)
    ensures NonEmpty(cs + more) == NonEmpty(cs) + NonEmpty(more)
    decreases |more|
  {
    if more == [] {
      assert cs + more == cs;
    } else {
      var init := more[..|more| - 1];
      NonEmptyAppend(cs, init);
      assert (cs + more)[..|cs + more| - 1] == cs + init;
    }
  }

  /** SendKeyCombinationSet: the combinations with at least one key. */
  function SendKeyCombinationSet(v: Variant, s: Session, cs: seq<seq<Key>>): (Outcome, Session) {
    SendAll(v, s, NonEmpty(cs))
  }

  /** One more combination of the set: it is filtered out when empty, and otherwise sent
      after the earlier ones unless one of them failed. */
  lemma NonEmptyStep(v: Variant, s: Session, cs: seq<seq<Key>>, i: nat)
    requires i < |cs|
    ensures cs[i] == [] ==> NonEmpty(cs[..i + 1]) == NonEmpty(cs[..i])
    ensures cs[i] != [] ==>
      SendAll(v, s, NonEmpty(cs[..i + 1])) ==
        (var (r, s1) := SendAll(v, s, NonEmpty(cs[..i])); if r.Fail? then (r, s1) else SendKeys(v, s1, cs[i]))
  {
    assert cs[..i + 1][..i] == cs[..i];
    var before := NonEmpty(cs[..i]);
    if cs[i] != [] {
      assert NonEmpty(cs[..i + 1]) == before + [cs[i]];
      assert (before + [cs[i]])[..|before|] == before;
    } else {
      assert NonEmpty(cs[..i + 1]) == before + [];
    }
  }

  /** Once a combination fails, the rest of the set is not sent. */
  lemma CombinationSetStops(v: Variant, s: Session, cs: seq<seq<Key>>, i: nat)
    requires i < |cs| && SendAll(v, s, NonEmpty(cs[..i + 1])).0.Fail?
    ensures SendKeyCombinationSet(v, s, cs) == SendAll(v, s, NonEmpty(cs[..i + 1]))
  {
    assert cs == cs[..i + 1] + cs[i + 1..];
    NonEmptyAppend(cs[..i + 1], cs[i + 1..]);
    SendAllStops(v, s, NonEmpty(cs[..i + 1]), NonEmpty(cs[i + 1..]));
  }

  /** An empty combination contributes no frame, so skipping it changes nothing written. */
  lemma {:induction false} NonEmptyFrames(cs: seq<seq<Key>>)
    ensures Frames(NonEmpty(cs)) == Frames(cs)
    decreases |cs|
  {
    if cs != [] {
      var init := cs[..|cs| - 1];
      var c := cs[|cs| - 1];
      NonEmptyFrames(init);
      if c == [] {
        assert Press(c) == [];
        assert NonEmpty(cs) == NonEmpty(init) + [] == NonEmpty(init);
        assert Frames(cs) == Frames(init) + [] == Frames(init);
      } else {
        assert NonEmpty(cs)[..|NonEmpty(cs)| - 1] == NonEmpty(init);
      }
    }
  }

  /** A combination set and the same combinations sent through SendKeyCombinations write
      the same frames when connected; but a set of empty combinations succeeds without a
      connection, where SendKeyCombinations runs the connectivity check for each empty
      combination and throws its exception. */
  lemma CombinationSetSkipsEmpty(v: Variant, s: Session, cs: seq<seq<Key>>)
    requires !s.disposed
    ensures Connected(s) ==> SendKeyCombinationSet(v, s, cs) == SendKeyCombinations(v, s, cs)
    ensures (forall i | 0 <= i < |cs| :: cs[i] == []) ==> SendKeyCombinationSet(v, s, cs) == (Pass, s)
    ensures !Connected(s) && cs != [] ==> SendKeyCombinations(v, s, cs) == (Check(v, s), s)
  {
    SendAllLaws(v, s, cs);
    SendAllLaws(v, s, NonEmpty(cs));
    NonEmptyFrames(cs);
    if forall i | 0 <= i < |cs| :: cs[i] == [] {
      NonEmptyOfEmpties(cs);
    }
  }

  lemma {:induction false} NonEmptyOfEmpties(cs: seq<seq<Key>>)
    requires forall i | 0 <= i < |cs| :: cs[i] == []
    ensures NonEmpty(cs) == []
    decreases |cs|
  {
    if cs != [] {
      NonEmptyOfEmpties(cs[..|cs| - 1]);
    }
  }

  // ------------------------------------------------------------------ commands

  /** The combination set the keyboard layout selects. */
  function Chosen(layout: KeyboardLayout, c: CommandView): Option<seq<seq<Key>>> {
    if layout == Desktop then c.desktop else c.laptop
  }

  /** Some combination of the set holds a key. */
  predicate HasKey(cs: seq<seq<Key>>) {
    exists i | 0 <= i < |cs| :: cs[i] != []
  }

  /** GetKeyCombinationSet as written: the emptiness test reads the desktop set whatever
      the layout, so a laptop-layout command with an empty desktop set is refused and one
      with a null desktop set throws NullReference. */
  function GetKeyCombinationSetAsWritten(layout: KeyboardLayout, command: Option<CommandView>): Result<seq<seq<Key>>> {
    if command.None? then Err(ArgumentNull)
    else
      var chosen := Chosen(layout, command.value);
      if chosen.None? then Err(InvalidCommand)
      else if command.value.desktop.None? then Err(NullReference)
      else if |command.value.desktop.value| == 0 then Err(InvalidCommand)
      else if !HasKey(chosen.value) then Err(InvalidCommand)
      else Ok(chosen.value)
  }

  /** GetKeyCombinationSet as intended: the chosen set, when it exists and holds a key. */
  function GetKeyCombinationSet(layout: KeyboardLayout, command: Option<CommandView>): (r: Result<seq<seq<Key>>>)
    ensures r.Ok? <==> command.Some? && Chosen(layout, command.value).Some? && HasKey(Chosen(layout, command.value).value)
    ensures r.Ok? ==> r.value == Chosen(layout, command.value).value
    ensures r.Err? ==> r.error == (if command.None? then ArgumentNull else InvalidCommand)
  {
    if command.None? then Err(ArgumentNull)
    else
      var chosen := Chosen(layout, command.value);
      if chosen.None? || |chosen.value| == 0 then Err(InvalidCommand)
      else if !HasKey(chosen.value) then Err(InvalidCommand)
      else Ok(chosen.value)
  }

  /** Whenever the written selection succeeds, so does the intended one, with the same set;
      in the desktop layout the two agree on every command. */
  lemma CombinationSetSelections(layout: KeyboardLayout, command: Option<CommandView>)
    ensures GetKeyCombinationSetAsWritten(layout, command).Ok? ==>
      GetKeyCombinationSet(layout, command) == GetKeyCombinationSetAsWritten(layout, command)
    ensures layout == Desktop ==> GetKeyCombinationSet(layout, command) == GetKeyCombinationSetAsWritten(layout, command)
  {
  }

  /** GetKeyCombinationSet in either variant. Both give the layout's set when they
      succeed, and ArgumentNull for a null command; the corrected one succeeds exactly when
      that set exists and holds a key, the written one only when, besides, the desktop set
      is not empty. */
  function Select(v: Variant, layout: KeyboardLayout, command: Option<CommandView>): (r: Result<seq<seq<Key>>>)
    ensures r.Ok? ==> command.Some? && Chosen(layout, command.value) == Some(r.value) && HasKey(r.value)
    ensures command.None? ==> r == Err(ArgumentNull)
    ensures v == Corrected ==> r == GetKeyCombinationSet(layout, command)
    ensures v == AsWritten && command.Some? ==>
      (r.Ok? <==> GetKeyCombinationSet(layout, command).Ok? && command.value.desktop.Some? && command.value.desktop.value != [])
  {
    if v == AsWritten then GetKeyCombinationSetAsWritten(layout, command) else GetKeyCombinationSet(layout, command)
  }

  /** A laptop-only command: its desktop set is empty and its laptop set is Nvda+Q. In the
      laptop layout the written selection refuses it, so SendCommandAsync throws
      InvalidCommand and writes nothing; the intended one returns Nvda+Q and sends it. */
  lemma LaptopOnlyCommandRefused(s: Session)
    requires !s.disposed && Connected(s)
    ensures var c := Some(CommandView(Some([]), Some([[Nvda, Q]]), None));
      && GetKeyCombinationSetAsWritten(Laptop, c) == Err(InvalidCommand)
      && GetKeyCombinationSet(Laptop, c) == Ok([[Nvda, Q]])
      && SendCommand(AsWritten, s, Laptop, c) == (Fail(InvalidCommand), s)
      && SendCommand(Corrected, s, Laptop, c) == (Pass, s.(written := s.written + Press([Nvda, Q])))
  {
    var c := Some(CommandView(Some([]), Some([[Nvda, Q]]), None));
    assert [[Nvda, Q]][0] != [];
    DescriptionCases(c);
    assert GetDescription(c).Ok?;
    assert Select(Corrected, Laptop, c) == Ok([[Nvda, Q]]);
    SendCommandLaws(Corrected, s, Laptop, c);
    assert Frames([[Nvda, Q]]) == Frames([]) + Press([Nvda, Q]);
    assert Frames([[Nvda, Q]]) == Press([Nvda, Q]);
  }

  /** SendCommandAsync: a null command throws ArgumentNull; the description is built for
      the log before anything else, then the combination set is selected, and only then is
      the call tracked and the non-empty combinations sent. */
  function SendCommand(v: Variant, s: Session, layout: KeyboardLayout, command: Option<CommandView>): (Outcome, Session) {
    if command.None? then (Fail(ArgumentNull), s)
    else match GetDescription(command)
      case Err(e) => (Fail(e), s)
      case Ok(_) =>
        match Select(v, layout, command)
        case Err(e) => (Fail(e), s)
        case Ok(chosen) => if s.disposed then Refused(s) else SendKeyCombinationSet(v, s, chosen)
  }

  /** A command is checked before the disposer is asked: a command the selection refuses
      reports its own error, even on a disposed driver, and writes nothing; an accepted one
      sends its chosen set's frames when connected. */
  lemma SendCommandLaws(v: Variant, s: Session, layout: KeyboardLayout, command: Option<CommandView>)
    ensures Select(v, layout, command).Err? ==>
      var (r, s') := SendCommand(v, s, layout, command);
      r.Fail? && r.error != ObjectDisposed && s' == s
    ensures GetDescription(command).Ok? && Select(v, layout, command).Ok? && !s.disposed && Connected(s) ==>
      SendCommand(v, s, layout, command) == (Pass, s.(written := s.written + Frames(Select(v, layout, command).value)))
  {
    if GetDescription(command).Ok? && Select(v, layout, command).Ok? && !s.disposed {
      var chosen := Select(v, layout, command).value;
      SendAllLaws(v, s, NonEmpty(chosen));
      NonEmptyFrames(chosen);
    }
    if command.Some? && Select(v, layout, command).Err? {
      DescriptionCases(command);
    }
  }

  /** QuitNvda is sent as Nvda down, Q down, Q up, Nvda up, in either layout and either
      variant. */
  lemma QuitNvdaFrames(v: Variant, layout: KeyboardLayout)
    ensures GetDescription(Some(QuitNvda)) == Ok("QuitNvda")
    ensures Select(v, layout, Some(QuitNvda)) == Ok([[Nvda, Q]])
    ensures Frames(NonEmpty([[Nvda, Q]])) == [Frame(Nvda, true), Frame(Q, true),
                                               Frame(Q, false), Frame(Nvda, false)]
  {
    assert !IsNullOrWhiteSpace("QuitNvda") by { assert "QuitNvda"[0] !in WhiteSpace; }
    assert [[Nvda, Q]][0] != [];
    NonEmptyFrames([[Nvda, Q]]);
    assert Frames([[Nvda, Q]]) == Frames([]) + Press([Nvda, Q]);
  }

  // ----------------------------------------------------------- connect / disconnect

  /** The TCP connection attempts give up after 10 s. */
  const SocketTimeout: int := 10000

  /** ConnectAsync: AlreadyConnected when a connected TCP client exists; otherwise the
      options are written to nvda.ini, NVDA is started, the socket loop runs, and on
      success the streams are opened, the reader starts (catching up with the clock, with
      no handler subscribed), and the protocol-version and join messages are written. A
      socket failure leaves the new client unconnected and the old streams as they were. */
  function Connect(s: Session, o: Options): (Outcome, Session) {
    if s.disposed then Refused(s)
    else if s.tcp == Some(true) then (Fail(AlreadyConnected), s)
    else
      var (r, rest, t) := SocketLoop(s.dials, s.now, s.now, SocketTimeout);
      var s1 := s.(ini := Some(o), process := Some(false), tcp := Some(false), dials := rest, now := t);
      if r.Fail? then (r, s1)
      else
        (Pass, s1.(tcp := Some(true), network := true, ssl := Some(true), cts := Some(TokenSource(false, false)),
                   feed := Pump(Feed(Running, s.feed.inbound, Nobody), t),
                   written := s.written + [Handshake(ProtocolVersionMessage), Handshake(JoinMessage)]))
  }

  /** A connected driver refuses to connect again; otherwise a connection either fails
      with a socket error after more than 10 s, or leaves the driver connected, its reader
      caught up, nvda.ini holding the options, and exactly the protocol-version message and
      then the join message written, each with one line feed. */
  lemma ConnectLaws(s: Session, o: Options)
    requires !s.disposed
    ensures s.tcp == Some(true) ==> Connect(s, o) == (Fail(AlreadyConnected), s)
    ensures var (r, s') := Connect(s, o);
      s.tcp != Some(true) ==>
        && s'.ini == Some(o)
        && (r.Fail? ==> r.error == Socket && s'.now - s.now > SocketTimeout && s'.written == s.written && !Connected(s'))
        && (r.Pass? ==> Connected(s') && Quiet(s'.feed, s'.now) && s'.feed.listener == Nobody
                        && s'.written == s.written + [Handshake(ProtocolVersionMessage), Handshake(JoinMessage)]
                        && s'.cts == Some(TokenSource(false, false)))
  {
    if s.tcp != Some(true) {
      SocketLoopLaws(s.dials, s.now, s.now, SocketTimeout);
      var (r, rest, t) := SocketLoop(s.dials, s.now, s.now, SocketTimeout);
      PumpLaws(Feed(Running, s.feed.inbound, Nobody), t);
      var f := Pump(Feed(Running, s.feed.inbound, Nobody), t);
      assert f.listener == Nobody by {
        PumpKeepsNobody(Feed(Running, s.feed.inbound, Nobody), t);
      }
    }
  }

  /** The reader delivers nothing when no handler is subscribed. */
  lemma {:induction false} PumpKeepsNobody(f: Feed, now: int)
    requires f.listener == Nobody
    ensures Pump(f, now).listener == Nobody
    decreases |f.inbound|
  {
    if !Quiet(f, now) {
      var a := f.inbound[0];
      var ev := MessageEvent(a.frame, a.doc);
      if ev.Ok? {
        PumpKeepsNobody(Feed(Running, f.inbound[1..], Deliver(f.listener, a.at, ev.value)), now);
      }
    }
  }

  /** DisconnectAsync: NVDA is asked to quit when the TLS stream can write; the token
      source is cancelled (throwing ObjectDisposed if it already was disposed) and disposed
      (throwing NullReference if there is none); a faulted reader rethrows its exception;
      the client and streams are closed; the process, never null-checked, is disposed. */
  function Disconnect(v: Variant, s: Session, layout: KeyboardLayout): (Outcome, Session) {
    if s.disposed then Refused(s) else DisconnectInternal(v, s, layout)
  }

  function DisconnectInternal(v: Variant, s: Session, layout: KeyboardLayout): (Outcome, Session) {
    var (q, s1) := if s.ssl == Some(true) then SendCommand(v, s, layout, Some(QuitNvda)) else (Pass, s);
    if q.Fail? then (q, s1) else TearDown(s1)
  }

  /** DisconnectInternal after the quit command: cancel and dispose the token source, wait
      for the reader, close the streams and kill the process. */
  function TearDown(s1: Session): (Outcome, Session) {
    if s1.cts.Some? && s1.cts.value.disposed then (Fail(ObjectDisposed), s1)
    else if s1.cts.None? then (Fail(NullReference), s1)
    else
      var s2 := s1.(cts := Some(TokenSource(true, true)));
      if s2.feed.reader.Faulted? then (Fail(s2.feed.reader.error), s2)
      else
        var s3 := s2.(feed := s2.feed.(reader := if s2.feed.reader == Running then Stopped else s2.feed.reader),
                      tcp := if s2.tcp.Some? then Some(false) else None,
                      ssl := if s2.ssl.Some? then Some(false) else None);
        if s3.process.None? then (Fail(NullReference), s3)
        else (Pass, s3.(process := Some(true)))
  }

  /** Disconnecting a driver that never connected throws NullReference and changes
      nothing. */
  lemma DisconnectBeforeConnect(v: Variant, inbound: seq<Arrival>, dials: seq<Dial>, now: int, layout: KeyboardLayout)
    ensures Disconnect(v, Initial(inbound, dials, now), layout) == (Fail(NullReference), Initial(inbound, dials, now))
  {
  }

  /** Disconnecting a connected driver with a healthy reader quits NVDA with Nvda+Q
      (Nvda down, Q down, Q up, Nvda up), stops the reader and leaves the driver
      disconnected; disconnecting it again throws ObjectDisposed from the disposed token
      source and changes nothing more. */
  lemma DisconnectLaws(v: Variant, s: Session, layout: KeyboardLayout)
    requires !s.disposed && Connected(s) && s.cts == Some(TokenSource(false, false))
    requires s.feed.reader.Running? && s.process.Some?
    ensures var (r, s') := Disconnect(v, s, layout);
      && r == Pass && !Connected(s') && s'.feed.reader == Stopped && s'.process == Some(true)
      && s'.written == s.written + [Frame(Nvda, true), Frame(Q, true),
                                    Frame(Q, false), Frame(Nvda, false)]
      && Disconnect(v, s', layout) == (Fail(ObjectDisposed), s')
  {
    QuitNvdaFrames(v, layout);
    SendAllLaws(v, s, NonEmpty([[Nvda, Q]]));
  }

  // ------------------------------------------------------------- waiting on speech

  /** StopReading's default timeout, in milliseconds. */
  const StopTimeout: int := 500

  /** StopReading's verdict in either variant: as written, Timeout exactly when the time
      elapsed since the start is past the timeout; corrected, Timeout exactly when no
      cancel was heard. */
  function StopVerdict(v: Variant, received: bool, elapsed: int, timeout: int): (r: Outcome)
    ensures r.Fail? ==> r.error == Timeout
    ensures v == AsWritten ==> (r.Fail? <==> elapsed > timeout)
    ensures v == Corrected ==> (r.Fail? <==> !received)
  {
    if v == AsWritten then StopResultAsWritten(elapsed, timeout) else StopResult(received)
  }

  /** StopReadingAsync: subscribes a cancel handler, takes the start time, sends Control
      once, waits for the cancel and gives the verdict. The code unsubscribes only on the
      normal path; the handler it leaves behind on a failure writes nothing anyone reads,
      so the listener slot is emptied on every path. */
  function StopReading(v: Variant, s: Session, timeout: Option<int>): (Outcome, Session) {
    if s.disposed then Refused(s)
    else
      var limit := if timeout.None? then StopTimeout else timeout.value;
      var s1 := s.(feed := s.feed.(listener := Cancel(false)));
      var (r, s2) := SendKeys(v, s1, [Control]);
      if r.Fail? then (r, s2.(feed := s2.feed.(listener := Nobody)))
      else
        var (g, t) := StopWait(s2.feed, s2.now, s.now, limit);
        (StopVerdict(v, g.listener == Cancel(true), t - s.now, limit), s2.(feed := g.(listener := Nobody), now := t))
  }

  /** A driver that is not connected throws the connectivity check's exception at once
      and writes nothing. A connected one sends Control down and up, once, and waits until
      a cancel is heard or the timeout has elapsed, less than one step past the timeout.
      As written the stop then fails with Timeout exactly when the elapsed time is past
      the timeout, cancel or no cancel; corrected, exactly when no cancel was heard. */
  lemma StopReadingLaws(v: Variant, s: Session, timeout: Option<int>)
    requires !s.disposed
    ensures var (r, s') := StopReading(v, s, timeout);
      var limit := if timeout.None? then StopTimeout else timeout.value;
      var heard := StopWait(s.feed.(listener := Cancel(false)), s.now, s.now, limit).0.listener == Cancel(true);
      && s'.feed.listener == Nobody
      && (!Connected(s) ==> r == Check(v, s) && s'.written == s.written && s'.now == s.now)
      && (Connected(s) ==>
            && s'.written == s.written + [Frame(Control, true), Frame(Control, false)]
            && s'.now >= s.now && (s'.now == s.now || s'.now - s.now < limit + 100)
            && (heard || s'.now - s.now >= limit)
            && (r.Fail? ==> r.error == Timeout)
            && (v == AsWritten ==> (r.Fail? <==> s'.now - s.now > limit))
            && (v == Corrected ==> (r.Fail? <==> !heard)))
  {
    var limit := if timeout.None? then StopTimeout else timeout.value;
    var s1 := s.(feed := s.feed.(listener := Cancel(false)));
    if Connected(s) {
      var s2 := s1.(written := s1.written + Press([Control]));
      assert Press([Control]) == [Frame(Control, true), Frame(Control, false)];
      StopWaitExit(s2.feed, s2.now, s.now, limit);
    }
  }

  /** A stop with the default 500 ms on a connected driver that NVDA sends nothing to:
      the wait ends at exactly 500 ms, which as written is not past the timeout, so the
      stop passes; corrected, it fails with Timeout. */
  lemma SilentStop(s: Session)
    requires !s.disposed && Connected(s) && s.feed.inbound == []
    ensures StopReading(AsWritten, s, None).0 == Pass
    ensures StopReading(AsWritten, s, None).1.now == s.now + StopTimeout
    ensures StopReading(Corrected, s, None).0 == Fail(Timeout)
  {
    SilentStopWait(s.feed.(listener := Cancel(false)), s.now, s.now, StopTimeout);
  }

  /** What GetNextSpokenMessage runs between subscribing and starting its clock: nothing,
      or one of the driver's own sending operations. */
  datatype Action =
    | NoAction
    | PressKeys(keys: seq<Key>)
    | PressSequence(sequence: seq<Key>)
    | PressCombinations(combinations: seq<seq<Key>>)
    | PressCombinationSet(combinationSet: seq<seq<Key>>)

  function RunAction(v: Variant, s: Session, a: Action): (Outcome, Session) {
    match a
    case NoAction => (Pass, s)
    case PressKeys(keys) => SendKeys(v, s, keys)
    case PressSequence(keys) => SendKeySequence(v, s, keys)
    case PressCombinations(cs) => SendKeyCombinations(v, s, cs)
    case PressCombinationSet(cs) => SendKeyCombinationSet(v, s, cs)
  }

  /** GetNextSpokenMessage's defaults: 3 s timeout, 300 ms window. */
  const SpeechTimeout: int := 3000
  const SpeechWindow: int := 300

  /** The text a speech handler has collected. */
  function Collected(l: Listener): string {
    if l.Speech? then l.text else ""
  }

  /** GetNextSpokenMessage's verdict in either variant: the collected text, or Timeout
      when there is none; as written, only when besides the elapsed time is strictly past
      the timeout. */
  function SpeechVerdict(v: Variant, text: string, elapsed: int, timeout: int): (r: Result<string>)
    ensures r.Err? ==> r.error == Timeout && text == ""
    ensures r.Ok? ==> r.value == text
    ensures v == AsWritten ==> (r.Err? <==> text == "" && elapsed > timeout)
    ensures v == Corrected ==> (r.Err? <==> text == "")
  {
    if v == AsWritten then SpeechResultAsWritten(text, elapsed, timeout) else SpeechResult(text)
  }

  /** GetNextSpokenMessageAsync: CheckConnectivity, subscribe the speech handler, run the
      action, take the start time, wait, unsubscribe, and give the verdict. */
  function GetNextSpokenMessage(v: Variant, s: Session, timeout: Option<int>, window: Option<int>, action: Action): (Result<string>, Session) {
    if s.disposed then (Err(ObjectDisposed), s)
    else
      var limit := if timeout.None? then SpeechTimeout else timeout.value;
      var span := if window.None? then SpeechWindow else window.value;
      match Check(v, s)
      case Fail(e) => (Err(e), s)
      case Pass => Listen(v, s, limit, span, action)
  }

  /** GetNextSpokenMessageAsync once connected: subscribe the speech handler, run the
      action, wait from the time the action ended, unsubscribe, and give the verdict. An
      action that throws skips the unsubscribe; the handler left behind appends to a
      builder nobody reads, so the listener slot is emptied there too. */
  function Listen(v: Variant, s: Session, limit: int, span: int, action: Action): (Result<string>, Session) {
    var s1 := s.(feed := s.feed.(listener := Speech("", None)));
    var (r, s2) := RunAction(v, s1, action);
    if r.Fail? then (Err(r.error), s2.(feed := s2.feed.(listener := Nobody)))
    else
      var (g, t) := SpeechWait(s2.feed, s2.now, s2.now, limit, span);
      (SpeechVerdict(v, Collected(g.listener), t - s2.now, limit), s2.(feed := g.(listener := Nobody), now := t))
  }

  /** The overload taking only the action: a null action throws ArgumentNull. */
  function GetNextSpokenMessageAfter(v: Variant, s: Session, action: Option<Action>): (Result<string>, Session) {
    if action.None? then (Err(ArgumentNull), s) else GetNextSpokenMessage(v, s, None, None, action.value)
  }

  /** A wait without an action on a connected driver writes nothing, never runs a full
      step past the timeout, and returns the text it heard; with nothing heard it waited
      at least the timeout. Corrected, it fails with Timeout exactly when nothing was
      heard. As written, only when besides the elapsed time is past the timeout, so it
      returns the empty string when the wait ends at exactly the timeout. */
  lemma GetNextSpokenLaws(v: Variant, s: Session, timeout: Option<int>, window: Option<int>)
    requires !s.disposed && Connected(s)
    ensures var (r, s') := GetNextSpokenMessage(v, s, timeout, window, NoAction);
      var limit := if timeout.None? then SpeechTimeout else timeout.value;
      var span := if window.None? then SpeechWindow else window.value;
      var heard := Collected(SpeechWait(s.feed.(listener := Speech("", None)), s.now, s.now, limit, span).0.listener);
      && s'.written == s.written && s'.feed.listener == Nobody
      && s'.now >= s.now && (s'.now == s.now || s'.now - s.now < limit + 100)
      && (heard == "" ==> s'.now - s.now >= limit)
      && (r.Ok? ==> r.value == heard)
      && (r.Err? ==> r.error == Timeout)
      && (v == Corrected ==> (r.Err? <==> heard == ""))
      && (v == AsWritten ==> (r.Err? <==> heard == "" && s'.now - s.now > limit))
      && (v == AsWritten && r.Ok? && r.value == "" ==> s'.now - s.now == limit)
  {
    var limit := if timeout.None? then SpeechTimeout else timeout.value;
    var span := if window.None? then SpeechWindow else window.value;
    var s1 := s.(feed := s.feed.(listener := Speech("", None)));
    SpeechWaitExit(s1.feed, s1.now, s1.now, limit, span);
  }

  /** A wait with the defaults on a connected driver that NVDA sends nothing to: as
      written it returns the empty string after exactly 3 s; corrected, Timeout. */
  lemma SilentWait(s: Session)
    requires !s.disposed && Connected(s) && s.feed.inbound == []
    ensures GetNextSpokenMessage(AsWritten, s, None, None, NoAction).0 == Ok("")
    ensures GetNextSpokenMessage(Corrected, s, None, None, NoAction).0 == Err(Timeout)
  {
    SilentSpeechWait(s.feed.(listener := Speech("", None)), s.now, s.now, SpeechTimeout, SpeechWindow);
  }

  /** Every "...AndGetSpokenText" operation: StopReading, then a wait whose action sends
      the keys. */
  function SpokenAfter(v: Variant, s: Session, action: Action): (Result<string>, Session) {
    var (r, s1) := StopReading(v, s, None);
    if r.Fail? then (Err(r.error), s1) else GetNextSpokenMessage(v, s1, None, None, action)
  }

  function SendKeysAndGetSpokenText(v: Variant, s: Session, keys: seq<Key>): (Result<string>, Session) {
    if s.disposed then (Err(ObjectDisposed), s) else SpokenAfter(v, s, PressKeys(keys))
  }

  function SendKeySequenceAndGetSpokenText(v: Variant, s: Session, keys: seq<Key>): (Result<string>, Session) {
    if s.disposed then (Err(ObjectDisposed), s) else SpokenAfter(v, s, PressSequence(keys))
  }

  function SendKeyCombinationsAndGetSpokenText(v: Variant, s: Session, cs: seq<seq<Key>>): (Result<string>, Session) {
    if s.disposed then (Err(ObjectDisposed), s) else SpokenAfter(v, s, PressCombinations(cs))
  }

  /** SendCommandAndGetSpokenTextAsync: the command's checks, then the tracked composition
      sending its non-empty combinations. */
  function SendCommandAndGetSpokenText(v: Variant, s: Session, layout: KeyboardLayout, command: Option<CommandView>): (Result<string>, Session) {
    if command.None? then (Err(ArgumentNull), s)
    else match GetDescription(command)
      case Err(e) => (Err(e), s)
      case Ok(_) =>
        match Select(v, layout, command)
        case Err(e) => (Err(e), s)
        case Ok(chosen) => if s.disposed then (Err(ObjectDisposed), s) else SpokenAfter(v, s, PressCombinationSet(chosen))
  }

  /** The composition sends Control once before the keys, so on a connected driver the
      frames written start with Control down and up, followed by the keys' own frames
      when the stop passed. */
  lemma SpokenAfterKeysFrames(v: Variant, s: Session, keys: seq<Key>)
    requires !s.disposed && Connected(s)
    ensures var (r, s') := SendKeysAndGetSpokenText(v, s, keys);
      var stop := [Frame(Control, true), Frame(Control, false)];
      && |s'.written| >= |s.written| + 2
      && s'.written[..|s.written| + 2] == s.written + stop
      && (StopReading(v, s, None).0.Pass? ==> s'.written == s.written + stop + Press(keys))
  {
    StopReadingLaws(v, s, None);
    var (r1, s1) := StopReading(v, s, None);
    assert Connected(s1);
    var stop := [Frame(Control, true), Frame(Control, false)];
    if r1.Pass? {
      var s2 := s1.(feed := s1.feed.(listener := Speech("", None)));
      assert RunAction(v, s2, PressKeys(keys)) == (Pass, s2.(written := s2.written + Press(keys)));
      var s3 := s2.(written := s2.written + Press(keys));
      var limit := SpeechTimeout;
      var (g, t) := SpeechWait(s3.feed, s3.now, s3.now, limit, SpeechWindow);
      assert SendKeysAndGetSpokenText(v, s, keys).1.written == s3.written;
      assert s3.written == s.written + stop + Press(keys);
      assert (s.written + stop + Press(keys))[..|s.written| + 2] == s.written + stop;
    }
  }

  /** Keys sent to a connected driver that NVDA stays silent for, through the composition
      with its defaults: as written the stop passes at 500 ms, the keys are sent and the
      wait returns the empty string; corrected, the stop fails with Timeout before the
      keys are sent. */
  lemma SilentComposition(s: Session, keys: seq<Key>)
    requires !s.disposed && Connected(s) && s.feed.inbound == []
    ensures var (r, s') := SendKeysAndGetSpokenText(AsWritten, s, keys);
      r == Ok("") && s'.written == s.written + [Frame(Control, true), Frame(Control, false)] + Press(keys)
    ensures var (r, s') := SendKeysAndGetSpokenText(Corrected, s, keys);
      r == Err(Timeout) && s'.written == s.written + [Frame(Control, true), Frame(Control, false)]
  {
    SilentStop(s);
    SilentStopWait(s.feed.(listener := Cancel(false)), s.now, s.now, StopTimeout);
    StopReadingLaws(AsWritten, s, None);
    StopReadingLaws(Corrected, s, None);
    SpokenAfterKeysFrames(AsWritten, s, keys);
    var (_, s1) := StopReading(AsWritten, s, None);
    assert s1.feed.inbound == [] && Connected(s1);
    var s2 := s1.(feed := s1.feed.(listener := Speech("", None)), written := s1.written + Press(keys));
    SilentSpeechWait(s2.feed, s2.now, s2.now, SpeechTimeout, SpeechWindow);
  }

  // ------------------------------------------------------------------ disposal

  /** NvdaDriver.Dispose as written: NvdaDriver fills its own logger field and never the
      disposer's Logger, so the disposer's first log line runs on a null logger and throws
      ArgumentNull before IsDisposed is set. Nothing changes, and every later call is
      still tracked as before. */
  function DisposeAsWritten(s: Session): (Outcome, Session) {
    (Fail(ArgumentNull), s)
  }

  /** Dispose once the disposer has a logger, with the finaliser as written: the first
      call marks the driver disposed and, with no call pending, runs FinishDisposeAsync at
      once; its DisconnectAsync goes through Track, which now refuses, so the
      ObjectDisposed ends up in a task nobody observes and the connection and NVDA are
      left as they were. Later calls do nothing. */
  function DisposeWithLogger(s: Session): Session {
    if s.disposed then s
    else
      var s1 := s.(disposed := true);
      var (_, s2) := Disconnect(AsWritten, s1, Desktop);
      s2
  }

  /** Dispose as intended: the first call disconnects as DisconnectAsync does before
      disposal (its exception, if any, still unobserved) and marks the driver disposed. */
  function DisposeCorrected(s: Session, layout: KeyboardLayout): Session {
    if s.disposed then s
    else
      var (_, s1) := DisconnectInternal(Corrected, s, layout);
      s1.(disposed := true)
  }

  /** Dispose in either variant. */
  function Dispose(v: Variant, s: Session, layout: KeyboardLayout): (Outcome, Session) {
    if v == AsWritten then DisposeAsWritten(s) else (Pass, DisposeCorrected(s, layout))
  }

  /** Dispose through the disposal gate. As written the disposer has no logger, so its
      Dispose throws ArgumentNull and leaves the gate as it was, still tracking new calls.
      Given a logger and nothing pending, Dispose marks the gate disposed and runs the
      finaliser at once; the finaliser's DisconnectAsync asks the same gate to track it and
      is refused, so the driver is only marked disposed and nothing else about it changes. */
  lemma DisposeThroughGate(s: Session, g: Disposal.Gate)
    requires Disposal.Inv(g) && !g.disposed && g.tasks == [] && !s.disposed
    ensures Disposal.GateDispose(g, false) == (Err(ArgumentNull), g)
      && Disposal.GateTrack(g, Some(()), false).0.value.Tracked?
      && DisposeAsWritten(s) == (Fail(ArgumentNull), s)
    ensures var (step, g1) := Disposal.GateDispose(g, true);
      && step == Ok(true) && g1.disposed && g1.finalised == g.finalised + 1
      && Disposal.GateTrack(g1, Some(()), true) == (Ok(Disposal.Refused), g1)
      && Disconnect(AsWritten, s.(disposed := true), Desktop) == (Fail(ObjectDisposed), s.(disposed := true))
      && DisposeWithLogger(s) == s.(disposed := true)
  {
  }

  /** Disposing as written throws ArgumentNull and leaves a connected driver connected and
      undisposed, again on every later call; given a logger, Dispose marks the driver
      disposed but still leaves it connected, with NVDA never asked to quit; as intended it
      quits NVDA and disconnects. The last two are idempotent, and the corrected disposed
      driver refuses to connect again. */
  lemma DisposeLeavesConnected(s: Session, layout: KeyboardLayout)
    requires !s.disposed && Connected(s) && s.cts == Some(TokenSource(false, false))
    requires s.feed.reader.Running? && s.process.Some?
    ensures var (r, d) := Dispose(AsWritten, s, layout);
      && r == Fail(ArgumentNull) && d == s && Connected(d) && !d.disposed
      && Dispose(AsWritten, d, layout) == (Fail(ArgumentNull), d)
    ensures var d := DisposeWithLogger(s);
      && Connected(d) && d.written == s.written && d.disposed
      && DisposeWithLogger(d) == d
    ensures var (r, d) := Dispose(Corrected, s, layout);
      && r == Pass && !Connected(d) && d.disposed && d.feed.reader == Stopped
      && d.written == s.written + [Frame(Nvda, true), Frame(Q, true),
                                   Frame(Q, false), Frame(Nvda, false)]
      && Dispose(Corrected, d, layout) == (Pass, d)
      && Connect(d, Defaults()) == (Fail(ObjectDisposed), d)
  {
    DisconnectLaws(Corrected, s, layout);
  }
}
