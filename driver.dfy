/** NvdaDriver: the object a test holds. Its fields change step by step as the source's do;
    every public method is proved to leave the driver in the state, and give the result,
    that Protocol prescribes for the state it started in. The reader thread is modelled
    by CatchUp, run whenever the clock moves. */
module Driver {
  import opened Wrappers
  import opened Keys
  import opened Commands
  import opened Settings
  import opened Wire
  import opened Polling
  import opened Protocol

  class NvdaDriver {
    /** Whether this driver behaves as the code is written or with the findings corrected. */
    const variant: Variant
    const options: Options
    var tcp: Option<bool>
    var network: bool
    var ssl: Option<bool>
    var cts: Option<TokenSource>
    var reader: Reader
    var inbound: seq<Arrival>
    var listener: Listener
    var process: Option<bool>
    var ini: Option<Options>
    var written: seq<Message>
    var dials: seq<Dial>
    var now: int
    var disposed: bool

    /** The driver's fields as a Protocol.Session. */
    function State(): Session
      reads this
    {
      Session(tcp, network, ssl, cts, Feed(reader, inbound, listener), process, ini, written, dials, now, disposed)
    }

    /** The keyboard layout the options select. */
    function Layout(): KeyboardLayout {
      options.keyboard.keyboardLayout
    }

    /** NvdaDriver(options): nothing is connected or started. NVDA's future messages and
        the TCP attempts' outcomes are given as scripts, and the clock's starting time. */
    constructor (variant: Variant, options: Options, inbound: seq<Arrival>, dials: seq<Dial>, now: int)
      ensures this.variant == variant && this.options == options
      ensures State() == Initial(inbound, dials, now)
    {
      this.variant := variant;
      this.options := options;
      tcp := None;
      network := false;
      ssl := None;
      cts := None;
      reader := NotStarted;
      this.inbound := inbound;
      listener := Nobody;
      process := None;
      ini := None;
      written := [];
      this.dials := dials;
      this.now := now;
      disposed := false;
    }

    // -------------------------------------------------------------- the wire

    /** WriteMessageAsync: the message goes out on the TLS stream. */
    method WriteMessage(m: Message)
      modifies this
      ensures State() == old(State()).(written := old(written) + [m])
    {
      written := written + [m];
    }

    /** SendKeysAsync's body: CheckConnectivity, every key down in order, then every key up
        in reverse order. */
    method SendKeysInternal(keys: seq<Key>) returns (r: Outcome)
      requires !disposed
      modifies this
      ensures (r, State()) == Protocol.SendKeys(variant, old(State()), keys)
    {
      r := Check(variant, State());
      if r.Fail? {
        return;
      }
      ghost var start := written;
      PressDown(keys);
      Release(keys);
      assert written == start + Press(keys);
    }

    /** The first loop of SendKeysInternal: a key-down frame per key, in order. */
    method PressDown(keys: seq<Key>)
      modifies this
      ensures State() == old(State()).(written := old(written) + KeyFrames(keys, true))
    {
      for i := 0 to |keys|
        invariant State() == old(State()).(written := old(written) + KeyFrames(keys[..i], true))
      {
        assert keys[..i + 1] == keys[..i] + [keys[i]];
        WriteMessage(Frame(keys[i], true));
      }
      assert keys[..|keys|] == keys;
    }

    /** The second loop of SendKeysInternal: a key-up frame per key, from the last key back
        to the first. */
    method Release(keys: seq<Key>)
      modifies this
      ensures State() == old(State()).(written := old(written) + KeyFrames(Reversed(keys), false))
    {
      var j := |keys|;
      while j > 0
        invariant 0 <= j <= |keys|
        invariant State() == old(State()).(written := old(written) + KeyFrames(Reversed(keys)[..|keys| - j], false))
      {
        j := j - 1;
        assert Reversed(keys)[..|keys| - j] == Reversed(keys)[..|keys| - j - 1] + [keys[j]];
        WriteMessage(Frame(keys[j], false));
      }
      assert Reversed(keys)[..|keys|] == Reversed(keys);
    }

    /** SendKeysAsync: tracked, then sent. */
    method SendKeys(keys: seq<Key>) returns (r: Outcome)
      modifies this
      ensures (r, State()) == Protocol.SendKeys(variant, old(State()), keys)
    {
      if disposed {
        return Fail(ObjectDisposed);
      }
      r := SendKeysInternal(keys);
    }

    /** SendCombinationsInternalAsync: SendKeysAsync on each combination, stopping at the
        first exception. */
    method SendKeyCombinations(cs: seq<seq<Key>>) returns (r: Outcome)
      modifies this
      ensures (r, State()) == Protocol.SendKeyCombinations(variant, old(State()), cs)
    {
      if disposed {
        return Fail(ObjectDisposed);
      }
      r := Pass;
      for i := 0 to |cs|
        invariant (Pass, State()) == SendAll(variant, old(State()), cs[..i])
        invariant r == Pass
      {
        assert cs[..i + 1][..i] == cs[..i];
        r := SendKeys(cs[i]);
        if r.Fail? {
          assert cs == cs[..i + 1] + cs[i + 1..];
          SendAllStops(variant, old(State()), cs[..i + 1], cs[i + 1..]);
          return;
        }
      }
      assert cs[..|cs|] == cs;
    }

    /** SendKeySequenceInternalAsync: SendKeysAsync on each key alone. */
    method SendKeySequence(keys: seq<Key>) returns (r: Outcome)
      modifies this
      ensures (r, State()) == Protocol.SendKeySequence(variant, old(State()), keys)
    {
      if disposed {
        return Fail(ObjectDisposed);
      }
      r := Pass;
      for i := 0 to |keys|
        invariant (Pass, State()) == SendAll(variant, old(State()), Singles(keys)[..i])
        invariant r == Pass
      {
        assert Singles(keys)[..i + 1][..i] == Singles(keys)[..i];
        r := SendKeys([keys[i]]);
        if r.Fail? {
          assert Singles(keys) == Singles(keys)[..i + 1] + Singles(keys)[i + 1..];
          SendAllStops(variant, old(State()), Singles(keys)[..i + 1], Singles(keys)[i + 1..]);
          return;
        }
      }
      assert Singles(keys)[..|keys|] == Singles(keys);
    }

    /** SendKeyCombinationSet: SendKeysAsync on each combination holding a key. */
    method SendKeyCombinationSet(cs: seq<seq<Key>>) returns (r: Outcome)
      modifies this
      ensures (r, State()) == Protocol.SendKeyCombinationSet(variant, old(State()), cs)
    {
      r := Pass;
      for i := 0 to |cs|
        invariant (Pass, State()) == SendAll(variant, old(State()), NonEmpty(cs[..i]))
        invariant r == Pass
      {
        NonEmptyStep(variant, old(State()), cs, i);
        if cs[i] != [] {
          r := SendKeys(cs[i]);
          if r.Fail? {
            CombinationSetStops(variant, old(State()), cs, i);
            return;
          }
        }
      }
      assert cs[..|cs|] == cs;
    }

    /** SendCommandAsync: the null check, the description, the combination set, then the
        tracked send. */
    method SendCommand(command: Option<CommandView>) returns (r: Outcome)
      modifies this
      ensures (r, State()) == Protocol.SendCommand(variant, old(State()), Layout(), command)
    {
      if command.None? {
        return Fail(ArgumentNull);
      }
      var description := GetDescription(command);
      if description.Err? {
        return Fail(description.error);
      }
      var chosen := Select(variant, Layout(), command);
      if chosen.Err? {
        return Fail(chosen.error);
      }
      if disposed {
        return Fail(ObjectDisposed);
      }
      r := SendKeyCombinationSet(chosen.value);
    }

    // -------------------------------------------------------- reader and clock

    /** The reader thread catching up with the clock: each frame due by `upTo` is parsed
        and handed to the subscribed handler; a parse failure faults the reader. */
    method CatchUp(upTo: int)
      modifies this
      ensures State() == old(State()).(feed := Pump(old(State()).feed, upTo))
    {
      while reader == Running && inbound != [] && inbound[0].at <= upTo
        invariant State().(feed := Pump(State().feed, upTo)) == old(State()).(feed := Pump(old(State()).feed, upTo))
        decreases |inbound|
      {
        var a := inbound[0];
        var e := ParseMessage(a.frame, a.doc);
        inbound := inbound[1..];
        if e.Err? {
          reader := Faulted(e.error);
        } else {
          listener := Deliver(listener, a.at, e.value);
        }
      }
    }

    /** Task.Delay: the clock moves on and the reader catches up meanwhile. */
    method Delay(ms: nat)
      modifies this
      ensures State() == old(State()).(now := old(now) + ms, feed := Pump(old(State()).feed, old(now) + ms))
    {
      now := now + ms;
      CatchUp(now);
    }

    // ------------------------------------------------------- waiting on speech

    /** StopReadingAsync's body: subscribe, send Control, wait in 100 ms steps for the
        cancel, then decide and unsubscribe. */
    method StopReadingInternal(timeout: Option<int>) returns (r: Outcome)
      requires !disposed
      modifies this
      ensures (r, State()) == Protocol.StopReading(variant, old(State()), timeout)
    {
      var limit := if timeout.None? then StopTimeout else timeout.value;
      listener := Cancel(false);
      var operationStart := now;
      r := SendKeys([Control]);
      if r.Fail? {
        listener := Nobody;
        return;
      }
      WaitForCancel(operationStart, limit);
      ghost var waited := State();
      r := StopVerdict(variant, listener == Cancel(true), now - operationStart, limit);
      listener := Nobody;
      assert State() == waited.(feed := waited.feed.(listener := Nobody));
    }

    /** StopReadingAsync's loop: wait in 100 ms steps until the cancel is heard or the
        timeout, counted from the operation's start, has elapsed. */
    method WaitForCancel(operationStart: int, limit: int)
      modifies this
      ensures var (g, t) := StopWait(old(State()).feed, old(now), operationStart, limit);
        State() == old(State()).(feed := g, now := t)
    {
      ghost var sent := State();
      while listener == Cancel(false) && now - operationStart < limit
        invariant StopWait(State().feed, now, operationStart, limit) == StopWait(sent.feed, sent.now, operationStart, limit)
        invariant State().(feed := sent.feed, now := sent.now) == sent
        decreases operationStart + limit - now
      {
        Delay(100);
      }
    }

    /** StopReadingAsync: tracked, then run. */
    method StopReading(timeout: Option<int>) returns (r: Outcome)
      modifies this
      ensures (r, State()) == Protocol.StopReading(variant, old(State()), timeout)
    {
      if disposed {
        return Fail(ObjectDisposed);
      }
      r := StopReadingInternal(timeout);
    }

    /** The action a wait runs, through the driver's own public methods. */
    method RunAction(a: Action) returns (r: Outcome)
      modifies this
      ensures (r, State()) == Protocol.RunAction(variant, old(State()), a)
    {
      match a
      case NoAction => r := Pass;
      case PressKeys(keys) => r := SendKeys(keys);
      case PressSequence(keys) => r := SendKeySequence(keys);
      case PressCombinations(cs) => r := SendKeyCombinations(cs);
      case PressCombinationSet(cs) => r := SendKeyCombinationSet(cs);
    }

    /** GetNextSpokenMessageAsync's loop: from the current time, wait in 100 ms steps while
        the handler is collecting and the timeout has not elapsed. */
    method WaitForSpeech(limit: int, span: int)
      modifies this
      ensures var (g, t) := SpeechWait(old(State()).feed, old(now), old(now), limit, span);
        State() == old(State()).(feed := g, now := t)
    {
      var operationStart := now;
      ghost var start := State();
      while Collecting(listener, now, span) && now - operationStart < limit
        invariant SpeechWait(State().feed, now, operationStart, limit, span) == SpeechWait(start.feed, start.now, operationStart, limit, span)
        invariant State().(feed := start.feed, now := start.now) == start
        decreases operationStart + limit - now
      {
        Delay(100);
      }
    }

    /** GetNextSpokenMessageAsync: defaults, CheckConnectivity, subscribe, run the action,
        then wait in 100 ms steps while collecting and within the timeout. */
    method GetNextSpokenMessage(timeout: Option<int>, window: Option<int>, action: Action) returns (r: Result<string>)
      modifies this
      ensures (r, State()) == Protocol.GetNextSpokenMessage(variant, old(State()), timeout, window, action)
    {
      if disposed {
        return Err(ObjectDisposed);
      }
      var limit := if timeout.None? then SpeechTimeout else timeout.value;
      var span := if window.None? then SpeechWindow else window.value;
      var c := Check(variant, State());
      if c.Fail? {
        return Err(c.error);
      }
      r := Listen(limit, span, action);
    }

    /** GetNextSpokenMessageAsync once connected. */
    method Listen(limit: int, span: int, action: Action) returns (r: Result<string>)
      modifies this
      ensures (r, State()) == Protocol.Listen(variant, old(State()), limit, span, action)
    {
      ghost var s0 := State();
      listener := Speech("", None);
      assert State() == s0.(feed := s0.feed.(listener := Speech("", None)));
      var a := RunAction(action);
      ghost var s2 := State();
      if a.Fail? {
        listener := Nobody;
        assert State() == s2.(feed := s2.feed.(listener := Nobody));
        return Err(a.error);
      }
      var operationStart := now;
      WaitForSpeech(limit, span);
      ghost var s3 := State();
      r := SpeechVerdict(variant, if listener.Speech? then listener.text else "", now - operationStart, limit);
      listener := Nobody;
      assert State() == s3.(feed := s3.feed.(listener := Nobody));
    }

    /** GetNextSpokenMessageAsync(actionToExecute): a null action throws ArgumentNull. */
    method GetNextSpokenMessageAfter(action: Option<Action>) returns (r: Result<string>)
      modifies this
      ensures (r, State()) == Protocol.GetNextSpokenMessageAfter(variant, old(State()), action)
    {
      if action.None? {
        return Err(ArgumentNull);
      }
      r := GetNextSpokenMessage(None, None, action.value);
    }

    /** The shared body of the "...AndGetSpokenText" operations. */
    method SpokenAfter(action: Action) returns (r: Result<string>)
      modifies this
      ensures (r, State()) == Protocol.SpokenAfter(variant, old(State()), action)
    {
      var stop := StopReading(None);
      if stop.Fail? {
        return Err(stop.error);
      }
      r := GetNextSpokenMessage(None, None, action);
    }

    method SendKeysAndGetSpokenText(keys: seq<Key>) returns (r: Result<string>)
      modifies this
      ensures (r, State()) == Protocol.SendKeysAndGetSpokenText(variant, old(State()), keys)
    {
      if disposed {
        return Err(ObjectDisposed);
      }
      r := SpokenAfter(PressKeys(keys));
    }

    method SendKeySequenceAndGetSpokenText(keys: seq<Key>) returns (r: Result<string>)
      modifies this
      ensures (r, State()) == Protocol.SendKeySequenceAndGetSpokenText(variant, old(State()), keys)
    {
      if disposed {
        return Err(ObjectDisposed);
      }
      r := SpokenAfter(PressSequence(keys));
    }

    method SendKeyCombinationsAndGetSpokenText(cs: seq<seq<Key>>) returns (r: Result<string>)
      modifies this
      ensures (r, State()) == Protocol.SendKeyCombinationsAndGetSpokenText(variant, old(State()), cs)
    {
      if disposed {
        return Err(ObjectDisposed);
      }
      r := SpokenAfter(PressCombinations(cs));
    }

    method SendCommandAndGetSpokenText(command: Option<CommandView>) returns (r: Result<string>)
      modifies this
      ensures (r, State()) == Protocol.SendCommandAndGetSpokenText(variant, old(State()), Layout(), command)
    {
      if command.None? {
        return Err(ArgumentNull);
      }
      var description := GetDescription(command);
      if description.Err? {
        return Err(description.error);
      }
      var chosen := Select(variant, Layout(), command);
      if chosen.Err? {
        return Err(chosen.error);
      }
      if disposed {
        return Err(ObjectDisposed);
      }
      r := SpokenAfter(PressCombinationSet(chosen.value));
    }

    // -------------------------------------------------- connect and disconnect

    /** ConnectSocketAsync: attempts until one succeeds; a failure past the timeout
        rethrows, any other sleeps 500 ms first. */
    method ConnectSocket(timeout: int) returns (r: Outcome)
      modifies this
      ensures var (v, rest, t) := SocketLoop(old(dials), old(now), old(now), timeout);
        r == v && State() == old(State()).(dials := rest, now := t)
    {
      var operationStart := now;
      while true
        invariant State().(dials := old(dials), now := old(now)) == old(State())
        invariant SocketLoop(dials, now, operationStart, timeout) == SocketLoop(old(dials), old(now), old(now), timeout)
        invariant operationStart == old(now)
        decreases |dials|, operationStart + timeout + 1 - now
      {
        var d := if dials == [] then Dial(0, false) else dials[0];
        dials := if dials == [] then [] else dials[1..];
        now := now + d.duration;
        if d.ok {
          return Pass;
        }
        if now - operationStart > timeout {
          return Fail(Socket);
        }
        now := now + 500;
      }
    }

    /** ConnectAsync. */
    method Connect() returns (r: Outcome)
      modifies this
      ensures (r, State()) == Protocol.Connect(old(State()), options)
    {
      if disposed {
        return Fail(ObjectDisposed);
      }
      if tcp == Some(true) {
        return Fail(AlreadyConnected);
      }
      ini := Some(options);
      process := Some(false);
      tcp := Some(false);
      r := ConnectSocket(SocketTimeout);
      if r.Fail? {
        return;
      }
      OpenStreams();
    }

    /** What ConnectAsync does once the socket is connected: the streams and the token
        source are created, the reader starts and catches up, and the handshake is written. */
    method OpenStreams()
      modifies this
      ensures State() == old(State()).(tcp := Some(true), network := true, ssl := Some(true),
        cts := Some(TokenSource(false, false)), feed := Pump(Feed(Running, old(inbound), Nobody), old(now)),
        written := old(written) + [Handshake(ProtocolVersionMessage), Handshake(JoinMessage)])
    {
      tcp := Some(true);
      network := true;
      ssl := Some(true);
      cts := Some(TokenSource(false, false));
      reader := Running;
      listener := Nobody;
      ghost var streams := State();
      assert streams == old(State()).(tcp := Some(true), network := true, ssl := Some(true),
        cts := Some(TokenSource(false, false)), feed := Feed(Running, old(inbound), Nobody));
      CatchUp(now);
      ghost var caught := State();
      assert caught == streams.(feed := Pump(streams.feed, streams.now));
      WriteMessage(Handshake(ProtocolVersionMessage));
      WriteMessage(Handshake(JoinMessage));
      assert written == caught.written + [Handshake(ProtocolVersionMessage), Handshake(JoinMessage)];
    }

    /** DisconnectAsync's body. */
    method DisconnectInternal() returns (r: Outcome)
      requires !disposed
      modifies this
      ensures (r, State()) == Protocol.DisconnectInternal(variant, old(State()), Layout())
    {
      if ssl == Some(true) {
        r := SendCommand(Some(QuitNvda));
        if r.Fail? {
          return;
        }
      }
      r := TearDown();
    }

    /** DisconnectInternal after the quit command. */
    method TearDown() returns (r: Outcome)
      modifies this
      ensures (r, State()) == Protocol.TearDown(old(State()))
    {
      if cts.Some? && cts.value.disposed {
        return Fail(ObjectDisposed);
      }
      if cts.None? {
        return Fail(NullReference);
      }
      cts := Some(TokenSource(true, true));
      if reader.Faulted? {
        return Fail(reader.error);
      }
      if reader == Running {
        reader := Stopped;
      }
      tcp := if tcp.Some? then Some(false) else None;
      ssl := if ssl.Some? then Some(false) else None;
      if process.None? {
        return Fail(NullReference);
      }
      process := Some(true);
      r := Pass;
    }

    /** DisconnectAsync: tracked, then run. */
    method Disconnect() returns (r: Outcome)
      modifies this
      ensures (r, State()) == Protocol.Disconnect(variant, old(State()), Layout())
    {
      if disposed {
        return Fail(ObjectDisposed);
      }
      r := DisconnectInternal();
    }

    /** Dispose. As written, the disposer has no logger and every call throws ArgumentNull
        with nothing changed; corrected, the first call disconnects and then marks the
        driver disposed, and later calls do nothing. */
    method Dispose() returns (r: Outcome)
      modifies this
      ensures (r, State()) == Protocol.Dispose(variant, old(State()), Layout())
    {
      if variant == AsWritten {
        return Fail(ArgumentNull);
      }
      r := Pass;
      if disposed {
        return;
      }
      var _ := DisconnectInternal();
      disposed := true;
    }
  }
}
