/** Time and the inbound side of the connection, as the driver's polling loops see them.
    The clock is a logical count of milliseconds: Task.Delay(100) and Thread.Sleep(500)
    advance it by exactly that much, writes take no time. What NVDA Remote sends is a
    script of timed frames; the background reader hands each one, once its time has come,
    to ParseMessage and raises the resulting event to whichever handler is subscribed. */
module Polling {
  import opened Wrappers
  import opened Text
  import opened Wire

  /** A frame NVDA Remote sends, the time it reaches the reader, and the JSON document
      JObject.Parse reads from it (None when the frame is not valid JSON). */
  datatype Arrival = Arrival(at: int, frame: string, doc: Option<Json>)

  /** _taskReceivingMessages: not started (null), reading, finished, or faulted with the
      exception that escaped the reading loop. */
  datatype Reader = NotStarted | Running | Stopped | Faulted(error: Error)

  /** The handler subscribed to the reader's events: none, LocalSpeakReceived of a pending
      speech wait (its StringBuilder and firstMessageTime), or ONLocalSpeakCancelled of a
      pending stop (its cancelReceived flag). */
  datatype Listener = Nobody | Speech(text: string, first: Option<int>) | Cancel(received: bool)

  /** The reader, the frames it has not read yet and the subscribed handler. */
  datatype Feed = Feed(reader: Reader, inbound: seq<Arrival>, listener: Listener)

  // ------------------------------------------------------------------ handlers

  /** One event reaching the subscribed handler at time `at`. LocalSpeakReceived ignores a
      blank message, records the time of the first one, and appends the others after a
      line break; ONLocalSpeakCancelled sets its flag; other events are not heard. */
  function Deliver(l: Listener, at: int, e: Option<Event>): Listener {
    match (l, e)
    case (Speech(text, first), Some(Spoken(m))) =>
      if IsNullOrWhiteSpace(m) then l
      else Speech(text + (if |text| > 0 then NewLine else "") + m, if |text| == 0 then Some(at) else first)
    case (Cancel(_), Some(Cancelled)) => Cancel(true)
    case _ => l
  }

  /** A spoken message and the time it was raised. */
  datatype Heard = Heard(at: int, text: string)

  /** The speech handler after hearing `said`, in order. */
  function Listen(l: Listener, said: seq<Heard>): Listener
    decreases |said|
  {
    if said == [] then l
    else
      var last := said[|said| - 1];
      Deliver(Listen(l, said[..|said| - 1]), last.at, Some(Spoken(last.text)))
  }

  /** The non-blank messages of `said`, in order. */
  function Voiced(said: seq<Heard>): (r: seq<Heard>)
    ensures |r| <= |said|
    ensures forall i | 0 <= i < |r| :: !IsNullOrWhiteSpace(r[i].text)
    decreases |said|
  {
    if said == [] then []
    else
      var last := said[|said| - 1];
      Voiced(said[..|said| - 1]) + (if IsNullOrWhiteSpace(last.text) then [] else [last])
  }

  function Texts(hs: seq<Heard>): (r: seq<string>)
    ensures |r| == |hs|
    ensures forall i | 0 <= i < |hs| :: r[i] == hs[i].text
  {
    seq(|hs|, i requires 0 <= i < |hs| => hs[i].text)
  }

  /** A speech wait collects the non-blank messages joined by line breaks, and its first
      time is that of the first non-blank message. */
  lemma {:induction false} ListenJoins(said: seq<Heard>)
    ensures var v := Voiced(said);
      Listen(Speech("", None), said) == Speech(Join(NewLine, Texts(v)), if v == [] then None else Some(v[0].at))
    decreases |said|
  {
    if said != [] {
      var init := said[..|said| - 1];
      var last := said[|said| - 1];
      var v := Voiced(init);
      ListenJoins(init);
      assert Listen(Speech("", None), said) == Deliver(Listen(Speech("", None), init), last.at, Some(Spoken(last.text)));
      if IsNullOrWhiteSpace(last.text) {
        assert Voiced(said) == v;
      } else {
        assert Voiced(said) == v + [last];
        assert Texts(v + [last]) == Texts(v) + [last.text];
        if v == [] {
          assert Texts([last]) == [last.text];
        } else {
          assert v[0].text != "";
          assert |Join(NewLine, Texts(v))| >= |Texts(v)[0]|;
          JoinAppend(NewLine, Texts(v), last.text);
          assert (v + [last])[0] == v[0];
        }
      }
    }
  }

  // ------------------------------------------------------------------ the reader

  /** Nothing due is left unread: the reader is not running, or its next frame is later
      than `now`. */
  predicate Quiet(f: Feed, now: int) {
    f.reader != Running || f.inbound == [] || f.inbound[0].at > now
  }

  /** The reader catching up with the clock: every frame due by `now` is parsed in order
      and its event delivered; a frame ParseMessage throws on faults the reader, which
      then reads nothing more. */
  function Pump(f: Feed, now: int): Feed
    decreases |f.inbound|
  {
    if Quiet(f, now) then f
    else
      var a := f.inbound[0];
      match MessageEvent(a.frame, a.doc)
      case Err(e) => Feed(Faulted(e), f.inbound[1..], f.listener)
      case Ok(ev) => Pump(Feed(Running, f.inbound[1..], Deliver(f.listener, a.at, ev)), now)
  }

  /** Pumping reads a prefix of the script, only frames due by `now`, and leaves nothing
      due unread; a reader that is not running reads nothing; the handler keeps its kind. */
  lemma {:induction false} PumpLaws(f: Feed, now: int)
    ensures var g := Pump(f, now);
      && Quiet(g, now)
      && |g.inbound| <= |f.inbound| && g.inbound == f.inbound[|f.inbound| - |g.inbound|..]
      && (forall i | 0 <= i < |f.inbound| - |g.inbound| :: f.inbound[i].at <= now)
      && (f.reader != Running ==> g == f)
      && (f.listener.Speech? <==> g.listener.Speech?)
      && (f.listener.Cancel? <==> g.listener.Cancel?)
    decreases |f.inbound|
  {
    if !Quiet(f, now) {
      var a := f.inbound[0];
      var ev := MessageEvent(a.frame, a.doc);
      if ev.Ok? {
        var f' := Feed(Running, f.inbound[1..], Deliver(f.listener, a.at, ev.value));
        PumpLaws(f', now);
        var g := Pump(f', now);
        assert f.inbound[1..][|f.inbound[1..]| - |g.inbound|..] == f.inbound[|f.inbound| - |g.inbound|..];
      }
    }
  }

  // ------------------------------------------------------------- the speech wait

  /** The speech wait's loop condition, apart from the timeout: nothing collected yet, or
      the window since the first message has not elapsed. */
  predicate Collecting(l: Listener, now: int, window: int) {
    l.Speech? && (l.text == "" || (l.first.Some? && now - l.first.value < window))
  }

  /** GetNextSpokenMessage's loop: while collecting and within the timeout, wait 100 ms
      and let the reader catch up. Gives the feed and the time at exit. */
  function SpeechWait(f: Feed, now: int, opStart: int, timeout: int, window: int): (Feed, int)
    decreases opStart + timeout - now
  {
    if Collecting(f.listener, now, window) && now - opStart < timeout then
      SpeechWait(Pump(f, now + 100), now + 100, opStart, timeout, window)
    else (f, now)
  }

  /** A speech handler's text is empty exactly while it has no first time. */
  predicate WellFormed(l: Listener) {
    l.Speech? ==> (l.text == "" <==> l.first.None?)
  }

  lemma {:induction false} PumpWellFormed(f: Feed, now: int)
    requires WellFormed(f.listener)
    ensures WellFormed(Pump(f, now).listener)
    decreases |f.inbound|
  {
    if !Quiet(f, now) {
      var a := f.inbound[0];
      var ev := MessageEvent(a.frame, a.doc);
      if ev.Ok? {
        PumpWellFormed(Feed(Running, f.inbound[1..], Deliver(f.listener, a.at, ev.value)), now);
      }
    }
  }

  /** The wait advances in whole 100 ms steps, stops at the first step where it is no
      longer collecting or the timeout has elapsed, and so never overshoots the timeout by
      a full step; with nothing collected it only stops at the timeout. */
  lemma {:induction false} SpeechWaitExit(f: Feed, now: int, opStart: int, timeout: int, window: int)
    requires f.listener.Speech? && WellFormed(f.listener)
    ensures var (g, t) := SpeechWait(f, now, opStart, timeout, window);
      && t >= now && (t - now) % 100 == 0
      && g.listener.Speech? && WellFormed(g.listener)
      && (!Collecting(g.listener, t, window) || t - opStart >= timeout)
      && (t == now || t - opStart < timeout + 100)
      && (g.listener.text == "" ==> t - opStart >= timeout)
    decreases opStart + timeout - now
  {
    if Collecting(f.listener, now, window) && now - opStart < timeout {
      PumpLaws(f, now + 100);
      PumpWellFormed(f, now + 100);
      SpeechWaitExit(Pump(f, now + 100), now + 100, opStart, timeout, window);
    }
  }

  /** With no reader running, or nothing left to read, the wait runs until the first
      100 ms step at or past the timeout: exactly at the timeout when that is a whole
      number of steps away. */
  lemma {:induction false} SilentSpeechWait(f: Feed, now: int, opStart: int, timeout: int, window: int)
    requires (f.reader != Running || f.inbound == []) && f.listener == Speech("", None)
    requires now - opStart <= timeout && (opStart + timeout - now) % 100 == 0
    ensures SpeechWait(f, now, opStart, timeout, window) == (f, opStart + timeout)
    decreases opStart + timeout - now
  {
    if now - opStart < timeout {
      SilentSpeechWait(f, now + 100, opStart, timeout, window);
    }
  }

  /** GetNextSpokenMessage's verdict as written: Timeout only when nothing was collected
      and the elapsed time is strictly past the timeout. */
  function SpeechResultAsWritten(text: string, elapsed: int, timeout: int): Result<string> {
    if text == "" && elapsed > timeout then Err(Timeout) else Ok(text)
  }

  /** The verdict the wait is meant to give: the collected text, or Timeout when there is
      none. */
  function SpeechResult(text: string): (r: Result<string>)
    ensures r.Err? <==> text == ""
    ensures r.Err? ==> r.error == Timeout
    ensures r.Ok? ==> r.value == text
  {
    if text == "" then Err(Timeout) else Ok(text)
  }

  /** The two verdicts differ only on an empty text at exactly the timeout, where the
      written one returns the empty string. */
  lemma SpeechResultsDiffer(text: string, elapsed: int, timeout: int)
    requires text == "" ==> elapsed >= timeout
    ensures SpeechResultAsWritten(text, elapsed, timeout) != SpeechResult(text) <==>
      text == "" && elapsed == timeout
  {
  }

  /** A wait in which nothing arrives, with the default 3 s timeout and 300 ms window,
      ends at exactly 3000 ms and, as written, returns the empty string as the message. */
  lemma EmptyMessageAtTimeout(f: Feed)
    requires (f.reader != Running || f.inbound == []) && f.listener == Speech("", None)
    ensures SpeechWait(f, 0, 0, 3000, 300) == (f, 3000)
    ensures SpeechResultAsWritten(f.listener.text, 3000, 3000) == Ok("")
    ensures SpeechResult(f.listener.text) == Err(Timeout)
  {
    SilentSpeechWait(f, 0, 0, 3000, 300);
  }

  // ---------------------------------------------------------------- the stop wait

  /** StopReading's loop: while no cancel has been heard and within the timeout, wait
      100 ms and let the reader catch up. */
  function StopWait(f: Feed, now: int, opStart: int, timeout: int): (Feed, int)
    decreases opStart + timeout - now
  {
    if f.listener == Cancel(false) && now - opStart < timeout then
      StopWait(Pump(f, now + 100), now + 100, opStart, timeout)
    else (f, now)
  }

  /** The stop wait ends once a cancel is heard or the timeout has elapsed, in whole
      100 ms steps, overshooting the timeout by less than a step. */
  lemma {:induction false} StopWaitExit(f: Feed, now: int, opStart: int, timeout: int)
    requires f.listener.Cancel?
    ensures var (g, t) := StopWait(f, now, opStart, timeout);
      && t >= now && (t - now) % 100 == 0
      && g.listener.Cancel?
      && (g.listener.received || t - opStart >= timeout)
      && (t == now || t - opStart < timeout + 100)
      && (f.listener.received ==> (g, t) == (f, now))
    decreases opStart + timeout - now
  {
    if f.listener == Cancel(false) && now - opStart < timeout {
      PumpLaws(f, now + 100);
      StopWaitExit(Pump(f, now + 100), now + 100, opStart, timeout);
    }
  }

  /** With nothing to read, the stop wait runs until the timeout: exactly to it when that
      is a whole number of steps away. */
  lemma {:induction false} SilentStopWait(f: Feed, now: int, opStart: int, timeout: int)
    requires (f.reader != Running || f.inbound == []) && f.listener == Cancel(false)
    requires now - opStart <= timeout && (opStart + timeout - now) % 100 == 0
    ensures StopWait(f, now, opStart, timeout) == (f, opStart + timeout)
    decreases opStart + timeout - now
  {
    if now - opStart < timeout {
      SilentStopWait(f, now + 100, opStart, timeout);
    }
  }

  /** StopReading's verdict as written: Timeout whenever the elapsed time is past the
      timeout, whether or not the cancel came. */
  function StopResultAsWritten(elapsed: int, timeout: int): Outcome {
    if elapsed > timeout then Fail(Timeout) else Pass
  }

  /** The verdict the stop is meant to give: Timeout exactly when no cancel was heard. */
  function StopResult(received: bool): (r: Outcome)
    ensures r.Fail? <==> !received
    ensures r.Fail? ==> r.error == Timeout
  {
    if received then Pass else Fail(Timeout)
  }

  /** NVDA Remote's cancel message. */
  const CancelMessage: Json := JObject(map["type" := JString("cancel")])
  const CancelFrame: string := "{\"type\": \"cancel\"}"

  lemma CancelFrameEvent(at: int)
    ensures MessageEvent(CancelFrame, Some(CancelMessage)) == Ok(Some(Cancelled))
  {
    assert CancelFrame[0] !in WhiteSpace;
    assert CancelMessage.fields["type"] == JString("cancel");
    assert !IsNullOrWhiteSpace("cancel") by { assert "cancel"[0] !in WhiteSpace; }
  }

  /** A stop with a 450 ms timeout whose cancel arrives at 420 ms hears it on the step that
      ends at 500 ms, and is then reported, as written, as a Timeout. */
  lemma LateCancelTimesOut()
    ensures var f := Feed(Running, [Arrival(420, CancelFrame, Some(CancelMessage))], Cancel(false));
      && StopWait(f, 0, 0, 450) == (Feed(Running, [], Cancel(true)), 500)
      && StopResultAsWritten(500 - 0, 450) == Fail(Timeout)
      && StopResult(true) == Pass
  {
    var f := Feed(Running, [Arrival(420, CancelFrame, Some(CancelMessage))], Cancel(false));
    CancelFrameEvent(420);
    assert Pump(f, 100) == f && Pump(f, 200) == f && Pump(f, 300) == f && Pump(f, 400) == f;
    assert StopWait(f, 400, 0, 450) == StopWait(Pump(f, 500), 500, 0, 450);
    assert Pump(f, 500) == Pump(Feed(Running, [], Cancel(true)), 500);
  }

  // ------------------------------------------------------------ the socket retry

  /** One connection attempt: how long it takes and whether it succeeds. */
  datatype Dial = Dial(duration: nat, ok: bool)

  /** ConnectSocketAsync's loop over a script of attempts (an exhausted script fails at
      once): a success ends it; a failure past the timeout rethrows; any other failure
      sleeps 500 ms and tries again. Gives the verdict, the unused attempts and the time. */
  function SocketLoop(dials: seq<Dial>, now: int, opStart: int, timeout: int): (Outcome, seq<Dial>, int)
    decreases |dials|, opStart + timeout + 1 - now
  {
    var d := if dials == [] then Dial(0, false) else dials[0];
    var rest := if dials == [] then [] else dials[1..];
    var t := now + d.duration;
    if d.ok then (Pass, rest, t)
    else if t - opStart > timeout then (Fail(Socket), rest, t)
    else SocketLoop(rest, t + 500, opStart, timeout)
  }

  /** Total duration of some attempts. */
  function Durations(ds: seq<Dial>): nat
    decreases |ds|
  {
    if ds == [] then 0 else ds[0].duration + Durations(ds[1..])
  }

  /** The loop uses a prefix of the script. It connects only on a successful attempt after
      failed ones, having slept 500 ms after each failure; it gives up only with a socket
      error once more than the timeout has elapsed. */
  lemma {:induction false} SocketLoopLaws(dials: seq<Dial>, now: int, opStart: int, timeout: int)
    ensures var (r, rest, t) := SocketLoop(dials, now, opStart, timeout);
      var used := |dials| - |rest|;
      && 0 <= used <= |dials| && rest == dials[used..]
      && t >= now
      && (r.Fail? ==> r.error == Socket && t - opStart > timeout)
      && (r.Pass? ==> 1 <= used && dials[used - 1].ok && (forall i | 0 <= i < used - 1 :: !dials[i].ok)
                      && t == now + Durations(dials[..used]) + 500 * (used - 1))
    decreases |dials|, opStart + timeout + 1 - now
  {
    var d := if dials == [] then Dial(0, false) else dials[0];
    var rest := if dials == [] then [] else dials[1..];
    var t := now + d.duration;
    if d.ok {
      assert dials[..1] == [dials[0]];
    } else if t - opStart <= timeout {
      SocketLoopLaws(rest, t + 500, opStart, timeout);
      var (r, rest', t') := SocketLoop(rest, t + 500, opStart, timeout);
      if r.Pass? && dials != [] {
        var used := |rest| - |rest'|;
        assert dials[..used + 1][1..] == rest[..used];
      }
    }
  }
}
