/** What travels over the NVDA Remote connection: the JSON key frames the driver writes,
    the newline terminator, the handshake messages, the decoding of inbound speak and
    cancel messages, and the short-read rule that delimits an inbound message. */
module Wire {
  import opened Wrappers
  import opened Text
  import opened Keys

  // ------------------------------------------------------------- key frames

  /** bool.ToString(InvariantCulture).ToLowerInvariant(). */
  function BoolText(b: bool): string {
    if b then "true" else "false"
  }

  function ParseBool(s: string): Option<bool> {
    if s == "true" then Some(true) else if s == "false" then Some(false) else None
  }

  const ScanField: string := "{\"scan_code\": "
  const ExtendedField: string := " \"extended\": "
  const VkField: string := " \"vk_code\": "
  const PressedField: string := " \"pressed\": "
  const TypeField: string := " \"type\": \"key\"}"

  /** ToJsonKey: scan code, extended flag, virtual-key code, pressed flag and the type
      "key", in that order, booleans in lower case. */
  function KeyFrame(k: Key, down: bool): string {
    (ScanField + IntText(k.scanCode)) + "," + (ExtendedField + BoolText(k.extended)) + ","
      + (VkField + IntText(k.keyCode)) + "," + (PressedField + BoolText(down)) + "," + TypeField
  }

  /** What a key frame carries. */
  datatype KeyEvent = KeyEvent(scanCode: int, extended: bool, keyCode: int, pressed: bool)

  /** The rest of `part` after `prefix`, when it starts with it. */
  function After(part: string, prefix: string): Option<string> {
    if |prefix| <= |part| && part[..|prefix|] == prefix then Some(part[|prefix|..]) else None
  }

  /** Reads a frame in ToJsonKey's layout back: five comma-separated fields. */
  function DecodeKeyFrame(f: string): Option<KeyEvent> {
    var parts := Split(f, ',');
    if |parts| != 5 || parts[4] != TypeField then None
    else
      match (After(parts[0], ScanField), After(parts[1], ExtendedField), After(parts[2], VkField), After(parts[3], PressedField))
      case (Some(s), Some(e), Some(v), Some(p)) =>
        (match (ParseInt(s), ParseBool(e), ParseInt(v), ParseBool(p))
         case (Some(sc), Some(ex), Some(vk), Some(pr)) => Some(KeyEvent(sc, ex, vk, pr))
         case _ => None)
      case _ => None
  }

  /** The five comma-separated fields of a key frame. */
  function KeyFrameFields(k: Key, down: bool): seq<string> {
    [ ScanField + IntText(k.scanCode), ExtendedField + BoolText(k.extended),
      VkField + IntText(k.keyCode), PressedField + BoolText(down), TypeField ]
  }

  lemma KeyFrameIsJoin(k: Key, down: bool)
    ensures KeyFrame(k, down) == Join([','], KeyFrameFields(k, down))
  {
    JoinFive([','], ScanField + IntText(k.scanCode), ExtendedField + BoolText(k.extended),
      VkField + IntText(k.keyCode), PressedField + BoolText(down), TypeField);
  }

  lemma JoinFive(sep: string, a: string, b: string, c: string, d: string, e: string)
    ensures Join(sep, [a, b, c, d, e]) == a + sep + b + sep + c + sep + d + sep + e
  {
    assert [a, b, c, d, e][1..] == [b, c, d, e] && [b, c, d, e][1..] == [c, d, e];
    assert [c, d, e][1..] == [d, e] && [d, e][1..] == [e];
    var j4 := d + sep + e;
    assert Join(sep, [d, e]) == j4;
    var j3 := c + sep + j4;
    assert Join(sep, [c, d, e]) == j3;
    var j2 := b + sep + j3;
    assert Join(sep, [b, c, d, e]) == j2;
    assert Join(sep, [a, b, c, d, e]) == a + sep + j2;
  }

  lemma KeyFrameFieldsHaveNoComma(k: Key, down: bool)
    ensures forall i | 0 <= i < 5 :: ',' !in KeyFrameFields(k, down)[i]
  {
    var f := KeyFrameFields(k, down);
    assert forall j | 0 <= j < |IntText(k.scanCode)| :: IntText(k.scanCode)[j] != ',';
    assert forall j | 0 <= j < |IntText(k.keyCode)| :: IntText(k.keyCode)[j] != ',';
    assert ',' !in f[0] && ',' !in f[2];
  }

  lemma AfterPrefix(prefix: string, rest: string)
    ensures After(prefix + rest, prefix) == Some(rest)
  {
    assert (prefix + rest)[..|prefix|] == prefix;
    assert (prefix + rest)[|prefix|..] == rest;
  }

  /** Decoding a frame gives back the key's codes and the direction: distinct key events
      never share a frame. */
  lemma KeyFrameRoundTrip(k: Key, down: bool)
    ensures DecodeKeyFrame(KeyFrame(k, down)) == Some(KeyEvent(k.scanCode, k.extended, k.keyCode, down))
  {
    var f := KeyFrameFields(k, down);
    KeyFrameIsJoin(k, down);
    KeyFrameFieldsHaveNoComma(k, down);
    SplitJoin(f, ',');
    AfterPrefix(ScanField, IntText(k.scanCode));
    AfterPrefix(ExtendedField, BoolText(k.extended));
    AfterPrefix(VkField, IntText(k.keyCode));
    AfterPrefix(PressedField, BoolText(down));
    IntTextRoundTrip(k.scanCode);
    IntTextRoundTrip(k.keyCode);
  }

  // ------------------------------------------------------------- terminator

  /** WriteMessageAsync's rule: a line feed is appended unless the message already ends
      with one. */
  function Terminate(m: string): (r: string)
    ensures |r| >= 1 && r[|r| - 1] == '\n'
    ensures |m| <= |r| <= |m| + 1 && r[..|m|] == m
  {
    if |m| >= 1 && m[|m| - 1] == '\n' then m else m + "\n"
  }

  /** A terminated message is left as it is, so terminating twice is terminating once;
      an unterminated one gets exactly one line feed. */
  lemma TerminateLaws(m: string)
    ensures Terminate(Terminate(m)) == Terminate(m)
    ensures |m| >= 1 && m[|m| - 1] == '\n' ==> Terminate(m) == m
    ensures (|m| == 0 || m[|m| - 1] != '\n') ==> Terminate(m) == m + "\n"
  {
  }

  /** The handshake: the protocol version, then the join message, which already carries
      its line feed. */
  const ProtocolVersionMessage: string := "{\"version\": 2, \"type\": \"protocol_version\"}"
  const JoinMessage: string := "{\"connection_type\": \"master\", \"type\": \"join\", \"channel\": \"NvdaRemote\"}\n"

  lemma HandshakeFrames()
    ensures Terminate(ProtocolVersionMessage) == ProtocolVersionMessage + "\n"
    ensures Terminate(JoinMessage) == JoinMessage
  {
  }

  // --------------------------------------------------------- inbound JSON

  /** A parsed JSON value; numbers are the integers NVDA Remote sends. */
  datatype Json =
    | JNull
    | JBool(b: bool)
    | JNumber(n: int)
    | JString(s: string)
    | JArray(items: seq<Json>)
    | JObject(fields: map<string, Json>)

  /** What the reader raises: OnSpeakReceived with the text, or OnSpeakCancelled. */
  datatype Event = Spoken(text: string) | Cancelled

  /** jsonMessage["type"].Value<string>(): a missing member makes Value throw ArgumentNull,
      a JSON null gives null, scalars are converted to their text, containers cannot be
      cast. */
  function TypeOf(fields: map<string, Json>): Result<Option<string>> {
    if "type" !in fields then Err(ArgumentNull)
    else match fields["type"]
      case JNull => Ok(None)
      case JString(s) => Ok(Some(s))
      case JBool(b) => Ok(Some(if b then "True" else "False"))
      case JNumber(n) => Ok(Some(IntText(n)))
      case _ => Err(InvalidCast)
  }

  /** The characters SanitizeNvdaSpokenMessage trims. */
  const TrimChars: set<char> := {' ', '\r', '\n', '\t'}

  /** SanitizeNvdaSpokenMessage: trim, collapse white-space runs, URL-decode. */
  function Sanitize(m: string): string {
    UrlDecode(CollapseWhiteSpace(Trim(m, TrimChars)))
  }

  /** The text ParseSpeak builds from a "sequence" array: AppendLine of each sanitized
      string element; the other elements are skipped. */
  function SpeakText(items: seq<Json>): string
    decreases |items|
  {
    if items == [] then ""
    else
      var last := items[|items| - 1];
      SpeakText(items[..|items| - 1]) + (if last.JString? then Sanitize(last.s) + NewLine else "")
  }

  /** ParseSpeak(token): a null token raises nothing; an object whose type is "cancel"
      raises the cancel event; otherwise the string children are collected and raised as
      one speak event when the text is not empty. An object has no string children. */
  function SpeakEvent(token: Option<Json>): Result<Option<Event>> {
    if token.None? then Ok(None)
    else match token.value
      case JObject(fields) =>
        (match TypeOf(fields)
         case Err(e) => Err(e)
         case Ok(t) => Ok(if t == Some("cancel") then Some(Cancelled) else None))
      case JArray(items) => Ok(if |SpeakText(items)| > 0 then Some(Spoken(SpeakText(items))) else None)
      case _ => Ok(None)
  }

  /** ParseSpeak, with its StringBuilder loop. */
  method ParseSpeak(token: Option<Json>) returns (r: Result<Option<Event>>)
    ensures r == SpeakEvent(token)
  {
    if token.None? {
      return Ok(None);
    }

    if token.value.JObject? {
      var t := TypeOf(token.value.fields);
      if t.Err? {
        return Err(t.error);
      }
      if t.value == Some("cancel") {
        return Ok(Some(Cancelled));
      }
      return Ok(None);
    }
    if !token.value.JArray? {
      return Ok(None);
    }
    var text := CollectSpeech(token.value.items);
    if |text| > 0 {
      return Ok(Some(Spoken(text)));
    }
    return Ok(None);
  }

  /** ParseSpeak's StringBuilder loop: AppendLine of each sanitized string child. */
  method CollectSpeech(items: seq<Json>) returns (text: string)
    ensures text == SpeakText(items)
  {
    text := "";
    var i := 0;
    while i < |items|
      invariant 0 <= i <= |items|
      invariant text == SpeakText(items[..i])
    {
      assert items[..i + 1][..i] == items[..i];
      if items[i].JString? {
        text := text + Sanitize(items[i].s) + NewLine;
      }
      i := i + 1;
    }
    assert items[..|items|] == items;
  }

  /** What ParseMessage raises for a frame: a blank frame is ignored; a frame that is not
      a JSON object makes JObject.Parse throw; a blank or null type is ignored; "speak"
      hands the "sequence" member, cast to an array, to ParseSpeak; "cancel" hands it the
      message itself; any other type is ignored. */
  function MessageEvent(text: string, doc: Option<Json>): Result<Option<Event>> {
    if IsNullOrWhiteSpace(text) then Ok(None)
    else if doc.None? || !doc.value.JObject? then Err(JsonReader)
    else
      var fields := doc.value.fields;
      match TypeOf(fields)
      case Err(e) => Err(e)
      case Ok(t) =>
        if t.None? || IsNullOrWhiteSpace(t.value) then Ok(None)
        else if t.value == "speak" then
          if "sequence" !in fields then SpeakEvent(None)
          else if !fields["sequence"].JArray? then Err(InvalidCast)
          else SpeakEvent(Some(fields["sequence"]))
        else if t.value == "cancel" then SpeakEvent(doc)
        else Ok(None)
  }

  /** ParseMessage, dispatching to the ParseSpeak method. */
  method ParseMessage(text: string, doc: Option<Json>) returns (r: Result<Option<Event>>)
    ensures r == MessageEvent(text, doc)
  {
    if IsNullOrWhiteSpace(text) {
      return Ok(None);
    }
    if doc.None? || !doc.value.JObject? {
      return Err(JsonReader);
    }
    var fields := doc.value.fields;
    var t := TypeOf(fields);
    if t.Err? {
      return Err(t.error);
    }
    if t.value.None? || IsNullOrWhiteSpace(t.value.value) {
      return Ok(None);
    }
    if t.value.value == "speak" {
      if "sequence" !in fields {
        r := ParseSpeak(None);
      } else if !fields["sequence"].JArray? {
        r := Err(InvalidCast);
      } else {
        r := ParseSpeak(Some(fields["sequence"]));
      }
    } else if t.value.value == "cancel" {
      r := ParseSpeak(doc);
    } else {
      r := Ok(None);
    }
  }

  /** Each string element adds at least a line break, so the speak text is empty exactly
      when the array holds no string. */
  lemma {:induction false} SpeakTextEmpty(items: seq<Json>)
    ensures SpeakText(items) == "" <==> forall i | 0 <= i < |items| :: !items[i].JString?
    decreases |items|
  {
    if items != [] {
      var init := items[..|items| - 1];
      SpeakTextEmpty(init);
      assert forall i | 0 <= i < |init| :: init[i] == items[i];
    }
  }

  /** A frame yields the cancel event exactly when it is a non-blank object whose type is
      "cancel". */
  lemma MessageEventCancel(text: string, doc: Option<Json>)
    ensures MessageEvent(text, doc) == Ok(Some(Cancelled)) <==>
      !IsNullOrWhiteSpace(text) && doc.Some? && doc.value.JObject? && TypeOf(doc.value.fields) == Ok(Some("cancel"))
  {
    TypeNames();
  }

  /** A frame yields a speak event exactly when its type is "speak" and its "sequence" is
      an array holding at least one string. */
  lemma MessageEventSpoken(text: string, doc: Option<Json>)
    ensures (MessageEvent(text, doc).Ok? && MessageEvent(text, doc).value.Some? && MessageEvent(text, doc).value.value.Spoken?) <==>
      && !IsNullOrWhiteSpace(text) && doc.Some? && doc.value.JObject?
      && TypeOf(doc.value.fields) == Ok(Some("speak"))
      && "sequence" in doc.value.fields && doc.value.fields["sequence"].JArray?
      && exists i | 0 <= i < |doc.value.fields["sequence"].items| :: doc.value.fields["sequence"].items[i].JString?
  {
    TypeNames();
    if !IsNullOrWhiteSpace(text) && doc.Some? && doc.value.JObject? {
      var fields := doc.value.fields;
      if "sequence" in fields && fields["sequence"].JArray? {
        SpeakTextEmpty(fields["sequence"].items);
      }
    }
  }

  lemma TypeNames()
    ensures "cancel" != "speak"
    ensures !IsNullOrWhiteSpace("cancel") && !IsNullOrWhiteSpace("speak")
  {
    assert "cancel"[0] !in WhiteSpace;
    assert "speak"[0] !in WhiteSpace;
  }

  /** Blank frames are ignored, unparsable ones throw JsonReader, and a frame without a
      "type" member throws ArgumentNull. */
  lemma MessageEventErrors(text: string, doc: Option<Json>)
    ensures IsNullOrWhiteSpace(text) ==> MessageEvent(text, doc) == Ok(None)
    ensures !IsNullOrWhiteSpace(text) && (doc.None? || !doc.value.JObject?) ==> MessageEvent(text, doc) == Err(JsonReader)
    ensures !IsNullOrWhiteSpace(text) && doc.Some? && doc.value.JObject? && "type" !in doc.value.fields ==>
      MessageEvent(text, doc) == Err(ArgumentNull)
  {
  }

  // ------------------------------------------------------------ URL decoding

  predicate IsHex(c: char) {
    '0' <= c <= '9' || 'a' <= c <= 'f' || 'A' <= c <= 'F'
  }

  function HexValue(c: char): (v: nat)
    requires IsHex(c)
    ensures v < 16
  {
    if '0' <= c <= '9' then (c - '0') as nat
    else if 'a' <= c <= 'f' then (c - 'a') as nat + 10
    else (c - 'A') as nat + 10
  }

  /** WebUtility.UrlDecode restricted to ASCII: '+' is a space, "%hh" below 0x80 is that
      character, anything else is kept. */
  function UrlDecode(s: string): string
    decreases |s|
  {
    if s == [] then []
    else if s[0] == '+' then " " + UrlDecode(s[1..])
    else if s[0] == '%' && |s| >= 3 && IsHex(s[1]) && IsHex(s[2]) && HexValue(s[1]) * 16 + HexValue(s[2]) < 0x80 then
      [(HexValue(s[1]) * 16 + HexValue(s[2])) as char] + UrlDecode(s[3..])
    else [s[0]] + UrlDecode(s[1..])
  }

  /** The form-encoding UrlDecode undoes: spaces as '+', '+' and '%' escaped. */
  function UrlEncode(t: string): string
    decreases |t|
  {
    if t == [] then []
    else
      (if t[0] == ' ' then "+" else if t[0] == '+' then "%2B" else if t[0] == '%' then "%25" else [t[0]])
        + UrlEncode(t[1..])
  }

  lemma {:induction false} UrlRoundTrip(t: string)
    ensures UrlDecode(UrlEncode(t)) == t
    decreases |t|
  {
    if t != [] {
      UrlRoundTrip(t[1..]);
      var rest := UrlEncode(t[1..]);
      if t[0] == ' ' {
        assert ("+" + rest)[1..] == rest;
      } else if t[0] == '+' {
        assert ("%2B" + rest)[3..] == rest;
      } else if t[0] == '%' {
        assert ("%25" + rest)[3..] == rest;
      } else {
        assert ([t[0]] + rest)[1..] == rest;
      }
    }
  }

  /** A string without '+' or '%' is left as it is. */
  lemma {:induction false} UrlDecodePlain(s: string)
    requires NoEscapes(s)
    ensures UrlDecode(s) == s
    decreases |s|
  {
    if s != [] {
      UrlDecodePlain(s[1..]);
    }
  }

  /** Only spaces may be white space in `t`. */
  predicate Plain(t: string) {
    forall i | 0 <= i < |t| :: t[i] == ' ' || t[i] !in WhiteSpace
  }

  lemma {:induction false} UrlEncodeNoWhiteSpace(t: string)
    requires Plain(t)
    ensures forall i | 0 <= i < |UrlEncode(t)| :: UrlEncode(t)[i] !in WhiteSpace
    decreases |t|
  {
    if t != [] {
      UrlEncodeNoWhiteSpace(t[1..]);
    }
  }

  /** NVDA Remote sends spaces as '+', so a spoken text whose only white space is spaces
      (runs, ends and all) comes out of the sanitizer exactly as it was encoded. */
  lemma SanitizeOfEncoded(t: string)
    requires Plain(t)
    ensures Sanitize(UrlEncode(t)) == t
  {
    var e := UrlEncode(t);
    UrlEncodeNoWhiteSpace(t);
    assert Trim(e, TrimChars) == e;
    CollapseOfCollapsed(e);
    UrlRoundTrip(t);
  }

  /** A raw text with no escapes comes out trimmed and with every white-space run made a
      single space, its other characters unchanged and in order. */
  lemma TrimNoEscapes(m: string)
    requires NoEscapes(m)
    ensures NoEscapes(Trim(m, TrimChars))
  {
    var t := Trim(m, TrimChars);
    var k :| IsSlice(m, t, k);
    assert forall i | 0 <= i < |t| :: t[i] == m[k + i];
  }

  lemma SanitizeOfRaw(m: string)
    requires NoEscapes(m)
    ensures Collapsed(Sanitize(m))
    ensures NonWhite(Sanitize(m)) == NonWhite(m)
  {
    var t := Trim(m, TrimChars);
    var c := CollapseWhiteSpace(t);
    TrimNoEscapes(m);
    CollapseKeepsNonWhite(t);
    CollapseNoEscapes(t);
    UrlDecodePlain(c);
    CollapseIsCollapsed(t);
    TrimKeepsNonWhite(m);
  }

  /** No '+' or '%' in `s`. */
  predicate NoEscapes(s: string) {
    forall i | 0 <= i < |s| :: s[i] != '+' && s[i] != '%'
  }

  /** Collapsing white space introduces no escape character. */
  lemma {:induction false} CollapseNoEscapes(s: string)
    requires NoEscapes(s)
    ensures NoEscapes(CollapseWhiteSpace(s))
    decreases |s|
  {
    if s != [] {
      if s[0] in WhiteSpace {
        var t := TrimStart(s, WhiteSpace);
        assert forall i | 0 <= i < |t| :: t[i] == s[|s| - |t| + i];
        CollapseNoEscapes(t);
      } else {
        CollapseNoEscapes(s[1..]);
      }
    }
  }

  lemma TrimKeepsNonWhite(m: string)
    ensures NonWhite(Trim(m, TrimChars)) == NonWhite(m)
  {
    TrimStartKeeps(m);
    TrimEndKeeps(TrimStart(m, TrimChars));
  }

  lemma {:induction false} TrimStartKeeps(s: string)
    ensures NonWhite(TrimStart(s, TrimChars)) == NonWhite(s)
    decreases |s|
  {
    if s != [] && s[0] in TrimChars {
      TrimStartKeeps(s[1..]);
    }
  }

  lemma {:induction false} TrimEndKeeps(s: string)
    ensures NonWhite(TrimEnd(s, TrimChars)) == NonWhite(s)
    decreases |s|
  {
    if s != [] && s[|s| - 1] in TrimChars {
      var init := s[..|s| - 1];
      TrimEndKeeps(init);
      assert s == init + [s[|s| - 1]];
      NonWhiteAppend(init, [s[|s| - 1]]);
    }
  }

  // ------------------------------------------------------- speak round trip

  /** The "sequence" of a speak message: each text URL-encoded as a string element. */
  function SpeakItems(texts: seq<string>): (r: seq<Json>)
    ensures |r| == |texts|
    ensures forall i | 0 <= i < |texts| :: r[i] == JString(UrlEncode(texts[i]))
    decreases |texts|
  {
    if texts == [] then []
    else SpeakItems(texts[..|texts| - 1]) + [JString(UrlEncode(texts[|texts| - 1]))]
  }

  /** A speak message as NVDA Remote sends it. */
  function SpeakMessage(texts: seq<string>): Json {
    JObject(map["type" := JString("speak"), "sequence" := JArray(SpeakItems(texts))])
  }

  /** The texts, each followed by a line break, as AppendLine leaves them. */
  function Lines(texts: seq<string>): string
    decreases |texts|
  {
    if texts == [] then "" else Lines(texts[..|texts| - 1]) + (texts[|texts| - 1] + NewLine)
  }

  lemma SpeakTextSnoc(items: seq<Json>, x: Json)
    ensures SpeakText(items + [x]) == SpeakText(items) + (if x.JString? then Sanitize(x.s) + NewLine else "")
  {
    assert (items + [x])[..|items|] == items;
  }

  lemma {:induction false} SpeakTextOfEncoded(texts: seq<string>)
    requires forall i | 0 <= i < |texts| :: Plain(texts[i])
    ensures SpeakText(SpeakItems(texts)) == Lines(texts)
    decreases |texts|
  {
    if texts != [] {
      var init := texts[..|texts| - 1];
      var last := texts[|texts| - 1];
      assert forall i | 0 <= i < |init| :: init[i] == texts[i];
      SpeakTextOfEncoded(init);
      var x := JString(UrlEncode(last));
      SpeakTextSnoc(SpeakItems(init), x);
      SanitizeOfEncoded(last);
    }
  }

  /** Decoding a speak message recovers its texts, each on its own line. */
  lemma SpeakRoundTrip(frame: string, texts: seq<string>)
    requires !IsNullOrWhiteSpace(frame) && |texts| >= 1
    requires forall i | 0 <= i < |texts| :: Plain(texts[i])
    ensures MessageEvent(frame, Some(SpeakMessage(texts))) == Ok(Some(Spoken(Lines(texts))))
  {
    SpeakMessageParses(frame, SpeakItems(texts));
    SpeakTextOfEncoded(texts);
    LinesNonEmpty(texts);
  }

  /** A non-blank frame holding a speak message is decoded from its sequence alone. */
  lemma SpeakMessageParses(frame: string, items: seq<Json>)
    requires !IsNullOrWhiteSpace(frame)
    ensures MessageEvent(frame, Some(JObject(map["type" := JString("speak"), "sequence" := JArray(items)])))
      == SpeakEvent(Some(JArray(items)))
  {
    var fields := map["type" := JString("speak"), "sequence" := JArray(items)];
    assert fields["type"] == JString("speak");
    assert !IsNullOrWhiteSpace("speak") by { assert "speak"[0] !in WhiteSpace; }
    assert fields["sequence"] == JArray(items);
  }

  lemma LinesNonEmpty(texts: seq<string>)
    requires |texts| >= 1
    ensures |Lines(texts)| > 0
  {
  }

  // --------------------------------------------------------- reader framing

  /** The read buffer's size. */
  const BufferSize: nat := 1024

  /** The reader's rule: a message is the reads up to and including the first one that
      came back shorter than the buffer; without such a read the reader is still waiting
      (None). Returns the message and the reads left over. */
  function NextMessage<T>(chunks: seq<seq<T>>): Option<(seq<T>, seq<seq<T>>)>
    decreases |chunks|
  {
    if chunks == [] then None
    else if |chunks[0]| < BufferSize then Some((chunks[0], chunks[1..]))
    else match NextMessage(chunks[1..])
      case None => None
      case Some((m, rest)) => Some((chunks[0] + m, rest))
  }

  /** How a stream hands a message to the reader: full buffers, then the remainder when
      there is one. */
  function Reads<T>(m: seq<T>): seq<seq<T>>
    decreases |m|
  {
    if |m| < BufferSize then (if m == [] then [] else [m])
    else [m[..BufferSize]] + Reads(m[BufferSize..])
  }

  /** A message whose length is not a multiple of the buffer size is delimited exactly. */
  lemma {:induction false} FramingRoundTrip<T>(m: seq<T>, rest: seq<seq<T>>)
    requires |m| % BufferSize != 0
    ensures NextMessage(Reads(m) + rest) == Some((m, rest))
    decreases |m|
  {
    if |m| < BufferSize {
      assert (Reads(m) + rest)[0] == m;
      assert (Reads(m) + rest)[1..] == rest;
    } else {
      var tail := m[BufferSize..];
      assert |tail| % BufferSize == |m| % BufferSize;
      FramingRoundTrip(tail, rest);
      assert (Reads(m) + rest)[1..] == Reads(tail) + rest;
      assert m[..BufferSize] + tail == m;
    }
  }

  /** A message of exactly one buffer is glued to the next one. */
  lemma FramingGlue<T>(m: seq<T>, next: seq<T>, rest: seq<seq<T>>)
    requires |m| == BufferSize && 0 < |next| < BufferSize
    ensures NextMessage(Reads(m) + Reads(next) + rest) == Some((m + next, rest))
  {
    assert Reads(m) == [m] by {
      assert m[..BufferSize] == m;
      assert m[BufferSize..] == [];
    }
    assert Reads(m) + Reads(next) + rest == [m, next] + rest;
    assert ([m, next] + rest)[1..] == [next] + rest;
    assert ([next] + rest)[1..] == rest;
  }
}
