/**
 * message_handler.go: `readMessages`, the reader that turns the server's lines
 * into events for the user interface.
 *
 * Per line it strips trailing CR/LF, recognises the exact sentinel lines,
 * collects the lines between BEGIN_RESPONSE and END_RESPONSE, and decodes
 * MESSAGE/BROADCAST envelopes. The socket becomes a sequence of reads and the
 * channel a sequence of emitted events.
 */
module Handler {
  import opened Wrappers
  import opened Bytes
  import opened Strings
  import Hex
  import opened Cipher

  const OperatorLine := "REGISTERED as operator"
  const KickedLine := "KICKED You have been kicked by the operator"
  const BannedLine := "BANNED You have been banned by the operator"
  const BeginLine := "BEGIN_RESPONSE"
  const EndLine := "END_RESPONSE"

  const MessagePrefix := "MESSAGE from"
  const BroadcastPrefix := "BROADCAST from"
  const EnvelopeSeparator := ": "
  const PayloadSeparator := "|"

  const OperatorNotice := "You are registered as the server operator."
  const InvalidFormatNotice := "Invalid message format. Ignoring."

  /** The messages `readMessages` sends on its channel. */
  datatype Event =
    | ServerNotice(content: string)                                 // serverMsg
    | OperatorGranted(content: string)                              // operatorMsg
    | Kicked                                                        // kickedMsg
    | Banned                                                        // bannedMsg
    | Disconnected                                                  // disconnectMsg
    | Incoming(senderID: string, content: string, isBroadcast: bool) // incomingMessage

  /**
   * One call of `reader.ReadString('\n')`: a line with its terminator, or an
   * error. `raw` holds no line feed before its last character. A final line
   * cut off by end of file comes with an error in Go, so it is `ReadFailed`.
   */
  datatype Read = Line(raw: string) | ReadFailed

  /** The reader's state: the capture flag, the captured lines, and whether the loop has returned. */
  datatype Framing = Framing(collecting: bool, buffer: seq<string>, stopped: bool)

  const Initial := Framing(false, [], false)

  /** The state after one read and the events it sent (none or one). */
  datatype Outcome = Outcome(next: Framing, emitted: seq<Event>)

  /** A line that is matched exactly before the capture test. */
  predicate IsSentinel(line: string)
  {
    line == OperatorLine || line == KickedLine || line == BannedLine || line == BeginLine || line == EndLine
  }

  /** A line carrying another client's message. */
  predicate IsEnvelope(line: string)
  {
    MessagePrefix <= line || BroadcastPrefix <= line
  }

  function HexErrorText(e: Hex.HexError): string
  {
    match e
    case InvalidByte(c) => "encoding/hex: invalid byte: " + [c]
    case OddLength => "encoding/hex: odd length hex string"
  }

  function CipherErrorText(e: CipherError): string
  {
    match e
    case KeySizeError(n) => "crypto/aes: invalid key size " + Decimal(n)
    case ShortCiphertext => "ciphertext too short"
    case RandomSourceFailure => "crypto/rand: read failed"
    case RuntimePanic => "runtime error"
  }

  /**
   * The XOR form `key_hex|ciphertext_hex`: the event for a direct message, and
   * for a broadcast whose payload contains `|`. Each failure is one notice
   * naming the sender.
   */
  function XorPayloadEvent(senderID: string, payload: string, broadcast: bool): (e: Event)
    ensures e.ServerNotice? || e.Incoming?
    ensures e.ServerNotice? ==> Mentions(e.content, senderID)
    ensures e.Incoming? ==> e.senderID == senderID && e.isBroadcast == broadcast
  {
    match IndexOf(payload, PayloadSeparator)
    case None =>
      SenderNotice(if broadcast then "Invalid broadcast message format from "
                   else "Invalid message format from ", senderID, ". Ignoring.")
    case Some(i) =>
      match Hex.Decode(payload[..i])
      case Err(e) =>
        SenderNotice(if broadcast then "Error decoding key from broadcast from " else "Error decoding key from ",
                     senderID, ": " + HexErrorText(e))
      case Ok(key) =>
        match Hex.Decode(payload[i + 1..])
        case Err(e) =>
          SenderNotice(if broadcast then "Error decoding ciphertext from broadcast from " else "Error decoding ciphertext from ",
                       senderID, ": " + HexErrorText(e))
        case Ok(ciphertext) =>
          if |key| != |ciphertext| then
            SenderNotice(if broadcast then "Key and ciphertext lengths do not match in broadcast from "
                         else "Key and ciphertext lengths do not match from ", senderID, ".")
          else Incoming(senderID, FromBytes(Xor(ciphertext, key)), broadcast)
  }

  /** A notice about a message from `senderID`: `lead`, the sender, then `tail`. */
  function SenderNotice(lead: string, senderID: string, tail: string): (e: Event)
    ensures e.ServerNotice? && Mentions(e.content, senderID)
  {
    MentionsMiddle(lead, senderID, tail);
    ServerNotice(lead + senderID + tail)
  }

  /** A broadcast payload on which `decryptAES` hits a Go runtime panic. */
  predicate BroadcastPanics(c: BlockCipher, secret: seq<byte>, payload: string)
  {
    '|' !in payload && Hex.Decode(payload).Ok? && DecryptAES(c, secret, Hex.Decode(payload).value) == Err(RuntimePanic)
  }

  /**
   * A broadcast payload: the XOR form if it contains `|`, otherwise hex of an
   * AES ciphertext under the shared secret. `None` stands for the Go runtime
   * panic inside `decryptAES`, after which nothing more is sent.
   */
  function BroadcastPayloadEvent(c: BlockCipher, secret: seq<byte>, senderID: string, payload: string): (r: Option<Event>)
    ensures r.None? <==> BroadcastPanics(c, secret, payload)
    ensures r.Some? ==> r.value.ServerNotice? || (r.value.Incoming? && r.value.senderID == senderID && r.value.isBroadcast)
    ensures r.Some? && r.value.ServerNotice? ==> Mentions(r.value.content, senderID)
  {
    if '|' in payload then Some(XorPayloadEvent(senderID, payload, true))
    else
      match Hex.Decode(payload)
      case Err(e) => Some(SenderNotice("Error decoding broadcast from ", senderID, ": " + HexErrorText(e)))
      case Ok(ciphertext) =>
        match DecryptAES(c, secret, ciphertext)
        case Err(RuntimePanic) => None
        case Err(e) => Some(SenderNotice("Error decrypting broadcast from ", senderID, ": " + CipherErrorText(e)))
        case Ok(plaintext) => Some(Incoming(senderID, FromBytes(plaintext), true))
  }

  /** A MESSAGE or BROADCAST line: split at the first `": "`, take the sender from the left part, decode the right. */
  function EnvelopeEvent(c: BlockCipher, secret: seq<byte>, line: string): (r: Option<Event>)
    ensures r.Some? ==> r.value.ServerNotice? || r.value.Incoming?
  {
    match IndexOf(line, EnvelopeSeparator)
    case None => Some(ServerNotice(InvalidFormatNotice))
    case Some(i) =>
      var senderInfo, payload := line[..i], line[i + 2..];
      if MessagePrefix <= senderInfo then
        Some(XorPayloadEvent(TrimPrefix(senderInfo, "MESSAGE from "), payload, false))
      else if BroadcastPrefix <= senderInfo then
        BroadcastPayloadEvent(c, secret, TrimPrefix(senderInfo, "BROADCAST from "), payload)
      else
        Some(XorPayloadEvent("", payload, false))
  }

  /** One non-empty, trimmed line, in the order of tests of the loop body. */
  function Classify(c: BlockCipher, secret: seq<byte>, f: Framing, line: string): (o: Outcome)
    ensures |o.emitted| <= 1
    ensures o.next.stopped <==>
              f.stopped || line == KickedLine || line == BannedLine ||
              (!IsSentinel(line) && !f.collecting && IsEnvelope(line) && EnvelopeEvent(c, secret, line).None?)
  {
    if line == OperatorLine then Outcome(f, [OperatorGranted(OperatorNotice)])
    else if line == KickedLine then Outcome(f.(stopped := true), [Kicked])
    else if line == BannedLine then Outcome(f.(stopped := true), [Banned])
    else if line == BeginLine then Outcome(f.(collecting := true, buffer := []), [])
    else if line == EndLine then Outcome(f.(collecting := false), [ServerNotice(Join(f.buffer, "\n"))])
    else if f.collecting then Outcome(f.(buffer := f.buffer + [line]), [])
    else if IsEnvelope(line) then
      match EnvelopeEvent(c, secret, line)
      case None => Outcome(f.(stopped := true), [])
      case Some(e) => Outcome(f, [e])
    else Outcome(f, [ServerNotice(line)])
  }

  /** One pass of the loop of `readMessages`. Once the loop has returned, nothing happens. */
  function Next(c: BlockCipher, secret: seq<byte>, f: Framing, r: Read): (o: Outcome)
    ensures |o.emitted| <= 1
    ensures f.stopped ==> o == Outcome(f, [])
  {
    if f.stopped then Outcome(f, [])
    else
      match r
      case ReadFailed => Outcome(f.(stopped := true), [Disconnected])
      case Line(raw) =>
        var line := TrimLineEnd(raw);
        if line == "" then Outcome(f, []) else Classify(c, secret, f, line)
  }

  /** The loop of `readMessages` over a sequence of reads. */
  function Run(c: BlockCipher, secret: seq<byte>, f: Framing, input: seq<Read>): (o: Outcome)
    ensures |o.emitted| <= |input|
    decreases |input|
  {
    if input == [] then Outcome(f, [])
    else
      var first := Next(c, secret, f, input[0]);
      var rest := Run(c, secret, first.next, input[1..]);
      Outcome(rest.next, first.emitted + rest.emitted)
  }

  /** Running over `a + b` is running over `a`, then over `b` from where `a` left off. */
  lemma {:induction false} RunAppend(c: BlockCipher, secret: seq<byte>, f: Framing, a: seq<Read>, b: seq<Read>)
    ensures var ra := Run(c, secret, f, a);
            var rb := Run(c, secret, ra.next, b);
            Run(c, secret, f, a + b) == Outcome(rb.next, ra.emitted + rb.emitted)
    decreases |a|
  {
    if a != [] {
      var o := Next(c, secret, f, a[0]);
      assert (a + b)[0] == a[0] && (a + b)[1..] == a[1..] + b;
      RunAppend(c, secret, o.next, a[1..], b);
      var ra := Run(c, secret, o.next, a[1..]);
      var rb := Run(c, secret, ra.next, b);
      assert o.emitted + (ra.emitted + rb.emitted) == (o.emitted + ra.emitted) + rb.emitted;
    } else {
      assert a + b == b;
    }
  }

  /** Running over `a` and then one more read. */
  lemma RunSnoc(c: BlockCipher, secret: seq<byte>, f: Framing, a: seq<Read>, r: Read)
    ensures var ra := Run(c, secret, f, a);
            var o := Next(c, secret, ra.next, r);
            Run(c, secret, f, a + [r]) == Outcome(o.next, ra.emitted + o.emitted)
  {
    var ra := Run(c, secret, f, a);
    RunAppend(c, secret, f, a, [r]);
    assert [r][1..] == [];
    assert Run(c, secret, ra.next, [r]) == Next(c, secret, ra.next, r);
  }

  /** After the loop has returned (KICKED, BANNED, a read error), no read changes anything. */
  lemma {:induction false} StoppedIsFinal(c: BlockCipher, secret: seq<byte>, f: Framing, input: seq<Read>)
    requires f.stopped
    ensures Run(c, secret, f, input) == Outcome(f, [])
    decreases |input|
  {
    if input != [] {
      StoppedIsFinal(c, secret, f, input[1..]);
    }
  }

  /** The reads delivering `lines`, one per line. */
  function AsReads(lines: seq<string>): (r: seq<Read>)
    ensures |r| == |lines|
  {
    if lines == [] then [] else [Line(lines[0])] + AsReads(lines[1..])
  }

  /** The lines with their terminators removed, as the buffer stores them. */
  function TrimAll(lines: seq<string>): (r: seq<string>)
    ensures |r| == |lines|
  {
    if lines == [] then [] else [TrimLineEnd(lines[0])] + TrimAll(lines[1..])
  }

  /** A line that is captured verbatim while collecting: not blank and not a sentinel. */
  predicate IsFragment(raw: string)
  {
    TrimLineEnd(raw) != "" && !IsSentinel(TrimLineEnd(raw))
  }

  /** A line made only of CR and LF characters changes nothing and sends nothing, in either mode. */
  lemma BlankLineIgnored(c: BlockCipher, secret: seq<byte>, f: Framing, raw: string)
    requires forall i :: 0 <= i < |raw| ==> IsLineEnd(raw[i])
    ensures Next(c, secret, f, Line(raw)) == Outcome(f, [])
  {
  }

  /**
   * The lines that send nothing and leave the loop running are exactly blank
   * lines, BEGIN_RESPONSE, and fragments captured while collecting.
   */
  lemma SilentLines(c: BlockCipher, secret: seq<byte>, f: Framing, raw: string)
    requires !f.stopped
    ensures var o := Next(c, secret, f, Line(raw));
            var line := TrimLineEnd(raw);
            o.emitted == [] && !o.next.stopped <==>
              line == "" || line == BeginLine || (f.collecting && !IsSentinel(line))
  {
  }

  /** The operator, KICKED and BANNED lines act even in the middle of a captured response. */
  lemma SentinelsWhileCollecting(c: BlockCipher, secret: seq<byte>, f: Framing)
    requires f.collecting && !f.stopped
    ensures Next(c, secret, f, Line(OperatorLine)) == Outcome(f, [OperatorGranted(OperatorNotice)])
    ensures Next(c, secret, f, Line(KickedLine)) == Outcome(f.(stopped := true), [Kicked])
    ensures Next(c, secret, f, Line(BannedLine)) == Outcome(f.(stopped := true), [Banned])
  {
    assert TrimLineEnd(OperatorLine) == OperatorLine;
    assert TrimLineEnd(KickedLine) == KickedLine;
    assert TrimLineEnd(BannedLine) == BannedLine;
  }

  /** KICKED or BANNED sends its one event; no later read sends anything. */
  lemma {:induction false} TerminalLineEndsReading(c: BlockCipher, secret: seq<byte>, f: Framing, line: string, later: seq<Read>)
    requires !f.stopped
    requires line == KickedLine || line == BannedLine
    ensures Run(c, secret, f, [Line(line + "\n")] + later).emitted == [if line == KickedLine then Kicked else Banned]
  {
    var input := [Line(line + "\n")] + later;
    assert TrimLineEnd(line + "\n") == line by {
      assert (line + "\n")[..|line|] == line;
    }
    assert input[0] == Line(line + "\n") && input[1..] == later;
    StoppedIsFinal(c, secret, f.(stopped := true), later);
  }

  /** A read error sends one Disconnected event and ends the loop. */
  lemma {:induction false} ReadErrorEndsReading(c: BlockCipher, secret: seq<byte>, f: Framing, later: seq<Read>)
    requires !f.stopped
    ensures Run(c, secret, f, [ReadFailed] + later) == Outcome(f.(stopped := true), [Disconnected])
  {
    var input := [ReadFailed] + later;
    assert input[0] == ReadFailed && input[1..] == later;
    StoppedIsFinal(c, secret, f.(stopped := true), later);
  }

  /** One fragment line inside a capture. */
  lemma FragmentCollected(c: BlockCipher, secret: seq<byte>, f: Framing, raw: string)
    requires f.collecting && !f.stopped && IsFragment(raw)
    ensures Next(c, secret, f, Line(raw)) == Outcome(f.(buffer := f.buffer + [TrimLineEnd(raw)]), [])
  {
  }

  /** The first fragment of a capture goes to the buffer; the rest are read from there. */
  lemma CollectOne(c: BlockCipher, secret: seq<byte>, f: Framing, lines: seq<string>)
    requires f.collecting && !f.stopped
    requires lines != [] && IsFragment(lines[0])
    ensures Run(c, secret, f, AsReads(lines))
         == Run(c, secret, f.(buffer := f.buffer + [TrimLineEnd(lines[0])]), AsReads(lines[1..]))
  {
    var rs := AsReads(lines);
    FragmentCollected(c, secret, f, lines[0]);
    assert rs == [Line(lines[0])] + AsReads(lines[1..]);
    assert rs[1..] == AsReads(lines[1..]);
  }

  /** While collecting, fragment lines are appended to the buffer, trimmed, and send nothing. */
  lemma {:induction false} CollectFragments(c: BlockCipher, secret: seq<byte>, f: Framing, lines: seq<string>)
    requires f.collecting && !f.stopped
    requires forall k :: 0 <= k < |lines| ==> IsFragment(lines[k])
    ensures Run(c, secret, f, AsReads(lines)) == Outcome(f.(buffer := f.buffer + TrimAll(lines)), [])
    decreases |lines|
  {
    if lines == [] {
      assert f.buffer + TrimAll(lines) == f.buffer;
    } else {
      var g := f.(buffer := f.buffer + [TrimLineEnd(lines[0])]);
      CollectOne(c, secret, f, lines);
      assert forall k :: 0 <= k < |lines| - 1 ==> lines[1..][k] == lines[k + 1];
      CollectFragments(c, secret, g, lines[1..]);
      assert TrimAll(lines) == [TrimLineEnd(lines[0])] + TrimAll(lines[1..]);
      assert g.buffer + TrimAll(lines[1..]) == f.buffer + TrimAll(lines);
    }
  }

  /**
   * BEGIN_RESPONSE, then fragment lines (MESSAGE and BROADCAST lines among
   * them), then END_RESPONSE: one notice holding the fragments joined by
   * newlines, and nothing for the lines in between.
   */
  lemma {:induction false} CapturedResponse(c: BlockCipher, secret: seq<byte>, f: Framing, lines: seq<string>)
    requires !f.stopped
    requires forall k :: 0 <= k < |lines| ==> IsFragment(lines[k])
    ensures Run(c, secret, f, [Line(BeginLine)] + AsReads(lines) + [Line(EndLine)])
         == Outcome(Framing(false, TrimAll(lines), false), [ServerNotice(Join(TrimAll(lines), "\n"))])
  {
    var begin := Next(c, secret, f, Line(BeginLine));
    assert TrimLineEnd(BeginLine) == BeginLine;
    assert begin == Outcome(f.(collecting := true, buffer := []), []);
    var collected := Run(c, secret, begin.next, AsReads(lines));
    CollectFragments(c, secret, begin.next, lines);
    assert [] + TrimAll(lines) == TrimAll(lines);
    var end := Run(c, secret, collected.next, [Line(EndLine)]);
    assert TrimLineEnd(EndLine) == EndLine;
    assert end.emitted == [ServerNotice(Join(TrimAll(lines), "\n"))];
    RunAppend(c, secret, f, [Line(BeginLine)], AsReads(lines));
    RunAppend(c, secret, f, [Line(BeginLine)] + AsReads(lines), [Line(EndLine)]);
  }

  /**
   * END_RESPONSE does not empty the buffer: two in a row send the same text
   * twice, and an END_RESPONSE before any BEGIN_RESPONSE sends the empty text.
   */
  lemma {:induction false} EndKeepsBuffer(c: BlockCipher, secret: seq<byte>, f: Framing)
    requires !f.stopped
    ensures var text := ServerNotice(Join(f.buffer, "\n"));
            Run(c, secret, f, [Line(EndLine), Line(EndLine)]) == Outcome(f.(collecting := false), [text, text])
    ensures Run(c, secret, Initial, [Line(EndLine)]).emitted == [ServerNotice("")]
  {
    assert TrimLineEnd(EndLine) == EndLine;
    var text := ServerNotice(Join(f.buffer, "\n"));
    var g := f.(collecting := false);
    var input := [Line(EndLine), Line(EndLine)];
    assert Next(c, secret, f, Line(EndLine)) == Outcome(g, [text]);
    assert Next(c, secret, g, Line(EndLine)) == Outcome(g, [text]);
    assert input[1..] == [Line(EndLine)];
    assert Run(c, secret, g, [Line(EndLine)]) == Outcome(g, [text]);
  }

  /** An envelope line with no `": "` sends only the invalid-format notice. */
  lemma EnvelopeWithoutSeparator(c: BlockCipher, secret: seq<byte>, f: Framing, line: string)
    requires !f.stopped && !f.collecting
    requires IsEnvelope(line) && TrimLineEnd(line) == line
    requires forall j :: 0 <= j ==> !OccursAt(line, EnvelopeSeparator, j)
    ensures Next(c, secret, f, Line(line)) == Outcome(f, [ServerNotice(InvalidFormatNotice)])
  {
    assert line[..|MessagePrefix|] == MessagePrefix || line[..|BroadcastPrefix|] == BroadcastPrefix;
    assert !IsSentinel(line) by {
      assert OperatorLine[0] != MessagePrefix[0] && OperatorLine[0] != BroadcastPrefix[0];
      assert KickedLine[0] != MessagePrefix[0] && KickedLine[0] != BroadcastPrefix[0];
      assert EndLine[0] != MessagePrefix[0] && EndLine[0] != BroadcastPrefix[0];
      assert BannedLine[0] != MessagePrefix[0] && BannedLine[1] != BroadcastPrefix[1];
      assert BeginLine[0] != MessagePrefix[0] && BeginLine[1] != BroadcastPrefix[1];
    }
  }

  /** Outside a captured response, any other non-blank line is sent on unchanged as a notice. */
  lemma OtherLinesEchoed(c: BlockCipher, secret: seq<byte>, f: Framing, line: string)
    requires !f.stopped && !f.collecting
    requires line != "" && TrimLineEnd(line) == line && !IsSentinel(line) && !IsEnvelope(line)
    ensures Next(c, secret, f, Line(line)) == Outcome(f, [ServerNotice(line)])
  {
  }

  /** The prefixes the sender ID is cut from. */
  predicate IsSenderKind(kind: string)
  {
    kind == "MESSAGE from " || kind == "BROADCAST from "
  }

  /**
   * For `kind + senderID + ": " + payload`, with no `": "` inside the sender
   * ID, the line is cut at the separator after the sender: the sender ID is
   * what lies before it without the prefix, the payload all that follows.
   */
  lemma EnvelopeSplit(c: BlockCipher, secret: seq<byte>, kind: string, senderID: string, payload: string)
    requires IsSenderKind(kind)
    requires forall j :: 0 <= j ==> !OccursAt(senderID, EnvelopeSeparator, j)
    ensures var line := kind + senderID + EnvelopeSeparator + payload;
            IsEnvelope(line) &&
            EnvelopeEvent(c, secret, line) ==
              if kind == "MESSAGE from " then Some(XorPayloadEvent(senderID, payload, false))
              else BroadcastPayloadEvent(c, secret, senderID, payload)
  {
    var line := kind + senderID + EnvelopeSeparator + payload;
    var n := |kind| + |senderID|;
    FirstSeparatorAfterSender(kind, senderID, payload);
    assert line[..n] == kind + senderID;
    assert line[n + 2..] == payload;
    assert kind <= line;
    if kind == "MESSAGE from " {
      assert MessagePrefix <= kind;
      assert TrimPrefix(line[..n], kind) == senderID;
    } else {
      assert BroadcastPrefix <= kind && !(MessagePrefix <= kind);
      assert TrimPrefix(line[..n], kind) == senderID;
    }
  }

  /** The first `": "` of `kind + senderID + ": " + payload` is the one after the sender. */
  lemma FirstSeparatorAfterSender(kind: string, senderID: string, payload: string)
    requires IsSenderKind(kind)
    requires forall j :: 0 <= j ==> !OccursAt(senderID, EnvelopeSeparator, j)
    ensures IndexOf(kind + senderID + EnvelopeSeparator + payload, EnvelopeSeparator) == Some(|kind| + |senderID|)
  {
    var line := kind + senderID + EnvelopeSeparator + payload;
    var n := |kind| + |senderID|;
    assert line[n..n + 2] == EnvelopeSeparator;
    assert OccursAt(line, EnvelopeSeparator, n);
    assert forall i :: 0 <= i < |kind| ==> kind[i] != ':';
    assert EnvelopeSeparator[0] == ':' && EnvelopeSeparator[1] == ' ';
    forall j | 0 <= j < n
      ensures !OccursAt(line, EnvelopeSeparator, j)
    {
      assert line[j..j + 2][0] == line[j] && line[j..j + 2][1] == line[j + 1];
      if j < |kind| {
        assert line[j] == kind[j];
      } else if j + 1 < n {
        assert !OccursAt(senderID, EnvelopeSeparator, j - |kind|);
        assert senderID[j - |kind|..j - |kind| + 2] == line[j..j + 2];
      } else {
        assert line[j + 1] == ':';
      }
    }
  }

  /** A sender ID without a colon holds no `": "`. */
  lemma NoColonNoSeparator(senderID: string)
    requires ':' !in senderID
    ensures forall j :: 0 <= j ==> !OccursAt(senderID, EnvelopeSeparator, j)
  {
    forall j | 0 <= j
      ensures !OccursAt(senderID, EnvelopeSeparator, j)
    {
      if j + 2 <= |senderID| {
        assert senderID[j..j + 2][0] == senderID[j];
      }
    }
  }

  /**
   * `MESSAGE from bob: 0102|0304` (key 01 02, ciphertext 03 04) brings bob's
   * direct message with the bytes 0x03^0x01 = 0x02 and 0x04^0x02 = 0x06.
   */
  lemma DirectExample(c: BlockCipher, secret: seq<byte>, senderID: string, payload: string)
    requires senderID == "bob" && payload == "0102|0304"
    ensures EnvelopeEvent(c, secret, "MESSAGE from " + senderID + EnvelopeSeparator + payload)
         == Some(Incoming("bob", FromBytes([0x02, 0x06]), false))
  {
    NoColonNoSeparator(senderID);
    EnvelopeSplit(c, secret, "MESSAGE from ", senderID, payload);
    DirectPayloadExample(senderID, payload);
  }

  /** The payload `0102|0304` decodes to the bytes 02 06. */
  lemma DirectPayloadExample(senderID: string, payload: string)
    requires payload == "0102|0304"
    ensures XorPayloadEvent(senderID, payload, false) == Incoming(senderID, FromBytes([0x02, 0x06]), false)
  {
    var key: seq<byte>, ciphertext: seq<byte> := [0x01, 0x02], [0x03, 0x04];
    assert Hex.Encode(key[1..]) == "02" && Hex.Encode(key) == "0102";
    assert Hex.Encode(ciphertext[1..]) == "04" && Hex.Encode(ciphertext) == "0304";
    XorPayloadOfHex(senderID, key, ciphertext, false, payload);
    assert Xor(ciphertext, key) == [0x02, 0x06];
  }

  /** `MESSAGE from bob: 01|0203`: one notice about the length mismatch, not a crash. */
  lemma MismatchExample(c: BlockCipher, secret: seq<byte>, senderID: string, payload: string)
    requires senderID == "bob" && payload == "01|0203"
    ensures EnvelopeEvent(c, secret, "MESSAGE from " + senderID + EnvelopeSeparator + payload)
         == Some(ServerNotice("Key and ciphertext lengths do not match from " + senderID + "."))
  {
    NoColonNoSeparator(senderID);
    EnvelopeSplit(c, secret, "MESSAGE from ", senderID, payload);
    MismatchPayloadExample(senderID, payload);
  }

  /** The payload `01|0203` has a one-byte key and a two-byte ciphertext. */
  lemma MismatchPayloadExample(senderID: string, payload: string)
    requires payload == "01|0203"
    ensures XorPayloadEvent(senderID, payload, false) == ServerNotice("Key and ciphertext lengths do not match from " + senderID + ".")
  {
    var key: seq<byte>, ciphertext: seq<byte> := [0x01], [0x02, 0x03];
    assert Hex.Encode(key) == "01";
    assert Hex.Encode(ciphertext[1..]) == "03" && Hex.Encode(ciphertext) == "0203";
    XorPayloadOfHex(senderID, key, ciphertext, false, payload);
  }

  /**
   * A payload made of the hex of a key, `|`, and the hex of a ciphertext is
   * cut at that `|`: keys and ciphertexts of equal length give the XOR of the
   * two, any other pair the length-mismatch notice.
   */
  lemma XorPayloadOfHex(senderID: string, key: seq<byte>, ciphertext: seq<byte>, broadcast: bool, payload: string)
    requires payload == Hex.Encode(key) + PayloadSeparator + Hex.Encode(ciphertext)
    ensures XorPayloadEvent(senderID, payload, broadcast) ==
              if |key| == |ciphertext| then Incoming(senderID, FromBytes(Xor(ciphertext, key)), broadcast)
              else SenderNotice(if broadcast then "Key and ciphertext lengths do not match in broadcast from "
                                else "Key and ciphertext lengths do not match from ", senderID, ".")
  {
    var keyHex, ciphertextHex := Hex.Encode(key), Hex.Encode(ciphertext);
    var n := |keyHex|;
    Hex.EncodeHasNoBar(key);
    IndexOfChar(payload, '|');
    assert OccursAt(payload, PayloadSeparator, n) by {
      assert payload[n..n + 1] == "|";
    }
    var i := IndexOf(payload, PayloadSeparator).value;
    assert i == n by {
      assert payload[i] == '|';
      assert forall j :: 0 <= j < n ==> payload[j] == keyHex[j];
    }
    assert payload[..i] == keyHex && payload[i + 1..] == ciphertextHex;
    Hex.DecodeEncode(key);
    Hex.DecodeEncode(ciphertext);
  }

  /** An envelope line is never one of the sentinels. */
  lemma EnvelopeIsNoSentinel(line: string)
    requires IsEnvelope(line)
    ensures !IsSentinel(line)
  {
    if MessagePrefix <= line {
      assert line[0] == MessagePrefix[0] == 'M';
    } else {
      assert line[1] == BroadcastPrefix[1] == 'R';
    }
  }

  /** Cutting the newline off `line + "\n"` gives `line` back when `line` ends in neither CR nor LF. */
  lemma TrimNewline(line: string)
    requires line != [] && !IsLineEnd(line[|line| - 1])
    ensures TrimLineEnd(line + "\n") == line
  {
    assert (line + "\n")[..|line|] == line;
  }

  /**
   * A MESSAGE or BROADCAST line from the server, outside a captured
   * response, sends the event its payload decodes to.
   */
  lemma EnvelopeLineRead(c: BlockCipher, secret: seq<byte>, f: Framing, kind: string, senderID: string, payload: string)
    requires !f.stopped && !f.collecting
    requires IsSenderKind(kind) && ':' !in senderID
    requires payload != [] && !IsLineEnd(payload[|payload| - 1])
    ensures var line := kind + senderID + EnvelopeSeparator + payload;
            var e := if kind == "MESSAGE from " then Some(XorPayloadEvent(senderID, payload, false))
                     else BroadcastPayloadEvent(c, secret, senderID, payload);
            Next(c, secret, f, Line(line + "\n")) ==
              if e.Some? then Outcome(f, [e.value]) else Outcome(f.(stopped := true), [])
  {
    var line := kind + senderID + EnvelopeSeparator + payload;
    assert line[|line| - 1] == payload[|payload| - 1];
    TrimNewline(line);
    NoColonNoSeparator(senderID);
    EnvelopeSplit(c, secret, kind, senderID, payload);
    EnvelopeIsNoSentinel(line);
    assert Next(c, secret, f, Line(line + "\n")) == Classify(c, secret, f, line);
  }

  /**
   * The XOR form gives a message exactly when the payload has a `|`, both
   * halves are hex and they decode to equally long byte strings; the message
   * is then the XOR of the two. Every other payload gives a notice.
   */
  lemma XorPayloadOutcome(senderID: string, payload: string, broadcast: bool)
    ensures var e := XorPayloadEvent(senderID, payload, broadcast);
            var cut := IndexOf(payload, PayloadSeparator);
            if cut.Some? && Hex.Decode(payload[..cut.value]).Ok? && Hex.Decode(payload[cut.value + 1..]).Ok? &&
               |Hex.Decode(payload[..cut.value]).value| == |Hex.Decode(payload[cut.value + 1..]).value|
            then e == Incoming(senderID, FromBytes(Xor(Hex.Decode(payload[cut.value + 1..]).value,
                                                       Hex.Decode(payload[..cut.value]).value)), broadcast)
            else e.ServerNotice?
  {
  }

  /**
   * A broadcast without `|`: invalid hex and every `decryptAES` error other
   * than the panic give a notice, and a successful decryption gives the
   * plaintext as a broadcast from the sender. With `|` it is the XOR form.
   */
  lemma BroadcastPayloadOutcome(c: BlockCipher, secret: seq<byte>, senderID: string, payload: string)
    ensures var r := BroadcastPayloadEvent(c, secret, senderID, payload);
            '|' in payload ==> r == Some(XorPayloadEvent(senderID, payload, true))
    ensures var r := BroadcastPayloadEvent(c, secret, senderID, payload);
            '|' !in payload && Hex.Decode(payload).Err? ==> r.Some? && r.value.ServerNotice?
    ensures var r := BroadcastPayloadEvent(c, secret, senderID, payload);
            '|' !in payload && Hex.Decode(payload).Ok? ==>
              var d := DecryptAES(c, secret, Hex.Decode(payload).value);
              (d.Ok? ==> r == Some(Incoming(senderID, FromBytes(d.value), true))) &&
              (d.Err? && d.error != RuntimePanic ==> r.Some? && r.value.ServerNotice?)
  {
  }

  /** An envelope stops the reader only when it is a broadcast whose payload makes `decryptAES` panic. */
  lemma EnvelopeStopsOnlyOnPanic(c: BlockCipher, secret: seq<byte>, line: string)
    ensures EnvelopeEvent(c, secret, line).None? ==>
              BroadcastPrefix <= line && exists i :: 0 <= i <= |line| && BroadcastPanics(c, secret, line[i..])
  {
    if EnvelopeEvent(c, secret, line).None? {
      var i := IndexOf(line, EnvelopeSeparator).value;
      var senderInfo := line[..i];
      assert BroadcastPrefix <= senderInfo;
      assert senderInfo[..|BroadcastPrefix|] == line[..|BroadcastPrefix|];
      assert BroadcastPanics(c, secret, line[i + 2..]);
    }
  }

  /**
   * An envelope line read outside a captured response either sends exactly
   * one event (a notice or the message) and leaves the state alone, or, only
   * on the `decryptAES` panic, stops the reader without sending anything.
   */
  lemma EnvelopeLineOutcome(c: BlockCipher, secret: seq<byte>, f: Framing, raw: string)
    requires !f.stopped && !f.collecting && IsEnvelope(TrimLineEnd(raw))
    ensures var o := Next(c, secret, f, Line(raw));
            o.next.stopped <==> EnvelopeEvent(c, secret, TrimLineEnd(raw)).None?
    ensures var o := Next(c, secret, f, Line(raw));
            if o.next.stopped then o == Outcome(f.(stopped := true), [])
            else o.next == f && |o.emitted| == 1 && (o.emitted[0].ServerNotice? || o.emitted[0].Incoming?)
  {
    var line := TrimLineEnd(raw);
    EnvelopeIsNoSentinel(line);
    assert line != "" by {
      if MessagePrefix <= line {
        assert |line| >= |MessagePrefix|;
      } else {
        assert |line| >= |BroadcastPrefix|;
      }
    }
    assert Next(c, secret, f, Line(raw)) == Classify(c, secret, f, line);
  }

  // ---------------------------------------------------------------------------
  // The reader as the source writes it: a loop that updates two variables.
  // ---------------------------------------------------------------------------

  /** The reader goroutine, with the shared secret it decrypts broadcasts with. */
  class LineReader {
    const cipher: BlockCipher
    const secret: seq<byte>
    var collecting: bool     // inMultiLineResponse
    var buffer: seq<string>  // multiLineBuffer
    var stopped: bool        // the loop has returned
    var events: seq<Event>   // what has been sent on messageChan

    function State(): Framing
      reads this
    {
      Framing(collecting, buffer, stopped)
    }

    constructor (cipher: BlockCipher, secret: seq<byte>)
      ensures this.cipher == cipher && this.secret == secret
      ensures State() == Initial && events == []
    {
      this.cipher := cipher;
      this.secret := secret;
      collecting, buffer, stopped := false, [], false;
      events := [];
    }

    /** One pass of the loop body: read, trim, classify, send at most one event. */
    method Step(r: Read)
      modifies this
      ensures var o := Next(cipher, secret, old(State()), r);
              State() == o.next && events == old(events) + o.emitted
    {
      if stopped {
        return;
      }
      if r.ReadFailed? {
        events := events + [Disconnected];
        stopped := true;
        return;
      }
      var message := TrimLineEnd(r.raw);
      if message == "" {
        return;
      }
      if message == OperatorLine {
        events := events + [OperatorGranted(OperatorNotice)];
        return;
      }
      if message == KickedLine {
        events := events + [Kicked];
        stopped := true;
        return;
      }
      if message == BannedLine {
        events := events + [Banned];
        stopped := true;
        return;
      }
      if message == BeginLine {
        collecting := true;
        buffer := [];
        return;
      }
      if message == EndLine {
        collecting := false;
        events := events + [ServerNotice(Join(buffer, "\n"))];
        return;
      }
      if collecting {
        buffer := buffer + [message];
        return;
      }
      if MessagePrefix <= message || BroadcastPrefix <= message {
        var e := DecodeEnvelope(cipher, secret, message);
        if e.None? {
          stopped := true;
        } else {
          events := events + [e.value];
        }
      } else {
        events := events + [ServerNotice(message)];
      }
    }

    /** The loop of `readMessages`: step through the reads until the loop returns. */
    method ReadAll(input: seq<Read>)
      modifies this
      ensures var o := Run(cipher, secret, old(State()), input);
              State() == o.next && events == old(events) + o.emitted
    {
      ghost var f0, e0 := State(), events;
      var i := 0;
      while i < |input| && !stopped
        invariant 0 <= i <= |input|
        invariant var o := Run(cipher, secret, f0, input[..i]);
                  State() == o.next && events == e0 + o.emitted
      {
        RunSnoc(cipher, secret, f0, input[..i], input[i]);
        assert input[..i + 1] == input[..i] + [input[i]];
        Step(input[i]);
        i := i + 1;
      }
      RunAppend(cipher, secret, f0, input[..i], input[i..]);
      assert input[..i] + input[i..] == input;
      if i < |input| {
        StoppedIsFinal(cipher, secret, State(), input[i..]);
      }
    }
  }

  /** The XOR-form decoding of the loop body, calling `EncryptXOR` as the source calls `encryptXOR`. */
  method DecodeXorPayload(senderID: string, payload: string, broadcast: bool) returns (e: Event)
    ensures e == XorPayloadEvent(senderID, payload, broadcast)
  {
    var cut := IndexOf(payload, PayloadSeparator);
    if cut.None? {
      e := SenderNotice(if broadcast then "Invalid broadcast message format from "
                        else "Invalid message format from ", senderID, ". Ignoring.");
      return;
    }
    var keyHex, ciphertextHex := payload[..cut.value], payload[cut.value + 1..];
    var key := Hex.Decode(keyHex);
    if key.Err? {
      e := SenderNotice(if broadcast then "Error decoding key from broadcast from " else "Error decoding key from ",
                        senderID, ": " + HexErrorText(key.error));
      return;
    }
    var ciphertext := Hex.Decode(ciphertextHex);
    if ciphertext.Err? {
      e := SenderNotice(if broadcast then "Error decoding ciphertext from broadcast from " else "Error decoding ciphertext from ",
                        senderID, ": " + HexErrorText(ciphertext.error));
      return;
    }
    if |key.value| != |ciphertext.value| {
      e := SenderNotice(if broadcast then "Key and ciphertext lengths do not match in broadcast from "
                        else "Key and ciphertext lengths do not match from ", senderID, ".");
      return;
    }
    var plaintext := EncryptXOR(ciphertext.value, key.value);
    e := Incoming(senderID, FromBytes(plaintext), broadcast);
  }

  /** The broadcast branch of the loop body; `None` is the panic of `decryptAES`. */
  method DecodeBroadcastPayload(c: BlockCipher, secret: seq<byte>, senderID: string, encryptedData: string)
    returns (e: Option<Event>)
    ensures e == BroadcastPayloadEvent(c, secret, senderID, encryptedData)
  {
    if '|' in encryptedData {
      var ev := DecodeXorPayload(senderID, encryptedData, true);
      return Some(ev);
    }
    var ciphertext := Hex.Decode(encryptedData);
    if ciphertext.Err? {
      return Some(SenderNotice("Error decoding broadcast from ", senderID, ": " + HexErrorText(ciphertext.error)));
    }
    var plaintext := DecryptAES(c, secret, ciphertext.value);
    if plaintext.Err? {
      if plaintext.error == RuntimePanic {
        return None;
      }
      return Some(SenderNotice("Error decrypting broadcast from ", senderID, ": " + CipherErrorText(plaintext.error)));
    }
    return Some(Incoming(senderID, FromBytes(plaintext.value), true));
  }

  /** The envelope branch of the loop body: split, extract the sender, decode the payload. */
  method DecodeEnvelope(c: BlockCipher, secret: seq<byte>, message: string) returns (e: Option<Event>)
    ensures e == EnvelopeEvent(c, secret, message)
  {
    var cut := IndexOf(message, EnvelopeSeparator);
    if cut.None? {
      return Some(ServerNotice(InvalidFormatNotice));
    }
    var senderInfo, encryptedData := message[..cut.value], message[cut.value + 2..];
    assert EnvelopeEvent(c, secret, message) ==
      if MessagePrefix <= senderInfo then Some(XorPayloadEvent(TrimPrefix(senderInfo, "MESSAGE from "), encryptedData, false))
      else if BroadcastPrefix <= senderInfo then BroadcastPayloadEvent(c, secret, TrimPrefix(senderInfo, "BROADCAST from "), encryptedData)
      else Some(XorPayloadEvent("", encryptedData, false));
    var senderID := "";
    var isBroadcast := false;
    if MessagePrefix <= senderInfo {
      senderID := TrimPrefix(senderInfo, "MESSAGE from ");
    } else if BroadcastPrefix <= senderInfo {
      senderID := TrimPrefix(senderInfo, "BROADCAST from ");
      isBroadcast := true;
    }
    if isBroadcast {
      assert !(MessagePrefix <= senderInfo) && BroadcastPrefix <= senderInfo;
      e := DecodeBroadcastPayload(c, secret, senderID, encryptedData);
    } else {
      var ev := DecodeXorPayload(senderID, encryptedData, false);
      e := Some(ev);
    }
  }
}
