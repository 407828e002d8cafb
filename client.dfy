/**
 * main.go: the client model of the terminal program. It keeps the command
 * history and its cursor, the message list shown in the viewport and the
 * prompt, and turns a typed command into the line written to the server.
 *
 * The text-input widget, the viewport and the connection are reduced to what
 * the client reads and writes: the input value, the viewport content, and the
 * sequence of lines written to the connection.
 */
module Client {
  import opened Wrappers
  import opened Bytes
  import opened Strings
  import Hex
  import opened Cipher
  import opened Handler

  const UsageText := "Invalid SEND command. Use: SEND <RecipientID|ALL> <Message>"
  const HelpLines := [
    "Available commands:",
    "SEND <RecipientID|ALL> <Message> - Send a message",
    "HELP - Print this help text",
    "EXIT - Exit the program"
  ]
  const ConnectedText := "Connected to the server. Type your commands below:"
  const OperatorHelpText := "You are the server operator. Type HELP to see available commands."
  const HelpHintText := "Type HELP to see available commands."

  /**
   * `crypto/rand` as the client sees it: `entropy(n)` is the `n` random bytes
   * a read delivers, or `None` when the read fails.
   */
  type Entropy = nat -> Option<seq<byte>>

  ghost predicate WellSized(entropy: Entropy)
  {
    forall n: nat :: entropy(n).Some? ==> |entropy(n).value| == n
  }

  /** The prompt `updatePrompt` sets. */
  function PromptFor(clientID: string, isOperator: bool): (r: string)
    ensures clientID <= r && |r| >= |clientID| + 3 && r[|r| - 2..] == "> "
    ensures isOperator <==> |r| == |clientID| + 8
    ensures !isOperator ==> |r| == |clientID| + 3
    ensures isOperator ==> r[|clientID|..] == " (op) > "
  {
    if isOperator then clientID + " (op) > " else clientID + " > "
  }

  /** `keyHex + "|" + ciphertextHex` for a direct message. */
  function DirectPayload(key: seq<byte>, plaintext: seq<byte>): (r: string)
    requires |key| >= |plaintext|
    ensures |r| == 2 * |key| + 1 + 2 * |plaintext|
    ensures r[2 * |key|] == '|' && '|' !in r[..2 * |key|]
  {
    Hex.EncodeHasNoBar(key);
    var r := Hex.Encode(key) + PayloadSeparator + Hex.Encode(Xor(plaintext, key));
    assert r[..2 * |key|] == Hex.Encode(key);
    r
  }

  /** The history cursor after KeyUp, for a history of `n` entries. */
  function HistoryUp(n: nat, index: int): (r: int)
    requires -1 <= index < n
    ensures -1 <= r < n
    ensures n > 0 ==> 0 <= r
    ensures n > 0 && index == 0 ==> r == 0
  {
    if n == 0 then index
    else if index == -1 then n - 1
    else if index > 0 then index - 1
    else index
  }

  /** The history cursor after KeyDown, for a history of `n` entries. */
  function HistoryDown(n: nat, index: int): (r: int)
    requires -1 <= index < n
    ensures -1 <= r < n
    ensures index != -1 && index < n - 1 ==> r == index + 1
    ensures index == n - 1 ==> r == -1
    ensures index == -1 ==> r == -1
  {
    if n > 0 && index != -1 then
      if index < n - 1 then index + 1 else -1
    else index
  }

  /** KeyDown undoes KeyUp, except at the oldest entry, where KeyUp stays put. */
  lemma DownUndoesUp(n: nat, index: int)
    requires -1 <= index < n && index != 0
    ensures HistoryDown(n, HistoryUp(n, index)) == index
  {
  }

  /** What `handleInput` does for an input with at least one field: lines shown, lines sent, and whether it quits. */
  datatype Reply = Reply(shown: seq<string>, wire: seq<string>, quit: bool)

  /** SEND with a recipient and a message: AES for ALL, a fresh one-time pad otherwise. */
  function SendReply(c: BlockCipher, secret: seq<byte>, recipientID: string, messageText: string, entropy: Entropy): (r: Reply)
    requires WellSized(entropy)
    ensures !r.quit && |r.shown| + |r.wire| == 1
    ensures r.wire != [] ==> "SEND " <= r.wire[0] && r.wire[0][|r.wire[0]| - 1] == '\n'
  {
    if recipientID == "ALL" then
      match EncryptAES(c, secret, ToBytes(messageText), entropy(BlockSize))
      case Err(e) => Reply(["Error encrypting message: " + CipherErrorText(e)], [], false)
      case Ok(data) => Reply([], ["SEND ALL " + Hex.Encode(data) + "\n"], false)
    else
      match entropy(|messageText|)
      case None => Reply(["Error generating OTP key: " + CipherErrorText(RandomSourceFailure)], [], false)
      case Some(key) => Reply([], ["SEND " + recipientID + " " + DirectPayload(key, ToBytes(messageText)) + "\n"], false)
  }

  /** The switch of `handleInput` on the first field. */
  function Dispatch(c: BlockCipher, secret: seq<byte>, input: string, entropy: Entropy): (r: Reply)
    requires WellSized(entropy)
    ensures r.shown == [] || r.wire == []
    ensures |r.wire| <= 1
    ensures Fields(input) != [] ==> r.shown != [] || r.wire != []
    ensures r.quit <==> Fields(input) != [] && Fields(input)[0] == "EXIT"
  {
    var parts := Fields(input);
    if parts == [] then Reply([], [], false)
    else if parts[0] == "SEND" then
      if |parts| < 3 then Reply([UsageText], [], false)
      else SendReply(c, secret, parts[1], Join(parts[2..], " "), entropy)
    else if parts[0] == "HELP" then Reply(HelpLines, [], false)
    else if parts[0] == "EXIT" then Reply([], ["EXIT\n"], true)
    else Reply([], [input + "\n"], false)
  }

  /** SEND with fewer than two words after it shows the usage text and sends nothing. */
  lemma SendNeedsRecipientAndText(c: BlockCipher, secret: seq<byte>, input: string, command: string, words: seq<string>, entropy: Entropy)
    requires WellSized(entropy) && command == "SEND"
    requires forall k :: 0 <= k < |words| ==> IsWord(words[k])
    requires |words| < 2 && input == Join([command] + words, " ")
    ensures Dispatch(c, secret, input, entropy) == Reply([UsageText], [], false)
  {
    FieldsOfCommand(input, command, [command] + words);
    ShortSend(c, secret, input, entropy);
  }

  /** A command typed as its words with single spaces splits back into those words. */
  lemma FieldsOfCommand(input: string, command: string, parts: seq<string>)
    requires command == "SEND" && parts != [] && parts[0] == command
    requires forall k :: 1 <= k < |parts| ==> IsWord(parts[k])
    requires input == Join(parts, " ")
    ensures Fields(input) == parts
  {
    assert IsWord(command);
    FieldsOfJoin(parts);
  }

  /** SEND with a recipient and a message: the reply of the SEND branch. */
  lemma DispatchSend(c: BlockCipher, secret: seq<byte>, input: string, entropy: Entropy)
    requires WellSized(entropy)
    requires |Fields(input)| >= 3 && Fields(input)[0] == "SEND"
    ensures Dispatch(c, secret, input, entropy) == SendReply(c, secret, Fields(input)[1], Join(Fields(input)[2..], " "), entropy)
  {
  }

  /** SEND with fewer than three fields, whatever the spacing. */
  lemma ShortSend(c: BlockCipher, secret: seq<byte>, input: string, entropy: Entropy)
    requires WellSized(entropy)
    requires 0 < |Fields(input)| < 3 && Fields(input)[0] == "SEND"
    ensures Dispatch(c, secret, input, entropy) == Reply([UsageText], [], false)
  {
  }

  /**
   * `SEND <recipient> <words>`: the recipient is the second field and the
   * message text is the remaining fields joined by single spaces, so runs of
   * white space between words become one space.
   */
  lemma SendSplitsRecipient(c: BlockCipher, secret: seq<byte>, input: string, command: string, recipientID: string, words: seq<string>, entropy: Entropy)
    requires WellSized(entropy) && command == "SEND" && words != []
    requires Fields(input) == [command, recipientID] + words
    ensures Dispatch(c, secret, input, entropy) == SendReply(c, secret, recipientID, Join(words, " "), entropy)
  {
    var parts := [command, recipientID] + words;
    assert parts[0] == command && parts[1] == recipientID && parts[2..] == words;
  }

  /**
   * The other commands: HELP shows the four help lines, EXIT sends `EXIT` and
   * quits, and anything else goes to the server as typed. Only the first field
   * is looked at, and only as a whole word.
   */
  lemma OtherCommands(c: BlockCipher, secret: seq<byte>, input: string, entropy: Entropy)
    requires WellSized(entropy) && Fields(input) != []
    ensures Fields(input)[0] == "HELP" ==>
              Dispatch(c, secret, input, entropy) == Reply(HelpLines, [], false) && |HelpLines| == 4
    ensures Fields(input)[0] == "EXIT" ==> Dispatch(c, secret, input, entropy) == Reply([], ["EXIT\n"], true)
    ensures Fields(input)[0] !in {"SEND", "HELP", "EXIT"} ==>
              Dispatch(c, secret, input, entropy) == Reply([], [input + "\n"], false)
    ensures !Dispatch(c, secret, input, entropy).quit <==> Fields(input)[0] != "EXIT"
  {
  }

  /** SEND ALL sends one line: the hex of the IV followed by the CBC blocks of the padded text. */
  lemma BroadcastWire(c: BlockCipher, secret: seq<byte>, messageText: string, entropy: Entropy)
    requires WellSized(entropy) && ValidKeySize(|secret|)
    requires entropy(BlockSize).Some?
    ensures var data := EncryptAES(c, secret, ToBytes(messageText), entropy(BlockSize)).value;
            SendReply(c, secret, "ALL", messageText, entropy) == Reply([], ["SEND ALL " + Hex.Encode(data) + "\n"], false) &&
            |data| == BlockSize + |Pad(ToBytes(messageText))| && data[..BlockSize] == entropy(BlockSize).value
  {
  }

  /** Without random bytes for the IV, SEND ALL only shows an error. */
  lemma BroadcastWithoutEntropy(c: BlockCipher, secret: seq<byte>, messageText: string, entropy: Entropy)
    requires WellSized(entropy) && ValidKeySize(|secret|)
    requires entropy(BlockSize).None?
    ensures SendReply(c, secret, "ALL", messageText, entropy)
         == Reply(["Error encrypting message: " + CipherErrorText(RandomSourceFailure)], [], false)
  {
  }

  /** With a secret of the wrong size, SEND ALL shows the key size error and sends nothing. */
  lemma BroadcastBadSecret(c: BlockCipher, secret: seq<byte>, messageText: string, entropy: Entropy)
    requires WellSized(entropy) && !ValidKeySize(|secret|)
    ensures SendReply(c, secret, "ALL", messageText, entropy)
         == Reply(["Error encrypting message: " + CipherErrorText(KeySizeError(|secret|))], [], false)
  {
  }

  /**
   * SEND to one recipient sends `SEND <recipient> <key hex>|<ciphertext hex>`,
   * both halves as long as the hex of the text, with a fresh key as long as the text.
   */
  lemma DirectWire(c: BlockCipher, secret: seq<byte>, recipientID: string, messageText: string, entropy: Entropy)
    requires WellSized(entropy) && recipientID != "ALL"
    requires entropy(|messageText|).Some?
    ensures var key := entropy(|messageText|).value;
            var payload := DirectPayload(key, ToBytes(messageText));
            SendReply(c, secret, recipientID, messageText, entropy) == Reply([], ["SEND " + recipientID + " " + payload + "\n"], false) &&
            |key| == |messageText| &&
            |payload| == 4 * |messageText| + 1 && payload[2 * |messageText|] == '|' &&
            payload[..2 * |messageText|] == Hex.Encode(key)
  {
    var key := entropy(|messageText|).value;
    var payload := DirectPayload(key, ToBytes(messageText));
    assert payload[..2 * |messageText|] == Hex.Encode(key);
  }

  /**
   * The reader of the recipient turns the direct payload back into the text
   * that was typed, provided it fits in bytes.
   */
  lemma DirectPayloadDecodes(senderID: string, key: seq<byte>, messageText: string)
    requires IsByteString(messageText) && |key| == |messageText|
    ensures XorPayloadEvent(senderID, DirectPayload(key, ToBytes(messageText)), false)
         == Incoming(senderID, messageText, false)
  {
    var plaintext := ToBytes(messageText);
    XorPayloadOfHex(senderID, key, Xor(plaintext, key), false, DirectPayload(key, plaintext));
    XorSelfInverse(plaintext, key);
    FromBytesToBytes(messageText);
  }

  /**
   * The reader of every client turns the SEND ALL payload back into the text
   * that was typed, when all share the secret and the block function is a
   * permutation.
   */
  lemma BroadcastPayloadDecodes(c: BlockCipher, secret: seq<byte>, senderID: string, messageText: string, iv: Block)
    requires IsPermutation(c) && ValidKeySize(|secret|)
    requires IsByteString(messageText)
    ensures var data := EncryptAES(c, secret, ToBytes(messageText), Some(iv)).value;
            BroadcastPayloadEvent(c, secret, senderID, Hex.Encode(data)) == Some(Incoming(senderID, messageText, true))
  {
    var data := EncryptAES(c, secret, ToBytes(messageText), Some(iv)).value;
    AesRoundTrip(c, secret, ToBytes(messageText), iv);
    Hex.EncodeHasNoBar(data);
    Hex.DecodeEncode(data);
    FromBytesToBytes(messageText);
  }

  /**
   * Round trip of a direct message: the server forwards the payload of
   * `SEND <recipient> ...` as `MESSAGE from <sender>: ...`, and the
   * recipient's reader sends the user interface the typed text.
   */
  lemma DirectMessageDelivered(c: BlockCipher, secret: seq<byte>, f: Framing, senderID: string, key: seq<byte>, messageText: string)
    requires !f.stopped && !f.collecting
    requires ':' !in senderID && IsByteString(messageText) && |key| == |messageText|
    ensures Next(c, secret, f, Line("MESSAGE from " + senderID + EnvelopeSeparator + DirectPayload(key, ToBytes(messageText)) + "\n"))
         == Outcome(f, [Incoming(senderID, messageText, false)])
  {
    var payload := DirectPayload(key, ToBytes(messageText));
    var ciphertextHex := Hex.Encode(Xor(ToBytes(messageText), key));
    assert payload == Hex.Encode(key) + "|" + ciphertextHex;
    assert !IsLineEnd(payload[|payload| - 1]) by {
      if ciphertextHex != [] {
        assert payload[|payload| - 1] == ciphertextHex[|ciphertextHex| - 1];
      }
    }
    EnvelopeLineRead(c, secret, f, "MESSAGE from ", senderID, payload);
    DirectPayloadDecodes(senderID, key, messageText);
  }

  /**
   * Round trip of a broadcast: the server forwards the hex of `SEND ALL ...`
   * as `BROADCAST from <sender>: ...`, and every reader sharing the secret
   * sends its user interface the typed text.
   */
  lemma BroadcastDelivered(c: BlockCipher, secret: seq<byte>, f: Framing, senderID: string, messageText: string, iv: Block)
    requires !f.stopped && !f.collecting
    requires IsPermutation(c) && ValidKeySize(|secret|)
    requires ':' !in senderID && IsByteString(messageText)
    ensures var data := EncryptAES(c, secret, ToBytes(messageText), Some(iv)).value;
            Next(c, secret, f, Line("BROADCAST from " + senderID + EnvelopeSeparator + Hex.Encode(data) + "\n"))
              == Outcome(f, [Incoming(senderID, messageText, true)])
  {
    var data := EncryptAES(c, secret, ToBytes(messageText), Some(iv)).value;
    var payload := Hex.Encode(data);
    assert |payload| > 0 && Hex.IsLowerHexDigit(payload[|payload| - 1]);
    EnvelopeLineRead(c, secret, f, "BROADCAST from ", senderID, payload);
    BroadcastPayloadDecodes(c, secret, senderID, messageText, iv);
  }

  /** The line `Update` appends for an event from the reader. */
  function DisplayText(e: Event): (r: string)
    ensures e.ServerNotice? || e.OperatorGranted? ==> r == e.content
    ensures e.Incoming? ==> Mentions(r, e.senderID) && |e.content| <= |r| && r[|r| - |e.content|..] == e.content
    ensures r == [] ==> e.ServerNotice? || e.OperatorGranted?
  {
    match e
    case ServerNotice(content) => content
    case OperatorGranted(content) => content
    case Incoming(senderID, content, isBroadcast) =>
      var lead := if isBroadcast then "Broadcast from " else "Message from ";
      MentionsMiddle(lead, senderID, ": " + content);
      assert lead + senderID + ": " + content == lead + senderID + (": " + content);
      lead + senderID + ": " + content
    case Kicked => "You have been kicked from the server by the operator."
    case Banned => "You have been banned from the server by the operator."
    case Disconnected => "Disconnected from server."
  }

  /** The events after which `Update` closes the connection and quits. */
  predicate IsTerminal(e: Event)
  {
    e.Kicked? || e.Banned? || e.Disconnected?
  }

  /** The Bubble Tea model of main.go, from the moment the connection is set up. */
  class ChatClient {
    const clientID: string
    const cipher: BlockCipher
    const secret: seq<byte>       // hashedSecret
    var isOperator: bool
    var prompt: string            // input.Prompt
    var inputValue: string        // input.Value()
    var messages: seq<string>
    var content: string           // what the viewport shows
    var history: seq<string>
    var historyIndex: int         // -1 when not navigating the history
    var sent: seq<string>         // lines written to the connection
    var quit: bool                // tea.Quit was returned

    /** The cursor stays in [-1, |history| - 1]; the viewport and the prompt follow the model. */
    ghost predicate Valid()
      reads this
    {
      -1 <= historyIndex < |history| &&
      content == Join(messages, "\n") &&
      prompt == PromptFor(clientID, isOperator)
    }

    /** The model of `main` after `Init` and the `connectedMsg` case of `Update`. */
    constructor (clientID: string, cipher: BlockCipher, secret: seq<byte>, isOperator: bool)
      ensures Valid()
      ensures this.clientID == clientID && this.cipher == cipher && this.secret == secret
      ensures this.isOperator == isOperator
      ensures history == [] && historyIndex == -1 && sent == [] && !quit && inputValue == ""
      ensures messages == [ConnectedText, if isOperator then OperatorHelpText else HelpHintText]
    {
      this.clientID := clientID;
      this.cipher := cipher;
      this.secret := secret;
      this.isOperator := isOperator;
      prompt := "";
      inputValue := "";
      messages := [];
      content := "Connecting to server...";
      history := [];
      historyIndex := -1;
      sent := [];
      quit := false;
      new;
      UpdatePrompt();
      AppendMessage(ConnectedText);
      if isOperator {
        AppendMessage(OperatorHelpText);
      } else {
        AppendMessage(HelpHintText);
      }
    }

    /** `updatePrompt`: "<id> (op) > " for the operator, "<id> > " otherwise. */
    method UpdatePrompt()
      modifies this`prompt
      ensures prompt == PromptFor(clientID, isOperator)
      ensures isOperator ==> prompt == clientID + " (op) > "
      ensures !isOperator ==> prompt == clientID + " > "
    {
      if isOperator {
        prompt := clientID + " (op) > ";
      } else {
        prompt := clientID + " > ";
      }
    }

    /** `appendMessage`: one more message at the end; the viewport shows them all, one per line. */
    method AppendMessage(msg: string)
      modifies this`messages, this`content
      ensures messages == old(messages) + [msg]
      ensures content == Join(messages, "\n")
    {
      messages := messages + [msg];
      content := Join(messages, "\n");
    }

    /** KeyUp: step back through the history and show the entry. */
    method KeyUp()
      requires Valid()
      modifies this`historyIndex, this`inputValue
      ensures Valid()
      ensures historyIndex == HistoryUp(|history|, old(historyIndex))
      ensures history == [] ==> inputValue == old(inputValue)
      ensures history != [] ==> inputValue == history[historyIndex]
    {
      if |history| > 0 {
        if historyIndex == -1 {
          historyIndex := |history| - 1;
        } else if historyIndex > 0 {
          historyIndex := historyIndex - 1;
        }
        inputValue := history[historyIndex];
      }
    }

    /** KeyDown: step forward through the history; past the newest entry, leave the history with an empty input. */
    method KeyDown()
      requires Valid()
      modifies this`historyIndex, this`inputValue
      ensures Valid()
      ensures historyIndex == HistoryDown(|history|, old(historyIndex))
      ensures history == [] || old(historyIndex) == -1 ==> inputValue == old(inputValue)
      ensures history != [] && old(historyIndex) != -1 ==>
                inputValue == (if historyIndex == -1 then "" else history[historyIndex])
    {
      if |history| > 0 && historyIndex != -1 {
        if historyIndex < |history| - 1 {
          historyIndex := historyIndex + 1;
          inputValue := history[historyIndex];
        } else {
          historyIndex := -1;
          inputValue := "";
        }
      }
    }

    /**
     * Any other key goes to the text-input widget, whose new value is
     * `widgetValue`; a key that types runes leaves the history.
     */
    method TypeKey(widgetValue: string, typesRunes: bool)
      requires Valid()
      modifies this`historyIndex, this`inputValue
      ensures Valid()
      ensures inputValue == widgetValue
      ensures historyIndex == if typesRunes then -1 else old(historyIndex)
    {
      inputValue := widgetValue;
      if typesRunes {
        historyIndex := -1;
      }
    }

    /** Enter: take the trimmed input, clear the field, and handle the command. */
    method Enter(entropy: Entropy)
      requires Valid() && WellSized(entropy)
      modifies this`inputValue, this`history, this`historyIndex, this`messages, this`content, this`sent, this`quit
      ensures Valid()
      ensures inputValue == "" && historyIndex == -1
      ensures var input := TrimSpace(old(inputValue));
              if Fields(input) == [] then
                history == old(history) && messages == old(messages) && sent == old(sent) && quit == old(quit)
              else
                var reply := Dispatch(cipher, secret, input, entropy);
                history == old(history) + [input] && messages == old(messages) + reply.shown &&
                sent == old(sent) + reply.wire && quit == (old(quit) || reply.quit)
    {
      var input := TrimSpace(inputValue);
      inputValue := "";
      HandleInput(input, entropy);
    }

    /** `handleInput`: record the command in the history and carry it out. */
    method HandleInput(input: string, entropy: Entropy)
      requires Valid() && WellSized(entropy)
      modifies this`history, this`historyIndex, this`messages, this`content, this`sent, this`quit
      ensures Valid()
      ensures historyIndex == -1
      ensures Fields(input) == [] ==>
                history == old(history) && messages == old(messages) && sent == old(sent) && quit == old(quit)
      ensures Fields(input) != [] ==>
                var reply := Dispatch(cipher, secret, input, entropy);
                history == old(history) + [input] && messages == old(messages) + reply.shown &&
                sent == old(sent) + reply.wire && quit == (old(quit) || reply.quit)
    {
      var parts := Fields(input);
      if |parts| == 0 {
        historyIndex := -1;
        return;
      }
      if input != "" {
        history := history + [input];
      }
      historyIndex := -1;
      RunCommand(input, parts, entropy);
    }

    /** The `switch parts[0]` of `handleInput`. */
    method RunCommand(input: string, parts: seq<string>, entropy: Entropy)
      requires Valid() && WellSized(entropy)
      requires parts == Fields(input) && parts != []
      modifies this`messages, this`content, this`sent, this`quit
      ensures Valid()
      ensures var reply := Dispatch(cipher, secret, input, entropy);
              messages == old(messages) + reply.shown && sent == old(sent) + reply.wire &&
              quit == (old(quit) || reply.quit)
    {
      if parts[0] == "SEND" {
        if |parts| < 3 {
          ShortSend(cipher, secret, input, entropy);
          AppendMessage(UsageText);
          return;
        }
        DispatchSend(cipher, secret, input, entropy);
        Send(parts[1], Join(parts[2..], " "), entropy);
        return;
      }
      OtherCommands(cipher, secret, input, entropy);
      if parts[0] == "HELP" {
        ShowHelp();
        return;
      }
      if parts[0] == "EXIT" {
        sent := sent + ["EXIT\n"];
        quit := true;
        return;
      }
      sent := sent + [input + "\n"];
    }

    /** The HELP branch of `handleInput`: the four help lines, one message each. */
    method ShowHelp()
      requires Valid()
      modifies this`messages, this`content
      ensures Valid()
      ensures messages == old(messages) + HelpLines
    {
      AppendMessage("Available commands:");
      AppendMessage("SEND <RecipientID|ALL> <Message> - Send a message");
      AppendMessage("HELP - Print this help text");
      AppendMessage("EXIT - Exit the program");
    }

    /** The SEND branch of `handleInput`, once the recipient and the message text are known. */
    method Send(recipientID: string, messageText: string, entropy: Entropy)
      requires Valid() && WellSized(entropy)
      modifies this`messages, this`content, this`sent
      ensures Valid()
      ensures var reply := SendReply(cipher, secret, recipientID, messageText, entropy);
              messages == old(messages) + reply.shown && sent == old(sent) + reply.wire
    {
      if recipientID == "ALL" {
        var encryptedData := EncryptAES(cipher, secret, ToBytes(messageText), entropy(BlockSize));
        if encryptedData.Err? {
          AppendMessage("Error encrypting message: " + CipherErrorText(encryptedData.error));
          return;
        }
        var encryptedDataHex := Hex.Encode(encryptedData.value);
        sent := sent + ["SEND ALL " + encryptedDataHex + "\n"];
      } else {
        var key := entropy(|messageText|);
        if key.None? {
          AppendMessage("Error generating OTP key: " + CipherErrorText(RandomSourceFailure));
          return;
        }
        var plaintext := ToBytes(messageText);
        var ciphertext := EncryptXOR(plaintext, key.value);
        var keyHex := Hex.Encode(key.value);
        var ciphertextHex := Hex.Encode(ciphertext);
        var encryptedData := keyHex + "|" + ciphertextHex;
        sent := sent + ["SEND " + recipientID + " " + encryptedData + "\n"];
      }
    }

    /** The cases of `Update` for the events the reader sends. */
    method Deliver(e: Event)
      requires Valid()
      modifies this`isOperator, this`prompt, this`messages, this`content, this`quit
      ensures Valid()
      ensures messages == old(messages) + [DisplayText(e)]
      ensures isOperator == (old(isOperator) || e.OperatorGranted?)
      ensures quit == (old(quit) || IsTerminal(e))
    {
      match e {
        case ServerNotice(text) =>
          AppendMessage(text);
        case OperatorGranted(text) =>
          isOperator := true;
          UpdatePrompt();
          AppendMessage(text);
        case Incoming(senderID, text, isBroadcast) =>
          var prefix := if isBroadcast then "Broadcast from " + senderID + ": " else "Message from " + senderID + ": ";
          AppendMessage(prefix + text);
        case Kicked =>
          AppendMessage("You have been kicked from the server by the operator.");
          quit := true;
        case Banned =>
          AppendMessage("You have been banned from the server by the operator.");
          quit := true;
        case Disconnected =>
          AppendMessage("Disconnected from server.");
          quit := true;
      }
    }
  }
}
