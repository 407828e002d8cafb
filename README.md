# padclient core, modelled in Dafny

padclient is a terminal chat client. It talks to a relay server over a line-based TCP
protocol. Each user types commands (`SEND <RecipientID|ALL> <Message>`, `HELP`, `EXIT`,
or anything else, which goes to the server unchanged):

- A direct message is encrypted with a fresh one-time pad. It travels as
  `key_hex|ciphertext_hex`.
- A broadcast is encrypted with AES-CBC under the shared secret. It travels as the hex of
  IV + ciphertext.

A reader goroutine turns the lines the server sends into events for the user interface:

- operator registration, kick and ban notices;
- multi-line responses between `BEGIN_RESPONSE` and `END_RESPONSE`;
- decrypted `MESSAGE from` / `BROADCAST from` envelopes;
- everything else, as plain server text.

The project models three source files:

- `encryption.go`, in `cipher.dfy`. The XOR cipher is a method with a loop, proved equal
  to the function `Xor`. PKCS#7-style padding, CBC chaining over an abstract block
  function, `encryptAES` and `decryptAES` are functions. The error cases come out in the
  source's order.
- `message_handler.go`, in `handler.dfy`. The loop of `readMessages` is the class
  `LineReader`:
  - `Step` is one pass of the loop body.
  - `ReadAll` is the loop.
  - Both are proved equal to the state-machine functions `Next` and `Run`.
  - The properties of the reader are lemmas about `Next` and `Run`.
- `main.go`, in `client.dfy`. The Bubble Tea model is the class `ChatClient`. Its methods
  are:
  - Enter, KeyUp, KeyDown, other keys;
  - `handleInput`, `appendMessage` and `updatePrompt`;
  - the event cases of `Update`.

  The class invariant `Valid()` says:
  - the history cursor stays in `[-1, len(history)-1]`;
  - the viewport shows the messages joined by newlines;
  - the prompt matches the operator flag.

  Enter, KeyUp, KeyDown, other keys, `handleInput` and the event cases of `Update`
  require and keep it. `appendMessage` and `updatePrompt` are the steps that restore
  it: each one only sets its own part (the viewport content from the messages, the
  prompt from the operator flag), and it is called right after that part has been
  invalidated.

  The command switch is the function `Dispatch`. The round-trip lemmas
  `DirectMessageDelivered` and `BroadcastDelivered` tie what the client sends to what the
  recipient's reader decodes.

As in the source, END_RESPONSE always sends a notice, even when no BEGIN_RESPONSE came
before it and even when the buffer is empty, and it does not clear the buffer
(message_handler.go:59-63). A read is either a whole line ending in its line feed, or an
error; a last line cut off by end of file arrives with an error in Go and is modelled as
a failed read (message_handler.go:23-27).

Supporting modules:

- `bytes.dfy`: Go's `[]byte(s)` and `string(b)`. Characters are bytes; `IsByteString`
  marks strings whose characters are all below 256.
- `strings.dfy`: the parts of Go's `strings` package the core uses, with ASCII white
  space.
- `hex.dfy`: `encoding/hex`.
- `wrappers.dfy`: `Option` and `Result`.

Randomness and the AES block function are parameters:

- `crypto/rand` is a function `entropy(n)` that gives `n` bytes or fails.
- The IV of `EncryptAES` is an `Option`.
- The AES block function is a `BlockCipher` value. The CBC round trip assumes it is a
  permutation; that is the `IsPermutation` precondition.

A Go runtime panic ends the program. In `decryptAES`, the panics are:

- a ciphertext that is not a whole number of blocks;
- an empty block payload;
- a pad count larger than the data.

Each is modelled as `RuntimePanic`. The reader then stops without sending an event.

## Model

| member | source | states |
|---|---|---|
| Bytes.ToBytes | main.go:281 | one byte per character, each the character's code when the characters are bytes |
| Bytes.FromBytes | message_handler.go:122 | one character per byte, each with the byte's code |
| Bytes.FromBytesToBytes | message_handler.go:170-174 | `string([]byte(s)) == s` for every string whose characters are bytes |
| Strings.TrimLineEnd | message_handler.go:28 | the result is a prefix of the line that does not end in CR or LF, and everything cut off is CR or LF |
| Strings.TrimPrefix | message_handler.go:85 | with the prefix present, prefix + result is the input; without it, the input is returned unchanged |
| Strings.IndexOf | message_handler.go:73 | the index where `SplitN(s, sep, 2)` cuts is an occurrence of `sep` with none before it; `None` exactly when `sep` does not occur |
| Strings.IndexOfChar | message_handler.go:92-94 | the search for a one-character separator fails exactly when the character is absent, and otherwise lands on it |
| Strings.Fields | main.go:257 | every field is non-empty and holds no white space |
| Strings.FieldsEmpty | main.go:257-262 | `Fields` is empty exactly when the input is all white space |
| Strings.FieldsAroundSpace | main.go:257 | any run of white space (spaces, tabs, several in a row) separates fields: the fields of `a + run + b` are those of `a` followed by those of `b` |
| Strings.FieldsSkipSpace | main.go:257 | leading white space does not change the fields |
| Strings.Join | main.go:345 | joining no parts gives the empty string; otherwise the result starts with the first part, followed by the separator when there are more |
| Strings.JoinSnoc | main.go:345 | joining one more part appends the separator and that part |
| Strings.FieldsOfJoin | main.go:278 | splitting words joined by single spaces gives the words back |
| Strings.WordLength | main.go:257 | the run of non-space characters at the start of a string ends at a space or at the end |
| Strings.TrimSpace | main.go:131 | the result is the slice of the input after its leading white space, followed only by white space, so the spacing inside is kept; it neither starts nor ends with white space and has the same fields as the input |
| Strings.Decimal | main.go:283 | the decimal text of a key size is non-empty, all digits, reads back as the number, and starts with 0 only for 0 |
| Hex.Encode | main.go:287 | the hex text is twice as long as the bytes and uses lower-case digits only |
| Hex.Decode | message_handler.go:103-112 | a successful decoding is half as long as the text |
| Hex.DecodeSucceeds | message_handler.go:103-112 | decoding succeeds exactly when the text has even length and only hex digits |
| Hex.DecodeErrors | message_handler.go:103-112 | an invalid-byte error names a non-hex character of the text; an odd-length error only comes for an odd-length text |
| Hex.DecodeEncode | main.go:304-305 | decoding the hex of any bytes gives those bytes back |
| Hex.EncodeHasNoBar | main.go:308 | hex text never contains `|`, so the key/ciphertext separator is unambiguous |
| Cipher.Xor | encryption.go:68-74 | the result is as long as the message; its bytes are the position-wise XOR that `EncryptXOR` computes and `XorSelfInverse` inverts |
| Cipher.XorSelfInverse | message_handler.go:170 | XORing twice with the same key gives the message back, so `encryptXOR` also decrypts |
| Cipher.EncryptXOR | encryption.go:68-74 | the loop computes exactly `Xor(message, key)` |
| Cipher.PadLength | encryption.go:23 | the pad count is between 1 and 16 and brings the length to a multiple of 16 |
| Cipher.Pad | encryption.go:22-25 | the padded text is a multiple of 16 long, 1 to 16 bytes longer, starts with the plain text, and every added byte equals the count added |
| Cipher.UnpadPad | encryption.go:61-62 | removing the padding after padding gives the plain text back |
| Cipher.Unpad | encryption.go:61-62 | the result is the data with as many bytes cut from the end as the last byte says |
| Cipher.UnpadReadsOnlyLastByte | encryption.go:61-62 | for any two inputs of equal length with the same last byte that agree before the padding, the results are equal: the unpadding trusts the last byte alone and checks none of the others |
| Cipher.UnpadInconsistentPad | encryption.go:61-62 | `[7, 3, 9, 2]` unpads to `[7, 3]` although its pad bytes are not both 2 |
| Cipher.CbcEncrypt | encryption.go:38-39 | CBC encryption keeps the length |
| Cipher.CbcDecrypt | encryption.go:57-58 | CBC decryption keeps the length |
| Cipher.CbcRoundTrip | encryption.go:57-58 | CBC decryption under the same key and IV undoes CBC encryption, for any block permutation |
| Cipher.EncryptAES | encryption.go:16-41 | success exactly when the key is 16, 24 or 32 bytes and the IV could be read; a bad key gives the key-size error; the output is 16 + padded-length bytes and starts with the IV |
| Cipher.DecryptAES | encryption.go:44-65 | fewer than 16 bytes gives "ciphertext too short" before the key is looked at; then a bad key gives the key-size error; with a good key, exactly 16 bytes panics and a partial block fails; a result is never longer than the data after the IV |
| Cipher.DecryptAESValue | encryption.go:44-65 | past the error checks, the result is the CBC decryption after the IV with as many bytes cut off as its last byte says, or a panic when that count exceeds the data; no other pad byte is checked |
| Cipher.AesRoundTrip | encryption.go:16-65 | with a valid key and a block permutation, encryption succeeds and decryption gives the plain text back |
| Handler.Next | message_handler.go:22-181 | one read sends at most one event, and once the loop has returned nothing changes |
| Handler.Run | message_handler.go:22-181 | a run over n reads sends at most n events |
| Handler.RunSnoc | message_handler.go:22-181 | one more read continues from the state the earlier reads left and appends what it sends |
| Handler.RunAppend | message_handler.go:22-181 | reading `a` then `b` is reading `a + b`: the states chain and the events concatenate |
| Handler.StoppedIsFinal | message_handler.go:43 | after the loop returns, no read changes the state or sends anything |
| Handler.AsReads | message_handler.go:23 | one successful read for every line |
| Handler.TrimAll | message_handler.go:28 | one trimmed line for every line read |
| Handler.BlankLineIgnored | message_handler.go:30-32 | a line of only CR/LF changes nothing and sends nothing, even while capturing |
| Handler.SilentLines | message_handler.go:28-69 | a line sends nothing and keeps the loop going exactly when it is blank, `BEGIN_RESPONSE`, or a non-sentinel line inside a capture |
| Handler.SentinelsWhileCollecting | message_handler.go:35-50 | the operator, kick and ban lines act even inside a capture, because they are tested first |
| Handler.TerminalLineEndsReading | message_handler.go:41-50 | a KICKED or BANNED line sends its one event and nothing after it is read |
| Handler.ReadErrorEndsReading | message_handler.go:24-27 | a read error sends `Disconnected` and ends the loop |
| Handler.CollectFragments | message_handler.go:66-69 | inside a capture, lines are appended to the buffer, trimmed, in order and otherwise unchanged, and nothing is sent |
| Handler.CapturedResponse | message_handler.go:53-69 | BEGIN, some lines, END sends one notice holding the lines joined by newlines, and leaves capture mode |
| Handler.EndKeepsBuffer | message_handler.go:60-64 | END sends the buffer joined by newlines without clearing it; END before any BEGIN sends an empty notice |
| Handler.EnvelopeWithoutSeparator | message_handler.go:72-77 | an envelope without `": "` sends the invalid-format notice |
| Handler.OtherLinesEchoed | message_handler.go:177-180 | any other non-empty line outside a capture is sent on as server text |
| Handler.EnvelopeSplit | message_handler.go:72-92 | for `MESSAGE from <id>: <payload>` and `BROADCAST from <id>: <payload>`, with no `": "` in the id, the sender is `<id>` and the payload is everything after the first separator |
| Handler.FirstSeparatorAfterSender | message_handler.go:73 | the first `": "` of such a line is the one right after the sender |
| Handler.NoColonNoSeparator | message_handler.go:73 | a sender id without a colon contains no `": "` |
| Handler.DirectExample | message_handler.go:143-175 | `MESSAGE from bob: 0102|0304` delivers bob's message with the bytes 02 06 |
| Handler.DirectPayloadExample | message_handler.go:145-175 | the payload `0102|0304` decodes to the bytes 02 06 |
| Handler.MismatchExample | message_handler.go:166-169 | `MESSAGE from bob: 01|0203` gives the length-mismatch notice naming bob |
| Handler.MismatchPayloadExample | message_handler.go:166-169 | a one-byte key with a two-byte ciphertext gives the length-mismatch notice |
| Handler.LineReader.constructor | message_handler.go:18-20 | the reader starts outside a capture, with an empty buffer and nothing sent |
| Handler.LineReader.Step | message_handler.go:23-180 | one pass of the loop body changes the state and the sent events exactly as `Next` says |
| Handler.LineReader.ReadAll | message_handler.go:22-181 | the loop, stopping at the first return, changes the state and the sent events exactly as `Run` says |
| Handler.XorPayloadOfHex | message_handler.go:145-175 | a payload `<key hex>|<ciphertext hex>` decodes to the XOR of the two byte strings when they are equally long, and to the length-mismatch notice (broadcast or direct wording) otherwise |
| Handler.DecodeXorPayload | message_handler.go:94-124 | the split, decode and `encryptXOR` steps give exactly `XorPayloadEvent` |
| Handler.DecodeBroadcastPayload | message_handler.go:91-142 | the broadcast branch gives exactly `BroadcastPayloadEvent`: the XOR form when `|` is present, otherwise AES under the secret |
| Handler.DecodeEnvelope | message_handler.go:72-176 | the envelope branch gives exactly `EnvelopeEvent` |
| Handler.EnvelopeIsNoSentinel | message_handler.go:35-72 | an envelope line is never one of the sentinel lines |
| Handler.TrimNewline | message_handler.go:28 | cutting the newline off a line that ends in neither CR nor LF gives the line back |
| Handler.EnvelopeLineRead | message_handler.go:23-176 | a MESSAGE or BROADCAST line read outside a capture sends exactly the event its payload decodes to |
| Handler.Classify | message_handler.go:34-180 | a non-empty line sends at most one event, and the loop returns exactly on KICKED, BANNED, or an envelope outside a capture that `EnvelopeEvent` cannot turn into an event |
| Handler.EnvelopeEvent | message_handler.go:72-176 | a MESSAGE or BROADCAST line gives a notice or a message, or nothing (the panic) |
| Handler.XorPayloadEvent | message_handler.go:145-175 | a `key_hex|ciphertext_hex` payload gives either the message from that sender with the given broadcast flag, or one notice that names the sender |
| Handler.SenderNotice | message_handler.go:96-167 | the notices about a sender's message name that sender |
| Handler.XorPayloadOutcome | message_handler.go:145-175 | the XOR form gives a message exactly when the payload has a `|`, both halves are hex and equally long once decoded, and the message is then the XOR of the two; every other payload gives a notice |
| Handler.BroadcastPayloadOutcome | message_handler.go:91-142 | a broadcast with `|` is the XOR form; without it, invalid hex or a `decryptAES` error other than the panic gives a notice, and a successful decryption gives the plaintext as a broadcast from the sender |
| Handler.BroadcastPayloadEvent | message_handler.go:91-142 | a broadcast gives nothing exactly when its payload has no `|`, is valid hex and makes `decryptAES` panic; otherwise a broadcast from that sender or one notice naming the sender |
| Handler.EnvelopeStopsOnlyOnPanic | message_handler.go:86-142 | an envelope gives no event only if it is a BROADCAST line with a payload on which `decryptAES` panics |
| Handler.EnvelopeLineOutcome | message_handler.go:72-176 | an envelope line read outside a capture stops the reader exactly when `EnvelopeEvent` gives nothing, and then sends nothing; otherwise it keeps the state and sends exactly one notice or message |
| Client.HistoryUp | main.go:134-144 | KeyUp keeps the cursor in `[-1, n-1]`, on a non-empty history it lands on an entry, and at the oldest entry it stays there |
| Client.HistoryDown | main.go:145-156 | KeyDown keeps the cursor in range, moves one entry forward, leaves the history past the newest entry, and does nothing when not navigating (index -1) |
| Client.DownUndoesUp | main.go:134-156 | KeyDown after KeyUp restores the cursor from anywhere but the oldest entry (where `HistoryUp` stays put) |
| Client.SendNeedsRecipientAndText | main.go:273-276 | SEND with fewer than two words after it shows the usage text and sends nothing |
| Client.ShortSend | main.go:273-276 | SEND with fewer than three fields, however spaced, shows only the usage text |
| Client.DispatchSend | main.go:277-310 | SEND with three or more fields is the SEND branch for the second field and the rest joined by single spaces |
| Client.SendSplitsRecipient | main.go:277-278 | the recipient is the second field, and the text is the remaining fields joined by single spaces |
| Client.OtherCommands | main.go:312-329 | HELP shows four lines; EXIT sends `EXIT` and quits; any other first word sends the input as typed; only EXIT quits |
| Client.BroadcastWire | main.go:279-289 | SEND ALL sends one line `SEND ALL <hex>`, whose bytes are the IV followed by the encrypted padded text |
| Client.BroadcastWithoutEntropy | main.go:281-285 | when no IV can be read, SEND ALL shows the encryption error and sends nothing |
| Client.BroadcastBadSecret | main.go:281-285 | a secret of the wrong size shows the key-size error and sends nothing |
| Client.PromptFor | main.go:334-340 | the prompt starts with the client id and ends in `> `, followed by ` (op) > ` for the operator and by ` > ` otherwise |
| Client.DirectPayload | main.go:299-308 | the payload is the key hex, then `|`, then the ciphertext hex: the first `|` sits right after the key hex |
| Client.SendReply | main.go:277-310 | a SEND with recipient and text never quits and either shows one error or writes one `SEND ...` line ending in a newline |
| Client.Dispatch | main.go:256-330 | a command with fields either shows lines or writes one line, never both and never neither; it quits exactly on EXIT |
| Client.DisplayText | main.go:193-233 | a notice is shown as it is; a message is shown naming its sender and ending with its text; only a notice can be shown empty |
| Client.DirectWire | main.go:290-309 | a direct SEND sends `SEND <id> <key hex>|<ciphertext hex>`; the key is as long as the text and the `|` sits right after the key hex |
| Client.DirectPayloadDecodes | message_handler.go:145-175 | the recipient's reader decodes the direct payload back to the typed text |
| Client.BroadcastPayloadDecodes | message_handler.go:125-141 | every reader that shares the secret decodes the SEND ALL payload back to the typed text |
| Client.DirectMessageDelivered | main.go:290-309 | a direct message, forwarded by the server as `MESSAGE from <sender>: <payload>`, reaches the recipient's interface as the typed text |
| Client.BroadcastDelivered | main.go:279-289 | a broadcast, forwarded as `BROADCAST from <sender>: <hex>`, reaches every client sharing the secret as the typed text |
| Client.ChatClient.constructor | main.go:178-191 | after connecting, the history is empty, the cursor is -1, the prompt reflects the operator flag, and the two connection messages are shown |
| Client.ChatClient.UpdatePrompt | main.go:334-340 | the prompt is `<id> (op) > ` for the operator and `<id> > ` otherwise |
| Client.ChatClient.AppendMessage | main.go:343-348 | the message goes at the end of the list, and the viewport shows all messages joined by newlines |
| Client.ChatClient.KeyUp | main.go:134-144 | the cursor moves as `HistoryUp` says, and the input shows the entry under it; an empty history changes nothing |
| Client.ChatClient.KeyDown | main.go:145-156 | the cursor moves as `HistoryDown` says; the input shows the entry, or is cleared when leaving the history |
| Client.ChatClient.TypeKey | main.go:169-175 | the widget's new value becomes the input; a key that types characters resets the cursor to -1 |
| Client.ChatClient.Enter | main.go:129-133 | the trimmed input is handled and the field cleared; blank input changes nothing else; otherwise the input is appended to the history and the effects are those of `Dispatch` |
| Client.ChatClient.HandleInput | main.go:256-331 | a command with fields is appended to the history; the cursor is reset; the shown lines, sent lines and quit flag are those of `Dispatch` |
| Client.ChatClient.RunCommand | main.go:270-330 | the command switch shows, sends and quits exactly as `Dispatch` says, appending to what was already shown and sent |
| Client.ChatClient.ShowHelp | main.go:312-318 | HELP appends the four help lines, in order |
| Client.ChatClient.Send | main.go:277-310 | the SEND branch shows and sends exactly what `SendReply` says, calling `EncryptXOR` for direct messages |
| Client.ChatClient.Deliver | main.go:193-233 | each reader event appends its display text; only `operatorMsg` sets the operator flag; kick, ban and disconnect quit |

## Left out

- The terminal user interface is not modelled:
  - `Init`, `View`, the viewport's scrolling keys (PgUp/PgDown/Home/End) and its
    geometry;
  - Ctrl-C/Esc;
  - the blinking cursor;
  - the text-input widget itself.

  The widget's new value after a key is a parameter of `TypeKey`. Its 256-character limit
  is not modelled.
- `main`'s argument checks and the Tailscale interface check are not modelled: they are
  process start-up and I/O.
- `connectToServer` and `setupClient` are not modelled: the TCP dial and the
  registration handshake. The model starts from the `connectedMsg` case with the shared
  secret and the operator flag given. Consequently the `errMsg` case of `Update` is not
  modelled either.
- Closing the connection on EXIT, kick, ban and disconnect is not modelled; it shows only
  as the `quit` flag.
- The goroutine, the channel and `bufio` are not modelled: reads are a sequence of
  `Read` values and the channel is a sequence of emitted events. Concurrency between the
  reader and the interface is not modelled.
- The AES block function (FIPS 197) is not modelled. It is the parameter `BlockCipher`,
  and the round trip assumes it is a permutation.
- `crypto/rand` is not modelled. Its bytes are the parameter `entropy` (or the `iv`
  argument), and its failure is `None`.
- Handler.HexErrorText: the wording of `encoding/hex` errors is approximated. The text of
  an invalid byte is the character itself rather than Go's quoted form.
- Handler.CipherErrorText: the texts of a `crypto/rand` failure and of a runtime panic
  are placeholders. The panic text is never shown, because a panic ends the reader.
- Cipher.DecryptAES: Go decrypts in place, overwriting the caller's buffer; the model
  returns a new sequence. The three runtime panics are reported as `RuntimePanic`, not
  as a process crash.
- Handler.Next: after a runtime panic inside `decryptAES` the model stops the reader
  without an event. The Go process would crash instead.
- Strings.Fields and Strings.TrimSpace treat only ASCII white space as space. Unicode
  white space is not modelled.
- Bytes.ToBytes keeps each character modulo 256. The round trips are stated for strings
  whose characters are bytes; multi-byte UTF-8 encoding is not modelled.

