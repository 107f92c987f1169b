# RFID door-access firmware, modelled in Dafny

The system is an RFID access point made of ESP32 boards.

- **Card reader** (`PIT/src/main.cpp`). It reads a card's UID and encodes it as an upper-case hexadecimal tag. It POSTs `{"rfid_number":"<tag>"}` to the backend and pulls `rfid_number`, `status` and `registered` out of the reply by searching for marker texts. Reads are debounced on one global timestamp of 2000 ms, and the Wi-Fi link is watched and re-established.
- **Card scanner** (`PIT/src/rfid_scanner.cpp`). It POSTs the tag the same way. It then publishes, on the MQTT topic `RFID_LOGIN`, the one character after `"status":` in the reply, passed through `toInt` and back to text.
- **Relay listener** (`PIT/src/relay_listener.cpp`). It subscribes to that topic and drives a relay with its indicator LED. A payload that reads as the number 1 switches them on, and everything else switches them off. A `'0'` or `'1'` typed on the serial port overrides the state. It keeps both the Wi-Fi and the broker sessions up, with bounded retry loops.

The modules follow the program:

| module | file | what it holds |
|---|---|---|
| `ArduinoString` | arduino_string.dfy | the Arduino `String` operations the sketches use (`indexOf`, `substring`, `trim`, `toInt`, `startsWith`, `toUpperCase`, `String(int)`, `String(b, HEX)`), with facts about them |
| `Platform` | platform.dfy | bytes, the wrapping 32-bit `millis()` clock, link notices, and the bounded Wi-Fi wait the listener and the reader share |
| `Protocol` | protocol.dfy | the topic, the request body, the reply markers, and what the network reports during one exchange |
| `UidTag` | uid_tag.dfy | the UID-to-tag encoding loop the reader and the scanner share, and the tag's inverse |
| `RelayListener` | relay_listener.dfy | relay_listener.cpp's globals as the class `Listener`; payload classification, the callback, the reconnect loops, and `loop()` |
| `ReaderMain` | reader_main.dfy | main.cpp's globals as the class `Reader`; reply parsing, `sendRFIDData`, `readRFID`, and `loop()` |
| `RfidScanner` | rfid_scanner.dfy | rfid_scanner.cpp's globals as the class `Scanner`; the status payload, `sendRFID`, and `loop()` |

Globals that the sketches update in place are fields of a class. Parsing is made of pure functions.

Driver results are inputs to the model:

- `WiFi.status()` polls, `mqttClient.connected()`/`connect()`/`subscribe()`, `http.begin`, `http.POST` and `http.getString()`;
- the card UID;
- the `millis()` values.

A poll sequence is a function from the poll number to a result. What is printed to `Serial` appears only where it carries state: the link notices. Everything a tick sends is recorded in a `transfers` sequence, so a contract can say exactly what was POSTed and what was published.

The `String` operations follow the Arduino core for ESP32:

- `indexOf` finds the first occurrence at or after `from`, or returns -1.
- `substring` takes unsigned bounds. It swaps them when they are out of order and clamps them to the length, so `substring(start, -1)` runs to the end.
- `trim` strips C `isspace` characters.
- `toInt` is `atol`: optional blanks, an optional sign, then decimal digits, saturating at the 32-bit `long` range, and 0 when no number leads.
- `String(b, HEX)` is lower-case `utoa`, and `toUpperCase` is `toupper`.

Replies are `Text`, meaning shorter than 2^31 characters, so `int` positions cannot overflow.

### Behaviour worth knowing (the model follows the code)

- **Debounce.** The debounce is one global timestamp, not one per UID. Any card is dropped within 2000 ms of the last forwarded read. The reader forwards a read once 2000 ms or more have passed (`!(elapsed < 2000)`); the scanner needs more than 2000 ms. The two tests disagree exactly at 2000 ms (`RfidScanner.DebounceWindowsDiffer`).
- **Relay payloads.** The listener turns the relay on for any payload whose `toInt` is 1. This includes `"01"`, `" 1"` and `"1abc"`. Every other payload turns it off, never leaving it alone: `""`, `"true"` and `"2"` all switch it off. Of the three tests in the callback, only `toInt(...) == 1` matters (`RelayListener.OnExactlyWhenToIntIsOne`).
- **Status -1.** The reader's `status` is -1 when the reply has no status field. It is also -1 when the field holds `-1` (`ReaderMain.StatusMinusOneWithMarker`). A field whose text does not start with a number reads as 0.
- **Reconnects.** The listener's and the reader's reconnect loops are bounded: at most 30 Wi-Fi waits of 500 ms, and at most three broker attempts with 3000 ms between them.

## Model

| member | source | states |
|---|---|---|
| ArduinoString.SubstringToNext | PIT/src/main.cpp:178-180 | `substring(from, indexOf(c, from))` is the text from `from` up to the next `c`, or up to the end when no `c` follows |
| ArduinoString.ToIntOfIntText | PIT/src/rfid_scanner.cpp:137-140 | `toInt` reads back every `long` that `String(int)` writes: the decimal text round-trips |
| ArduinoString.ToIntOfChar | PIT/src/relay_listener.cpp:184 | a one-character payload reads as its digit value, or 0 when it is not a digit |
| ArduinoString.ToIntOfTrimmedOne | PIT/src/relay_listener.cpp:198-200 | a payload that trims to "1" reads as 1 under `toInt` |
| ArduinoString.ToIntOfDigitPrefix | PIT/src/main.cpp:190 | `toInt` of text that opens with digits is the value of those digits, whatever follows them |
| Platform.Elapsed | PIT/src/main.cpp:126 | `millis() - lastReadTime` in `unsigned long`: the plain difference when the clock has not wrapped, the difference plus 2^32 when it has |
| Platform.ElapsedAcrossWrap | PIT/src/rfid_scanner.cpp:62 | across a wrap of the 32-bit clock the elapsed time is still the time that passed, so the debounce keeps working after 49.7 days |
| Platform.WiFiWaits | PIT/src/relay_listener.cpp:113-118 | the loop waits at most 30 times, every poll before the last wait reports down, and a loop that stops early stops at a poll that reports up |
| Platform.WiFiOutcomeBounds | PIT/src/main.cpp:86-100 | the flag set after the wait loop is up when the link reports up on every poll, and down when it never does |
| Platform.PollWiFi | PIT/src/main.cpp:79-100 | the wait loop makes at most 30 waits of 500 ms (15 s), stops at the first poll that reports up, and the flag is the status read after the loop |
| Protocol.RequestBody | PIT/src/main.cpp:168 | the POST body is the opening brace and the `rfid_number` marker, then the tag unchanged, then the closing quote and brace: 18 characters around the tag |
| Protocol.StatusFieldFirst | PIT/src/rfid_scanner.cpp:135 | in a reply that opens with the status field, the marker search finds it right after the brace |
| UidTag.Tag | PIT/src/main.cpp:132-137 | the tag has two characters per UID byte, all upper-case hexadecimal digits |
| UidTag.EncodeUid | PIT/src/rfid_scanner.cpp:63-68 | the zero-pad, `String(b, HEX)` and upper-case loop yields, for each byte in order, its two upper-case hex digits |
| UidTag.UpperLowerTag | PIT/src/main.cpp:132-137 | upper-casing the concatenated padded lower-case pieces gives the two-digit-per-byte tag |
| UidTag.TagAt | PIT/src/main.cpp:133-136 | byte k of the UID is written, high digit first, at positions 2k and 2k+1 of the tag |
| UidTag.UntagTag | PIT/src/main.cpp:132-137 | the tag can be read back into the UID: decoding inverts encoding |
| UidTag.TagInjective | PIT/src/rfid_scanner.cpp:63-68 | two different cards never produce the same tag |
| RelayListener.Classify | PIT/src/relay_listener.cpp:184-211 | the callback's three tests switch on exactly when `toInt(payload)` is 1, and off otherwise |
| RelayListener.OneReadsAsOne | PIT/src/relay_listener.cpp:198-200 | a payload that trims to "1", or is the single byte '1', also reads as 1 with `toInt`, so those two tests add nothing |
| RelayListener.Decide | PIT/src/relay_listener.cpp:180 | a message touches the outputs exactly when its topic is `RFID_LOGIN` |
| RelayListener.SerialCommand | PIT/src/relay_listener.cpp:96-103 | only '0' and '1' from the serial port act, '1' switching on and '0' off |
| RelayListener.OnExactlyWhenToIntIsOne | PIT/src/relay_listener.cpp:184-211 | on the control topic the relay goes on exactly when `toInt(payload)` is 1 and off for every other payload; it is never left unchanged |
| RelayListener.LeadingZeroSwitchesOn | PIT/src/relay_listener.cpp:200-202 | the payload "01" switches on |
| RelayListener.TrailingTextSwitchesOn | PIT/src/relay_listener.cpp:200-202 | the payload "1abc" switches on |
| RelayListener.EmptyPayloadSwitchesOff | PIT/src/relay_listener.cpp:203-205 | the empty payload switches off |
| RelayListener.NonNumberSwitchesOff | PIT/src/relay_listener.cpp:203-211 | any payload that does not start with a number switches off |
| RelayListener.WordSwitchesOff | PIT/src/relay_listener.cpp:203-205 | the payload "true" switches off |
| RelayListener.OtherNumberSwitchesOff | PIT/src/relay_listener.cpp:206-211 | the payload "2" falls to the unknown-status default and switches off |
| RelayListener.BrokerFailures | PIT/src/relay_listener.cpp:133-158 | at most three failed connect attempts, all before the one that ends the loop |
| RelayListener.AcceptedMeans | PIT/src/relay_listener.cpp:133-149 | a connect call succeeds exactly when some attempt among the first three is accepted, the link being down at every loop test up to it and every earlier connect having failed |
| RelayListener.JoinsMeans | PIT/src/relay_listener.cpp:140-145 | the broker flag goes up exactly when such an attempt is accepted and the subscription succeeds |
| RelayListener.BrokerWaits | PIT/src/relay_listener.cpp:153-157 | the loop waits after each failed attempt except the third, so it waits at most twice |
| RelayListener.Listener.constructor | PIT/src/relay_listener.cpp:42-67 | after `setup()` the relay and LED are off, Wi-Fi is up as the wait loop found it, and the broker flag is up only if Wi-Fi came up and connect and subscribe both succeeded |
| RelayListener.Listener.RelayOn | PIT/src/relay_listener.cpp:30-34 | relay and LED both HIGH |
| RelayListener.Listener.RelayOff | PIT/src/relay_listener.cpp:36-40 | relay and LED both LOW |
| RelayListener.Listener.ConnectWiFi | PIT/src/relay_listener.cpp:106-129 | at most 15 s of waiting, and the flag is the status after the loop |
| RelayListener.Listener.ConnectMQTT | PIT/src/relay_listener.cpp:131-162 | at most three connect calls and two 3000 ms waits; the flag is raised only when a connect and its subscription both succeed, and is never lowered here |
| RelayListener.Listener.MqttCallback | PIT/src/relay_listener.cpp:164-216 | another topic leaves both outputs alone; the control topic sets them to the classified command; the LED always mirrors the relay |
| RelayListener.Listener.LinkDown | PIT/src/relay_listener.cpp:71-78 | with Wi-Fi down, the loss is reported once, both flags are cleared before the reconnect, the outputs are untouched, and the tick waits only for the association, at most 15 s |
| RelayListener.Listener.KeepLinks | PIT/src/relay_listener.cpp:79-91 | with Wi-Fi up, a reconnection is noted once, a lost broker session is reported and re-established, and the tick waits 3000 ms per retry, at most 6 s |
| RelayListener.Listener.Dispatch | PIT/src/relay_listener.cpp:93-103 | the delivered message acts first, then the serial override, each only when it is a command |
| RelayListener.Listener.Loop | PIT/src/relay_listener.cpp:69-104 | one tick: link handling as above, commands only while Wi-Fi is up, the broker flag never up without Wi-Fi, the LED always mirroring the relay, and the tick blocking for the Wi-Fi waits or the broker waits, at most 15 s |
| ReaderMain.RfidNumberOf | PIT/src/main.cpp:175-181 | `rfid_number` is "" without the marker, and otherwise the text after the marker up to the next '"' (or the end) |
| ReaderMain.StatusText | PIT/src/main.cpp:186-190 | the status text runs from after the marker to the first ',' or, when there is none, to the first '}', or to the end |
| ReaderMain.StatusOf | PIT/src/main.cpp:184-191 | `status` is -1 without the marker, otherwise `toInt` of the delimited text, and 0 when that text does not start with a number |
| ReaderMain.StatusMinusOneWithMarker | PIT/src/main.cpp:184-191 | the reply `{"status":-1}` also reads as -1, so -1 does not mean the field was absent |
| ReaderMain.RegisteredWindow | PIT/src/main.cpp:197-200 | the trimmed four-character window starts with "true" exactly when those four characters are "true" |
| ReaderMain.RegisteredOf | PIT/src/main.cpp:194-201 | `registered` holds exactly when the marker is present and is followed immediately by "true" |
| ReaderMain.ParseResponse | PIT/src/main.cpp:174-201 | a field missing from the reply keeps its default: "" for `rfid_number`, -1 for `status`, false for `registered` |
| ReaderMain.SendRFIDData | PIT/src/main.cpp:150-219 | nothing is sent when Wi-Fi is down or `http.begin` fails; otherwise the body wraps the tag, and the reply is parsed exactly when the code is positive |
| ReaderMain.MarkerInBody | PIT/src/main.cpp:168 | the request body holds the `rfid_number` marker right after its opening brace |
| ReaderMain.RfidNumberRoundTrip | PIT/src/main.cpp:168-181 | reading `rfid_number` out of a body the reader builds gives the tag back, for any tag without '"' |
| ReaderMain.TagRoundTrip | PIT/src/main.cpp:132-181 | every card's tag survives the trip through the request body |
| ReaderMain.ReadAllowed | PIT/src/main.cpp:126 | a read goes through once 2000 ms or more have passed on the 32-bit clock, counting across a wrap |
| ReaderMain.Reader.constructor | PIT/src/main.cpp:29-71 | after `setup()` there is no tag, no read time, nothing sent, and the flag is the outcome of the Wi-Fi wait |
| ReaderMain.Reader.ConnectToWiFi | PIT/src/main.cpp:73-101 | at most 15 s of waiting, and the flag is the status after the loop |
| ReaderMain.Reader.ReadRFID | PIT/src/main.cpp:125-148 | inside the 2000 ms window nothing changes; otherwise the tag is encoded and sent, and the timestamp is taken after sending |
| ReaderMain.Reader.Online | PIT/src/main.cpp:104-112 | with Wi-Fi up, a reconnection is noted once, and a new card goes through the debounce |
| ReaderMain.Reader.Offline | PIT/src/main.cpp:113-120 | with Wi-Fi down, no card is read, the loss is reported once, and the tick waits 2000 ms plus the reconnect waits |
| ReaderMain.Reader.Loop | PIT/src/main.cpp:103-123 | cards are read only while Wi-Fi is up, link changes are reported once per edge, and each tick ends with a 50 ms pause |
| RfidScanner.ReadAllowed | PIT/src/rfid_scanner.cpp:62 | a read goes through once more than 2000 ms have passed on the 32-bit clock, counting across a wrap |
| RfidScanner.StatusPayload | PIT/src/rfid_scanner.cpp:135-141 | nothing is published without the status marker; otherwise the payload is the digit right after the marker, or "0" when no digit is there |
| RfidScanner.StatusDigit | PIT/src/rfid_scanner.cpp:137-140 | `String(toInt(substring(at, at + 1)))` is that character when it is a digit, and "0" otherwise |
| RfidScanner.SendRFID | PIT/src/rfid_scanner.cpp:114-152 | nothing is sent while Wi-Fi is down; otherwise the body wraps the tag, and a payload is published exactly when the code is positive and the reply holds the marker |
| RfidScanner.RelayFollowsStatusDigit | PIT/src/rfid_scanner.cpp:135-141 | the relay listener switches on for the scanner's message exactly when the character after `"status":` is '1' |
| RfidScanner.StatusReplyDrivesRelay | PIT/src/rfid_scanner.cpp:131-141 | a reply opening with `"status":` and a digit publishes that digit, and the listener switches on for '1' only |
| RfidScanner.DebounceWindowsDiffer | PIT/src/rfid_scanner.cpp:61-62 | the scanner's window (more than 2000 ms) and the reader's (at least 2000 ms) differ only at exactly 2000 ms, and the scanner's is the stricter |
| RfidScanner.Scanner.constructor | PIT/src/rfid_scanner.cpp:28-29 | no read yet, the prompt pending, nothing sent |
| RfidScanner.Scanner.Loop | PIT/src/rfid_scanner.cpp:48-82 | the prompt is printed once per wait; a new card outside the window is encoded and sent, the timestamp is taken after sending, and the prompt is re-armed; each tick ends with a 100 ms pause |
| RfidScanner.ExampleTag | PIT/src/rfid_scanner.cpp:63-68 | the UID 04 A3 F2 is sent as "04A3F2", zero padding included |

## Left out

- Hardware drivers (MFRC522 reader, SPI, GPIO, `delay`) are left out, as are the text printed to `Serial`. Driver results are inputs; pin levels are fields; printed link notices are kept as a sequence. The delays of each sketch's `loop()` are returned as durations; those of `setup()` are not.
- The HTTP and MQTT client libraries are left out: their results are inputs, and what is POSTed or published is recorded as data. Headers, the 10 s timeout and `http.end()` are not modelled.
- The Wi-Fi network scan and the `WiFiMulti` access-point list in the reader's `setup()` (main.cpp:38-65) are left out. They only print, and `wifiMulti.run()` is an input to `loop()`.
- The scanner's `connectWiFi` and `connectMQTT` (rfid_scanner.cpp:84-112) retry without bound and only print, so they are left out. So are the reconnect at the top of the scanner's `loop()`, `mqttClient.loop()` there, and the reconnect `sendRFID` makes when Wi-Fi is down (rfid_scanner.cpp:117). The scanner's tick starts once the broker session is back.
- RelayListener.Listener.constructor: the waits of the listener's `setup()` (its first 1000 ms pause, the Wi-Fi waits and the broker waits) are not reported, because a constructor returns no value; `ConnectWiFi` and `ConnectMQTT`, which it calls, do report theirs.
- ReaderMain.Reader.constructor: likewise, the Wi-Fi waits of the reader's `setup()` are not reported.
- RfidScanner.Scanner.Loop: the result of `mqttClient.publish` and the scanner's `rfid.PICC_HaltA()` are not modelled.
- RfidScanner.SendRFID: `http.begin(serverName)`'s result is ignored by the source and is not an input here.
- The broker's client id, built from the MAC address (relay_listener.cpp:136-138), is not modelled; the connect result is an input.
- Payload bytes are modelled as characters without NUL. A NUL byte would cut the Arduino `String` short and is outside the model.
- The Arduino `String` operations are modelled from their documented behaviour on the ESP32 core, not from the core's own source, which is not part of this model. Allocation failure inside `String` is left out.
- The PHP backend, its database migrations and the web frontend are not part of this model. The reply is any text, so every parse property holds whatever the backend sends.
