/**
 * The card reader that reports to the backend over HTTP: it debounces card
 * reads on one global timestamp, encodes the UID, POSTs it, and pulls
 * `rfid_number`, `status` and `registered` out of the reply by searching for
 * marker texts.
 */
module ReaderMain {
  import opened ArduinoString
  import opened Platform
  import opened Protocol
  import opened UidTag

  /** Minimum time between two forwarded reads, in milliseconds. */
  const ReadInterval: nat := 2000

  /** The fields read from the backend's reply, with their defaults "", -1 and false. */
  datatype BackendResult = BackendResult(rfidNumber: string, status: int, registered: bool)

  /** What one `sendRFIDData` call did: nothing, or a POST of `body` and, if a reply came, its fields. */
  datatype Transfer = NotSent | Sent(body: string, result: Option<BackendResult>)

  /**
   * `rfid_number`: "" without the marker; otherwise the text right after the
   * marker up to the next '"', or up to the end of the reply when none follows.
   */
  function RfidNumberOf(resp: Text): (r: string)
    ensures var i := IndexOf(resp, RfidMarker, 0);
      && (i == -1 ==> r == "")
      && (i != -1 ==> UpTo(resp, i + |RfidMarker|, r, '"'))
  {
    var rfidIndex := IndexOf(resp, RfidMarker, 0);
    if rfidIndex == -1 then ""
    else
      var start := rfidIndex + 15;
      SubstringToNext(resp, start, '"');
      var end := IndexOf(resp, "\"", start);
      Substring(resp, start, end)
  }

  /**
   * The text `status` is read from: from `start` up to the first ',' after it,
   * or, when there is none, up to the first '}', or else to the end.
   */
  function StatusText(resp: Text, start: nat): (r: string)
    requires start <= |resp|
    ensures || (UpTo(resp, start, r, ',') && start + |r| < |resp|)
            || (',' !in resp[start..] && UpTo(resp, start, r, '}'))
  {
    var comma := IndexOf(resp, ",", start);
    if comma != -1 then
      SubstringToNext(resp, start, ',');
      Substring(resp, start, comma)
    else
      NoCharFrom(resp, ',', start);
      SubstringToNext(resp, start, '}');
      Substring(resp, start, IndexOf(resp, "}", start))
  }

  /**
   * `status`: -1 without the marker; otherwise `toInt` of the delimited text,
   * which is 0 when that text does not start with a number.
   */
  function StatusOf(resp: Text): (r: int)
    ensures var i := IndexOf(resp, StatusMarker, 0);
      && (i == -1 ==> r == -1)
      && (i != -1 ==> r == ToInt(StatusText(resp, i + |StatusMarker|)))
      && (i != -1 && !LeadsWithNumber(StatusText(resp, i + |StatusMarker|)) ==> r == 0)
  {
    var statusIndex := IndexOf(resp, StatusMarker, 0);
    if statusIndex == -1 then -1
    else ToInt(StatusText(resp, statusIndex + 9))
  }

  // As with the payload examples of the relay listener, the reply below is a
  // parameter pinned by `requires` so that the literal is not unfolded eagerly.

  /** The status text of `{"status":-1}` is "-1". */
  lemma MinusOneText(resp: Text)
    requires resp == "{" + StatusMarker + "-1}"
    ensures StatusText(resp, 10) == "-1"
  {
    var r := StatusText(resp, 10);
    assert |resp| == 13 && resp[10..] == "-1}";
    assert ',' !in resp[10..];
    assert resp[10] == '-' && resp[11] == '1' && resp[12] == '}';
    assert |r| == 2;
    assert r == resp[10..12];
  }

  lemma ToIntOfMinusOne(s: string)
    requires s == "-1"
    ensures ToInt(s) == -1
  {
    ToIntOfIntText(-1);
    IntTextOfDigit(1);
    assert IntText(-1) == "-" + IntText(1);
  }

  /**
   * A present marker does not rule out -1: a reply `{"status":-1}` reads as
   * -1 just like a reply without the field.
   */
  lemma StatusMinusOneWithMarker(resp: Text)
    requires resp == "{" + StatusMarker + "-1}"
    ensures IndexOf(resp, StatusMarker, 0) != -1
    ensures StatusOf(resp) == -1
  {
    StatusFieldFirst('-', "1}");
    MinusOneText(resp);
    ToIntOfMinusOne(StatusText(resp, 10));
  }

  /** The trimmed window of at most four characters starts with "true" only if it is "true". */
  lemma TrueWindow(w: string)
    requires |w| <= 4
    ensures StartsWith(Trim(w), "true") <==> w == "true"
  {
    if w == "true" {
      TrimNoSpace(w);
    }
  }

  /** The four characters from `start`, trimmed, start with "true" exactly when they are "true". */
  lemma RegisteredWindow(resp: Text, start: nat)
    requires start <= |resp|
    ensures StartsWith(Trim(Substring(resp, start, start + 4)), "true")
      <==> start + 4 <= |resp| && resp[start..start + 4] == "true"
  {
    SubstringClamp(resp, start, start + 4);
    TrueWindow(Substring(resp, start, start + 4));
  }

  /**
   * `registered`: true exactly when the marker is present and the four
   * characters right after it are "true" (so a space after the colon gives false).
   */
  function RegisteredOf(resp: Text): (r: bool)
    ensures r <==>
      var i := IndexOf(resp, RegisteredMarker, 0);
      i != -1 && i + |RegisteredMarker| + 4 <= |resp| && resp[i + |RegisteredMarker|..i + |RegisteredMarker| + 4] == "true"
  {
    var registeredIndex := IndexOf(resp, RegisteredMarker, 0);
    if registeredIndex == -1 then false
    else
      var start := registeredIndex + 13;
      RegisteredWindow(resp, start);
      StartsWith(Trim(Substring(resp, start, start + 4)), "true")
  }

  /** The three fields as `sendRFIDData` reads them. */
  function ParseResponse(resp: Text): (r: BackendResult)
    ensures IndexOf(resp, RfidMarker, 0) == -1 ==> r.rfidNumber == ""
    ensures IndexOf(resp, StatusMarker, 0) == -1 ==> r.status == -1
    ensures r.registered ==> IndexOf(resp, RegisteredMarker, 0) != -1
  {
    BackendResult(RfidNumberOf(resp), StatusOf(resp), RegisteredOf(resp))
  }

  /**
   * `sendRFIDData(tag)`: no request while Wi-Fi is down or when `http.begin`
   * fails; the body is the tag wrapped as `{"rfid_number":"<tag>"}`; the reply
   * is parsed only when the response code is positive.
   */
  function SendRFIDData(tag: string, ex: Exchange): (t: Transfer)
    ensures t.NotSent? <==> !ex.linkUp || !ex.beginOk
    ensures t.Sent? ==> t.body == RequestBody(tag) && (t.result.Some? <==> ex.code > 0)
    ensures t.Sent? && t.result.Some? ==> t.result.value == ParseResponse(ex.response)
  {
    if !ex.linkUp then NotSent
    else if !ex.beginOk then NotSent
    else
      var jsonPayload := RequestBody(tag);
      Sent(jsonPayload, if ex.code > 0 then Some(ParseResponse(ex.response)) else None)
  }

  /** The body's marker is the first one in it, right after the opening brace. */
  lemma MarkerInBody(tag: string)
    ensures IndexOf(RequestBody(tag), RfidMarker, 0) == 1
  {
    var body := RequestBody(tag);
    assert OccursAt(body, RfidMarker, 1) by {
      assert body[1..1 + |RfidMarker|] == RfidMarker;
    }
    assert !OccursAt(body, RfidMarker, 0) by {
      assert body[0] == '{';
    }
  }

  /**
   * Reading `rfid_number` back from the request body gives the tag, for any
   * tag without a '"'.
   */
  lemma RfidNumberRoundTrip(tag: string)
    requires '"' !in tag && |tag| < 0x7000_0000
    ensures RfidNumberOf(RequestBody(tag)) == tag
  {
    var body: Text := RequestBody(tag);
    MarkerInBody(tag);
    assert body[16..16 + |tag|] == tag;
    assert body[16 + |tag|] == '"';
    UpToUnique(body, 16, RfidNumberOf(body), tag, '"');
  }

  /** A tag read from a card survives the trip through the request body. */
  lemma TagRoundTrip(uid: Uid)
    requires |uid| < 0x1000_0000
    ensures RfidNumberOf(RequestBody(Tag(uid))) == Tag(uid)
  {
    var t := Tag(uid);
    assert '"' !in t by {
      forall k | 0 <= k < |t| ensures t[k] != '"' {
        assert IsUpperHex(t[k]);
      }
    }
    RfidNumberRoundTrip(t);
  }

  /** The debounce test of `readRFID`: a read is dropped while less than 2000 ms have passed. */
  function ReadAllowed(now: Millis, last: Millis): (r: bool)
    ensures last <= now ==> (r <==> now - last >= 2000)
    ensures now < last ==> (r <==> now + 0x1_0000_0000 - last >= 2000)
  {
    !(Elapsed(now, last) < ReadInterval)
  }

  /** What the main loop sees during one call of `loop()`. */
  datatype ReaderTick = ReaderTick(
    runUp: bool,             // `wifiMulti.run() == WL_CONNECTED`
    card: Option<Uid>,       // the UID of a new card, when one was detected and read
    now: Millis,             // `millis()` at the debounce test
    doneAt: Millis,          // `millis()` after the send
    exchange: Exchange,      // what the network does during `sendRFIDData`
    wifiPolls: nat -> bool)  // statuses read inside `connectToWiFi`, when it runs

  class Reader {
    var rfidData: string
    var lastReadTime: Millis
    var wifiConnected: bool
    var notices: seq<LinkNotice>
    var transfers: seq<Transfer>

    /** `setup()` without the reader and network-scan calls: globals, then Wi-Fi. */
    constructor (wifiPolls: nat -> bool)
      ensures rfidData == "" && lastReadTime == 0 && notices == [] && transfers == []
      ensures wifiConnected == WiFiOutcome(wifiPolls)
    {
      rfidData := "";
      lastReadTime := 0;
      wifiConnected := false;
      notices := [];
      transfers := [];
      new;
      var waited := ConnectToWiFi(wifiPolls);
    }

    /** `connectToWiFi()`: at most 30 waits of 500 ms; the flag is the last status read. */
    method ConnectToWiFi(polls: nat -> bool) returns (waitedMs: nat)
      modifies this`wifiConnected
      ensures wifiConnected == WiFiOutcome(polls)
      ensures waitedMs == WiFiPollMs * WiFiWaits(polls, 0) && waitedMs <= 15000
    {
      var waits, connected := PollWiFi(polls);
      waitedMs := WiFiPollMs * waits;
      wifiConnected := connected;
    }

    /**
     * `readRFID()`: inside the window the read is dropped whatever the card;
     * otherwise the tag is built, sent, and the timestamp taken after sending.
     */
    method ReadRFID(uid: Uid, now: Millis, doneAt: Millis, ex: Exchange)
      modifies this`rfidData, this`lastReadTime, this`transfers
      ensures ReadAllowed(now, old(lastReadTime)) ==>
        && rfidData == Tag(uid) && lastReadTime == doneAt
        && transfers == old(transfers) + [SendRFIDData(Tag(uid), ex)]
      ensures !ReadAllowed(now, old(lastReadTime)) ==>
        rfidData == old(rfidData) && lastReadTime == old(lastReadTime) && transfers == old(transfers)
    {
      if Elapsed(now, lastReadTime) < ReadInterval {
        return;
      }
      rfidData := EncodeUid(uid);
      transfers := transfers + [SendRFIDData(rfidData, ex)];
      lastReadTime := doneAt;
    }

    /**
     * `loop()` while `wifiMulti.run()` reports connected: note a reconnection,
     * then hand a new card to `readRFID`.
     */
    method Online(t: ReaderTick)
      modifies this
      ensures wifiConnected
      ensures notices == old(notices) + (if old(wifiConnected) then [] else [WiFiBack])
      ensures var forwarded := t.card.Some? && ReadAllowed(t.now, old(lastReadTime));
        && (forwarded ==>
              && rfidData == Tag(t.card.value) && lastReadTime == t.doneAt
              && transfers == old(transfers) + [SendRFIDData(Tag(t.card.value), t.exchange)])
        && (!forwarded ==>
              rfidData == old(rfidData) && lastReadTime == old(lastReadTime) && transfers == old(transfers))
    {
      if !wifiConnected {
        wifiConnected := true;
        notices := notices + [WiFiBack];
      }
      if t.card.Some? {
        ReadRFID(t.card.value, t.now, t.doneAt, t.exchange);
      }
    }

    /**
     * `loop()` while `wifiMulti.run()` does not report connected: report the
     * loss once, pause 2000 ms and run `connectToWiFi`.
     */
    method Offline(t: ReaderTick) returns (delayMs: nat)
      modifies this
      ensures rfidData == old(rfidData) && lastReadTime == old(lastReadTime) && transfers == old(transfers)
      ensures wifiConnected == WiFiOutcome(t.wifiPolls)
      ensures notices == old(notices) + (if old(wifiConnected) then [WiFiLost] else [])
      ensures delayMs == 2000 + WiFiPollMs * WiFiWaits(t.wifiPolls, 0)
    {
      if wifiConnected {
        wifiConnected := false;
        notices := notices + [WiFiLost];
      }
      var waited := ConnectToWiFi(t.wifiPolls);
      delayMs := 2000 + waited;
    }

    /**
     * `loop()`: cards are read only while `wifiMulti.run()` reports connected;
     * otherwise the loss is reported once, and after a 2000 ms pause the
     * Wi-Fi connect is retried. Every tick ends with a 50 ms pause.
     */
    method Loop(t: ReaderTick) returns (delayMs: nat)
      modifies this
      ensures t.runUp ==>
        && wifiConnected
        && notices == old(notices) + (if old(wifiConnected) then [] else [WiFiBack])
      ensures t.runUp ==>
        var forwarded := t.card.Some? && ReadAllowed(t.now, old(lastReadTime));
        && (forwarded ==>
              && rfidData == Tag(t.card.value) && lastReadTime == t.doneAt
              && transfers == old(transfers) + [SendRFIDData(Tag(t.card.value), t.exchange)])
        && (!forwarded ==>
              rfidData == old(rfidData) && lastReadTime == old(lastReadTime) && transfers == old(transfers))
      ensures !t.runUp ==>
        && rfidData == old(rfidData) && lastReadTime == old(lastReadTime) && transfers == old(transfers)
        && wifiConnected == WiFiOutcome(t.wifiPolls)
        && notices == old(notices) + (if old(wifiConnected) then [WiFiLost] else [])
      ensures delayMs == (if t.runUp then 50 else 2000 + WiFiPollMs * WiFiWaits(t.wifiPolls, 0) + 50)
    {
      if t.runUp {
        Online(t);
        delayMs := 0;
      } else {
        delayMs := Offline(t);
      }
      delayMs := delayMs + 50;
    }
  }
}
