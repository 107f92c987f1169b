/**
 * The card scanner that both POSTs the card's tag to the backend and
 * publishes the status digit of the reply on the MQTT topic the relay
 * listener subscribes to.
 */
module RfidScanner {
  import opened ArduinoString
  import opened Platform
  import opened Protocol
  import opened UidTag
  import RelayListener
  import ReaderMain

  /** Minimum time between two forwarded reads, in milliseconds. */
  const ReadDelay: nat := 2000

  /** The debounce test of the scanner's `loop()`: strictly more than 2000 ms must have passed. */
  function ReadAllowed(now: Millis, last: Millis): (r: bool)
    ensures last <= now ==> (r <==> now - last > 2000)
    ensures now < last ==> (r <==> now + 0x1_0000_0000 - last > 2000)
  {
    Elapsed(now, last) > ReadDelay
  }

  /**
   * The payload published for a reply: nothing without the status marker;
   * otherwise `String(toInt(...))` of the one character after the marker.
   */
  function StatusPayload(resp: Text): (p: Option<string>)
    ensures var i := IndexOf(resp, StatusMarker, 0);
      && (p.None? <==> i == -1)
      && (p.Some? ==>
            var at := i + |StatusMarker|;
            && p.value == (if at < |resp| && IsDigit(resp[at]) then [resp[at]] else "0")
            && |p.value| == 1 && IsDigit(p.value[0]))
  {
    var idx := IndexOf(resp, StatusMarker, 0);
    if idx == -1 then None
    else
      StatusDigit(resp, idx + 9);
      var status := ToInt(Substring(resp, idx + 9, idx + 10));
      Some(IntText(status))
  }

  /** The one-character status window turned into text again is the digit itself, or "0". */
  lemma StatusDigit(resp: string, at: nat)
    requires at < 0x8000_0000
    ensures IntText(ToInt(Substring(resp, at, at + 1)))
      == if at < |resp| && IsDigit(resp[at]) then [resp[at]] else "0"
  {
    if at < |resp| {
      SubstringClamp(resp, at, at + 1);
      assert Substring(resp, at, at + 1) == [resp[at]];
      ToIntOfChar(resp[at]);
      IntTextOfDigit(DigitValue(resp[at]));
    } else {
      assert Substring(resp, at, at + 1) == "";
      assert !LeadsWithNumber("");
      IntTextOfDigit(0);
    }
  }

  /** What one `sendRFID` call did. */
  datatype ScanTransfer =
    | Offline                                        // Wi-Fi down: nothing sent
    | Posted(body: string, published: Option<string>) // POSTed; the payload published, if any

  /**
   * `sendRFID(tag)`: nothing is sent while Wi-Fi is down; otherwise the tag is
   * POSTed, and a positive response code with a status marker in the reply
   * publishes the status payload.
   */
  function SendRFID(tag: string, ex: Exchange): (t: ScanTransfer)
    ensures t.Offline? <==> !ex.linkUp
    ensures t.Posted? ==> t.body == RequestBody(tag)
    ensures t.Posted? ==>
      (t.published.Some? <==> ex.code > 0 && IndexOf(ex.response, StatusMarker, 0) != -1)
    ensures t.Posted? && t.published.Some? ==> StatusPayload(ex.response) == t.published
  {
    if !ex.linkUp then Offline
    else
      var json := RequestBody(tag);
      Posted(json, if ex.code > 0 then StatusPayload(ex.response) else None)
  }

  /**
   * The relay listener switches the relay on for the scanner's message exactly
   * when the character right after `"status":` is '1'; any other reply with
   * the marker switches it off.
   */
  lemma RelayFollowsStatusDigit(resp: Text)
    requires IndexOf(resp, StatusMarker, 0) != -1
    ensures var at := IndexOf(resp, StatusMarker, 0) + |StatusMarker|;
      RelayListener.Decide(Topic, StatusPayload(resp).value)
        == Some(if at < |resp| && resp[at] == '1' then RelayListener.On else RelayListener.Off)
  {
    var at := IndexOf(resp, StatusMarker, 0) + |StatusMarker|;
    var payload := StatusPayload(resp).value;
    RelayListener.OnExactlyWhenToIntIsOne(payload);
    if at < |resp| && IsDigit(resp[at]) {
      assert payload == [resp[at]];
      ToIntOfChar(resp[at]);
    } else {
      assert payload == ['0'];
      ToIntOfChar('0');
    }
  }

  /**
   * The reader lets a read through at exactly 2000 ms and the scanner does
   * not; for every other elapsed time the two tests agree.
   */
  lemma DebounceWindowsDiffer(now: Millis, last: Millis)
    ensures ReaderMain.ReadAllowed(now, last) != ReadAllowed(now, last) <==> Elapsed(now, last) == 2000
    ensures ReadAllowed(now, last) ==> ReaderMain.ReadAllowed(now, last)
  {
  }

  /** What the scanner's `loop()` sees during one call, once the broker session is up. */
  datatype ScanTick = ScanTick(
    card: Option<Uid>,   // the UID of a new card, when one was detected and read
    now: Millis,         // `millis()` at the debounce test
    doneAt: Millis,      // `millis()` after the send
    exchange: Exchange)  // what the network does during `sendRFID`

  class Scanner {
    var lastRead: Millis
    var waitingForCard: bool
    var prompts: nat
    var transfers: seq<ScanTransfer>

    /** The globals after `setup()`: no read yet, the prompt pending. */
    constructor ()
      ensures lastRead == 0 && waitingForCard && prompts == 0 && transfers == []
    {
      lastRead := 0;
      waitingForCard := true;
      prompts := 0;
      transfers := [];
    }

    /**
     * `loop()`: print the prompt once while waiting; a new card outside the
     * window is encoded, sent, time-stamped after sending, and re-arms the
     * prompt. Every tick ends with a 100 ms pause.
     */
    method Loop(t: ScanTick) returns (delayMs: nat)
      modifies this
      ensures prompts == old(prompts) + (if old(waitingForCard) then 1 else 0)
      ensures var forwarded := t.card.Some? && ReadAllowed(t.now, old(lastRead));
        && waitingForCard == forwarded
        && (forwarded ==>
              && lastRead == t.doneAt
              && transfers == old(transfers) + [SendRFID(Tag(t.card.value), t.exchange)])
        && (!forwarded ==> lastRead == old(lastRead) && transfers == old(transfers))
      ensures delayMs == 100
    {
      if waitingForCard {
        prompts := prompts + 1;
        waitingForCard := false;
      }
      if t.card.Some? {
        if Elapsed(t.now, lastRead) > ReadDelay {
          var tag := EncodeUid(t.card.value);
          transfers := transfers + [SendRFID(tag, t.exchange)];
          lastRead := t.doneAt;
          waitingForCard := true;
        }
      }
      delayMs := 100;
    }
  }

  /** A card with UID 04 A3 F2 is sent as "04A3F2". */
  lemma ExampleTag()
    ensures Tag([0x04, 0xA3, 0xF2]) == "04A3F2"
  {
  }

  /**
   * A reply that opens with `"status":` and a digit publishes that digit, and
   * the relay listener switches the relay on for '1' and off for any other digit.
   */
  lemma StatusReplyDrivesRelay(d: char, rest: string)
    requires IsDigit(d) && |rest| < 0x7000_0000
    ensures StatusPayload("{" + StatusMarker + [d] + rest) == Some([d])
    ensures RelayListener.Decide(Topic, [d]) == Some(if d == '1' then RelayListener.On else RelayListener.Off)
  {
    var resp: Text := "{" + StatusMarker + [d] + rest;
    StatusFieldFirst(d, rest);
    assert resp[10] == d;
    RelayFollowsStatusDigit(resp);
  }
}
