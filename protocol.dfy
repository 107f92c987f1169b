/**
 * What the reader, the scanner and the relay listener agree on: the MQTT topic,
 * the HTTP request body, and the marker texts the firmware looks for in the
 * backend's response.
 */
module Protocol {
  import opened ArduinoString

  /** The topic the scanner publishes on and the relay listener subscribes to. */
  const Topic: string := "RFID_LOGIN"

  const RfidMarker: string := "\"rfid_number\":\""
  const StatusMarker: string := "\"status\":"
  const RegisteredMarker: string := "\"registered\":"

  /** The POST body, built by string concatenation around the tag. */
  function RequestBody(tag: string): (b: string)
    ensures |b| == |tag| + 18
    ensures b[..16] == "{" + RfidMarker
    ensures b[16..16 + |tag|] == tag
    ensures b[16 + |tag|..] == "\"}"
  {
    "{\"rfid_number\":\"" + tag + "\"}"
  }

  /**
   * What the network reports during one `sendRFIDData`/`sendRFID` call:
   * `WiFi.status()` at entry, the result of `http.begin`, the code returned by
   * `http.POST`, and the body returned by `http.getString()`.
   */
  datatype Exchange = Exchange(linkUp: bool, beginOk: bool, code: int, response: Text)

  /** In a reply that opens with the status field, the marker is found right after the brace. */
  lemma StatusFieldFirst(c: char, rest: string)
    ensures IndexOf("{" + StatusMarker + [c] + rest, StatusMarker, 0) == 1
  {
    var resp := "{" + StatusMarker + [c] + rest;
    assert OccursAt(resp, StatusMarker, 1) by {
      assert resp[1..1 + |StatusMarker|] == StatusMarker;
    }
    assert !OccursAt(resp, StatusMarker, 0) by {
      assert resp[0] == '{';
    }
  }
}
