/**
 * What the three sketches share about the device they run on: bytes, the
 * 32-bit millisecond clock, link notices, and the bounded Wi-Fi wait that
 * `connectWiFi` (relay listener) and `connectToWiFi` (reader) both perform.
 * Driver results are inputs: `up(i)` is what the i-th call of `WiFi.status()`
 * reports, counting from 0 inside one connect call.
 */
module Platform {

  datatype Option<T> = None | Some(value: T)

  newtype byte = x: int | 0 <= x < 256

  /** A value of `millis()`: an `unsigned long`, 32 bits wide, that wraps around. */
  type Millis = x: int | 0 <= x < 0x1_0000_0000

  /** Diagnostic notices about the links, in the order they are printed. */
  datatype LinkNotice = WiFiLost | WiFiBack | MqttLost

  /** `now - since` computed in `unsigned long`: wraps around at 2^32. */
  function Elapsed(now: Millis, since: Millis): (d: Millis)
    ensures since <= now ==> d == now - since
    ensures now < since ==> d == now + 0x1_0000_0000 - since
  {
    (now - since) % 0x1_0000_0000
  }

  /** Across a wrap of the counter, the difference is still the time that passed. */
  lemma ElapsedAcrossWrap(since: Millis, d: nat)
    requires d < 0x1_0000_0000
    ensures Elapsed((since + d) % 0x1_0000_0000, since) == d
  {
    if since + d >= 0x1_0000_0000 {
      assert (since + d) % 0x1_0000_0000 == since + d - 0x1_0000_0000;
    }
  }

  /** At most this many `delay(500)` waits for the Wi-Fi association. */
  const WiFiPollLimit: nat := 30
  const WiFiPollMs: nat := 500

  /**
   * Number of 500 ms waits the connect loop makes when polling from index `i`
   * on: it stops at the first poll that reports connected, or after 30 waits.
   */
  function WiFiWaits(up: nat -> bool, i: nat): (k: nat)
    requires i <= WiFiPollLimit
    ensures i <= k <= WiFiPollLimit
    ensures forall j :: i <= j < k ==> !up(j)
    ensures k < WiFiPollLimit ==> up(k)
    decreases WiFiPollLimit - i
  {
    if i == WiFiPollLimit || up(i) then i else WiFiWaits(up, i + 1)
  }

  /**
   * The flag the connect call leaves behind: the status read by the poll
   * after the loop, i.e. the last one observed.
   */
  function WiFiOutcome(up: nat -> bool): bool {
    up(WiFiWaits(up, 0) + 1)
  }

  /**
   * A link that reports up on every poll is found connected, and one that
   * never reports up is found disconnected.
   */
  lemma WiFiOutcomeBounds(up: nat -> bool)
    ensures (forall j :: 0 <= j <= WiFiPollLimit + 1 ==> up(j)) ==> WiFiOutcome(up)
    ensures (forall j :: 0 <= j <= WiFiPollLimit + 1 ==> !up(j)) ==> !WiFiOutcome(up)
  {
  }

  /**
   * The loop of `connectWiFi`/`connectToWiFi`: poll the status, wait 500 ms
   * while it is down and fewer than 30 waits were made, then poll once more.
   * `waits` is the number of 500 ms delays, `connected` the final status.
   */
  method PollWiFi(up: nat -> bool) returns (waits: nat, connected: bool)
    ensures waits <= WiFiPollLimit && waits * WiFiPollMs <= 15000
    ensures forall j :: 0 <= j < waits ==> !up(j)
    ensures waits < WiFiPollLimit ==> up(waits)
    ensures connected == up(waits + 1)
    ensures waits == WiFiWaits(up, 0) && connected == WiFiOutcome(up)
  {
    waits := 0;
    var status := up(0);
    while !status && waits < WiFiPollLimit
      invariant waits <= WiFiPollLimit
      invariant status == up(waits)
      invariant forall j :: 0 <= j < waits ==> !up(j)
    {
      waits := waits + 1;
      status := up(waits);
    }
    connected := up(waits + 1);
    PollWiFiMatches(up, waits);
  }

  /** The loop's outcome is the one the specification functions give. */
  lemma PollWiFiMatches(up: nat -> bool, waits: nat)
    requires waits <= WiFiPollLimit
    requires forall j :: 0 <= j < waits ==> !up(j)
    requires waits < WiFiPollLimit ==> up(waits)
    ensures waits == WiFiWaits(up, 0)
  {
  }
}
