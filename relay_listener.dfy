/**
 * The relay/LED MQTT listener: it keeps the Wi-Fi and broker sessions up,
 * drives the relay and its indicator LED from messages on the control topic,
 * and accepts a manual override on the serial port.
 */
module RelayListener {
  import opened ArduinoString
  import opened Platform
  import opened Protocol

  /** Level written to an output pin. */
  datatype Level = Low | High

  /** The actuator command. */
  datatype Switch = Off | On

  /** A message handed to the callback: its topic and its payload bytes as characters. */
  datatype Message = Message(topic: string, payload: string)

  /**
   * The callback's decision for a payload on the control topic. The three tests
   * of the source are kept as written; the second branch and the fallback both
   * switch off, so nothing but On or Off comes out.
   */
  function Classify(message: string): (c: Switch)
    ensures c == On <==> ToInt(message) == 1
  {
    var status := ToInt(message);
    var trimmed := Trim(message);
    if trimmed == "1" || status == 1 || (|message| == 1 && message[0] == '1') then
      if status == 1 then On
      else
        OneReadsAsOne(message);
        On
    else if trimmed == "0" || status == 0 || (|message| == 1 && message[0] == '0') then Off
    else Off
  }

  /** A trimmed "1" and a lone '1' byte both read as 1 with `toInt`. */
  lemma OneReadsAsOne(message: string)
    requires Trim(message) == "1" || (|message| == 1 && message[0] == '1')
    ensures ToInt(message) == 1
  {
    if Trim(message) == "1" {
      ToIntOfTrimmedOne(message);
    }
    if |message| == 1 && message[0] == '1' {
      assert message == [message[0]];
      ToIntOfChar(message[0]);
    }
  }

  /** The callback's effect: None (nothing touched) unless the topic is the control topic. */
  function Decide(topic: string, payload: string): (c: Option<Switch>)
    ensures c.None? <==> topic != Topic
  {
    if topic == Topic then Some(Classify(payload)) else None
  }

  /** The serial override: '1' switches on, '0' off, any other character nothing. */
  function SerialCommand(c: char): (cmd: Option<Switch>)
    ensures cmd.Some? <==> c == '0' || c == '1'
    ensures cmd == Some(On) <==> c == '1'
  {
    if c == '0' then Some(Off) else if c == '1' then Some(On) else None
  }

  /** The state after an optional command. */
  function Apply(s: Switch, cmd: Option<Switch>): Switch {
    if cmd.Some? then cmd.value else s
  }

  /** The message dispatched by `mqttClient.loop()` this tick, if any, as a command. */
  function Delivered(m: Option<Message>): Option<Switch> {
    if m.Some? then Decide(m.value.topic, m.value.payload) else None
  }

  function Typed(c: Option<char>): Option<Switch> {
    if c.Some? then SerialCommand(c.value) else None
  }

  /**
   * On the control topic the relay goes On exactly when `toInt` reads 1 from the
   * payload; a trimmed "1" or a lone '1' byte always does, so the other two tests
   * add nothing. Every other payload switches Off, never leaves the state alone.
   */
  lemma OnExactlyWhenToIntIsOne(payload: string)
    ensures Classify(payload) == On <==> ToInt(payload) == 1
    ensures Decide(Topic, payload) == Some(if ToInt(payload) == 1 then On else Off)
  {
  }

  // The example lemmas below take their payload as a parameter pinned by
  // `requires p == "..."` rather than writing the literal in the `ensures`:
  // a literal there makes the verifier unfold `toInt` over it eagerly, which
  // costs far more than the proof itself.

  /** A leading zero is read through: "01" switches on. */
  lemma LeadingZeroSwitchesOn(p: string)
    requires p == "01"
    ensures Classify(p) == On
  {
    assert p[..2] == p;
    assert DecimalValue(p) == 10 * DecimalValue(p[..1]) + 1;
    ToIntOfDigitPrefix(p, 2);
    OnExactlyWhenToIntIsOne(p);
  }

  /** Text after the number is ignored: "1abc" switches on. */
  lemma TrailingTextSwitchesOn(p: string)
    requires p == "1abc"
    ensures Classify(p) == On
  {
    assert p[..1] == "1";
    assert DecimalValue("1") == 10 * DecimalValue("") + 1;
    ToIntOfDigitPrefix(p, 1);
    OnExactlyWhenToIntIsOne(p);
  }

  /** The empty payload switches off. */
  lemma EmptyPayloadSwitchesOff(p: string)
    requires p == ""
    ensures Classify(p) == Off
  {
    OnExactlyWhenToIntIsOne(p);
  }

  /** A payload that does not start with a number switches off. */
  lemma NonNumberSwitchesOff(p: string)
    requires !LeadsWithNumber(p)
    ensures Classify(p) == Off
  {
    OnExactlyWhenToIntIsOne(p);
  }

  /** A word switches off: "true" does not read as a number. */
  lemma WordSwitchesOff(p: string)
    requires p == "true"
    ensures Classify(p) == Off
  {
    TrimLeftNoSpace(p);
    NonNumberSwitchesOff(p);
  }

  /** Any other number switches off: "2" reads as 2. */
  lemma OtherNumberSwitchesOff(p: string)
    requires p == "2"
    ensures Classify(p) == Off
  {
    OnExactlyWhenToIntIsOne(p);
    ToIntOfChar('2');
  }

  /** How the broker session behaves during one `connectMQTT` call. */
  datatype Broker = Broker(
    linked: nat -> bool,   // `mqttClient.connected()` at the i-th loop test
    accepts: nat -> bool,  // result of the i-th `mqttClient.connect(clientId)`
    subscribes: bool)      // result of `mqttClient.subscribe(mqtt_topic)`

  const MqttAttemptLimit: nat := 3
  const MqttRetryMs: nat := 3000

  /**
   * Failed connect attempts before the loop stops or a connect succeeds,
   * counting from attempt `i`.
   */
  function BrokerFailures(b: Broker, i: nat): (f: nat)
    requires i <= MqttAttemptLimit
    ensures i <= f <= MqttAttemptLimit
    ensures forall j :: i <= j < f ==> !b.linked(j) && !b.accepts(j)
    ensures f < MqttAttemptLimit ==> b.linked(f) || b.accepts(f)
    decreases MqttAttemptLimit - i
  {
    if i == MqttAttemptLimit || b.linked(i) || b.accepts(i) then i else BrokerFailures(b, i + 1)
  }

  /**
   * Attempt `k` is the accepted connect: it is one of the first three, the
   * link was down at every loop test up to it, and every earlier connect failed.
   */
  predicate AcceptedAt(b: Broker, k: nat) {
    && k < MqttAttemptLimit && !b.linked(k) && b.accepts(k)
    && forall j :: 0 <= j < k ==> !b.linked(j) && !b.accepts(j)
  }

  /** A `connect` call succeeded (and ended the loop). */
  predicate Accepted(b: Broker) {
    var f := BrokerFailures(b, 0);
    f < MqttAttemptLimit && !b.linked(f) && b.accepts(f)
  }

  /** The loop's outcome agrees with the reference definition of the accepted attempt. */
  lemma AcceptedMeans(b: Broker)
    ensures Accepted(b) <==> exists k :: AcceptedAt(b, k)
  {
    OnlyFirstAccepted(b);
    if Accepted(b) {
      assert AcceptedAt(b, BrokerFailures(b, 0));
    }
  }

  /** No attempt but the one the loop stops at can be the accepted one. */
  lemma OnlyFirstAccepted(b: Broker)
    ensures forall k :: AcceptedAt(b, k) ==> k == BrokerFailures(b, 0)
  {
    var f := BrokerFailures(b, 0);
    forall k | AcceptedAt(b, k)
      ensures k == f
    {
      assert f <= k;
    }
  }

  /** `connectMQTT` sets the flag: a connect succeeded and so did the subscription. */
  predicate Joins(b: Broker) {
    Accepted(b) && b.subscribes
  }

  /** The flag goes up exactly when one of the first three attempts is accepted and the subscription succeeds. */
  lemma JoinsMeans(b: Broker)
    ensures Joins(b) <==> b.subscribes && exists k :: AcceptedAt(b, k)
  {
    AcceptedMeans(b);
  }

  /** The 3000 ms waits `connectMQTT` makes: one after each failed attempt but the third. */
  function BrokerWaits(b: Broker): (w: nat)
    ensures w < MqttAttemptLimit
    ensures w == BrokerFailures(b, 0) || w == MqttAttemptLimit - 1
  {
    var f := BrokerFailures(b, 0);
    if f == MqttAttemptLimit then f - 1 else f
  }

  /** Wi-Fi, broker and input events seen during one call of `loop()`. */
  datatype Tick = Tick(
    wifiUp: bool,                // `WiFi.status() == WL_CONNECTED` at the top of the loop
    wifiPolls: nat -> bool,      // statuses read inside `connectWiFi`, when it runs
    brokerUp: bool,              // `mqttClient.connected()`
    broker: Broker,              // the session inside `connectMQTT`, when it runs
    delivered: Option<Message>,  // the message `mqttClient.loop()` dispatches, if any
    serial: Option<char>)        // the character read from the serial port, if any

  class Listener {
    var wifiConnected: bool
    var mqttConnected: bool
    var relay: Level
    var led: Level
    var notices: seq<LinkNotice>

    /** The LED mirrors the relay, and the broker flag is never up without Wi-Fi. */
    ghost predicate Valid()
      reads this
    {
      relay == led && (mqttConnected ==> wifiConnected)
    }

    /** The actuator state the pins show. */
    function State(): Switch
      reads this
    {
      if relay == High then On else Off
    }

    /**
     * `setup()`: both outputs off before anything else, then Wi-Fi, then the
     * broker if Wi-Fi came up.
     */
    constructor (wifiPolls: nat -> bool, broker: Broker)
      ensures Valid() && relay == Low && led == Low && State() == Off
      ensures wifiConnected == WiFiOutcome(wifiPolls)
      ensures mqttConnected == (WiFiOutcome(wifiPolls) && Joins(broker))
      ensures notices == []
    {
      wifiConnected := false;
      mqttConnected := false;
      relay := Low;
      led := Low;
      notices := [];
      new;
      RelayOff();
      var waited := ConnectWiFi(wifiPolls);
      if wifiConnected {
        var calls, waits := ConnectMQTT(broker);
      }
    }

    /** `relayOn()`: relay and LED both driven HIGH. */
    method RelayOn()
      modifies this`relay, this`led
      ensures relay == High && led == High && State() == On
    {
      relay := High;
      led := High;
    }

    /** `relayOff()`: relay and LED both driven LOW. */
    method RelayOff()
      modifies this`relay, this`led
      ensures relay == Low && led == Low && State() == Off
    {
      relay := Low;
      led := Low;
    }

    /** `connectWiFi()`: at most 30 waits of 500 ms; the flag is the last status read. */
    method ConnectWiFi(polls: nat -> bool) returns (waitedMs: nat)
      modifies this`wifiConnected
      ensures wifiConnected == WiFiOutcome(polls)
      ensures waitedMs == WiFiPollMs * WiFiWaits(polls, 0) && waitedMs <= 15000
    {
      var waits, connected := PollWiFi(polls);
      waitedMs := WiFiPollMs * waits;
      wifiConnected := connected;
    }

    /**
     * `connectMQTT()`: at most three connect attempts, a 3000 ms wait after each
     * failed one except the last; the flag is raised only when a connect and the
     * subscription both succeed, and is never lowered here.
     */
    method ConnectMQTT(b: Broker) returns (calls: nat, waits: nat)
      modifies this`mqttConnected
      ensures calls <= MqttAttemptLimit && waits <= MqttAttemptLimit - 1
      ensures var f := BrokerFailures(b, 0);
        && calls == (if Accepted(b) then f + 1 else f)
        && waits == BrokerWaits(b)
      ensures mqttConnected == (old(mqttConnected) || Joins(b))
    {
      var attempts := 0;
      calls, waits := 0, 0;
      while !b.linked(attempts) && attempts < MqttAttemptLimit
        invariant attempts <= MqttAttemptLimit
        invariant BrokerFailures(b, attempts) == BrokerFailures(b, 0)
        invariant calls == attempts
        invariant waits == (if attempts == MqttAttemptLimit then attempts - 1 else attempts)
        invariant mqttConnected == old(mqttConnected)
      {
        if b.accepts(attempts) {
          calls := calls + 1;
          if b.subscribes {
            mqttConnected := true;
          }
          return;
        }
        calls := calls + 1;
        attempts := attempts + 1;
        if attempts < MqttAttemptLimit {
          waits := waits + 1;
        }
      }
    }

    /** `mqttCallback()`: only the control topic touches the outputs, and then always. */
    method MqttCallback(topic: string, payload: string)
      requires Valid()
      modifies this`relay, this`led
      ensures Valid()
      ensures topic != Topic ==> relay == old(relay) && led == old(led)
      ensures State() == Apply(old(State()), Decide(topic, payload))
    {
      if topic == Topic {
        var status := ToInt(payload);
        var message := Trim(payload);
        if message == "1" || status == 1 || (|payload| == 1 && payload[0] == '1') {
          RelayOn();
        } else if message == "0" || status == 0 || (|payload| == 1 && payload[0] == '0') {
          RelayOff();
        } else {
          RelayOff();
        }
      }
    }

    /**
     * `loop()` with Wi-Fi down: report the loss once (on the falling edge),
     * clear both flags and try to reconnect; the outputs are not touched.
     * `waitedMs` is the time spent waiting for the association.
     */
    method LinkDown(t: Tick) returns (waitedMs: nat)
      requires Valid()
      modifies this`wifiConnected, this`mqttConnected, this`notices
      ensures Valid()
      ensures notices == old(notices) + (if old(wifiConnected) then [WiFiLost] else [])
      ensures wifiConnected == WiFiOutcome(t.wifiPolls)
      ensures !mqttConnected
      ensures relay == old(relay) && led == old(led)
      ensures waitedMs == WiFiPollMs * WiFiWaits(t.wifiPolls, 0) && waitedMs <= 15000
    {
      if wifiConnected {
        notices := notices + [WiFiLost];
        wifiConnected := false;
        mqttConnected := false;
      }
      waitedMs := ConnectWiFi(t.wifiPolls);
    }

    /**
     * The part of `loop()` with Wi-Fi up that looks after the links: note a
     * reconnection, then service the broker session. `waitedMs` is the time
     * spent between broker attempts.
     */
    method KeepLinks(t: Tick) returns (waitedMs: nat)
      requires Valid() && t.wifiUp
      modifies this`wifiConnected, this`mqttConnected, this`notices
      ensures Valid()
      ensures wifiConnected
      ensures mqttConnected == (if t.brokerUp then old(mqttConnected) else Joins(t.broker))
      ensures notices == old(notices)
        + (if old(wifiConnected) then [] else [WiFiBack])
        + (if !t.brokerUp && old(mqttConnected) then [MqttLost] else [])
      ensures waitedMs == (if t.brokerUp then 0 else MqttRetryMs * BrokerWaits(t.broker))
      ensures waitedMs <= 6000
    {
      waitedMs := 0;
      if !wifiConnected {
        wifiConnected := true;
        notices := notices + [WiFiBack];
      }
      ghost var reconnected := notices;
      assert reconnected == old(notices) + (if old(wifiConnected) then [] else [WiFiBack]);

      if !t.brokerUp {
        if mqttConnected {
          notices := notices + [MqttLost];
          mqttConnected := false;
        }
        var calls, waits := ConnectMQTT(t.broker);
        waitedMs := MqttRetryMs * waits;
      }
    }

    /**
     * The rest of `loop()` with Wi-Fi up: the message `mqttClient.loop()`
     * dispatches, if any, then the serial override, if a character came.
     */
    method Dispatch(t: Tick)
      requires Valid()
      modifies this`relay, this`led
      ensures Valid()
      ensures State() == Apply(Apply(old(State()), Delivered(t.delivered)), Typed(t.serial))
    {
      if t.delivered.Some? {
        MqttCallback(t.delivered.value.topic, t.delivered.value.payload);
      }
      ghost var afterMessage := State();
      assert afterMessage == Apply(old(State()), Delivered(t.delivered));

      if t.serial.Some? {
        var cmd := t.serial.value;
        if cmd == '0' {
          RelayOff();
        } else if cmd == '1' {
          RelayOn();
        }
      }
    }

    /**
     * `loop()`. With Wi-Fi down the tick reports a loss once (on the falling
     * edge), clears both flags, tries to reconnect and does nothing else. With
     * Wi-Fi up it notes a reconnection, services the broker session, then
     * dispatches at most one message and one serial character, in that order.
     * `delayMs` is how long the tick blocks: the Wi-Fi waits or the broker
     * waits, never both, so at most 15 s.
     */
    method Loop(t: Tick) returns (delayMs: nat)
      requires Valid()
      modifies this
      ensures Valid()
      ensures !t.wifiUp ==>
        && notices == old(notices) + (if old(wifiConnected) then [WiFiLost] else [])
        && wifiConnected == WiFiOutcome(t.wifiPolls)
        && !mqttConnected
        && relay == old(relay) && led == old(led)
      ensures t.wifiUp ==>
        && wifiConnected
        && mqttConnected == (if t.brokerUp then old(mqttConnected) else Joins(t.broker))
        && notices == old(notices)
             + (if old(wifiConnected) then [] else [WiFiBack])
             + (if !t.brokerUp && old(mqttConnected) then [MqttLost] else [])
        && State() == Apply(Apply(old(State()), Delivered(t.delivered)), Typed(t.serial))
      ensures delayMs == (if !t.wifiUp then WiFiPollMs * WiFiWaits(t.wifiPolls, 0)
                          else if t.brokerUp then 0
                          else MqttRetryMs * BrokerWaits(t.broker))
      ensures delayMs <= 15000
    {
      if !t.wifiUp {
        delayMs := LinkDown(t);
      } else {
        delayMs := KeepLinks(t);
        Dispatch(t);
      }
    }
  }
}
