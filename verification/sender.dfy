/**
 The periodic sender application: its configuration, the payload size of
 each packet, the start/stop lifecycle and the send cycle that reschedules
 itself. The sender is an immutable record; each operation returns the new
 record. Its pending event is kept as the absolute time it is due, so a
 sender holds at most one pending event by construction.
 */
module PeriodicSender {
  import opened Types
  import opened OffsetStore

  /** Whether a random variable for the packet size has been set. The draw it
      yields on a given cycle is supplied by the caller. */
  datatype SizeVariable = NoVariable | RandomVariable

  datatype Config = Config(
    interval: Time,
    initialDelay: Time,
    basePacketSize: Byte,
    sizeVariable: SizeVariable)

  /** The node the application is installed on: its id, and whether its first
      device yields a MAC layer. */
  datatype Node = Node(id: Uint32, device0Mac: bool)

  /** The application object: configuration, whether a MAC is bound, and the
      due time of the pending send event, if any. */
  datatype Sender = Sender(config: Config, macBound: bool, pending: Option<Time>)

  predicate Running(s: Sender) {
    s.pending.Some?
  }

  // ---------------------------------------------------------------------
  // Configuration

  /** Member values set by the constructor. */
  function ConstructorConfig(): (c: Config)
    ensures c.interval == Seconds(10) && c.initialDelay == Seconds(1)
    ensures c.basePacketSize == 10 && c.sizeVariable == NoVariable
  {
    Config(Seconds(10), Seconds(1), 10, NoVariable)
  }

  /** Initial value registered for the `Interval` attribute. */
  const AttributeInterval: Time := Seconds(0)

  /** The configuration of an instance created through the object factory:
      the constructor runs first, then every registered attribute is set to
      its initial value, so the `Interval` attribute's 0s replaces the
      constructor's 10s. */
  function CreatedConfig(): (c: Config)
    ensures c.interval == 0 && c.interval != ConstructorConfig().interval
    ensures c.initialDelay == ConstructorConfig().initialDelay
    ensures c.basePacketSize == ConstructorConfig().basePacketSize
    ensures c.sizeVariable == ConstructorConfig().sizeVariable
  {
    SetInterval(ConstructorConfig(), AttributeInterval)
  }

  /** The `Interval` attribute's initial value agreeing with the constructor. */
  const CorrectedAttributeInterval: Time := Seconds(10)

  /** Creation through the object factory once the attribute's initial value
      agrees with the constructor: the instance keeps the constructor's
      configuration. */
  function CorrectedCreatedConfig(): (c: Config)
    ensures c == ConstructorConfig()
    ensures c.interval > 0
  {
    SetInterval(ConstructorConfig(), CorrectedAttributeInterval)
  }

  function SetInterval(c: Config, interval: Time): (r: Config)
    ensures r.interval == interval
    ensures r.initialDelay == c.initialDelay && r.basePacketSize == c.basePacketSize
    ensures r.sizeVariable == c.sizeVariable
  {
    c.(interval := interval)
  }

  function GetInterval(c: Config): Time {
    c.interval
  }

  /** Getting the interval returns what was last set, and setting the value
      already held changes nothing. */
  lemma IntervalRoundTrip(c: Config, interval: Time)
    ensures GetInterval(SetInterval(c, interval)) == interval
    ensures SetInterval(c, GetInterval(c)) == c
  {
  }

  function SetInitialDelay(c: Config, delay: Time): (r: Config)
    ensures r.initialDelay == delay
    ensures r.interval == c.interval && r.basePacketSize == c.basePacketSize
    ensures r.sizeVariable == c.sizeVariable
  {
    c.(initialDelay := delay)
  }

  function SetPacketSize(c: Config, size: Byte): (r: Config)
    ensures r.basePacketSize == size
    ensures r.interval == c.interval && r.initialDelay == c.initialDelay
    ensures r.sizeVariable == c.sizeVariable
  {
    c.(basePacketSize := size)
  }

  function SetPacketSizeRandomVariable(c: Config, v: SizeVariable): (r: Config)
    ensures r.sizeVariable == v
    ensures r.interval == c.interval && r.initialDelay == c.initialDelay
    ensures r.basePacketSize == c.basePacketSize
  {
    c.(sizeVariable := v)
  }

  // ---------------------------------------------------------------------
  // Payload size

  /** Size of the packet built on one cycle. `draw` is the unsigned integer the
      random variable yields on that cycle; it is ignored when none is set.
      The sum is formed in `int` and handed over as an unsigned 32-bit size,
      so it wraps modulo 2^32. For draws in [2^31 - base, 2^31) the `int`
      addition overflows, which C++ leaves undefined; the two's-complement
      result is taken here. */
  function PacketSize(c: Config, draw: Uint32): (size: Uint32)
    ensures c.sizeVariable == NoVariable ==> size == c.basePacketSize
    ensures c.sizeVariable == RandomVariable && c.basePacketSize + draw < Uint32Modulus ==>
              size == c.basePacketSize + draw
    ensures c.sizeVariable == RandomVariable && c.basePacketSize + draw >= Uint32Modulus ==>
              size + Uint32Modulus == c.basePacketSize + draw && size < c.basePacketSize
  {
    match c.sizeVariable
    case NoVariable => c.basePacketSize
    case RandomVariable => (c.basePacketSize + draw) % Uint32Modulus
  }

  /** Having no random variable is the same as having one that always yields 0. */
  lemma NoVariableIsZeroDraw(c: Config, draw: Uint32)
    ensures PacketSize(c.(sizeVariable := NoVariable), draw)
         == PacketSize(c.(sizeVariable := RandomVariable), 0)
  {
  }

  // ---------------------------------------------------------------------
  // Lifecycle

  /** The clock's scheduling operation: an event `delay` ticks from `now`.
      The clock refuses a negative delay. */
  function Schedule(now: Time, delay: Time): (r: Result<Time>)
    ensures r.Ok? <==> delay >= 0
    ensures r.Ok? ==> now <= r.value && r.value - now == delay
    ensures r.Err? ==> r.fault == NegativeDelay
  {
    if delay < 0 then Err(NegativeDelay) else Ok(now + delay)
  }

  /** `StartApplication`: binds the node's MAC if none is bound yet (failing
      when the node has none), cancels any pending event and schedules the
      first send `initialDelay` after `now`. */
  function Start(s: Sender, node: Node, now: Time): (r: Result<Sender>)
    ensures !s.macBound && !node.device0Mac ==> r == Err(NoMac)
    ensures (s.macBound || node.device0Mac) ==>
              (r.Ok? <==> s.config.initialDelay >= 0)
    ensures (s.macBound || node.device0Mac) && s.config.initialDelay < 0 ==> r == Err(NegativeDelay)
    ensures r.Ok? ==> r.value.config == s.config && r.value.macBound
    ensures r.Ok? ==> r.value.pending == Some(now + s.config.initialDelay)
  {
    if !s.macBound && !node.device0Mac then Err(NoMac)
    else
      match Schedule(now, s.config.initialDelay)
      case Err(f) => Err(f)
      case Ok(due) => Ok(Sender(s.config, true, Some(due)))
  }

  /** A bound MAC is not resolved again: the node does not matter. */
  lemma StartKeepsBoundMac(s: Sender, n1: Node, n2: Node, now: Time)
    requires s.macBound
    ensures Start(s, n1, now) == Start(s, n2, now)
  {
  }

  /** Starting an application that is already running replaces its pending
      event: starting twice at the same instant is starting once. */
  lemma StartTwice(s: Sender, node: Node, again: Node, now: Time)
    requires Start(s, node, now).Ok?
    ensures Start(Start(s, node, now).value, again, now) == Start(s, node, now)
  {
  }

  /** `StopApplication`: cancels the pending event, if any. */
  function Stop(s: Sender): (r: Sender)
    ensures !Running(r)
    ensures r.config == s.config && r.macBound == s.macBound
    ensures !Running(s) ==> r == s
  {
    s.(pending := None)
  }

  // ---------------------------------------------------------------------
  // Send cycle

  /** What one send cycle produces: the size of the packet handed to the MAC,
      the offset records afterwards, and the due time of the next send or the
      fault that ended the run. */
  datatype Cycle = Cycle(packetSize: Uint32, store: Store, next: Result<Time>)

  /** `SendPacket`, fired at `now`: build and send the packet, read the node's
      offset word, reset the record when the word is not `"0"`, then schedule
      the next cycle `offset + interval` later, the offset being the word read
      before the reset. */
  function SendCycle(s: Sender, node: Node, store: Store, now: Time, draw: Uint32): (r: Cycle)
    requires s.macBound
    ensures r.packetSize == PacketSize(s.config, draw)
    ensures ReadOffset(store, node.id) == "0" ==> r.store == store
    ensures ReadOffset(store, node.id) != "0" ==> ReadOffset(r.store, node.id) == "0"
    ensures r.store.Keys == store.Keys || r.store.Keys == store.Keys + {node.id}
    ensures forall id :: id in store && id != node.id ==> r.store[id] == store[id]
    ensures var parsed := ParseOffset(ReadOffset(store, node.id));
            parsed.Err? ==> r.next == Err(parsed.fault)
    ensures var parsed := ParseOffset(ReadOffset(store, node.id));
            parsed.Ok? ==>
              (r.next.Ok? <==> Seconds(parsed.value) + s.config.interval >= 0) &&
              (r.next.Ok? ==> r.next.value == now + Seconds(parsed.value) + s.config.interval) &&
              (r.next.Err? ==> r.next.fault == NegativeDelay)
  {
    var size := PacketSize(s.config, draw);
    var text := ReadOffset(store, node.id);
    var store' := if text != "0" then InitOffset(store, node.id) else store;
    var parsed := ParseOffset(text);
    var next := if parsed.Err? then Err(parsed.fault)
                else Schedule(now, Seconds(parsed.value) + s.config.interval);
    Cycle(size, store', next)
  }

  /** With the record reading `"0"`, the next send is exactly one interval
      later and the records are untouched. */
  lemma SteadyCycle(s: Sender, node: Node, store: Store, now: Time, draw: Uint32)
    requires s.macBound && s.config.interval >= 0
    requires ReadOffset(store, node.id) == "0"
    ensures SendCycle(s, node, store, now, draw).next == Ok(now + s.config.interval)
    ensures SendCycle(s, node, store, now, draw).store == store
  {
    ParseZero();
  }

  /** A record whose word is not `"0"` and reads as `n` seconds delays the
      next send by `n` seconds on top of the interval, although the same cycle
      already reset the record to `"0"`: the delay uses the word read before
      the reset. */
  lemma OffsetCycle(s: Sender, node: Node, store: Store, now: Time, n: nat, draw: Uint32)
    requires s.macBound && s.config.interval >= 0
    requires ReadOffset(store, node.id) != "0" && ParseOffset(ReadOffset(store, node.id)) == Ok(n)
    ensures SendCycle(s, node, store, now, draw).next == Ok(now + Seconds(n) + s.config.interval)
    ensures ReadOffset(SendCycle(s, node, store, now, draw).store, node.id) == "0"
  {
  }

  /** The offset is consumed once: with no other writer in between, the
      cycle after the one that found `n` seconds is one plain interval later. */
  lemma OffsetConsumedOnce(s: Sender, node: Node, store: Store, now: Time,
                           n: nat, d1: Uint32, d2: Uint32)
    requires s.macBound && s.config.interval >= 0
    requires ReadOffset(store, node.id) != "0" && ParseOffset(ReadOffset(store, node.id)) == Ok(n)
    ensures var c1 := SendCycle(s, node, store, now, d1);
            && c1.next == Ok(now + Seconds(n) + s.config.interval)
            && SendCycle(s, node, c1.store, c1.next.value, d2).next
               == Ok(now + Seconds(n) + 2 * s.config.interval)
  {
    var c1 := SendCycle(s, node, store, now, d1);
    assert c1.next == Ok(now + Seconds(n) + s.config.interval) && ReadOffset(c1.store, node.id) == "0" by {
      OffsetCycle(s, node, store, now, n, d1);
    }
    var t1 := c1.next.value;
    assert SendCycle(s, node, c1.store, t1, d2).next == Ok(t1 + s.config.interval) by {
      SteadyCycle(s, node, c1.store, t1, d2);
    }
  }

  /** A node without a record: the cycle still sends its packet and creates
      the record reading `"0"`, then fails on the empty offset word. */
  lemma MissingRecordFails(s: Sender, node: Node, store: Store, now: Time, draw: Uint32)
    requires s.macBound && node.id !in store
    ensures var c := SendCycle(s, node, store, now, draw);
            && c.next == Err(OffsetMissing)
            && c.packetSize == PacketSize(s.config, draw)
            && node.id in c.store && ReadOffset(c.store, node.id) == "0"
  {
  }
}
