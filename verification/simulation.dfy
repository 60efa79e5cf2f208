/**
 The sender inside its simulation: the clock, the node, the application, the
 offset records and the log of packets the MAC was handed. The clock fires
 the application's pending event, which runs one send cycle; a fault aborts
 the run, after which nothing fires. Properties over several cycles live
 here.
 */
module Simulation {
  import opened Types
  import opened OffsetStore
  import opened PeriodicSender

  /** One packet handed to the MAC: when, and of what size. */
  datatype Sent = Sent(at: Time, size: Uint32)

  datatype World = World(
    now: Time,
    node: Node,
    app: Sender,
    store: Store,
    mac: seq<Sent>,
    fault: Option<Fault>)

  /** Each packet of the log goes no earlier than the one before it. */
  predicate Chronological(log: seq<Sent>) {
    forall i :: 0 < i < |log| ==> log[i - 1].at <= log[i].at
  }

  /** A pending event belongs to a live run with a bound MAC and is not due
      in the past; the MAC's log is in time order and lies in the past. */
  predicate Valid(w: World) {
    && (Running(w.app) ==> w.app.macBound && w.fault.None? && w.now <= w.app.pending.value)
    && (forall i :: 0 <= i < |w.mac| ==> w.mac[i].at <= w.now)
    && Chronological(w.mac)
  }

  /** A freshly installed application: no MAC bound, nothing pending. */
  function Boot(node: Node, config: Config, store: Store, now: Time): (w: World)
    ensures Valid(w) && !Running(w.app) && w.fault.None?
    ensures w.mac == [] && w.app.config == config && w.store == store && w.now == now
  {
    World(now, node, Sender(config, false, None), store, [], None)
  }

  /** A harness writing `seconds` into a node's record, as a text line. */
  function SeedOffset(store: Store, id: nat, seconds: nat): (r: Store)
    ensures ParseOffset(ReadOffset(r, id)) == Ok(seconds)
    ensures ReadOffset(r, id) == FormatNat(seconds)
    ensures forall other :: other in store && other != id ==> other in r && r[other] == store[other]
  {
    WordRoundTrip(FormatNat(seconds));
    ParseFormatRoundTrip(seconds);
    store[id := FormatNat(seconds) + "\n"]
  }

  /** Starting the application at the current time. A failed start aborts
      the run; an aborted run stays as it is. */
  function StartApp(w: World): (r: World)
    requires Valid(w)
    ensures Valid(r)
    ensures r.now == w.now && r.mac == w.mac && r.store == w.store && r.node == w.node
    ensures r.app.config == w.app.config
    ensures w.fault.Some? ==> r == w
    ensures w.fault.None? && !w.app.macBound && !w.node.device0Mac ==>
              r.fault == Some(NoMac) && !Running(r.app)
    ensures w.fault.None? && (w.app.macBound || w.node.device0Mac) && w.app.config.initialDelay >= 0 ==>
              r.fault.None? && r.app.macBound && r.app.pending == Some(w.now + w.app.config.initialDelay)
    ensures w.fault.None? && (w.app.macBound || w.node.device0Mac) && w.app.config.initialDelay < 0 ==>
              r.fault == Some(NegativeDelay) && !Running(r.app)
  {
    if w.fault.Some? then w
    else
      match Start(w.app, w.node, w.now)
      case Ok(app) => w.(app := app)
      case Err(f) => w.(app := Stop(w.app), fault := Some(f))
  }

  function StopApp(w: World): (r: World)
    requires Valid(w)
    ensures Valid(r) && !Running(r.app)
    ensures r.now == w.now && r.mac == w.mac && r.store == w.store && r.node == w.node
    ensures r.fault == w.fault && r.app.config == w.app.config
  {
    w.(app := Stop(w.app))
  }

  /** Time passes with no event firing: the clock moves to `t`, which may not
      lie beyond the pending event, if any. */
  function Advance(w: World, t: Time): (r: World)
    requires Valid(w) && w.now <= t
    requires Running(w.app) ==> t <= w.app.pending.value
    ensures Valid(r) && r.now == t
    ensures r.node == w.node && r.app == w.app && r.store == w.store
    ensures r.mac == w.mac && r.fault == w.fault
  {
    w.(now := t)
  }

  /** The clock fires the pending event, if any: time advances to its due
      time, the send cycle runs, its packet joins the MAC's log, and either
      the next event is pending or the run is aborted by the cycle's fault. */
  function Fire(w: World, draw: Uint32): (r: World)
    requires Valid(w)
    ensures Valid(r)
    ensures r.node == w.node && r.app.config == w.app.config && r.now >= w.now
    ensures !Running(w.app) ==> r == w
    ensures Running(w.app) ==>
              && r.now == w.app.pending.value
              && r.mac == w.mac + [Sent(r.now, PacketSize(w.app.config, draw))]
    ensures Running(w.app) ==> (Running(r.app) <==> r.fault.None?)
  {
    match w.app.pending
    case None => w
    case Some(due) =>
      var c := SendCycle(w.app, w.node, w.store, due, draw);
      var mac := w.mac + [Sent(due, c.packetSize)];
      match c.next
      case Ok(next) => World(due, w.node, w.app.(pending := Some(next)), c.store, mac, None)
      case Err(f) => World(due, w.node, w.app.(pending := None), c.store, mac, Some(f))
  }

  /** Fires up to `|draws|` events, the k-th fired cycle drawing `draws[k]`. */
  function Run(w: World, draws: seq<Uint32>): (r: World)
    requires Valid(w)
    ensures Valid(r)
    ensures r.node == w.node && r.app.config == w.app.config && r.now >= w.now
    ensures |w.mac| <= |r.mac| <= |w.mac| + |draws| && r.mac[..|w.mac|] == w.mac
    decreases |draws|
  {
    if |draws| == 0 then w else Run(Fire(w, draws[0]), draws[1..])
  }

  /** A run of at least one event is its first firing followed by the rest. */
  lemma RunStep(w: World, draws: seq<Uint32>)
    requires Valid(w) && |draws| > 0
    ensures Run(w, draws) == Run(Fire(w, draws[0]), draws[1..])
  {
  }

  /** With nothing pending, time may pass without a single packet. */
  lemma {:induction false} IdleRunIsSilent(w: World, draws: seq<Uint32>)
    requires Valid(w) && !Running(w.app)
    ensures Run(w, draws) == w
    decreases |draws|
  {
    if |draws| > 0 {
      IdleRunIsSilent(Fire(w, draws[0]), draws[1..]);
    }
  }

  /** After a stop, no packet is sent until the next start. */
  lemma StopSilences(w: World, draws: seq<Uint32>)
    requires Valid(w)
    ensures Run(StopApp(w), draws).mac == w.mac
    ensures Run(StopApp(w), draws).app.pending == None
  {
    IdleRunIsSilent(StopApp(w), draws);
  }

  /** Starting twice at the same instant leaves the one event the second
      start scheduled, exactly as a single start does. */
  lemma StartAppTwice(w: World)
    requires Valid(w) && StartApp(w).fault.None?
    ensures StartApp(StartApp(w)) == StartApp(w)
  {
    StartTwice(w.app, w.node, w.node, w.now);
  }

  /** Stopping and starting again later: the event pending before the stop is
      gone, and the one pending event is the initial delay after the restart. */
  lemma RestartLater(w: World, t: Time)
    requires Valid(w) && w.fault.None? && w.app.macBound && w.app.config.initialDelay >= 0
    requires w.now <= t
    ensures var r := StartApp(Advance(StopApp(w), t));
            && r.app.pending == Some(t + w.app.config.initialDelay)
            && r.mac == w.mac && r.store == w.store && r.fault.None?
  {
  }

  /** The packet goes to the MAC before the offset is read: when the offset
      word cannot be used, the cycle still logs its packet, and the record is
      already reset when the run aborts. */
  lemma SendPrecedesOffsetFailure(w: World, draw: Uint32)
    requires Valid(w) && Running(w.app)
    requires ParseOffset(ReadOffset(w.store, w.node.id)).Err?
    ensures var r := Fire(w, draw);
            && r.mac == w.mac + [Sent(w.app.pending.value, PacketSize(w.app.config, draw))]
            && r.fault == Some(ParseOffset(ReadOffset(w.store, w.node.id)).fault)
            && !Running(r.app)
            && ReadOffset(r.store, w.node.id) == "0"
  {
    ParseZero();
  }

  /** Firing a pending event, spelled out: time moves to the due time, the
      cycle's packet is logged, its records kept, and its outcome decides
      between the next pending event and an aborted run. */
  lemma FireRunning(w: World, draw: Uint32)
    requires Valid(w) && Running(w.app)
    ensures var due := w.app.pending.value;
            var c := SendCycle(w.app, w.node, w.store, due, draw);
            var r := Fire(w, draw);
            && r.now == due && r.store == c.store
            && r.mac == w.mac + [Sent(due, c.packetSize)]
            && (c.next.Ok? ==> r.app.pending == Some(c.next.value) && r.fault.None?)
            && (c.next.Err? ==> r.app.pending == None && r.fault == Some(c.next.fault))
  {
  }

  /** One cycle with the node's record reading `"0"`: the packet goes out and
      the next event is one interval later; the records are untouched. */
  lemma FireSteady(w: World, draw: Uint32)
    requires Valid(w) && Running(w.app) && w.app.config.interval >= 0
    requires ReadOffset(w.store, w.node.id) == "0"
    ensures var r := Fire(w, draw);
            && r.mac == w.mac + [Sent(w.app.pending.value, PacketSize(w.app.config, draw))]
            && r.app.pending == Some(w.app.pending.value + w.app.config.interval)
            && r.store == w.store && r.fault.None?
  {
    SteadyCycle(w.app, w.node, w.store, w.app.pending.value, draw);
    FireRunning(w, draw);
  }

  /** The due time `k` periods of `interval` after `start`. */
  function Periodic(start: Time, interval: Time, k: nat): Time
    decreases k
  {
    if k == 0 then start else Periodic(start + interval, interval, k - 1)
  }

  /** The k-th period begins `k * interval` after the start. */
  lemma {:induction false} PeriodicClosedForm(start: Time, interval: Time, k: nat)
    ensures Periodic(start, interval, k) == start + k * interval
    decreases k
  {
    if k > 0 {
      PeriodicClosedForm(start + interval, interval, k - 1);
      assert (k - 1) * interval + interval == k * interval;
    }
  }

  /** While the node's record reads `"0"`, consecutive packets are exactly one
      interval apart, the k-th at the k-th period after the first due time,
      and the record is never written. */
  lemma {:induction false} SteadyRun(w: World, draws: seq<Uint32>)
    requires Valid(w) && Running(w.app) && w.app.config.interval >= 0
    requires ReadOffset(w.store, w.node.id) == "0"
    ensures var r := Run(w, draws);
            && |r.mac| == |w.mac| + |draws|
            && r.store == w.store && r.fault.None?
            && r.app.pending == Some(Periodic(w.app.pending.value, w.app.config.interval, |draws|))
            && forall i :: |w.mac| <= i < |r.mac| ==>
                 r.mac[i]
                 == Sent(Periodic(w.app.pending.value, w.app.config.interval, i - |w.mac|),
                         PacketSize(w.app.config, draws[i - |w.mac|]))
    decreases |draws|
  {
    if |draws| > 0 {
      var due := w.app.pending.value;
      var interval := w.app.config.interval;
      var size := PacketSize(w.app.config, draws[0]);
      var w1 := Fire(w, draws[0]);
      assert w1.mac == w.mac + [Sent(due, size)] && w1.app.pending == Some(due + interval)
          && w1.store == w.store && w1.fault.None? by {
        FireSteady(w, draws[0]);
      }
      var rest := draws[1..];
      var r := Run(w1, rest);
      RunStep(w, draws);
      assert |r.mac| == |w1.mac| + |rest| && r.store == w1.store && r.fault.None?
          && r.app.pending == Some(Periodic(due + interval, interval, |rest|))
          && forall i :: |w1.mac| <= i < |r.mac| ==>
               r.mac[i] == Sent(Periodic(due + interval, interval, i - |w1.mac|),
                                PacketSize(w.app.config, rest[i - |w1.mac|])) by {
        SteadyRun(w1, rest);
      }
      assert r.mac[|w.mac|] == w1.mac[|w.mac|];
      forall i | |w.mac| < i < |r.mac|
        ensures r.mac[i] == Sent(Periodic(due, interval, i - |w.mac|), PacketSize(w.app.config, draws[i - |w.mac|]))
      {
        assert rest[i - |w1.mac|] == draws[i - |w.mac|];
      }
    }
  }

  /** The cycle that finds `n` seconds in the node's record: its packet goes
      out, the record is reset, and the next event is `n` seconds plus one
      interval later. */
  lemma FireWithOffset(w: World, n: nat, draw: Uint32)
    requires Valid(w) && Running(w.app) && w.app.config.interval >= 0
    requires ReadOffset(w.store, w.node.id) != "0" && ParseOffset(ReadOffset(w.store, w.node.id)) == Ok(n)
    ensures var r := Fire(w, draw);
            && r.mac == w.mac + [Sent(w.app.pending.value, PacketSize(w.app.config, draw))]
            && r.app.pending == Some(w.app.pending.value + Seconds(n) + w.app.config.interval)
            && ReadOffset(r.store, w.node.id) == "0"
  {
    OffsetCycle(w.app, w.node, w.store, w.app.pending.value, n, draw);
    FireRunning(w, draw);
  }

  /** A steady run resumed from a shifted schedule: `w`'s log holds `|first|`
      packets and then one sent at `due`, the record reads `"0"` and the next
      event is one interval after `start`. Every later packet goes at its
      period after `start`, the packet at `due` stays in the log, and the
      record keeps reading `"0"`. */
  lemma {:induction false} SteadyRunFrom(first: seq<Sent>, due: Time, start: Time, w: World, draws: seq<Uint32>)
    requires Valid(w) && Running(w.app) && w.app.config.interval >= 0
    requires ReadOffset(w.store, w.node.id) == "0"
    requires |w.mac| == |first| + 1 && w.mac[|first|].at == due
    requires w.app.pending == Some(start + w.app.config.interval)
    ensures var r := Run(w, draws);
            && |r.mac| == |first| + 1 + |draws|
            && r.mac[|first|].at == due
            && ReadOffset(r.store, w.node.id) == "0"
            && forall i :: |first| < i < |r.mac| ==>
                 r.mac[i].at == Periodic(start, w.app.config.interval, i - |first|)
  {
    SteadyRun(w, draws);
  }

  /** A record whose word reads as `n` seconds shifts the schedule by `n`
      seconds once: the cycle that finds it sends at its due time, and the
      k-th packet after it goes at the k-th period after `due + n seconds`.
      `first` is the draw of that cycle, `rest` those of the cycles after. */
  lemma OffsetShiftsOnce(w: World, n: nat, first: Uint32, rest: seq<Uint32>)
    requires Valid(w) && Running(w.app) && w.app.config.interval >= 0
    requires ReadOffset(w.store, w.node.id) != "0" && ParseOffset(ReadOffset(w.store, w.node.id)) == Ok(n)
    ensures var r := Run(Fire(w, first), rest);
            && |r.mac| == |w.mac| + 1 + |rest|
            && r.mac[|w.mac|].at == w.app.pending.value
            && ReadOffset(r.store, w.node.id) == "0"
            && forall i :: |w.mac| < i < |r.mac| ==>
                 r.mac[i].at == Periodic(w.app.pending.value + Seconds(n), w.app.config.interval, i - |w.mac|)
  {
    FireWithOffset(w, n, first);
    SteadyRunFrom(w.mac, w.app.pending.value, w.app.pending.value + Seconds(n), Fire(w, first), rest);
  }

  // ---------------------------------------------------------------------
  // Scenarios

  /** Base size 10, interval 10s, initial delay 1s, the record reading `"0"`:
      started at 0s, the first three packets go at 1s, 11s and 21s, each of 10
      bytes, and the next is due at 31s, after a 25s horizon. */
  lemma DefaultsArePeriodic(id: Uint32, draws: seq<Uint32>)
    requires |draws| == 3
    ensures var w := Run(StartApp(Boot(Node(id, true), CorrectedCreatedConfig(), InitOffset(map[], id), 0)), draws);
            && w.mac == [Sent(Seconds(1), 10), Sent(Seconds(11), 10), Sent(Seconds(21), 10)]
            && w.app.pending == Some(Seconds(31))
  {
    var w0 := StartApp(Boot(Node(id, true), CorrectedCreatedConfig(), InitOffset(map[], id), 0));
    SteadyRun(w0, draws);
    assert Periodic(Seconds(1), Seconds(10), 1) == Seconds(11);
    assert Periodic(Seconds(1), Seconds(10), 2) == Seconds(21) by {
      assert Periodic(Seconds(11), Seconds(10), 1) == Seconds(21);
    }
    assert Periodic(Seconds(1), Seconds(10), 3) == Seconds(31) by {
      assert Periodic(Seconds(11), Seconds(10), 2) == Seconds(31) by {
        assert Periodic(Seconds(21), Seconds(10), 1) == Seconds(31);
      }
    }
  }

  /** As above, but the record holds `3` when the 1s cycle runs: that cycle
      resets it to `"0"` and schedules the next packet at 1 + 3 + 10 = 14s. */
  lemma OffsetThreeDelaysSecondPacket(id: Uint32, draws: seq<Uint32>)
    requires |draws| == 2
    ensures var w := Run(StartApp(Boot(Node(id, true), CorrectedCreatedConfig(), SeedOffset(map[], id, 3), 0)), draws);
            && |w.mac| == 2
            && w.mac[0].at == Seconds(1) && w.mac[1].at == Seconds(14)
            && ReadOffset(w.store, id) == "0"
  {
    var w0 := StartApp(Boot(Node(id, true), CorrectedCreatedConfig(), SeedOffset(map[], id, 3), 0));
    assert ReadOffset(w0.store, id) == FormatNat(3) != "0";
    RunStep(w0, draws);
    OffsetShiftsOnce(w0, 3, draws[0], draws[1..]);
    assert Periodic(Seconds(4), Seconds(10), 1) == Seconds(14);
  }

  /** An instance created through the object factory with no `Interval` set
      runs with a zero interval: after the first packet at 1s, every later
      one is scheduled at the same instant, so simulated time never passes
      1s while packets keep being sent. */
  lemma ZeroIntervalStorm(id: Uint32, draws: seq<Uint32>)
    ensures var w := Run(StartApp(Boot(Node(id, true), CreatedConfig(), InitOffset(map[], id), 0)), draws);
            && |w.mac| == |draws|
            && (forall k :: 0 <= k < |draws| ==> w.mac[k] == Sent(Seconds(1), 10))
            && w.app.pending == Some(Seconds(1))
  {
    var w0 := StartApp(Boot(Node(id, true), CreatedConfig(), InitOffset(map[], id), 0));
    SteadyRun(w0, draws);
    forall k | 0 <= k <= |draws|
      ensures Periodic(Seconds(1), 0, k) == Seconds(1)
    {
      PeriodicClosedForm(Seconds(1), 0, k);
    }
  }

  /** Starting on a node whose device yields no MAC aborts the run before
      anything is scheduled. */
  lemma StartWithoutMacAborts(id: Uint32, config: Config, store: Store, draws: seq<Uint32>)
    ensures var w := Run(StartApp(Boot(Node(id, false), config, store, 0)), draws);
            && w.fault == Some(NoMac) && w.mac == []
  {
    IdleRunIsSilent(StartApp(Boot(Node(id, false), config, store, 0)), draws);
  }
}
