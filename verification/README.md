# CustomPeriodicSender, modelled in Dafny

This project models `CustomPeriodicSender`, the LoRaWAN end-device application
of the ns-3 `lorawan` module. The application sends packets periodically. Each
send cycle:

1. builds a packet whose size is a base size plus an optional random
   contribution, and hands it to the MAC;
2. reads a per-node offset record and resets the record to `0` when the word
   read was not `0`;
3. reschedules itself after the offset read (in seconds) plus the configured
   interval.

The model is functional:

- **Sender record.** An immutable `Sender` record holds the configuration,
  whether a MAC is bound, and the due time of the one pending send event. The
  pending event is an `Option`, so a sender holds at most one pending event by
  construction.
- **Offset store.** The per-node offset files are a `map<nat, string>` from
  node id to record content.
- **Time.** Simulated time is an integer count of nanosecond ticks.
- **Random draws.** The packet-size random variable is a `uint32` draw the
  caller supplies.

The files:

- `types.dfy` (module `Types`): the fixed-width integers, time and whole
  seconds, `Option`, `Result`, and the faults that abort a run.
- `offset_store.dfy` (module `OffsetStore`): reading and initialising a record,
  and parsing the offset word. Reading takes the first whitespace-delimited
  word, as formatted stream extraction does. Initialising writes `0` and a
  newline.
- `sender.dfy` (module `PeriodicSender`): configuration, constructor defaults
  and setters, packet size, `StartApplication`, `StopApplication`, and the
  send cycle `SendPacket`.
- `simulation.dfy` (module `Simulation`): the application inside a simulated
  world. The world holds the clock, the node, the application, the records,
  the log of packets handed to the MAC, and a fault that aborted the run.
  `Fire` runs the pending event and `Run` fires one event per supplied draw.
  The multi-cycle properties and the concrete scenarios live here.

Faults model what aborts the simulation process in ns-3's
`CustomPeriodicSender`:

- `NoMac`: the assertion that a MAC was found.
- `NegativeDelay`: the clock's refusal to schedule in the past.
- `OffsetMissing`: the exception the text-to-number conversion throws on the
  empty word.
- `OffsetUnsupported`: any other word that is not a decimal digit string. This
  covers the words the conversion throws on, and also words it accepts, such
  as `1.5`, `-2` or `5s`, on which ns-3 keeps running; see "## Left out".

A failed cycle has already sent its packet and reset its record before the
fault, and nothing fires after it.

## Model

| member | source | states |
|---|---|---|
| OffsetStore.FirstWord | model/custom-periodic-sender.cc:205-208 | extraction skips leading whitespace and yields a word free of whitespace, empty exactly when the record holds only whitespace |
| OffsetStore.ReadOffset | model/custom-periodic-sender.cc:199-209 | a node without a record reads the empty string; a node with one reads a whitespace-free word, empty exactly when the record is blank |
| OffsetStore.InitOffset | model/custom-periodic-sender.cc:187-197 | afterwards the node's record reads `"0"`, it exists even if it did not before, and every other node's record is unchanged |
| OffsetStore.FirstWordOf | model/custom-periodic-sender.cc:205-208 | for content made of a blank run, a non-empty word and anything starting with whitespace (or nothing), extraction yields exactly that word: the first whitespace-delimited word of the record |
| OffsetStore.ReadOffsetOf | model/custom-periodic-sender.cc:199-209 | reading a node's record yields the first whitespace-delimited word of its content, whatever blanks precede it and whatever follows it |
| OffsetStore.WordRoundTrip | model/custom-periodic-sender.cc:194-207 | a record written as one word plus a newline reads back as exactly that word |
| OffsetStore.ParseOffset | model/custom-periodic-sender.cc:143 | the empty word fails as a missing number; parsing succeeds exactly on non-empty digit strings; any other word fails carrying the text |
| OffsetStore.LeadingZeroIgnored | model/custom-periodic-sender.cc:143 | a leading zero does not change the value of a digit string, and keeps it a digit string |
| OffsetStore.LeadingZeroParse | model/custom-periodic-sender.cc:143 | a zero-padded word parses exactly when the unpadded one does, to the same number of seconds (`03` reads as 3) |
| OffsetStore.ParseFormatRoundTrip | model/custom-periodic-sender.cc:143 | the decimal text of any whole number of seconds parses back to that number |
| OffsetStore.FormatParseRoundTrip | model/custom-periodic-sender.cc:143 | a canonical digit string (no leading zero unless it is `0`) is the decimal text of the number it parses to |
| PeriodicSender.ConstructorConfig | model/custom-periodic-sender.cc:68-72 | the constructor's interval is 10s, initial delay 1s, base size 10, and no random variable |
| PeriodicSender.CreatedConfig | model/custom-periodic-sender.cc:56-60 | an instance created through the object factory has interval 0, unlike the constructor's 10s; the other members are the constructor's (as written; see Findings) |
| PeriodicSender.CorrectedCreatedConfig | model/custom-periodic-sender.cc:56-60 | with the attribute's initial value agreeing with the constructor, factory creation yields exactly the constructor's configuration, with a positive interval |
| PeriodicSender.SetInterval | model/custom-periodic-sender.cc:83-88 | sets the interval and leaves delay, base size and random variable as they were |
| PeriodicSender.IntervalRoundTrip | model/custom-periodic-sender.cc:83-95 | the getter returns the last value set, and setting the current value changes nothing |
| PeriodicSender.SetInitialDelay | model/custom-periodic-sender.cc:97-102 | sets the initial delay and nothing else |
| PeriodicSender.SetPacketSizeRandomVariable | model/custom-periodic-sender.cc:105-109 | sets the random variable and nothing else |
| PeriodicSender.SetPacketSize | model/custom-periodic-sender.cc:112-116 | sets the base size (0..255) and nothing else |
| PeriodicSender.PacketSize | model/custom-periodic-sender.cc:125-134 | without a random variable the size is the base; with one it is base plus draw, wrapping to a smaller size when the sum exceeds 32 bits |
| PeriodicSender.NoVariableIsZeroDraw | model/custom-periodic-sender.cc:126-134 | having no random variable gives the same size as a random variable drawing 0 |
| PeriodicSender.Schedule | model/custom-periodic-sender.cc:147-149 | scheduling succeeds exactly for a non-negative delay, at `now` plus that delay; a negative delay is a fault |
| PeriodicSender.Start | model/custom-periodic-sender.cc:155-178 | without a bound MAC and no device MAC, start fails; otherwise it succeeds exactly when the initial delay is non-negative (a negative one is the clock's fault), binds the MAC, keeps the configuration, and leaves one event pending at `now + initialDelay` |
| PeriodicSender.StartKeepsBoundMac | model/custom-periodic-sender.cc:159-167 | once a MAC is bound, the node's devices are not consulted again |
| PeriodicSender.StartTwice | model/custom-periodic-sender.cc:172-176 | starting a started sender at the same instant leaves the same single pending event |
| PeriodicSender.Stop | model/custom-periodic-sender.cc:180-185 | afterwards nothing is pending, the configuration and MAC are kept, and stopping a stopped sender changes nothing |
| PeriodicSender.SendCycle | model/custom-periodic-sender.cc:120-152 | the packet size follows the configuration; a `"0"` word leaves the records untouched, any other word leaves the node's record reading `"0"`; other nodes' records never change; the next event is `offset + interval` after `now` using the word read before the reset, or the parse or scheduling fault |
| PeriodicSender.SteadyCycle | model/custom-periodic-sender.cc:138-148 | with the record reading `"0"` the next send is exactly one interval later and the records are untouched |
| PeriodicSender.OffsetCycle | model/custom-periodic-sender.cc:138-148 | a word reading `n` seconds delays the next send by `n` seconds plus the interval, although the same cycle reset the record to `"0"` |
| PeriodicSender.OffsetConsumedOnce | model/custom-periodic-sender.cc:137-149 | the cycle after the one that found `n` seconds comes one plain interval later: the offset is applied once |
| PeriodicSender.MissingRecordFails | model/custom-periodic-sender.cc:137-143 | for a node without a record the cycle still builds its packet and creates the record reading `"0"`, then fails on the empty word |
| Simulation.StartApp | model/custom-periodic-sender.cc:155-178 | a failed start, for lack of a MAC or for a negative initial delay, aborts the run with that fault and nothing pending; a successful one leaves the first send pending at `now + initialDelay`; the log, records and clock are untouched |
| Simulation.Advance | model/custom-periodic-sender.cc:172-176 | time can pass idly up to the pending event, if any, keeping the application, records, log and fault, and the world stays consistent |
| Simulation.RestartLater | model/custom-periodic-sender.cc:172-176 | stopping and starting again at a later instant leaves exactly one event pending, the initial delay after the restart, with no packet sent in between |
| Simulation.StopApp | model/custom-periodic-sender.cc:180-185 | afterwards nothing is pending; the log, records, clock and configuration are untouched |
| Simulation.Fire | model/custom-periodic-sender.cc:120-152 | firing the pending event advances the clock to its due time and appends exactly one packet of the configured size; the run goes on exactly when no fault occurred; with nothing pending nothing changes; the log stays in time order |
| Simulation.Run | model/custom-periodic-sender.cc:147-149 | a run keeps the node and configuration, never moves the clock back, keeps the earlier log as a prefix, and adds at most one packet per event |
| Simulation.FireRunning | model/custom-periodic-sender.cc:120-152 | a fired event's clock, records and logged packet are those of the send cycle, and the cycle's outcome decides between the next pending event and an aborted run |
| Simulation.IdleRunIsSilent | model/custom-periodic-sender.cc:180-185 | with nothing pending, a run of any length changes nothing |
| Simulation.StopSilences | model/custom-periodic-sender.cc:180-185 | after a stop, no packet is sent until the next start |
| Simulation.StartAppTwice | model/custom-periodic-sender.cc:172-176 | starting a running application again at the same instant leaves it exactly as one start does |
| Simulation.SendPrecedesOffsetFailure | model/custom-periodic-sender.cc:135-143 | when the offset word cannot be parsed, the cycle's packet is still logged and the record is reset before the run aborts with that parse fault |
| Simulation.FireSteady | model/custom-periodic-sender.cc:138-148 | with the record reading `"0"` a fired cycle logs its packet, schedules the next one interval later and leaves the records as they were |
| Simulation.SteadyRun | model/custom-periodic-sender.cc:138-149 | while the record reads `"0"`, every event sends one packet, the k-th at the k-th period after the first due time and sized by its own draw; the records are never written and no fault occurs |
| Simulation.FireWithOffset | model/custom-periodic-sender.cc:138-149 | a fired cycle that finds `n` seconds logs its packet at its due time, resets the record and schedules the next send `n` seconds plus one interval later |
| Simulation.SteadyRunFrom | model/custom-periodic-sender.cc:138-149 | a steady run continuing from a schedule whose next event is one interval after `start` sends every later packet at its period after `start`, keeps the packet already logged, and leaves the record reading `"0"` |
| Simulation.OffsetShiftsOnce | model/custom-periodic-sender.cc:137-149 | an offset of `n` seconds shifts the whole later schedule by `n` seconds once: the cycle that finds it sends on time, and the k-th packet after it goes at the k-th period after `due + n` seconds |
| Simulation.DefaultsArePeriodic | model/custom-periodic-sender.cc:68-72 | with the constructor's defaults and a record reading `0`, started at 0s, packets of 10 bytes go at 1s, 11s and 21s and the next is due at 31s |
| Simulation.OffsetThreeDelaysSecondPacket | model/custom-periodic-sender.cc:137-149 | with the record holding `3`, the packets go at 1s and 14s and the record then reads `"0"` |
| Simulation.ZeroIntervalStorm | model/custom-periodic-sender.cc:56-60 | with the factory-created configuration, every packet of a run of any length is sent at 1s and the next is still due at 1s (as written; see Findings) |
| Simulation.StartWithoutMacAborts | model/custom-periodic-sender.cc:159-167 | on a node whose device yields no MAC, the run aborts with `NoMac` and sends nothing |

## Left out

- File I/O is not modelled: the `offset/<id>.txt` paths and the working-directory helper are replaced by the in-memory store. A record that cannot be opened reads like an absent one. A write that fails, for example because the `offset` directory is missing, is not modelled: `InitOffset` always succeeds.
- OffsetStore.ParseOffset: accepts only non-empty decimal digit strings, a narrower set than the C library's text-to-double conversion. That conversion also takes signs, fractions, exponents and trailing text after a leading number. Offsets are modelled as whole seconds, not floating point.
- PeriodicSender.SendCycle: requires a bound MAC. `SendPacket` dereferences its MAC pointer without a check, and only `StartApplication`, which binds the MAC first, schedules the first cycle. A cycle without a MAC is therefore left out.
- PeriodicSender.PacketSize: takes the random variable's draw as an arbitrary `uint32` input; the distribution of the draws is left out. For draws in [2^31 - base, 2^31) the `int` addition in the source overflows, which C++ leaves undefined; the model takes the two's-complement result, (base + draw) mod 2^32.
- Simulation.Run: fires one event per supplied draw, so the simulation's stop time and event-queue ordering are left out. The signed 64-bit range of the simulator's time is left out too, because time is an unbounded integer.
- The MAC is a log of (time, size) pairs; what the MAC does with a packet is left out.
- Logging, type and attribute registration (apart from the `Interval` initial value), and event ids are left out.
- Assertions that a release build compiles out are modelled as always active: the MAC assertion in `StartApplication` (fault `NoMac`) and the simulator's check that an event is not scheduled with a negative delay (fault `NegativeDelay`).
- `test/network-server-test-suite.cc` is an end-to-end topology test and is not part of this model.

## Findings

| source | as written | input that shows it | evidently intended | confidence | as-written member | corrected member |
|---|---|---|---|---|---|---|
| model/custom-periodic-sender.cc:57 | the `Interval` attribute is registered with initial value 0s. The object factory applies it after the constructor's 10s (lines 68-72), so an instance created without setting `Interval` has a zero interval | create the application through the object factory without setting `Interval`, then start it on a node whose record reads `0`: every packet goes at 1s and simulated time never advances | the attribute's initial value agrees with the constructor's 10s, giving packets 10s apart | medium, not executed | Simulation.ZeroIntervalStorm | Simulation.DefaultsArePeriodic |
