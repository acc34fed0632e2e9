/** Discovery and expiry of NIIMBOT printers: the poll cycle of internal/printer/niimbot.go. */
module Discovery {
  import opened Bytes
  import opened PrintWorker

  const SERIAL_PREFIX := "serial:"

  /** serialPath is empty for a Bluetooth device. */
  datatype Device = Device(address: string, serialPath: string, missed: nat, status: Status, lastCheck: int) {
    predicate Bluetooth() { serialPath == "" }
  }

  /** What identifying a device yields: its printer ID and status. */
  datatype Identity = Identity(id: string, status: Status)

  datatype Event = Connected(id: string) | Disconnected(id: string) | StatusChanged(id: string, status: Status)

  type Devices = map<string, Device>

  function SerialPath(address: string): string {
    if SERIAL_PREFIX <= address then address[|SERIAL_PREFIX|..] else ""
  }

  predicate KnownAt(devices: Devices, address: string) {
    exists id :: id in devices && devices[id].address == address
  }

  // ---- One poll as a function ----

  /** A device probed in a poll, and what connecting to it and identifying it would yield. */
  datatype Sighting = Sighting(address: string, ident: Option<Identity>)

  /** The state of a poll's first half. */
  datatype Scan = Scan(devices: Devices, events: seq<Event>, seen: set<string>)

  /** An advertised address counts as seen at once; a serial port only when it is known or identified. */
  function Sight(s: Scan, sighting: Sighting, advertised: bool, now: int): Scan {
    var known := KnownAt(s.devices, sighting.address);
    var seen := if advertised || known || sighting.ident.Some? then s.seen + {sighting.address} else s.seen;
    if known || sighting.ident.None? then s.(seen := seen)
    else
      var ident := sighting.ident.value;
      var d := Device(sighting.address, SerialPath(sighting.address), 0, ident.status, now);
      Scan(s.devices[ident.id := d], s.events + [Connected(ident.id)], seen)
  }

  /**
   * What one probe does. An advertised address counts as seen whatever comes of it, a serial port only if a known
   * device sits there or one is identified. An address of a known device is left alone; otherwise an identified
   * device becomes known there, replacing any record of its ID, and is reported connected.
   */
  lemma ProbeOutcome(s: Scan, a: string, ident: Option<Identity>, advertised: bool, now: int)
    ensures var known := exists id :: id in s.devices && s.devices[id].address == a;
            var t := Sight(s, Sighting(a, ident), advertised, now);
            && t.seen == (if advertised || known || ident.Some? then s.seen + {a} else s.seen)
            && (known || ident.None? ==> t.devices == s.devices && t.events == s.events)
            && (!known && ident.Some? ==>
                  && t.devices.Keys == s.devices.Keys + {ident.value.id}
                  && t.events == s.events + [Connected(ident.value.id)]
                  && (forall id :: id in s.devices && id != ident.value.id ==> t.devices[id] == s.devices[id])
                  && var d := t.devices[ident.value.id];
                     d.address == a && d.missed == 0 && d.status == ident.value.status && d.lastCheck == now
                     && forall path :: path != "" ==> (d.serialPath == path <==> a == "serial:" + path))
  {
    forall path | path != ""
      ensures SerialPath(a) == path <==> a == "serial:" + path
    {
      PortOf(a, path);
    }
  }

  lemma PortOf(a: string, path: string)
    requires path != ""
    ensures SerialPath(a) == path <==> a == "serial:" + path
  {
    if SerialPath(a) == path {
      assert a == a[..|SERIAL_PREFIX|] + a[|SERIAL_PREFIX|..];
    }
  }

  function SightAll(s: Scan, sightings: seq<Sighting>, advertised: bool, now: int): Scan {
    if sightings == [] then s
    else Sight(SightAll(s, sightings[..|sightings| - 1], advertised, now), sightings[|sightings| - 1], advertised, now)
  }

  /** A device after a poll in which the given addresses were seen. */
  function Counted(d: Device, seen: set<string>): Device {
    if d.address in seen then d.(missed := 0)
    else if d.Bluetooth() then d.(missed := d.missed + 1)
    else d
  }

  function Expired(devices: Devices, seen: set<string>, max: nat): Devices {
    map id | id in devices && Counted(devices[id], seen).missed < max :: Counted(devices[id], seen)
  }

  /** What a poll meets: its serial ports, its advertisements, and the clock. */
  datatype Round = Round(serial: seq<Sighting>, advertised: seq<Sighting>, now: int)

  function Scanned(devices: Devices, events: seq<Event>, r: Round): Scan {
    SightAll(SightAll(Scan(devices, events, {}), r.serial, false, r.now), r.advertised, true, r.now)
  }

  function AfterRound(devices: Devices, r: Round, max: nat): Devices {
    var s := Scanned(devices, [], r);
    Expired(s.devices, s.seen, max)
  }

  function AfterRounds(devices: Devices, rounds: seq<Round>, max: nat): Devices {
    if rounds == [] then devices
    else AfterRound(AfterRounds(devices, rounds[..|rounds| - 1], max), rounds[|rounds| - 1], max)
  }

  ghost predicate Mentions(sightings: seq<Sighting>, address: string) {
    exists i :: 0 <= i < |sightings| && sightings[i].address == address
  }

  ghost predicate Identifies(sightings: seq<Sighting>, id: string) {
    exists i :: 0 <= i < |sightings| && sightings[i].ident.Some? && sightings[i].ident.value.id == id
  }

  lemma {:induction false} SightAllLeaves(s: Scan, sightings: seq<Sighting>, advertised: bool, now: int, id: string,
                                          address: string)
    requires !Identifies(sightings, id)
    ensures var t := SightAll(s, sightings, advertised, now);
            && (id in t.devices <==> id in s.devices) && (id in s.devices ==> t.devices[id] == s.devices[id])
            && (!Mentions(sightings, address) ==> (address in t.seen <==> address in s.seen))
  {
    if sightings != [] {
      var init, last := sightings[..|sightings| - 1], sightings[|sightings| - 1];
      assert forall i :: 0 <= i < |init| ==> init[i] == sightings[i];
      assert !Mentions(sightings, address) ==> last.address != address && !Mentions(init, address);
      SightAllLeaves(s, init, advertised, now, id, address);
    }
  }

  lemma {:induction false} AfterRoundsJoin(devices: Devices, a: seq<Round>, b: seq<Round>, max: nat)
    ensures AfterRounds(AfterRounds(devices, a, max), b, max) == AfterRounds(devices, a + b, max)
  {
    hide AfterRound;
    if b == [] {
      assert a + b == a;
    } else {
      var init := b[..|b| - 1];
      assert (a + b)[..|a + b| - 1] == a + init;
      AfterRoundsJoin(devices, a, init, max);
    }
  }

  /** No round probes the address or identifies the printer. */
  ghost predicate Silent(rounds: seq<Round>, id: string, address: string) {
    forall i :: 0 <= i < |rounds| ==>
      && !Mentions(rounds[i].serial, address) && !Identifies(rounds[i].serial, id)
      && !Mentions(rounds[i].advertised, address) && !Identifies(rounds[i].advertised, id)
  }

  lemma SilentRound(devices: Devices, id: string, r: Round, max: nat)
    requires id in devices && Silent([r], id, devices[id].address)
    ensures var d := if devices[id].Bluetooth() then devices[id].(missed := devices[id].missed + 1) else devices[id];
            && (id in AfterRound(devices, r, max) <==> d.missed < max)
            && (d.missed < max ==> AfterRound(devices, r, max)[id] == d)
  {
    hide Mentions, Identifies, SightAll;
    assert [r][0] == r;
    var start := Scan(devices, [], {});
    SightAllLeaves(start, r.serial, false, r.now, id, devices[id].address);
    SightAllLeaves(SightAll(start, r.serial, false, r.now), r.advertised, true, r.now, id, devices[id].address);
  }

  lemma {:induction false} UnknownStaysUnknown(devices: Devices, id: string, rounds: seq<Round>, max: nat)
    requires id !in devices
    requires forall i :: 0 <= i < |rounds| ==>
      !Identifies(rounds[i].serial, id) && !Identifies(rounds[i].advertised, id)
    ensures id !in AfterRounds(devices, rounds, max)
  {
    hide Identifies;
    if rounds != [] {
      var init, r := rounds[..|rounds| - 1], rounds[|rounds| - 1];
      UnknownStaysUnknown(devices, id, init, max);
      var start := Scan(AfterRounds(devices, init, max), [], {});
      SightAllLeaves(start, r.serial, false, r.now, id, "");
      SightAllLeaves(SightAll(start, r.serial, false, r.now), r.advertised, true, r.now, id, "");
    }
  }

  /** A Bluetooth device that stays away is dropped exactly at its `max`-th consecutive absent poll. */
  lemma {:induction false} AbsentDeviceExpires(devices: Devices, id: string, rounds: seq<Round>, max: nat)
    requires id in devices && devices[id].Bluetooth() && devices[id].missed < max
    requires Silent(rounds, id, devices[id].address)
    ensures id in AfterRounds(devices, rounds, max) <==> devices[id].missed + |rounds| < max
    ensures id in AfterRounds(devices, rounds, max) ==>
      AfterRounds(devices, rounds, max)[id] == devices[id].(missed := devices[id].missed + |rounds|)
  {
    hide Mentions, Identifies, AfterRound;
    if rounds != [] {
      var init, r := rounds[..|rounds| - 1], rounds[|rounds| - 1];
      AbsentDeviceExpires(devices, id, init, max);
      if id in AfterRounds(devices, init, max) {
        SilentRound(AfterRounds(devices, init, max), id, r, max);
      } else {
        UnknownStaysUnknown(AfterRounds(devices, init, max), id, [r], max);
        AfterOneRound(AfterRounds(devices, init, max), r, max);
      }
    }
  }

  lemma AfterOneRound(devices: Devices, r: Round, max: nat)
    ensures AfterRounds(devices, [r], max) == AfterRound(devices, r, max)
  {
    assert [r][..0] == [];
    assert AfterRounds(devices, [], max) == devices;
  }

  // ---- Devices on serial ports ----

  /** Some sighting identifies the printer at an address that is not a serial port. */
  ghost predicate IdentifiesByRadio(sightings: seq<Sighting>, id: string) {
    exists i :: 0 <= i < |sightings| && sightings[i].ident.Some? && sightings[i].ident.value.id == id
                && SerialPath(sightings[i].address) == ""
  }

  ghost predicate Wired(devices: Devices, id: string) {
    id in devices && !devices[id].Bluetooth() && devices[id].missed == 0
  }

  lemma {:induction false} SightAllKeepsWired(s: Scan, sightings: seq<Sighting>, advertised: bool, now: int, id: string)
    requires Wired(s.devices, id) && !IdentifiesByRadio(sightings, id)
    ensures Wired(SightAll(s, sightings, advertised, now).devices, id)
  {
    hide KnownAt, SerialPath;
    if sightings != [] {
      var init, last := sightings[..|sightings| - 1], sightings[|sightings| - 1];
      assert forall i :: 0 <= i < |init| ==> init[i] == sightings[i];
      SightAllKeepsWired(s, init, advertised, now, id);
      assert last.ident.Some? && last.ident.value.id == id ==> SerialPath(last.address) != "";
    }
  }

  /**
   * A printer known on a serial port stays known, on a serial port, until a poll identifies it over Bluetooth:
   * whatever the serial ports answer, and however long they do not.
   */
  lemma {:induction false} SerialDeviceStays(devices: Devices, id: string, rounds: seq<Round>, max: nat)
    requires Wired(devices, id) && max >= 1
    requires forall i :: 0 <= i < |rounds| ==>
      !IdentifiesByRadio(rounds[i].serial, id) && !IdentifiesByRadio(rounds[i].advertised, id)
    ensures Wired(AfterRounds(devices, rounds, max), id)
  {
    hide IdentifiesByRadio, SightAll;
    if rounds != [] {
      var init, r := rounds[..|rounds| - 1], rounds[|rounds| - 1];
      SerialDeviceStays(devices, id, init, max);
      var start := Scan(AfterRounds(devices, init, max), [], {});
      SightAllKeepsWired(start, r.serial, false, r.now, id);
      SightAllKeepsWired(SightAll(start, r.serial, false, r.now), r.advertised, true, r.now, id);
    }
  }

  /** A poll that finds nothing. */
  const NOTHING := Round([], [], 0)

  lemma NothingIsSilent(n: nat, id: string, address: string)
    ensures Silent(seq(n, _ => NOTHING), id, address)
  {
  }

  /** A known printer survives every silence exactly when its record is of a serial port. */
  lemma SurvivesSilenceExactly(devices: Devices, id: string, max: nat)
    requires id in devices && devices[id].missed < max && (!devices[id].Bluetooth() ==> devices[id].missed == 0)
    ensures (forall rounds :: Silent(rounds, id, devices[id].address) ==> id in AfterRounds(devices, rounds, max))
      <==> !devices[id].Bluetooth()
  {
    hide AfterRounds, Mentions, Identifies;
    if devices[id].Bluetooth() {
      var rounds := seq(max, _ => NOTHING);
      NothingIsSilent(max, id, devices[id].address);
      AbsentDeviceExpires(devices, id, rounds, max);
      assert Silent(rounds, id, devices[id].address) && id !in AfterRounds(devices, rounds, max);
    } else {
      forall rounds | Silent(rounds, id, devices[id].address)
        ensures id in AfterRounds(devices, rounds, max)
      {
        SilentIsNotRadio(rounds, id, devices[id].address);
        SerialDeviceStays(devices, id, rounds, max);
      }
    }
  }

  lemma SilentIsNotRadio(rounds: seq<Round>, id: string, address: string)
    requires Silent(rounds, id, address)
    ensures forall i :: 0 <= i < |rounds| ==>
      !IdentifiesByRadio(rounds[i].serial, id) && !IdentifiesByRadio(rounds[i].advertised, id)
  {
    hide Mentions, SerialPath;
  }

  const AT_PORT := Device("serial:x", "x", 0, Ready, 0)

  /** The same printer advertises itself, and its port is asked nothing because it is known. */
  const ADVERTISED := Round([Sighting("serial:x", None)], [Sighting("AA", Some(Identity("p", Ready)))], 0)

  /** The port does not answer, and nothing is advertised. */
  const UNPLUGGED := Round([Sighting("serial:x", None)], [], 0)

  lemma UnpluggedIsSilent(n: nat)
    ensures Silent(seq(n, _ => UNPLUGGED), "p", "AA")
  {
    assert "serial:x" != "AA" by {
      assert |"serial:x"| != |"AA"|;
    }
  }

  /** A Bluetooth identification overwrites the record of the serial port, and then silence drops the printer. */
  lemma SerialDeviceCanBeDropped(max: nat)
    requires max >= 1
    ensures var devices := map["p" := AT_PORT];
            && Wired(devices, "p")
            && "p" !in AfterRounds(devices, [ADVERTISED] + seq(max, _ => UNPLUGGED), max)
  {
    hide AfterRound, AfterRounds, Mentions, Identifies;
    var devices, rounds := map["p" := AT_PORT], seq(max, _ => UNPLUGGED);
    assert SerialPath("serial:x") == "x";
    var after := AfterRounds(devices, [ADVERTISED], max);
    OverwrittenByRadio(max);
    UnpluggedIsSilent(max);
    AbsentDeviceExpires(after, "p", rounds, max);
    AfterRoundsJoin(devices, [ADVERTISED], rounds, max);
  }

  lemma OverwrittenByRadio(max: nat)
    requires max >= 1
    ensures AfterRounds(map["p" := AT_PORT], [ADVERTISED], max) == map["p" := Device("AA", "", 0, Ready, 0)]
  {
    var devices := map["p" := AT_PORT];
    AfterOneRound(devices, ADVERTISED, max);
    var start := Scan(devices, [], {});
    OneSighting(start, Sighting("serial:x", None), false, 0);
    var s := SightAll(start, ADVERTISED.serial, false, 0);
    OneSighting(s, Sighting("AA", Some(Identity("p", Ready))), true, 0);
    assert KnownAt(devices, "serial:x") by {
      assert devices["p"].address == "serial:x";
    }
    assert !KnownAt(devices, "AA");
    assert SerialPath("AA") == "";
  }

  lemma OneSighting(s: Scan, sighting: Sighting, advertised: bool, now: int)
    ensures SightAll(s, [sighting], advertised, now) == Sight(s, sighting, advertised, now)
  {
    assert [sighting][..0] == [];
    assert SightAll(s, [], advertised, now) == s;
  }

  /** Everything but status and the time of its last check. */
  ghost predicate SameTracks(a: Devices, b: Devices) {
    && a.Keys == b.Keys
    && forall id :: id in a ==>
         a[id].address == b[id].address && a[id].serialPath == b[id].serialPath && a[id].missed == b[id].missed
  }

  lemma KnownAtIgnoresStatus(a: Devices, b: Devices, address: string)
    requires SameTracks(a, b)
    ensures KnownAt(a, address) <==> KnownAt(b, address)
  {
    if id :| id in a && a[id].address == address {
      assert b[id].address == address;
    }
    if id :| id in b && b[id].address == address {
      assert a[id].address == address;
    }
  }

  lemma SightIgnoresStatus(s: Scan, t: Scan, sighting: Sighting, advertised: bool, now: int)
    requires SameTracks(s.devices, t.devices) && s.seen == t.seen
    ensures var s', t' := Sight(s, sighting, advertised, now), Sight(t, sighting, advertised, now);
            SameTracks(s'.devices, t'.devices) && s'.seen == t'.seen
  {
    hide KnownAt, SerialPath;
    KnownAtIgnoresStatus(s.devices, t.devices, sighting.address);
  }

  lemma {:induction false} SightingsIgnoreStatus(s: Scan, t: Scan, sightings: seq<Sighting>, advertised: bool, now: int)
    requires SameTracks(s.devices, t.devices) && s.seen == t.seen
    ensures var s', t' := SightAll(s, sightings, advertised, now), SightAll(t, sightings, advertised, now);
            SameTracks(s'.devices, t'.devices) && s'.seen == t'.seen
  {
    if sightings != [] {
      var init, last := sightings[..|sightings| - 1], sightings[|sightings| - 1];
      hide SameTracks, Sight;
      SightingsIgnoreStatus(s, t, init, advertised, now);
      SightIgnoresStatus(SightAll(s, init, advertised, now), SightAll(t, init, advertised, now), last, advertised, now);
    }
  }

  /** Who stays and for how long does not depend on cached statuses, nor on the events so far. */
  lemma RoundIgnoresStatus(a: Devices, b: Devices, events: seq<Event>, r: Round, max: nat)
    requires SameTracks(a, b)
    ensures var s := Scanned(a, events, r); SameTracks(Expired(s.devices, s.seen, max), AfterRound(b, r, max))
  {
    var s, t := Scan(a, events, {}), Scan(b, [], {});
    SightingsIgnoreStatus(s, t, r.serial, false, r.now);
    SightingsIgnoreStatus(SightAll(s, r.serial, false, r.now), SightAll(t, r.serial, false, r.now), r.advertised,
                          true, r.now);
  }

  // ---- Histories ----

  function Heard(believed: set<string>, e: Event): set<string> {
    match e
    case Connected(id) => believed + {id}
    case Disconnected(id) => believed - {id}
    case StatusChanged(_, _) => believed
  }

  /** The printers a listener believes connected after a list of events. */
  function Replay(events: seq<Event>): set<string> {
    if events == [] then {} else Heard(Replay(events[..|events| - 1]), events[|events| - 1])
  }

  lemma ReplayOne(events: seq<Event>, e: Event)
    ensures Replay(events + [e]) == Heard(Replay(events), e)
  {
    assert (events + [e])[..|events|] == events;
  }

  lemma SightReplays(s: Scan, sighting: Sighting, advertised: bool, now: int)
    requires Replay(s.events) == s.devices.Keys
    ensures var t := Sight(s, sighting, advertised, now); Replay(t.events) == t.devices.Keys
  {
    hide KnownAt, SerialPath, Replay;
    if sighting.ident.Some? {
      ReplayOne(s.events, Connected(sighting.ident.value.id));
    }
  }

  lemma {:induction false} SightingsReplay(s: Scan, sightings: seq<Sighting>, advertised: bool, now: int)
    requires Replay(s.events) == s.devices.Keys
    ensures var t := SightAll(s, sightings, advertised, now); Replay(t.events) == t.devices.Keys
  {
    hide Sight, Replay;
    if sightings != [] {
      var init := sightings[..|sightings| - 1];
      SightingsReplay(s, init, advertised, now);
      SightReplays(SightAll(s, init, advertised, now), sightings[|sightings| - 1], advertised, now);
    }
  }

  /** Scanning only adds devices it has just seen. */
  ghost predicate FreshOrOld(devices: Devices, s: Scan) {
    && devices.Keys <= s.devices.Keys
    && forall id :: id in s.devices ==>
         || (id in devices && s.devices[id] == devices[id])
         || (s.devices[id].missed == 0 && s.devices[id].address in s.seen)
  }

  lemma {:induction false} SightingsAreFresh(devices: Devices, s: Scan, sightings: seq<Sighting>, advertised: bool,
                                             now: int)
    requires FreshOrOld(devices, s)
    ensures FreshOrOld(devices, SightAll(s, sightings, advertised, now))
  {
    if sightings != [] {
      SightingsAreFresh(devices, s, sightings[..|sightings| - 1], advertised, now);
    }
  }

  /** Completed polls since the address was last seen. */
  ghost function Absences(polls: seq<set<string>>, address: string): nat {
    if polls == [] || address in polls[|polls| - 1] then 0
    else 1 + Absences(polls[..|polls| - 1], address)
  }

  /** The counters say how long each Bluetooth device has been away, and nobody has been away too long. */
  ghost predicate Tracked(devices: Devices, polls: seq<set<string>>, max: nat) {
    forall id :: id in devices ==>
      && devices[id].missed == (if devices[id].Bluetooth() then Absences(polls, devices[id].address) else 0)
      && devices[id].missed < max
  }

  /** Expiry keeps the counters right, and drops exactly the Bluetooth devices away for `max` polls. */
  lemma ExpiryTracks(devices: Devices, s: Scan, polls: seq<set<string>>, max: nat)
    requires Tracked(devices, polls, max) && FreshOrOld(devices, s) && max >= 1
    ensures Tracked(Expired(s.devices, s.seen, max), polls + [s.seen], max)
    ensures forall id :: id in s.devices ==>
      (id in Expired(s.devices, s.seen, max)
       <==> !s.devices[id].Bluetooth() || Absences(polls + [s.seen], s.devices[id].address) < max)
  {
    assert (polls + [s.seen])[..|polls|] == polls;
  }

  ghost predicate Distinct(ids: seq<string>) {
    forall i, k :: 0 <= i < k < |ids| ==> ids[i] != ids[k]
  }

  ghost function Drops(ids: seq<string>): seq<Event> {
    seq(|ids|, i requires 0 <= i < |ids| => Disconnected(ids[i]))
  }

  /** The IDs dropped by an expiry, each once, in any order. */
  ghost predicate DropList(ids: seq<string>, before: Devices, after: Devices) {
    Distinct(ids) && forall id :: id in ids <==> id in before && id !in after
  }

  // ---- The backend ----

  class Backend {
    const missedScans: nat
    const statusInterval: int
    const disableBLE: bool
    const serialPorts: seq<string>
    var devices: Devices
    var events: seq<Event>
    /** Per completed poll, the addresses it saw. */
    ghost var polls: seq<set<string>>

    ghost predicate Valid()
      reads this
    {
      && missedScans >= 1
      && Replay(events) == devices.Keys
      && Tracked(devices, polls, missedScans)
    }

    constructor (missedScans: int, statusInterval: int, disableBLE: bool, serialPorts: seq<string>)
      ensures Valid() && devices == map[] && events == [] && polls == []
      ensures this.missedScans == if missedScans <= 0 then 3 else missedScans
      ensures this.statusInterval == if statusInterval == 0 then 120_000_000_000 else statusInterval
      ensures this.disableBLE == disableBLE && this.serialPorts == serialPorts
    {
      this.missedScans := if missedScans <= 0 then 3 else missedScans;
      this.statusInterval := if statusInterval == 0 then 120_000_000_000 else statusInterval;
      this.disableBLE, this.serialPorts := disableBLE, serialPorts;
      devices, events, polls := map[], [], [];
    }

    method KnownByAddress(address: string) returns (known: bool)
      ensures known <==> KnownAt(devices, address)
    {
      known := false;
      var ids := devices.Keys;
      while ids != {}
        invariant ids <= devices.Keys
        invariant !known && forall id :: id in devices && id !in ids ==> devices[id].address != address
        decreases ids
      {
        var id :| id in ids;
        if devices[id].address == address {
          return true;
        }
        ids := ids - {id};
      }
    }

    method AddDevice(id: string, d: Device)
      modifies `devices, `events
      ensures devices == old(devices)[id := d] && events == old(events) + [Connected(id)]
    {
      devices := devices[id := d];
      events := events + [Connected(id)];
    }

    /** Updates a known device's cached status; a listener, if any, hears of a change. */
    method SetStatus(id: string, status: Status, now: int, notify: bool)
      modifies `devices, `events
      ensures SameTracks(devices, old(devices)) && Replay(events) == Replay(old(events))
      ensures id in devices ==> devices == old(devices)[id := old(devices)[id].(status := status, lastCheck := now)]
      ensures id !in devices ==> devices == old(devices)
      ensures events == if id in devices && notify && old(devices)[id].status != status
                        then old(events) + [StatusChanged(id, status)] else old(events)
    {
      if id !in devices {
        return;
      }
      var changed := devices[id].status != status;
      devices := devices[id := devices[id].(status := status, lastCheck := now)];
      if changed && notify {
        ReplayOne(events, StatusChanged(id, status));
        events := events + [StatusChanged(id, status)];
      }
    }

    /** Walks serial ports or advertisements, identifying what is not known yet. */
    method Look(sightings: seq<Sighting>, advertised: bool, now: int, already: set<string>) returns (seen: set<string>)
      modifies `devices, `events
      ensures Scan(devices, events, seen)
           == SightAll(Scan(old(devices), old(events), already), sightings, advertised, now)
    {
      seen := already;
      for i := 0 to |sightings|
        invariant Scan(devices, events, seen)
               == SightAll(Scan(old(devices), old(events), already), sightings[..i], advertised, now)
      {
        assert sightings[..i + 1][..i] == sightings[..i];
        var address, ident := sightings[i].address, sightings[i].ident;
        if advertised {
          seen := seen + {address};
        }
        var known := KnownByAddress(address);
        if known {
          seen := seen + {address};
          continue;
        }
        if ident.None? {
          continue;
        }
        seen := seen + {address};
        AddDevice(ident.value.id, Device(address, SerialPath(address), 0, ident.value.status, now));
      }
      assert sightings[..|sightings|] == sightings;
    }

    /** Counts absences, drops who has been away too long, and lists whose status is due. */
    method Expire(seen: set<string>, now: int) returns (refresh: seq<string>, ghost dropped: seq<string>)
      modifies `devices, `events
      ensures devices == Expired(old(devices), seen, missedScans)
      ensures events == old(events) + Drops(dropped) && DropList(dropped, old(devices), devices)
      ensures Replay(old(events)) == old(devices).Keys ==> Replay(events) == devices.Keys
      ensures Distinct(refresh)
      ensures forall id :: id in refresh <==>
                id in devices && statusInterval > 0 && now - devices[id].lastCheck >= statusInterval
    {
      hide Counted, ExpiryState, DropList, Replay;
      refresh, dropped := [], [];
      ghost var was := devices;
      var ids := devices.Keys;
      ExpiryStarts(was, seen, missedScans);
      while ids != {}
        invariant ExpiryState(was, devices, ids, seen, missedScans)
        invariant events == old(events) + Drops(dropped) && DropList(dropped, was, devices)
        invariant Replay(old(events)) == was.Keys ==> Replay(events) == devices.Keys
        invariant Distinct(refresh)
        invariant forall id :: id in refresh <==> id !in ids && Due(devices, id, now, statusInterval)
        decreases ids
      {
        var id :| id in ids;
        ExpiryStep(was, devices, ids, id, seen, missedScans);
        var d := Counted(devices[id], seen);
        if d.missed >= missedScans {
          ReplayOne(events, Disconnected(id));
          assert Drops(dropped + [id]) == Drops(dropped) + [Disconnected(id)];
          DropOne(dropped, was, devices, id);
          devices := devices - {id};
          events := events + [Disconnected(id)];
          dropped := dropped + [id];
        } else {
          KeepOne(dropped, was, devices, devices[id := d]);
          devices := devices[id := d];
          if statusInterval > 0 && now - d.lastCheck >= statusInterval {
            refresh := refresh + [id];
          }
        }
        ids := ids - {id};
      }
      ExpiryEnds(was, devices, seen, missedScans);
    }

    /** Asks every listed device for its status, as the last loop of poll does. */
    method Refresh(refresh: seq<string>, now: int, probe: string -> Option<Status>) returns (ghost changes: seq<Event>)
      requires Distinct(refresh) && forall i :: 0 <= i < |refresh| ==> refresh[i] in devices
      modifies `devices, `events
      ensures events == old(events) + changes && Replay(events) == Replay(old(events))
      ensures SameTracks(devices, old(devices))
      ensures RefreshState(old(devices), devices, refresh, probe, now, changes)
    {
      hide RefreshState, SameTracks, Replay, Distinct;
      ghost var was := devices;
      changes := [];
      SameAsItself(was);
      NothingRefreshed(was, probe, now);
      assert refresh[..0] == [];
      for i := 0 to |refresh|
        invariant events == old(events) + changes && Replay(events) == Replay(old(events))
        invariant SameTracks(devices, was)
        invariant RefreshState(was, devices, refresh[..i], probe, now, changes)
      {
        var status := probe(refresh[i]);
        RefreshStep(was, devices, refresh, i, probe, now, changes);
        if status.Some? {
          ghost var before := devices;
          SetStatus(refresh[i], status.value, now, true);
          SameTracksJoin(devices, before, was);
          if was[refresh[i]].status != status.value {
            changes := changes + [StatusChanged(refresh[i], status.value)];
          }
        }
      }
      assert refresh[..|refresh|] == refresh;
    }

    /**
     * One discovery cycle. It is skipped while a print holds the link. `probe` is the status each due
     * device would report, if it answers.
     */
    method Poll(linkFree: bool, r: Round, probe: string -> Option<Status>) returns (ghost dropped: seq<string>)
      requires Valid()
      requires disableBLE ==> r.advertised == []
      requires |r.serial| == |serialPorts|
               && forall i :: 0 <= i < |serialPorts| ==> r.serial[i].address == SERIAL_PREFIX + serialPorts[i]
      modifies this
      ensures Valid()
      ensures !linkFree ==> devices == old(devices) && events == old(events) && polls == old(polls)
      ensures linkFree ==>
        var s := Scanned(old(devices), old(events), r);
        && polls == old(polls) + [s.seen]
        && SameTracks(devices, AfterRound(old(devices), r, missedScans))
        && s.events + Drops(dropped) <= events && DropList(dropped, s.devices, devices)
        && forall id :: id in s.devices ==>
             (id !in devices <==> s.devices[id].Bluetooth() && Absences(polls, s.devices[id].address) >= missedScans)
      ensures linkFree ==>
        var s := Scanned(old(devices), old(events), r);
        && devices.Keys <= s.devices.Keys
        && (forall id :: id in devices ==>
              if statusInterval > 0 && r.now - s.devices[id].lastCheck >= statusInterval && probe(id).Some?
              then devices[id].status == probe(id).value && devices[id].lastCheck == r.now
              else devices[id].status == s.devices[id].status && devices[id].lastCheck == s.devices[id].lastCheck)
        && |s.events + Drops(dropped)| <= |events|
        && var changes := events[|s.events + Drops(dropped)|..];
           && events == s.events + Drops(dropped) + changes
           && (forall i, k :: 0 <= i < k < |changes| ==> changes[i] != changes[k])
           && forall e :: e in changes <==>
                e.StatusChanged? && e.id in devices
                && statusInterval > 0 && r.now - s.devices[e.id].lastCheck >= statusInterval
                && probe(e.id) == Some(e.status) && s.devices[e.id].status != e.status
    {
      dropped := [];
      if !linkFree {
        return;
      }
      hide SightAll, Replay, Expired, Drops, DropList, Tracked, SameTracks, Absences, AfterRound,
           RefreshState, Distinct;
      ghost var was, log := devices, events;
      var seen := Look(r.serial, false, r.now, {});
      if !disableBLE {
        seen := Look(r.advertised, true, r.now, seen);
      }
      NoSightings(Scan(devices, events, seen), r.now);
      ghost var s := Scanned(was, log, r);
      assert Scan(devices, events, seen) == s;
      ScanKeepsHistory(was, log, r);
      ExpiryTracks(was, s, polls, missedScans);
      var refresh;
      refresh, dropped := Expire(seen, r.now);
      polls := polls + [seen];
      ghost var expired, log' := devices, events;
      ghost var changes := Refresh(refresh, r.now, probe);
      RefreshEnds(s, seen, missedScans, expired, devices, refresh, probe, r.now, statusInterval, changes);
      SameTracksTracked(devices, expired, polls, missedScans);
      SameAsItself(was);
      RoundIgnoresStatus(was, was, log, r, missedScans);
      SameTracksJoin(devices, expired, AfterRound(was, r, missedScans));
      SameDropList(dropped, s.devices, expired, devices);
    }
  }

  /** The cached status of a device is old enough to be refreshed. */
  predicate Due(devices: Devices, id: string, now: int, interval: int) {
    id in devices && interval > 0 && now - devices[id].lastCheck >= interval
  }

  /** A refresh in progress: the devices in `done` have been asked, and `changes` reports who answered differently. */
  ghost predicate RefreshState(was: Devices, devices: Devices, done: seq<string>, probe: string -> Option<Status>,
                               now: int, changes: seq<Event>)
  {
    && devices.Keys == was.Keys
    && (forall id :: id in was ==>
          devices[id] == if id in done && probe(id).Some? then was[id].(status := probe(id).value, lastCheck := now)
                         else was[id])
    && (forall i, k :: 0 <= i < k < |changes| ==> changes[i] != changes[k])
    && forall e :: e in changes <==>
         e.StatusChanged? && e.id in was && e.id in done && probe(e.id) == Some(e.status)
             && was[e.id].status != e.status
  }

  lemma NothingRefreshed(was: Devices, probe: string -> Option<Status>, now: int)
    ensures RefreshState(was, was, [], probe, now, [])
  {
  }

  lemma RefreshStep(was: Devices, devices: Devices, refresh: seq<string>, i: nat, probe: string -> Option<Status>,
                    now: int, changes: seq<Event>)
    requires i < |refresh| && Distinct(refresh) && refresh[i] in was
    requires RefreshState(was, devices, refresh[..i], probe, now, changes)
    ensures refresh[i] in devices && devices[refresh[i]] == was[refresh[i]]
    ensures var id := refresh[i];
            if probe(id).None? then RefreshState(was, devices, refresh[..i + 1], probe, now, changes)
            else RefreshState(was, devices[id := devices[id].(status := probe(id).value, lastCheck := now)],
                              refresh[..i + 1], probe, now,
                              if was[id].status != probe(id).value then changes + [StatusChanged(id, probe(id).value)]
                              else changes)
  {
    var id := refresh[i];
    assert refresh[..i + 1] == refresh[..i] + [id];
    assert id !in refresh[..i];
  }

  lemma RefreshEnds(s: Scan, seen: set<string>, max: nat, expired: Devices, devices: Devices, refresh: seq<string>,
                    probe: string -> Option<Status>, now: int, interval: int, changes: seq<Event>)
    requires expired == Expired(s.devices, seen, max)
    requires RefreshState(expired, devices, refresh, probe, now, changes)
    requires forall id :: id in refresh <==> id in expired && interval > 0 && now - expired[id].lastCheck >= interval
    ensures devices.Keys <= s.devices.Keys
    ensures forall id :: id in devices ==>
              if interval > 0 && now - s.devices[id].lastCheck >= interval && probe(id).Some?
              then devices[id].status == probe(id).value && devices[id].lastCheck == now
              else devices[id].status == s.devices[id].status && devices[id].lastCheck == s.devices[id].lastCheck
    ensures forall i, k :: 0 <= i < k < |changes| ==> changes[i] != changes[k]
    ensures forall e :: e in changes <==>
              e.StatusChanged? && e.id in devices
              && interval > 0 && now - s.devices[e.id].lastCheck >= interval
              && probe(e.id) == Some(e.status) && s.devices[e.id].status != e.status
  {
  }

  /** An expiry in progress: `ids` are still to be looked at. */
  ghost predicate ExpiryState(was: Devices, devices: Devices, ids: set<string>, seen: set<string>, max: nat) {
    && ids <= devices.Keys <= was.Keys
    && (forall id :: id in ids ==> devices[id] == was[id])
    && (forall id :: id in was && id !in ids ==> (id in devices <==> Counted(was[id], seen).missed < max))
    && (forall id :: id in devices && id !in ids ==> devices[id] == Counted(was[id], seen))
  }

  lemma ExpiryStarts(was: Devices, seen: set<string>, max: nat)
    ensures ExpiryState(was, was, was.Keys, seen, max) && DropList([], was, was)
  {
  }

  lemma ExpiryStep(was: Devices, devices: Devices, ids: set<string>, id: string, seen: set<string>, max: nat)
    requires ExpiryState(was, devices, ids, seen, max) && id in ids
    ensures id in devices && id in was
    ensures var d := Counted(devices[id], seen);
            ExpiryState(was, if d.missed >= max then devices - {id} else devices[id := d], ids - {id}, seen, max)
  {
    hide Counted;
  }

  lemma ExpiryEnds(was: Devices, devices: Devices, seen: set<string>, max: nat)
    requires ExpiryState(was, devices, {}, seen, max)
    ensures devices == Expired(was, seen, max)
  {
    hide Counted;
  }

  lemma DropOne(ids: seq<string>, was: Devices, devices: Devices, id: string)
    requires DropList(ids, was, devices) && id in devices && id in was
    ensures DropList(ids + [id], was, devices - {id})
  {
  }

  lemma KeepOne(ids: seq<string>, was: Devices, before: Devices, after: Devices)
    requires DropList(ids, was, before) && after.Keys == before.Keys
    ensures DropList(ids, was, after)
  {
  }

  lemma NoSightings(s: Scan, now: int)
    ensures SightAll(s, [], true, now) == s
  {
  }

  lemma ScanKeepsHistory(devices: Devices, events: seq<Event>, r: Round)
    requires Replay(events) == devices.Keys
    ensures var s := Scanned(devices, events, r); Replay(s.events) == s.devices.Keys && FreshOrOld(devices, s)
  {
    var start := Scan(devices, events, {});
    SightingsReplay(start, r.serial, false, r.now);
    SightingsReplay(SightAll(start, r.serial, false, r.now), r.advertised, true, r.now);
    SightingsAreFresh(devices, start, r.serial, false, r.now);
    SightingsAreFresh(devices, SightAll(start, r.serial, false, r.now), r.advertised, true, r.now);
  }

  lemma SameAsItself(a: Devices)
    ensures SameTracks(a, a)
  {
  }

  lemma SameTracksJoin(a: Devices, b: Devices, c: Devices)
    requires SameTracks(a, b) && SameTracks(b, c)
    ensures SameTracks(a, c)
  {
  }

  lemma SameTracksTracked(a: Devices, b: Devices, polls: seq<set<string>>, max: nat)
    requires SameTracks(a, b) && Tracked(b, polls, max)
    ensures Tracked(a, polls, max) && a.Keys == b.Keys
  {
  }

  lemma SameDropList(ids: seq<string>, before: Devices, b: Devices, a: Devices)
    requires DropList(ids, before, b) && a.Keys == b.Keys
    ensures DropList(ids, before, a)
  {
  }
}
