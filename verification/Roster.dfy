/** The beacon roster of main/beacon_config.c on values: records, requests, commands,
    and the JSON tree the roster is saved as. RosterTable.dfy holds the table in place. */
module Roster {
  import opened Basics
  import opened BeaconText
  import opened Scanner

  const MAX_BEACONS := 20

  // ---- JSON trees ----

  /** Object keys; lookups ignore case, so a key stands for all its spellings. */
  datatype Key =
    | Action | Id | Name | PersonName | Active | State | Rssi | RssiThreshold | EffectiveThreshold
    | DiscordChannelId | Discord | ChannelId | HomeZoneEntity | Home | ZoneEntity | Notes
    | Beacon | Type | Mac | Value | Uuid | Major | Minor
    | Version | MaxRecords | Count | Timestamp | Records | Beacons
    | OtherKey(name: string)

  /** An object maps each key to the first value given for it. */
  datatype Json =
    | Null
    | Bool(on: bool)
    | Number(number: int)
    | Text(text: string)
    | Array(items: seq<Json>)
    | Object(fields: map<Key, Json>)

  function Get(j: Json, key: Key): Option<Json> {
    if j.Object? && key in j.fields then Some(j.fields[key]) else None
  }

  function TextAt(j: Json, key: Key): Option<string> {
    match Get(j, key)
    case Some(Text(s)) => Some(s)
    case _ => None
  }

  function ObjectAt(j: Json, key: Key): Option<Json> {
    match Get(j, key)
    case Some(Object(f)) => Some(Object(f))
    case _ => None
  }

  function IntAt(j: Json, key: Key): Option<int> {
    match Get(j, key)
    case Some(Number(n)) => Some(n)
    case _ => None
  }

  function Or<T>(first: Option<T>, second: Option<T>): Option<T> {
    if first.Some? then first else second
  }

  function Within<T>(outer: Option<Json>, look: Json -> Option<T>): Option<T> {
    if outer.Some? then look(outer.value) else None
  }

  function OrDefault<T>(x: Option<T>, fallback: T): T {
    if x.Some? then x.value else fallback
  }

  // ---- records ----

  datatype Identity =
    | MacAddress(mac: seq<Byte>)
    | IBeacon(uuid: seq<Byte>, major: int, minor: int)

  datatype Profile = Profile(person: string, channel: string, zone: string, notes: string)

  /** A roster record; `tag` holds what the scanner uses and updates. */
  datatype Entry = Entry(id: string, profile: Profile, identity: Identity, tag: Tag)

  datatype Error =
    | MaxRecords | InvalidId | DuplicateId | InvalidPersonName | InvalidChannel | InvalidZone | InvalidNotes
    | InvalidRssi | InvalidMac | InvalidUuid | InvalidMajorMinor | DuplicateIBeacon | InvalidType
    | NotFound | SaveFailed | BusArmed | BeaconNear | MissingAction | UnknownAction

  datatype Decision<+T> = Accept(value: T) | Refuse(error: Error)

  /** The table after a command and the answer to it. */
  datatype Outcome = Outcome(table: seq<Entry>, reply: Decision<string>)

  predicate IsDigit(c: char) { '0' <= c <= '9' }

  predicate IdChar(c: char) {
    IsDigit(c) || 'a' <= c <= 'z' || 'A' <= c <= 'Z' || c == '_' || c == '-'
  }

  predicate ValidId(id: string) {
    1 <= |id| <= 31 && forall k :: 0 <= k < |id| ==> IdChar(id[k])
  }

  predicate ValidChannel(channel: string) {
    |channel| <= 32 && forall k :: 0 <= k < |channel| ==> IsDigit(channel[k])
  }

  predicate SameId(a: string, b: string) { UpperText(a) == UpperText(b) }

  predicate ValidIdentity(identity: Identity) {
    match identity
    case MacAddress(mac) => |mac| == 6
    case IBeacon(uuid, major, minor) => |uuid| == 16 && 0 <= major < 65536 && 0 <= minor < 65536
  }

  predicate ValidEntry(e: Entry) {
    && ValidId(e.id)
    && 1 <= |e.profile.person| <= 48 && |e.profile.channel| <= 32 && |e.profile.zone| <= 64 && |e.profile.notes| <= 160
    && ValidIdentity(e.identity)
    && -127 <= e.tag.threshold <= 0
    && (!e.tag.active ==> e.tag.range == Absent && e.tag.nearSince == 0)
  }

  predicate LiveIBeacon(e: Entry) { e.tag.active && e.identity.IBeacon? }

  /** Neither id nor live iBeacon identity is shared. */
  predicate Distinct(a: Entry, b: Entry) {
    !SameId(a.id, b.id) && (LiveIBeacon(a) && LiveIBeacon(b) ==> a.identity != b.identity)
  }

  /** What every roster command keeps. */
  ghost predicate Valid(r: seq<Entry>) {
    && |r| <= MAX_BEACONS
    && (forall i :: 0 <= i < |r| ==> ValidEntry(r[i]))
    && forall i, j :: 0 <= i < j < |r| ==> Distinct(r[i], r[j])
  }

  // ---- lookups ----

  /** The first record with this id, ignoring case. */
  function FindId(r: seq<Entry>, id: string): (found: Option<nat>)
    ensures found.Some? ==> found.value < |r| && SameId(r[found.value].id, id)
    ensures found.Some? ==> forall k :: 0 <= k < found.value ==> !SameId(r[k].id, id)
    ensures found.None? ==> forall k :: 0 <= k < |r| ==> !SameId(r[k].id, id)
  {
    if r == [] then None
    else
      var before := FindId(r[..|r| - 1], id);
      if before.Some? then before
      else if SameId(r[|r| - 1].id, id) then Some(|r| - 1)
      else None
  }

  /** Another live record than `except` already has this iBeacon identity. */
  predicate Taken(r: seq<Entry>, identity: Identity, except: Option<string>) {
    exists i :: 0 <= i < |r| && LiveIBeacon(r[i]) && r[i].identity == identity
                && !(except.Some? && SameId(r[i].id, except.value))
  }

  predicate AnyNear(r: seq<Entry>) {
    exists i :: 0 <= i < |r| && r[i].tag.active && r[i].tag.range == Near
  }

  /** The first live record with this identity: what an advertisement is attributed to. */
  function FindIdentity(r: seq<Entry>, identity: Identity): (found: Option<nat>)
    ensures found.Some? ==>
      found.value < |r| && r[found.value].tag.active && r[found.value].identity == identity &&
      forall k :: 0 <= k < found.value ==> !(r[k].tag.active && r[k].identity == identity)
    ensures found.None? ==> forall k :: 0 <= k < |r| ==> !(r[k].tag.active && r[k].identity == identity)
  {
    if r == [] then None
    else
      var before := FindIdentity(r[..|r| - 1], identity);
      if before.Some? then before
      else if r[|r| - 1].tag.active && r[|r| - 1].identity == identity then Some(|r| - 1)
      else None
  }

  // ---- add ----

  function RequestedId(j: Json): Option<string> { Or(TextAt(j, Id), TextAt(j, Name)) }

  function RequestedChannel(j: Json): Option<string> {
    Or(TextAt(j, DiscordChannelId), Within(ObjectAt(j, Discord), o => TextAt(o, ChannelId)))
  }

  function RequestedZone(j: Json): Option<string> {
    Or(TextAt(j, HomeZoneEntity), Within(ObjectAt(j, Home), o => TextAt(o, ZoneEntity)))
  }

  /** A number beside the record or in its beacon object. */
  function IntNear(j: Json, key: Key): Option<int> {
    Or(IntAt(j, key), Within(ObjectAt(j, Beacon), o => IntAt(o, key)))
  }

  function TextNear(j: Json, key: Key): Option<string> {
    Or(TextAt(j, key), Within(ObjectAt(j, Beacon), o => TextAt(o, key)))
  }

  function NewIdentity(r: seq<Entry>, j: Json): Decision<Identity> {
    var kind := OrDefault(TextNear(j, Type), "ibeacon");
    if kind == "mac" then
      var text := Or(TextNear(j, Mac), TextNear(j, Value));
      var mac := if text.Some? then MacOf(text.value) else None;
      if mac.None? then Refuse(InvalidMac) else Accept(MacAddress(mac.value))
    else if kind == "ibeacon" then
      var text := TextNear(j, Uuid);
      var uuid := if text.Some? then UuidOf(text.value) else None;
      var major, minor := OrDefault(IntNear(j, Major), 0), OrDefault(IntNear(j, Minor), 0);
      if uuid.None? then Refuse(InvalidUuid)
      else if !(0 <= major < 65536 && 0 <= minor < 65536) then Refuse(InvalidMajorMinor)
      else if Taken(r, IBeacon(uuid.value, major, minor), None) then Refuse(DuplicateIBeacon)
      else Accept(IBeacon(uuid.value, major, minor))
    else Refuse(InvalidType)
  }

  function NewThreshold(j: Json): int {
    var inner := Within(ObjectAt(j, Beacon), o => IntAt(o, RssiThreshold));
    OrDefault(Or(IntAt(j, RssiThreshold), Or(IntAt(j, Rssi), inner)), -65)
  }

  function NewProfile(j: Json, id: string): Decision<Profile> {
    var person := TextAt(j, PersonName);
    var channel, zone := OrDefault(RequestedChannel(j), ""), OrDefault(RequestedZone(j), "");
    var notes := OrDefault(TextAt(j, Notes), "");
    if person.Some? && |person.value| > 48 then Refuse(InvalidPersonName)
    else if !ValidChannel(channel) then Refuse(InvalidChannel)
    else if |zone| > 64 then Refuse(InvalidZone)
    else if |notes| > 160 then Refuse(InvalidNotes)
    else Accept(Profile(if person.Some? && person.value != "" then person.value else id, channel, zone, notes))
  }

  function NewEntry(r: seq<Entry>, j: Json): Decision<Entry> {
    var id := RequestedId(j);
    if |r| >= MAX_BEACONS then Refuse(Error.MaxRecords)
    else if id.None? || !ValidId(id.value) then Refuse(InvalidId)
    else if FindId(r, id.value).Some? then Refuse(DuplicateId)
    else
      var profile := NewProfile(j, id.value);
      if profile.Refuse? then Refuse(profile.error)
      else if !(-127 <= NewThreshold(j) <= 0) then Refuse(InvalidRssi)
      else
        var identity := NewIdentity(r, j);
        if identity.Refuse? then Refuse(identity.error)
        else Accept(Entry(id.value, profile.value, identity.value, Tag(true, NewThreshold(j), Absent, 0, 0, 0)))
  }

  function AddRecord(r: seq<Entry>, j: Json, saved: bool): Outcome {
    var e := NewEntry(r, j);
    if e.Refuse? then Outcome(r, Refuse(e.error))
    else if saved then Outcome(r + [e.value], Accept(e.value.id))
    else Outcome(r, Refuse(SaveFailed))
  }

  // ---- remove ----

  function RemoveRecord(r: seq<Entry>, j: Json, saved: bool): Outcome {
    var id := RequestedId(j);
    if id.None? || !ValidId(id.value) then Outcome(r, Refuse(InvalidId))
    else
      var i := FindId(r, id.value);
      if i.None? then Outcome(r, Refuse(NotFound))
      else if saved then Outcome(r[..i.value] + r[i.value + 1..], Accept(r[i.value].id))
      else Outcome(r, Refuse(SaveFailed))
  }

  // ---- update ----

  /** What an update asks for; an empty person name asks for nothing. */
  datatype Request = Request(
    person: Option<string>, channel: Option<string>, zone: Option<string>, notes: Option<string>,
    rssi: Option<Json>, active: Option<Json>)

  function RequestOf(j: Json): Request {
    var person := TextAt(j, PersonName);
    Request(if person == Some("") then None else person,
            RequestedChannel(j), RequestedZone(j), TextAt(j, Notes),
            Or(Get(j, Rssi), Or(Get(j, RssiThreshold), Within(ObjectAt(j, Beacon), o => Get(o, RssiThreshold)))),
            Get(j, Active))
  }

  /** Checks made before anything is copied into the record. */
  function EarlyError(q: Request): Option<Error> {
    if q.person.Some? && |q.person.value| > 48 then Some(InvalidPersonName)
    else if q.zone.Some? && |q.zone.value| > 64 then Some(InvalidZone)
    else if q.notes.Some? && |q.notes.value| > 160 then Some(InvalidNotes)
    else None
  }

  predicate BadChannel(q: Request) { q.channel.Some? && !ValidChannel(q.channel.value) }

  predicate BadRssi(q: Request) {
    q.rssi.Some? && !(q.rssi.value.Number? && -127 <= q.rssi.value.number <= 0)
  }

  /** Activating this record would give two live records one iBeacon identity. */
  predicate BadActivation(r: seq<Entry>, e: Entry, q: Request) {
    q.active == Some(Bool(true)) && !e.tag.active && e.identity.IBeacon? && Taken(r, e.identity, Some(e.id))
  }

  function WithPerson(e: Entry, q: Request): Entry {
    e.(profile := e.profile.(person := OrDefault(q.person, e.profile.person)))
  }

  function WithTexts(e: Entry, q: Request): Entry {
    e.(profile := e.profile.(channel := OrDefault(q.channel, e.profile.channel),
                             zone := OrDefault(q.zone, e.profile.zone),
                             notes := OrDefault(q.notes, e.profile.notes)))
  }

  function NextThreshold(e: Entry, q: Request): int {
    if q.rssi.Some? && q.rssi.value.Number? then q.rssi.value.number else e.tag.threshold
  }

  /** `active` is on only when it is the JSON value true. */
  function WithActive(e: Entry, q: Request): Entry {
    if q.active.None? then e else e.(tag := OnSetActive(e.tag, q.active == Some(Bool(true))))
  }

  /** The record as the update leaves it, and the error the update stopped at. */
  datatype Edit = Edit(entry: Entry, error: Option<Error>)

  function EditEntry(r: seq<Entry>, e: Entry, q: Request): Edit {
    var e1 := WithPerson(e, q);
    if BadChannel(q) then Edit(e1, Some(InvalidChannel))
    else
      var e2 := WithTexts(e1, q);
      if BadRssi(q) then Edit(e2, Some(InvalidRssi))
      else
        var e3 := e2.(tag := e2.tag.(threshold := NextThreshold(e, q)));
        if BadActivation(r, e, q) then Edit(e3, Some(DuplicateIBeacon))
        else
          var e4 := WithActive(e3, q);
          Edit(if NextThreshold(e, q) == e.tag.threshold then e4
               else e4.(tag := e4.tag.(range := Absent, nearSince := 0, lastSeen := 0)), None)
  }

  function UpdateRecord(r: seq<Entry>, j: Json, saved: bool): Outcome {
    var id := RequestedId(j);
    var i := if id.Some? then FindId(r, id.value) else None;
    var q := RequestOf(j);
    if i.None? then Outcome(r, Refuse(NotFound))
    else if EarlyError(q).Some? then Outcome(r, Refuse(EarlyError(q).value))
    else
      var edit := EditEntry(r, r[i.value], q);
      if edit.error.Some? then Outcome(r[i.value := edit.entry], Refuse(edit.error.value))
      else if saved then Outcome(r[i.value := edit.entry], Accept(r[i.value].id))
      else Outcome(r, Refuse(SaveFailed))
  }

  // ---- the command ----

  /** The guard's idea of a destructive change: `active` counts only as the JSON false. */
  predicate Destructive(j: Json, action: string) {
    action == "remove" || (action == "update" && Get(j, Active) == Some(Bool(false)))
  }

  function Command(r: seq<Entry>, j: Json, armed: bool, saved: bool): Outcome {
    var action := TextAt(j, Action);
    if action.None? then Outcome(r, Refuse(MissingAction))
    else if Destructive(j, action.value) && armed then Outcome(r, Refuse(BusArmed))
    else if Destructive(j, action.value) && AnyNear(r) then Outcome(r, Refuse(BeaconNear))
    else if action.value == "add" then AddRecord(r, j, saved)
    else if action.value == "remove" then RemoveRecord(r, j, saved)
    else if action.value == "update" then UpdateRecord(r, j, saved)
    else if action.value == "list" then Outcome(r, Accept(""))
    else Outcome(r, Refuse(UnknownAction))
  }

  // ---- the saved tree ----

  function RangeText(range: Range): string {
    match range
    case Near => "near"
    case Far => "far"
    case Absent => "absent"
  }

  function IdentityFields(identity: Identity): map<Key, Json> {
    match identity
    case MacAddress(mac) =>
      map[Type := Text("mac"), Mac := if |mac| == 6 then Text(MacText(mac)) else Null]
    case IBeacon(uuid, major, minor) =>
      map[Type := Text("ibeacon"), Uuid := if |uuid| == 16 then Text(UuidText(uuid)) else Null,
          Major := Number(major), Minor := Number(minor)]
  }

  /** What a load reads of a record, beside its beacon object. */
  function OwnFields(e: Entry): map<Key, Json> {
    map[Id := Text(e.id), PersonName := Text(e.profile.person), Active := Bool(e.tag.active),
        RssiThreshold := Number(e.tag.threshold), DiscordChannelId := Text(e.profile.channel),
        HomeZoneEntity := Text(e.profile.zone), Notes := Text(e.profile.notes),
        Beacon := Object(IdentityFields(e.identity)[RssiThreshold := Number(e.tag.threshold)])]
  }

  /** What is repeated or only shown. */
  function ShownFields(e: Entry, floor: int): map<Key, Json> {
    map[Name := Text(e.id), State := Text(RangeText(e.tag.range)), Rssi := Number(e.tag.rssi),
        EffectiveThreshold := Number(if e.tag.threshold < floor then floor else e.tag.threshold),
        Discord := Object(map[ChannelId := Text(e.profile.channel)]),
        Home := Object(map[ZoneEntity := Text(e.profile.zone)])]
    + IdentityFields(e.identity)
  }

  function RecordJson(e: Entry, floor: int): Json {
    Object(ShownFields(e, floor) + OwnFields(e))
  }

  function RosterJson(r: seq<Entry>, floor: int, timestamp: string): Json {
    var records := Array(seq(|r|, i requires 0 <= i < |r| => RecordJson(r[i], floor)));
    Object(map[Version := Number(1), Key.MaxRecords := Number(MAX_BEACONS), Count := Number(|r|),
               Timestamp := Text(timestamp), Records := records, Beacons := records])
  }

  // ---- loading ----

  /** strncpy into a field of n characters. */
  function Truncated(s: string, n: nat): (t: string)
    ensures |t| <= n && (|s| <= n ==> t == s) && (s != [] && 0 < n ==> t != [])
  {
    if |s| <= n then s else s[..n]
  }

  function Clamp(x: int): int {
    if x < -127 then -127 else if x > 0 then 0 else x
  }

  function LoadedIdentity(r: seq<Entry>, src: Json, live: bool): Option<Identity> {
    if TextAt(src, Type) == Some("mac") then
      var text := Or(TextAt(src, Mac), TextAt(src, Value));
      var mac := if text.Some? then MacOf(text.value) else None;
      if mac.None? then None else Some(MacAddress(mac.value))
    else
      var text := TextAt(src, Uuid);
      var uuid := if text.Some? then UuidOf(text.value) else None;
      var major, minor := OrDefault(IntAt(src, Major), 0), OrDefault(IntAt(src, Minor), 0);
      if uuid.None? || !(0 <= major < 65536 && 0 <= minor < 65536) then None
      else if live && Taken(r, IBeacon(uuid.value, major, minor), None) then None
      else Some(IBeacon(uuid.value, major, minor))
  }

  function LoadedProfile(item: Json, id: string): Profile {
    var person := Truncated(OrDefault(TextAt(item, PersonName), ""), 48);
    Profile(if person == "" then Truncated(id, 48) else person,
            Truncated(OrDefault(RequestedChannel(item), ""), 32),
            Truncated(OrDefault(RequestedZone(item), ""), 64),
            Truncated(OrDefault(TextAt(item, Notes), ""), 160))
  }

  /** The record an item gives after the records r, None when it is skipped. */
  function LoadedEntry(r: seq<Entry>, item: Json): Option<Entry> {
    var id := RequestedId(item);
    if id.None? || !ValidId(id.value) || FindId(r, id.value).Some? then None
    else
      var live := Get(item, Active) != Some(Bool(false));
      var src := OrDefault(ObjectAt(item, Beacon), item);
      var identity := LoadedIdentity(r, src, live);
      var threshold := Clamp(OrDefault(Or(IntAt(item, RssiThreshold), IntAt(item, Rssi)), -65));
      if identity.None? then None
      else Some(Entry(id.value, LoadedProfile(item, id.value), identity.value, Tag(live, threshold, Absent, 0, 0, 0)))
  }

  function LoadedItems(items: seq<Json>): (r: seq<Entry>)
    ensures |r| <= MAX_BEACONS && |r| <= |items|
  {
    if items == [] then []
    else
      var r := LoadedItems(items[..|items| - 1]);
      if |r| >= MAX_BEACONS then r
      else
        match LoadedEntry(r, items[|items| - 1])
        case Some(e) => r + [e]
        case None => r
  }

  function ItemsOf(j: Json): seq<Json> {
    match Get(j, Records)
    case Some(Array(items)) => items
    case _ =>
      match Get(j, Beacons)
      case Some(Array(items)) => items
      case _ => []
  }

  function Load(j: Json): seq<Entry> { LoadedItems(ItemsOf(j)) }

  /** A record as a restart finds it: the scanner has seen nothing yet. */
  function Restarted(e: Entry): Entry {
    e.(tag := Tag(e.tag.active, e.tag.threshold, Absent, 0, 0, 0))
  }

  function RestartedAll(r: seq<Entry>): (s: seq<Entry>)
    ensures |s| == |r| && forall i :: 0 <= i < |r| ==> s[i] == Restarted(r[i])
  {
    seq(|r|, i requires 0 <= i < |r| => Restarted(r[i]))
  }
}
