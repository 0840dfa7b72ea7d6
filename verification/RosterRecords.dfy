/** Which record an add or a load makes of the JSON it is given, and what a removal leaves. */
module RosterRecords {
  import opened Basics
  import opened BeaconText
  import opened Scanner
  import opened Roster
  import opened RosterUpdates

  // ---- identities ----

  predicate AsksUuid(j: Json, s: string) { AsksText(j, Uuid, Beacon, Uuid, s) }

  /** An address may stand under two names, beside the record or in its beacon object. */
  predicate AsksMac(j: Json, s: string) {
    || AsksText(j, Mac, Beacon, Mac, s)
    || (!HasText(j, Mac) && !HasTextInside(j, Beacon, Mac) && AsksText(j, Value, Beacon, Value, s))
  }

  predicate AsksKind(j: Json, s: string) { AsksText(j, Type, Beacon, Type, s) }

  predicate AsksMajor(j: Json, n: int) { AsksNumber(j, Major, Beacon, Major, n) }

  predicate AsksMinor(j: Json, n: int) { AsksNumber(j, Minor, Beacon, Minor, n) }

  ghost predicate NumberApplied(asks: (Json, int) -> bool, j: Json, fallback: int, now: int) {
    (forall n :: asks(j, n) ==> now == n) && ((forall n :: !asks(j, n)) ==> now == fallback)
  }

  /** The identity an add asks for; without a type it is an iBeacon. */
  ghost predicate AsksIdentity(j: Json, identity: Identity) {
    match identity
    case MacAddress(mac) => AsksKind(j, "mac") && exists s :: AsksMac(j, s) && MacOf(s) == Some(mac)
    case IBeacon(uuid, major, minor) =>
      && TextApplied(AsksKind, j, "ibeacon", "ibeacon")
      && (exists s :: AsksUuid(j, s) && UuidOf(s) == Some(uuid))
      && NumberApplied(AsksMajor, j, 0, major) && NumberApplied(AsksMinor, j, 0, minor)
      && 0 <= major < 65536 && 0 <= minor < 65536
  }

  predicate Free(r: seq<Entry>, identity: Identity) { identity.IBeacon? ==> !Taken(r, identity, None) }

  lemma PlaceReads(j: Json, s: string)
    ensures TextNear(j, Type) == Some(s) <==> AsksKind(j, s)
    ensures TextNear(j, Uuid) == Some(s) <==> AsksUuid(j, s)
    ensures Or(TextNear(j, Mac), TextNear(j, Value)) == Some(s) <==> AsksMac(j, s)
  {
  }

  lemma NumberPlaceReads(j: Json, n: int)
    ensures IntNear(j, Major) == Some(n) <==> AsksMajor(j, n)
    ensures IntNear(j, Minor) == Some(n) <==> AsksMinor(j, n)
  {
  }

  lemma NumberReads(asks: (Json, int) -> bool, j: Json, asked: Option<int>, fallback: int, now: int)
    requires forall n :: asked == Some(n) <==> asks(j, n)
    ensures NumberApplied(asks, j, fallback, now) <==> now == OrDefault(asked, fallback)
  {
    if asked.Some? {
      var n := asked.value;
      assert asked == Some(n);
      assert asks(j, n);
    }
  }

  lemma TextFieldReads(asks: (Json, string) -> bool, j: Json, asked: Option<string>, fallback: string, now: string)
    requires forall s :: asked == Some(s) <==> asks(j, s)
    ensures TextApplied(asks, j, fallback, now) <==> now == OrDefault(asked, fallback)
  {
    if asked.Some? { assert asks(j, asked.value); }
  }

  lemma NumbersRead(j: Json, major: int, minor: int)
    ensures NumberApplied(AsksMajor, j, 0, major) <==> major == OrDefault(IntNear(j, Major), 0)
    ensures NumberApplied(AsksMinor, j, 0, minor) <==> minor == OrDefault(IntNear(j, Minor), 0)
  {
    forall n ensures IntNear(j, Major) == Some(n) <==> AsksMajor(j, n)
             ensures IntNear(j, Minor) == Some(n) <==> AsksMinor(j, n) {
      NumberPlaceReads(j, n);
    }
    hide IntNear, AsksMajor, AsksMinor, NumberApplied;
    NumberReads(AsksMajor, j, IntNear(j, Major), 0, major);
    NumberReads(AsksMinor, j, IntNear(j, Minor), 0, minor);
  }

  lemma NewIdentityExactly(r: seq<Entry>, j: Json, identity: Identity)
    ensures NewIdentity(r, j) == Accept(identity) <==> AsksIdentity(j, identity) && Free(r, identity)
  {
    hide TextNear, IntNear, AsksMac, AsksUuid, AsksKind, NumberApplied, TextApplied, UuidOf, MacOf, Taken;
    var mac, uuid, kind := Or(TextNear(j, Mac), TextNear(j, Value)), TextNear(j, Uuid), TextNear(j, Type);
    forall s ensures mac == Some(s) <==> AsksMac(j, s)
             ensures uuid == Some(s) <==> AsksUuid(j, s)
             ensures kind == Some(s) <==> AsksKind(j, s) {
      PlaceReads(j, s);
    }
    if identity.IBeacon? { NumbersRead(j, identity.major, identity.minor); }
    TextFieldReads(AsksKind, j, kind, "ibeacon", "ibeacon");
    if mac.Some? { assert AsksMac(j, mac.value); }
    if uuid.Some? { assert AsksUuid(j, uuid.value); }
  }

  // ---- add ----

  predicate AsksNewThreshold(j: Json, n: int) {
    || Holds(j, RssiThreshold, Number(n))
    || (!HasNumber(j, RssiThreshold) && Holds(j, Rssi, Number(n)))
    || (!HasNumber(j, RssiThreshold) && !HasNumber(j, Rssi) && Inside(j, Beacon, RssiThreshold, Number(n)))
  }

  /** What stands in the texts of a record, where nothing was asked for: its id for the person. */
  ghost predicate ProfileGiven(j: Json, id: string, p: Profile) {
    && TextApplied(AsksPerson, j, id, p.person)
    && TextApplied(AsksChannel, j, "", p.channel)
    && TextApplied(AsksZone, j, "", p.zone)
    && TextApplied(AsksNotes, j, "", p.notes)
  }

  /** The record an add puts behind the others. */
  ghost predicate Added(r: seq<Entry>, j: Json, e: Entry) {
    && |r| < MAX_BEACONS
    && AsksId(j, e.id) && ValidId(e.id) && (forall k :: 0 <= k < |r| ==> !SameId(r[k].id, e.id))
    && ProfileGiven(j, e.id, e.profile)
    && (AsksPerson(j, e.profile.person) ==> |e.profile.person| <= 48)
    && ValidChannel(e.profile.channel) && |e.profile.zone| <= 64 && |e.profile.notes| <= 160
    && NumberApplied(AsksNewThreshold, j, -65, e.tag.threshold) && -127 <= e.tag.threshold <= 0
    && e.tag == Tag(true, e.tag.threshold, Absent, 0, 0, 0)
    && AsksIdentity(j, e.identity) && Free(r, e.identity)
  }

  lemma ProfileGivenReads(j: Json, id: string, p: Profile)
    ensures ProfileGiven(j, id, p) <==>
      p == Profile(OrDefault(RequestOf(j).person, id), OrDefault(RequestedChannel(j), ""),
                   OrDefault(RequestedZone(j), ""), OrDefault(TextAt(j, Notes), ""))
  {
    var person := RequestOf(j).person;
    forall s ensures person == Some(s) <==> AsksPerson(j, s)
             ensures RequestedChannel(j) == Some(s) <==> AsksChannel(j, s)
             ensures RequestedZone(j) == Some(s) <==> AsksZone(j, s)
             ensures TextAt(j, Notes) == Some(s) <==> AsksNotes(j, s) {
      TextReads(j, s);
    }
    hide RequestedChannel, RequestedZone, TextAt, AsksPerson, AsksChannel, AsksZone, AsksNotes, TextApplied;
    TextFieldReads(AsksPerson, j, person, id, p.person);
    TextFieldReads(AsksChannel, j, RequestedChannel(j), "", p.channel);
    TextFieldReads(AsksZone, j, RequestedZone(j), "", p.zone);
    TextFieldReads(AsksNotes, j, TextAt(j, Notes), "", p.notes);
  }

  lemma NewProfileExactly(j: Json, id: string, p: Profile)
    ensures NewProfile(j, id) == Accept(p) <==>
      && ProfileGiven(j, id, p) && (AsksPerson(j, p.person) ==> |p.person| <= 48)
      && ValidChannel(p.channel) && |p.zone| <= 64 && |p.notes| <= 160
  {
    ProfileGivenReads(j, id, p);
    TextReads(j, p.person);
    hide RequestedChannel, RequestedZone, ProfileGiven, AsksPerson, ValidChannel;
  }

  lemma NewThresholdExactly(j: Json, n: int)
    ensures NumberApplied(AsksNewThreshold, j, -65, n) <==> n == NewThreshold(j)
  {
    var inner := Within(ObjectAt(j, Beacon), o => IntAt(o, RssiThreshold));
    var asked := Or(IntAt(j, RssiThreshold), Or(IntAt(j, Rssi), inner));
    forall x ensures asked == Some(x) <==> AsksNewThreshold(j, x) { }
    hide AsksNewThreshold, NumberApplied, IntAt, ObjectAt;
    NumberReads(AsksNewThreshold, j, asked, -65, n);
  }

  lemma NewEntryExactly(r: seq<Entry>, j: Json, e: Entry)
    ensures NewEntry(r, j) == Accept(e) <==> Added(r, j, e)
  {
    TextReads(j, e.id);
    NewProfileExactly(j, e.id, e.profile);
    NewThresholdExactly(j, e.tag.threshold);
    NewIdentityExactly(r, j, e.identity);
    hide RequestedId, AsksId, ValidId, SameId, NewProfile, NewThreshold, NewIdentity, ProfileGiven, NumberApplied;
    hide AsksIdentity, AsksPerson, ValidChannel, Free;
  }

  ghost predicate MayAdd(r: seq<Entry>, j: Json) { exists e :: Added(r, j, e) }

  /** An add is accepted exactly when its JSON gives a record that can be put behind the
      others and the save succeeds; then that record, and nothing else, is new. */
  lemma AddExactly(r: seq<Entry>, j: Json, armed: bool, saved: bool)
    requires Holds(j, Action, Text("add"))
    ensures var o := Command(r, j, armed, saved);
      && (o.reply.Accept? <==> saved && MayAdd(r, j))
      && (o.reply.Accept? ==>
          |o.table| == |r| + 1 && o.table[..|r|] == r && Added(r, j, o.table[|r|]) && o.reply.value == o.table[|r|].id)
      && (o.reply.Refuse? ==> o.table == r)
  {
    assert TextAt(j, Action) == Some("add");
    forall e ensures NewEntry(r, j) == Accept(e) <==> Added(r, j, e) { NewEntryExactly(r, j, e); }
    hide NewEntry, Added, AnyNear, Holds;
    assert Command(r, j, armed, saved) == AddRecord(r, j, saved);
    if NewEntry(r, j).Accept? { assert Added(r, j, NewEntry(r, j).value); }
  }

  // ---- remove ----

  /** A removal is accepted exactly when a record has the valid id asked for, nothing that
      matters is going on and the save succeeds; then that record alone is gone. */
  lemma RemoveExactly(r: seq<Entry>, j: Json, armed: bool, saved: bool)
    requires Holds(j, Action, Text("remove"))
    ensures var o := Command(r, j, armed, saved);
      && (o.reply.Accept? <==>
          saved && !armed && !AnyNear(r) && (exists k: nat, id :: Addressed(r, j, k) && AsksId(j, id) && ValidId(id)))
      && (o.reply.Refuse? ==> o.table == r)
      && forall k: nat :: o.reply.Accept? && Addressed(r, j, k) ==>
           |o.table| == |r| - 1 && o.table[..k] == r[..k] && o.table[k..] == r[k + 1..] && o.reply.value == r[k].id
  {
    assert TextAt(j, Action) == Some("remove");
    var id := RequestedId(j);
    forall k: nat | k < |r| ensures Addressed(r, j, k) <==> id.Some? && FindId(r, id.value) == Some(k) {
      AddressedReads(r, j, k);
    }
    forall s ensures id == Some(s) <==> AsksId(j, s) { TextReads(j, s); }
    hide RequestedId, AsksId, ValidId, AnyNear, Holds;
    if id.Some? && FindId(r, id.value).Some? {
      assert AsksId(j, id.value) && Addressed(r, j, FindId(r, id.value).value);
    }
    hide Addressed, FindId;
  }

  // ---- load ----

  /** A stored item's beacon object, or the item itself. */
  function Source(item: Json): Json {
    if Has(item, Beacon) && item.fields[Beacon].Object? then item.fields[Beacon] else item
  }

  predicate StoredMac(src: Json, s: string) {
    Holds(src, Mac, Text(s)) || (!HasText(src, Mac) && Holds(src, Value, Text(s)))
  }

  predicate StoredMajor(src: Json, n: int) { Holds(src, Major, Number(n)) }

  predicate StoredMinor(src: Json, n: int) { Holds(src, Minor, Number(n)) }

  /** Everything that is not called a MAC address is read as an iBeacon. */
  ghost predicate StoredIdentity(src: Json, identity: Identity) {
    match identity
    case MacAddress(mac) => Holds(src, Type, Text("mac")) && exists s :: StoredMac(src, s) && MacOf(s) == Some(mac)
    case IBeacon(uuid, major, minor) =>
      && !Holds(src, Type, Text("mac"))
      && (exists s :: Holds(src, Uuid, Text(s)) && UuidOf(s) == Some(uuid))
      && NumberApplied(StoredMajor, src, 0, major) && NumberApplied(StoredMinor, src, 0, minor)
      && 0 <= major < 65536 && 0 <= minor < 65536
  }

  predicate StoredThreshold(item: Json, n: int) {
    Holds(item, RssiThreshold, Number(n)) || (!HasNumber(item, RssiThreshold) && Holds(item, Rssi, Number(n)))
  }

  /** The texts of a stored item are cut to what a record holds. */
  ghost predicate ProfileStored(item: Json, id: string, p: Profile) {
    exists q :: ProfileGiven(item, id, q) && p == Cut(q)
  }

  function Cut(p: Profile): Profile {
    Profile(Truncated(p.person, 48), Truncated(p.channel, 32), Truncated(p.zone, 64), Truncated(p.notes, 160))
  }

  /** A stored number outside the range is taken as the end of the range it is beyond. */
  ghost predicate ThresholdStored(item: Json, now: int) {
    exists n :: NumberApplied(StoredThreshold, item, -65, n) &&
                -127 <= now <= 0 && (n < -127 ==> now == -127) && (n > 0 ==> now == 0) && (-127 <= n <= 0 ==> now == n)
  }

  /** The record a stored item becomes after the records r. */
  ghost predicate Stored(r: seq<Entry>, item: Json, e: Entry) {
    && AsksId(item, e.id) && ValidId(e.id) && (forall k :: 0 <= k < |r| ==> !SameId(r[k].id, e.id))
    && ProfileStored(item, e.id, e.profile)
    && ThresholdStored(item, e.tag.threshold)
    && e.tag == Tag(!Holds(item, Active, Bool(false)), e.tag.threshold, Absent, 0, 0, 0)
    && StoredIdentity(Source(item), e.identity)
    && (e.tag.active ==> Free(r, e.identity))
  }

  lemma StoredNumbers(src: Json, major: int, minor: int)
    ensures NumberApplied(StoredMajor, src, 0, major) <==> major == OrDefault(IntAt(src, Major), 0)
    ensures NumberApplied(StoredMinor, src, 0, minor) <==> minor == OrDefault(IntAt(src, Minor), 0)
  {
    hide NumberApplied;
    NumberReads(StoredMajor, src, IntAt(src, Major), 0, major);
    NumberReads(StoredMinor, src, IntAt(src, Minor), 0, minor);
  }

  lemma LoadedIdentityExactly(r: seq<Entry>, src: Json, live: bool, identity: Identity)
    ensures LoadedIdentity(r, src, live) == Some(identity) <==>
            StoredIdentity(src, identity) && (live ==> Free(r, identity))
  {
    var mac, uuid := Or(TextAt(src, Mac), TextAt(src, Value)), TextAt(src, Uuid);
    forall s ensures mac == Some(s) <==> StoredMac(src, s)
             ensures uuid == Some(s) <==> Holds(src, Uuid, Text(s)) { }
    assert TextAt(src, Type) == Some("mac") <==> Holds(src, Type, Text("mac"));
    if identity.IBeacon? { StoredNumbers(src, identity.major, identity.minor); }
    hide TextAt, IntAt, StoredMac, Holds, NumberApplied, UuidOf, MacOf, Taken;
    if mac.Some? { assert StoredMac(src, mac.value); }
    if uuid.Some? { assert Holds(src, Uuid, Text(uuid.value)); }
  }

  lemma LoadedProfileExactly(item: Json, id: string, p: Profile)
    ensures ProfileStored(item, id, p) <==> p == LoadedProfile(item, id)
  {
    forall q ensures ProfileGiven(item, id, q) <==>
      q == Profile(OrDefault(RequestOf(item).person, id), OrDefault(RequestedChannel(item), ""),
                   OrDefault(RequestedZone(item), ""), OrDefault(TextAt(item, Notes), "")) {
      ProfileGivenReads(item, id, q);
    }
    hide ProfileGiven, RequestedChannel, RequestedZone;
    var q := Profile(OrDefault(RequestOf(item).person, id), OrDefault(RequestedChannel(item), ""),
                     OrDefault(RequestedZone(item), ""), OrDefault(TextAt(item, Notes), ""));
    assert ProfileGiven(item, id, q);
  }

  lemma LoadedThresholdExactly(item: Json, now: int)
    ensures ThresholdStored(item, now) <==>
            now == Clamp(OrDefault(Or(IntAt(item, RssiThreshold), IntAt(item, Rssi)), -65))
  {
    var asked := Or(IntAt(item, RssiThreshold), IntAt(item, Rssi));
    forall n ensures asked == Some(n) <==> StoredThreshold(item, n) { }
    forall n ensures NumberApplied(StoredThreshold, item, -65, n) <==> n == OrDefault(asked, -65) {
      NumberReads(StoredThreshold, item, asked, -65, n);
    }
    hide StoredThreshold, NumberApplied;
    assert NumberApplied(StoredThreshold, item, -65, OrDefault(asked, -65));
  }

  /** A load makes of a stored item exactly this record, and skips it when there is none. */
  lemma LoadedEntryExactly(r: seq<Entry>, item: Json, e: Entry)
    ensures LoadedEntry(r, item) == Some(e) <==> Stored(r, item, e)
  {
    TextReads(item, e.id);
    LoadedProfileExactly(item, e.id, e.profile);
    LoadedThresholdExactly(item, e.tag.threshold);
    LoadedIdentityExactly(r, Source(item), e.tag.active, e.identity);
    assert OrDefault(ObjectAt(item, Beacon), item) == Source(item);
    assert Get(item, Active) == Some(Bool(false)) <==> Holds(item, Active, Bool(false));
    hide RequestedId, AsksId, ValidId, SameId, LoadedProfile, LoadedIdentity, ProfileStored, ThresholdStored, Clamp;
    hide StoredIdentity, Free, Source, Holds, Get, ObjectAt;
  }
}
