/** The bounded beacon table of main/beacon_config.c, changed in place. */
module RosterTable {
  import opened Basics
  import opened BeaconText
  import opened Scanner
  import opened Roster

  const EMPTY := Entry("", Profile("", "", "", ""), MacAddress([]), Tag(false, 0, Absent, 0, 0, 0))

  /** `s_beacons` and `s_count`; `saved` is whether a save attempted now would succeed. */
  class Table {
    const beacons: array<Entry>
    var count: nat

    ghost predicate Shaped()
      reads this
    {
      beacons.Length == MAX_BEACONS && count <= MAX_BEACONS
    }

    ghost function View(): seq<Entry>
      reads this, beacons
      requires Shaped()
    {
      beacons[..count]
    }

    constructor ()
      ensures Shaped() && View() == [] && fresh(beacons)
    {
      beacons := new Entry[MAX_BEACONS](i => EMPTY);
      count := 0;
    }

    // ---- searches ----

    method FindById(id: string) returns (found: Option<nat>)
      requires Shaped()
      ensures found == FindId(View(), id)
    {
      for i := 0 to count
        invariant forall k :: 0 <= k < i ==> !SameId(beacons[k].id, id)
      {
        if SameId(beacons[i].id, id) {
          return Some(i);
        }
      }
      return None;
    }

    /** find_by_mac and find_by_ibeacon: only live records are looked at. */
    method FindByIdentity(identity: Identity) returns (found: Option<nat>)
      requires Shaped()
      ensures found == FindIdentity(View(), identity)
    {
      for i := 0 to count
        invariant forall k :: 0 <= k < i ==> !(beacons[k].tag.active && beacons[k].identity == identity)
      {
        if beacons[i].tag.active && beacons[i].identity == identity {
          return Some(i);
        }
      }
      return None;
    }

    method DuplicateIBeacon(identity: Identity, except: Option<string>) returns (taken: bool)
      requires Shaped()
      ensures taken == Taken(View(), identity, except)
    {
      for i := 0 to count
        invariant forall k :: 0 <= k < i ==>
          !(LiveIBeacon(beacons[k]) && beacons[k].identity == identity &&
            !(except.Some? && SameId(beacons[k].id, except.value)))
      {
        if except.Some? && SameId(beacons[i].id, except.value) { continue; }
        if !LiveIBeacon(beacons[i]) { continue; }
        if beacons[i].identity == identity {
          assert View()[i] == beacons[i];
          return true;
        }
      }
      return false;
    }

    method AnyNearLocked() returns (near: bool)
      requires Shaped()
      ensures near == AnyNear(View())
    {
      for i := 0 to count
        invariant forall k :: 0 <= k < i ==> !(beacons[k].tag.active && beacons[k].tag.range == Near)
      {
        if beacons[i].tag.active && beacons[i].tag.range == Near {
          assert View()[i] == beacons[i];
          return true;
        }
      }
      return false;
    }

    // ---- commands ----

    method ReadIdentity(j: Json) returns (identity: Decision<Identity>)
      requires Shaped()
      ensures identity == NewIdentity(View(), j)
    {
      var kind := OrDefault(TextNear(j, Type), "ibeacon");
      if kind == "mac" {
        var text := Or(TextNear(j, Mac), TextNear(j, Value));
        var mac: Option<seq<Byte>> := None;
        if text.Some? { mac := ParseMac(text.value); }
        if mac.None? { return Refuse(InvalidMac); }
        return Accept(MacAddress(mac.value));
      }
      if kind != "ibeacon" { return Refuse(InvalidType); }
      var text := TextNear(j, Uuid);
      var uuid: Option<seq<Byte>> := None;
      if text.Some? { uuid := ParseUuid(text.value); }
      if uuid.None? { return Refuse(InvalidUuid); }
      var major, minor := OrDefault(IntNear(j, Major), 0), OrDefault(IntNear(j, Minor), 0);
      if major < 0 || major > 65535 || minor < 0 || minor > 65535 { return Refuse(InvalidMajorMinor); }
      var taken := DuplicateIBeacon(IBeacon(uuid.value, major, minor), None);
      if taken { return Refuse(Error.DuplicateIBeacon); }
      return Accept(IBeacon(uuid.value, major, minor));
    }

    method ReadEntry(j: Json) returns (entry: Decision<Entry>)
      requires Shaped()
      ensures entry == NewEntry(View(), j)
    {
      var id := RequestedId(j);
      if count >= MAX_BEACONS { return Refuse(Error.MaxRecords); }
      if id.None? || !ValidId(id.value) { return Refuse(InvalidId); }
      var known := FindById(id.value);
      if known.Some? { return Refuse(DuplicateId); }
      var profile := NewProfile(j, id.value);
      if profile.Refuse? { return Refuse(profile.error); }
      var threshold := NewThreshold(j);
      if threshold < -127 || threshold > 0 { return Refuse(InvalidRssi); }
      var identity := ReadIdentity(j);
      if identity.Refuse? { return Refuse(identity.error); }
      return Accept(Entry(id.value, profile.value, identity.value, Tag(true, threshold, Absent, 0, 0, 0)));
    }

    /** Append, try to save, and take the record back when that fails. */
    method AddBeacon(j: Json, saved: bool) returns (reply: Decision<string>)
      requires Shaped()
      modifies this`count, beacons
      ensures Shaped() && Outcome(View(), reply) == AddRecord(old(View()), j, saved)
    {
      var entry := ReadEntry(j);
      if entry.Refuse? { return Refuse(entry.error); }
      hide NewEntry;
      ghost var before := View();
      beacons[count] := entry.value;
      count := count + 1;
      assert View() == before + [entry.value];
      if !saved {
        count := count - 1;
        assert View() == before;
        return Refuse(SaveFailed);
      }
      return Accept(entry.value.id);
    }

    /** Close the gap, try to save, and open it again when that fails. */
    method RemoveBeacon(j: Json, saved: bool) returns (reply: Decision<string>)
      requires Shaped()
      modifies this`count, beacons
      ensures Shaped() && Outcome(View(), reply) == RemoveRecord(old(View()), j, saved)
    {
      hide RequestedId;
      hide ValidId;
      var id := RequestedId(j);
      if id.None? || !ValidId(id.value) { return Refuse(InvalidId); }
      var found := FindById(id.value);
      if found.None? { return Refuse(NotFound); }
      hide SameId;
      var i := found.value;
      ghost var before := View();
      var removed := beacons[i];
      CloseGap(i);
      if !saved {
        OpenGap(i, removed);
        GapRefilled(before, i);
        return Refuse(SaveFailed);
      }
      return Accept(removed.id);
    }

    /** memmove one down. */
    method CloseGap(i: nat)
      requires Shaped() && i < count
      modifies this`count, beacons
      ensures Shaped() && View() == old(View())[..i] + old(View())[i + 1..]
    {
      forall k | i <= k < count - 1 { beacons[k] := beacons[k + 1]; }
      count := count - 1;
    }

    /** memmove one up and put the record into the gap. */
    method OpenGap(i: nat, entry: Entry)
      requires Shaped() && i <= count < MAX_BEACONS
      modifies this`count, beacons
      ensures Shaped() && View() == old(View())[..i] + [entry] + old(View())[i..]
    {
      forall k | i < k <= count { beacons[k] := beacons[k - 1]; }
      beacons[i] := entry;
      count := count + 1;
    }

    /** Fields are copied one by one, each behind its own check. */
    method EditInPlace(i: nat, q: Request) returns (error: Option<Error>)
      requires Shaped() && i < count
      modifies beacons
      ensures Shaped() && Edit(beacons[i], error) == EditEntry(old(View()), old(beacons[i]), q)
      ensures View() == old(View())[i := beacons[i]]
    {
      ghost var before := View();
      var was := beacons[i].tag.threshold;
      beacons[i] := WithPerson(beacons[i], q);
      if BadChannel(q) { return Some(InvalidChannel); }
      beacons[i] := WithTexts(beacons[i], q);
      if BadRssi(q) { return Some(InvalidRssi); }
      if q.rssi.Some? {
        beacons[i] := beacons[i].(tag := beacons[i].tag.(threshold := q.rssi.value.number));
      }
      if q.active.Some? {
        var willBeActive := q.active == Some(Bool(true));
        if willBeActive && !beacons[i].tag.active && beacons[i].identity.IBeacon? {
          var taken := DuplicateIBeacon(beacons[i].identity, Some(beacons[i].id));
          TakenIgnoresItself(before, i, beacons[i]);
          assert View() == before[i := beacons[i]];
          if taken { return Some(Error.DuplicateIBeacon); }
        }
        beacons[i] := beacons[i].(tag := OnSetActive(beacons[i].tag, willBeActive));
      }
      if beacons[i].tag.threshold != was {
        beacons[i] := beacons[i].(tag := beacons[i].tag.(range := Absent, nearSince := 0, lastSeen := 0));
      }
      return None;
    }

    method UpdateBeacon(j: Json, saved: bool) returns (reply: Decision<string>)
      requires Shaped()
      modifies beacons
      ensures Shaped() && Outcome(View(), reply) == UpdateRecord(old(View()), j, saved)
    {
      var id := RequestedId(j);
      var found: Option<nat> := None;
      if id.Some? { found := FindById(id.value); }
      if found.None? { return Refuse(NotFound); }
      var q := RequestOf(j);
      var early := EarlyError(q);
      if early.Some? { return Refuse(early.value); }
      ghost var before := View();
      var i := found.value;
      var snapshot := beacons[i];
      var error := EditInPlace(i, q);
      if error.Some? { return Refuse(error.value); }
      if !saved {
        beacons[i] := snapshot;
        assert View() == before;
        return Refuse(SaveFailed);
      }
      return Accept(beacons[i].id);
    }

    /** One command message; refusals before the command leave everything alone. */
    method HandleMqtt(j: Json, armed: bool, saved: bool) returns (reply: Decision<string>)
      requires Shaped()
      modifies this`count, beacons
      ensures Shaped() && Outcome(View(), reply) == Command(old(View()), j, armed, saved)
    {
      hide AddRecord;
      hide RemoveRecord;
      hide UpdateRecord;
      hide AnyNear;
      var action := TextAt(j, Action);
      if action.None? { return Refuse(MissingAction); }
      if Destructive(j, action.value) {
        if armed { return Refuse(BusArmed); }
        var near := AnyNearLocked();
        if near { return Refuse(BeaconNear); }
      }
      if action.value == "add" {
        reply := AddBeacon(j, saved);
      } else if action.value == "remove" {
        reply := RemoveBeacon(j, saved);
      } else if action.value == "update" {
        reply := UpdateBeacon(j, saved);
      } else if action.value == "list" {
        reply := Accept("");
      } else {
        reply := Refuse(UnknownAction);
      }
    }

    // ---- loading ----

    /** Fill the empty table from the saved tree; items that do not make a valid record,
        or that clash with a record already loaded, are skipped. */
    method LoadFrom(j: Json)
      requires Shaped() && count == 0
      modifies this`count, beacons
      ensures Shaped() && View() == Load(j)
    {
      hide LoadedEntry;
      var items := ItemsOf(j);
      assert items[..0] == [];
      for n := 0 to |items|
        invariant Shaped() && View() == LoadedItems(items[..n])
      {
        assert items[..n + 1][..n] == items[..n];
        ghost var before := View();
        if count < MAX_BEACONS {
          var entry := ReadItem(items[n]);
          if entry.Some? {
            beacons[count] := entry.value;
            count := count + 1;
            assert View() == before + [entry.value];
          }
        }
      }
      assert items[..|items|] == items;
    }

    method ReadItem(item: Json) returns (entry: Option<Entry>)
      requires Shaped()
      ensures entry == LoadedEntry(View(), item)
    {
      hide LoadedProfile;
      hide Clamp;
      var id := RequestedId(item);
      if id.None? || !ValidId(id.value) { return None; }
      var known := FindById(id.value);
      if known.Some? { return None; }
      var live := Get(item, Active) != Some(Bool(false));
      var src := OrDefault(ObjectAt(item, Beacon), item);
      var identity := ReadLoadedIdentity(src, live);
      if identity.None? { return None; }
      var threshold := Clamp(OrDefault(Or(IntAt(item, RssiThreshold), IntAt(item, Rssi)), -65));
      var tag := Tag(live, threshold, Absent, 0, 0, 0);
      return Some(Entry(id.value, LoadedProfile(item, id.value), identity.value, tag));
    }

    method ReadLoadedIdentity(src: Json, live: bool) returns (identity: Option<Identity>)
      requires Shaped()
      ensures identity == LoadedIdentity(View(), src, live)
    {
      if TextAt(src, Type) == Some("mac") {
        var text := Or(TextAt(src, Mac), TextAt(src, Value));
        var mac: Option<seq<Byte>> := None;
        if text.Some? { mac := ParseMac(text.value); }
        return if mac.None? then None else Some(MacAddress(mac.value));
      }
      var text := TextAt(src, Uuid);
      var uuid: Option<seq<Byte>> := None;
      if text.Some? { uuid := ParseUuid(text.value); }
      if uuid.None? { return None; }
      var major, minor := OrDefault(IntAt(src, Major), 0), OrDefault(IntAt(src, Minor), 0);
      if major < 0 || major > 65535 || minor < 0 || minor > 65535 { return None; }
      if live {
        var taken := DuplicateIBeacon(IBeacon(uuid.value, major, minor), None);
        if taken { return None; }
      }
      return Some(IBeacon(uuid.value, major, minor));
    }
  }

  lemma GapRefilled(r: seq<Entry>, i: nat)
    requires i < |r|
    ensures var gone := r[..i] + r[i + 1..]; gone[..i] + [r[i]] + gone[i..] == r
  {
  }

  /** The record being edited does not count against itself. */
  lemma TakenIgnoresItself(r: seq<Entry>, i: nat, e: Entry)
    requires i < |r| && e.id == r[i].id
    ensures Taken(r[i := e], e.identity, Some(e.id)) == Taken(r, e.identity, Some(e.id))
  {
    var s := r[i := e];
    if Taken(r, e.identity, Some(e.id)) {
      var k :| 0 <= k < |r| && LiveIBeacon(r[k]) && r[k].identity == e.identity && !SameId(r[k].id, e.id);
      assert s[k] == r[k];
    }
    if Taken(s, e.identity, Some(e.id)) {
      var k :| 0 <= k < |s| && LiveIBeacon(s[k]) && s[k].identity == e.identity && !SameId(s[k].id, e.id);
      assert s[k] == r[k];
    }
  }
}
