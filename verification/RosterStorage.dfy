/** The saved roster and the table in memory. */
module RosterStorage {
  import opened Basics
  import opened BeaconText
  import opened Scanner
  import opened Roster
  import opened RosterProofs

  // ---- round trip ----

  lemma IdentityLoads(r: seq<Entry>, identity: Identity, threshold: int, live: bool)
    requires ValidIdentity(identity)
    requires identity.IBeacon? && live ==> !Taken(r, identity, None)
    ensures var fields := IdentityFields(identity)[RssiThreshold := Number(threshold)];
      LoadedIdentity(r, Object(fields), live) == Some(identity)
  {
    hide UuidOf;
    hide MacOf;
    hide UuidText;
    hide MacText;
    hide Taken;
    match identity
    case MacAddress(mac) => MacTextParses(mac);
    case IBeacon(uuid, major, minor) => UuidTextParses(uuid);
  }

  lemma RecordFields(e: Entry, floor: int)
    ensures var j := RecordJson(e, floor);
      && RequestedId(j) == Some(e.id) && Get(j, PersonName) == Some(Text(e.profile.person))
      && Get(j, DiscordChannelId) == Some(Text(e.profile.channel))
      && Get(j, HomeZoneEntity) == Some(Text(e.profile.zone)) && Get(j, Notes) == Some(Text(e.profile.notes))
      && Get(j, Active) == Some(Bool(e.tag.active)) && IntAt(j, RssiThreshold) == Some(e.tag.threshold)
      && ObjectAt(j, Beacon) == Some(Object(IdentityFields(e.identity)[RssiThreshold := Number(e.tag.threshold)]))
  {
    hide ShownFields;
    hide IdentityFields;
  }

  lemma ProfileLoads(e: Entry, floor: int)
    requires ValidEntry(e)
    ensures LoadedProfile(RecordJson(e, floor), e.id) == e.profile
  {
    RecordFields(e, floor);
    hide RecordJson;
    hide ValidId;
    hide ValidIdentity;
  }

  lemma RecordLoads(r: seq<Entry>, e: Entry, floor: int)
    requires Fits(r, e)
    ensures LoadedEntry(r, RecordJson(e, floor)) == Some(Restarted(e))
  {
    RecordFields(e, floor);
    ProfileLoads(e, floor);
    IdentityLoads(r, e.identity, e.tag.threshold, e.tag.active);
    hide RecordJson;
    hide LoadedProfile;
    hide LoadedIdentity;
    hide ValidId;
    hide ValidIdentity;
    hide IdentityFields;
    hide FindId;
    hide RequestedId;
    hide IntAt;
    hide ObjectAt;
  }

  /** A record of a valid roster fits behind the restarted records before it. */
  lemma FitsBehind(r: seq<Entry>, k: nat)
    requires Valid(r) && k < |r|
    ensures Fits(RestartedAll(r[..k]), r[k])
  {
    var before := RestartedAll(r[..k]);
    forall i | 0 <= i < k ensures Distinct(before[i], r[k]) && before[i].id == r[i].id {
      assert Distinct(r[i], r[k]);
    }
    assert ValidEntry(r[k]);
    hide ValidEntry;
  }

  function RecordJsons(r: seq<Entry>, floor: int): (s: seq<Json>)
    ensures |s| == |r|
  {
    seq(|r|, i requires 0 <= i < |r| => RecordJson(r[i], floor))
  }

  lemma LastItemLoads(items: seq<Json>, before: seq<Json>, item: Json, e: Entry)
    requires items == before + [item] && |LoadedItems(before)| < MAX_BEACONS
    requires LoadedEntry(LoadedItems(before), item) == Some(e)
    ensures LoadedItems(items) == LoadedItems(before) + [e]
  {
    hide LoadedEntry;
    assert items[..|items| - 1] == before;
  }

  lemma OneMoreRecord(r: seq<Entry>, n: nat, floor: int)
    requires |r| == n + 1
    ensures RecordJsons(r, floor) == RecordJsons(r[..n], floor) + [RecordJson(r[n], floor)]
    ensures RestartedAll(r) == RestartedAll(r[..n]) + [Restarted(r[n])]
  {
    hide RecordJson;
    hide Restarted;
  }

  lemma PrefixValid(r: seq<Entry>, n: nat)
    requires Valid(r) && n <= |r|
    ensures Valid(r[..n]) && |r| <= MAX_BEACONS
  {
    hide Distinct;
    hide ValidEntry;
  }

  lemma {:induction false} RecordsLoad(r: seq<Entry>, floor: int)
    requires Valid(r)
    ensures LoadedItems(RecordJsons(r, floor)) == RestartedAll(r)
  {
    if r == [] {
      assert RecordJsons(r, floor) == [];
    } else {
      hide *;
      var n := |r| - 1;
      PrefixValid(r, n);
      RecordsLoad(r[..n], floor);
      FitsBehind(r, n);
      RecordLoads(RestartedAll(r[..n]), r[n], floor);
      OneMoreRecord(r, n, floor);
      LastItemLoads(RecordJsons(r, floor), RecordJsons(r[..n], floor), RecordJson(r[n], floor), Restarted(r[n]));
    }
  }

  /** Saving a valid roster and restarting gives the same records in the same order,
      with the scanner's fields reset. */
  lemma SavedRosterLoads(r: seq<Entry>, floor: int, timestamp: string)
    requires Valid(r)
    ensures Load(RosterJson(r, floor, timestamp)) == RestartedAll(r)
  {
    hide LoadedItems;
    hide RecordJson;
    hide Valid;
    hide Restarted;
    RecordsLoad(r, floor);
    assert ItemsOf(RosterJson(r, floor, timestamp)) == RecordJsons(r, floor);
  }

  // ---- memory and storage over runs ----

  /** `saved` is the tree in storage, None before the first save. */
  datatype System = System(table: seq<Entry>, saved: Option<Json>)

  /** A roster command with the outcome of the save it may attempt, an advertisement or
      absence check for one record, or a restart. */
  datatype Act =
    | Ask(j: Json, armed: bool, saves: bool, floor: int, timestamp: string)
    | Scan(i: nat, settings: Settings, happening: Happening)
    | Restart

  function Stored(s: Option<Json>): seq<Entry> {
    if s.Some? then Load(s.value) else []
  }

  /** The command got as far as a save that succeeded. */
  predicate Saves(r: seq<Entry>, a: Act)
    requires a.Ask?
  {
    Command(r, a.j, a.armed, a.saves).reply.Accept? && TextAt(a.j, Action) != Some("list")
  }

  predicate Heard(h: Happening) { h.Reading? || h.Check? }

  function Move(s: System, a: Act): System {
    match a
    case Ask(j, armed, saves, floor, timestamp) =>
      var table := Command(s.table, j, armed, saves).table;
      System(table, if Saves(s.table, a) then Some(RosterJson(table, floor, timestamp)) else s.saved)
    case Scan(i, settings, h) =>
      if i < |s.table| && Heard(h) then
        s.(table := s.table[i := s.table[i].(tag := Step(settings, s.table[i].tag, h))])
      else s
    case Restart => s.(table := Stored(s.saved))
  }

  function Run(s: System, acts: seq<Act>): System {
    if acts == [] then s else Move(Run(s, acts[..|acts| - 1]), acts[|acts| - 1])
  }

  lemma ScanKeepsRecord(settings: Settings, e: Entry, h: Happening)
    requires Heard(h)
    ensures var e1 := e.(tag := Step(settings, e.tag, h));
      Restarted(e1) == Restarted(e) && (ValidEntry(e) ==> ValidEntry(e1))
  {
    hide ValidId;
    hide ValidIdentity;
  }

  lemma MoveKeepsValid(s: System, a: Act)
    requires Valid(s.table)
    ensures Valid(Move(s, a).table)
  {
    match a
    case Ask(j, armed, saves, _, _) =>
      CommandKeepsValid(s.table, j, armed, saves);
      hide Valid;
      hide Command;
    case Scan(i, settings, h) =>
      if i < |s.table| && Heard(h) {
        ScanKeepsRecord(settings, s.table[i], h);
        hide Step;
        hide ValidEntry;
        ReplaceKeepsValid(s.table, i, Move(s, a).table[i]);
      }
    case Restart =>
      if s.saved.Some? { LoadValid(s.saved.value); }
  }

  /** Commands, advertisements and restarts in any order, whatever is in storage at first. */
  lemma {:induction false} RunsKeepValid(saved: Option<Json>, acts: seq<Act>)
    ensures Valid(Run(System(Stored(saved), saved), acts).table)
  {
    hide Move;
    hide Valid;
    if acts == [] {
      if saved.Some? { LoadValid(saved.value); } else { EmptyIsValid(); }
    } else {
      RunsKeepValid(saved, acts[..|acts| - 1]);
      MoveKeepsValid(Run(System(Stored(saved), saved), acts[..|acts| - 1]), acts[|acts| - 1]);
    }
  }

  lemma EmptyIsValid()
    ensures Valid([])
  {
  }

  /** Storage holds what memory holds, except for the scanner's fields. */
  ghost predicate InStep(s: System) {
    Stored(s.saved) == RestartedAll(s.table)
  }

  // ---- updates refused half-way ----

  predicate Changes(wanted: Option<string>, current: string) {
    wanted.Some? && wanted.value != current
  }

  /** The update fails a check that comes after a field it has already changed: the
      checks of channel, rssi and activation follow copies of what is before them. */
  predicate StopsHalfWay(r: seq<Entry>, e: Entry, q: Request) {
    var person := Changes(q.person, e.profile.person);
    var texts := Changes(q.channel, e.profile.channel) || Changes(q.zone, e.profile.zone) ||
                 Changes(q.notes, e.profile.notes);
    EarlyError(q).None? &&
    if BadChannel(q) then person
    else if BadRssi(q) then person || texts
    else BadActivation(r, e, q) && (person || texts || NextThreshold(e, q) != e.tag.threshold)
  }

  lemma EditChangesExactly(r: seq<Entry>, e: Entry, q: Request)
    requires EarlyError(q).None?
    ensures var d := EditEntry(r, e, q);
      && (d.error.Some? <==> BadChannel(q) || BadRssi(q) || BadActivation(r, e, q))
      && (d.error.Some? ==> d.entry.tag == e.tag.(threshold := d.entry.tag.threshold))
      && (d.error.Some? && Restarted(d.entry) != Restarted(e) <==> StopsHalfWay(r, e, q))
  {
    hide Taken;
    hide ValidChannel;
  }

  /** The command is an update of an existing record that stops half-way. */
  predicate LeavesPartialEdit(r: seq<Entry>, j: Json, armed: bool) {
    && TextAt(j, Action) == Some("update")
    && !(Destructive(j, "update") && (armed || AnyNear(r)))
    && RequestedId(j).Some?
    && var i := FindId(r, RequestedId(j).value);
       i.Some? && StopsHalfWay(r, r[i.value], RequestOf(j))
  }

  lemma UpdateRefusal(r: seq<Entry>, j: Json, saved: bool)
    ensures var o := UpdateRecord(r, j, saved);
      var id := RequestedId(j);
      var half := id.Some? && FindId(r, id.value).Some? && StopsHalfWay(r, r[FindId(r, id.value).value], RequestOf(j));
      && (half <==> o.reply.Refuse? && o.table != r)
      && (half <==> o.reply.Refuse? && RestartedAll(o.table) != RestartedAll(r))
  {
    var id := RequestedId(j);
    var i := if id.Some? then FindId(r, id.value) else None;
    var q := RequestOf(j);
    hide RequestOf;
    hide StopsHalfWay;
    if i.Some? && EarlyError(q).None? {
      var e := r[i.value];
      var d := EditEntry(r, e, q);
      EditChangesExactly(r, e, q);
      EditKeepsTagOrRestarts(r, e, q);
      hide EditEntry;
      var s := r[i.value := d.entry];
      assert s[i.value] == d.entry;
      if Restarted(d.entry) == Restarted(e) {
        assert RestartedAll(s) == RestartedAll(r);
      } else {
        assert RestartedAll(s)[i.value] != RestartedAll(r)[i.value];
      }
      if d.entry == e { assert s == r; }
    }
    if i.Some? && EarlyError(q).Some? {
      HalfWayNeedsNoEarlyError(r, r[i.value], q);
    }
  }

  lemma HalfWayNeedsNoEarlyError(r: seq<Entry>, e: Entry, q: Request)
    ensures StopsHalfWay(r, e, q) ==> EarlyError(q).None?
  {
  }

  lemma EditKeepsTagOrRestarts(r: seq<Entry>, e: Entry, q: Request)
    ensures var d := EditEntry(r, e, q);
      d.error.Some? && Restarted(d.entry) == Restarted(e) ==> d.entry == e
  {
    hide Taken;
    hide ValidChannel;
  }

  /** A refused command leaves the table exactly as it was, failed saves included, unless
      it is an update that stops half-way. */
  lemma RefusalRestoresExactly(r: seq<Entry>, j: Json, armed: bool, saved: bool)
    ensures var o := Command(r, j, armed, saved);
      o.reply.Refuse? && o.table != r <==> LeavesPartialEdit(r, j, armed)
    ensures LeavesPartialEdit(r, j, armed) ==>
      RestartedAll(Command(r, j, armed, saved).table) != RestartedAll(r)
  {
    UpdateRefusal(r, j, saved);
    hide UpdateRecord;
    hide NewEntry;
    hide FindId;
    hide StopsHalfWay;
    hide RequestOf;
    hide AnyNear;
  }

  /** Memory and storage stay in step through every command, accepted or refused, every
      failed save, every advertisement and every restart, except exactly when an update
      stops half-way. */
  lemma StaysInStep(s: System, a: Act)
    requires Valid(s.table) && InStep(s)
    ensures InStep(Move(s, a)) <==> !(a.Ask? && LeavesPartialEdit(s.table, a.j, a.armed))
  {
    match a
    case Ask(j, armed, saves, floor, timestamp) =>
      CommandKeepsValid(s.table, j, armed, saves);
      RefusalRestoresExactly(s.table, j, armed, saves);
      ListIsQuiet(s.table, j, armed, saves);
      var table := Command(s.table, j, armed, saves).table;
      SavedRosterLoads(table, floor, timestamp);
      hide Command;
      hide Valid;
      hide Load;
      hide LeavesPartialEdit;
      hide RosterJson;
    case Scan(i, settings, h) =>
      if i < |s.table| && Heard(h) {
        ScanKeepsRecord(settings, s.table[i], h);
        hide Step;
        hide Stored;
        assert RestartedAll(Move(s, a).table) == RestartedAll(s.table);
      }
    case Restart =>
      hide Stored;
      assert RestartedAll(RestartedAll(s.table)) == RestartedAll(s.table);
  }

  lemma ListIsQuiet(r: seq<Entry>, j: Json, armed: bool, saved: bool)
    ensures TextAt(j, Action) == Some("list") ==> Command(r, j, armed, saved) == Outcome(r, Accept(""))
  {
  }

  /** However far memory has drifted, the next command that saves brings storage in step. */
  lemma SaveBringsInStep(s: System, a: Act)
    requires Valid(s.table) && a.Ask? && Saves(s.table, a)
    ensures InStep(Move(s, a))
  {
    CommandKeepsValid(s.table, a.j, a.armed, a.saves);
    hide Command;
    hide Valid;
    hide Load;
    hide RosterJson;
    SavedRosterLoads(Move(s, a).table, a.floor, a.timestamp);
  }
}
