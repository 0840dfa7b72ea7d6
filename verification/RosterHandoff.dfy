/** The arm-time handoff with the real roster behind it: commands, advertisements and
    absence checks are sections of the beacon mutex. */
module RosterHandoff {
  import opened Basics
  import opened Scanner
  import opened Roster
  import opened RosterProofs
  import Alarm
  import Locks
  import NearHandoff

  function RangeOf(range: Range): Locks.Range {
    match range
    case Absent => Locks.Absent
    case Far => Locks.Far
    case Near => Locks.Near
  }

  function BeaconOf(e: Entry): Locks.Beacon { Locks.Beacon(e.tag.active, RangeOf(e.tag.range)) }

  /** The roster as the tasks see it. */
  function TableOf(r: seq<Entry>): map<string, Locks.Beacon> {
    if r == [] then map[]
    else TableOf(r[..|r| - 1])[r[|r| - 1].id := BeaconOf(r[|r| - 1])]
  }

  ghost predicate IdsDiffer(r: seq<Entry>) {
    forall i, j :: 0 <= i < j < |r| ==> r[i].id != r[j].id
  }

  lemma ValidIdsDiffer(r: seq<Entry>)
    requires Valid(r)
    ensures IdsDiffer(r)
  {
    forall i, j | 0 <= i < j < |r| ensures r[i].id != r[j].id {
      assert Distinct(r[i], r[j]);
    }
  }

  predicate HasId(r: seq<Entry>, id: string) { exists i :: 0 <= i < |r| && r[i].id == id }

  lemma HasIdOneMore(r: seq<Entry>, n: nat, id: string)
    requires |r| == n + 1
    ensures HasId(r, id) <==> HasId(r[..n], id) || r[n].id == id
  {
    if i :| 0 <= i < n && r[..n][i].id == id { assert r[i].id == id; }
    if i :| 0 <= i < |r| && r[i].id == id { if i < n { assert r[..n][i].id == id; } }
  }

  lemma {:induction false} TableHolds(r: seq<Entry>)
    requires IdsDiffer(r)
    ensures forall id :: id in TableOf(r) <==> HasId(r, id)
    ensures forall i :: 0 <= i < |r| ==> r[i].id in TableOf(r) && TableOf(r)[r[i].id] == BeaconOf(r[i])
  {
    if r != [] {
      var n := |r| - 1;
      TableHolds(r[..n]);
      forall id ensures id in TableOf(r) <==> HasId(r, id) { HasIdOneMore(r, n, id); }
      hide HasId;
      assert forall i :: 0 <= i < n ==> r[..n][i] == r[i];
    }
  }

  predicate IsNear(e: Entry) { e.tag.active && e.tag.range == Near }

  lemma NearIdsOfTable(r: seq<Entry>)
    requires IdsDiffer(r)
    ensures forall id :: id in Locks.NearIds(TableOf(r)) <==> exists i :: 0 <= i < |r| && r[i].id == id && IsNear(r[i])
  {
    TableHolds(r);
  }

  /** Every near record of the new table was one of the old. */
  ghost predicate NoNewNear(r: seq<Entry>, t: seq<Entry>) {
    forall k :: 0 <= k < |t| && IsNear(t[k]) ==> exists i :: 0 <= i < |r| && r[i].id == t[k].id && IsNear(r[i])
  }

  lemma EditStaysFar(r: seq<Entry>, e: Entry, q: Request)
    requires ValidEntry(e)
    ensures IsNear(EditEntry(r, e, q).entry) ==> IsNear(e)
    ensures EditEntry(r, e, q).entry.id == e.id
  {
    hide Taken;
    hide ValidId;
    hide ValidChannel;
    hide ValidIdentity;
  }

  lemma SameIsNoNew(r: seq<Entry>)
    ensures NoNewNear(r, r)
  {
  }

  lemma AddNoNewNear(r: seq<Entry>, j: Json, saved: bool)
    ensures NoNewNear(r, AddRecord(r, j, saved).table)
  {
    assert NewEntry(r, j).Accept? ==> !IsNear(NewEntry(r, j).value);
    hide NewEntry;
  }

  lemma RemoveNoNewNear(r: seq<Entry>, j: Json, saved: bool)
    ensures NoNewNear(r, RemoveRecord(r, j, saved).table)
  {
    hide RequestedId;
    hide IsNear;
  }

  lemma UpdateNoNewNear(r: seq<Entry>, j: Json, saved: bool)
    requires Valid(r)
    ensures NoNewNear(r, UpdateRecord(r, j, saved).table)
  {
    var id := RequestedId(j);
    var i := if id.Some? then FindId(r, id.value) else None;
    if i.Some? {
      assert ValidEntry(r[i.value]);
      EditStaysFar(r, r[i.value], RequestOf(j));
    }
    hide EditEntry;
    hide RequestOf;
    hide Valid;
    hide IsNear;
  }

  lemma CommandTables(r: seq<Entry>, j: Json, armed: bool, saved: bool)
    ensures Command(r, j, armed, saved).table in
            [r, AddRecord(r, j, saved).table, RemoveRecord(r, j, saved).table, UpdateRecord(r, j, saved).table]
  {
    hide AddRecord;
    hide RemoveRecord;
    hide UpdateRecord;
    hide AnyNear;
    hide TextAt;
    hide Destructive;
  }

  /** No roster command makes a record near. */
  lemma CommandNoNewNear(r: seq<Entry>, j: Json, armed: bool, saved: bool)
    requires Valid(r)
    ensures NoNewNear(r, Command(r, j, armed, saved).table)
  {
    SameIsNoNew(r);
    AddNoNewNear(r, j, saved);
    RemoveNoNewNear(r, j, saved);
    UpdateNoNewNear(r, j, saved);
    CommandTables(r, j, armed, saved);
    hide *;
  }

  lemma NoNewNearIds(r: seq<Entry>, t: seq<Entry>)
    requires Valid(r) && Valid(t) && NoNewNear(r, t)
    ensures Locks.NearIds(TableOf(t)) <= Locks.NearIds(TableOf(r))
  {
    ValidIdsDiffer(r);
    ValidIdsDiffer(t);
    NearIdsOfTable(r);
    NearIdsOfTable(t);
    hide TableOf;
    hide Locks.NearIds;
  }

  // ---- the tasks and the roster together ----

  datatype Bus = Bus(locks: Locks.State, roster: seq<Entry>)

  /** A critical section of the alarm tasks, the scanner's second half, or one section of
      the beacon mutex: a command, an advertisement for record i, an absence check. */
  datatype Act =
    | Region(act: Locks.Act)
    | Ask(j: Json, saves: bool)
    | Hear(i: nat, settings: Settings, now: int, rssi: int)
    | Check(settings: Settings, now: int)

  predicate OutsideTable(act: Locks.Act) { !act.Reading? && !act.Roster? }

  function Heard(r: seq<Entry>, i: nat, st: Settings, now: int, rssi: int): seq<Entry>
    requires i < |r|
  {
    r[i := r[i].(tag := OnReading(st, r[i].tag, now, rssi))]
  }

  function Checked(r: seq<Entry>, st: Settings, now: int): (t: seq<Entry>)
    ensures |t| == |r| && forall i :: 0 <= i < |r| ==> t[i] == r[i].(tag := OnCheck(st, r[i].tag, now))
  {
    seq(|r|, i requires 0 <= i < |r| => r[i].(tag := OnCheck(st, r[i].tag, now)))
  }

  /** The section of the lock model and the change of the roster, as one step. The mutex
      keeps table sections out while the scanner is between its halves. */
  function Move(c: Alarm.Config, b: Bus, a: Act): Bus {
    match a
    case Region(act) => if OutsideTable(act) then b.(locks := Locks.Do(c, b.locks, act)) else b
    case Ask(j, saves) =>
      if b.locks.ble.Free? then
        var t := Command(b.roster, j, Alarm.IsArmed(b.locks.bus.mode), saves).table;
        Bus(Locks.Do(c, b.locks, Locks.Roster(TableOf(t))), t)
      else b
    case Hear(i, st, now, rssi) =>
      if b.locks.ble.Free? && i < |b.roster| && b.roster[i].tag.active then
        var t := Heard(b.roster, i, st, now, rssi);
        Bus(Locks.Do(c, b.locks, Locks.Reading(t[i].id, RangeOf(t[i].tag.range))), t)
      else b
    case Check(st, now) =>
      if b.locks.ble.Free? then
        var t := Checked(b.roster, st, now);
        Bus(Locks.Do(c, b.locks, Locks.Roster(TableOf(t))), t)
      else b
  }

  function Run(c: Alarm.Config, b: Bus, acts: seq<Act>): Bus {
    if acts == [] then b else Move(c, Run(c, b, acts[..|acts| - 1]), acts[|acts| - 1])
  }

  /** The lock model's table is the roster, and no near child is lost. */
  ghost predicate Together(b: Bus) {
    Valid(b.roster) && b.locks.beacons == TableOf(b.roster) && NearHandoff.Handoff(b.locks)
  }

  lemma CheckedIsValid(r: seq<Entry>, st: Settings, now: int)
    requires Valid(r)
    ensures Valid(Checked(r, st, now)) && NoNewNear(r, Checked(r, st, now))
  {
    var t := Checked(r, st, now);
    forall i, j | 0 <= i < j < |r| ensures Distinct(t[i], t[j]) {
      assert Distinct(r[i], r[j]);
    }
    hide Distinct;
    hide ValidId;
    hide ValidIdentity;
  }

  lemma HeardIsValid(r: seq<Entry>, i: nat, st: Settings, now: int, rssi: int)
    requires Valid(r) && i < |r| && r[i].tag.active
    ensures Valid(Heard(r, i, st, now, rssi))
  {
    var t := Heard(r, i, st, now, rssi);
    assert ValidEntry(r[i]);
    assert ValidEntry(t[i]);
    ReplaceKeepsValid(r, i, t[i]);
  }

  /** The table after one record's range has changed. */
  lemma {:induction false} HeardTable(r: seq<Entry>, i: nat, e: Entry)
    requires IdsDiffer(r) && i < |r| && e.id == r[i].id
    ensures TableOf(r[i := e]) == TableOf(r)[e.id := BeaconOf(e)]
  {
    var n := |r| - 1;
    if i == n {
      assert r[i := e][..n] == r[..n];
    } else {
      HeardTable(r[..n], i, e);
      assert r[i := e][..n] == r[..n][i := e];
      assert r[i].id != r[n].id;
    }
  }

  lemma HearIsReading(s: Locks.State, r: seq<Entry>, i: nat, e: Entry)
    requires IdsDiffer(r) && i < |r| && e.id == r[i].id && e.tag.active && r[i].tag.active
    requires s.ble.Free? && s.beacons == TableOf(r)
    ensures Locks.ReadingSection(s, e.id, RangeOf(e.tag.range)).beacons == TableOf(r[i := e])
  {
    HeardTable(r, i, e);
    TableHolds(r);
    hide TableOf;
  }

  lemma RegionKeepsTable(c: Alarm.Config, s: Locks.State, act: Locks.Act)
    requires OutsideTable(act)
    ensures Locks.Do(c, s, act).beacons == s.beacons
  {
  }

  lemma TableSection(s: Locks.State, r: seq<Entry>, t: seq<Entry>)
    requires Valid(r) && Valid(t) && NoNewNear(r, t) && s.ble.Free? && s.beacons == TableOf(r)
    ensures Locks.RosterSection(s, TableOf(t)).beacons == TableOf(t)
  {
    NoNewNearIds(r, t);
    hide TableOf;
    hide Valid;
    hide Locks.NearIds;
  }

  lemma TableStays(c: Alarm.Config, s: Locks.State, r: seq<Entry>, t: seq<Entry>)
    requires Valid(r) && Valid(t) && NoNewNear(r, t) && s.ble.Free? && s.beacons == TableOf(r)
    requires NearHandoff.Handoff(s)
    ensures Together(Bus(Locks.Do(c, s, Locks.Roster(TableOf(t))), t))
  {
    TableSection(s, r, t);
    NearHandoff.DoKeepsHandoff(c, s, Locks.Roster(TableOf(t)));
    hide TableOf;
    hide Valid;
    hide Locks.RosterSection;
    hide NearHandoff.Handoff;
  }

  lemma HearStays(c: Alarm.Config, s: Locks.State, r: seq<Entry>, i: nat, st: Settings, now: int, rssi: int)
    requires Together(Bus(s, r)) && s.ble.Free? && i < |r| && r[i].tag.active
    ensures var t := Heard(r, i, st, now, rssi);
      Together(Bus(Locks.Do(c, s, Locks.Reading(t[i].id, RangeOf(t[i].tag.range))), t))
  {
    var t := Heard(r, i, st, now, rssi);
    assert t[i].tag.active && t[i].id == r[i].id;
    HeardIsValid(r, i, st, now, rssi);
    ValidIdsDiffer(r);
    HearIsReading(s, r, i, t[i]);
    NearHandoff.DoKeepsHandoff(c, s, Locks.Reading(t[i].id, RangeOf(t[i].tag.range)));
    hide TableOf;
    hide Valid;
    hide IdsDiffer;
    hide OnReading;
    hide Locks.ReadingSection;
    hide NearHandoff.Handoff;
  }

  lemma MoveTogether(c: Alarm.Config, b: Bus, a: Act)
    requires Together(b)
    ensures Together(Move(c, b, a))
  {
    match a
    case Region(act) =>
      if OutsideTable(act) {
        RegionKeepsTable(c, b.locks, act);
        NearHandoff.DoKeepsHandoff(c, b.locks, act);
      }
    case Ask(j, saves) =>
      if b.locks.ble.Free? {
        var armed := Alarm.IsArmed(b.locks.bus.mode);
        CommandKeepsValid(b.roster, j, armed, saves);
        CommandNoNewNear(b.roster, j, armed, saves);
        TableStays(c, b.locks, b.roster, Command(b.roster, j, armed, saves).table);
        hide *;
      }
    case Hear(i, st, now, rssi) =>
      if b.locks.ble.Free? && i < |b.roster| && b.roster[i].tag.active {
        HearStays(c, b.locks, b.roster, i, st, now, rssi);
      }
    case Check(st, now) =>
      if b.locks.ble.Free? {
        CheckedIsValid(b.roster, st, now);
        TableStays(c, b.locks, b.roster, Checked(b.roster, st, now));
      }
  }

  /** Over every interleaving of the tasks' critical sections with roster commands,
      advertisements and absence checks, from any valid roster: the roster stays valid, and
      once an arm-time scan is over and while the bus stays armed, every active NEAR record
      has been offered to the distress queue since that transition. */
  lemma {:induction false} NoRosterChildLost(c: Alarm.Config, raw: bool, now: int, r: seq<Entry>, acts: seq<Act>)
    requires Valid(r)
    ensures Together(Run(c, Bus(Locks.Initial(raw, now, TableOf(r)), r), acts))
  {
    hide Move;
    hide Together;
    if acts == [] {
      StartsTogether(raw, now, r);
    } else {
      var b := Bus(Locks.Initial(raw, now, TableOf(r)), r);
      NoRosterChildLost(c, raw, now, r, acts[..|acts| - 1]);
      MoveTogether(c, Run(c, b, acts[..|acts| - 1]), acts[|acts| - 1]);
    }
  }

  lemma StartsTogether(raw: bool, now: int, r: seq<Entry>)
    requires Valid(r)
    ensures Together(Bus(Locks.Initial(raw, now, TableOf(r)), r))
  {
    hide Valid;
    hide TableOf;
  }

  /** In terms of records: the ids of the near records are those the handoff speaks of. */
  lemma NearRecordOffered(b: Bus, i: nat, k: nat)
    requires Together(b) && i < |b.locks.log| && NearHandoff.ScanOver(b.locks.log, i)
    requires k < |b.roster| && IsNear(b.roster[k])
    ensures NearHandoff.OfferedSince(b.locks.log, i + 1, b.roster[k].id) ||
            b.locks.ble == Locks.Deciding(b.roster[k].id)
  {
    ValidIdsDiffer(b.roster);
    NearIdsOfTable(b.roster);
    hide TableOf;
    hide Valid;
    hide NearHandoff.ScanOver;
    hide NearHandoff.OfferedSince;
    assert NearHandoff.AllOffered(b.locks, i);
  }
}
