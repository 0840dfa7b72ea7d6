/** Runs of the roster on which the tempting claims fail. */
module RosterWitness {
  import opened Basics
  import opened BeaconText
  import opened Scanner
  import opened Roster
  import opened RosterStorage
  import opened RosterAnswers

  const ADDRESS: seq<Byte> := [1, 2, 3, 4, 5, 6]

  function AddRequest(id: string): Json {
    Object(map[Action := Text("add"), Id := Text(id), Type := Text("mac"), Mac := Text(MacText(ADDRESS))])
  }

  /** The record such a request adds. */
  function Plain(id: string): Entry {
    Entry(id, Profile(id, "", "", ""), MacAddress(ADDRESS), Tag(true, -65, Absent, 0, 0, 0))
  }

  lemma PlainIdentity(r: seq<Entry>, id: string)
    ensures NewIdentity(r, AddRequest(id)) == Accept(MacAddress(ADDRESS))
  {
    MacTextParses(ADDRESS);
    hide MacText;
    hide MacOf;
    hide UuidOf;
    hide Taken;
  }

  lemma PlainFields(id: string)
    requires ValidId(id)
    ensures RequestedId(AddRequest(id)) == Some(id) && NewThreshold(AddRequest(id)) == -65
    ensures NewProfile(AddRequest(id), id) == Accept(Profile(id, "", "", ""))
    ensures TextAt(AddRequest(id), Action) == Some("add")
  {
    hide MacText;
  }

  lemma PlainAdds(r: seq<Entry>, id: string)
    requires |r| < MAX_BEACONS && ValidId(id) && FindId(r, id).None?
    ensures Command(r, AddRequest(id), false, true) == Outcome(r + [Plain(id)], Accept(id))
  {
    PlainIdentity(r, id);
    PlainFields(id);
    NewEntryReads(r, Plain(id), AddRequest(id));
    hide AddRequest;
    hide NewEntry;
    hide FindId;
    hide AnyNear;
    hide ValidId;
  }

  function AddAct(id: string): Act { Ask(AddRequest(id), false, true, -100, "") }

  const EMPTY_SYSTEM := System([], None)

  lemma RunOneMore(s: System, acts: seq<Act>, a: Act)
    ensures Run(s, acts + [a]) == Move(Run(s, acts), a) && Run(s, []) == s
  {
    hide Move;
    assert (acts + [a])[..|acts|] == acts;
  }

  lemma OneChild() returns (acts: seq<Act>)
    ensures Run(EMPTY_SYSTEM, acts).table == [Plain("a")]
  {
    assert FindId([], "a").None?;
    PlainAdds([], "a");
    hide Command;
    acts := [] + [AddAct("a")];
    RunOneMore(EMPTY_SYSTEM, [], AddAct("a"));
  }

  /** Two children with one MAC address: the second is never found. */
  lemma SharedMacReachable() returns (acts: seq<Act>)
    ensures var r := Run(EMPTY_SYSTEM, acts).table;
      && |r| == 2 && r[1].tag.active
      && FindIdentity(r, r[1].identity) == Some(0)
  {
    var before := OneChild();
    var r := [Plain("a")];
    assert UpperText("a")[0] == 'A' && UpperText("b")[0] == 'B';
    assert !SameId(r[0].id, "b");
    PlainAdds(r, "b");
    RunOneMore(EMPTY_SYSTEM, before, AddAct("b"));
    acts := before + [AddAct("b")];
    MacFoundExactly(r + [Plain("b")], 0);
    hide Command;
    hide Run;
  }

  /** A person name, and an rssi that is not a number. */
  const HALF_WAY := Object(map[Action := Text("update"), Id := Text("a"), PersonName := Text("B"), Rssi := Null])

  /** A refused update that leaves its first change behind. */
  lemma HalfWayReachable() returns (acts: seq<Act>)
    ensures var r := Run(EMPTY_SYSTEM, acts).table;
      && LeavesPartialEdit(r, HALF_WAY, false)
      && Command(r, HALF_WAY, false, true).reply.Refuse? && Command(r, HALF_WAY, false, true).table != r
  {
    acts := OneChild();
    HalfWayRequest([Plain("a")]);
    RefusalRestoresExactly([Plain("a")], HALF_WAY, false, true);
    hide *;
  }

  lemma HalfWayRequest(r: seq<Entry>)
    requires r == [Plain("a")]
    ensures LeavesPartialEdit(r, HALF_WAY, false)
  {
    assert SameId(r[0].id, "a");
    assert FindId(r, "a") == Some(0);
    assert RequestOf(HALF_WAY).person == Some("B") && RequestOf(HALF_WAY).rssi == Some(Null);
    assert "B" != "a" && "update" != "remove";
    assert StopsHalfWay(r, r[0], RequestOf(HALF_WAY));
    hide StopsHalfWay;
    hide RequestOf;
    hide FindId;
  }

  /** An `active` that is null. */
  const NULL_ACTIVE := Object(map[Action := Text("update"), Id := Text("a"), Active := Null])

  /** On an armed bus a child is taken out of monitoring. */
  lemma SlipReachable() returns (acts: seq<Act>)
    ensures var r := Run(EMPTY_SYSTEM, acts).table;
      && SlipsThrough(NULL_ACTIVE, "a", true)
      && Monitored(r, "a") && !Monitored(Command(r, NULL_ACTIVE, true, true).table, "a")
  {
    acts := OneChild();
    var r := [Plain("a")];
    EmptyIsStored();
    RunsKeepValid(None, acts);
    NullActiveSlips();
    ChildMonitored(r);
    GuardHoldsExactly(r, NULL_ACTIVE, true, true, 0);
    hide *;
  }

  lemma EmptyIsStored()
    ensures System(Stored(None), None) == EMPTY_SYSTEM
  {
  }

  lemma ChildMonitored(r: seq<Entry>)
    requires r == [Plain("a")]
    ensures |r| == 1 && r[0].id == "a" && r[0].tag.active && Monitored(r, "a")
  {
    assert SameId(r[0].id, "a");
  }

  lemma NullActiveSlips()
    ensures SlipsThrough(NULL_ACTIVE, "a", true)
  {
    var q := RequestOf(NULL_ACTIVE);
    assert q == Request(None, None, None, None, None, Some(Null));
    assert SameId("a", "a");
    hide RequestOf;
    hide SameId;
  }

  /** A child heard once at -50: its record as listed changes it when sent back. */
  lemma ListedRecordHarms(st: Scanner.Settings) returns (acts: seq<Act>)
    ensures var r := Run(EMPTY_SYSTEM, acts).table;
      && |r| == 1 && UpdateRecord(r, RecordJson(r[0], -100), true).table != r
  {
    var before := OneChild();
    var hear := Scan(0, st, Reading(1, -50));
    RunOneMore(EMPTY_SYSTEM, before, hear);
    acts := before + [hear];
    var r := Run(EMPTY_SYSTEM, acts).table;
    assert r[0].tag.rssi == -50 && r[0].tag.threshold == -65 && r[0].profile.channel == "";
    RunsKeepValid(None, acts);
    ListedRecordUpdates(r, 0, -100);
    hide Run;
    hide Valid;
    hide UpdateRecord;
    hide RecordJson;
  }
}
