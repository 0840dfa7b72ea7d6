/** What a caller of the roster may rely on: lookups, the destructive-change guard, undo. */
module RosterAnswers {
  import opened Basics
  import opened BeaconText
  import opened Roster
  import opened RosterProofs
  import opened RosterStorage

  /** Every live iBeacon record of a valid roster is the one its advertisements go to. */
  lemma LiveIBeaconFound(r: seq<Entry>, i: nat)
    requires Valid(r) && i < |r| && LiveIBeacon(r[i])
    ensures FindIdentity(r, r[i].identity) == Some(i)
  {
    hide ValidEntry;
    forall k | 0 <= k < |r| && k != i ensures !(r[k].tag.active && r[k].identity == r[i].identity) {
      assert k < i ==> Distinct(r[k], r[i]);
      assert k > i ==> Distinct(r[i], r[k]);
    }
  }

  /** MAC addresses are not checked for uniqueness: a live MAC record is found exactly
      when no live record before it has the same address. */
  lemma MacFoundExactly(r: seq<Entry>, i: nat)
    requires i < |r| && r[i].tag.active && r[i].identity.MacAddress?
    ensures FindIdentity(r, r[i].identity) == Some(i) <==>
            forall k :: 0 <= k < i && r[k].tag.active ==> r[k].identity != r[i].identity
  {
    hide FindIdentity;
  }

  // ---- the guard against destructive changes ----

  /** Monitoring of this child goes on. */
  ghost predicate Monitored(r: seq<Entry>, id: string) {
    exists i :: 0 <= i < |r| && SameId(r[i].id, id) && r[i].tag.active
  }

  /** An update whose `active` is there but is neither true nor false, and passes the checks. */
  predicate SlipsThrough(j: Json, id: string, saved: bool) {
    var q := RequestOf(j);
    && TextAt(j, Action) == Some("update")
    && RequestedId(j).Some? && SameId(id, RequestedId(j).value)
    && q.active.Some? && !q.active.value.Bool?
    && EarlyError(q).None? && !BadChannel(q) && !BadRssi(q) && saved
  }

  lemma EditDeactivates(r: seq<Entry>, e: Entry, q: Request)
    requires e.tag.active && EarlyError(q).None?
    ensures var d := EditEntry(r, e, q);
      && d.entry.id == e.id
      && (d.error.None? && !d.entry.tag.active <==>
          q.active.Some? && q.active.value != Bool(true) && !BadChannel(q) && !BadRssi(q))
      && (d.error.Some? ==> d.entry.tag.active)
  {
    hide Taken;
    hide ValidChannel;
  }

  lemma OnlyOneSuch(r: seq<Entry>, k: nat, id: string)
    requires Valid(r) && k < |r|
    ensures FindId(r, id) == Some(k) <==> SameId(r[k].id, id)
  {
    hide ValidEntry;
    forall i | 0 <= i < |r| && i != k ensures !SameId(r[i].id, r[k].id) {
      assert i < k ==> Distinct(r[i], r[k]);
      assert i > k ==> Distinct(r[k], r[i]);
    }
  }

  lemma MonitoredExactly(r: seq<Entry>, k: nat)
    requires k < |r| && forall i, j :: 0 <= i < j < |r| ==> Distinct(r[i], r[j])
    ensures Monitored(r, r[k].id) <==> r[k].tag.active
  {
    forall i | 0 <= i < |r| && i != k ensures !SameId(r[i].id, r[k].id) {
      assert i < k ==> Distinct(r[i], r[k]);
      assert i > k ==> Distinct(r[k], r[i]);
    }
  }

  lemma UpdateDeactivates(r: seq<Entry>, j: Json, saved: bool, k: nat)
    requires Valid(r) && k < |r| && r[k].tag.active
    ensures var t := UpdateRecord(r, j, saved).table;
      var q := RequestOf(j);
      && |t| == |r| && t[k].id == r[k].id
      && (!t[k].tag.active <==>
          && RequestedId(j).Some? && SameId(r[k].id, RequestedId(j).value)
          && q.active.Some? && q.active.value != Bool(true)
          && EarlyError(q).None? && !BadChannel(q) && !BadRssi(q) && saved)
  {
    var id := RequestedId(j);
    var q := RequestOf(j);
    if id.Some? { OnlyOneSuch(r, k, id.value); }
    if EarlyError(q).None? { EditDeactivates(r, r[k], q); }
    hide EditEntry;
    hide RequestOf;
    hide FindId;
    hide Valid;
    hide SameId;
    hide BadChannel;
    hide BadRssi;
    if id.Some? && FindId(r, id.value).Some? && FindId(r, id.value).value != k {
      var i := FindId(r, id.value).value;
      FoundIsBelow(r, id.value);
    }
  }

  lemma FoundIsBelow(r: seq<Entry>, id: string)
    ensures FindId(r, id).Some? ==> FindId(r, id).value < |r|
  {
  }

  /** While the bus is armed or any beacon is near, a command takes an active record out
      of monitoring exactly when it slips through the guard: removals and `"active": false`
      never do, an `active` that is null, a number, a string or a structure always does. */
  lemma GuardHoldsExactly(r: seq<Entry>, j: Json, armed: bool, saved: bool, k: nat)
    requires Valid(r) && k < |r| && r[k].tag.active && (armed || AnyNear(r))
    ensures !Monitored(Command(r, j, armed, saved).table, r[k].id) <==> SlipsThrough(j, r[k].id, saved)
  {
    CommandKeepsValid(r, j, armed, saved);
    var t := Command(r, j, armed, saved).table;
    KeptInPlace(r, j, armed, saved, k);
    assert forall a, b :: 0 <= a < b < |t| ==> Distinct(t[a], t[b]);
    hide Valid;
    hide Distinct;
    hide Command;
    MonitoredExactly(t, k);
    assert SameId(t[k].id, r[k].id);
  }

  lemma KeptInPlace(r: seq<Entry>, j: Json, armed: bool, saved: bool, k: nat)
    requires Valid(r) && k < |r| && r[k].tag.active && (armed || AnyNear(r))
    ensures var t := Command(r, j, armed, saved).table;
      && k < |t| && t[k].id == r[k].id
      && (!t[k].tag.active <==> SlipsThrough(j, r[k].id, saved))
  {
    if TextAt(j, Action) == Some("update") {
      UpdateKeptInPlace(r, j, armed, saved, k);
    } else {
      OthersKeepInPlace(r, j, armed, saved, k);
    }
  }

  lemma OthersKeepInPlace(r: seq<Entry>, j: Json, armed: bool, saved: bool, k: nat)
    requires k < |r| && (armed || AnyNear(r)) && TextAt(j, Action) != Some("update")
    ensures var t := Command(r, j, armed, saved).table; k < |t| && t[k] == r[k]
  {
    hide RemoveRecord;
    hide UpdateRecord;
    hide NewEntry;
    hide AnyNear;
    hide TextAt;
    hide Get;
  }

  lemma UpdateKeptInPlace(r: seq<Entry>, j: Json, armed: bool, saved: bool, k: nat)
    requires Valid(r) && k < |r| && r[k].tag.active && (armed || AnyNear(r))
    requires TextAt(j, Action) == Some("update")
    ensures var t := Command(r, j, armed, saved).table;
      && k < |t| && t[k].id == r[k].id
      && (!t[k].tag.active <==> SlipsThrough(j, r[k].id, saved))
  {
    UpdateDeactivates(r, j, saved, k);
    assert RequestOf(j).active == Get(j, Active);
    hide UpdateRecord;
    hide AddRecord;
    hide RemoveRecord;
    hide RequestOf;
    hide Valid;
    hide EarlyError;
    hide BadChannel;
    hide BadRssi;
    hide SameId;
    hide AnyNear;
    hide TextAt;
    hide RequestedId;
    hide Get;
  }

  // ---- undo ----

  /** Removing what was just added, in any spelling of its id, restores the table. */
  lemma RemoveUndoesAdd(r: seq<Entry>, add: Json, remove: Json)
    requires Valid(r) && AddRecord(r, add, true).reply.Accept?
    requires RequestedId(remove).Some? && ValidId(RequestedId(remove).value)
    requires SameId(AddRecord(r, add, true).reply.value, RequestedId(remove).value)
    ensures var o := RemoveRecord(AddRecord(r, add, true).table, remove, true);
      o == Outcome(r, Accept(AddRecord(r, add, true).reply.value))
  {
    NewEntryFits(r, add);
    var e := NewEntry(r, add).value;
    var t := r + [e];
    assert t[|r|] == e;
    AddKeepsValid(r, add, true);
    hide NewEntry;
    hide Valid;
    OnlyOneSuch(t, |r|, RequestedId(remove).value);
    assert t[..|r|] + t[|r| + 1..] == r;
  }

  // ---- an exported record as a request ----

  predicate IdentityKey(key: Key) {
    match key
    case Type => true case Mac => true case Uuid => true case Major => true case Minor => true
    case _ => false
  }

  lemma IdentityKeys(identity: Identity)
    ensures forall key :: key in IdentityFields(identity) ==> IdentityKey(key)
  {
  }

  lemma IdentityShown(e: Entry, floor: int, key: Key)
    requires IdentityKey(key) && key in IdentityFields(e.identity)
    ensures Get(RecordJson(e, floor), key) == Some(IdentityFields(e.identity)[key])
  {
    hide IdentityFields;
  }

  lemma ShownIdentity(e: Entry, floor: int)
    requires ValidIdentity(e.identity)
    ensures var j := RecordJson(e, floor);
      match e.identity
      case MacAddress(mac) =>
        TextAt(j, Type) == Some("mac") && TextAt(j, Mac) == Some(MacText(mac))
      case IBeacon(uuid, major, minor) =>
        TextAt(j, Type) == Some("ibeacon") && TextAt(j, Uuid) == Some(UuidText(uuid)) &&
        IntAt(j, Major) == Some(major) && IntAt(j, Minor) == Some(minor)
  {
    hide RecordJson;
    hide UuidText;
    hide MacText;
    IdentityShown(e, floor, Type);
    if e.identity.MacAddress? {
      IdentityShown(e, floor, Mac);
    } else {
      IdentityShown(e, floor, Uuid);
      IdentityShown(e, floor, Major);
      IdentityShown(e, floor, Minor);
    }
  }

  lemma NewIdentityReads(r: seq<Entry>, e: Entry, floor: int)
    requires ValidIdentity(e.identity) && (e.identity.IBeacon? ==> !Taken(r, e.identity, None))
    ensures NewIdentity(r, RecordJson(e, floor)) == Accept(e.identity)
  {
    ShownIdentity(e, floor);
    hide RecordJson;
    hide UuidOf;
    hide MacOf;
    hide UuidText;
    hide MacText;
    hide Taken;
    match e.identity
    case MacAddress(mac) => MacTextParses(mac);
    case IBeacon(uuid, _, _) => UuidTextParses(uuid);
  }

  lemma NewProfileReads(e: Entry, floor: int)
    requires ValidEntry(e) && ValidChannel(e.profile.channel)
    ensures NewProfile(RecordJson(e, floor), e.id) == Accept(e.profile)
  {
    RecordFields(e, floor);
    hide RecordJson;
    hide ValidId;
    hide ValidIdentity;
    hide ValidChannel;
  }

  lemma ListedId(e: Entry, floor: int)
    ensures RequestedId(RecordJson(e, floor)) == Some(e.id)
  {
    RecordFields(e, floor);
    hide RecordJson;
  }

  lemma NewEntryReads(r: seq<Entry>, e: Entry, j: Json)
    requires RequestedId(j) == Some(e.id) && ValidId(e.id) && FindId(r, e.id).None? && |r| < MAX_BEACONS
    requires NewProfile(j, e.id) == Accept(e.profile) && NewIdentity(r, j) == Accept(e.identity)
    requires NewThreshold(j) == e.tag.threshold && -127 <= e.tag.threshold <= 0 && e.tag.active
    ensures NewEntry(r, j) == Accept(Restarted(e))
  {
    hide NewProfile;
    hide NewIdentity;
    hide NewThreshold;
    hide RequestedId;
    hide ValidId;
    hide FindId;
  }

  /** A record as listed, sent back as an add to a roster it fits, is added as it was. */
  lemma ListedRecordAdds(r: seq<Entry>, e: Entry, floor: int)
    requires Fits(r, e) && e.tag.active && ValidChannel(e.profile.channel) && |r| < MAX_BEACONS
    ensures AddRecord(r, RecordJson(e, floor), true) == Outcome(r + [Restarted(e)], Accept(e.id))
  {
    ListedId(e, floor);
    NewProfileReads(e, floor);
    NewIdentityReads(r, e, floor);
    NewThresholdReads(e, floor);
    NewEntryReads(r, e, RecordJson(e, floor));
    hide RecordJson;
    hide NewEntry;
    hide ValidEntry;
    hide FindId;
    hide Taken;
  }

  lemma NewThresholdReads(e: Entry, floor: int)
    ensures NewThreshold(RecordJson(e, floor)) == e.tag.threshold
  {
    RecordFields(e, floor);
    hide RecordJson;
  }

  lemma ListedRequest(e: Entry, floor: int)
    requires ValidEntry(e)
    ensures RequestOf(RecordJson(e, floor)) ==
            Request(Some(e.profile.person), Some(e.profile.channel), Some(e.profile.zone), Some(e.profile.notes),
                    Some(Number(e.tag.rssi)), Some(Bool(e.tag.active)))
  {
    RecordFields(e, floor);
    assert Get(RecordJson(e, floor), Rssi) == Some(Number(e.tag.rssi)) by {
      ShownRssi(e, floor);
    }
    hide RecordJson;
    hide ValidId;
    hide ValidIdentity;
  }

  lemma ShownRssi(e: Entry, floor: int)
    ensures Get(RecordJson(e, floor), Rssi) == Some(Number(e.tag.rssi))
  {
    IdentityKeys(e.identity);
    hide IdentityFields;
  }

  /** Sent back as an update it is not neutral: the listed rssi is the last measured
      strength, and an update reads that field as the threshold before rssi_threshold. The
      record survives unchanged exactly when the two agree, or the update is refused: for a
      measured value outside the range of thresholds, or for a stored channel, which loading
      does not check, that is not numeric. */
  lemma ListedRecordUpdates(r: seq<Entry>, k: nat, floor: int)
    requires Valid(r) && k < |r|
    ensures var e := r[k];
      UpdateRecord(r, RecordJson(e, floor), true).table == r <==>
      e.tag.rssi == e.tag.threshold || !(-127 <= e.tag.rssi <= 0) || !ValidChannel(e.profile.channel)
  {
    var e := r[k];
    var j := RecordJson(e, floor);
    assert ValidEntry(e);
    OnlyOneSuch(r, k, e.id);
    RecordFields(e, floor);
    ListedRequest(e, floor);
    EchoedEdit(r, e);
    var edit := EditEntry(r, e, RequestOf(j));
    assert r[k := edit.entry][k] == edit.entry;
    assert edit.entry == e ==> r[k := edit.entry] == r;
    hide Valid;
    hide RecordJson;
    hide EditEntry;
    hide FindId;
    hide RequestOf;
    hide RequestedId;
  }

  lemma EchoedEdit(r: seq<Entry>, e: Entry)
    requires ValidEntry(e)
    ensures var q := Request(Some(e.profile.person), Some(e.profile.channel), Some(e.profile.zone),
                             Some(e.profile.notes), Some(Number(e.tag.rssi)), Some(Bool(e.tag.active)));
      && EarlyError(q).None?
      && (EditEntry(r, e, q).entry == e <==>
          e.tag.rssi == e.tag.threshold || !(-127 <= e.tag.rssi <= 0) || !ValidChannel(e.profile.channel))
  {
    hide Taken;
    hide ValidChannel;
    hide ValidId;
    hide ValidIdentity;
  }
}
