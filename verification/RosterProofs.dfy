/** What roster commands, restarts and the scanner keep, and what the saved tree holds. */
module RosterProofs {
  import opened Basics
  import opened BeaconText
  import opened Roster

  // ---- the invariant ----

  lemma ParsedIdentities(s: string)
    ensures UuidOf(s).Some? ==> |UuidOf(s).value| == 16
    ensures MacOf(s).Some? ==> |MacOf(s).value| == 6
  {
    if Canonical(s) { ParsedUuidPrints(s); }
  }

  lemma NewIdentityFits(r: seq<Entry>, j: Json)
    ensures var d := NewIdentity(r, j);
      d.Accept? ==> ValidIdentity(d.value) && (d.value.IBeacon? ==> !Taken(r, d.value, None))
  {
    hide UuidOf;
    hide MacOf;
    var mac, uuid := Or(TextNear(j, Mac), TextNear(j, Value)), TextNear(j, Uuid);
    if mac.Some? { ParsedIdentities(mac.value); }
    if uuid.Some? { ParsedIdentities(uuid.value); }
  }

  lemma LoadedIdentityFits(r: seq<Entry>, src: Json, live: bool)
    ensures var d := LoadedIdentity(r, src, live);
      d.Some? ==> ValidIdentity(d.value) && (d.value.IBeacon? && live ==> !Taken(r, d.value, None))
  {
    hide UuidOf;
    hide MacOf;
    var mac, uuid := Or(TextAt(src, Mac), TextAt(src, Value)), TextAt(src, Uuid);
    if mac.Some? { ParsedIdentities(mac.value); }
    if uuid.Some? { ParsedIdentities(uuid.value); }
  }

  /** A record fits at the end of the table. */
  ghost predicate Fits(r: seq<Entry>, e: Entry) {
    && ValidEntry(e) && FindId(r, e.id).None?
    && (LiveIBeacon(e) ==> !Taken(r, e.identity, None))
  }

  lemma AppendKeepsValid(r: seq<Entry>, e: Entry)
    requires Valid(r) && Fits(r, e) && |r| < MAX_BEACONS
    ensures Valid(r + [e])
  {
    forall i, j | 0 <= i < j < |r + [e]| ensures Distinct((r + [e])[i], (r + [e])[j]) {
      if j == |r| {
        assert !SameId(r[i].id, e.id);
      }
    }
  }

  lemma NewEntryFits(r: seq<Entry>, j: Json)
    ensures NewEntry(r, j).Accept? ==> Fits(r, NewEntry(r, j).value) && |r| < MAX_BEACONS
  {
    NewIdentityFits(r, j);
    hide NewIdentity;
    hide ValidIdentity;
  }

  lemma LoadedEntryFits(r: seq<Entry>, item: Json)
    ensures LoadedEntry(r, item).Some? ==> Fits(r, LoadedEntry(r, item).value)
  {
    LoadedIdentityFits(r, OrDefault(ObjectAt(item, Beacon), item), Get(item, Active) != Some(Bool(false)));
    hide LoadedIdentity;
    hide ValidIdentity;
  }

  /** Whatever tree is in storage, loading it gives a valid roster. */
  lemma {:induction false} LoadedItemsValid(items: seq<Json>)
    ensures Valid(LoadedItems(items))
  {
    if items != [] {
      var before := items[..|items| - 1];
      LoadedItemsValid(before);
      LoadedEntryFits(LoadedItems(before), items[|items| - 1]);
      hide LoadedEntry;
      hide Valid;
      hide Fits;
      var e := LoadedEntry(LoadedItems(before), items[|items| - 1]);
      if e.Some? && |LoadedItems(before)| < MAX_BEACONS {
        AppendKeepsValid(LoadedItems(before), e.value);
      }
    }
  }

  lemma LoadValid(j: Json)
    ensures Valid(Load(j))
  {
    LoadedItemsValid(ItemsOf(j));
  }

  lemma AddKeepsValid(r: seq<Entry>, j: Json, saved: bool)
    requires Valid(r)
    ensures Valid(AddRecord(r, j, saved).table)
  {
    NewEntryFits(r, j);
    hide NewEntry;
    hide Valid;
    hide Fits;
    if NewEntry(r, j).Accept? && saved {
      AppendKeepsValid(r, NewEntry(r, j).value);
    }
  }

  lemma RemoveKeepsValid(r: seq<Entry>, j: Json, saved: bool)
    requires Valid(r)
    ensures Valid(RemoveRecord(r, j, saved).table)
  {
    hide Distinct;
    hide ValidEntry;
  }

  /** Replacing one record by one with the same id. */
  lemma ReplaceKeepsValid(r: seq<Entry>, i: nat, e: Entry)
    requires Valid(r) && i < |r| && ValidEntry(e) && e.id == r[i].id && e.identity == r[i].identity
    requires LiveIBeacon(e) && !LiveIBeacon(r[i]) ==> !Taken(r, e.identity, Some(e.id))
    ensures Valid(r[i := e])
  {
    var s := r[i := e];
    forall k | 0 <= k < |r| && k != i ensures Distinct(s[k], e) && Distinct(e, s[k]) {
      assert if k < i then Distinct(r[k], r[i]) else Distinct(r[i], r[k]);
    }
  }

  lemma EditFits(r: seq<Entry>, e: Entry, q: Request)
    requires ValidEntry(e) && EarlyError(q).None? && (q.person.Some? ==> q.person.value != "")
    ensures var d := EditEntry(r, e, q).entry;
      && ValidEntry(d) && d.id == e.id && d.identity == e.identity
      && (LiveIBeacon(d) && !LiveIBeacon(e) ==> !Taken(r, e.identity, Some(e.id)))
  {
    hide ValidId;
    hide ValidIdentity;
    hide Taken;
  }

  lemma UpdateKeepsValid(r: seq<Entry>, j: Json, saved: bool)
    requires Valid(r)
    ensures Valid(UpdateRecord(r, j, saved).table)
  {
    var id := RequestedId(j);
    var i := if id.Some? then FindId(r, id.value) else None;
    var q := RequestOf(j);
    assert q.person.Some? ==> q.person.value != "";
    hide RequestOf;
    hide EditEntry;
    hide ValidEntry;
    hide Distinct;
    if i.Some? && EarlyError(q).None? {
      EditFits(r, r[i.value], q);
      ReplaceKeepsValid(r, i.value, EditEntry(r, r[i.value], q).entry);
    }
  }

  /** Accepted or refused, saved or not. */
  lemma CommandKeepsValid(r: seq<Entry>, j: Json, armed: bool, saved: bool)
    requires Valid(r)
    ensures Valid(Command(r, j, armed, saved).table)
  {
    AddKeepsValid(r, j, saved);
    RemoveKeepsValid(r, j, saved);
    UpdateKeepsValid(r, j, saved);
    hide Valid;
    hide AddRecord;
    hide RemoveRecord;
    hide UpdateRecord;
  }
}
