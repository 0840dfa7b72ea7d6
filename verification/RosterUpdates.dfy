/** What an accepted roster command and a load do, said of the JSON they are given. */
module RosterUpdates {
  import opened Basics
  import opened Scanner
  import opened Roster

  // ---- what a request says ----

  predicate Has(j: Json, key: Key) { j.Object? && key in j.fields }

  predicate Holds(j: Json, key: Key, v: Json) { Has(j, key) && j.fields[key] == v }

  predicate HasText(j: Json, key: Key) { Has(j, key) && j.fields[key].Text? }

  predicate HasNumber(j: Json, key: Key) { Has(j, key) && j.fields[key].Number? }

  /** `v` stands at `inner` in the object at `outer`. */
  predicate Inside(j: Json, outer: Key, inner: Key, v: Json) {
    Has(j, outer) && Holds(j.fields[outer], inner, v)
  }

  predicate HasTextInside(j: Json, outer: Key, inner: Key) { Has(j, outer) && HasText(j.fields[outer], inner) }

  predicate HasNumberInside(j: Json, outer: Key, inner: Key) { Has(j, outer) && HasNumber(j.fields[outer], inner) }

  /** The text at `key`; only when there is none, the one inside the object. */
  predicate AsksText(j: Json, key: Key, outer: Key, inner: Key, s: string) {
    Holds(j, key, Text(s)) || (!HasText(j, key) && Inside(j, outer, inner, Text(s)))
  }

  predicate AsksNumber(j: Json, key: Key, outer: Key, inner: Key, n: int) {
    Holds(j, key, Number(n)) || (!HasNumber(j, key) && Inside(j, outer, inner, Number(n)))
  }

  predicate AsksId(j: Json, s: string) { Holds(j, Id, Text(s)) || (!HasText(j, Id) && Holds(j, Name, Text(s))) }

  predicate AsksChannel(j: Json, s: string) { AsksText(j, DiscordChannelId, Discord, ChannelId, s) }

  predicate AsksZone(j: Json, s: string) { AsksText(j, HomeZoneEntity, Home, ZoneEntity, s) }

  predicate AsksNotes(j: Json, s: string) { Holds(j, Notes, Text(s)) }

  /** An empty person name asks for nothing. */
  predicate AsksPerson(j: Json, s: string) { s != "" && Holds(j, PersonName, Text(s)) }

  /** An update takes the first of the three places that holds anything at all. */
  predicate AsksThreshold(j: Json, v: Json) {
    || Holds(j, Rssi, v)
    || (!Has(j, Rssi) && Holds(j, RssiThreshold, v))
    || (!Has(j, Rssi) && !Has(j, RssiThreshold) && Inside(j, Beacon, RssiThreshold, v))
  }

  /** The record a command speaks about: the first with the id asked for. */
  ghost predicate Addressed(r: seq<Entry>, j: Json, k: nat) {
    exists id :: AsksId(j, id) && FirstWith(r, id, k)
  }

  predicate FirstWith(r: seq<Entry>, id: string, k: nat) {
    k < |r| && SameId(r[k].id, id) && forall i :: 0 <= i < k ==> !SameId(r[i].id, id)
  }

  // ---- updates ----

  /** A field as it has to be: what was asked for, else as it was. */
  ghost predicate TextApplied(asks: (Json, string) -> bool, j: Json, was: string, now: string) {
    (forall s :: asks(j, s) ==> now == s) && ((forall s :: !asks(j, s)) ==> now == was)
  }

  ghost predicate ThresholdApplied(j: Json, was: int, now: int) {
    (forall v :: AsksThreshold(j, v) ==> v == Number(now)) && ((forall v :: !AsksThreshold(j, v)) ==> now == was)
  }

  /** Only the JSON value true turns monitoring on; every other value turns it off. */
  predicate ActiveApplied(j: Json, was: bool, now: bool) {
    now == if Has(j, Active) then Holds(j, Active, Bool(true)) else was
  }

  /** Tracking starts over with a new threshold and is dropped on deactivation. */
  predicate TrackingApplied(j: Json, was: Tag, now: Tag) {
    && now.rssi == was.rssi
    && now.lastSeen == (if now.threshold != was.threshold then 0 else was.lastSeen)
    && if now.threshold != was.threshold || (Has(j, Active) && !now.active)
       then now.range == Absent && now.nearSince == 0
       else now.range == was.range && now.nearSince == was.nearSince
  }

  ghost predicate Applied(j: Json, was: Entry, now: Entry) {
    && now.id == was.id && now.identity == was.identity
    && TextApplied(AsksPerson, j, was.profile.person, now.profile.person)
    && TextApplied(AsksChannel, j, was.profile.channel, now.profile.channel)
    && TextApplied(AsksZone, j, was.profile.zone, now.profile.zone)
    && TextApplied(AsksNotes, j, was.profile.notes, now.profile.notes)
    && ThresholdApplied(j, was.tag.threshold, now.tag.threshold)
    && ActiveApplied(j, was.tag.active, now.tag.active)
    && TrackingApplied(j, was.tag, now.tag)
  }

  /** The values asked for that a record can hold. */
  ghost predicate Storable(j: Json) {
    && (forall s :: AsksPerson(j, s) ==> |s| <= 48)
    && (forall s :: AsksZone(j, s) ==> |s| <= 64)
    && (forall s :: AsksNotes(j, s) ==> |s| <= 160)
    && (forall s :: AsksChannel(j, s) ==> ValidChannel(s))
    && (forall v :: AsksThreshold(j, v) ==> v.Number? && -127 <= v.number <= 0)
  }

  /** Activating this record would let another live record share its iBeacon identity. */
  predicate Clashes(r: seq<Entry>, j: Json, k: nat)
    requires k < |r|
  {
    Holds(j, Active, Bool(true)) && !r[k].tag.active && r[k].identity.IBeacon? &&
    Taken(r, r[k].identity, Some(r[k].id))
  }

  lemma TextReads(j: Json, s: string)
    ensures TextAt(j, PersonName) == Some(s) <==> Holds(j, PersonName, Text(s))
    ensures RequestedId(j) == Some(s) <==> AsksId(j, s)
    ensures RequestedChannel(j) == Some(s) <==> AsksChannel(j, s)
    ensures RequestedZone(j) == Some(s) <==> AsksZone(j, s)
    ensures TextAt(j, Notes) == Some(s) <==> AsksNotes(j, s)
    ensures RequestOf(j).person == Some(s) <==> AsksPerson(j, s)
  {
  }

  lemma RequestReads(j: Json, v: Json)
    ensures RequestOf(j).rssi == Some(v) <==> AsksThreshold(j, v)
    ensures RequestOf(j).active == Some(v) <==> Holds(j, Active, v)
    ensures RequestOf(j).active.Some? <==> Has(j, Active)
  {
  }

  lemma FieldReads(asks: (Json, string) -> bool, j: Json, asked: Option<string>, was: string)
    requires forall s :: asked == Some(s) <==> asks(j, s)
    ensures TextApplied(asks, j, was, OrDefault(asked, was))
  {
    if asked.Some? { assert asks(j, asked.value); }
  }

  lemma StorableReads(j: Json)
    ensures var q := RequestOf(j); Storable(j) <==> EarlyError(q).None? && !BadChannel(q) && !BadRssi(q)
  {
    var q := RequestOf(j);
    forall s ensures q.person == Some(s) <==> AsksPerson(j, s)
             ensures q.channel == Some(s) <==> AsksChannel(j, s)
             ensures q.zone == Some(s) <==> AsksZone(j, s)
             ensures q.notes == Some(s) <==> AsksNotes(j, s) {
      TextReads(j, s);
    }
    forall v ensures q.rssi == Some(v) <==> AsksThreshold(j, v) { RequestReads(j, v); }
    hide RequestOf, AsksPerson, AsksChannel, AsksZone, AsksNotes, AsksThreshold, ValidChannel;
    if q.person.Some? { assert AsksPerson(j, q.person.value); }
    if q.channel.Some? { assert AsksChannel(j, q.channel.value); }
    if q.zone.Some? { assert AsksZone(j, q.zone.value); }
    if q.notes.Some? { assert AsksNotes(j, q.notes.value); }
    if q.rssi.Some? { assert AsksThreshold(j, q.rssi.value); }
  }

  lemma ProfileApplies(r: seq<Entry>, e: Entry, q: Request)
    requires EditEntry(r, e, q).error.None?
    ensures var now := EditEntry(r, e, q).entry;
      && now.id == e.id && now.identity == e.identity
      && now.profile == Profile(OrDefault(q.person, e.profile.person), OrDefault(q.channel, e.profile.channel),
                                OrDefault(q.zone, e.profile.zone), OrDefault(q.notes, e.profile.notes))
  {
    hide Taken, ValidChannel, NextThreshold;
  }

  lemma ProfileReads(e: Entry, j: Json, now: Entry)
    requires var q := RequestOf(j);
      now.profile == Profile(OrDefault(q.person, e.profile.person), OrDefault(q.channel, e.profile.channel),
                             OrDefault(q.zone, e.profile.zone), OrDefault(q.notes, e.profile.notes))
    ensures TextApplied(AsksPerson, j, e.profile.person, now.profile.person)
    ensures TextApplied(AsksChannel, j, e.profile.channel, now.profile.channel)
    ensures TextApplied(AsksZone, j, e.profile.zone, now.profile.zone)
    ensures TextApplied(AsksNotes, j, e.profile.notes, now.profile.notes)
  {
    var q := RequestOf(j);
    forall s ensures q.person == Some(s) <==> AsksPerson(j, s)
             ensures q.channel == Some(s) <==> AsksChannel(j, s)
             ensures q.zone == Some(s) <==> AsksZone(j, s)
             ensures q.notes == Some(s) <==> AsksNotes(j, s) {
      TextReads(j, s);
    }
    hide RequestOf, AsksPerson, AsksChannel, AsksZone, AsksNotes, TextApplied;
    FieldReads(AsksPerson, j, q.person, e.profile.person);
    FieldReads(AsksChannel, j, q.channel, e.profile.channel);
    FieldReads(AsksZone, j, q.zone, e.profile.zone);
    FieldReads(AsksNotes, j, q.notes, e.profile.notes);
  }

  lemma ThresholdReads(e: Entry, j: Json)
    requires !BadRssi(RequestOf(j))
    ensures ThresholdApplied(j, e.tag.threshold, NextThreshold(e, RequestOf(j)))
  {
    var q := RequestOf(j);
    forall v ensures q.rssi == Some(v) <==> AsksThreshold(j, v) { RequestReads(j, v); }
    hide RequestOf, AsksThreshold;
    if q.rssi.Some? { assert AsksThreshold(j, q.rssi.value); }
  }

  lemma TagApplies(r: seq<Entry>, e: Entry, j: Json)
    requires EditEntry(r, e, RequestOf(j)).error.None?
    ensures var now := EditEntry(r, e, RequestOf(j)).entry.tag;
      && ThresholdApplied(j, e.tag.threshold, now.threshold)
      && ActiveApplied(j, e.tag.active, now.active)
      && TrackingApplied(j, e.tag, now)
  {
    RequestReads(j, Bool(true));
    hide RequestOf, AsksThreshold, BadChannel, Taken, Holds, Has, NextThreshold, ThresholdApplied;
    if !BadRssi(RequestOf(j)) { ThresholdReads(e, j); }
    hide BadRssi;
  }

  /** An edit that comes to its end has applied exactly what was asked. */
  lemma EditApplies(r: seq<Entry>, e: Entry, j: Json)
    requires EditEntry(r, e, RequestOf(j)).error.None?
    ensures Applied(j, e, EditEntry(r, e, RequestOf(j)).entry)
  {
    hide EditEntry, RequestOf, ThresholdApplied, ActiveApplied, TrackingApplied, TextApplied;
    ProfileApplies(r, e, RequestOf(j));
    ProfileReads(e, j, EditEntry(r, e, RequestOf(j)).entry);
    TagApplies(r, e, j);
  }

  lemma FirstIsFound(r: seq<Entry>, id: string, k: nat)
    ensures FirstWith(r, id, k) <==> FindId(r, id) == Some(k)
  {
    hide SameId;
    var found := FindId(r, id);
    hide FindId;
  }

  lemma AddressedReads(r: seq<Entry>, j: Json, k: nat)
    ensures Addressed(r, j, k) <==> RequestedId(j).Some? && FindId(r, RequestedId(j).value) == Some(k)
  {
    var asked := RequestedId(j);
    forall s ensures asked == Some(s) <==> AsksId(j, s) { TextReads(j, s); }
    hide RequestedId, AsksId, FirstWith, FindId;
    if asked.Some? {
      assert AsksId(j, asked.value);
      FirstIsFound(r, asked.value, k);
    }
  }

  /** When an update is accepted. The guard stands before everything else. */
  ghost predicate MayUpdate(r: seq<Entry>, j: Json, armed: bool) {
    && !(Holds(j, Active, Bool(false)) && (armed || AnyNear(r)))
    && Storable(j)
    && exists k :: Addressed(r, j, k) && !Clashes(r, j, k)
  }

  lemma EditEnds(r: seq<Entry>, j: Json, k: nat)
    requires k < |r|
    ensures var q := RequestOf(j);
      EarlyError(q).None? && EditEntry(r, r[k], q).error.None? <==> Storable(j) && !Clashes(r, j, k)
  {
    StorableReads(j);
    RequestReads(j, Bool(true));
    hide RequestOf, Storable, EarlyError, BadChannel, BadRssi, Taken, Holds;
  }

  /** An update command is accepted exactly when some record has the id, the guard lets it
      through, everything asked for can be stored, no live identity would be shared, and
      the save succeeds. */
  lemma UpdateAcceptedExactly(r: seq<Entry>, j: Json, armed: bool, saved: bool)
    requires Holds(j, Action, Text("update"))
    ensures Command(r, j, armed, saved).reply.Accept? <==> saved && MayUpdate(r, j, armed)
  {
    var id := RequestedId(j);
    RequestReads(j, Bool(false));
    forall k: nat | k < |r|
      ensures Addressed(r, j, k) <==> id.Some? && FindId(r, id.value) == Some(k) {
      AddressedReads(r, j, k);
    }
    var i := if id.Some? then FindId(r, id.value) else None;
    if i.Some? {
      EditEnds(r, j, i.value);
      assert Addressed(r, j, i.value);
    } else {
      assert forall k :: !Addressed(r, j, k);
    }
    assert TextAt(j, Action) == Some("update");
    assert Get(j, Active) == Some(Bool(false)) <==> Holds(j, Active, Bool(false));
    hide RequestedId, RequestOf, EarlyError, EditEntry, Storable, Clashes, Addressed, AnyNear, Holds, FindId, Get;
  }

  /** An accepted update has left in the record it speaks about exactly what it asked for,
      and every other record, and every field it did not ask for, as it was. */
  lemma AcceptedUpdateApplies(r: seq<Entry>, j: Json, armed: bool, saved: bool, k: nat)
    requires Holds(j, Action, Text("update")) && Command(r, j, armed, saved).reply.Accept? && k < |r|
    ensures var o := Command(r, j, armed, saved);
      && |o.table| == |r|
      && (if Addressed(r, j, k) then Applied(j, r[k], o.table[k]) && o.reply.value == r[k].id
          else o.table[k] == r[k])
  {
    AddressedReads(r, j, k);
    assert TextAt(j, Action) == Some("update");
    hide Addressed, RequestedId, AnyNear;
    var o := Command(r, j, armed, saved);
    assert o == UpdateRecord(r, j, saved);
    var i := FindId(r, RequestedId(j).value).value;
    EditApplies(r, r[i], j);
    hide RequestOf, EarlyError, EditEntry, Applied, FindId;
  }
}
