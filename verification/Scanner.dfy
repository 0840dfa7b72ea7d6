/** main/ble_scanner.c: RSSI hysteresis of the roster's beacons and the walk over the
    structures of an advertisement (Bluetooth Core Specification, Vol 3 Part C section 11). */
module Scanner {
  import opened Basics

  datatype Settings = Settings(nearSustain: nat, absentTimeout: nat, hysteresis: nat, floor: int)

  datatype Range = Absent | Far | Near

  /** The fields of a roster record the scanner uses; 0 stands for "not set" in nearSince. */
  datatype Tag = Tag(active: bool, threshold: int, range: Range, rssi: int, lastSeen: int, nearSince: int)

  /** The configured threshold, never below the floor. */
  function Effective(st: Settings, threshold: int): int {
    if threshold < st.floor then st.floor else threshold
  }

  /** What happens to a tag: an advertisement heard, a run of check_absent, a new
      threshold, activation or deactivation by a roster command. */
  datatype Happening =
    | Reading(now: int, rssi: int)
    | Check(now: int)
    | Retune(threshold: int)
    | SetActive(on: bool)

  function OnReading(st: Settings, t: Tag, now: int, rssi: int): Tag {
    var t1 := t.(rssi := rssi, lastSeen := now);
    var limit := Effective(st, t.threshold);
    if rssi < limit - st.hysteresis then t1.(range := Far, nearSince := 0)
    else if rssi >= limit then
      var since := if t.nearSince == 0 then now else t.nearSince;
      t1.(nearSince := since, range := if (now - since) / 1_000_000 >= st.nearSustain then Near else t.range)
    else if t.range.Near? then t1
    else t1.(range := Far, nearSince := 0)
  }

  /** The absence timeout has passed for a tag that is not ABSENT yet. */
  predicate Expired(st: Settings, t: Tag, now: int) {
    t.active && !t.range.Absent? && now - t.lastSeen > Micros(st.absentTimeout)
  }

  function OnCheck(st: Settings, t: Tag, now: int): Tag {
    if Expired(st, t, now) then t.(range := Absent, nearSince := 0) else t
  }

  function OnRetune(t: Tag, threshold: int): Tag {
    if threshold == t.threshold then t
    else t.(threshold := threshold, range := Absent, nearSince := 0, lastSeen := 0)
  }

  function OnSetActive(t: Tag, on: bool): Tag {
    if on then t.(active := true) else t.(active := false, range := Absent, nearSince := 0)
  }

  /** Advertisements of inactive records are not looked up. */
  function Step(st: Settings, t: Tag, h: Happening): Tag {
    match h
    case Reading(now, rssi) => if t.active then OnReading(st, t, now, rssi) else t
    case Check(now) => OnCheck(st, t, now)
    case Retune(threshold) => OnRetune(t, threshold)
    case SetActive(on) => OnSetActive(t, on)
  }

  // ---- in place ----

  /** process_device once the record is found: the record in the table is updated, and the
      caller learns whether its range changed and whether a near event is raised. */
  method ProcessReading(st: Settings, tags: array<Tag>, i: nat, now: int, rssi: int, armed: bool)
    returns (changed: bool, raised: bool)
    requires i < tags.Length
    modifies tags
    ensures tags[..] == old(tags[..])[i := OnReading(st, old(tags[i]), now, rssi)]
    ensures changed <==> tags[i].range != old(tags[i].range)
    ensures raised <==> tags[i].range.Near? && !old(tags[i].range).Near? && armed
  {
    tags[i] := tags[i].(rssi := rssi, lastSeen := now);
    var oldRange := tags[i].range;
    var newRange := oldRange;
    var limit := Effective(st, tags[i].threshold);
    if rssi < limit - st.hysteresis {
      newRange := Far;
      tags[i] := tags[i].(nearSince := 0);
    } else if rssi >= limit {
      if tags[i].nearSince == 0 {
        tags[i] := tags[i].(nearSince := now);
      }
      var elapsed := (now - tags[i].nearSince) / 1_000_000;
      if elapsed >= st.nearSustain {
        newRange := Near;
      }
    } else {
      if oldRange == Near {
        newRange := Near;
      } else {
        newRange := Far;
        tags[i] := tags[i].(nearSince := 0);
      }
    }
    changed := newRange != oldRange;
    raised := false;
    if changed {
      tags[i] := tags[i].(range := newRange);
      raised := newRange == Near && armed;
    }
  }

  /** check_absent over the whole table; `silent` are the records that fell silent. */
  method CheckAbsent(st: Settings, tags: array<Tag>, now: int) returns (silent: set<nat>)
    modifies tags
    ensures forall i :: 0 <= i < tags.Length ==> tags[i] == OnCheck(st, old(tags[i]), now)
    ensures silent == set i: nat | i < tags.Length && Expired(st, old(tags[i]), now)
  {
    silent := {};
    for i := 0 to tags.Length
      invariant forall k :: 0 <= k < i ==> tags[k] == OnCheck(st, old(tags[k]), now)
      invariant forall k :: i <= k < tags.Length ==> tags[k] == old(tags[k])
      invariant silent == set k: nat | k < i && Expired(st, old(tags[k]), now)
    {
      if !tags[i].active { continue; }
      if tags[i].range != Absent && now - tags[i].lastSeen > Micros(st.absentTimeout) {
        tags[i] := tags[i].(range := Absent, nearSince := 0);
        silent := silent + {i};
      }
    }
  }

  // ---- advertisements ----

  /** One AD structure: its type and the bytes after it. */
  datatype Structure = Structure(kind: Byte, data: seq<Byte>)

  datatype BeaconId = BeaconId(uuid: seq<Byte>, major: nat, minor: nat)

  /** The structures of an advertisement, up to a zero length or a truncated structure. */
  function Structures(adv: seq<Byte>): seq<Structure> {
    if |adv| < 2 || adv[0] == 0 || 1 + adv[0] > |adv| then []
    else [Structure(adv[1], adv[2..1 + adv[0]])] + Structures(adv[1 + adv[0]..])
  }

  /** The identity in an Apple iBeacon structure. */
  function IBeacon(s: Structure): Option<BeaconId> {
    if s.kind == 0xFF && |s.data| >= 25 &&
       s.data[0] == 0x4C && s.data[1] == 0x00 && s.data[2] == 0x02 && s.data[3] == 0x15
    then Some(BeaconId(s.data[4..20], BigEndian(s.data[20], s.data[21]), BigEndian(s.data[22], s.data[23])))
    else None
  }

  function BigEndian(high: Byte, low: Byte): nat {
    var h: nat := high;
    h * 256 + low
  }

  /** The first identity in the structures that the roster knows. */
  function FirstKnown(ss: seq<Structure>, known: set<BeaconId>): Option<BeaconId> {
    if ss == [] then None
    else
      var id := IBeacon(ss[0]);
      if id.Some? && id.value in known then id else FirstKnown(ss[1..], known)
  }

  /** What the walk meets at a position of the advertisement. */
  lemma StructureAt(adv: seq<Byte>, pos: nat)
    requires pos <= |adv|
    ensures Structures(adv[pos..]) ==
      if |adv| <= pos + 1 || adv[pos] == 0 || pos + 1 + adv[pos] > |adv| then []
      else [Structure(adv[pos + 1], adv[pos + 2..pos + 1 + adv[pos]])] + Structures(adv[pos + 1 + adv[pos]..])
  {
    var rest := adv[pos..];
    if pos + 1 < |adv| && adv[pos] != 0 && pos + 1 + adv[pos] <= |adv| {
      assert rest[2..1 + adv[pos]] == adv[pos + 2..pos + 1 + adv[pos]];
      assert rest[1 + adv[pos]..] == adv[pos + 1 + adv[pos]..];
    }
  }

  lemma FirstOf(s: Structure, ss: seq<Structure>, known: set<BeaconId>)
    ensures FirstKnown([s] + ss, known) ==
            if IBeacon(s).Some? && IBeacon(s).value in known then IBeacon(s) else FirstKnown(ss, known)
    ensures FirstKnown([], known) == None
  {
    assert ([s] + ss)[1..] == ss;
  }

  /** The identity the walk reads from a structure's fields. */
  function ReadBeacon(kind: Byte, data: seq<Byte>): (found: Option<BeaconId>)
    ensures found == IBeacon(Structure(kind, data))
  {
    if kind == 0xFF && |data| >= 25 &&
       LittleEndian(data[0], data[1]) == 0x004C && LittleEndian(data[2], data[3]) == 0x1502
    then Some(BeaconId(data[4..20], BigEndian(data[20], data[21]), BigEndian(data[22], data[23])))
    else None
  }

  /** The loop of process_device over the advertisement; every access is in bounds. */
  method FindBeacon(adv: seq<Byte>, known: set<BeaconId>) returns (found: Option<BeaconId>)
    ensures found == FirstKnown(Structures(adv), known)
  {
    hide Structures;
    hide FirstKnown;
    hide IBeacon;
    hide ReadBeacon;
    found := None;
    var pos := 0;
    assert adv[0..] == adv;
    FirstOf(Structure(0, []), [], known);
    while pos + 1 < |adv|
      invariant 0 <= pos <= |adv|
      invariant FirstKnown(Structures(adv), known) == FirstKnown(Structures(adv[pos..]), known)
      decreases |adv| - pos
    {
      StructureAt(adv, pos);
      var len := adv[pos];
      if len == 0 { break; }
      if pos + 1 + len > |adv| { break; }
      var kind, data := adv[pos + 1], adv[pos + 2..pos + 1 + len];
      FirstOf(Structure(kind, data), Structures(adv[pos + 1 + len..]), known);
      var id := ReadBeacon(kind, data);
      if id.Some? && id.value in known {
        return id;
      }
      pos := pos + len + 1;
    }
    StructureAt(adv, pos);
  }

  /** Whom an advertisement is attributed to: the MAC address is looked up first, the
      structures only if it is unknown. */
  datatype Source = ByMac(mac: seq<Byte>) | ByBeacon(id: BeaconId) | Nobody

  method FindSource(mac: seq<Byte>, adv: seq<Byte>, macs: set<seq<Byte>>, known: set<BeaconId>) returns (source: Source)
    ensures source.ByMac? <==> mac in macs
    ensures source.ByMac? ==> source.mac == mac
    ensures mac !in macs ==>
      source == match FirstKnown(Structures(adv), known)
                case Some(id) => ByBeacon(id)
                case None => Nobody
  {
    if mac in macs { return ByMac(mac); }
    var found := FindBeacon(adv, known);
    return if found.Some? then ByBeacon(found.value) else Nobody;
  }

  function LittleEndian(low: Byte, high: Byte): (w: nat)
    ensures w == 0x004C <==> low == 0x4C && high == 0x00
    ensures w == 0x1502 <==> low == 0x02 && high == 0x15
  {
    var h: nat := high;
    low + h * 256
  }

  /** An advertisement carrying the given structures. */
  function EncodeStructures(ss: seq<Structure>): seq<Byte>
    requires forall k :: 0 <= k < |ss| ==> |ss[k].data| <= 254
  {
    if ss == [] then []
    else [|ss[0].data| + 1, ss[0].kind] + ss[0].data + EncodeStructures(ss[1..])
  }

  /** Every structure on the air is seen, in order, before the padding. */
  lemma {:induction false} StructuresRoundTrip(ss: seq<Structure>, padding: seq<Byte>)
    requires forall k :: 0 <= k < |ss| ==> |ss[k].data| <= 254
    requires forall k :: 0 <= k < |padding| ==> padding[k] == 0
    ensures Structures(EncodeStructures(ss) + padding) == ss
  {
    if ss != [] {
      var adv := EncodeStructures(ss) + padding;
      var n := |ss[0].data| + 1;
      assert adv[2..1 + n] == ss[0].data;
      assert adv[1 + n..] == EncodeStructures(ss[1..]) + padding;
      StructuresRoundTrip(ss[1..], padding);
    }
  }

  /** So a known iBeacon anywhere in the advertisement is found, the first one first. */
  lemma {:induction false} KnownBeaconFound(ss: seq<Structure>, known: set<BeaconId>, i: nat)
    requires i < |ss| && IBeacon(ss[i]).Some? && IBeacon(ss[i]).value in known
    requires forall k :: 0 <= k < i ==> IBeacon(ss[k]).None? || IBeacon(ss[k]).value !in known
    ensures FirstKnown(ss, known) == IBeacon(ss[i])
  {
    if i > 0 {
      KnownBeaconFound(ss[1..], known, i - 1);
    }
  }

  // ---- which bytes are the identity ----

  predicate OnAir(id: BeaconId) { |id.uuid| == 16 && id.major < 65536 && id.minor < 65536 }

  /** The data of an iBeacon structure: company 4C 00, type 02 15, the UUID, major and minor
      high byte first, the measured power, and whatever follows. */
  function BeaconData(id: BeaconId, power: Byte, tail: seq<Byte>): (data: seq<Byte>)
    requires OnAir(id)
    ensures |data| == 25 + |tail|
  {
    [0x4C, 0x00, 0x02, 0x15] + id.uuid +
    [id.major / 256, id.major % 256, id.minor / 256, id.minor % 256, power] + tail
  }

  ghost predicate Carries(s: Structure, id: BeaconId) {
    OnAir(id) && exists power, tail :: s == Structure(0xFF, BeaconData(id, power, tail))
  }

  lemma BigEndianParts(w: nat)
    requires w < 65536
    ensures BigEndian(w / 256, w % 256) == w
  {
  }

  lemma BigEndianBytes(high: Byte, low: Byte)
    ensures BigEndian(high, low) < 65536 && BigEndian(high, low) / 256 == high && BigEndian(high, low) % 256 == low
  {
  }

  lemma BeaconDataRead(id: BeaconId, power: Byte, tail: seq<Byte>)
    requires OnAir(id)
    ensures IBeacon(Structure(0xFF, BeaconData(id, power, tail))) == Some(id)
  {
    var data := BeaconData(id, power, tail);
    BigEndianParts(id.major);
    BigEndianParts(id.minor);
    hide BigEndian;
    assert data[0] == 0x4C && data[1] == 0x00 && data[2] == 0x02 && data[3] == 0x15;
    assert data[4..20] == id.uuid;
    assert data[20] == id.major / 256 && data[21] == id.major % 256;
    assert data[22] == id.minor / 256 && data[23] == id.minor % 256;
  }

  lemma ReadHasForm(s: Structure)
    requires IBeacon(s).Some?
    ensures Carries(s, IBeacon(s).value)
  {
    var d := s.data;
    var id := IBeacon(s).value;
    BigEndianBytes(d[20], d[21]);
    BigEndianBytes(d[22], d[23]);
    hide BigEndian;
    assert d == BeaconData(id, d[24], d[25..]);
  }

  /** A structure is read as an identity exactly when it carries it in this form. */
  lemma IdentityReadExactly(s: Structure, id: BeaconId)
    ensures IBeacon(s) == Some(id) <==> Carries(s, id)
  {
    if IBeacon(s).Some? { ReadHasForm(s); }
    if Carries(s, id) {
      var power, tail :| s == Structure(0xFF, BeaconData(id, power, tail));
      BeaconDataRead(id, power, tail);
    }
  }

  /** A known beacon on the air is found: among any other structures, of which none before
      it carries a known identity, and any zero padding. */
  lemma BeaconOnAirFound(
      before: seq<Structure>, id: BeaconId, power: Byte, tail: seq<Byte>, after: seq<Structure>,
      padding: seq<Byte>, known: set<BeaconId>)
    requires OnAir(id) && |tail| <= 229 && id in known
    requires forall k :: 0 <= k < |before| ==> |before[k].data| <= 254
    requires forall k :: 0 <= k < |after| ==> |after[k].data| <= 254
    requires forall k, other :: 0 <= k < |before| && other in known ==> !Carries(before[k], other)
    requires forall k :: 0 <= k < |padding| ==> padding[k] == 0
    ensures var all := before + [Structure(0xFF, BeaconData(id, power, tail))] + after;
      && (forall k :: 0 <= k < |all| ==> |all[k].data| <= 254)
      && FirstKnown(Structures(EncodeStructures(all) + padding), known) == Some(id)
  {
    var s := Structure(0xFF, BeaconData(id, power, tail));
    var all := before + [s] + after;
    BeaconDataRead(id, power, tail);
    hide BeaconData;
    assert all[|before|] == s;
    forall k | 0 <= k < |before| ensures IBeacon(all[k]).None? || IBeacon(all[k]).value !in known {
      assert all[k] == before[k];
      if IBeacon(before[k]).Some? { IdentityReadExactly(before[k], IBeacon(before[k]).value); }
    }
    StructuresRoundTrip(all, padding);
    KnownBeaconFound(all, known, |before|);
  }
}
