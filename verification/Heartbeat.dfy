/** main/ignition_espnow.c: heartbeats of the ignition remote. */
module Heartbeat {
  import opened Basics

  const WRAP := 0x1_0000
  const PACKET_LENGTH := 12

  type Word = x: int | 0 <= x < WRAP

  /** The 12-byte broadcast, without the magic that selects it. */
  datatype Packet = Packet(number: Word, uptime: nat, battery: Word)

  datatype Status = Boot | Ok | Stale

  /** Receiver variables; lastRx is 0 until the first heartbeat. */
  datatype Link = Link(synchronized: bool, last: Packet, missed: Word, lastRx: int, status: Status)

  datatype Arrival = Arrival(data: seq<Byte>, now: int)

  const SILENT := Link(false, Packet(0, 0, 0), 0, 0, Boot)

  // ---- wire form: packed little-endian fields ----

  function Word16(lo: Byte, hi: Byte): Word { lo + 256 * hi }

  function Word32(data: seq<Byte>, at: nat): nat
    requires at + 4 <= |data|
  {
    Word16(data[at], data[at + 1]) + WRAP * Word16(data[at + 2], data[at + 3])
  }

  /** A heartbeat of our own remote; anything past the twelve bytes is ignored. */
  predicate Genuine(magic: nat, data: seq<Byte>) {
    PACKET_LENGTH <= |data| && Word32(data, 0) == magic
  }

  function Decode(data: seq<Byte>): Packet
    requires PACKET_LENGTH <= |data|
  {
    Packet(Word16(data[4], data[5]), Word32(data, 6), Word16(data[10], data[11]))
  }

  /** What the remote broadcasts. */
  function Bytes16(w: Word): (s: seq<Byte>)
    ensures |s| == 2 && Word16(s[0], s[1]) == w
  {
    [w % 256, w / 256]
  }

  function Bytes32(x: nat): (s: seq<Byte>)
    requires x < WRAP * WRAP
    ensures |s| == 4 && Word32(s, 0) == x
  {
    Bytes16(x % WRAP) + Bytes16(x / WRAP)
  }

  function Encode(magic: nat, p: Packet): seq<Byte>
    requires magic < WRAP * WRAP && p.uptime < WRAP * WRAP
  {
    Bytes32(magic) + Bytes16(p.number) + Bytes32(p.uptime) + Bytes16(p.battery)
  }

  /** A heartbeat is heard as sent, by receivers with the same magic and by no other. */
  lemma HeartbeatRoundTrip(magic: nat, p: Packet, mine: nat, tail: seq<Byte>)
    requires magic < WRAP * WRAP && p.uptime < WRAP * WRAP
    ensures |Encode(magic, p)| == PACKET_LENGTH
    ensures var data := Encode(magic, p) + tail;
      Decode(data) == p && (Genuine(mine, data) <==> mine == magic)
  {
    hide Word16;
    hide Bytes16;
    hide Bytes32;
    var data := Encode(magic, p) + tail;
    var m, u := Bytes32(magic), Bytes32(p.uptime);
    assert data[0] == m[0] && data[1] == m[1] && data[2] == m[2] && data[3] == m[3];
    assert data[6] == u[0] && data[7] == u[1] && data[8] == u[2] && data[9] == u[3];
  }

  /** Numbers skipped between two consecutive heartbeats, as far as 16 bits show. */
  function Skipped(last: Word, next: Word): Word {
    var delta := (next - last) % WRAP;
    if 1 < delta < 0x8000 then delta - 1 else 0
  }

  function Receive(magic: nat, l: Link, a: Arrival): Link {
    if !Genuine(magic, a.data) then l
    else
      var p := Decode(a.data);
      Link(true, p, if l.synchronized then (l.missed + Skipped(l.last.number, p.number)) % WRAP else l.missed,
           a.now, Ok)
  }

  /** The file-scope variables. */
  class Receiver {
    const magic: nat
    const bootAt: int
    const initialized: bool
    var synchronized: bool
    var lastHeartbeat: Packet
    var missedSeq: Word
    var lastRx: int
    var status: Status

    ghost function View(): Link
      reads this
    {
      Link(synchronized, lastHeartbeat, missedSeq, lastRx, status)
    }

    constructor (magic: nat, bootAt: int, initialized: bool)
      ensures View() == SILENT && this.magic == magic && this.bootAt == bootAt && this.initialized == initialized
    {
      this.magic, this.bootAt, this.initialized := magic, bootAt, initialized;
      synchronized, lastHeartbeat, missedSeq, lastRx, status := false, Packet(0, 0, 0), 0, 0, Boot;
    }

    /** espnow_recv_cb */
    method RecvCb(data: seq<Byte>, now: int)
      modifies this
      ensures View() == Receive(magic, old(View()), Arrival(data, now))
    {
      hide Word32;
      hide Decode;
      if |data| < PACKET_LENGTH {
        return;
      }
      if Word32(data, 0) != magic {
        return;
      }
      var packet := Decode(data);
      if synchronized {
        var delta := (packet.number - lastHeartbeat.number) % WRAP;
        if 1 < delta < 0x8000 {
          missedSeq := (missedSeq + (delta - 1)) % WRAP;
        }
      }
      lastHeartbeat, lastRx, synchronized, status := packet, now, true, Ok;
    }

    /** ignition_get: everything but the status is left alone. */
    method Get(now: int, bootGrace: int, timeout: int) returns (on: bool)
      modifies this`status
      ensures on == (initialized && On(bootAt, lastRx, now, bootGrace, timeout))
      ensures status ==
        if !initialized || (now - bootAt < bootGrace && lastRx == 0) then old(status)
        else if on then Ok else Stale
    {
      if !initialized {
        return false;
      }
      if now - bootAt < bootGrace && lastRx == 0 {
        return true;
      }
      if lastRx == 0 {
        status := Stale;
        return false;
      }
      if now - lastRx >= timeout {
        status := Stale;
        return false;
      }
      status := Ok;
      return true;
    }
  }

  /** Fresh heartbeat, or none yet in the boot grace. */
  predicate On(bootAt: int, lastRx: int, now: int, bootGrace: int, timeout: int) {
    if lastRx == 0 then now - bootAt < bootGrace else now - lastRx < timeout
  }

  // ---- runs ----

  function Listen(magic: nat, l: Link, arrivals: seq<Arrival>): Link {
    if arrivals == [] then l
    else Receive(magic, Listen(magic, l, arrivals[..|arrivals| - 1]), arrivals[|arrivals| - 1])
  }

  /** The heartbeats of the own remote among the arrivals. */
  function Heard(magic: nat, arrivals: seq<Arrival>): (h: seq<Packet>)
    ensures |h| <= |arrivals|
  {
    if arrivals == [] then []
    else
      var a := arrivals[|arrivals| - 1];
      Heard(magic, arrivals[..|arrivals| - 1]) + if Genuine(magic, a.data) then [Decode(a.data)] else []
  }

  // ---- gap counting ----

  /** The true frame number behind each heartbeat: only its low 16 bits were sent. */
  ghost predicate Numbered(heard: seq<Packet>, numbers: seq<nat>) {
    && |numbers| == |heard|
    && forall k :: 0 <= k < |heard| ==> heard[k].number == numbers[k] % WRAP
  }

  /** The remote never goes back, and each gap reads the same from its low 16 bits. */
  predicate Follows(last: nat, next: nat) {
    last <= next && Countable(next - last)
  }

  predicate Countable(gap: nat) {
    gap == 0 || 1 <= gap % WRAP < 0x8000
  }

  ghost predicate OnePowerCycle(numbers: seq<nat>) {
    forall k :: 0 < k < |numbers| ==> Follows(numbers[k - 1], numbers[k])
  }

  /** Frame numbers of the received span that never arrived. */
  ghost function NeverReceived(numbers: seq<nat>): set<nat>
    requires numbers != []
  {
    set n: nat | numbers[0] <= n <= numbers[|numbers| - 1] && n !in numbers
  }

  lemma ResidueOf(x: nat, y: nat)
    requires x <= y
    ensures (y % WRAP - x % WRAP) % WRAP == (y - x) % WRAP
  {
  }

  /** One heartbeat counts exactly the skipped numbers, modulo 2^16, if and only if its
      gap is countable: every gap below 2^15 is. */
  lemma StepCountsExactly(last: nat, next: nat)
    requires last <= next
    ensures Skipped(last % WRAP, next % WRAP) == (if last == next then 0 else next - last - 1) % WRAP
            <==> Countable(next - last)
    ensures next - last < 0x8000 ==> Countable(next - last)
  {
    ResidueOf(last, next);
  }

  ghost function Interval(lo: nat, hi: nat): (s: set<nat>)
    ensures forall n: nat :: n in s <==> lo <= n < hi
    ensures |s| == if lo <= hi then hi - lo else 0
  {
    if lo < hi then Interval(lo, hi - 1) + {hi - 1} else {}
  }

  lemma {:induction false} SpanOrdered(numbers: seq<nat>, k: nat)
    requires k < |numbers| && OnePowerCycle(numbers)
    ensures numbers[k] <= numbers[|numbers| - 1]
    decreases |numbers| - k
  {
    if k + 1 < |numbers| {
      assert Follows(numbers[k + 1 - 1], numbers[k + 1]);
      SpanOrdered(numbers, k + 1);
    }
  }

  lemma NextExtendsGap(numbers: seq<nat>, next: nat)
    requires numbers != [] && OnePowerCycle(numbers + [next])
    ensures OnePowerCycle(numbers) && Follows(numbers[|numbers| - 1], next)
    ensures var last := numbers[|numbers| - 1];
      |NeverReceived(numbers + [next])| ==
      |NeverReceived(numbers)| + if last == next then 0 else next - last - 1
  {
    var all := numbers + [next];
    var last := numbers[|numbers| - 1];
    forall k | 0 < k < |numbers| ensures Follows(numbers[k - 1], numbers[k]) {
      assert Follows(all[k - 1], all[k]);
    }
    assert Follows(all[|numbers| - 1], all[|numbers|]);
    var gap := Interval(last + 1, next);
    forall n | n in numbers ensures n <= last {
      var k :| 0 <= k < |numbers| && numbers[k] == n;
      SpanOrdered(numbers, k);
    }
    forall n ensures n in NeverReceived(all) <==> n in NeverReceived(numbers) + gap {
      assert n in all <==> n in numbers || n == next;
      assert numbers[0] in numbers && last in numbers;
    }
    assert NeverReceived(all) == NeverReceived(numbers) + gap;
  }

  lemma AddResidues(x: nat, y: nat)
    ensures (x % WRAP + y % WRAP) % WRAP == (x + y) % WRAP
  {
  }

  /** Whatever else is on the air, the missed counter is the number of frames of the
      received span that never arrived, modulo 2^16. */
  lemma {:induction false} MissedCountsTheGaps(magic: nat, arrivals: seq<Arrival>, numbers: seq<nat>)
    requires Numbered(Heard(magic, arrivals), numbers) && OnePowerCycle(numbers)
    ensures var l := Listen(magic, SILENT, arrivals);
      && (l.synchronized <==> numbers != [])
      && (if numbers == [] then l == SILENT
          else && l.last == Heard(magic, arrivals)[|numbers| - 1]
               && l.missed == |NeverReceived(numbers)| % WRAP)
  {
    if arrivals != [] {
      var before := arrivals[..|arrivals| - 1];
      var a := arrivals[|arrivals| - 1];
      var h := Heard(magic, before);
      if Genuine(magic, a.data) {
        var n := |numbers| - 1;
        var earlier := numbers[..n];
        assert numbers == earlier + [numbers[n]];
        assert h == Heard(magic, arrivals)[..n];
        MissedCountsTheGaps(magic, before, earlier);
        CountOneMore(magic, Listen(magic, SILENT, before), a, earlier, numbers[n]);
      } else {
        assert Heard(magic, arrivals) == h;
        MissedCountsTheGaps(magic, before, numbers);
      }
    }
  }

  lemma CountOneMore(magic: nat, l: Link, a: Arrival, earlier: seq<nat>, next: nat)
    requires Genuine(magic, a.data) && Decode(a.data).number == next % WRAP
    requires OnePowerCycle(earlier + [next])
    requires if earlier == [] then l == SILENT
             else && l.synchronized && l.last.number == earlier[|earlier| - 1] % WRAP
                  && l.missed == |NeverReceived(earlier)| % WRAP
    ensures Receive(magic, l, a).missed == |NeverReceived(earlier + [next])| % WRAP
  {
    hide Countable;
    hide Genuine;
    hide Decode;
    if earlier == [] {
      assert NeverReceived([next]) == {};
    } else {
      var last := earlier[|earlier| - 1];
      var more := if last == next then 0 else next - last - 1;
      NextExtendsGap(earlier, next);
      StepCountsExactly(last, next);
      AddResidues(|NeverReceived(earlier)|, more);
    }
  }

  /** A heartbeat with this number can be on the air. */
  lemma Beat(magic: nat, number: Word, now: int) returns (a: Arrival)
    requires magic < WRAP * WRAP
    ensures Genuine(magic, a.data) && Decode(a.data).number == number && a.now == now
  {
    a := Arrival(Encode(magic, Packet(number, 0, 0)), now);
    HeartbeatRoundTrip(magic, Packet(number, 0, 0), magic, []);
    assert a.data + [] == a.data;
    hide *;
  }

  lemma HearTwo(magic: nat, a: Arrival, b: Arrival)
    requires Genuine(magic, a.data) && Genuine(magic, b.data)
    ensures Heard(magic, [a, b]) == [Decode(a.data), Decode(b.data)]
    ensures Listen(magic, SILENT, [a, b]).missed == Skipped(Decode(a.data).number, Decode(b.data).number)
  {
    hide Word32;
    hide Decode;
    assert [a, b][..1] == [a] && [a][..0] == [];
    assert Listen(magic, SILENT, [a]) == Receive(magic, SILENT, a);
    assert Heard(magic, [a]) == [Decode(a.data)];
  }

  lemma NeverBetween(last: nat, next: nat)
    requires last <= next
    ensures |NeverReceived([last, next])| == if last == next then 0 else next - last - 1
  {
    assert NeverReceived([last, next]) == Interval(last + 1, next);
  }

  /** Two heartbeats alone: the counter is right exactly when their gap is countable. */
  lemma TwoBeatsCountExactly(magic: nat, last: nat, next: nat) returns (arrivals: seq<Arrival>)
    requires magic < WRAP * WRAP && last <= next
    ensures Numbered(Heard(magic, arrivals), [last, next])
    ensures Listen(magic, SILENT, arrivals).missed == |NeverReceived([last, next])| % WRAP <==> Countable(next - last)
  {
    hide Listen;
    hide Heard;
    hide Skipped;
    hide Countable;
    hide Genuine;
    hide Decode;
    hide NeverReceived;
    var a := Beat(magic, last % WRAP, 1);
    var b := Beat(magic, next % WRAP, 2);
    arrivals := [a, b];
    HearTwo(magic, a, b);
    StepCountsExactly(last, next);
    NeverBetween(last, next);
  }

  /** A gap of 2^16 is not: 65535 frames are lost and none is counted. */
  lemma WholeWrapMissed(magic: nat) returns (arrivals: seq<Arrival>)
    requires magic < WRAP * WRAP
    ensures Numbered(Heard(magic, arrivals), [0, WRAP])
    ensures Listen(magic, SILENT, arrivals).missed == 0 && |NeverReceived([0, WRAP])| == WRAP - 1
  {
    hide Listen;
    hide Heard;
    hide Genuine;
    hide Decode;
    hide NeverReceived;
    var a := Beat(magic, 0, 1);
    var b := Beat(magic, 0, 2);
    arrivals := [a, b];
    HearTwo(magic, a, b);
    NeverBetween(0, WRAP);
  }

  // ---- freshness ----

  /** Timer readings are positive and never decrease. */
  ghost predicate Clock(arrivals: seq<Arrival>, now: int) {
    && (forall k :: 0 <= k < |arrivals| ==> 0 < arrivals[k].now <= now)
    && (forall j, k :: 0 <= j < k < |arrivals| ==> arrivals[j].now <= arrivals[k].now)
  }

  ghost predicate AnyGenuine(magic: nat, arrivals: seq<Arrival>) {
    exists k :: 0 <= k < |arrivals| && Genuine(magic, arrivals[k].data)
  }

  ghost predicate GenuineAfter(magic: nat, arrivals: seq<Arrival>, time: int) {
    exists k :: 0 <= k < |arrivals| && Genuine(magic, arrivals[k].data) && time < arrivals[k].now
  }

  lemma {:induction false} LastRxIsLatest(magic: nat, arrivals: seq<Arrival>, now: int, time: int)
    requires Clock(arrivals, now) && 0 <= time
    ensures var l := Listen(magic, SILENT, arrivals);
      && (l.lastRx == 0 <==> !AnyGenuine(magic, arrivals))
      && (time < l.lastRx <==> GenuineAfter(magic, arrivals, time))
  {
    if arrivals != [] {
      var n := |arrivals| - 1;
      LastRxIsLatest(magic, arrivals[..n], now, time);
      assert forall k :: 0 <= k < n ==> arrivals[..n][k] == arrivals[k];
      if !Genuine(magic, arrivals[n].data) {
        assert AnyGenuine(magic, arrivals) ==> AnyGenuine(magic, arrivals[..n]);
        assert GenuineAfter(magic, arrivals, time) ==> GenuineAfter(magic, arrivals[..n], time);
      }
    }
  }

  /** Ignition reads as on exactly while a genuine heartbeat is younger than the timeout,
      or none has ever arrived and the boot grace is still running. */
  lemma OnExactlyWhileFresh(magic: nat, arrivals: seq<Arrival>, bootAt: int, now: int, bootGrace: int, timeout: int)
    requires Clock(arrivals, now) && 0 < timeout
    ensures On(bootAt, Listen(magic, SILENT, arrivals).lastRx, now, bootGrace, timeout) <==>
            (if AnyGenuine(magic, arrivals) then GenuineAfter(magic, arrivals, now - timeout)
             else now - bootAt < bootGrace)
  {
    LastRxIsLatest(magic, arrivals, now, if now - timeout < 0 then 0 else now - timeout);
  }
}
