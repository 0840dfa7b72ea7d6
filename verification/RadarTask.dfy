/** process_byte of main/sensor_ld2412.c over its 64-byte buffer, and what a dispatched
    frame reports. */
module RadarTask {
  import opened Basics
  import opened Radar

  class RadarParser {
    var state: Position
    const data: array<Byte>
    var dataIdx: nat
    var dataLen: nat
    var cmd: nat
    var stdType: Byte

    /** Buffer accesses stay in bounds in every valid state. */
    ghost predicate Valid()
      reads this, data
    {
      data.Length == 64 && dataIdx <= 64 && Radar.Valid(View())
    }

    ghost function View(): Parser
      reads this, data
      requires dataIdx <= data.Length
    {
      Parser(state, dataLen, cmd, stdType, data[..dataIdx])
    }

    constructor ()
      ensures Valid() && state == Idle && fresh(data)
    {
      state, dataIdx, dataLen, cmd, stdType := Idle, 0, 0, 0, 0;
      data := new Byte[64](i => 0);
    }

    /** One byte from the UART; the frame it completes, if any, is handed on. */
    method ProcessByte(b: Byte) returns (out: Option<Frame>)
      requires Valid()
      modifies this, data
      ensures Valid() && (View(), out) == Step(old(View()), b)
    {
      StepExtends(View(), b);
      match FormatOf(state) {
        case None =>
          out := None;
          if b == 0xF4 { state := S1; } else if b == 0xFD { state := H1; }
        case Some(true) => out := EngineeringByte(b);
        case Some(false) => out := StandardByte(b);
      }
    }

    /** The states of the FD FC FB FA format. */
    method EngineeringByte(b: Byte) returns (out: Option<Frame>)
      requires data.Length == 64 && dataIdx <= 64 && (state.Data? ==> dataIdx < 64)
      requires FormatOf(state) == Some(true)
      modifies this, data
      ensures dataIdx <= 64 && (View(), out) == Step(old(View()), b)
    {
      out := None;
      match state {
        case H1 => state := if b == 0xFC then H2 else Idle;
        case H2 => state := if b == 0xFB then H3 else Idle;
        case H3 => state := if b == 0xFA then Len1 else Idle;
        case Len1 => dataLen := b; state := Len2;
        case Len2 =>
          dataLen := dataLen + b * 256;
          dataIdx := 0;
          state := if dataLen < 2 || dataLen > 66 then Idle else Cmd1;
        case Cmd1 => cmd := b; state := Cmd2;
        case Cmd2 => cmd := cmd + b * 256; state := if dataLen > 2 then Data else E1;
        case Data => StoreByte(b); state := if dataIdx >= dataLen - 2 then E1 else Data;
        case E1 => state := if b == 0x04 then E2 else Idle;
        case E2 => state := if b == 0x03 then E3 else Idle;
        case E3 => state := if b == 0x02 then E4 else Idle;
        case E4 =>
          if b == 0x01 { out := Some(Engineering(cmd, data[..dataIdx])); }
          state := Idle;
      }
    }

    /** The states of the F4 F3 F2 F1 format. */
    method StandardByte(b: Byte) returns (out: Option<Frame>)
      requires data.Length == 64 && dataIdx <= 64 && (state.SData? ==> dataIdx < 64)
      requires FormatOf(state) == Some(false)
      modifies this, data
      ensures dataIdx <= 64 && (View(), out) == Step(old(View()), b)
    {
      out := None;
      match state {
        case S1 => state := if b == 0xF3 then S2 else Idle;
        case S2 => state := if b == 0xF2 then S3 else Idle;
        case S3 => state := if b == 0xF1 then SLen1 else Idle;
        case SLen1 => dataLen := b; state := SLen2;
        case SLen2 =>
          dataLen := dataLen + b * 256;
          dataIdx := 0;
          state := if dataLen < 4 || dataLen > 60 then Idle else SKind;
        case SKind => stdType := b; state := SMark;
        case SMark => state := if b == 0xAA then SData else Idle;
        case SData => StoreByte(b); state := if dataIdx >= dataLen - 2 then SE1 else SData;
        case SE1 => state := if b == 0xF8 then SE2 else Idle;
        case SE2 => state := if b == 0xF7 then SE3 else Idle;
        case SE3 => state := if b == 0xF6 then SE4 else Idle;
        case SE4 =>
          if b == 0xF5 { out := Some(Standard(stdType, data[..dataIdx])); }
          state := Idle;
      }
    }

    /** s_data[s_data_idx++] = b: the bound test of the source is never needed. */
    method StoreByte(b: Byte)
      requires data.Length == 64 && dataIdx < 64
      modifies this`dataIdx, data
      ensures dataIdx == old(dataIdx) + 1 && data[..dataIdx] == old(data[..dataIdx]) + [b]
    {
      data[dataIdx] := b;
      dataIdx := dataIdx + 1;
    }
  }

  /** Some(true) for the engineering format, Some(false) for the standard one. */
  function FormatOf(p: Position): Option<bool> {
    match p
    case Idle => None
    case S1 => Some(false) case S2 => Some(false) case S3 => Some(false)
    case SLen1 => Some(false) case SLen2 => Some(false)
    case SKind => Some(false) case SMark => Some(false) case SData => Some(false)
    case SE1 => Some(false) case SE2 => Some(false) case SE3 => Some(false) case SE4 => Some(false)
    case _ => Some(true)
  }

  /** The target fields of a frame. */
  datatype Report = Report(
    target: bool, moving: bool, still: bool,
    movingDistance: nat, movingEnergy: nat,
    stillDistance: nat, stillEnergy: nat,
    detectionDistance: nat)

  function Word(data: seq<Byte>, i: nat): nat
    requires i + 1 < |data|
  {
    var low: nat := data[i];
    var high: nat := data[i + 1];
    low + high * 256
  }

  /** Fields shared by both formats; `len` is the payload length. */
  function Fields(data: seq<Byte>, len: nat): Report
    requires 7 <= len <= |data|
  {
    Report(data[0] != 0, data[0] == 1 || data[0] == 3, data[0] == 2 || data[0] == 3,
           Word(data, 1), data[3], Word(data, 4), data[6],
           if 9 <= len then Word(data, 7) else 0)
  }

  /** process_frame_eng and process_frame_std: which frames report, and what. */
  function ReportOf(f: Frame): Option<Report>
    requires WellFormed(f)
  {
    match f
    case Engineering(cmd, data) =>
      if (cmd == 0xAA02 || cmd == 0x0101) && 9 <= |data| then Some(Fields(data, |data|)) else None
    case Standard(_, data) =>
      if 7 <= |data| - 2 then Some(Fields(data, |data| - 2)) else None
  }

  // ---- a report on the wire ----

  predicate Sendable(r: Report) {
    && r.target == (r.moving || r.still)
    && r.movingDistance < 0x1_0000 && r.stillDistance < 0x1_0000 && r.detectionDistance < 0x1_0000
    && r.movingEnergy < 256 && r.stillEnergy < 256
  }

  /** The nine payload bytes: target state, then little-endian distances and energies. */
  function ReportData(r: Report): (data: seq<Byte>)
    requires Sendable(r)
    ensures |data| == 9
  {
    [(if r.moving then 1 else 0) + (if r.still then 2 else 0),
     r.movingDistance % 256, r.movingDistance / 256, r.movingEnergy,
     r.stillDistance % 256, r.stillDistance / 256, r.stillEnergy,
     r.detectionDistance % 256, r.detectionDistance / 256]
  }

  lemma FieldsOfReport(r: Report, tail: seq<Byte>)
    requires Sendable(r)
    ensures Fields(ReportData(r) + tail, 9) == r
  {
    var data := ReportData(r) + tail;
    assert forall k :: 0 <= k < 9 ==> data[k] == ReportData(r)[k];
  }

  /** From IDLE, the bytes of a report in either format are dispatched as one frame that
      reads as the report. */
  lemma ReportArrives(p: Parser, r: Report, kind: Byte)
    requires p.pos.Idle? && Sendable(r)
    ensures var f := Engineering(0xAA02, ReportData(r));
      Dispatched(p, Encode(f)) == [f] && ReportOf(f) == Some(r)
    ensures var f := Standard(kind, ReportData(r) + [0x55, 0x00]);
      Dispatched(p, Encode(f)) == [f] && ReportOf(f) == Some(r)
  {
    var f, g := Engineering(0xAA02, ReportData(r)), Standard(kind, ReportData(r) + [0x55, 0x00]);
    FieldsOfReport(r, []);
    FieldsOfReport(r, [0x55, 0x00]);
    assert ReportData(r) + [] == ReportData(r);
    FrameDispatched(p, f);
    FrameDispatched(p, g);
    hide Dispatched;
    hide Encode;
    hide Fields;
    hide ReportData;
  }

  // ---- every report ----

  /** The two bytes at i are the little-endian form of n. */
  predicate SpellsWord(data: seq<Byte>, i: nat, n: nat)
    requires i + 1 < |data|
  {
    n < 0x1_0000 && data[i] == n % 256 && data[i + 1] == n / 256
  }

  /** The first seven payload bytes say this. State bytes above 3 stand for a target that is
      neither moving nor still. */
  predicate Spells(data: seq<Byte>, r: Report)
    requires 7 <= |data|
  {
    && (r.target <==> data[0] != 0) && (r.moving <==> data[0] in {1, 3}) && (r.still <==> data[0] in {2, 3})
    && SpellsWord(data, 1, r.movingDistance) && data[3] == r.movingEnergy
    && SpellsWord(data, 4, r.stillDistance) && data[6] == r.stillEnergy
  }

  /** A frame reports r: two engineering commands do, with nine payload bytes or more, and
      every standard frame with seven or more before its two closing bytes; the detection
      distance is there from the ninth on. */
  predicate Reports(f: Frame, r: Report) {
    match f
    case Engineering(cmd, data) =>
      cmd in {0xAA02, 0x0101} && 9 <= |data| && Spells(data, r) && SpellsWord(data, 7, r.detectionDistance)
    case Standard(_, data) =>
      9 <= |data| && Spells(data, r) &&
      if 11 <= |data| then SpellsWord(data, 7, r.detectionDistance) else r.detectionDistance == 0
  }

  lemma WordExactly(data: seq<Byte>, i: nat, n: nat)
    requires i + 1 < |data|
    ensures SpellsWord(data, i, n) <==> n == Word(data, i)
  {
  }

  /** Every frame is read as exactly what it reports, and as nothing when it does not. */
  lemma ReportsExactly(f: Frame, r: Report)
    requires WellFormed(f)
    ensures ReportOf(f) == Some(r) <==> Reports(f, r)
  {
    var data := f.data;
    if 9 <= |data| {
      WordExactly(data, 1, r.movingDistance);
      WordExactly(data, 4, r.stillDistance);
      WordExactly(data, 7, r.detectionDistance);
      hide SpellsWord, Word;
    }
  }
}
