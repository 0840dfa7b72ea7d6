/** The byte-driven frame parser of main/sensor_ld2412.c. */
module Radar {
  import opened Basics

  /** The two frame formats. `data` is everything between the command (or the AA marker)
      and the footer; in a standard frame it includes the 55 00 suffix, unchecked. */
  datatype Frame =
    | Engineering(cmd: nat, data: seq<Byte>)
    | Standard(kind: Byte, data: seq<Byte>)

  predicate WellFormed(f: Frame) {
    match f
    case Engineering(cmd, data) => cmd < 0x1_0000 && |data| <= 64
    case Standard(_, data) => 2 <= |data| <= 58
  }

  function EngineeringHead(len: nat, cmd: nat): seq<Byte>
    requires len < 0x1_0000 && cmd < 0x1_0000
  {
    [0xFD, 0xFC, 0xFB, 0xFA, len % 256, len / 256, cmd % 256, cmd / 256]
  }

  function StandardHead(len: nat, kind: Byte): seq<Byte>
    requires len < 0x1_0000
  {
    [0xF4, 0xF3, 0xF2, 0xF1, len % 256, len / 256, kind, 0xAA]
  }

  /** The bytes of a frame on the wire. */
  function Encode(f: Frame): seq<Byte>
    requires WellFormed(f)
  {
    match f
    case Engineering(cmd, data) => EngineeringHead(|data| + 2, cmd) + data + [0x04, 0x03, 0x02, 0x01]
    case Standard(kind, data) => StandardHead(|data| + 2, kind) + data + [0xF8, 0xF7, 0xF6, 0xF5]
  }

  /** The parser's states, engineering format first. */
  datatype Position =
    | Idle
    | H1 | H2 | H3 | Len1 | Len2 | Cmd1 | Cmd2 | Data | E1 | E2 | E3 | E4
    | S1 | S2 | S3 | SLen1 | SLen2 | SKind | SMark | SData | SE1 | SE2 | SE3 | SE4

  /** `buf` is the filled part of the data buffer. */
  datatype Parser = Parser(pos: Position, len: nat, cmd: nat, kind: Byte, buf: seq<Byte>)

  /** One byte: the new parser state and the frame it completes, if any. */
  function Step(p: Parser, b: Byte): (Parser, Option<Frame>) {
    match p.pos
    case Idle => (p.(pos := if b == 0xF4 then S1 else if b == 0xFD then H1 else Idle), None)
    case H1 => (Expect(p, b, 0xFC, H2), None)
    case H2 => (Expect(p, b, 0xFB, H3), None)
    case H3 => (Expect(p, b, 0xFA, Len1), None)
    case Len1 => (p.(len := b, pos := Len2), None)
    case Len2 =>
      var len := p.len + b * 256;
      (p.(len := len, buf := [], pos := if len < 2 || len > 66 then Idle else Cmd1), None)
    case Cmd1 => (p.(cmd := b, pos := Cmd2), None)
    case Cmd2 => (p.(cmd := p.cmd + b * 256, pos := if p.len > 2 then Data else E1), None)
    case Data => (p.(buf := p.buf + [b], pos := if |p.buf| + 1 >= p.len - 2 then E1 else Data), None)
    case E1 => (Expect(p, b, 0x04, E2), None)
    case E2 => (Expect(p, b, 0x03, E3), None)
    case E3 => (Expect(p, b, 0x02, E4), None)
    case E4 => (p.(pos := Idle), if b == 0x01 then Some(Engineering(p.cmd, p.buf)) else None)
    case S1 => (Expect(p, b, 0xF3, S2), None)
    case S2 => (Expect(p, b, 0xF2, S3), None)
    case S3 => (Expect(p, b, 0xF1, SLen1), None)
    case SLen1 => (p.(len := b, pos := SLen2), None)
    case SLen2 =>
      var len := p.len + b * 256;
      (p.(len := len, buf := [], pos := if len < 4 || len > 60 then Idle else SKind), None)
    case SKind => (p.(kind := b, pos := SMark), None)
    case SMark => (Expect(p, b, 0xAA, SData), None)
    case SData => (p.(buf := p.buf + [b], pos := if |p.buf| + 1 >= p.len - 2 then SE1 else SData), None)
    case SE1 => (Expect(p, b, 0xF8, SE2), None)
    case SE2 => (Expect(p, b, 0xF7, SE3), None)
    case SE3 => (Expect(p, b, 0xF6, SE4), None)
    case SE4 => (p.(pos := Idle), if b == 0xF5 then Some(Standard(p.kind, p.buf)) else None)
  }

  /** A byte that is not the expected one is dropped, not looked at again. */
  function Expect(p: Parser, b: Byte, want: Byte, next: Position): Parser {
    p.(pos := if b == want then next else Idle)
  }

  predicate EngineeringLen(p: Parser) { 2 <= p.len <= 66 }
  predicate StandardLen(p: Parser) { 4 <= p.len <= 60 }

  /** What is known of the variables in each state; the buffer never overflows. */
  predicate Valid(p: Parser) {
    && |p.buf| <= 64
    && match p.pos
       case Len2 => p.len < 256
       case SLen2 => p.len < 256
       case Cmd1 => EngineeringLen(p) && p.buf == []
       case Cmd2 => EngineeringLen(p) && p.buf == [] && p.cmd < 256
       case Data => EngineeringLen(p) && |p.buf| < p.len - 2 && p.cmd < 0x1_0000
       case E1 => EngineeringLen(p) && |p.buf| == p.len - 2 && p.cmd < 0x1_0000
       case E2 => EngineeringLen(p) && |p.buf| == p.len - 2 && p.cmd < 0x1_0000
       case E3 => EngineeringLen(p) && |p.buf| == p.len - 2 && p.cmd < 0x1_0000
       case E4 => EngineeringLen(p) && |p.buf| == p.len - 2 && p.cmd < 0x1_0000
       case SKind => StandardLen(p) && p.buf == []
       case SMark => StandardLen(p) && p.buf == []
       case SData => StandardLen(p) && |p.buf| < p.len - 2
       case SE1 => StandardLen(p) && |p.buf| == p.len - 2
       case SE2 => StandardLen(p) && |p.buf| == p.len - 2
       case SE3 => StandardLen(p) && |p.buf| == p.len - 2
       case SE4 => StandardLen(p) && |p.buf| == p.len - 2
       case _ => true
  }

  /** The bytes consumed since the frame in progress began. */
  function Partial(p: Parser): seq<Byte>
    requires Valid(p)
  {
    match p.pos
    case Idle => []
    case H1 => [0xFD]
    case H2 => [0xFD, 0xFC]
    case H3 => [0xFD, 0xFC, 0xFB]
    case Len1 => [0xFD, 0xFC, 0xFB, 0xFA]
    case Len2 => [0xFD, 0xFC, 0xFB, 0xFA, p.len]
    case Cmd1 => [0xFD, 0xFC, 0xFB, 0xFA, p.len % 256, p.len / 256]
    case Cmd2 => [0xFD, 0xFC, 0xFB, 0xFA, p.len % 256, p.len / 256, p.cmd]
    case Data => EngineeringHead(p.len, p.cmd) + p.buf
    case E1 => EngineeringHead(p.len, p.cmd) + p.buf
    case E2 => EngineeringHead(p.len, p.cmd) + p.buf + [0x04]
    case E3 => EngineeringHead(p.len, p.cmd) + p.buf + [0x04, 0x03]
    case E4 => EngineeringHead(p.len, p.cmd) + p.buf + [0x04, 0x03, 0x02]
    case S1 => [0xF4]
    case S2 => [0xF4, 0xF3]
    case S3 => [0xF4, 0xF3, 0xF2]
    case SLen1 => [0xF4, 0xF3, 0xF2, 0xF1]
    case SLen2 => [0xF4, 0xF3, 0xF2, 0xF1, p.len]
    case SKind => [0xF4, 0xF3, 0xF2, 0xF1, p.len % 256, p.len / 256]
    case SMark => [0xF4, 0xF3, 0xF2, 0xF1, p.len % 256, p.len / 256, p.kind]
    case SData => StandardHead(p.len, p.kind) + p.buf
    case SE1 => StandardHead(p.len, p.kind) + p.buf
    case SE2 => StandardHead(p.len, p.kind) + p.buf + [0xF8]
    case SE3 => StandardHead(p.len, p.kind) + p.buf + [0xF8, 0xF7]
    case SE4 => StandardHead(p.len, p.kind) + p.buf + [0xF8, 0xF7, 0xF6]
  }

  /** One byte extends the frame in progress, completes it, or abandons it. */
  ghost predicate Extends(p: Parser, b: Byte)
    requires Valid(p)
  {
    var (q, out) := Step(p, b);
    && Valid(q)
    && (out.Some? ==> q.pos.Idle? && WellFormed(out.value) && Encode(out.value) == Partial(p) + [b])
    && (!q.pos.Idle? ==> Partial(q) == Partial(p) + [b])
  }

  datatype Stage = Header | Payload | Footer

  function StageOf(p: Parser): Stage {
    match p.pos
    case Cmd1 => Payload case Cmd2 => Payload case Data => Payload
    case SKind => Payload case SMark => Payload case SData => Payload
    case E1 => Footer case E2 => Footer case E3 => Footer case E4 => Footer
    case SE1 => Footer case SE2 => Footer case SE3 => Footer case SE4 => Footer
    case _ => Header
  }

  lemma HeaderExtends(p: Parser, b: Byte)
    requires Valid(p) && StageOf(p).Header?
    ensures Extends(p, b)
  {
    if p.pos.Len2? || p.pos.SLen2? { LengthBytes(p.len, b); }
  }

  lemma PayloadExtends(p: Parser, b: Byte)
    requires Valid(p) && StageOf(p).Payload?
    ensures Extends(p, b)
  {
    match p.pos
    case Cmd2 => LengthBytes(p.cmd, b);
    case Data => assert EngineeringHead(p.len, p.cmd) + (p.buf + [b]) == Partial(p) + [b];
    case SData => assert StandardHead(p.len, p.kind) + (p.buf + [b]) == Partial(p) + [b];
    case _ =>
  }

  lemma FooterExtends(p: Parser, b: Byte)
    requires Valid(p) && StageOf(p).Footer?
    ensures Extends(p, b)
  {
    match p.pos
    case E4 => assert b == 0x01 ==> Encode(Engineering(p.cmd, p.buf)) == Partial(p) + [b];
    case SE4 => assert b == 0xF5 ==> Encode(Standard(p.kind, p.buf)) == Partial(p) + [b];
    case _ =>
  }

  lemma StepExtends(p: Parser, b: Byte)
    requires Valid(p)
    ensures Extends(p, b)
  {
    match StageOf(p)
    case Header => HeaderExtends(p, b);
    case Payload => PayloadExtends(p, b);
    case Footer => FooterExtends(p, b);
  }

  lemma LengthBytes(low: nat, high: Byte)
    requires low < 256
    ensures (low + high * 256) % 256 == low && (low + high * 256) / 256 == high
  {
  }

  // ---- byte streams ----

  /** The state after a stream of bytes. */
  function After(p: Parser, bytes: seq<Byte>): Parser {
    if bytes == [] then p else Step(After(p, bytes[..|bytes| - 1]), bytes[|bytes| - 1]).0
  }

  /** The frames dispatched, in order. */
  function Dispatched(p: Parser, bytes: seq<Byte>): seq<Frame> {
    if bytes == [] then []
    else
      Dispatched(p, bytes[..|bytes| - 1]) +
      match LastOut(p, bytes)
      case Some(f) => [f]
      case None => []
  }

  /** What the last byte of a stream dispatches. */
  function LastOut(p: Parser, bytes: seq<Byte>): Option<Frame>
    requires bytes != []
  {
    Step(After(p, bytes[..|bytes| - 1]), bytes[|bytes| - 1]).1
  }

  lemma {:induction false} AfterValid(p: Parser, bytes: seq<Byte>)
    requires Valid(p)
    ensures Valid(After(p, bytes))
  {
    if bytes != [] {
      AfterValid(p, bytes[..|bytes| - 1]);
      StepExtends(After(p, bytes[..|bytes| - 1]), bytes[|bytes| - 1]);
    }
  }

  lemma {:induction false} AfterAppend(p: Parser, x: seq<Byte>, y: seq<Byte>)
    ensures After(p, x + y) == After(After(p, x), y)
    ensures Dispatched(p, x + y) == Dispatched(p, x) + Dispatched(After(p, x), y)
  {
    hide Step;
    if y == [] {
      assert x + y == x;
    } else {
      var y0 := y[..|y| - 1];
      AfterAppend(p, x, y0);
      assert (x + y)[..|x + y| - 1] == x + y0;
    }
  }

  predicate AllWellFormed(frames: seq<Frame>) {
    forall k :: 0 <= k < |frames| ==> WellFormed(frames[k])
  }

  /** Frames on the wire with arbitrary bytes before, between and after them. */
  function Interleave(gaps: seq<seq<Byte>>, frames: seq<Frame>): seq<Byte>
    requires |gaps| == |frames| + 1 && AllWellFormed(frames)
    decreases |frames|
  {
    if frames == [] then gaps[0]
    else
      var n := |frames| - 1;
      Interleave(gaps[..n + 1], frames[..n]) + Encode(frames[n]) + gaps[n + 1]
  }

  lemma InterleaveSnoc(gaps: seq<seq<Byte>>, frames: seq<Frame>, f: Frame, gap: seq<Byte>)
    requires |gaps| == |frames| + 1 && AllWellFormed(frames) && WellFormed(f)
    ensures Interleave(gaps + [gap], frames + [f]) == Interleave(gaps, frames) + Encode(f) + gap
  {
    assert (gaps + [gap])[..|frames| + 1] == gaps;
    assert (frames + [f])[..|frames|] == frames;
  }

  /** The last gap may be cut short. */
  lemma InterleaveLastGap(gaps: seq<seq<Byte>>, frames: seq<Frame>, x: seq<Byte>, y: seq<Byte>)
    requires |gaps| == |frames| + 1 && AllWellFormed(frames) && gaps[|frames|] == x + y
    ensures Interleave(gaps, frames) == Interleave(gaps[|frames| := x], frames) + y
  {
    if frames != [] {
      assert gaps[|frames| := x][..|frames|] == gaps[..|frames|];
    }
  }

  lemma LongerGap(gaps: seq<seq<Byte>>, frames: seq<Frame>, b: Byte) returns (longer: seq<seq<Byte>>)
    requires |gaps| == |frames| + 1 && AllWellFormed(frames)
    ensures |longer| == |gaps| && longer[|frames|] == gaps[|frames|] + [b]
    ensures Interleave(longer, frames) == Interleave(gaps, frames) + [b]
  {
    longer := gaps[|frames| := gaps[|frames|] + [b]];
    InterleaveLastGap(longer, frames, gaps[|frames|], [b]);
    assert longer[|frames| := gaps[|frames|]] == gaps;
  }

  /** The tail of the last gap, with one more byte, turns out to be a frame. */
  lemma GapBecomesFrame(gaps: seq<seq<Byte>>, frames: seq<Frame>, part: seq<Byte>, b: Byte, f: Frame)
    returns (closed: seq<seq<Byte>>)
    requires |gaps| == |frames| + 1 && AllWellFormed(frames) && WellFormed(f)
    requires EndsWith(gaps[|frames|], part) && Encode(f) == part + [b]
    ensures |closed| == |gaps| + 1 && closed[|gaps|] == []
    ensures Interleave(closed, frames + [f]) == Interleave(gaps, frames) + [b]
  {
    hide Encode;
    var last := gaps[|frames|];
    var head := last[..|last| - |part|];
    assert last == head + part;
    InterleaveLastGap(gaps, frames, head, part);
    var shorter := gaps[|frames| := head];
    InterleaveSnoc(shorter, frames, f, []);
    closed := shorter + [[]];
    var before := Interleave(shorter, frames);
    assert before + (part + [b]) + [] == before + part + [b];
  }

  /** Soundness: whatever the stream, it consists of exactly the dispatched frames, in order
      and without overlap, in their wire form, with other bytes in the gaps; the frame in
      progress lies in the last gap. */
  lemma {:induction false} Soundness(p: Parser, bytes: seq<Byte>) returns (gaps: seq<seq<Byte>>)
    requires p.pos.Idle? && Valid(p)
    ensures var frames := Dispatched(p, bytes);
      && AllWellFormed(frames) && |gaps| == |frames| + 1
      && bytes == Interleave(gaps, frames)
    ensures Valid(After(p, bytes))
    ensures EndsWith(gaps[|gaps| - 1], Partial(After(p, bytes)))
  {
    hide Step;
    hide Encode;
    hide Interleave;
    if bytes == [] {
      gaps := [[]];
      EmptyInterleave();
    } else {
      var n := |bytes| - 1;
      var before := bytes[..n];
      gaps := Soundness(p, before);
      var frames := Dispatched(p, before);
      var q := After(p, before);
      StepExtends(q, bytes[n]);
      assert bytes == before + [bytes[n]];
      match LastOut(p, bytes)
      case Some(f) => gaps := GapBecomesFrame(gaps, frames, Partial(q), bytes[n], f);
      case None =>
        assert Dispatched(p, bytes) == frames;
        GrowingTail(gaps[|frames|], Partial(q), bytes[n]);
        gaps := LongerGap(gaps, frames, bytes[n]);
    }
  }

  lemma EmptyInterleave()
    ensures AllWellFormed([]) && Interleave([[]], []) == []
  {
  }

  lemma GrowingTail(s: seq<Byte>, t: seq<Byte>, b: Byte)
    requires EndsWith(s, t)
    ensures EndsWith(s + [b], t + [b]) && EndsWith(s + [b], [])
  {
    assert (s + [b])[|s| - |t|..] == s[|s| - |t|..] + [b];
  }

  predicate EndsWith(s: seq<Byte>, t: seq<Byte>) {
    |t| <= |s| && s[|s| - |t|..] == t
  }

  // ---- completeness ----

  /** Where the parser stands after the first k bytes of a frame. */
  function PositionAt(f: Frame, k: nat): Position
    requires WellFormed(f) && k < |Encode(f)|
  {
    var n := |f.data|;
    if f.Engineering? then
      if k < 8 then [Idle, H1, H2, H3, Len1, Len2, Cmd1, Cmd2][k]
      else if k < 8 + n then Data
      else [E1, E2, E3, E4][k - 8 - n]
    else
      if k < 8 then [Idle, S1, S2, S3, SLen1, SLen2, SKind, SMark][k]
      else if k < 8 + n then SData
      else [SE1, SE2, SE3, SE4][k - 8 - n]
  }

  /** In step with frame f after its first k bytes. */
  predicate Following(p: Parser, f: Frame, k: nat)
    requires WellFormed(f) && k < |Encode(f)|
  {
    var n := |f.data|;
    && p.pos == PositionAt(f, k)
    && (k == 5 ==> p.len == (n + 2) % 256)
    && (6 <= k ==> p.len == n + 2)
    && (6 <= k < 8 ==> p.buf == [])
    && (8 <= k ==> p.buf == f.data[..if k < 8 + n then k - 8 else n])
    && match f
       case Engineering(cmd, _) => (k == 7 ==> p.cmd == cmd % 256) && (8 <= k ==> p.cmd == cmd)
       case Standard(kind, _) => 7 <= k ==> p.kind == kind
  }

  lemma FollowHeader(p: Parser, f: Frame, k: nat)
    requires WellFormed(f) && k < 8 && Following(p, f, k)
    ensures var (q, out) := Step(p, Encode(f)[k]); out == None && Following(q, f, k + 1)
  {
    HeadByte(f, k);
    hide Encode;
  }

  lemma HeadByte(f: Frame, k: nat)
    requires WellFormed(f) && k < 8
    ensures |Encode(f)| == |f.data| + 12
    ensures Encode(f)[k] == if f.Engineering? then EngineeringHead(|f.data| + 2, f.cmd)[k]
                            else StandardHead(|f.data| + 2, f.kind)[k]
  {
  }

  lemma FollowData(p: Parser, f: Frame, k: nat)
    requires WellFormed(f) && 8 <= k < 8 + |f.data| && Following(p, f, k)
    ensures var (q, out) := Step(p, Encode(f)[k]); out == None && Following(q, f, k + 1)
  {
    DataByte(f, k);
    DataPositions(f, k);
    hide Encode;
    hide PositionAt;
    assert f.data[..k - 8] + [f.data[k - 8]] == f.data[..k - 7];
  }

  lemma DataByte(f: Frame, k: nat)
    requires WellFormed(f) && 8 <= k < 8 + |f.data|
    ensures |Encode(f)| == |f.data| + 12 && Encode(f)[k] == f.data[k - 8]
  {
  }

  lemma DataPositions(f: Frame, k: nat)
    requires WellFormed(f) && 8 <= k < 8 + |f.data|
    ensures |Encode(f)| == |f.data| + 12
    ensures PositionAt(f, k) == if f.Engineering? then Data else SData
    ensures PositionAt(f, k + 1) ==
            if k + 1 < 8 + |f.data| then PositionAt(f, k) else if f.Engineering? then E1 else SE1
  {
  }

  lemma FollowFooter(p: Parser, f: Frame, k: nat)
    requires WellFormed(f) && 8 + |f.data| <= k < |Encode(f)| && Following(p, f, k)
    ensures var (q, out) := Step(p, Encode(f)[k]);
      if k + 1 == |Encode(f)| then q.pos.Idle? && out == Some(f)
      else out == None && Following(q, f, k + 1)
  {
    var i := k - 8 - |f.data|;
    assert f.Engineering? ==> Encode(f)[k] == [0x04, 0x03, 0x02, 0x01][i];
    assert f.Standard? ==> Encode(f)[k] == [0xF8, 0xF7, 0xF6, 0xF5][i];
    assert f.data[..|f.data|] == f.data;
  }

  lemma Follow(p: Parser, f: Frame, k: nat)
    requires WellFormed(f) && k < |Encode(f)| && Following(p, f, k)
    ensures var (q, out) := Step(p, Encode(f)[k]);
      if k + 1 == |Encode(f)| then q.pos.Idle? && out == Some(f)
      else out == None && Following(q, f, k + 1)
  {
    if k < 8 { FollowHeader(p, f, k); }
    else if k < 8 + |f.data| { FollowData(p, f, k); }
    else { FollowFooter(p, f, k); }
  }

  lemma {:induction false} FollowsPrefix(p: Parser, f: Frame, k: nat)
    requires p.pos.Idle? && WellFormed(f) && k < |Encode(f)|
    ensures Following(After(p, Encode(f)[..k]), f, k)
    ensures Dispatched(p, Encode(f)[..k]) == []
  {
    if k > 0 {
      hide Step;
      hide Following;
      hide Encode;
      FollowsPrefix(p, f, k - 1);
      assert Encode(f)[..k][..k - 1] == Encode(f)[..k - 1];
      Follow(After(p, Encode(f)[..k - 1]), f, k - 1);
    }
  }

  /** From IDLE, a well-formed frame is dispatched by its last byte and by no other. */
  lemma FrameDispatched(p: Parser, f: Frame)
    requires p.pos.Idle? && WellFormed(f)
    ensures Dispatched(p, Encode(f)) == [f] && LastOut(p, Encode(f)) == Some(f)
    ensures After(p, Encode(f)).pos.Idle?
  {
    var k := |Encode(f)| - 1;
    hide Step;
    hide Following;
    hide Encode;
    FollowsPrefix(p, f, k);
    Follow(After(p, Encode(f)[..k]), f, k);
  }

  predicate Filler(bytes: seq<Byte>) {
    forall k :: 0 <= k < |bytes| ==> bytes[k] != 0xF4 && bytes[k] != 0xFD
  }

  lemma {:induction false} FillerIgnored(p: Parser, bytes: seq<Byte>)
    requires p.pos.Idle? && Filler(bytes)
    ensures After(p, bytes) == p && Dispatched(p, bytes) == []
  {
    if bytes != [] {
      FillerIgnored(p, bytes[..|bytes| - 1]);
    }
  }

  /** Completeness: well-formed frames of both formats, separated by filler that holds no
      first header byte, are dispatched exactly and in order, and the parser ends in IDLE. */
  lemma {:induction false} Completeness(p: Parser, gaps: seq<seq<Byte>>, frames: seq<Frame>)
    requires Valid(p) && p.pos.Idle?
    requires |gaps| == |frames| + 1 && AllWellFormed(frames)
    requires forall k :: 0 <= k < |gaps| ==> Filler(gaps[k])
    ensures Dispatched(p, Interleave(gaps, frames)) == frames
    ensures After(p, Interleave(gaps, frames)).pos.Idle?
    decreases |frames|
  {
    if frames == [] {
      FillerIgnored(p, gaps[0]);
    } else {
      hide *;
      var n := |frames| - 1;
      PartsOfInterleave(gaps, frames, n);
      var x := Interleave(gaps[..n + 1], frames[..n]);
      Completeness(p, gaps[..n + 1], frames[..n]);
      OneMoreFrame(p, x, frames[n], gaps[n + 1]);
    }
  }

  lemma PartsOfInterleave(gaps: seq<seq<Byte>>, frames: seq<Frame>, n: nat)
    requires |gaps| == |frames| + 1 && AllWellFormed(frames) && |frames| == n + 1
    requires forall k :: 0 <= k < |gaps| ==> Filler(gaps[k])
    ensures AllWellFormed(frames[..n]) && WellFormed(frames[n]) && frames == frames[..n] + [frames[n]]
    ensures var before := gaps[..n + 1]; forall k :: 0 <= k < |before| ==> Filler(before[k])
    ensures Interleave(gaps, frames) == Interleave(gaps[..n + 1], frames[..n]) + Encode(frames[n]) + gaps[n + 1]
  {
    hide Encode;
    hide Filler;
  }

  lemma OneMoreFrame(p: Parser, x: seq<Byte>, f: Frame, gap: seq<Byte>)
    requires After(p, x).pos.Idle? && WellFormed(f) && Filler(gap)
    ensures After(p, x + Encode(f) + gap).pos.Idle?
    ensures Dispatched(p, x + Encode(f) + gap) == Dispatched(p, x) + [f]
  {
    FrameDispatched(After(p, x), f);
    AfterAppend(p, x, Encode(f));
    FillerIgnored(After(p, x + Encode(f)), gap);
    AfterAppend(p, x + Encode(f), gap);
    hide *;
  }

  // ---- resynchronisation ----

  /** How many more bytes the parser can take at most before it is back in IDLE. */
  function Remaining(p: Parser): nat
    requires Valid(p)
  {
    match p.pos
    case Idle => 0
    case H1 => 75 case H2 => 74 case H3 => 73 case Len1 => 72 case Len2 => 71
    case Cmd1 => p.len + 4 case Cmd2 => p.len + 3
    case Data => p.len + 2 - |p.buf|
    case E1 => 4 case E2 => 3 case E3 => 2 case E4 => 1
    case S1 => 69 case S2 => 68 case S3 => 67 case SLen1 => 66 case SLen2 => 65
    case SKind => p.len + 4 case SMark => p.len + 3
    case SData => p.len + 2 - |p.buf|
    case SE1 => 4 case SE2 => 3 case SE3 => 2 case SE4 => 1
  }

  lemma RemainingDrops(p: Parser, b: Byte)
    requires Valid(p) && !p.pos.Idle?
    ensures Valid(Step(p, b).0) && Remaining(Step(p, b).0) < Remaining(p)
  {
    hide Encode;
    hide Partial;
    StepExtends(p, b);
    hide Valid;
    match StageOf(p)
    case Header => HeaderDrops(p, b);
    case Payload => PayloadDrops(p, b);
    case Footer => FooterDrops(p, b);
  }

  lemma HeaderDrops(p: Parser, b: Byte)
    requires Valid(p) && StageOf(p).Header? && !p.pos.Idle? && Valid(Step(p, b).0)
    ensures Remaining(Step(p, b).0) < Remaining(p)
  {
  }

  lemma PayloadDrops(p: Parser, b: Byte)
    requires Valid(p) && StageOf(p).Payload? && Valid(Step(p, b).0)
    ensures Remaining(Step(p, b).0) < Remaining(p)
  {
  }

  lemma FooterDrops(p: Parser, b: Byte)
    requires Valid(p) && StageOf(p).Footer? && Valid(Step(p, b).0)
    ensures Remaining(Step(p, b).0) < Remaining(p)
  {
  }

  lemma {:induction false} RemainingShrinks(p: Parser, bytes: seq<Byte>)
    requires Valid(p)
    ensures Valid(After(p, bytes))
    ensures (exists k :: 0 <= k <= |bytes| && After(p, bytes[..k]).pos.Idle?) ||
            Remaining(After(p, bytes)) + |bytes| <= Remaining(p)
  {
    hide Step;
    hide Remaining;
    hide Valid;
    if bytes == [] {
    } else {
      var n := |bytes| - 1;
      RemainingShrinks(p, bytes[..n]);
      assert bytes[..n + 1] == bytes;
      AfterValid(p, bytes);
      if k :| 0 <= k <= n && After(p, bytes[..n][..k]).pos.Idle? {
        assert bytes[..n][..k] == bytes[..k];
      } else {
        assert bytes[..n][..n] == bytes[..n];
        RemainingDrops(After(p, bytes[..n]), bytes[n]);
      }
    }
  }

  /** Recovery: whatever the state and the bytes, IDLE is reached within 75 of them. */
  lemma Recovery(p: Parser, bytes: seq<Byte>)
    requires Valid(p) && 75 <= |bytes|
    ensures exists k :: 0 <= k <= 75 && After(p, bytes[..k]).pos.Idle?
  {
    RemainingShrinks(p, bytes[..75]);
    if k :| 0 <= k <= 75 && After(p, bytes[..75][..k]).pos.Idle? {
      assert bytes[..75][..k] == bytes[..k];
    } else {
      assert bytes[..75][..75] == bytes[..75];
    }
  }

  /** The bound is attained: inside a longest frame 74 bytes after its first are not enough. */
  lemma RecoveryTight(p: Parser, f: Frame)
    requires p.pos.Idle? && WellFormed(f) && f.Engineering? && |f.data| == 64
    ensures var q := After(p, [0xFD]); var bytes := Encode(f)[1..75];
      forall k :: 0 <= k <= 74 ==> !After(q, bytes[..k]).pos.Idle?
  {
    forall k | 0 <= k <= 74 ensures !After(After(p, [0xFD]), Encode(f)[1..75][..k]).pos.Idle? {
      InsideFrame(p, f, k);
    }
  }

  lemma InsideFrame(p: Parser, f: Frame, k: nat)
    requires p.pos.Idle? && WellFormed(f) && f.Engineering? && |f.data| == 64 && k <= 74
    ensures !After(After(p, [0xFD]), Encode(f)[1..75][..k]).pos.Idle?
  {
    FirstBytes(f, k);
    hide Step;
    hide Encode;
    hide PositionAt;
    hide After;
    FollowsPrefix(p, f, k + 1);
    AfterAppend(p, [0xFD], Encode(f)[1..75][..k]);
  }

  lemma FirstBytes(f: Frame, k: nat)
    requires WellFormed(f) && f.Engineering? && |f.data| == 64 && k <= 74
    ensures |Encode(f)| == 76 && Encode(f)[0] == 0xFD && !PositionAt(f, k + 1).Idle?
    ensures [0xFD] + Encode(f)[1..75][..k] == Encode(f)[..k + 1]
  {
  }

  /** The age of the frame in progress grows with the stream or restarts below it. */
  lemma {:induction false} Age(p: Parser, bytes: seq<Byte>)
    requires Valid(p)
    ensures Valid(After(p, bytes))
    ensures |Partial(After(p, bytes))| == |Partial(p)| + |bytes| || |Partial(After(p, bytes))| < |bytes|
  {
    if bytes != [] {
      Age(p, bytes[..|bytes| - 1]);
      StepExtends(After(p, bytes[..|bytes| - 1]), bytes[|bytes| - 1]);
    }
  }

  /** The code drops a mismatching byte without looking at it again, so not every frame on
      the wire is seen: a frame is dispatched by its last byte exactly when the parser is
      in IDLE as its first byte arrives. */
  lemma DispatchedExactlyFromIdle(p: Parser, f: Frame)
    requires Valid(p) && WellFormed(f)
    ensures LastOut(p, Encode(f)) == Some(f) <==> p.pos.Idle?
  {
    if p.pos.Idle? {
      FrameDispatched(p, f);
    } else {
      var e := Encode(f);
      var n := |e| - 1;
      Age(p, e[..n]);
      StepExtends(After(p, e[..n]), e[n]);
      assert |Partial(p)| >= 1;
    }
  }

  lemma AfterStrayByte(p: Parser)
    requires Valid(p) && p.pos.Idle?
    ensures After(p, [0xF4]).pos.S1? && Valid(After(p, [0xF4]))
  {
    assert [0xF4][..0] == [];
    assert After(p, [0xF4]) == Step(p, 0xF4).0;
  }

  /** A stray F4 just before a frame makes the parser miss it. */
  lemma StrayByteHidesFrame(p: Parser, f: Frame)
    requires Valid(p) && p.pos.Idle? && WellFormed(f)
    ensures LastOut(p, [0xF4] + Encode(f)) != Some(f)
  {
    AfterStrayByte(p);
    EncodeNotEmpty(f);
    LastOutAppend(p, [0xF4], Encode(f));
    DispatchedExactlyFromIdle(After(p, [0xF4]), f);
    hide *;
  }

  lemma LastOutAppend(p: Parser, x: seq<Byte>, y: seq<Byte>)
    requires y != []
    ensures LastOut(p, x + y) == LastOut(After(p, x), y)
  {
    hide Step;
    hide After;
    hide Dispatched;
    LastByte(x, y);
    AfterAppend(p, x, y[..|y| - 1]);
  }

  lemma LastByte(x: seq<Byte>, y: seq<Byte>)
    requires y != []
    ensures (x + y)[..|x + y| - 1] == x + y[..|y| - 1] && (x + y)[|x + y| - 1] == y[|y| - 1]
  {
  }

  lemma EncodeNotEmpty(f: Frame)
    requires WellFormed(f)
    ensures 12 <= |Encode(f)| <= 76
  {
  }
}
