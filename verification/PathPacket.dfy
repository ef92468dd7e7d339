/** The planned-path packet: what the planner sends and the controller reads
    (planned_path_sender.cpp, planned_path_receiver.cpp). */
module PathPacket {
  import opened RealMath
  import opened ByteCodec
  import opened PlannerLoop

  const HEADER: seq<Byte> := [35, 70, 114, 101, 110, 101, 116, 80, 108, 97, 110, 68, 36] // "#FrenetPlanD$"
  const TAIL: seq<Byte> := [13, 10]
  const MAX_PATH_SAMPLES := 32
  const PAYLOAD_OFFSET := 29
  const SLOT_SIZE := 24
  const SAMPLES_OFFSET := PAYLOAD_OFFSET + 40
  const MIN_PACKET_SIZE := SAMPLES_OFFSET + MAX_PATH_SAMPLES * SLOT_SIZE

  /** A path with the header fields that go out with it. */
  datatype Message = Message(samples: Path, dt: real, d: real, dDot: real, ego: VehicleState)

  // ---------------------------------------------------------------- sending

  function SampleWords(f: Floats, s: Sample): (ws: seq<Word>)
    ensures |ws| == 6
  {
    [f.bits(s.x), f.bits(s.y), f.bits(s.yaw), f.bits(s.kappa), f.bits(s.v), f.bits(s.a)]
  }

  /** The first `n` slots, six words each; a slot without a sample is zero. */
  function SlotWords(f: Floats, samples: Path, count: nat, n: nat): (ws: seq<Word>)
    requires count <= |samples|
    ensures |ws| == 6 * n
  {
    if n == 0 then []
    else SlotWords(f, samples, count, n - 1) + if n - 1 < count then SampleWords(f, samples[n - 1])
        else [0, 0, 0, 0, 0, 0]
  }

  function FieldWords(f: Floats, m: Message, count: nat): (ws: seq<Word>)
    requires count <= MAX_PATH_SAMPLES
    ensures |ws| == 14
  {
    [0, 0, 0, 0, f.bits(m.dt), f.bits(m.d), f.bits(m.dDot), f.bits(m.ego.x), f.bits(m.ego.y), f.bits(m.ego.yaw),
     f.bits(m.ego.v), f.bits(m.ego.steer), f.bits(m.ego.accel), Unsigned(count, WORD)]
  }

  function Packet(f: Floats, m: Message): (s: seq<Byte>)
    ensures |s| == MIN_PACKET_SIZE + 2
  {
    var count := MinNat(|m.samples|, MAX_PATH_SAMPLES);
    HEADER + Words(FieldWords(f, m, count) + SlotWords(f, m.samples, count, MAX_PATH_SAMPLES)) + TAIL
  }

  method Append(buf: seq<Byte>, ws: seq<Word>, ghost head: seq<Byte>, ghost before: seq<Word>) returns (r: seq<Byte>)
    requires buf == head + Words(before)
    ensures r == head + Words(before + ws)
  {
    r := buf;
    assert before + ws[..0] == before;
    for k := 0 to |ws|
      invariant r == head + Words(before + ws[..k])
    {
      assert (before + ws[..k + 1])[..|before| + k] == before + ws[..k];
      r := r + Bytes(ws[k], 4);
    }
    assert ws[..|ws|] == ws;
  }

  method Send(f: Floats, m: Message) returns (buf: seq<Byte>)
    ensures buf == Packet(f, m)
  {
    hide SampleWords, Words, Unsigned, Floats.Rounded;
    var count := MinNat(|m.samples|, MAX_PATH_SAMPLES);
    buf := HEADER;
    ghost var sent: seq<Word> := [];
    buf := Append(buf, [0, 0, 0, 0], HEADER, sent);
    sent := sent + [0, 0, 0, 0];
    var header := [f.bits(m.dt), f.bits(m.d), f.bits(m.dDot)];
    buf := Append(buf, header, HEADER, sent);
    sent := sent + header;
    var ego := [f.bits(m.ego.x), f.bits(m.ego.y), f.bits(m.ego.yaw), f.bits(m.ego.v), f.bits(m.ego.steer),
                f.bits(m.ego.accel)];
    buf := Append(buf, ego, HEADER, sent);
    sent := sent + ego;
    buf := Append(buf, [Unsigned(count, WORD)], HEADER, sent);
    sent := sent + [Unsigned(count, WORD)];
    assert sent == FieldWords(f, m, count);
    hide FieldWords;
    assert sent + SlotWords(f, m.samples, count, 0) == sent;
    for i := 0 to MAX_PATH_SAMPLES
      invariant buf == HEADER + Words(sent + SlotWords(f, m.samples, count, i))
    {
      var slot: seq<Word> := [0, 0, 0, 0, 0, 0];
      if i < count {
        slot := SampleWords(f, m.samples[i]);
      }
      buf := Append(buf, slot, HEADER, sent + SlotWords(f, m.samples, count, i));
      assert sent + SlotWords(f, m.samples, count, i) + slot == sent + SlotWords(f, m.samples, count, i + 1);
    }
    buf := buf + TAIL;
  }

  // ---------------------------------------------------------------- receiving

  function ReadFloat(f: Floats, raw: seq<Byte>, offset: nat): real
    requires offset + 4 <= |raw|
  {
    f.value(ReadWord(raw, offset))
  }

  function ReadCount(raw: seq<Byte>): (n: nat)
    requires |raw| >= MIN_PACKET_SIZE
    ensures n <= MAX_PATH_SAMPLES
  {
    var count := Signed(ReadWord(raw, PAYLOAD_OFFSET + 36), WORD);
    if 0 < count <= MAX_PATH_SAMPLES then count else 0
  }

  function ReadSample(f: Floats, raw: seq<Byte>, i: nat): Sample
    requires |raw| >= MIN_PACKET_SIZE && i < MAX_PATH_SAMPLES
  {
    var base := SAMPLES_OFFSET + i * SLOT_SIZE;
    Sample(ReadFloat(f, raw, base), ReadFloat(f, raw, base + 4), ReadFloat(f, raw, base + 8),
           ReadFloat(f, raw, base + 12), ReadFloat(f, raw, base + 16), ReadFloat(f, raw, base + 20))
  }

  predicate Acceptable(raw: seq<Byte>) {
    |raw| >= MIN_PACKET_SIZE && raw[..13] == HEADER
  }

  function Parsed(f: Floats, raw: seq<Byte>): Message
    requires Acceptable(raw)
  {
    Message(seq(ReadCount(raw), i requires 0 <= i < MAX_PATH_SAMPLES => ReadSample(f, raw, i)),
            ReadFloat(f, raw, 29), ReadFloat(f, raw, 33), ReadFloat(f, raw, 37),
            VehicleState(ReadFloat(f, raw, 41), ReadFloat(f, raw, 45), ReadFloat(f, raw, 49),
                         ReadFloat(f, raw, 53), ReadFloat(f, raw, 57), ReadFloat(f, raw, 61)))
  }

  class PlannedPathReceiver {
    var path: Message
    var hasData: bool

    constructor ()
      ensures !hasData
    {
      path := Message([], 0.0, 0.0, 0.0, VehicleState(0.0, 0.0, 0.0, 0.0, 0.0, 0.0));
      hasData := false;
    }

    /** A packet that is too short or starts otherwise changes nothing. */
    method ParseData(f: Floats, raw: seq<Byte>)
      modifies this
      ensures !Acceptable(raw) ==> path == old(path) && hasData == old(hasData)
      ensures Acceptable(raw) ==> path == Parsed(f, raw) && hasData
    {
      if |raw| < MIN_PACKET_SIZE {
        return;
      }
      if raw[..13] != HEADER {
        return;
      }
      hide ReadSample, ReadFloat;
      var count := Signed(ReadWord(raw, PAYLOAD_OFFSET + 36), WORD);
      var n: nat := if 0 < count <= MAX_PATH_SAMPLES then count else 0;
      var samples: Path := [];
      for i := 0 to n
        invariant |samples| == i && forall k | 0 <= k < i :: samples[k] == ReadSample(f, raw, k)
      {
        samples := samples + [ReadSample(f, raw, i)];
      }
      path := Message(samples, ReadFloat(f, raw, 29), ReadFloat(f, raw, 33), ReadFloat(f, raw, 37),
                      VehicleState(ReadFloat(f, raw, 41), ReadFloat(f, raw, 45), ReadFloat(f, raw, 49),
                                   ReadFloat(f, raw, 53), ReadFloat(f, raw, 57), ReadFloat(f, raw, 61)));
      assert samples == Parsed(f, raw).samples;
      hasData := true;
    }
  }

  // ---------------------------------------------------------------- round trip

  function RoundedState(f: Floats, s: VehicleState): VehicleState {
    VehicleState(f.Rounded(s.x), f.Rounded(s.y), f.Rounded(s.yaw), f.Rounded(s.v), f.Rounded(s.steer),
                 f.Rounded(s.accel))
  }

  function RoundedSample(f: Floats, s: Sample): Sample {
    Sample(f.Rounded(s.x), f.Rounded(s.y), f.Rounded(s.yaw), f.Rounded(s.kappa), f.Rounded(s.v), f.Rounded(s.a))
  }

  /** The message as it arrives: at most 32 samples, every number rounded once. */
  function Delivered(f: Floats, m: Message): Message {
    var n := MinNat(|m.samples|, MAX_PATH_SAMPLES);
    Message(seq(n, i requires 0 <= i < n => RoundedSample(f, m.samples[i])),
            f.Rounded(m.dt), f.Rounded(m.d), f.Rounded(m.dDot), RoundedState(f, m.ego))
  }

  /** Word k of the packet sits 13 + 4 k bytes from its start. */
  lemma PacketWord(f: Floats, m: Message, k: nat)
    requires k < 14 + 6 * MAX_PATH_SAMPLES
    ensures var count := MinNat(|m.samples|, MAX_PATH_SAMPLES);
            ReadWord(Packet(f, m), 13 + 4 * k)
            == if k < 14 then FieldWords(f, m, count)[k] else SlotWords(f, m.samples, count, MAX_PATH_SAMPLES)[k - 14]
  {
    hide Words, Bytes, ReadWord, FieldWords, SlotWords, Unsigned;
    var count := MinNat(|m.samples|, MAX_PATH_SAMPLES);
    ReadBack(HEADER, FieldWords(f, m, count) + SlotWords(f, m.samples, count, MAX_PATH_SAMPLES), TAIL, k);
  }

  lemma {:induction false} SlotWordAt(f: Floats, samples: Path, count: nat, n: nat, i: nat)
    requires i < count <= |samples| && i < n
    ensures SlotWords(f, samples, count, n)[6 * i..6 * i + 6] == SampleWords(f, samples[i])
  {
    hide SampleWords;
    var front := SlotWords(f, samples, count, n - 1);
    if i < n - 1 {
      SlotWordAt(f, samples, count, n - 1, i);
      assert SlotWords(f, samples, count, n)[6 * i..6 * i + 6] == front[6 * i..6 * i + 6];
    }
  }

  lemma SampleWordArrives(f: Floats, m: Message, i: nat, j: nat, offset: nat)
    requires i < MinNat(|m.samples|, MAX_PATH_SAMPLES) && j < 6 && offset == SAMPLES_OFFSET + i * SLOT_SIZE + 4 * j
    ensures ReadWord(Packet(f, m), offset) == SampleWords(f, m.samples[i])[j]
  {
    hide Packet, SlotWords, FieldWords, ReadWord, SampleWords;
    var count := MinNat(|m.samples|, MAX_PATH_SAMPLES);
    var ws := SlotWords(f, m.samples, count, MAX_PATH_SAMPLES);
    SlotWordAt(f, m.samples, count, MAX_PATH_SAMPLES, i);
    PacketWord(f, m, 14 + 6 * i + j);
    assert ws[6 * i..6 * i + 6][j] == ws[6 * i + j];
  }

  lemma SampleArrives(f: Floats, m: Message, i: nat)
    requires i < MinNat(|m.samples|, MAX_PATH_SAMPLES)
    ensures ReadSample(f, Packet(f, m), i) == RoundedSample(f, m.samples[i])
  {
    hide Packet, ReadWord;
    var base := SAMPLES_OFFSET + i * SLOT_SIZE;
    SampleWordArrives(f, m, i, 0, base);
    SampleWordArrives(f, m, i, 1, base + 4);
    SampleWordArrives(f, m, i, 2, base + 8);
    SampleWordArrives(f, m, i, 3, base + 12);
    SampleWordArrives(f, m, i, 4, base + 16);
    SampleWordArrives(f, m, i, 5, base + 20);
  }

  lemma FieldsArrive(f: Floats, m: Message)
    ensures var raw := Packet(f, m);
            && ReadFloat(f, raw, 29) == f.Rounded(m.dt) && ReadFloat(f, raw, 33) == f.Rounded(m.d)
            && ReadFloat(f, raw, 37) == f.Rounded(m.dDot) && ReadFloat(f, raw, 41) == f.Rounded(m.ego.x)
            && ReadFloat(f, raw, 45) == f.Rounded(m.ego.y) && ReadFloat(f, raw, 49) == f.Rounded(m.ego.yaw)
            && ReadFloat(f, raw, 53) == f.Rounded(m.ego.v) && ReadFloat(f, raw, 57) == f.Rounded(m.ego.steer)
            && ReadFloat(f, raw, 61) == f.Rounded(m.ego.accel)
            && ReadCount(raw) == MinNat(|m.samples|, MAX_PATH_SAMPLES)
  {
    hide Packet, SlotWords, ReadWord;
    PacketWord(f, m, 4);
    PacketWord(f, m, 5);
    PacketWord(f, m, 6);
    PacketWord(f, m, 7);
    PacketWord(f, m, 8);
    PacketWord(f, m, 9);
    PacketWord(f, m, 10);
    PacketWord(f, m, 11);
    PacketWord(f, m, 12);
    PacketWord(f, m, 13);
  }

  lemma PacketIsAcceptable(f: Floats, m: Message)
    ensures Acceptable(Packet(f, m))
  {
    hide Words, SlotWords, FieldWords;
    assert Packet(f, m)[..13] == HEADER;
  }

  /** Receiving what was sent: the first 32 samples and every header field, rounded to single precision. */
  lemma SendReceive(f: Floats, m: Message)
    ensures Acceptable(Packet(f, m)) && Parsed(f, Packet(f, m)) == Delivered(f, m)
  {
    hide Packet, ReadFloat, ReadCount, ReadSample, RoundedSample, Floats.Rounded;
    PacketIsAcceptable(f, m);
    FieldsArrive(f, m);
    var raw := Packet(f, m);
    forall i: nat | i < MinNat(|m.samples|, MAX_PATH_SAMPLES)
      ensures ReadSample(f, raw, i) == RoundedSample(f, m.samples[i])
    {
      SampleArrives(f, m, i);
    }
    assert Parsed(f, raw).samples == Delivered(f, m).samples;
  }

  /** A message of at most 32 samples whose numbers single precision represents arrives as it was sent. */
  lemma ExactWhenRepresentable(f: Floats, m: Message)
    requires |m.samples| <= MAX_PATH_SAMPLES
    requires f.Rounded(m.dt) == m.dt && f.Rounded(m.d) == m.d && f.Rounded(m.dDot) == m.dDot
             && RoundedState(f, m.ego) == m.ego
    requires forall i | 0 <= i < |m.samples| :: RoundedSample(f, m.samples[i]) == m.samples[i]
    ensures Parsed(f, Packet(f, m)) == m
  {
    hide Packet, Parsed, RoundedSample;
    SendReceive(f, m);
    assert Delivered(f, m).samples == m.samples;
  }
}
