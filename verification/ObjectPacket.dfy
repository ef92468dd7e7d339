/** The object packet: what the bridge sends and the planner reads
    (bridge_node.cpp, object_info_receiver.cpp). */
module ObjectPacket {
  import opened RealMath
  import opened ByteCodec

  const HEADER: seq<Byte> := [35, 77, 111, 114, 97, 105, 79, 98, 106, 73, 110, 102, 111, 36] // "#MoraiObjInfo$"
  const DATA_OFFSET := 38
  const SLOT_SIZE := 106
  const WRITTEN := 68
  const MAX_SLOTS := 20
  const TAIL_SIZE := 2
  const KMH_TO_MPS := 1.0 / 3.6

  datatype Vec3 = Vec3(x: real, y: real, z: real)

  datatype ObjectStatus = ObjectStatus(position: Vec3, heading: real, size: Vec3, velocity: Vec3, acceleration: Vec3)

  datatype ObjectList = ObjectList(pedestrians: seq<ObjectStatus>, npcs: seq<ObjectStatus>,
                                   obstacles: seq<ObjectStatus>)

  /** An object with the type number of its list. */
  datatype Typed = Typed(kind: nat, status: ObjectStatus)

  datatype ObjectInfo = ObjectInfo(id: int, kind: int, x: real, y: real, heading: real, speed: real, width: real,
                                   length: real, yawRate: real)

  function Zeros(n: nat): (s: seq<Byte>)
    ensures |s| == n
  {
    seq(n, _ => 0)
  }

  // ---------------------------------------------------------------- sending

  function TypedAs(os: seq<ObjectStatus>, kind: nat): (r: seq<Typed>)
    ensures |r| == |os|
  {
    seq(|os|, i requires 0 <= i < |os| => Typed(kind, os[i]))
  }

  /** Pedestrians first, then vehicles, then obstacles. */
  function AllObjects(msg: ObjectList): seq<Typed> {
    TypedAs(msg.pedestrians, 0) + TypedAs(msg.npcs, 1) + TypedAs(msg.obstacles, 2)
  }

  function SlotWords(f: Floats, o: ObjectStatus): (ws: seq<Word>)
    ensures |ws| == 16
  {
    [f.bits(o.position.x), f.bits(o.position.y), f.bits(o.position.z), f.bits(o.heading),
     f.bits(o.size.x), f.bits(o.size.y), f.bits(o.size.z), 0, 0, 0,
     f.bits(o.velocity.x * 3.6), f.bits(o.velocity.y * 3.6), f.bits(o.velocity.z * 3.6),
     f.bits(o.acceleration.x), f.bits(o.acceleration.y), f.bits(o.acceleration.z)]
  }

  /** The written part of slot `index`, whose id is one more than the index. */
  function SlotBytes(f: Floats, index: nat, o: Typed): (s: seq<Byte>)
    ensures |s| == WRITTEN
  {
    Bytes(index + 1, 2) + Bytes(o.kind, 2) + Words(SlotWords(f, o.status))
  }

  /** The first `n` slots, each padded with zeros to its size. */
  function Slots(f: Floats, os: seq<Typed>, n: nat): (s: seq<Byte>)
    requires n <= |os|
    ensures |s| == SLOT_SIZE * n
  {
    if n == 0 then [] else Slots(f, os, n - 1) + SlotBytes(f, n - 1, os[n - 1]) + Zeros(SLOT_SIZE - WRITTEN)
  }

  function Lead(): (s: seq<Byte>)
    ensures |s| == DATA_OFFSET
  {
    HEADER + Zeros(24)
  }

  /** At least one slot goes out; it is zero when there is no object. */
  function Packet(f: Floats, os: seq<Typed>): (s: seq<Byte>)
    ensures |s| == DATA_OFFSET + SLOT_SIZE * MaxNat(MinNat(|os|, MAX_SLOTS), 1) + TAIL_SIZE
  {
    var n := MinNat(|os|, MAX_SLOTS);
    Lead() + Slots(f, os, n) + Zeros(SLOT_SIZE * (MaxNat(n, 1) - n) + TAIL_SIZE)
  }

  method Collect(os: seq<ObjectStatus>, kind: nat, objects: seq<Typed>) returns (r: seq<Typed>)
    ensures r == objects + TypedAs(os, kind)
  {
    r := objects;
    for i := 0 to |os|
      invariant r == objects + TypedAs(os, kind)[..i]
    {
      r := r + [Typed(kind, os[i])];
    }
  }

  /** `s` is `before` with a slot's head and its first `k` words written at `base`. */
  ghost predicate Holds(s: seq<Byte>, before: seq<Byte>, base: nat, head: seq<Byte>, ws: seq<Word>, k: nat) {
    k <= |ws| && base + |head| + 4 * |ws| <= |before| && s == Splice(before, base, head + Words(ws[..k]))
  }

  /** Word `k` of a slot, the ones before it being written after the slot's head. */
  method PutNext(buf: array<Byte>, offset: nat, w: Word, ghost before: seq<Byte>, ghost base: nat,
                 ghost head: seq<Byte>,
                 ghost ws: seq<Word>, ghost k: nat)
    requires k < |ws| && w == ws[k] && offset == base + |head| + 4 * k
    requires Holds(buf[..], before, base, head, ws, k)
    modifies buf
    ensures Holds(buf[..], before, base, head, ws, k + 1)
  {
    hide Words, Bytes;
    PutAt(buf, offset, w, 4);
    SpliceMore(before, base, head + Words(ws[..k]), Bytes(w, 4));
    WordsSnoc(ws[..k], w);
    assert ws[..k] + [w] == ws[..k + 1];
    assert head + Words(ws[..k]) + Bytes(w, 4) == head + Words(ws[..k + 1]);
  }

  lemma WordsSnoc(ws: seq<Word>, w: Word)
    ensures Words(ws + [w]) == Words(ws) + Bytes(w, 4)
  {
    assert (ws + [w])[..|ws|] == ws;
  }

  lemma SlotWritten(f: Floats, index: nat, o: Typed, s: seq<Byte>, before: seq<Byte>, base: nat, head: seq<Byte>,
                    ws: seq<Word>)
    requires head == Bytes(index + 1, 2) + Bytes(o.kind, 2) && ws == SlotWords(f, o.status)
    requires Holds(s, before, base, head, ws, 16)
    ensures s == Splice(before, base, SlotBytes(f, index, o))
  {
    assert ws[..16] == ws;
  }

  lemma WordsInOrder(f: Floats, o: ObjectStatus)
    ensures var ws := SlotWords(f, o);
            && ws[0] == f.bits(o.position.x) && ws[1] == f.bits(o.position.y) && ws[2] == f.bits(o.position.z)
            && ws[3] == f.bits(o.heading)
            && ws[4] == f.bits(o.size.x) && ws[5] == f.bits(o.size.y) && ws[6] == f.bits(o.size.z)
            && ws[7] == ws[8] == ws[9] == 0
            && ws[10] == f.bits(o.velocity.x * 3.6) && ws[11] == f.bits(o.velocity.y * 3.6)
            && ws[12] == f.bits(o.velocity.z * 3.6)
            && ws[13] == f.bits(o.acceleration.x) && ws[14] == f.bits(o.acceleration.y)
            && ws[15] == f.bits(o.acceleration.z)
  {
  }

  method WriteSlot(f: Floats, buf: array<Byte>, index: nat, o: Typed)
    requires DATA_OFFSET + SLOT_SIZE * index + WRITTEN <= buf.Length
    modifies buf
    ensures buf[..] == Splice(old(buf[..]), DATA_OFFSET + SLOT_SIZE * index, SlotBytes(f, index, o))
  {
    hide Words, Bytes, Splice, SlotBytes, SlotWords;
    var base := DATA_OFFSET + SLOT_SIZE * index;
    ghost var before := buf[..];
    ghost var head := Bytes(index + 1, 2) + Bytes(o.kind, 2);
    var s := o.status;
    PutAt(buf, base, index + 1, 2);
    PutAt(buf, base + 2, o.kind, 2);
    SpliceMore(before, base, Bytes(index + 1, 2), Bytes(o.kind, 2));
    ghost var ws := SlotWords(f, s);
    WordsInOrder(f, s);
    assert head + Words(ws[..0]) == head;
    assert Holds(buf[..], before, base, head, ws, 0);
    assert |head| == 4;
    hide Holds;
    PutNext(buf, base + 4, f.bits(s.position.x), before, base, head, ws, 0);
    PutNext(buf, base + 8, f.bits(s.position.y), before, base, head, ws, 1);
    PutNext(buf, base + 12, f.bits(s.position.z), before, base, head, ws, 2);
    PutNext(buf, base + 16, f.bits(s.heading), before, base, head, ws, 3);
    PutNext(buf, base + 20, f.bits(s.size.x), before, base, head, ws, 4);
    PutNext(buf, base + 24, f.bits(s.size.y), before, base, head, ws, 5);
    PutNext(buf, base + 28, f.bits(s.size.z), before, base, head, ws, 6);
    PutNext(buf, base + 32, 0, before, base, head, ws, 7);
    PutNext(buf, base + 36, 0, before, base, head, ws, 8);
    PutNext(buf, base + 40, 0, before, base, head, ws, 9);
    PutNext(buf, base + 44, f.bits(s.velocity.x * 3.6), before, base, head, ws, 10);
    PutNext(buf, base + 48, f.bits(s.velocity.y * 3.6), before, base, head, ws, 11);
    PutNext(buf, base + 52, f.bits(s.velocity.z * 3.6), before, base, head, ws, 12);
    PutNext(buf, base + 56, f.bits(s.acceleration.x), before, base, head, ws, 13);
    PutNext(buf, base + 60, f.bits(s.acceleration.y), before, base, head, ws, 14);
    PutNext(buf, base + 64, f.bits(s.acceleration.z), before, base, head, ws, 15);
    SlotWritten(f, index, o, buf[..], before, base, head, ws);
  }

  /** Writing a slot into the zeros after the slots before it. */
  lemma SlotFills(f: Floats, os: seq<Typed>, n: nat, rest: nat)
    requires n < |os| && rest >= SLOT_SIZE
    ensures Splice(Lead() + Slots(f, os, n) + Zeros(rest), DATA_OFFSET + SLOT_SIZE * n, SlotBytes(f, n, os[n]))
         == Lead() + Slots(f, os, n + 1) + Zeros(rest - SLOT_SIZE)
  {
    hide SlotBytes, Lead;
    var done := Lead() + Slots(f, os, n);
    assert Zeros(rest)[WRITTEN..] == Zeros(SLOT_SIZE - WRITTEN) + Zeros(rest - SLOT_SIZE);
    var s := done + Zeros(rest);
    assert s[..|done|] == done && s[|done| + WRITTEN..] == Zeros(rest)[WRITTEN..];
  }

  method ObjectCallback(f: Floats, msg: ObjectList) returns (buf: array<Byte>)
    ensures fresh(buf) && buf[..] == Packet(f, AllObjects(msg))
  {
    hide Slots, SlotBytes, TypedAs, Splice;
    var objects := Collect(msg.pedestrians, 0, []);
    objects := Collect(msg.npcs, 1, objects);
    objects := Collect(msg.obstacles, 2, objects);
    assert objects == AllObjects(msg);
    var n := MinNat(|objects|, MAX_SLOTS);
    var slotsToSend := MaxNat(n, 1);
    buf := new Byte[DATA_OFFSET + slotsToSend * SLOT_SIZE + TAIL_SIZE](_ => 0);
    for k := 0 to |HEADER|
      invariant buf[..] == HEADER[..k] + Zeros(buf.Length - k)
    {
      buf[k] := HEADER[k];
    }
    assert buf[..] == Lead() + Slots(f, objects, 0) + Zeros(slotsToSend * SLOT_SIZE + TAIL_SIZE);
    for i := 0 to n
      invariant buf[..] == Lead() + Slots(f, objects, i) + Zeros((slotsToSend - i) * SLOT_SIZE + TAIL_SIZE)
    {
      SlotFills(f, objects, i, (slotsToSend - i) * SLOT_SIZE + TAIL_SIZE);
      WriteSlot(f, buf, i, objects[i]);
    }
  }

  // ---------------------------------------------------------------- receiving

  function ReadShort(s: seq<Byte>, offset: nat): int
    requires offset + 2 <= |s|
  {
    Signed(Read(s, offset, 2), SHORT)
  }

  function ReadFloat(f: Floats, s: seq<Byte>, offset: nat): real
    requires offset + 4 <= |s|
  {
    f.value(ReadWord(s, offset))
  }

  function Radians(degrees: real): real { degrees * PI / 180.0 }

  /** The object in a slot; speeds arrive in km/h and headings in degrees. */
  function ReadObject(f: Floats, hypot: (real, real) -> real, s: seq<Byte>, base: nat): ObjectInfo
    requires base + SLOT_SIZE <= |s|
  {
    ObjectInfo(ReadShort(s, base), ReadShort(s, base + 2), ReadFloat(f, s, base + 4), ReadFloat(f, s, base + 8),
               Radians(ReadFloat(f, s, base + 16)),
               hypot(ReadFloat(f, s, base + 44), ReadFloat(f, s, base + 48)) * KMH_TO_MPS,
               ReadFloat(f, s, base + 24), ReadFloat(f, s, base + 20), 0.0)
  }

  /** The objects from slot `i` on, up to the first slot with id zero. */
  function ReadFrom(f: Floats, hypot: (real, real) -> real, s: seq<Byte>, i: nat, maxSlots: nat): seq<ObjectInfo>
    requires i <= maxSlots && DATA_OFFSET + SLOT_SIZE * maxSlots <= |s|
    decreases maxSlots - i
  {
    if i == maxSlots || ReadShort(s, DATA_OFFSET + SLOT_SIZE * i) == 0 then []
    else [ReadObject(f, hypot, s, DATA_OFFSET + SLOT_SIZE * i)] + ReadFrom(f, hypot, s, i + 1, maxSlots)
  }

  predicate Acceptable(s: seq<Byte>) { |s| >= DATA_OFFSET + SLOT_SIZE }

  function SlotCount(s: seq<Byte>): (n: nat)
    requires Acceptable(s)
    ensures DATA_OFFSET + SLOT_SIZE * n <= |s| && n <= MAX_SLOTS
  {
    MinNat(MAX_SLOTS, (|s| - DATA_OFFSET) / SLOT_SIZE)
  }

  class ObjectInfoReceiver {
    var objects: seq<ObjectInfo>
    var hasData: bool

    constructor ()
      ensures objects == [] && !hasData
    {
      objects := [];
      hasData := false;
    }

    /** A packet too short for one slot changes nothing; any other replaces the list. */
    method ParseData(f: Floats, hypot: (real, real) -> real, raw: seq<Byte>)
      modifies this
      ensures !Acceptable(raw) ==> objects == old(objects) && hasData == old(hasData)
      ensures Acceptable(raw) ==> objects == ReadFrom(f, hypot, raw, 0, SlotCount(raw)) && hasData
    {
      if |raw| < DATA_OFFSET + SLOT_SIZE {
        return;
      }
      objects := ReadSlots(f, hypot, raw, SlotCount(raw));
      hasData := true;
    }
  }

  method ReadSlots(f: Floats, hypot: (real, real) -> real, raw: seq<Byte>, maxSlots: nat)
    returns (found: seq<ObjectInfo>)
    requires DATA_OFFSET + SLOT_SIZE * maxSlots <= |raw|
    ensures found == ReadFrom(f, hypot, raw, 0, maxSlots)
  {
    hide ReadObject, ReadShort;
    found := [];
    var i := 0;
    while i < maxSlots
      invariant 0 <= i <= maxSlots
      invariant found + ReadFrom(f, hypot, raw, i, maxSlots) == ReadFrom(f, hypot, raw, 0, maxSlots)
    {
      var base := DATA_OFFSET + SLOT_SIZE * i;
      if ReadShort(raw, base) == 0 {
        break;
      }
      var obj := ReadObject(f, hypot, raw, base);
      assert found + ReadFrom(f, hypot, raw, i, maxSlots) == found + [obj] + ReadFrom(f, hypot, raw, i + 1, maxSlots);
      found := found + [obj];
      i := i + 1;
    }
  }

  // ---------------------------------------------------------------- round trip

  /** Object `index` as it arrives: numbered from one, every number rounded once. */
  function Delivered(f: Floats, hypot: (real, real) -> real, index: nat, o: Typed): ObjectInfo {
    var s := o.status;
    ObjectInfo(index + 1, o.kind, f.Rounded(s.position.x), f.Rounded(s.position.y), Radians(f.Rounded(s.heading)),
               hypot(f.Rounded(s.velocity.x * 3.6), f.Rounded(s.velocity.y * 3.6)) * KMH_TO_MPS,
               f.Rounded(s.size.y), f.Rounded(s.size.x), 0.0)
  }

  lemma {:induction false} SlotAt(f: Floats, os: seq<Typed>, n: nat, i: nat)
    requires i < n <= |os|
    ensures Slots(f, os, n)[SLOT_SIZE * i..SLOT_SIZE * (i + 1)] == SlotBytes(f, i, os[i]) + Zeros(SLOT_SIZE - WRITTEN)
  {
    hide SlotBytes;
    var front := Slots(f, os, n - 1);
    if i < n - 1 {
      SlotAt(f, os, n - 1, i);
      assert Slots(f, os, n)[SLOT_SIZE * i..SLOT_SIZE * (i + 1)] == front[SLOT_SIZE * i..SLOT_SIZE * (i + 1)];
    }
  }

  /** A whole slot of the packet. */
  lemma PacketSlot(f: Floats, os: seq<Typed>, i: nat)
    requires i < MinNat(|os|, MAX_SLOTS)
    ensures var base := DATA_OFFSET + SLOT_SIZE * i;
            Packet(f, os)[base..base + SLOT_SIZE] == SlotBytes(f, i, os[i]) + Zeros(SLOT_SIZE - WRITTEN)
  {
    hide SlotBytes, Lead, Slots;
    var n := MinNat(|os|, MAX_SLOTS);
    SlotAt(f, os, n, i);
    var base := DATA_OFFSET + SLOT_SIZE * i;
    assert Packet(f, os)[base..base + SLOT_SIZE] == Slots(f, os, n)[SLOT_SIZE * i..SLOT_SIZE * (i + 1)];
  }

  /** Reading inside a stretch of a sequence is reading from the stretch. */
  lemma ReadWithin(s: seq<Byte>, base: nat, slot: seq<Byte>, offset: nat, n: nat)
    requires base + |slot| <= |s| && s[base..base + |slot|] == slot && offset + n <= |slot|
    ensures Read(s, base + offset, n) == Read(slot, offset, n)
  {
    var there, here := s[base + offset..base + offset + n], slot[offset..offset + n];
    forall k | 0 <= k < n
      ensures there[k] == here[k]
    {
      assert s[base..base + |slot|][offset + k] == s[base + offset + k];
    }
    assert there == here;
  }

  lemma ShortBack(head: seq<Byte>, w: nat, tail: seq<Byte>)
    requires w < SHORT / 2
    ensures ReadShort(head + Bytes(w, 2) + tail, |head|) == w
  {
    hide Bytes;
    assert (head + Bytes(w, 2) + tail)[|head|..|head| + 2] == Bytes(w, 2);
    PowersOfBytes();
    BytesRoundTrip(w, 2);
  }

  /** What the fields of a slot read. */
  lemma SlotFields(f: Floats, index: nat, o: Typed, slot: seq<Byte>)
    requires index < MAX_SLOTS && o.kind <= 2
    requires slot == SlotBytes(f, index, o) + Zeros(SLOT_SIZE - WRITTEN)
    ensures ReadShort(slot, 0) == index + 1 && ReadShort(slot, 2) == o.kind
    ensures forall k: nat | k < 16 :: ReadWord(slot, 4 + 4 * k) == SlotWords(f, o.status)[k]
  {
    hide Bytes, Words, SlotWords, ReadWord, ReadShort;
    var ws := SlotWords(f, o.status);
    var first, second := Bytes(index + 1, 2), Bytes(o.kind, 2);
    ShortBack([], index + 1, second + Words(ws) + Zeros(SLOT_SIZE - WRITTEN));
    assert slot == [] + first + (second + Words(ws) + Zeros(SLOT_SIZE - WRITTEN));
    ShortBack(first, o.kind, Words(ws) + Zeros(SLOT_SIZE - WRITTEN));
    assert slot == first + second + (Words(ws) + Zeros(SLOT_SIZE - WRITTEN));
    forall k: nat | k < 16
      ensures ReadWord(slot, 4 + 4 * k) == ws[k]
    {
      ReadBack(first + second, ws, Zeros(SLOT_SIZE - WRITTEN), k);
    }
  }

  lemma ObjectArrives(f: Floats, hypot: (real, real) -> real, os: seq<Typed>, i: nat)
    requires i < MinNat(|os|, MAX_SLOTS) && os[i].kind <= 2
    ensures var base := DATA_OFFSET + SLOT_SIZE * i;
            && ReadShort(Packet(f, os), base) == i + 1
            && ReadObject(f, hypot, Packet(f, os), base) == Delivered(f, hypot, i, os[i])
  {
    hide Packet, SlotBytes, Read, SlotWords;
    var raw := Packet(f, os);
    var base := DATA_OFFSET + SLOT_SIZE * i;
    var slot := raw[base..base + SLOT_SIZE];
    PacketSlot(f, os, i);
    SlotFields(f, i, os[i], slot);
    ReadWithin(raw, base, slot, 0, 2);
    ReadWithin(raw, base, slot, 2, 2);
    var ws := SlotWords(f, os[i].status);
    WordsInOrder(f, os[i].status);
    forall k: nat | k < 16
      ensures ReadWord(raw, base + (4 + 4 * k)) == ws[k]
    {
      ReadWithin(raw, base, slot, 4 + 4 * k, 4);
    }
    assert ReadWord(raw, base + (4 + 4 * 0)) == ws[0] && ReadWord(raw, base + (4 + 4 * 1)) == ws[1];
    assert ReadWord(raw, base + (4 + 4 * 3)) == ws[3] && ReadWord(raw, base + (4 + 4 * 4)) == ws[4];
    assert ReadWord(raw, base + (4 + 4 * 5)) == ws[5] && ReadWord(raw, base + (4 + 4 * 10)) == ws[10];
    assert ReadWord(raw, base + (4 + 4 * 11)) == ws[11];
  }

  lemma {:induction false} ObjectsArrive(f: Floats, hypot: (real, real) -> real, os: seq<Typed>, i: nat)
    requires forall k | 0 <= k < |os| :: os[k].kind <= 2
    requires i <= MinNat(|os|, MAX_SLOTS) && |os| > 0
    ensures var n := MinNat(|os|, MAX_SLOTS);
            ReadFrom(f, hypot, Packet(f, os), i, n)
                == seq(n - i, k requires 0 <= k < n - i => Delivered(f, hypot, i + k, os[i + k]))
    decreases MinNat(|os|, MAX_SLOTS) - i
  {
    hide Packet, ReadObject, ReadShort, Delivered;
    var n := MinNat(|os|, MAX_SLOTS);
    if i < n {
      ObjectArrives(f, hypot, os, i);
      ObjectsArrive(f, hypot, os, i + 1);
    }
  }

  lemma EmptyPacket(f: Floats)
    ensures Packet(f, [])[DATA_OFFSET..DATA_OFFSET + 2] == [0, 0]
  {
  }

  /** Receiving what the bridge sent yields the first 20 objects, pedestrians before vehicles before obstacles,
      numbered from one; a list without objects arrives as one. */
  lemma SendReceive(f: Floats, hypot: (real, real) -> real, msg: ObjectList)
    ensures var os := AllObjects(msg);
            var n := MinNat(|os|, MAX_SLOTS);
            && Acceptable(Packet(f, os))
            && ReadFrom(f, hypot, Packet(f, os), 0, SlotCount(Packet(f, os)))
               == seq(n, k requires 0 <= k < n => Delivered(f, hypot, k, os[k]))
  {
    hide Packet, ReadObject, ReadShort, Delivered;
    var os := AllObjects(msg);
    var raw := Packet(f, os);
    var n := MinNat(|os|, MAX_SLOTS);
    assert (|raw| - DATA_OFFSET) / SLOT_SIZE == MaxNat(n, 1);
    if os == [] {
      NothingArrives(f);
    } else {
      ObjectsArrive(f, hypot, os, 0);
    }
  }

  lemma NothingArrives(f: Floats)
    ensures ReadShort(Packet(f, []), DATA_OFFSET) == 0
  {
    hide Packet;
    EmptyPacket(f);
    assert Value([0, 0]) == 0 + 256 * Value([0]);
  }

  /** Where single precision represents the velocity in km/h and hypot is homogeneous, the speed arrives exactly. */
  lemma SpeedArrives(f: Floats, hypot: (real, real) -> real, index: nat, o: Typed)
    requires forall x: real, y: real :: hypot(x * 3.6, y * 3.6) == hypot(x, y) * 3.6
    requires f.Rounded(o.status.velocity.x * 3.6) == o.status.velocity.x * 3.6
    requires f.Rounded(o.status.velocity.y * 3.6) == o.status.velocity.y * 3.6
    ensures Delivered(f, hypot, index, o).speed == hypot(o.status.velocity.x, o.status.velocity.y)
  {
    assert hypot(o.status.velocity.x * 3.6, o.status.velocity.y * 3.6)
        == hypot(o.status.velocity.x, o.status.velocity.y) * 3.6;
  }
}
