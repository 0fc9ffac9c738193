/**
 The SFTP wire format: big-endian words, length-prefixed strings, packets, file
 attributes and status replies. Buffers are byte strings and readers take an
 offset, as in the library.

 Main results
   AttrRoundTrip      what decoding encoded attributes gives, anywhere in a buffer
   AttrSurvivesIff    exactly which attributes come back unchanged
   PacketRoundTripIff exactly which packets can be read back from the stream
 */
module SftpWire {
  import opened Text
  import opened Bytes

  const U32_LIMIT := 0x1_0000_0000
  const U64_LIMIT := 0x1_0000_0000_0000_0000
  const PACKET_LIMIT := 0x100_0000 // 1 << 24

  type u32 = x: int | 0 <= x < U32_LIMIT
  type u64 = x: int | 0 <= x < U64_LIMIT

  // ---------------------------------------------------------------------
  // Words
  // ---------------------------------------------------------------------

  function PutU32(v: u32): (r: bytes)
    ensures |r| == 4
  {
    [v / 256 / 256 / 256, v / 256 / 256 % 256, v / 256 % 256, v % 256]
  }

  function GetU32(b: bytes): u32
    requires |b| == 4
  {
    (((b[0] as int) * 256 + b[1]) * 256 + b[2]) * 256 + b[3]
  }

  lemma U32RoundTrip(v: u32)
    ensures GetU32(PutU32(v)) == v
  {
  }

  function PutU64(v: u64): (r: bytes)
    ensures |r| == 8
  {
    PutU32(v / U32_LIMIT) + PutU32(v % U32_LIMIT)
  }

  function GetU64(b: bytes): u64
    requires |b| == 8
  {
    GetU32(b[..4]) * U32_LIMIT + GetU32(b[4..])
  }

  lemma U64RoundTrip(v: u64)
    ensures GetU64(PutU64(v)) == v
  {
    U32RoundTrip(v / U32_LIMIT);
    U32RoundTrip(v % U32_LIMIT);
    assert PutU64(v)[..4] == PutU32(v / U32_LIMIT) && PutU64(v)[4..] == PutU32(v % U32_LIMIT);
  }

  // ---------------------------------------------------------------------
  // Readers: a value and the offset after it
  // ---------------------------------------------------------------------

  datatype Read<+T> = Got(value: T, next: nat) | Short

  function ReadU32(buf: bytes, off: nat): Read<u32> {
    if off + 4 > |buf| then Short else Got(GetU32(buf[off..off + 4]), off + 4)
  }

  function ReadU64(buf: bytes, off: nat): Read<u64> {
    if off + 8 > |buf| then Short else Got(GetU64(buf[off..off + 8]), off + 8)
  }

  function ReadString(buf: bytes, off: nat): Read<bytes> {
    if off + 4 > |buf| then Short
    else
      var n := GetU32(buf[off..off + 4]);
      if off + 4 + n > |buf| then Short else Got(buf[off + 4..off + 4 + n], off + 4 + n)
  }

  function PutString(s: bytes): bytes {
    PutU32(|s| % U32_LIMIT) + s
  }

  // The bytes x stand in buf at off.
  predicate Holds(buf: bytes, off: nat, x: bytes) {
    off + |x| <= |buf| && buf[off..off + |x|] == x
  }

  lemma HoldsParts(buf: bytes, off: nat, a: bytes, b: bytes)
    requires Holds(buf, off, a + b)
    ensures Holds(buf, off, a) && Holds(buf, off + |a|, b)
  {
    var s := buf[off..off + |a + b|];
    assert s[..|a|] == a && s[|a|..] == b;
  }

  lemma ReadsU32(buf: bytes, off: nat, v: u32)
    requires Holds(buf, off, PutU32(v))
    ensures ReadU32(buf, off) == Got(v, off + 4)
  {
    U32RoundTrip(v);
  }

  lemma ReadsU64(buf: bytes, off: nat, v: u64)
    requires Holds(buf, off, PutU64(v))
    ensures ReadU64(buf, off) == Got(v, off + 8)
  {
    U64RoundTrip(v);
  }

  lemma ReadsString(buf: bytes, off: nat, s: bytes)
    requires |s| < U32_LIMIT && Holds(buf, off, PutString(s))
    ensures ReadString(buf, off) == Got(s, off + |PutString(s)|)
  {
    HoldsParts(buf, off, PutU32(|s|), s);
    U32RoundTrip(|s|);
  }

  // ---------------------------------------------------------------------
  // Packets
  // ---------------------------------------------------------------------

  datatype Packet = Packet(kind: byte, payload: bytes)

  function WritePacket(p: Packet): bytes {
    PutU32((1 + |p.payload|) % U32_LIMIT) + [p.kind] + p.payload
  }

  // A packet and the rest of the stream, or nothing when it is cut short or its
  // length is out of bounds.
  function ReadPacket(stream: bytes): Option<(Packet, bytes)> {
    if |stream| < 4 then None
    else
      var n := GetU32(stream[..4]);
      if n == 0 || n > PACKET_LIMIT || 4 + n > |stream| then None
      else Some((Packet(stream[4], stream[5..4 + n]), stream[4 + n..]))
  }

  lemma PacketShape(p: Packet, rest: bytes)
    ensures var s := WritePacket(p) + rest;
            && s[..4] == PutU32((1 + |p.payload|) % U32_LIMIT)
            && s[4] == p.kind && s[5..5 + |p.payload|] == p.payload && s[5 + |p.payload|..] == rest
  {
  }

  // A packet is read back, leaving exactly what followed it, if and only if its
  // length is within the limit the reader enforces.
  lemma PacketRoundTripIff(p: Packet, rest: bytes)
    ensures ReadPacket(WritePacket(p) + rest) == Some((p, rest)) <==> 1 + |p.payload| <= PACKET_LIMIT
  {
    PacketShape(p, rest);
    U32RoundTrip((1 + |p.payload|) % U32_LIMIT);
  }

  // ---------------------------------------------------------------------
  // Attributes
  // ---------------------------------------------------------------------

  // Times in Unix seconds; this one is Go's zero time, which means "not set".
  const ZERO_TIME := -62135596800

  datatype FileAttr = FileAttr(size: u64, uid: u32, gid: u32, mode: u32, mtime: int, atime: int)

  const EMPTY_ATTR := FileAttr(0, 0, 0, 0, ZERO_TIME, ZERO_TIME)

  const ATTR_SIZE := 1
  const ATTR_UIDGID := 2
  const ATTR_MODE := 4
  const ATTR_MTIME := 8
  const ATTR_ATIME := 16

  predicate HasFlag(flags: u32, bit: int)
    requires bit > 0
  {
    flags / bit % 2 == 1
  }

  function Flag(set_: bool, bit: nat): nat {
    if set_ then bit else 0
  }

  function Flags(a: FileAttr): u32 {
    Flag(a.size != 0, ATTR_SIZE) + Flag(a.uid != 0 || a.gid != 0, ATTR_UIDGID) + Flag(a.mode != 0, ATTR_MODE)
    + Flag(a.mtime != ZERO_TIME, ATTR_MTIME) + Flag(a.atime != ZERO_TIME, ATTR_ATIME)
  }

  lemma FlagsMean(a: FileAttr)
    ensures HasFlag(Flags(a), ATTR_SIZE) <==> a.size != 0
    ensures HasFlag(Flags(a), ATTR_UIDGID) <==> a.uid != 0 || a.gid != 0
    ensures HasFlag(Flags(a), ATTR_MODE) <==> a.mode != 0
    ensures HasFlag(Flags(a), ATTR_MTIME) <==> a.mtime != ZERO_TIME
    ensures HasFlag(Flags(a), ATTR_ATIME) <==> a.atime != ZERO_TIME
  {
  }

  // A conversion to 32 bits keeps the low half.
  function Low32(t: int): u32 {
    t % U32_LIMIT
  }

  function SizePart(a: FileAttr): bytes {
    if a.size != 0 then PutU64(a.size) else []
  }

  function OwnerPart(a: FileAttr): bytes {
    if a.uid != 0 || a.gid != 0 then PutU32(a.uid) + PutU32(a.gid) else []
  }

  function ModePart(a: FileAttr): bytes {
    if a.mode != 0 then PutU32(a.mode) else []
  }

  function TimePart(t: int): bytes {
    if t != ZERO_TIME then PutU32(Low32(t)) else []
  }

  function TimesPart(a: FileAttr): bytes {
    TimePart(a.mtime) + TimePart(a.atime)
  }

  function FieldPart(a: FileAttr): bytes {
    SizePart(a) + (OwnerPart(a) + (ModePart(a) + TimesPart(a)))
  }

  function EncodeAttr(a: FileAttr): bytes {
    PutU32(Flags(a)) + FieldPart(a)
  }

  // --- decoding, one optional field at a time ---

  function DecodeSize(buf: bytes, flags: u32, a: FileAttr, off: nat): Read<FileAttr> {
    if !HasFlag(flags, ATTR_SIZE) then Got(a, off)
    else match ReadU64(buf, off) case Short => Short case Got(v, next) => Got(a.(size := v), next)
  }

  function DecodeOwner(buf: bytes, flags: u32, a: FileAttr, off: nat): Read<FileAttr> {
    if !HasFlag(flags, ATTR_UIDGID) then Got(a, off)
    else match ReadU32(buf, off)
         case Short => Short
         case Got(u, next) =>
           match ReadU32(buf, next) case Short => Short case Got(g, next') => Got(a.(uid := u, gid := g), next')
  }

  function DecodeMode(buf: bytes, flags: u32, a: FileAttr, off: nat): Read<FileAttr> {
    if !HasFlag(flags, ATTR_MODE) then Got(a, off)
    else match ReadU32(buf, off) case Short => Short case Got(v, next) => Got(a.(mode := v), next)
  }

  function DecodeMtime(buf: bytes, flags: u32, a: FileAttr, off: nat): Read<FileAttr> {
    if !HasFlag(flags, ATTR_MTIME) then Got(a, off)
    else match ReadU32(buf, off) case Short => Short case Got(v, next) => Got(a.(mtime := v), next)
  }

  function DecodeAtime(buf: bytes, flags: u32, a: FileAttr, off: nat): Read<FileAttr> {
    if !HasFlag(flags, ATTR_ATIME) then Got(a, off)
    else match ReadU32(buf, off) case Short => Short case Got(v, next) => Got(a.(atime := v), next)
  }

  function DecodeFromMtime(buf: bytes, flags: u32, a: FileAttr, off: nat): Read<FileAttr> {
    match DecodeMtime(buf, flags, a, off) case Short => Short case Got(b, next) => DecodeAtime(buf, flags, b, next)
  }

  function DecodeFromMode(buf: bytes, flags: u32, a: FileAttr, off: nat): Read<FileAttr> {
    match DecodeMode(buf, flags, a, off) case Short => Short case Got(b, next) => DecodeFromMtime(buf, flags, b, next)
  }

  function DecodeFromOwner(buf: bytes, flags: u32, a: FileAttr, off: nat): Read<FileAttr> {
    match DecodeOwner(buf, flags, a, off) case Short => Short case Got(b, next) => DecodeFromMode(buf, flags, b, next)
  }

  function DecodeFromSize(buf: bytes, flags: u32, off: nat): Read<FileAttr> {
    match DecodeSize(buf, flags, EMPTY_ATTR, off) case Short => Short case Got(b, next) => DecodeFromOwner(buf, flags, b, next)
  }

  function DecodeAttrs(buf: bytes, off: nat): Read<FileAttr> {
    match ReadU32(buf, off) case Short => Short case Got(flags, next) => DecodeFromSize(buf, flags, next)
  }

  // What is left of a time on the wire.
  function WireTime(t: int): int {
    if t == ZERO_TIME then ZERO_TIME else Low32(t)
  }

  function WireAttr(a: FileAttr): FileAttr {
    a.(mtime := WireTime(a.mtime), atime := WireTime(a.atime))
  }

  lemma SizeRead(buf: bytes, off: nat, a: FileAttr)
    requires Holds(buf, off, SizePart(a))
    ensures DecodeSize(buf, Flags(a), EMPTY_ATTR, off) == Got(EMPTY_ATTR.(size := a.size), off + |SizePart(a)|)
  {
    FlagsMean(a);
    if a.size != 0 { ReadsU64(buf, off, a.size); }
  }

  lemma OwnerRead(buf: bytes, off: nat, a: FileAttr, b: FileAttr)
    requires Holds(buf, off, OwnerPart(a)) && b.uid == b.gid == 0
    ensures DecodeOwner(buf, Flags(a), b, off) == Got(b.(uid := a.uid, gid := a.gid), off + |OwnerPart(a)|)
  {
    FlagsMean(a);
    if a.uid != 0 || a.gid != 0 {
      HoldsParts(buf, off, PutU32(a.uid), PutU32(a.gid));
      ReadsU32(buf, off, a.uid);
      ReadsU32(buf, off + 4, a.gid);
    }
  }

  lemma ModeRead(buf: bytes, off: nat, a: FileAttr, b: FileAttr)
    requires Holds(buf, off, ModePart(a)) && b.mode == 0
    ensures DecodeMode(buf, Flags(a), b, off) == Got(b.(mode := a.mode), off + |ModePart(a)|)
  {
    FlagsMean(a);
    if a.mode != 0 { ReadsU32(buf, off, a.mode); }
  }

  lemma MtimeRead(buf: bytes, off: nat, a: FileAttr, b: FileAttr)
    requires Holds(buf, off, TimePart(a.mtime)) && b.mtime == ZERO_TIME
    ensures DecodeMtime(buf, Flags(a), b, off) == Got(b.(mtime := WireTime(a.mtime)), off + |TimePart(a.mtime)|)
  {
    FlagsMean(a);
    if a.mtime != ZERO_TIME { ReadsU32(buf, off, Low32(a.mtime)); }
  }

  lemma AtimeRead(buf: bytes, off: nat, a: FileAttr, b: FileAttr)
    requires Holds(buf, off, TimePart(a.atime)) && b.atime == ZERO_TIME
    ensures DecodeAtime(buf, Flags(a), b, off) == Got(b.(atime := WireTime(a.atime)), off + |TimePart(a.atime)|)
  {
    FlagsMean(a);
    if a.atime != ZERO_TIME { ReadsU32(buf, off, Low32(a.atime)); }
  }

  // Wherever encoded attributes stand in a buffer, decoding there gives them
  // back with their times cut to 32 bits, and stops exactly behind them.
  lemma AttrRoundTrip(buf: bytes, off: nat, a: FileAttr)
    requires Holds(buf, off, EncodeAttr(a))
    ensures DecodeAttrs(buf, off) == Got(WireAttr(a), off + |EncodeAttr(a)|)
  {
    HoldsParts(buf, off, PutU32(Flags(a)), FieldPart(a));
    ReadsU32(buf, off, Flags(a));
    FieldsRead(buf, off + 4, a);
  }

  lemma TimesRead(buf: bytes, off: nat, a: FileAttr, b: FileAttr)
    requires Holds(buf, off, TimesPart(a)) && b.mtime == b.atime == ZERO_TIME
    ensures DecodeFromMtime(buf, Flags(a), b, off)
         == Got(b.(mtime := WireTime(a.mtime), atime := WireTime(a.atime)), off + |TimesPart(a)|)
  {
    HoldsParts(buf, off, TimePart(a.mtime), TimePart(a.atime));
    MtimeRead(buf, off, a, b);
    AtimeRead(buf, off + |TimePart(a.mtime)|, a, b.(mtime := WireTime(a.mtime)));
  }

  lemma ModeTimesRead(buf: bytes, off: nat, a: FileAttr, b: FileAttr)
    requires Holds(buf, off, ModePart(a) + TimesPart(a)) && b.mode == 0 && b.mtime == b.atime == ZERO_TIME
    ensures DecodeFromMode(buf, Flags(a), b, off)
         == Got(b.(mode := a.mode, mtime := WireTime(a.mtime), atime := WireTime(a.atime)),
                off + |ModePart(a) + TimesPart(a)|)
  {
    HoldsParts(buf, off, ModePart(a), TimesPart(a));
    ModeRead(buf, off, a, b);
    TimesRead(buf, off + |ModePart(a)|, a, b.(mode := a.mode));
  }

  lemma OwnerTimesRead(buf: bytes, off: nat, a: FileAttr, b: FileAttr)
    requires Holds(buf, off, OwnerPart(a) + (ModePart(a) + TimesPart(a)))
    requires b == EMPTY_ATTR.(size := a.size)
    ensures DecodeFromOwner(buf, Flags(a), b, off) == Got(WireAttr(a), off + |OwnerPart(a) + (ModePart(a) + TimesPart(a))|)
  {
    HoldsParts(buf, off, OwnerPart(a), ModePart(a) + TimesPart(a));
    OwnerRead(buf, off, a, b);
    ModeTimesRead(buf, off + |OwnerPart(a)|, a, b.(uid := a.uid, gid := a.gid));
  }

  lemma FieldsRead(buf: bytes, off: nat, a: FileAttr)
    requires Holds(buf, off, FieldPart(a))
    ensures DecodeFromSize(buf, Flags(a), off) == Got(WireAttr(a), off + |FieldPart(a)|)
  {
    var tail := OwnerPart(a) + (ModePart(a) + TimesPart(a));
    HoldsParts(buf, off, SizePart(a), tail);
    SizeRead(buf, off, a);
    OwnerTimesRead(buf, off + |SizePart(a)|, a, EMPTY_ATTR.(size := a.size));
  }

  predicate GoodTime(t: int) {
    t == ZERO_TIME || 0 <= t < U32_LIMIT
  }

  lemma WireSameIff(a: FileAttr)
    ensures WireAttr(a) == a <==> GoodTime(a.mtime) && GoodTime(a.atime)
  {
  }

  lemma Whole(e: bytes)
    ensures Holds(e, 0, e)
  {
  }

  // Exactly the attributes whose times are unset or fit 32 bits come back as
  // they were.
  lemma AttrSurvivesIff(a: FileAttr)
    ensures DecodeAttrs(EncodeAttr(a), 0) == Got(a, |EncodeAttr(a)|) <==> GoodTime(a.mtime) && GoodTime(a.atime)
  {
    Whole(EncodeAttr(a));
    AttrRoundTrip(EncodeAttr(a), 0, a);
    WireSameIff(a);
  }

  // One second before 1970 comes back as the last second of 32 bits.
  lemma EarlyTimeLost()
    ensures var a := EMPTY_ATTR.(mtime := -1);
            DecodeAttrs(EncodeAttr(a), 0) == Got(EMPTY_ATTR.(mtime := U32_LIMIT - 1), |EncodeAttr(a)|)
  {
    var a := EMPTY_ATTR.(mtime := -1);
    Whole(EncodeAttr(a));
    AttrRoundTrip(EncodeAttr(a), 0, a);
  }

  // ---------------------------------------------------------------------
  // Status
  // ---------------------------------------------------------------------

  datatype Status = Status(id: u32, code: u32, msg: bytes)

  function EncodeStatus(s: Status, lang: bytes): bytes {
    PutU32(s.id) + (PutU32(s.code) + (PutString(s.msg) + PutString(lang)))
  }

  function DecodeStatus(buf: bytes): Option<Status> {
    if |buf| < 8 then None
    else match ReadString(buf, 8)
         case Short => None
         case Got(msg, _) => Some(Status(GetU32(buf[..4]), GetU32(buf[4..8]), msg))
  }

  lemma StatusRoundTrip(s: Status, lang: bytes)
    requires |s.msg| < U32_LIMIT
    ensures DecodeStatus(EncodeStatus(s, lang)) == Some(s)
  {
    var buf := EncodeStatus(s, lang);
    assert buf[0..|buf|] == buf;
    var tail := PutString(s.msg) + PutString(lang);
    HoldsParts(buf, 0, PutU32(s.id), PutU32(s.code) + tail);
    HoldsParts(buf, 4, PutU32(s.code), tail);
    HoldsParts(buf, 8, PutString(s.msg), PutString(lang));
    U32RoundTrip(s.id);
    U32RoundTrip(s.code);
    ReadsString(buf, 8, s.msg);
  }
}
