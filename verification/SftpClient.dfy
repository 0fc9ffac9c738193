/**
 The SFTP client's directory listing, run against the server over the wire:
 OPENDIR, READDIR until end of file, CLOSE, one request at a time.

 Main results
   EntriesDecode      the client's decoder reads any encoded listing back
   Client.ReadDir     the whole conversation: what it returns and what it leaves
                      in the server's table, in every case
   ListingFaithful    which listings come back exactly as the backend gave them
 */
module SftpClient {
  import opened Text
  import opened Bytes
  import opened SftpWire
  import opened SftpServer

  // ---------------------------------------------------------------------
  // Decoding a listing
  // ---------------------------------------------------------------------

  datatype DirEntry = DirEntry(name: bytes, attr: FileAttr)

  const DOT: bytes := [46]
  const DOT_DOT: bytes := [46, 46]

  // One entry of a NAME reply: name, long name, attributes.
  function ReadEntry(buf: bytes, off: nat): (r: Read<DirEntry>)
    ensures r.Got? ==> r.next > off
  {
    match ReadString(buf, off)
    case Short => Short
    case Got(name, o1) =>
      match ReadString(buf, o1)
      case Short => Short
      case Got(_, o2) =>
        match DecodeAttrs(buf, o2)
        case Short => Short
        case Got(a, o3) => AttrsAdvance(buf, o2); Got(DirEntry(name, a), o3)
  }

  lemma AttrsAdvance(buf: bytes, off: nat)
    ensures DecodeAttrs(buf, off).Got? ==> DecodeAttrs(buf, off).next >= off + 4
  {
  }

  predicate Hidden(name: bytes) {
    name == DOT || name == DOT_DOT
  }

  function ReadEntries(buf: bytes, off: nat): Option<seq<DirEntry>>
    decreases |buf| - off
  {
    if off >= |buf| then Some([])
    else match ReadEntry(buf, off)
         case Short => None
         case Got(e, next) =>
           match ReadEntries(buf, next)
           case None => None
           case Some(es) => Some(if Hidden(e.name) then es else [e] + es)
  }

  // What a client sees of a listing.
  function Seen(e: FileStat): DirEntry {
    DirEntry(e.name, WireAttr(ListedAttr(e)))
  }

  function Visible(es: seq<FileStat>): seq<DirEntry> {
    if es == [] then []
    else (if Hidden(es[0].name) then [] else [Seen(es[0])]) + Visible(es[1..])
  }

  lemma EntryFrom(buf: bytes, off: nat, name: bytes, w: FileAttr, o1: nat, o2: nat, o3: nat)
    requires ReadString(buf, off) == Got(name, o1) && ReadString(buf, o1) == Got([], o2)
    requires DecodeAttrs(buf, o2) == Got(w, o3)
    ensures ReadEntry(buf, off) == Got(DirEntry(name, w), o3)
  {
  }

  lemma StringsRead(buf: bytes, off: nat, name: bytes, rest: bytes, o1: nat, o2: nat)
    requires |name| < U32_LIMIT && Holds(buf, off, PutString(name) + (PutString([]) + rest))
    requires o1 == off + 4 + |name| && o2 == o1 + 4
    ensures ReadString(buf, off) == Got(name, o1) && ReadString(buf, o1) == Got([], o2)
    ensures Holds(buf, o2, rest)
  {
    HoldsParts(buf, off, PutString(name), PutString([]) + rest);
    ReadsString(buf, off, name);
    HoldsParts(buf, o1, PutString([]), rest);
    ReadsString(buf, o1, []);
  }

  lemma EntryBytes(buf: bytes, off: nat, name: bytes, a: FileAttr, enc: bytes)
    requires |name| < U32_LIMIT && Holds(buf, off, PutString(name) + (PutString([]) + enc))
    requires forall o: nat :: Holds(buf, o, enc) ==> DecodeAttrs(buf, o) == Got(a, o + |enc|)
    ensures ReadEntry(buf, off) == Got(DirEntry(name, a), off + 8 + |name| + |enc|)
  {
    var o1 := off + 4 + |name|;
    var o2 := o1 + 4;
    StringsRead(buf, off, name, enc, o1, o2);
    EntryFrom(buf, off, name, a, o1, o2, o2 + |enc|);
  }

  lemma EntryReads(buf: bytes, off: nat, e: FileStat)
    requires |e.name| < U32_LIMIT && Holds(buf, off, EncodeEntry(e))
    ensures ReadEntry(buf, off) == Got(Seen(e), off + |EncodeEntry(e)|)
  {
    var a := ListedAttr(e);
    forall o: nat | Holds(buf, o, EncodeAttr(a))
      ensures DecodeAttrs(buf, o) == Got(WireAttr(a), o + |EncodeAttr(a)|)
    {
      AttrRoundTrip(buf, o, a);
    }
    EntryBytes(buf, off, e.name, WireAttr(a), EncodeAttr(a));
  }

  lemma EntriesStep(buf: bytes, off: nat, e: DirEntry, next: nat, es: seq<DirEntry>)
    requires off < |buf| && ReadEntry(buf, off) == Got(e, next) && ReadEntries(buf, next) == Some(es)
    ensures ReadEntries(buf, off) == Some(if Hidden(e.name) then es else [e] + es)
  {
  }

  lemma VisibleStep(es: seq<FileStat>)
    requires es != []
    ensures Visible(es) == if Hidden(es[0].name) then Visible(es[1..]) else [Seen(es[0])] + Visible(es[1..])
  {
  }

  lemma NameShort(e: FileStat, n: nat)
    requires |EncodeEntry(e)| <= n
    ensures |e.name| < n
  {
  }

  lemma {:induction false} EntriesDecode(buf: bytes, off: nat, es: seq<FileStat>)
    requires off + |EncodeEntries(es)| == |buf| < U32_LIMIT && Holds(buf, off, EncodeEntries(es))
    ensures ReadEntries(buf, off) == Some(Visible(es))
    decreases es
  {
    if es != [] {
      var e := es[0];
      var next := off + |EncodeEntry(e)|;
      HoldsParts(buf, off, EncodeEntry(e), EncodeEntries(es[1..]));
      NameShort(e, |buf|);
      EntryReads(buf, off, e);
      EntriesDecode(buf, next, es[1..]);
      EntriesStep(buf, off, Seen(e), next, Visible(es[1..]));
      VisibleStep(es);
    }
  }

  // A modification time that the backend gives: 0, like the zero time, is none.
  predicate NoTime(t: int) {
    t == 0 || t == ZERO_TIME
  }

  // Field by field, what the client sees of an entry is what the backend says of it,
  // its modification time cut to 32 bits. The long name and the access time are not sent.
  lemma SeenFields(e: FileStat)
    ensures var d := Seen(e);
            && d.name == e.name && d.attr.size == e.size && d.attr.uid == e.uid && d.attr.gid == e.gid
            && d.attr.mode == e.mode && d.attr.atime == ZERO_TIME
            && d.attr.mtime == if NoTime(e.mtime) then ZERO_TIME else e.mtime % U32_LIMIT
  {
  }

  // Every entry is seen in its place, except the directory itself and its parent.
  lemma {:induction false} VisibleEach(before: seq<FileStat>, e: FileStat, after: seq<FileStat>)
    ensures Visible(before + [e] + after) ==
            Visible(before) + (if e.name == [46] || e.name == [46, 46] then [] else [Seen(e)]) + Visible(after)
  {
    if before == [] {
      NothingLeft([e] + after);
      assert before + [e] + after == [e] + after && ([e] + after)[1..] == after;
      VisibleStep([e] + after);
    } else {
      var es := before + [e] + after;
      assert es[0] == before[0] && es[1..] == before[1..] + [e] + after;
      VisibleEach(before[1..], e, after);
      VisibleStep(es);
      VisibleStep(before);
    }
  }

  // What the backend says of an entry, as the client would write it down.
  function Told(e: FileStat): DirEntry {
    DirEntry(e.name, FileAttr(size := e.size, uid := e.uid, gid := e.gid, mode := e.mode,
                              mtime := if NoTime(e.mtime) then ZERO_TIME else e.mtime, atime := ZERO_TIME))
  }

  // The entries of a listing that a client should see, as the backend gave them.
  function Expected(es: seq<FileStat>): seq<DirEntry> {
    if es == [] then []
    else (if es[0].name == [46] || es[0].name == [46, 46] then [] else [Told(es[0])]) + Expected(es[1..])
  }

  lemma ExpectedStep(es: seq<FileStat>)
    requires es != []
    ensures Expected(es) == if Hidden(es[0].name) then Expected(es[1..]) else [Told(es[0])] + Expected(es[1..])
  {
  }

  lemma SameIff<T>(x: T, y: T, xs: seq<T>, ys: seq<T>)
    ensures [x] + xs == [y] + ys <==> x == y && xs == ys
  {
    assert ([x] + xs)[0] == x && ([x] + xs)[1..] == xs;
    assert ([y] + ys)[0] == y && ([y] + ys)[1..] == ys;
  }

  // No time, or one of the years 1970 to 2106.
  predicate SafeTime(t: int) {
    NoTime(t) || 0 < t < U32_LIMIT
  }

  predicate SafeTimes(es: seq<FileStat>) {
    forall i :: 0 <= i < |es| && !(es[i].name == [46] || es[i].name == [46, 46]) ==> SafeTime(es[i].mtime)
  }

  lemma SafeTimesStep(es: seq<FileStat>)
    requires es != []
    ensures SafeTimes(es) <==> (Hidden(es[0].name) || SafeTime(es[0].mtime)) && SafeTimes(es[1..])
  {
    assert forall i :: 1 <= i < |es| ==> es[i] == es[1..][i - 1];
  }

  // A listing comes through as the backend gave it, field by field and in order,
  // exactly when the modification times of its visible entries are unset or fit 32 bits.
  lemma {:induction false} ListingFaithful(es: seq<FileStat>)
    ensures Visible(es) == Expected(es) <==> SafeTimes(es)
  {
    if es != [] {
      ListingFaithful(es[1..]);
      VisibleStep(es);
      ExpectedStep(es);
      SafeTimesStep(es);
      SeenSameIff(es[0]);
      SameIff(Seen(es[0]), Told(es[0]), Visible(es[1..]), Expected(es[1..]));
    }
  }

  lemma SeenSameIff(e: FileStat)
    ensures Seen(e) == Told(e) <==> SafeTime(e.mtime)
  {
    SeenFields(e);
  }

  // ---------------------------------------------------------------------
  // Requests and replies on the wire
  // ---------------------------------------------------------------------

  // A payload that both ends' packet readers accept.
  predicate Fits(payload: bytes) {
    1 + |payload| <= PACKET_LIMIT
  }

  function Ask(kind: byte, id: u32, s: bytes): Packet {
    Packet(kind, PutU32(id) + PutString(s))
  }

  lemma AskShape(kind: byte, id: u32, s: bytes)
    requires |s| < U32_LIMIT
    ensures var p := Ask(kind, id, s);
            && |p.payload| == 8 + |s| && p.payload[..4] == PutU32(id) && GetU32(p.payload[..4]) == id
            && ReadString(p.payload[4..], 0) == Got(s, 4 + |s|)
  {
    var p := Ask(kind, id, s);
    assert p.payload[..4] == PutU32(id) && p.payload[4..] == PutString(s);
    U32RoundTrip(id);
    Whole(PutString(s));
    ReadsString(PutString(s), 0, s);
  }

  lemma OpendirServed(t: Table, id: u32, path: bytes, env: Backend)
    requires |path| < U32_LIMIT
    ensures Serve(t, Ask(OPENDIR, id, path), env) ==
            match env.listing
            case Failed(cause, text) => Reply(t, StatusPacket(id, MapErr(cause), text))
            case Done(_) => Reply(Issue(t, DIR_PREFIX + path), HandlePacket(id, NextHandle(t)))
  {
    AskShape(OPENDIR, id, path);
  }

  lemma ReaddirServed(t: Table, id: u32, h: bytes, env: Backend)
    requires |h| < U32_LIMIT && h in t.handles && |t.handles[h]| >= 4
    ensures Serve(t, Ask(READDIR, id, h), env) ==
            if h in t.drained then Reply(t, StatusPacket(id, STATUS_EOF, []))
            else match env.listing
                 case Failed(cause, text) => Reply(t, StatusPacket(id, MapErr(cause), text))
                 case Done(es) => Reply(Drain(t, h), NamePacket(id, es))
  {
    AskShape(READDIR, id, h);
  }

  lemma CloseServed(t: Table, id: u32, h: bytes, env: Backend)
    requires |h| < U32_LIMIT
    ensures Serve(t, Ask(CLOSE, id, h), env) ==
            if h in t.handles then Reply(Drop(t, h), StatusPacket(id, STATUS_OK, []))
            else Reply(t, StatusPacket(id, STATUS_FAILURE, INVALID_HANDLE))
  {
    AskShape(CLOSE, id, h);
  }

  lemma StatusReply(id: u32, code: u32, msg: bytes)
    ensures |StatusPacket(id, code, msg).payload| == 16 + |msg|
    ensures Carries(StatusPacket(id, code, msg), id)
    ensures |msg| < U32_LIMIT ==>
              DecodeStatus(StatusPacket(id, code, msg).payload) == Some(Status(id, code, msg))
  {
    U32RoundTrip(id);
    assert StatusPacket(id, code, msg).payload[..4] == PutU32(id);
    if |msg| < U32_LIMIT { StatusRoundTrip(Status(id, code, msg), []); }
  }

  lemma HandleReply(id: u32, h: bytes)
    requires |h| < U32_LIMIT
    ensures var p := HandlePacket(id, h);
            |p.payload| == 8 + |h| && Carries(p, id) && ReadString(p.payload, 4) == Got(h, 8 + |h|)
  {
    var p := HandlePacket(id, h);
    U32RoundTrip(id);
    assert p.payload[..4] == PutU32(id);
    Whole(p.payload);
    HoldsParts(p.payload, 0, PutU32(id), PutString(h));
    ReadsString(p.payload, 4, h);
  }

  lemma NameReply(id: u32, es: seq<FileStat>)
    ensures var p := NamePacket(id, es);
            && |p.payload| == 4 + |EncodeEntries(es)| && Carries(p, id)
            && (Fits(p.payload) ==> ReadEntries(p.payload, 4) == Some(Visible(es)))
  {
    var p := NamePacket(id, es);
    U32RoundTrip(id);
    assert p.payload[..4] == PutU32(id);
    Whole(p.payload);
    HoldsParts(p.payload, 0, PutU32(id), EncodeEntries(es));
    if Fits(p.payload) { EntriesDecode(p.payload, 4, es); }
  }

  function Pow10(k: nat): nat {
    if k == 0 then 1 else 10 * Pow10(k - 1)
  }

  lemma {:induction false} NumeralShort(n: nat, k: nat)
    requires k > 0 && n < Pow10(k)
    ensures |FormatNat(n)| <= k
  {
    if n >= 10 { NumeralShort(n / 10, k - 1); }
  }

  lemma HandleShort(n: u32)
    ensures |HandleName(n)| <= 11
  {
    assert Pow10(5) == 100_000;
    assert Pow10(10) == 10_000_000_000;
    NumeralShort(n, 10);
  }

  // ---------------------------------------------------------------------
  // The client object
  // ---------------------------------------------------------------------

  datatype Listing =
    | Entries(entries: seq<DirEntry>)
    | StatusError(code: u32, msg: bytes)
    | BadReply
    | LinkLost
    | ClientPanic

  // What listing a directory comes to, from what the backend says when the
  // directory is opened and when it is read. A handle still drained from an
  // earlier use can only turn up after the handle counter has wrapped.
  function ListResult(t: Table, path: bytes, atOpen: Backend, atRead: Backend): Listing {
    if !Fits(Ask(OPENDIR, 0, path).payload) then LinkLost
    else match atOpen.listing
         case Failed(cause, text) =>
           if Fits(StatusPacket(0, 0, text).payload) then StatusError(MapErr(cause), text) else LinkLost
         case Done(_) =>
           if NextHandle(t) in t.drained then Entries([])
           else match atRead.listing
                case Failed(cause, text) =>
                  if Fits(StatusPacket(0, 0, text).payload) then StatusError(MapErr(cause), []) else ClientPanic
                case Done(es) =>
                  if Fits(NamePacket(0, es).payload) then Entries(Visible(es)) else ClientPanic
  }

  // A listing panics the client exactly when the directory was opened and the
  // answer to reading it is longer than the client's packet reader accepts: the
  // reader gives up, and the deferred CLOSE writes to a map that is gone.
  lemma ListingPanicsIff(t: Table, path: bytes, atOpen: Backend, atRead: Backend)
    ensures ListResult(t, path, atOpen, atRead) == ClientPanic <==>
            && 9 + |path| <= PACKET_LIMIT && atOpen.listing.Done? && NextHandle(t) !in t.drained
            && match atRead.listing
               case Failed(_, text) => 17 + |text| > PACKET_LIMIT
               case Done(es) => 5 + |EncodeEntries(es)| > PACKET_LIMIT
  {
    match atRead.listing
    case Failed(_, text) => StatusReply(0, 0, text);
    case Done(es) => NameReply(0, es);
  }

  // An entry takes twelve bytes and its name, at least.
  lemma EntryLength(e: FileStat)
    ensures |EncodeEntry(e)| >= 12 + |e.name|
  {
  }

  lemma {:induction false} EntriesLength(es: seq<FileStat>)
    ensures |EncodeEntries(es)| >= 12 * |es|
  {
    if es != [] {
      EntryLength(es[0]);
      EntriesLength(es[1..]);
    }
  }

  // So many entries never fit, whatever they are called.
  const TOO_MANY := 1_398_101

  lemma LongListingPanics(t: Table, path: bytes, atOpen: Backend, atRead: Backend)
    requires 9 + |path| <= PACKET_LIMIT && atOpen.listing.Done? && NextHandle(t) !in t.drained
    requires atRead.listing.Done? && |atRead.listing.value| >= TOO_MANY
    ensures ListResult(t, path, atOpen, atRead) == ClientPanic
  {
    EntriesLength(atRead.listing.value);
    ListingPanicsIff(t, path, atOpen, atRead);
  }

  // A root directory of that many empty files, listed by the first client of a server.
  lemma CrowdedRootPanics(env: Backend)
    requires env.listing == Done(seq(TOO_MANY, i requires 0 <= i => FileStat(FormatNat(i), 0, 0, false, 0, 0, 0)))
    ensures ListResult(EMPTY_TABLE, [47], env, env) == ClientPanic
  {
    LongListingPanics(EMPTY_TABLE, [47], env, env);
  }

  // The table afterwards, when the link held.
  function ListTable(t: Table, path: bytes, atOpen: Backend): Table {
    match atOpen.listing
    case Failed(_, _) => t
    case Done(_) => Drop(Issue(t, DIR_PREFIX + path), NextHandle(t))
  }

  // A listing leaves the live and drained handles as they were, unless its
  // handle was one already in use.
  lemma TableRestored(t: Table, path: bytes, atOpen: Backend)
    requires Sound(t) && NextHandle(t) !in t.handles
    ensures var t' := ListTable(t, path, atOpen); t'.handles == t.handles && t'.drained == t.drained
  {
  }

  function Behind(entries: seq<DirEntry>, later: Option<seq<DirEntry>>): Option<seq<DirEntry>> {
    match later case None => None case Some(es) => Some(entries + es)
  }

  // One more entry in front of what is still to be read.
  function Onto(e: DirEntry, later: Option<seq<DirEntry>>): Option<seq<DirEntry>> {
    match later case None => None case Some(es) => Some(if Hidden(e.name) then es else [e] + es)
  }

  lemma ReadEntriesStep(buf: bytes, off: nat)
    requires off < |buf|
    ensures ReadEntries(buf, off) ==
            match ReadEntry(buf, off) case Short => None case Got(e, next) => Onto(e, ReadEntries(buf, next))
  {
  }

  lemma BehindOnto(entries: seq<DirEntry>, e: DirEntry, later: Option<seq<DirEntry>>)
    ensures Behind(entries, Onto(e, later)) == Behind(if Hidden(e.name) then entries else entries + [e], later)
  {
    if later.Some? { assert entries + ([e] + later.value) == entries + [e] + later.value; }
  }

  method DecodeListing(payload: bytes) returns (r: Option<seq<DirEntry>>)
    ensures r == ReadEntries(payload, 4)
  {
    var entries: seq<DirEntry> := [];
    var off := 4;
    assert Behind([], ReadEntries(payload, 4)) == ReadEntries(payload, 4) by {
      assert forall es: seq<DirEntry> {:trigger [] + es} :: [] + es == es;
    }
    while off < |payload|
      invariant off >= 4
      invariant Behind(entries, ReadEntries(payload, off)) == ReadEntries(payload, 4)
      decreases |payload| - off
    {
      ReadEntriesStep(payload, off);
      match ReadEntry(payload, off) {
        case Short => return None;
        case Got(e, next) =>
          BehindOnto(entries, e, ReadEntries(payload, next));
          off := next;
          if e.name != DOT && e.name != DOT_DOT {
            entries := entries + [e];
          }
      }
    }
    assert entries + [] == entries;
    return Some(entries);
  }

  // The status a client reads: zero values when the reply is malformed.
  function StatusOf(payload: bytes): Status {
    match DecodeStatus(payload) case None => Status(0, 0, []) case Some(st) => st
  }

  // What a request comes to: a reply, a link that is down, a reply that never
  // comes, or a panic because the read loop has ended and its map is gone.
  datatype Response = Received(packet: Packet) | Down | Waits | Crashes

  class Client {
    var lastID: u32
    var reading: bool // the read loop runs and pending is a map

    constructor ()
      ensures lastID == 0 && reading
    {
      lastID, reading := 0, true;
    }

    function NextID(): u32
      reads this
    {
      if Bump(lastID) == 0 then 1 else Bump(lastID)
    }

    // A reply on its way to the request with this number.
    method Receive(q: Packet, id: u32) returns (r: Response)
      requires reading
      modifies `reading
      ensures reading <==> Fits(q.payload)
      ensures r == if !Fits(q.payload) then Down else if Carries(q, id) then Received(q) else Waits
    {
      PacketRoundTripIff(q, []);
      var back := WritePacket(q);
      NothingLeft(back);
      if ReadPacket(back) != Some((q, [])) {
        reading := false;
        return Down;
      }
      return if Carries(q, id) then Received(q) else Waits;
    }

    // One request to the server and what becomes of it.
    method Do(s: Server, kind: byte, arg: bytes, env: Backend) returns (id: u32, r: Response)
      requires reading ==> s.running
      modifies this, s
      ensures id == old(NextID()) && (reading ==> s.running)
      ensures !old(reading) ==> r == Crashes && !reading && s.View() == old(s.View())
      ensures old(reading) && !Fits(Ask(kind, id, arg).payload) ==> r == Down && !reading && s.View() == old(s.View())
      ensures old(reading) && Fits(Ask(kind, id, arg).payload) ==>
                match Serve(old(s.View()), Ask(kind, id, arg), env)
                case Reply(t, q) =>
                  && s.View() == t && s.running && (reading <==> Fits(q.payload))
                  && r == if !Fits(q.payload) then Down else if Carries(q, id) then Received(q) else Waits
                case Stop(t, q) =>
                  && s.View() == t && !s.running && !reading
                  && r == if !Fits(q.payload) then Down else if Carries(q, id) then Received(q) else Waits
                case Skip(t) => s.View() == t && s.running && reading && r == Waits
                case Panic => s.View() == old(s.View()) && !s.running && !reading && r == Down
      ensures old(Sound(s.View())) ==> Sound(s.View())
    {
      lastID := Bump(lastID);
      if lastID == 0 {
        lastID := 1;
      }
      id := lastID;
      if !reading {
        return id, Crashes;
      }
      var request := Packet(kind, PutU32(id) + PutString(arg));
      PacketRoundTripIff(request, []);
      var sent := WritePacket(request);
      NothingLeft(sent);
      if ReadPacket(sent) != Some((request, [])) {
        s.running, reading := false, false; // the server's packet reader fails
        return id, Down;
      }
      var answer := s.Handle(request, env);
      if answer.None? {
        reading := s.running;
        return id, if s.running then Waits else Down;
      }
      r := Receive(answer.value, id);
      if !s.running {
        reading := false;
      }
    }

    // CLOSE: the server's status, or nothing when there is none to be had.
    method CloseHandle(s: Server, h: bytes, env: Backend) returns (code: Option<u32>, panics: bool)
      requires reading ==> s.running
      modifies this, s
      ensures reading ==> s.running
      ensures panics <==> !old(reading)
      ensures code.Some? <==> old(reading) && Fits(Ask(CLOSE, 0, h).payload)
      ensures !code.Some? ==> s.View() == old(s.View()) && !reading
      ensures code.Some? ==>
                && reading
                && code.value == (if h in old(s.handles) then STATUS_OK else STATUS_FAILURE)
                && s.View() == if h in old(s.handles) then Drop(old(s.View()), h) else old(s.View())
    {
      ghost var t := s.View();
      panics := !reading;
      var id, r := Do(s, CLOSE, h, env);
      assert |Ask(CLOSE, id, h).payload| == |Ask(CLOSE, 0, h).payload| == 8 + |h|;
      if Fits(Ask(CLOSE, id, h).payload) {
        CloseServed(t, id, h, env);
        StatusReply(id, STATUS_OK, []);
        StatusReply(id, STATUS_FAILURE, INVALID_HANDLE);
      }
      code := if r.Received? then Some(StatusOf(r.packet.payload).code) else None;
    }

    // OPENDIR: the new handle, or what the listing ends with.
    method OpenDir(s: Server, path: bytes, env: Backend) returns (h: Option<bytes>, failed: Listing)
      requires reading && s.running
      modifies this, s
      ensures reading ==> s.running
      ensures h.Some? ==>
                && h.value == NextHandle(old(s.View())) && reading
                && s.View() == Issue(old(s.View()), DIR_PREFIX + path)
      ensures h.Some? <==> Fits(Ask(OPENDIR, 0, path).payload) && env.listing.Done?
      ensures h.None? ==> forall atRead :: failed == ListResult(old(s.View()), path, env, atRead)
      ensures h.None? ==> s.View() == old(s.View()) && (failed.LinkLost? || reading) && !failed.ClientPanic?
    {
      ghost var t := s.View();
      var id, r := Do(s, OPENDIR, path, env);
      assert |Ask(OPENDIR, id, path).payload| == |Ask(OPENDIR, 0, path).payload| == 8 + |path|;
      if Fits(Ask(OPENDIR, id, path).payload) {
        OpendirServed(t, id, path, env);
        HandleShort(Bump(t.nextID));
        HandleReply(id, NextHandle(t));
        if env.listing.Failed? {
          StatusReply(id, MapErr(env.listing.cause), env.listing.text);
          StatusReply(0, 0, env.listing.text);
        }
      }
      h, failed := None, LinkLost;
      if !r.Received? {
        return;
      }
      if r.packet.kind == STATUS {
        var st := StatusOf(r.packet.payload);
        failed := StatusError(st.code, st.msg);
        return;
      }
      if r.packet.kind != HANDLE {
        failed := BadReply;
        return;
      }
      match ReadString(r.packet.payload, 4) {
        case Short => failed := BadReply;
        case Got(x, _) => h := Some(x);
      }
    }

    // One READDIR on a live directory handle: more entries, the end, an error, or
    // a read loop that has ended.
    method ReadMore(s: Server, h: bytes, env: Backend) returns (more: Option<seq<DirEntry>>, failed: Listing)
      requires reading && s.running && h in s.handles && |s.handles[h]| >= 4 && |h| <= 11
      modifies this, s
      ensures s.running && (failed.LinkLost? && more.None? <==> !reading)
      ensures var t := old(s.View());
              if h in t.drained then more == None && failed == Entries([]) && s.View() == t
              else match env.listing
                   case Failed(cause, text) =>
                     && more == None && s.View() == t
                     && failed == if Fits(StatusPacket(0, 0, text).payload) then StatusError(MapErr(cause), [])
                                  else LinkLost
                   case Done(es) =>
                     && s.View() == Drain(t, h)
                     && if Fits(NamePacket(0, es).payload) then more == Some(Visible(es))
                        else more == None && failed == LinkLost
    {
      ghost var t := s.View();
      var id, r := Do(s, READDIR, h, env);
      more, failed := None, LinkLost;
      AskShape(READDIR, id, h);
      ReaddirServed(t, id, h, env);
      if h in t.drained {
        StatusReply(id, STATUS_EOF, []);
      } else if env.listing.Failed? {
        StatusReply(id, MapErr(env.listing.cause), env.listing.text);
        StatusReply(0, 0, env.listing.text);
      } else {
        NameReply(id, env.listing.value);
        NameReply(0, env.listing.value);
      }
      if !r.Received? {
        return;
      }
      if r.packet.kind == STATUS {
        var code := StatusOf(r.packet.payload).code;
        failed := if code == STATUS_EOF then Entries([]) else StatusError(code, []);
        return;
      }
      more := DecodeListing(r.packet.payload);
      if more.None? {
        failed := BadReply;
      }
    }

    // Listing a directory. Whatever the backend says, the conversation ends and the
    // result is ListResult. A link that held leaves the table ListTable; a panic
    // leaves the listing's handle in it.
    method ReadDir(s: Server, path: bytes, atOpen: Backend, atRead: Backend) returns (result: Listing)
      requires reading && s.running
      modifies this, s
      ensures result == ListResult(old(s.View()), path, atOpen, atRead)
      ensures !result.LinkLost? && !result.ClientPanic? ==>
                reading && s.running && s.View() == ListTable(old(s.View()), path, atOpen)
      ensures result.ClientPanic? ==> NextHandle(old(s.View())) in s.handles
    {
      ghost var t := s.View();
      var handle, failed := OpenDir(s, path, atOpen);
      if handle.None? {
        return failed;
      }
      var h := handle.value;
      HandleShort(Bump(t.nextID));
      ghost var t1 := Issue(t, DIR_PREFIX + path);
      assert |DIR_PREFIX| == 4;
      var entries: seq<DirEntry> := [];
      while true
        invariant reading && s.running && h == NextHandle(t)
        invariant || (s.View() == t1 && entries == [])
                  || (&& s.View() == Drain(t1, h) && h !in t.drained && atRead.listing.Done?
                      && Fits(NamePacket(0, atRead.listing.value).payload)
                      && entries == Visible(atRead.listing.value))
        decreases h !in s.drained
      {
        var more, end := ReadMore(s, h, atRead);
        if more.None? {
          AskShape(CLOSE, 0, h);
          var _, panics := CloseHandle(s, h, atRead); // deferred
          if panics {
            return ClientPanic;
          }
          return if end.Entries? then Entries(entries) else end;
        }
        entries := entries + more.value;
      }
    }
  }
}
