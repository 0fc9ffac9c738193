/**
 The SFTP server's handle table and the requests that change it: OPEN, CLOSE,
 OPENDIR and READDIR. The file system behind it is an input: each request
 comes with what the backend answers.

 Main results
   TableKept      drained handles are live, in every run
   IssuedFresh    while the handle counter has not wrapped, a new handle is new
   NeverPanics    exactly which handles make READDIR crash, and when none can
   ListedOnce     one handle lists once: the next READDIR is end of file
 */
module SftpServer {
  import opened Text
  import opened Bytes
  import opened SftpWire

  const OPEN := 3
  const CLOSE := 4
  const OPENDIR := 11
  const READDIR := 12
  const STATUS := 101
  const HANDLE := 102
  const NAME := 104

  const STATUS_OK := 0
  const STATUS_EOF := 1
  const STATUS_NO_SUCH_FILE := 2
  const STATUS_PERMISSION_DENIED := 3
  const STATUS_FAILURE := 4
  const STATUS_BAD_MESSAGE := 5

  // ---------------------------------------------------------------------
  // The backend
  // ---------------------------------------------------------------------

  datatype FileStat = FileStat(name: bytes, size: u64, mode: u32, isDir: bool, mtime: int, uid: u32, gid: u32)

  datatype Cause = NotExist | Permission | Other

  datatype Answer<+T> = Done(value: T) | Failed(cause: Cause, text: bytes)

  function MapErr(c: Cause): u32 {
    match c
    case NotExist => STATUS_NO_SUCH_FILE
    case Permission => STATUS_PERMISSION_DENIED
    case Other => STATUS_FAILURE
  }

  // What the backend does when asked, and for the requests that leave the
  // tables alone, the reply and whether the server gives up after it.
  datatype Backend = Backend(open: Answer<bytes>, listing: Answer<seq<FileStat>>, otherReply: Packet, otherStops: bool)

  // ---------------------------------------------------------------------
  // The table
  // ---------------------------------------------------------------------

  datatype Table = Table(handles: map<bytes, bytes>, drained: set<bytes>, nextID: u32)

  const EMPTY_TABLE := Table(map[], {}, 0)

  function Bump(n: u32): u32 {
    (n + 1) % U32_LIMIT
  }

  function HandleName(n: u32): bytes {
    ['h' as int] + FormatNat(n)
  }

  function NextHandle(t: Table): bytes {
    HandleName(Bump(t.nextID))
  }

  function Issue(t: Table, target: bytes): Table {
    t.(handles := t.handles[NextHandle(t) := target], nextID := Bump(t.nextID))
  }

  function Drop(t: Table, h: bytes): Table {
    t.(handles := t.handles - {h}, drained := t.drained - {h})
  }

  function Drain(t: Table, h: bytes): Table {
    t.(drained := t.drained + {h})
  }

  // ---------------------------------------------------------------------
  // Replies
  // ---------------------------------------------------------------------

  function Ascii(s: string): bytes
    requires forall i :: 0 <= i < |s| ==> s[i] < 256 as char
  {
    seq(|s|, i requires 0 <= i < |s| => s[i] as int)
  }

  const DIR_PREFIX: bytes := Ascii("dir:")
  const INVALID_HANDLE: bytes := Ascii("invalid handle")
  const SHORT_STRING: bytes := Ascii("sftp: read string: short buffer")
  const SHORT_U32: bytes := Ascii("sftp: read u32: short buffer")

  function StatusPacket(id: u32, code: u32, msg: bytes): Packet {
    Packet(STATUS, EncodeStatus(Status(id, code, msg), []))
  }

  function HandlePacket(id: u32, h: bytes): Packet {
    Packet(HANDLE, PutU32(id) + PutString(h))
  }

  function ListedAttr(e: FileStat): FileAttr {
    FileAttr(e.size, e.uid, e.gid, e.mode, if e.mtime != 0 then e.mtime else ZERO_TIME, ZERO_TIME)
  }

  function EncodeEntry(e: FileStat): bytes {
    PutString(e.name) + (PutString([]) + EncodeAttr(ListedAttr(e)))
  }

  function EncodeEntries(es: seq<FileStat>): bytes {
    if es == [] then [] else EncodeEntry(es[0]) + EncodeEntries(es[1..])
  }

  function NamePacket(id: u32, es: seq<FileStat>): Packet {
    Packet(NAME, PutU32(id) + EncodeEntries(es))
  }

  // ---------------------------------------------------------------------
  // One request
  // ---------------------------------------------------------------------

  datatype Outcome =
    | Reply(table: Table, packet: Packet)  // and on to the next request
    | Stop(table: Table, packet: Packet)   // the server gives up after it
    | Skip(table: Table)                   // no reply at all
    | Panic

  function OnOpen(t: Table, id: u32, rest: bytes, env: Backend): Outcome {
    match ReadString(rest, 0)
    case Short => Stop(t, StatusPacket(id, STATUS_BAD_MESSAGE, SHORT_STRING))
    case Got(path, off) =>
      if ReadU32(rest, off).Short? then Stop(t, StatusPacket(id, STATUS_BAD_MESSAGE, SHORT_U32))
      else match env.open
           case Failed(cause, text) => Reply(t, StatusPacket(id, MapErr(cause), text))
           case Done(target) => Reply(Issue(t, target), HandlePacket(id, NextHandle(t)))
  }

  function OnClose(t: Table, id: u32, rest: bytes): Outcome {
    match ReadString(rest, 0)
    case Short => Stop(t, StatusPacket(id, STATUS_BAD_MESSAGE, SHORT_STRING))
    case Got(h, _) =>
      if h !in t.handles then Reply(t, StatusPacket(id, STATUS_FAILURE, INVALID_HANDLE))
      else Reply(Drop(t, h), StatusPacket(id, STATUS_OK, []))
  }

  function OnOpendir(t: Table, id: u32, rest: bytes, env: Backend): Outcome {
    match ReadString(rest, 0)
    case Short => Stop(t, StatusPacket(id, STATUS_BAD_MESSAGE, SHORT_STRING))
    case Got(path, _) =>
      match env.listing
      case Failed(cause, text) => Reply(t, StatusPacket(id, MapErr(cause), text))
      case Done(_) => Reply(Issue(t, DIR_PREFIX + path), HandlePacket(id, NextHandle(t)))
  }

  function OnReaddir(t: Table, id: u32, rest: bytes, env: Backend): Outcome {
    match ReadString(rest, 0)
    case Short => Stop(t, StatusPacket(id, STATUS_BAD_MESSAGE, SHORT_STRING))
    case Got(h, _) =>
      if h in t.drained then Reply(t, StatusPacket(id, STATUS_EOF, []))
      else if h !in t.handles then Reply(t, StatusPacket(id, STATUS_FAILURE, INVALID_HANDLE))
      else if |t.handles[h]| < 4 then Panic // the name is cut at 4
      else match env.listing
           case Failed(cause, text) => Reply(t, StatusPacket(id, MapErr(cause), text))
           case Done(es) => Reply(Drain(t, h), NamePacket(id, es))
  }

  function Serve(t: Table, p: Packet, env: Backend): Outcome {
    if |p.payload| < 4 then Skip(t)
    else
      var id := GetU32(p.payload[..4]);
      var rest := p.payload[4..];
      if p.kind == OPEN then OnOpen(t, id, rest, env)
      else if p.kind == CLOSE then OnClose(t, id, rest)
      else if p.kind == OPENDIR then OnOpendir(t, id, rest, env)
      else if p.kind == READDIR then OnReaddir(t, id, rest, env)
      else if env.otherStops then Stop(t, env.otherReply)
      else Reply(t, env.otherReply)
  }

  // ---------------------------------------------------------------------
  // Runs
  // ---------------------------------------------------------------------

  type Request = (Packet, Backend)

  // How the server stands after a series of requests: running with a table, or
  // gone.
  datatype Standing = Running(table: Table) | Gone(table: Table) | Crashed

  function After(t: Table, rs: seq<Request>): Standing
    decreases rs
  {
    if rs == [] then Running(t)
    else match Serve(t, rs[0].0, rs[0].1)
         case Panic => Crashed
         case Stop(t', _) => Gone(t')
         case Reply(t', _) => After(t', rs[1..])
         case Skip(t') => After(t', rs[1..])
  }

  predicate Sound(t: Table) {
    t.drained <= t.handles.Keys
  }

  lemma {:induction false} TableKept(t: Table, rs: seq<Request>)
    requires Sound(t)
    ensures After(t, rs).Crashed? || Sound(After(t, rs).table)
    decreases rs
  {
    if rs != [] {
      var o := Serve(t, rs[0].0, rs[0].1);
      assert !o.Panic? ==> Sound(o.table) by { ServeSound(t, rs[0].0, rs[0].1); }
      if o.Reply? || o.Skip? {
        TableKept(o.table, rs[1..]);
      }
    }
  }

  lemma ServeSound(t: Table, p: Packet, env: Backend)
    requires Sound(t)
    ensures Serve(t, p, env).Panic? || Sound(Serve(t, p, env).table)
  {
  }

  // --- handles are new until the counter wraps ---

  // Every live handle was issued, and the counter has not passed it.
  ghost predicate Issued(t: Table) {
    forall h :: h in t.handles ==> exists n: u32 :: 1 <= n <= t.nextID && h == HandleName(n)
  }

  lemma NamesDiffer(a: u32, b: u32)
    ensures HandleName(a) == HandleName(b) ==> a == b
  {
    FormatNatRoundTrip(a);
    FormatNatRoundTrip(b);
    assert HandleName(a)[1..] == FormatNat(a) && HandleName(b)[1..] == FormatNat(b);
  }

  lemma FreshUnlessWrapped(t: Table)
    requires Issued(t) && t.nextID < U32_LIMIT - 1
    ensures NextHandle(t) !in t.handles
  {
    if NextHandle(t) in t.handles {
      var n: u32 :| 1 <= n <= t.nextID && NextHandle(t) == HandleName(n);
      NamesDiffer(n, t.nextID + 1);
      assert false;
    }
  }

  lemma IssueIssued(t: Table, target: bytes)
    requires Issued(t) && t.nextID < U32_LIMIT - 1
    ensures Issued(Issue(t, target))
  {
    var t' := Issue(t, target);
    forall h | h in t'.handles
      ensures exists n: u32 :: 1 <= n <= t'.nextID && h == HandleName(n)
    {
      if h != NextHandle(t) {
        var n: u32 :| 1 <= n <= t.nextID && h == HandleName(n);
      } else {
        assert h == HandleName(t'.nextID);
      }
    }
  }

  lemma DropIssued(t: Table, h: bytes)
    requires Issued(t)
    ensures Issued(Drop(t, h))
  {
  }

  lemma ServeIssued(t: Table, p: Packet, env: Backend)
    requires Issued(t) && t.nextID < U32_LIMIT - 1
    ensures var o := Serve(t, p, env);
            o.Panic? || (Issued(o.table) && t.nextID <= o.table.nextID <= t.nextID + 1)
  {
    var o := Serve(t, p, env);
    OneChange(t, p, env);
    if o.Panic? || o.table.handles == t.handles {
    } else if p.kind == CLOSE {
      DropIssued(t, Named(p).value);
    } else if p.kind == OPEN {
      IssueIssued(t, env.open.value);
    } else {
      IssueIssued(t, DIR_PREFIX + Named(p).value);
    }
  }

  // The only ways a request changes the live handles.
  lemma OneChange(t: Table, p: Packet, env: Backend)
    ensures var o := Serve(t, p, env);
            || o.Panic? || (o.table.handles == t.handles && o.table.nextID == t.nextID)
            || (p.kind == CLOSE && Named(p).Some? && o.table == Drop(t, Named(p).value))
            || (p.kind == OPEN && env.open.Done? && o.table == Issue(t, env.open.value))
            || (p.kind == OPENDIR && Named(p).Some? && o.table == Issue(t, DIR_PREFIX + Named(p).value))
  {
  }

  // A handle issued within the first 2^32 - 1 requests is not one in use.
  lemma {:induction false} IssuedFresh(t: Table, rs: seq<Request>)
    requires Issued(t) && t.nextID + |rs| < U32_LIMIT - 1
    requires After(t, rs).Running?
    ensures var t' := After(t, rs).table; Issued(t') && NextHandle(t') !in t'.handles
    decreases rs
  {
    if rs == [] {
      FreshUnlessWrapped(t);
    } else {
      ServeIssued(t, rs[0].0, rs[0].1);
      IssuedFresh(Serve(t, rs[0].0, rs[0].1).table, rs[1..]);
    }
  }

  // Opening a directory and closing it again puts the table back exactly when
  // the handle it got was not in use.
  lemma RestoredIff(t: Table, path: bytes)
    requires Sound(t)
    ensures var t' := Drop(Drain(Issue(t, DIR_PREFIX + path), NextHandle(t)), NextHandle(t));
            (t'.handles == t.handles && t'.drained == t.drained) <==> NextHandle(t) !in t.handles
  {
  }

  // --- the crash ---

  // The request names a handle.
  function Named(r: Packet): Option<bytes> {
    if |r.payload| < 4 then None
    else match ReadString(r.payload[4..], 0) case Short => None case Got(h, _) => Some(h)
  }

  lemma PanicsIff(t: Table, p: Packet, env: Backend)
    ensures Serve(t, p, env).Panic? <==>
              && p.kind == READDIR && Named(p).Some?
              && Named(p).value in t.handles && Named(p).value !in t.drained && |t.handles[Named(p).value]| < 4
  {
  }

  predicate LongTargets(t: Table) {
    forall h :: h in t.handles ==> |t.handles[h]| >= 4
  }

  // A backend whose own file handles have four characters or more never makes
  // the server crash.
  lemma {:induction false} NeverPanics(t: Table, rs: seq<Request>)
    requires LongTargets(t)
    requires forall i :: 0 <= i < |rs| && rs[i].1.open.Done? ==> |rs[i].1.open.value| >= 4
    ensures !After(t, rs).Crashed?
    decreases rs
  {
    if rs != [] {
      PanicsIff(t, rs[0].0, rs[0].1);
      var o := Serve(t, rs[0].0, rs[0].1);
      if o.Reply? || o.Skip? {
        ServeLong(t, rs[0].0, rs[0].1);
        NeverPanics(o.table, rs[1..]);
      }
    }
  }

  // Every file handle the backend hands out is one of these.
  ghost predicate HandsOut(rs: seq<Request>, names: iset<bytes>) {
    forall i :: 0 <= i < |rs| && rs[i].1.open.Done? ==> rs[i].1.open.value in names
  }

  // A server survives every series of requests if and only if its backend's file
  // handles all have four characters or more.
  lemma NeverPanicsIff(names: iset<bytes>)
    ensures (forall rs :: HandsOut(rs, names) ==> !After(EMPTY_TABLE, rs).Crashed?)
            <==> forall x :: x in names ==> |x| >= 4
  {
    if forall x :: x in names ==> |x| >= 4 {
      forall rs | HandsOut(rs, names) ensures !After(EMPTY_TABLE, rs).Crashed? {
        NeverPanics(EMPTY_TABLE, rs);
      }
    }
    if x :| x in names && |x| < 4 {
      OpenThenReaddir(x);
      assert HandsOut(OpenReaddir(x), names);
    }
  }

  // OPEN some path and READDIR the handle it got.
  function OpenReaddir(target: bytes): seq<Request> {
    var env := Backend(Done(target), Done([]), Packet(STATUS, []), false);
    [(Packet(OPEN, PutU32(1) + (PutString([47]) + PutU32(1))), env),
     (Packet(READDIR, PutU32(2) + PutString(HandleName(1))), env)]
  }

  lemma OpenThenReaddir(target: bytes)
    ensures |target| < 4 ==> After(EMPTY_TABLE, OpenReaddir(target)) == Crashed
  {
    if |target| < 4 {
      var rs := OpenReaddir(target);
      OpenServed(EMPTY_TABLE, 1, [47], 1, rs[0].1);
      ShortTargetPanics(target, rs[1].1);
      SecondPanics(EMPTY_TABLE, Issue(EMPTY_TABLE, target), rs[0], rs[1]);
    }
  }

  lemma ShortTargetPanics(target: bytes, env: Backend)
    requires |target| < 4
    ensures Serve(Issue(EMPTY_TABLE, target), Packet(READDIR, PutU32(2) + PutString(HandleName(1))), env).Panic?
  {
    NumeralOne();
    NamesHandle(2, HandleName(1));
    PanicsIff(Issue(EMPTY_TABLE, target), Packet(READDIR, PutU32(2) + PutString(HandleName(1))), env);
  }

  lemma SecondPanics(t: Table, next: Table, a: Request, b: Request)
    requires Serve(t, a.0, a.1).Reply? && Serve(t, a.0, a.1).table == next && Serve(next, b.0, b.1).Panic?
    ensures After(t, [a, b]) == Crashed
  {
    assert [a, b][1..] == [b] && [b][1..] == [];
  }

  // A READDIR request names its handle.
  lemma NamesHandle(id: u32, h: bytes)
    requires |h| < U32_LIMIT
    ensures Named(Packet(READDIR, PutU32(id) + PutString(h))) == Some(h)
  {
    var payload := PutU32(id) + PutString(h);
    assert payload[..4] == PutU32(id) && payload[4..] == PutString(h);
    Whole(PutString(h));
    ReadsString(PutString(h), 0, h);
  }

  lemma NumeralOne()
    ensures HandleName(1) == ['h' as int, 49]
  {
  }

  lemma OpenServed(t: Table, id: u32, path: bytes, flags: u32, env: Backend)
    requires |path| < U32_LIMIT && env.open.Done?
    ensures Serve(t, Packet(OPEN, PutU32(id) + (PutString(path) + PutU32(flags))), env) ==
            Reply(Issue(t, env.open.value), HandlePacket(id, NextHandle(t)))
  {
    var rest := PutString(path) + PutU32(flags);
    var payload := PutU32(id) + rest;
    U32RoundTrip(id);
    assert payload[..4] == PutU32(id) && payload[4..] == rest;
    Whole(rest);
    HoldsParts(rest, 0, PutString(path), PutU32(flags));
    ReadsString(rest, 0, path);
    ReadsU32(rest, |PutString(path)|, flags);
  }

  // The shipped backend calls its files h1, h2 and so on, so any of its first
  // ninety-nine handles makes the server crash.
  lemma ShippedBackendCrashes(n: u32)
    ensures |HandleName(n)| < 4 <==> n < 100
    ensures n < 100 ==> After(EMPTY_TABLE, OpenReaddir(HandleName(n))) == Crashed
  {
    assert |FormatNat(n)| < 3 <==> n < 100 by {
      assert n >= 100 ==> |FormatNat(n / 10)| >= 2;
    }
    OpenThenReaddir(HandleName(n));
  }

  lemma ServeLong(t: Table, p: Packet, env: Backend)
    requires LongTargets(t) && (env.open.Done? ==> |env.open.value| >= 4)
    ensures Serve(t, p, env).Panic? || LongTargets(Serve(t, p, env).table)
  {
    assert |DIR_PREFIX| == 4;
  }

  // --- one listing per handle ---

  predicate Closes(p: Packet, h: bytes) {
    p.kind == CLOSE && Named(p) == Some(h)
  }

  predicate Carries(p: Packet, id: u32) {
    |p.payload| >= 4 && GetU32(p.payload[..4]) == id
  }

  lemma RepliesNumbered(id: u32, code: u32, text: bytes, h: bytes, es: seq<FileStat>)
    ensures Carries(StatusPacket(id, code, text), id)
    ensures Carries(HandlePacket(id, h), id)
    ensures Carries(NamePacket(id, es), id)
  {
    U32RoundTrip(id);
    assert StatusPacket(id, code, text).payload[..4] == PutU32(id);
    assert HandlePacket(id, h).payload[..4] == PutU32(id);
    assert NamePacket(id, es).payload[..4] == PutU32(id);
  }

  // A reply to a request for handles carries the number of the request, and only one too
  // short to have a number gets none.
  lemma ReplyNumbered(t: Table, p: Packet, env: Backend)
    requires p.kind == OPEN || p.kind == CLOSE || p.kind == OPENDIR || p.kind == READDIR
    ensures var r := Serve(t, p, env);
            && (r.Skip? <==> |p.payload| < 4)
            && (r.Reply? || r.Stop? ==> Carries(r.packet, GetU32(p.payload[..4])))
  {
    forall id, code, text, h, es
      ensures Carries(StatusPacket(id, code, text), id) && Carries(HandlePacket(id, h), id) && Carries(NamePacket(id, es), id)
    {
      RepliesNumbered(id, code, text, h, es);
    }
  }

  // Only a request whose string is cut short ends the server, with a bad-message status
  // and the table as it was; an OPEN needs its flags as well.
  lemma MalformedStops(t: Table, p: Packet, env: Backend)
    requires (p.kind == OPEN || p.kind == CLOSE || p.kind == OPENDIR || p.kind == READDIR) && |p.payload| >= 4
    ensures var r := Serve(t, p, env);
            var cut := Named(p).None? || (p.kind == OPEN && |p.payload| < 12 + |Named(p).value|);
            && (r.Stop? <==> cut)
            && (cut ==> r.table == t && r.packet == StatusPacket(GetU32(p.payload[..4]), 5, r.packet.payload[12..|r.packet.payload| - 4]))
  {
    var r := Serve(t, p, env);
    if r.Stop? {
      StatusText(GetU32(p.payload[..4]), 5, SHORT_STRING);
      StatusText(GetU32(p.payload[..4]), 5, SHORT_U32);
    }
  }

  lemma StatusText(id: u32, code: u32, text: bytes)
    ensures var q := StatusPacket(id, code, text).payload; |q| == 16 + |text| && q[12..|q| - 4] == text
  {
  }

  // A handle is listed once: the reply with its entries drains it, and only that does.
  lemma ListingDrains(t: Table, p: Packet, env: Backend, h: bytes)
    requires Serve(t, p, env).Reply?
    ensures h in Serve(t, p, env).table.drained && h !in t.drained <==>
            && p.kind == READDIR && Named(p) == Some(h) && h !in t.drained
            && h in t.handles && env.listing.Done?
    ensures p.kind == READDIR && Serve(t, p, env).packet.kind == NAME ==>
              Named(p).Some? && Named(p).value in Serve(t, p, env).table.drained
  {
  }

  // Once a handle has been listed, every READDIR on it is end of file, whatever
  // else is asked in between, until it is closed.
  lemma {:induction false} ListedOnce(t: Table, h: bytes, rs: seq<Request>, p: Packet, env: Backend)
    requires h in t.drained && After(t, rs).Running?
    requires forall i :: 0 <= i < |rs| ==> !Closes(rs[i].0, h)
    requires p.kind == READDIR && Named(p) == Some(h)
    ensures var t' := After(t, rs).table;
            Serve(t', p, env) == Reply(t', StatusPacket(GetU32(p.payload[..4]), STATUS_EOF, []))
    decreases rs
  {
    if rs != [] {
      DrainedKept(t, h, rs[0].0, rs[0].1);
      ListedOnce(Serve(t, rs[0].0, rs[0].1).table, h, rs[1..], p, env);
    }
  }

  lemma DrainedKept(t: Table, h: bytes, p: Packet, env: Backend)
    requires h in t.drained && !Closes(p, h)
    ensures Serve(t, p, env).Panic? || h in Serve(t, p, env).table.drained
  {
  }

  // ---------------------------------------------------------------------
  // The server object
  // ---------------------------------------------------------------------

  class Server {
    var handles: map<bytes, bytes>
    var drained: set<bytes>
    var nextID: u32
    var running: bool

    ghost function View(): Table
      reads this
    {
      Table(handles, drained, nextID)
    }

    constructor ()
      ensures View() == EMPTY_TABLE && running && Sound(View()) && Issued(View())
    {
      handles, drained, nextID, running := map[], {}, 0, true;
    }

    method NewHandle(target: bytes) returns (h: bytes)
      modifies this
      ensures h == NextHandle(old(View())) && View() == Issue(old(View()), target) && running == old(running)
      ensures h in handles && handles[h] == target
    {
      nextID := (nextID + 1) % U32_LIMIT;
      h := HandleName(nextID);
      handles := handles[h := target];
    }

    method DropHandle(h: bytes)
      modifies this
      ensures View() == Drop(old(View()), h) && running == old(running)
    {
      handles := handles - {h};
      drained := drained - {h};
    }

    method WriteEntries(id: u32, es: seq<FileStat>) returns (payload: bytes)
      ensures payload == NamePacket(id, es).payload
    {
      payload := PutU32(id);
      var i := 0;
      assert es[0..] == es;
      while i < |es|
        invariant 0 <= i <= |es|
        invariant payload + EncodeEntries(es[i..]) == PutU32(id) + EncodeEntries(es)
      {
        var e := es[i];
        var a := FileAttr(e.size, e.uid, e.gid, e.mode, ZERO_TIME, ZERO_TIME);
        if e.mtime != 0 {
          a := a.(mtime := e.mtime);
        }
        assert es[i..][0] == e && es[i..][1..] == es[i + 1..];
        Regroup3(payload, PutString(e.name), PutString([]), EncodeAttr(a), EncodeEntries(es[i + 1..]));
        payload := payload + PutString(e.name);
        payload := payload + PutString([]);
        payload := payload + EncodeAttr(a);
        i := i + 1;
      }
      assert payload + [] == payload;
    }

    // One turn of the server's loop. A crash ends the server like a stop does,
    // without a reply.
    method Handle(p: Packet, env: Backend) returns (reply: Option<Packet>)
      requires running
      modifies this
      ensures match Serve(old(View()), p, env)
              case Reply(t, q) => View() == t && reply == Some(q) && running
              case Stop(t, q) => View() == t && reply == Some(q) && !running
              case Skip(t) => View() == t && reply == None && running
              case Panic => View() == old(View()) && reply == None && !running
      ensures old(Sound(View())) ==> Sound(View())
    {
      if |p.payload| < 4 { return None; }
      var id := GetU32(p.payload[..4]);
      var rest := p.payload[4..];
      if p.kind == OPEN {
        reply := HandleOpen(id, rest, env);
      } else if p.kind == CLOSE {
        reply := HandleClose(id, rest);
      } else if p.kind == OPENDIR {
        reply := HandleOpendir(id, rest, env);
      } else if p.kind == READDIR {
        reply := HandleReaddir(id, rest, env);
      } else {
        reply := Some(env.otherReply);
        running := !env.otherStops;
      }
    }

    method HandleOpen(id: u32, rest: bytes, env: Backend) returns (reply: Option<Packet>)
      requires running
      modifies this
      ensures match OnOpen(old(View()), id, rest, env)
              case Reply(t, q) => View() == t && reply == Some(q) && running
              case Stop(t, q) => View() == t && reply == Some(q) && !running
    {
      match ReadString(rest, 0) {
        case Short =>
          running := false;
          return Some(StatusPacket(id, STATUS_BAD_MESSAGE, SHORT_STRING));
        case Got(path, off) =>
          if ReadU32(rest, off).Short? {
            running := false;
            return Some(StatusPacket(id, STATUS_BAD_MESSAGE, SHORT_U32));
          }
          if env.open.Failed? {
            return Some(StatusPacket(id, MapErr(env.open.cause), env.open.text));
          }
          var h := NewHandle(env.open.value);
          return Some(Packet(HANDLE, PutU32(id) + PutString(h)));
      }
    }

    method HandleClose(id: u32, rest: bytes) returns (reply: Option<Packet>)
      requires running
      modifies this
      ensures match OnClose(old(View()), id, rest)
              case Reply(t, q) => View() == t && reply == Some(q) && running
              case Stop(t, q) => View() == t && reply == Some(q) && !running
    {
      match ReadString(rest, 0) {
        case Short =>
          running := false;
          return Some(StatusPacket(id, STATUS_BAD_MESSAGE, SHORT_STRING));
        case Got(h, _) =>
          if h !in handles {
            return Some(StatusPacket(id, STATUS_FAILURE, INVALID_HANDLE));
          }
          DropHandle(h);
          return Some(StatusPacket(id, STATUS_OK, []));
      }
    }

    method HandleOpendir(id: u32, rest: bytes, env: Backend) returns (reply: Option<Packet>)
      requires running
      modifies this
      ensures match OnOpendir(old(View()), id, rest, env)
              case Reply(t, q) => View() == t && reply == Some(q) && running
              case Stop(t, q) => View() == t && reply == Some(q) && !running
    {
      match ReadString(rest, 0) {
        case Short =>
          running := false;
          return Some(StatusPacket(id, STATUS_BAD_MESSAGE, SHORT_STRING));
        case Got(path, _) =>
          if env.listing.Failed? {
            return Some(StatusPacket(id, MapErr(env.listing.cause), env.listing.text));
          }
          var h := NewHandle(DIR_PREFIX + path);
          return Some(Packet(HANDLE, PutU32(id) + PutString(h)));
      }
    }

    method HandleReaddir(id: u32, rest: bytes, env: Backend) returns (reply: Option<Packet>)
      requires running
      modifies this
      ensures match OnReaddir(old(View()), id, rest, env)
              case Reply(t, q) => View() == t && reply == Some(q) && running
              case Stop(t, q) => View() == t && reply == Some(q) && !running
              case Panic => View() == old(View()) && reply == None && !running
    {
      match ReadString(rest, 0) {
        case Short =>
          running := false;
          return Some(StatusPacket(id, STATUS_BAD_MESSAGE, SHORT_STRING));
        case Got(h, _) =>
          if h in drained {
            return Some(StatusPacket(id, STATUS_EOF, []));
          }
          if h !in handles {
            return Some(StatusPacket(id, STATUS_FAILURE, INVALID_HANDLE));
          }
          if |handles[h]| < 4 {
            running := false;
            return None;
          }
          if env.listing.Failed? {
            return Some(StatusPacket(id, MapErr(env.listing.cause), env.listing.text));
          }
          var payload := WriteEntries(id, env.listing.value);
          drained := drained + {h};
          return Some(Packet(NAME, payload));
      }
    }
  }

  lemma Regroup3(p: bytes, a: bytes, b: bytes, c: bytes, rest: bytes)
    ensures p + (a + (b + c) + rest) == p + a + b + c + rest
  {
  }
}
