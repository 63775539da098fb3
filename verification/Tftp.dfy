/** The TFTP receiver: sections 2, 4 and 6 of RFC 1350 with the option
    acknowledgement of RFC 2347 and the block size option of RFC 2348.

    The receiver is a class whose methods are proved against functions on values.
    Server sessions and channels are the environment: every session is a
    stop-and-wait sender on its own port, every channel is first in first out and
    may lose or repeat packets, and third parties may send as well. */
module Tftp {
  import opened Bits
  import opened Ring
  import opened Flash
  import opened TftpStore

  const DEFAULT_SIZE: nat := 512
  const REQUESTED_SIZE: nat := 1048
  const TIMEOUT_COUNT: nat := 10
  const WELL_KNOWN_PORT: nat := 69

  datatype Phase = Requesting | Optioned | Receiving

  /** A packet by its kind; an OACK may name a block size, DATA carries any bytes,
      Other is every packet the receiver ignores. */
  datatype Packet = Oack(named: bool, size: nat) | Data(number: nat, bytes: seq<byte>) | Other

  datatype Reply = Quiet | Request | Ack(number: nat)

  /** TftpState, TftpServerPort, TftpBlock, TftpLastBlock and TftpBlkSize, and the
      port of server_addr, which every received packet overwrites. */
  datatype Link = Link(phase: Phase, port: nat, peer: nat, block: nat, last: nat, size: nat)

  /** `calls` are the calls of store_block so far. */
  datatype Client = Client(link: Link, timeouts: nat, running: bool, calls: seq<Call>, store: Store)

  /** TftpStart. */
  function Started(st: Store): Client {
    Client(Link(Requesting, WELL_KNOWN_PORT, WELL_KNOWN_PORT, 0, 0, DEFAULT_SIZE), 0, true, [], Cleared(st))
  }

  function Cleared(st: Store): Store { st.(crc := 0, overrun := false) }

  /** The receive buffer after a packet's data arrived over what it held before. */
  function Received(bytes: seq<byte>, stale: seq<byte>): (b: Buffer) {
    seq(1596, i requires 0 <= i < 1596 => if i < |bytes| then bytes[i] else if i < |stale| then stale[i] else 0)
  }

  /** TftpSend: what goes to `peer`. */
  function Outgoing(l: Link): Reply { if l.phase.Requesting? then Request else Ack(l.block) }

  /** The receiver has finished, or an overrun has put an end to what the model says. */
  predicate Over(c: Client) { !c.running || c.store.overrun }

  /** TftpHandler: the receiver and its answer; `stale` is what the receive buffer held. */
  function Handle(f: Crc, c0: Client, p: Packet, port: nat, stale: seq<byte>): (Client, Reply) {
    var c := c0.(link := c0.link.(peer := port));
    if Over(c) || (!c.link.phase.Requesting? && port != c.link.port) then (c, Quiet)
    else match p
      case Other => (c, Quiet)
      case Oack(named, size) =>
        var l := c.link.(phase := Optioned, port := port, size := if named then size else c.link.size);
        (c.(link := l), Outgoing(l))
      case Data(n, bytes) => HandleData(f, c, n, bytes, port, stale)
  }

  function HandleData(f: Crc, c: Client, n: nat, bytes: seq<byte>, port: nat, stale: seq<byte>): (Client, Reply) {
    var first := !c.link.phase.Receiving?;
    var l := if first then c.link.(block := n, phase := Receiving, port := port, last := 0) else c.link.(block := n);
    if first && n != 1 then (c.(link := l), Quiet)
    else if n == l.last then (c.(link := l), Outgoing(l))
    else HandleNew(f, c.(link := l.(last := n)), Call(IndexFrom(n), Received(bytes, stale), Min(|bytes|, ROOM)))
  }

  /** A block that is not a repetition. */
  function HandleNew(f: Crc, c: Client, call: Call): (Client, Reply)
    requires call.len <= ROOM
  {
    var st := StoreCall(f, c.store, call);
    var c' := c.(calls := c.calls + [call], store := st);
    if st.overrun then (c', Quiet) else (c'.(running := call.len >= c.link.size), Outgoing(c.link))
  }

  /** TftpTimeout: the counter is never reset, so only ten timeouts send anything. */
  function Expire(c: Client): (Client, Reply) {
    if Over(c) then (c, Quiet)
    else
      var c' := c.(timeouts := c.timeouts + 1);
      (c', if c'.timeouts > TIMEOUT_COUNT then Quiet else Outgoing(c.link))
  }

  // ---------- the receiver's own code ----------

  class Receiver {
    const crc32: Crc
    const flash: array<byte>
    const buf: array<byte>
    var link: Link
    var timeouts: nat
    var running: bool
    var dataAddr: nat
    var tftpCrc: nat
    var headers: nat
    var overrun: bool
    ghost var calls: seq<Call>

    ghost predicate Valid()
      reads this
    {
      buf.Length == ROOM && buf != flash
    }

    ghost function Stored(): Store
      reads this, flash
    {
      Store(dataAddr, tftpCrc, flash[..], headers, overrun)
    }

    ghost function Value(): Client
      reads this, flash
    {
      Client(link, timeouts, running, calls, Stored())
    }

    constructor (f: Crc, memory: array<byte>, room: array<byte>, addr: nat)
      requires room.Length == ROOM && room != memory
      ensures Valid() && crc32 == f && flash == memory && buf == room
      ensures Value() == Started(Store(addr, 0, memory[..], 0, false))
    {
      crc32, flash, buf := f, memory, room;
      link := Link(Requesting, WELL_KNOWN_PORT, WELL_KNOWN_PORT, 0, 0, DEFAULT_SIZE);
      timeouts, running, dataAddr, tftpCrc, headers := 0, true, addr, 0, 0;
      overrun, calls := false, [];
    }

    /** The recvfrom before a DATA packet is handled. */
    method Receive(bytes: seq<byte>) returns (len: nat)
      requires Valid()
      modifies buf
      ensures len == Min(|bytes|, ROOM) && buf[..] == Received(bytes, old(buf[..]))
    {
      len := Min(|bytes|, ROOM);
      MemCpy(buf, 0, bytes[..len]);
    }

    /** store_block. */
    method StoreOne(index: nat, len: nat)
      requires Valid() && len <= ROOM && !overrun
      modifies this`dataAddr, this`tftpCrc, this`headers, this`overrun, this`calls, flash
      ensures Stored() == StoreCall(crc32, old(Stored()), Call(index, buf[..], len))
      ensures calls == old(calls) + [Call(index, buf[..], len)]
    {
      var src := buf[..];
      var head := HeadOf(src);
      calls := calls + [Call(index, src, len)];
      if index == 0 {
        dataAddr, tftpCrc := head.os1Addr, 0;
      }
      if dataAddr % SECTOR == 0 {
        EraseSector(flash, dataAddr);
      }
      if dataAddr >= WINDOW_HIGH || dataAddr < WINDOW_LOW {
        return;
      }
      WriteFits(len);
      var count := PayloadLen(len);
      if count > ROOM - HEAD_LEN {
        overrun := true;
        return;
      }
      HeadFromBuffer(src, len);
      WriteBlock(src[..len], head);
    }

    /** The rest of store_block, for a write that stays inside the buffer. */
    method WriteBlock(b: Block, head: Head)
      requires head == HeadOf(b)
      modifies this`dataAddr, this`tftpCrc, this`headers, flash
      ensures Stored() == Finish(crc32, old(Stored()), b)
    {
      WriteFlash(flash, dataAddr, b[HEAD_LEN..]);
      if head.number != head.total {
        tftpCrc := Fold(crc32, tftpCrc, b);
      } else {
        tftpCrc := Fold(crc32, tftpCrc, b[..|b| - CRC_LEN]);
        var expected := Le32(b[|b| - CRC_LEN..]);
        if tftpCrc == expected {
          EraseSector(flash, head.hdAddr);
          WriteFlash(flash, head.hdAddr, ImageHead(head, expected));
          headers := headers + 1;
        }
      }
      dataAddr := dataAddr + (|b| - HEAD_LEN);
    }

    /** TftpHandler, and the recvfrom before it. */
    method Handler(p: Packet, port: nat) returns (reply: Reply)
      requires Valid()
      modifies this, flash, buf
      ensures Valid() && (Value(), reply) == Handle(crc32, old(Value()), p, port, old(buf[..]))
      ensures buf[..] == if p.Data? then Received(p.bytes, old(buf[..])) else old(buf[..])
    {
      reply := Quiet;
      var len := 0;
      if p.Data? {
        len := Receive(p.bytes);
      }
      link := link.(peer := port);
      if !running || overrun || (link.phase != Requesting && port != link.port) {
        return;
      }
      match p {
        case Other =>
        case Oack(named, size) =>
          link := link.(phase := Optioned, port := port);
          if named {
            link := link.(size := size);
          }
          reply := Outgoing(link);
        case Data(n, bytes) =>
          reply := DataHandler(n, bytes, len, port, old(buf[..]));
      }
    }

    method DataHandler(n: nat, ghost bytes: seq<byte>, len: nat, port: nat, ghost stale: seq<byte>) returns (reply: Reply)
      requires Valid() && running && !overrun && len == Min(|bytes|, ROOM) && buf[..] == Received(bytes, stale)
      modifies this, flash
      ensures Valid() && (Value(), reply) == HandleData(crc32, old(Value()), n, bytes, port, stale)
    {
      reply := Quiet;
      link := link.(block := n);
      if link.phase == Requesting || link.phase == Optioned {
        link := link.(phase := Receiving, port := port, last := 0);
        if n != 1 {
          return;
        }
      }
      if n == link.last {
        reply := Outgoing(link);
        return;
      }
      link := link.(last := n);
      StoreOne(IndexFrom(n), len);
      if overrun {
        return;
      }
      reply := Outgoing(link);
      if len < link.size {
        running := false;
      }
    }

    method Timeout() returns (reply: Reply)
      requires Valid()
      modifies this
      ensures Valid() && (Value(), reply) == Expire(old(Value()))
    {
      reply := Quiet;
      if running && !overrun {
        timeouts := timeouts + 1;
        if timeouts <= TIMEOUT_COUNT {
          reply := Outgoing(link);
        }
      }
    }
  }

  /** What reaches the receiver: a packet from a port, or its timer. */
  datatype Input = Arrives(p: Packet, port: nat) | Expires

  /** The receiver, its buffer and its answers after a list of inputs. */
  function Fed(f: Crc, st: Store, room: seq<byte>, ins: seq<Input>): (Client, seq<byte>, seq<Reply>) {
    if ins == [] then (Started(st), room, [])
    else
      var (c, b, rs) := Fed(f, st, room, ins[..|ins| - 1]);
      match ins[|ins| - 1]
      case Arrives(p, port) =>
        var (c', r) := Handle(f, c, p, port, b);
        (c', if p.Data? then Received(p.bytes, b) else b, rs + [r])
      case Expires =>
        var (c', r) := Expire(c);
        (c', b, rs + [r])
  }

  /** Every list of packets and timeouts leaves a receiver object, its flash and its
      answers as the functions the theorems are about say. */
  method FeedAll(f: Crc, memory: array<byte>, addr: nat, ins: seq<Input>) returns (replies: seq<Reply>)
    modifies memory
    ensures var (c, _, rs) := Fed(f, Store(addr, 0, old(memory[..]), 0, false), seq(ROOM, _ => 0), ins);
            replies == rs && memory[..] == c.store.flash
  {
    var room := new byte[ROOM](_ => 0);
    ghost var st, blank := Store(addr, 0, memory[..], 0, false), seq(ROOM, _ => 0);
    var rx := new Receiver(f, memory, room, addr);
    assert room[..] == blank;
    replies := [];
    var i := 0;
    while i < |ins|
      invariant 0 <= i <= |ins| && rx.Valid() && fresh(rx) && rx.buf == room && fresh(room) && rx.flash == memory && rx.crc32 == f
      invariant (rx.Value(), room[..], replies) == Fed(f, st, blank, ins[..i])
    {
      assert ins[..i + 1][..i] == ins[..i];
      var r := Feed(rx, ins[i]);
      replies := replies + [r];
      i := i + 1;
    }
    assert ins[..i] == ins;
  }

  method Feed(rx: Receiver, input: Input) returns (r: Reply)
    requires rx.Valid()
    modifies rx, rx.flash, rx.buf
    ensures rx.Valid()
    ensures match input
            case Arrives(p, port) =>
              && (rx.Value(), r) == Handle(rx.crc32, old(rx.Value()), p, port, old(rx.buf[..]))
              && rx.buf[..] == if p.Data? then Received(p.bytes, old(rx.buf[..])) else old(rx.buf[..])
            case Expires => (rx.Value(), r) == Expire(old(rx.Value())) && rx.buf[..] == old(rx.buf[..])
  {
    match input {
      case Arrives(p, port) =>
        r := rx.Handler(p, port);
      case Expires =>
        r := rx.Timeout();
    }
  }

  // ---------- any packets from anybody ----------

  /** The port of the first option acknowledgement or data packet, or -1. */
  function Server(ins: seq<Input>): int {
    if ins == [] then -1
    else
      var x := ins[|ins| - 1];
      if Server(ins[..|ins| - 1]) < 0 && x.Arrives? && !x.p.Other? then x.port else Server(ins[..|ins| - 1])
  }

  /** The number of the last data packet from that port, 0 before the first. */
  function LastData(ins: seq<Input>): nat {
    if ins == [] then 0
    else
      var x := ins[|ins| - 1];
      if x.Arrives? && x.p.Data? && x.port == Server(ins) then x.p.number else LastData(ins[..|ins| - 1])
  }

  /** The block size that port last named in an option acknowledgement, or the default. */
  function Agreed(ins: seq<Input>): nat {
    if ins == [] then 512
    else
      var x := ins[|ins| - 1];
      if x.Arrives? && x.p.Oack? && x.p.named && x.port == Server(ins) then x.p.size else Agreed(ins[..|ins| - 1])
  }

  function Expiries(ins: seq<Input>): nat {
    if ins == [] then 0 else Expiries(ins[..|ins| - 1]) + if ins[|ins| - 1].Expires? then 1 else 0
  }

  /** What the receiver knows of the packets so far. */
  ghost predicate Knows(c: Client, ins: seq<Input>) {
    && (c.link.phase.Requesting? <==> Server(ins) < 0)
    && (Server(ins) >= 0 ==> c.link.port == Server(ins))
    && (Server(ins) < 0 ==> LastData(ins) == 0 && c.calls == [] && !Over(c))
    && (Server(ins) < 0 ==> Agreed(ins) == 512)
    && (!Over(c) ==> c.timeouts == Expiries(ins) && c.link.block == LastData(ins) && c.link.size == Agreed(ins))
  }

  lemma {:induction false} FedKnows(f: Crc, st: Store, room: seq<byte>, ins: seq<Input>)
    ensures Knows(Fed(f, st, room, ins).0, ins) && |Fed(f, st, room, ins).2| == |ins|
  {
    if ins != [] {
      var rest, x := ins[..|ins| - 1], ins[|ins| - 1];
      var (c, b, _) := Fed(f, st, room, rest);
      FedKnows(f, st, room, rest);
      match x {
        case Arrives(p, port) => ArrivesKnows(f, c, p, port, b, ins);
        case Expires =>
      }
    }
  }

  lemma {:induction false} ArrivesKnows(f: Crc, c: Client, p: Packet, port: nat, stale: seq<byte>, ins: seq<Input>)
    requires ins != [] && ins[|ins| - 1] == Arrives(p, port) && Knows(c, ins[..|ins| - 1])
    ensures Knows(Handle(f, c, p, port, stale).0, ins)
  {
  }

  /** Whatever arrives from whomever: the receiver answers and stores packets of one
      port only, that of the first option acknowledgement or data packet. It answers a
      data packet with its own number and hands over that packet's data, and a first
      data packet with another number than 1 is neither stored nor answered. A packet
      shorter than the block size agreed on is the last. */
  lemma {:induction false} OneServer(f: Crc, st: Store, room: seq<byte>, ins: seq<Input>, p: Packet, port: nat)
    ensures var (c, b, _) := Fed(f, st, room, ins); var (c', r) := Handle(f, c, p, port, b);
            && (r != Quiet || c'.calls != c.calls ==> port == Server(ins + [Arrives(p, port)]))
            && (r != Quiet ==> !p.Other? && r == Ack(if p.Data? then p.number else LastData(ins)))
            && (c'.calls != c.calls ==>
                  p.Data? && c'.calls == c.calls + [Call(IndexFrom(p.number), Received(p.bytes, b), Min(|p.bytes|, ROOM))])
            && (c'.calls != c.calls && !c'.store.overrun ==> (c'.running <==> Min(|p.bytes|, ROOM) >= Agreed(ins)))
            && (Server(ins) < 0 && p.Data? && p.number != 1 ==> r == Quiet && c'.calls == [])
            && (Server(ins) >= 0 && port != Server(ins) ==> c' == c.(link := c.link.(peer := port)))
  {
    FedKnows(f, st, room, ins);
    assert (ins + [Arrives(p, port)])[..|ins|] == ins;
  }

  /** While the transfer runs, the first ten timeouts send the request as long as no
      server has answered, and after that the acknowledgement of the last data packet;
      later ones send nothing, and so does a receiver that has finished. */
  lemma {:induction false} TimeoutSends(f: Crc, st: Store, room: seq<byte>, ins: seq<Input>)
    ensures var c := Fed(f, st, room, ins).0; var (c', r) := Expire(c);
            && r == (if Over(c) || Expiries(ins) >= 10 then Quiet
                     else if Server(ins) < 0 then Request
                     else Ack(LastData(ins)))
            && c' == (if Over(c) then c else c.(timeouts := Expiries(ins) + 1))
  {
    FedKnows(f, st, room, ins);
  }

  // ---------- server sessions and channels ----------

  /** The packets one server sends, and the receiver's flash before it starts. */
  datatype Setting = Setting(crc: Crc, blocks: seq<seq<byte>>, oack: bool, named: bool, size: nat, store: Store)

  /** Full blocks except a shorter, possibly empty last one; the size is at most the one
      asked for, and the default without the option.  Nothing is said about the bytes. */
  predicate Serves(g: Setting) {
    && |g.blocks| > 0
    && (forall i :: 0 <= i < |g.blocks| - 1 ==> |g.blocks[i]| == g.size)
    && |Last(g)| < g.size <= REQUESTED_SIZE
    && ((g.oack && g.named) || g.size == DEFAULT_SIZE)
  }

  function Last(g: Setting): seq<byte>
    requires |g.blocks| > 0
  {
    g.blocks[|g.blocks| - 1]
  }

  function First(g: Setting): nat { if g.oack then 0 else 1 }

  /** Block numbers have 16 bits. */
  function Num(k: nat): nat { k % 0x1_0000 }

  lemma {:induction false} NumDiffers(k: nat)
    ensures Num(k) != Num(k + 1)
  {
  }

  /** Packet 0 is the option acknowledgement, packet k carries block k. */
  function PacketOf(g: Setting, k: nat): Packet {
    if k == 0 then Oack(g.named, g.size) else if k <= |g.blocks| then Data(Num(k), g.blocks[k - 1]) else Other
  }

  /** The packet in flight, the packets on their way to the receiver, and the block
      numbers acknowledged on their way back. */
  datatype Session = Session(sent: nat, down: seq<nat>, up: seq<nat>)

  datatype World = World(client: Client, sessions: map<nat, Session>)

  datatype Action =
    | Open(port: nat)
    | Resend(port: nat)
    | LoseDown(port: nat, i: nat)
    | RepeatDown(port: nat, i: nat)
    | LoseUp(port: nat, i: nat)
    | RepeatUp(port: nat, i: nat)
    | ServerReads(port: nat)
    | ClientReads(port: nat, stale: seq<byte>)
    | Stray(port: nat, p: Packet, stale: seq<byte>)
    | Timer

  function Lose(s: seq<nat>, i: nat): seq<nat> { if i < |s| then s[..i] + s[i + 1..] else s }

  function Repeat(s: seq<nat>, i: nat): seq<nat> { if i < |s| then s[..i + 1] + s[i..] else s }

  /** An answer of the receiver on its way to the port it was last reached from. */
  function Deliver(sessions: map<nat, Session>, peer: nat, r: Reply): map<nat, Session> {
    if r.Ack? && peer in sessions then
      sessions[peer := sessions[peer].(up := sessions[peer].up + [r.number])]
    else sessions
  }

  /** The server's step on an acknowledgement: the next packet, only if it is for the one in flight. */
  function OnAck(g: Setting, s: Session): Session {
    if s.up == [] then s
    else if s.up[0] == Num(s.sent) && s.sent < |g.blocks| then Session(s.sent + 1, s.down + [s.sent + 1], s.up[1..])
    else s.(up := s.up[1..])
  }

  function SessionStep(g: Setting, s: Session, a: Action): Session {
    match a
    case Resend(_) => s.(down := s.down + [s.sent])
    case LoseDown(_, i) => s.(down := Lose(s.down, i))
    case RepeatDown(_, i) => s.(down := Repeat(s.down, i))
    case LoseUp(_, i) => s.(up := Lose(s.up, i))
    case RepeatUp(_, i) => s.(up := Repeat(s.up, i))
    case ServerReads(_) => OnAck(g, s)
    case _ => s
  }

  function ClientStep(g: Setting, w: World, p: Packet, port: nat, stale: seq<byte>): World {
    var (c, r) := Handle(g.crc, w.client, p, port, stale);
    World(c, Deliver(w.sessions, c.link.peer, r))
  }

  /** One step; an action that is not possible changes nothing.  A third party may
      send anything once the receiver has a server, and packets it ignores before. */
  function Next(g: Setting, w: World, a: Action): World {
    match a
    case Open(port) =>
      if port in w.sessions then w else w.(sessions := w.sessions[port := Session(First(g), [First(g)], [])])
    case ClientReads(port, stale) =>
      if port in w.sessions && w.sessions[port].down != [] then
        var s := w.sessions[port];
        ClientStep(g, w.(sessions := w.sessions[port := s.(down := s.down[1..])]), PacketOf(g, s.down[0]), port, stale)
      else w
    case Stray(port, p, stale) =>
      if p.Other? || (!w.client.link.phase.Requesting? && port != w.client.link.port) then ClientStep(g, w, p, port, stale) else w
    case Timer =>
      var (c, r) := Expire(w.client);
      World(c, Deliver(w.sessions, c.link.peer, r))
    case _ =>
      if a.port in w.sessions then w.(sessions := w.sessions[a.port := SessionStep(g, w.sessions[a.port], a)]) else w
  }

  function Run(g: Setting, w: World, acts: seq<Action>): World {
    if acts == [] then w else Next(g, Run(g, w, acts[..|acts| - 1]), acts[|acts| - 1])
  }

  /** The world after a run from the beginning. */
  function Exec(g: Setting, acts: seq<Action>): World { Run(g, World(Started(g.store), map[]), acts) }

  // ---------- the invariant ----------

  predicate Ordered(s: seq<nat>) { forall i, j :: 0 <= i < j < |s| ==> s[i] <= s[j] }

  predicate Within(s: seq<nat>, low: nat, high: nat) { forall i :: 0 <= i < |s| ==> low <= s[i] <= high }

  /** A session nobody has answered. */
  predicate Fresh(g: Setting, s: Session) {
    s.sent == First(g) && s.up == [] && Within(s.down, First(g), First(g))
  }

  /** Acknowledgements on their way: of the last block, behind those of the block before
      it, which the server may not have read yet. */
  predicate Acks(up: seq<nat>, now: nat, before: nat, both: bool) {
    && (forall i :: 0 <= i < |up| ==> up[i] == now || (both && up[i] == before))
    && (forall i, j :: 0 <= i < j < |up| && up[i] == now ==> up[j] == now)
  }

  predicate UpOk(s: Session, k: nat) {
    Acks(s.up, Num(k), if k > 0 then Num(k - 1) else Num(k), s.sent == k && k > 0)
  }

  /** The session of a receiver that has `k` blocks. */
  predicate InStep(g: Setting, s: Session, k: nat) {
    && k <= s.sent <= k + 1 && s.sent <= |g.blocks|
    && Ordered(s.down) && Within(s.down, k, s.sent) && UpOk(s, k)
  }

  /** How many blocks were handed to store_block. */
  function Count(c: Client): nat { |c.calls| }

  ghost predicate StoreOk(g: Setting, c: Client) {
    && Count(c) <= |g.blocks| && Carries(c.calls, g.blocks[..Count(c)]) && Lengths(c.calls)
    && c.store == StoreCalls(g.crc, Cleared(g.store), c.calls)
  }

  ghost predicate ClientOk(g: Setting, c: Client)
    requires Serves(g)
  {
    && StoreOk(g, c)
    && (if c.store.overrun then c.running else c.running <==> Count(c) < |g.blocks|)
    && c.link.block == Num(Count(c))
    && match c.link.phase
       case Requesting => Count(c) == 0 && c.link.size == DEFAULT_SIZE
       case Optioned => Count(c) == 0 && g.oack && c.link.size == g.size
       case Receiving => Count(c) > 0 && c.link.last == c.link.block && c.link.size == g.size
  }

  ghost predicate SessionsOk(g: Setting, l: Link, k: nat, sessions: map<nat, Session>) {
    if l.phase.Requesting? then forall p :: p in sessions ==> Fresh(g, sessions[p])
    else l.port in sessions && InStep(g, sessions[l.port], k)
  }

  ghost predicate Inv(g: Setting, w: World)
    requires Serves(g)
  {
    ClientOk(g, w.client) && SessionsOk(g, w.client.link, Count(w.client), w.sessions)
  }

  lemma {:induction false} LoseKeeps(s: seq<nat>, i: nat, low: nat, high: nat)
    ensures Ordered(s) ==> Ordered(Lose(s, i))
    ensures Within(s, low, high) ==> Within(Lose(s, i), low, high)
  {
  }

  lemma {:induction false} RepeatKeeps(s: seq<nat>, i: nat, low: nat, high: nat)
    ensures Ordered(s) ==> Ordered(Repeat(s, i))
    ensures Within(s, low, high) ==> Within(Repeat(s, i), low, high)
  {
    var r := Repeat(s, i);
    if i < |s| {
      assert forall j :: 0 <= j < |r| ==> r[j] == if j <= i then s[j] else s[j - 1];
    }
  }

  lemma {:induction false} LoseAcks(up: seq<nat>, i: nat, now: nat, before: nat, both: bool)
    requires Acks(up, now, before, both)
    ensures Acks(Lose(up, i), now, before, both)
  {
    var r := Lose(up, i);
    if i < |up| {
      assert forall j :: 0 <= j < |r| ==> r[j] == if j < i then up[j] else up[j + 1];
    }
  }

  lemma {:induction false} RepeatAcks(up: seq<nat>, i: nat, now: nat, before: nat, both: bool)
    requires Acks(up, now, before, both)
    ensures Acks(Repeat(up, i), now, before, both)
  {
    var r := Repeat(up, i);
    if i < |up| {
      assert forall j :: 0 <= j < |r| ==> r[j] == if j <= i then up[j] else up[j - 1];
    }
  }

  /** An acknowledgement the server reads moves it on only from a block the receiver has. */
  lemma {:induction false} AckRead(g: Setting, s: Session, k: nat)
    requires InStep(g, s, k)
    ensures InStep(g, OnAck(g, s), k)
  {
    NumDiffers(k);
    if k > 0 {
      NumDiffers(k - 1);
    }
  }

  lemma {:induction false} SessionKeeps(g: Setting, s: Session, a: Action, k: nat)
    requires Serves(g) && InStep(g, s, k)
    ensures InStep(g, SessionStep(g, s, a), k)
  {
    var before, both := if k > 0 then Num(k - 1) else Num(k), s.sent == k && k > 0;
    match a
    case LoseDown(_, i) => LoseKeeps(s.down, i, k, s.sent);
    case RepeatDown(_, i) => RepeatKeeps(s.down, i, k, s.sent);
    case LoseUp(_, i) => LoseAcks(s.up, i, Num(k), before, both);
    case RepeatUp(_, i) => RepeatAcks(s.up, i, Num(k), before, both);
    case ServerReads(_) => AckRead(g, s, k);
    case _ =>
  }

  lemma {:induction false} FreshKeeps(g: Setting, s: Session, a: Action)
    requires Fresh(g, s)
    ensures Fresh(g, SessionStep(g, s, a))
  {
    match a
    case LoseDown(_, i) => LoseKeeps(s.down, i, First(g), First(g));
    case RepeatDown(_, i) => RepeatKeeps(s.down, i, First(g), First(g));
    case _ =>
  }

  /** A fresh session is in step with a receiver that has nothing. */
  lemma {:induction false} FreshInStep(g: Setting, s: Session)
    requires Serves(g) && Fresh(g, s)
    ensures InStep(g, s, 0)
  {
  }

  /** What is left of the channel after its first packet, with or without an answer to it. */
  lemma {:induction false} Popped(g: Setting, s: Session, k: nat)
    requires InStep(g, s, k) && s.down != []
    ensures s.down[0] == k || s.down[0] == k + 1
    ensures InStep(g, s.(down := s.down[1..]), s.down[0])
    ensures InStep(g, s.(down := s.down[1..], up := s.up + [Num(s.down[0])]), s.down[0])
  {
    NumDiffers(k);
  }

  /** Acknowledging what the receiver has keeps a session in step. */
  lemma {:induction false} AckKeeps(g: Setting, s: Session, k: nat)
    requires InStep(g, s, k)
    ensures InStep(g, s.(up := s.up + [Num(k)]), k)
  {
  }

  /** The call that hands over block `k`. */
  function CallFor(g: Setting, k: nat, stale: seq<byte>): Call
    requires k < |g.blocks|
  {
    Call(IndexOf(k), Received(g.blocks[k], stale), |g.blocks[k]|)
  }

  lemma {:induction false} BlockLength(g: Setting, k: nat)
    requires Serves(g) && k < |g.blocks|
    ensures |g.blocks[k]| <= REQUESTED_SIZE && (|g.blocks[k]| < g.size <==> k + 1 == |g.blocks|)
  {
  }

  /** Handing over the next block keeps the record of calls in order. */
  lemma {:induction false} CallKeeps(g: Setting, c: Client, stale: seq<byte>)
    requires Serves(g) && StoreOk(g, c) && Count(c) < |g.blocks|
    ensures var call := CallFor(g, Count(c), stale); var st := StoreCall(g.crc, c.store, call);
            call.len <= ROOM && StoreOk(g, c.(calls := c.calls + [call], store := st))
  {
    var k, call := Count(c), CallFor(g, Count(c), stale);
    BlockLength(g, k);
    var log := c.calls + [call];
    assert log[..k] == c.calls;
    assert call.src[..call.len] == g.blocks[k];
    forall i | 0 <= i < |log|
      ensures log[i].index == IndexOf(i) && log[i].len == |g.blocks[..k + 1][i]| <= ROOM && log[i].src[..|g.blocks[..k + 1][i]|] == g.blocks[..k + 1][i]
    {
      if i < k {
        assert c.calls[i].src[..|g.blocks[..k][i]|] == g.blocks[..k][i];
      }
    }
  }

  /** After packet `n` of its session: nothing new if the receiver is done; otherwise a
      repeated block leaves everything stored, the next one is handed over, and the
      answer acknowledges packet `n`. */
  ghost predicate Reacted(g: Setting, c: Client, n: nat, port: nat, stale: seq<byte>, c': Client, r: Reply)
    requires Serves(g)
  {
    && ClientOk(g, c') && c'.link.peer == port
    && (Over(c) ==> r == Quiet && c' == c.(link := c.link.(peer := port)))
    && (!Over(c) ==>
          && Count(c') == n && c'.link.port == port && !c'.link.phase.Requesting?
          && (n == Count(c) ==> c'.calls == c.calls && c'.store == c.store)
          && (n == Count(c) + 1 ==> Count(c) < |g.blocks| && c'.calls == c.calls + [CallFor(g, Count(c), stale)])
          && r == if c'.store.overrun then Quiet else Ack(Num(n)))
  }

  /** The receiver's reaction to packet `n` of its own session, when it has `k` blocks. */
  lemma {:induction false} Receives(g: Setting, c: Client, n: nat, port: nat, stale: seq<byte>)
    requires Serves(g) && ClientOk(g, c) && n <= |g.blocks|
    requires n == Count(c) || n == Count(c) + 1
    requires c.link.phase.Requesting? ==> n == First(g)
    requires !c.link.phase.Requesting? ==> port == c.link.port
    ensures var (c', r) := Handle(g.crc, c, PacketOf(g, n), port, stale); Reacted(g, c, n, port, stale, c', r)
  {
    if Over(c) || n == 0 {
    } else if n == Count(c) {
      ReceivesAgain(g, c, port, stale);
    } else {
      ReceivesNext(g, c, port, stale);
    }
  }

  /** The block it has already. */
  lemma {:induction false} ReceivesAgain(g: Setting, c: Client, port: nat, stale: seq<byte>)
    requires Serves(g) && ClientOk(g, c) && !Over(c) && 0 < Count(c) && port == c.link.port
    ensures var (c', r) := Handle(g.crc, c, PacketOf(g, Count(c)), port, stale); Reacted(g, c, Count(c), port, stale, c', r)
  {
  }

  /** The block it waits for. */
  lemma {:induction false} ReceivesNext(g: Setting, c: Client, port: nat, stale: seq<byte>)
    requires Serves(g) && ClientOk(g, c) && !Over(c)
    requires if c.link.phase.Requesting? then !g.oack else port == c.link.port
    ensures var n := Count(c) + 1; var (c', r) := Handle(g.crc, c, PacketOf(g, n), port, stale); Reacted(g, c, n, port, stale, c', r)
  {
    var k := Count(c);
    var c1 := c.(link := Link(Receiving, port, port, Num(k + 1), Num(k + 1), g.size));
    NumDiffers(k);
    BlockLength(g, k);
    IsNew(g, c, port, stale, c1);
    NewBlock(g, c1, port, stale);
  }

  lemma {:induction false} IsNew(g: Setting, c: Client, port: nat, stale: seq<byte>, c1: Client)
    requires !Over(c) && Count(c) < |g.blocks| && |g.blocks[Count(c)]| <= ROOM
    requires c.link.phase.Requesting? || port == c.link.port
    requires c1 == c.(link := Link(Receiving, port, port, Num(Count(c) + 1), Num(Count(c) + 1), c.link.size))
    requires if c.link.phase.Receiving? then c.link.last != Num(Count(c) + 1) else Count(c) == 0
    ensures Handle(g.crc, c, PacketOf(g, Count(c) + 1), port, stale) == HandleNew(g.crc, c1, CallFor(g, Count(c), stale))
  {
  }

  lemma {:induction false} NewBlock(g: Setting, c: Client, port: nat, stale: seq<byte>)
    requires Serves(g) && StoreOk(g, c) && !Over(c) && Count(c) < |g.blocks|
    requires c.link == Link(Receiving, port, port, Num(Count(c) + 1), Num(Count(c) + 1), g.size)
    ensures |g.blocks[Count(c)]| <= ROOM
    ensures var (c', r) := HandleNew(g.crc, c, CallFor(g, Count(c), stale)); Reacted(g, c, Count(c) + 1, port, stale, c', r)
  {
    BlockLength(g, Count(c));
    CallKeeps(g, c, stale);
  }

  /** A packet from the receiver's server, or from the one it chooses now. */
  lemma {:induction false} OwnReadKeeps(g: Setting, w: World, port: nat, stale: seq<byte>)
    requires Serves(g) && Inv(g, w) && port in w.sessions && w.sessions[port].down != []
    requires w.client.link.phase.Requesting? || port == w.client.link.port
    ensures Inv(g, Next(g, w, ClientReads(port, stale)))
    ensures !Over(w.client) ==> !Next(g, w, ClientReads(port, stale)).client.link.phase.Requesting?
  {
    var s, c := w.sessions[port], w.client;
    if c.link.phase.Requesting? {
      FreshInStep(g, s);
    }
    Popped(g, s, Count(c));
    var n, rest := s.down[0], s.(down := s.down[1..]);
    Receives(g, c, n, port, stale);
    var (c', r) := Handle(g.crc, c, PacketOf(g, n), port, stale);
    AfterReaction(g, w, port, stale, c', r);
    NextIs(g, w, port, stale, c', r);
  }

  lemma {:induction false} NextIs(g: Setting, w: World, port: nat, stale: seq<byte>, c': Client, r: Reply)
    requires port in w.sessions && w.sessions[port].down != []
    requires (c', r) == Handle(g.crc, w.client, PacketOf(g, w.sessions[port].down[0]), port, stale) && c'.link.peer == port
    ensures var s := w.sessions[port];
            Next(g, w, ClientReads(port, stale)) == World(c', Deliver(w.sessions[port := s.(down := s.down[1..])], port, r))
  {
  }

  lemma {:induction false} AfterReaction(g: Setting, w: World, port: nat, stale: seq<byte>, c': Client, r: Reply)
    requires Serves(g) && Inv(g, w) && port in w.sessions && w.sessions[port].down != []
    requires InStep(g, w.sessions[port], Count(w.client)) && (Over(w.client) ==> port == w.client.link.port)
    requires w.client.link.phase.Requesting? ==> !Over(w.client)
    requires Reacted(g, w.client, w.sessions[port].down[0], port, stale, c', r)
    ensures var s := w.sessions[port]; Inv(g, World(c', Deliver(w.sessions[port := s.(down := s.down[1..])], port, r)))
    ensures !Over(w.client) ==> !c'.link.phase.Requesting?
  {
    var s := w.sessions[port];
    Popped(g, s, Count(w.client));
    PopKeeps(g, s, Count(w.client));
  }

  lemma {:induction false} PopKeeps(g: Setting, s: Session, k: nat)
    requires InStep(g, s, k) && s.down != []
    ensures InStep(g, s.(down := s.down[1..]), k)
  {
  }

  /** A packet from another session is dropped. */
  lemma {:induction false} OtherReadKeeps(g: Setting, w: World, port: nat, stale: seq<byte>)
    requires Serves(g) && Inv(g, w) && port in w.sessions && w.sessions[port].down != []
    requires !w.client.link.phase.Requesting? && port != w.client.link.port
    ensures Inv(g, Next(g, w, ClientReads(port, stale)))
  {
    var w' := Next(g, w, ClientReads(port, stale));
    assert w'.client == w.client.(link := w.client.link.(peer := port));
  }

  /** Packets that reach the receiver. */
  lemma {:induction false} ClientReadsKeeps(g: Setting, w: World, port: nat, stale: seq<byte>)
    requires Serves(g) && Inv(g, w)
    ensures Inv(g, Next(g, w, ClientReads(port, stale)))
  {
    if port in w.sessions && w.sessions[port].down != [] {
      if w.client.link.phase.Requesting? || port == w.client.link.port {
        OwnReadKeeps(g, w, port, stale);
      } else {
        OtherReadKeeps(g, w, port, stale);
      }
    }
  }

  lemma {:induction false} TimerKeeps(g: Setting, w: World)
    requires Serves(g) && Inv(g, w)
    ensures Inv(g, Next(g, w, Timer))
  {
    var l := w.client.link;
    if !l.phase.Requesting? {
      AckKeeps(g, w.sessions[l.port], Count(w.client));
    }
  }

  lemma {:induction false} StrayKeeps(g: Setting, w: World, port: nat, p: Packet, stale: seq<byte>)
    requires Serves(g) && Inv(g, w)
    ensures Inv(g, Next(g, w, Stray(port, p, stale)))
  {
    var w' := Next(g, w, Stray(port, p, stale));
    assert w' == w || w' == World(w.client.(link := w.client.link.(peer := port)), w.sessions);
  }

  lemma {:induction false} ChannelKeeps(g: Setting, w: World, a: Action)
    requires Serves(g) && Inv(g, w) && !a.ClientReads? && !a.Stray? && !a.Timer?
    ensures Inv(g, Next(g, w, a))
  {
    if a.port in w.sessions {
      if w.client.link.phase.Requesting? {
        FreshKeeps(g, w.sessions[a.port], a);
      } else if a.port == w.client.link.port {
        SessionKeeps(g, w.sessions[a.port], a, Count(w.client));
      }
    }
  }

  lemma {:induction false} NextKeeps(g: Setting, w: World, a: Action)
    requires Serves(g) && Inv(g, w)
    ensures Inv(g, Next(g, w, a))
  {
    match a
    case ClientReads(port, stale) => ClientReadsKeeps(g, w, port, stale);
    case Stray(port, p, stale) => StrayKeeps(g, w, port, p, stale);
    case Timer => TimerKeeps(g, w);
    case _ => ChannelKeeps(g, w, a);
  }

  lemma {:induction false} RunKeeps(g: Setting, w: World, acts: seq<Action>)
    requires Serves(g) && Inv(g, w)
    ensures Inv(g, Run(g, w, acts))
  {
    if acts != [] {
      RunKeeps(g, w, acts[..|acts| - 1]);
      NextKeeps(g, Run(g, w, acts[..|acts| - 1]), acts[|acts| - 1]);
    }
  }

  lemma {:induction false} Reachable(g: Setting, acts: seq<Action>)
    requires Serves(g)
    ensures Inv(g, Exec(g, acts))
  {
    assert g.blocks[..0] == [];
    RunKeeps(g, World(Started(g.store), map[]), acts);
  }

  // ---------- the theorems ----------

  /** In every run store_block has been called for a prefix of the packets, each once
      and in order, the flash is what those calls make of it, and unless a call overran
      the receiver stops exactly when it has handed over all of them. */
  lemma {:induction false} StoredInOrder(g: Setting, acts: seq<Action>)
    requires Serves(g)
    ensures var c := Exec(g, acts).client;
            && Count(c) <= |g.blocks| && Carries(c.calls, g.blocks[..Count(c)]) && Lengths(c.calls)
            && c.store == StoreCalls(g.crc, Cleared(g.store), c.calls)
            && (!c.store.overrun ==> (c.running <==> Count(c) < |g.blocks|))
  {
    Reachable(g, acts);
  }

  function Timers(acts: seq<Action>): nat {
    if acts == [] then 0 else Timers(acts[..|acts| - 1]) + if acts[|acts| - 1].Timer? then 1 else 0
  }

  lemma {:induction false} TimersCounted(g: Setting, acts: seq<Action>)
    ensures var c := Exec(g, acts).client; !Over(c) ==> c.timeouts == Timers(acts)
  {
    if acts != [] {
      TimersCounted(g, acts[..|acts| - 1]);
    }
  }

  /** In every run with servers a timeout asks for the block after the last one stored. */
  lemma {:induction false} TimerResends(g: Setting, acts: seq<Action>)
    requires Serves(g)
    ensures var c := Exec(g, acts).client;
            Expire(c).1 == if Over(c) || Timers(acts) >= 10 then Quiet
                           else if c.link.phase.Requesting? then Request
                           else Ack(Num(Count(c)))
  {
    Reachable(g, acts);
    TimersCounted(g, acts);
  }

  /** The packets that carry a header, when blocks have room for one. */
  function Image(g: Setting): (bs: seq<Block>)
    requires Serves(g) && g.size >= HEAD_LEN
    ensures bs <= g.blocks && |bs| == if |Last(g)| >= HEAD_LEN then |g.blocks| else |g.blocks| - 1
  {
    if |Last(g)| >= HEAD_LEN then g.blocks else g.blocks[..|g.blocks| - 1]
  }

  /** As long as only packets with headers were handed over, they are stored as blocks. */
  lemma {:induction false} StoredBlocks(g: Setting, acts: seq<Action>)
    requires Serves(g) && g.size >= HEAD_LEN
    ensures var c := Exec(g, acts).client; var k := Count(c);
            k <= |Image(g)| ==> c.store == StoreAll(g.crc, Cleared(g.store), Image(g)[..k]) && !c.store.overrun
  {
    StoredInOrder(g, acts);
    var c, bs := Exec(g, acts).client, Image(g);
    if Count(c) <= |bs| {
      assert g.blocks[..Count(c)] == bs[..Count(c)];
      CallsStoreBlocks(g.crc, Cleared(g.store), c.calls, bs[..Count(c)]);
    }
  }

  /** Transfers whose last packet has a whole header never overrun. */
  lemma {:induction false} NeverOverruns(g: Setting, acts: seq<Action>)
    requires Serves(g) && |Last(g)| >= HEAD_LEN
    ensures var c := Exec(g, acts).client;
            && !c.store.overrun && Count(c) <= |Image(g)| == |g.blocks|
            && (c.running <==> Count(c) < |g.blocks|)
  {
    StoredInOrder(g, acts);
    StoredBlocks(g, acts);
  }

  /** In every run the image header is written only once every packet with a header is
      stored, and then exactly if the CRC over exactly those blocks agrees. */
  lemma {:induction false} HeaderOnlyIfCrc(g: Setting, acts: seq<Action>)
    requires Serves(g) && g.size >= HEAD_LEN && Numbered(Image(g)) && Fits(Image(g))
    ensures var c := Exec(g, acts).client; var n := |Image(g)|;
            c.store.headers == g.store.headers + if Count(c) >= n && CrcAgrees(g.crc, Image(g)) then 1 else 0
  {
    StoredInOrder(g, acts);
    StoredBlocks(g, acts);
    var c, st, bs := Exec(g, acts).client, Cleared(g.store), Image(g);
    if Count(c) < |bs| {
      BeforeLast(g.crc, st, bs, Count(c));
    } else {
      WholeImage(g.crc, st, bs);
      assert bs[..|bs|] == bs;
      if Count(c) > |bs| {
        ShortKeepsHeaders(g, c);
      }
    }
  }

  /** A last packet without a header writes none. */
  lemma {:induction false} ShortKeepsHeaders(g: Setting, c: Client)
    requires Serves(g) && g.size >= HEAD_LEN && StoreOk(g, c) && Count(c) > |Image(g)|
    ensures c.store.headers == StoreAll(g.crc, Cleared(g.store), Image(g)).headers
  {
    LastCall(g, c);
    ShortCall(g.crc, StoreAll(g.crc, Cleared(g.store), Image(g)), c.calls[|g.blocks| - 1]);
  }

  /** A short last packet comes on top of the blocks of the image. */
  lemma {:induction false} LastCall(g: Setting, c: Client)
    requires Serves(g) && g.size >= HEAD_LEN && |Last(g)| < HEAD_LEN && StoreOk(g, c) && Count(c) == |g.blocks|
    ensures var n := |g.blocks| - 1;
            && c.calls[n].index == IndexOf(n) && c.calls[n].len == |Last(g)|
            && c.store == StoreCall(g.crc, StoreAll(g.crc, Cleared(g.store), Image(g)), c.calls[n])
  {
    var n, log := |g.blocks| - 1, c.calls;
    assert g.blocks[..n + 1] == g.blocks && log[..n + 1] == log;
    assert Carries(log[..n], Image(g));
    CallsStoreBlocks(g.crc, Cleared(g.store), log[..n], Image(g));
  }

  /** In every run the data area is the payload of the packets with headers received so
      far, whatever the flash held before, if a block begins at every sector; once they
      are all there, if moreover the image header spares them. */
  lemma {:induction false} DataAreaIsPrefix(g: Setting, acts: seq<Action>)
    requires Serves(g) && g.size >= HEAD_LEN && Numbered(Image(g)) && Fits(Image(g)) && |g.store.flash| >= WINDOW_HIGH
    ensures var c, bs := Exec(g, acts).client, Image(g); var k := Count(c);
            (k < |bs| && SectorsBegun(bs)) || (k == |bs| && DataSafe(g.crc, bs)) ==>
              At(bs, k) <= |c.store.flash| && c.store.flash[Start(bs)..At(bs, k)] == Payload(bs[..k])
  {
    StoredBlocks(g, acts);
    var c, st, bs := Exec(g, acts).client, Cleared(g.store), Image(g);
    var k := Count(c);
    if k < |bs| && SectorsBegun(bs) {
      PrefixRight(g.crc, st, bs, k);
    } else if k == |bs| && DataSafe(g.crc, bs) {
      assert bs[..|bs|] == bs;
      RightWhenSafe(g.crc, st, bs);
    }
  }

  // ---------- no run gets stuck ----------

  lemma {:induction false} RunAppend(g: Setting, w: World, a: seq<Action>, b: seq<Action>)
    ensures Run(g, w, a + b) == Run(g, Run(g, w, a), b)
    decreases |b|
  {
    if b == [] {
      assert a + b == a;
    } else {
      assert (a + b)[..|a + b| - 1] == a + b[..|b| - 1];
      RunAppend(g, w, a, b[..|b| - 1]);
    }
  }

  lemma {:induction false} RunFirst(g: Setting, w: World, a: Action, rest: seq<Action>)
    ensures Run(g, w, [a] + rest) == Run(g, Next(g, w, a), rest)
  {
    RunAppend(g, w, [a], rest);
    assert Run(g, w, [a]) == Next(g, Run(g, w, []), a);
  }

  /** The receiver has a server and wants more. */
  ghost predicate Busy(g: Setting, w: World)
    requires Serves(g)
  {
    Inv(g, w) && !w.client.link.phase.Requesting? && !Over(w.client)
  }

  function Mine(w: World): Session
    requires w.client.link.port in w.sessions
  {
    w.sessions[w.client.link.port]
  }

  /** Reading the next packet of the own session: a repeated block is acknowledged
      again, the next block is handed over. */
  lemma {:induction false} ReadOwn(g: Setting, w: World, stale: seq<byte>)
    requires Serves(g) && Busy(g, w) && Mine(w).down != []
    ensures var l, k, n, w' := w.client.link, Count(w.client), Mine(w).down[0], Next(g, w, ClientReads(w.client.link.port, stale));
            && Inv(g, w') && w'.client.link.port == l.port && !w'.client.link.phase.Requesting? && l.port in w'.sessions
            && (n == k || n == k + 1) && k < |g.blocks|
            && (n == k ==> Busy(g, w') && w'.client.calls == w.client.calls && Mine(w') == Session(Mine(w).sent, Mine(w).down[1..], Mine(w).up + [Num(k)]))
            && (n == k + 1 ==> w'.client.calls == w.client.calls + [CallFor(g, k, stale)])
  {
    var l := w.client.link;
    NextKeeps(g, w, ClientReads(l.port, stale));
    Popped(g, Mine(w), Count(w.client));
    Receives(g, w.client, Mine(w).down[0], l.port, stale);
  }

  lemma {:induction false} ServerStep(g: Setting, w: World, a: Action)
    requires Serves(g) && Busy(g, w) && (a.Resend? || a.ServerReads?) && a.port == w.client.link.port
    ensures Busy(g, Next(g, w, a)) && Next(g, w, a).client == w.client
    ensures Mine(Next(g, w, a)) == SessionStep(g, Mine(w), a)
  {
    NextKeeps(g, w, a);
  }

  /** How many packets must still be sent before the session can move on. */
  function Distance(s: Session, k: nat): nat {
    if s.sent == k + 1 then (if k + 1 in s.down then 0 else 1)
    else if Num(k) in s.up then 0 else if s.down != [] then 1 else 2
  }

  /** The next step towards one more block. */
  function Forward(w: World, stale: seq<byte>): Action
    requires w.client.link.port in w.sessions
  {
    var s, port := Mine(w), w.client.link.port;
    if s.down != [] then ClientReads(port, stale)
    else if s.sent == Count(w.client) && s.up != [] then ServerReads(port) else Resend(port)
  }

  predicate Closer(s: Session, t: Session, k: nat) {
    || t.sent > s.sent
    || (t.sent == s.sent && (Distance(t, k) < Distance(s, k)
        || (Distance(t, k) == Distance(s, k) && (|t.down| < |s.down| || (|t.down| == |s.down| && |t.up| < |s.up|)))))
  }

  /** Each such step hands the next block over or comes closer to it. */
  lemma {:induction false} ForwardCloser(g: Setting, w: World, stale: seq<byte>)
    requires Serves(g) && Busy(g, w)
    ensures var k, w' := Count(w.client), Next(g, w, Forward(w, stale));
            && k < |g.blocks| && Inv(g, w') && !w'.client.link.phase.Requesting?
            && (w'.client.calls == w.client.calls + [CallFor(g, k, stale)]
                || (Busy(g, w') && w'.client.calls == w.client.calls && Closer(Mine(w), Mine(w'), k)))
  {
    var s, k := Mine(w), Count(w.client);
    if s.down != [] {
      ReadOwn(g, w, stale);
      assert s.up + [Num(k)] != [] && (s.up + [Num(k)])[|s.up|] == Num(k);
    } else {
      ServerStep(g, w, Forward(w, stale));
      NumDiffers(k);
    }
  }

  /** From every reachable state the next block can still get through. */
  lemma {:induction false} OneMore(g: Setting, w: World, stale: seq<byte>) returns (acts: seq<Action>)
    requires Serves(g) && Busy(g, w)
    ensures Count(w.client) < |g.blocks|
    ensures var w' := Run(g, w, acts);
            Inv(g, w') && !w'.client.link.phase.Requesting? && w'.client.calls == w.client.calls + [CallFor(g, Count(w.client), stale)]
    decreases |g.blocks| - Mine(w).sent, Distance(Mine(w), Count(w.client)), |Mine(w).down|, |Mine(w).up|
  {
    ForwardCloser(g, w, stale);
    var a := Forward(w, stale);
    var w' := Next(g, w, a);
    acts := [];
    if |w'.client.calls| == |w.client.calls| {
      acts := OneMore(g, w', stale);
    }
    RunFirst(g, w, a, acts);
    acts := [a] + acts;
  }

  /** Some server has a packet on its way to a receiver that has none yet. */
  lemma {:induction false} Approach(g: Setting, w: World) returns (a: Action, port: nat)
    requires Serves(g) && Inv(g, w) && w.client.link.phase.Requesting?
    ensures var w' := Next(g, w, a); w'.client == w.client && port in w'.sessions && w'.sessions[port].down != []
  {
    port := 0;
    a := Open(0);
    if w.sessions != map[] {
      port :| port in w.sessions;
      a := Resend(port);
    }
  }

  /** The calls of a run that was continued with one content of the receive buffer. */
  ghost predicate Continues(g: Setting, before: seq<Call>, now: seq<Call>, stale: seq<byte>) {
    before <= now && (now == before || |now| <= |g.blocks|) &&
    forall j :: |before| <= j < |now| && j < |g.blocks| ==> now[j] == CallFor(g, j, stale)
  }

  /** Getting from a first request to a server. */
  lemma {:induction false} Connect(g: Setting, w: World, stale: seq<byte>) returns (acts: seq<Action>)
    requires Serves(g) && Inv(g, w) && w.client.link.phase.Requesting?
    ensures var w' := Run(g, w, acts);
            && Inv(g, w') && !w'.client.link.phase.Requesting? && Count(w'.client) <= 1
            && Continues(g, w.client.calls, w'.client.calls, stale)
  {
    var a, port := Approach(g, w);
    var w1, read := Next(g, w, a), ClientReads(port, stale);
    NextKeeps(g, w, a);
    OwnReadKeeps(g, w1, port, stale);
    FirstRead(g, w1, port, stale);
    RunFirst(g, w1, read, []);
    assert [read] + [] == [read];
    RunFirst(g, w, a, [read]);
    acts := [a] + [read];
  }

  lemma {:induction false} FirstRead(g: Setting, w: World, port: nat, stale: seq<byte>)
    requires Serves(g) && Inv(g, w) && w.client.link.phase.Requesting? && port in w.sessions && w.sessions[port].down != []
    ensures var c := Next(g, w, ClientReads(port, stale)).client; Count(c) <= 1 && Continues(g, w.client.calls, c.calls, stale)
  {
    Receives(g, w.client, w.sessions[port].down[0], port, stale);
  }

  lemma {:induction false} Complete(g: Setting, w: World, stale: seq<byte>) returns (acts: seq<Action>)
    requires Serves(g) && Inv(g, w) && !w.client.link.phase.Requesting?
    ensures Over(Run(g, w, acts).client) && Continues(g, w.client.calls, Run(g, w, acts).client.calls, stale)
    decreases |g.blocks| - Count(w.client)
  {
    acts := [];
    if !Over(w.client) {
      var a := OneMore(g, w, stale);
      var w' := Run(g, w, a);
      var b := Complete(g, w', stale);
      RunAppend(g, w, a, b);
      ContinuesOn(g, w.client.calls, w'.client.calls, Run(g, w', b).client.calls, stale);
      acts := a + b;
    }
  }

  lemma {:induction false} ContinuesOn(g: Setting, before: seq<Call>, middle: seq<Call>, now: seq<Call>, stale: seq<byte>)
    requires |before| < |g.blocks| && middle == before + [CallFor(g, |before|, stale)] && Continues(g, middle, now, stale)
    ensures Continues(g, before, now, stale)
  {
  }

  lemma {:induction false} Conclusion(g: Setting, acts: seq<Action>, stale: seq<byte>) returns (more: seq<Action>)
    requires Serves(g)
    ensures var c := Exec(g, acts + more).client;
            Over(c) && Continues(g, Exec(g, acts).client.calls, c.calls, stale)
  {
    Reachable(g, acts);
    var w, w0 := Exec(g, acts), World(Started(g.store), map[]);
    var a: seq<Action> := [];
    if w.client.link.phase.Requesting? {
      a := Connect(g, w, stale);
    }
    var b := Complete(g, Run(g, w, a), stale);
    RunAppend(g, w, a, b);
    RunAppend(g, w0, acts, a + b);
    more := a + b;
  }

  /** Whatever was lost, repeated or sent astray so far, some continuation of the run
      completes the transfer, unless a store overruns; with a whole header in the last
      packet it completes. */
  lemma {:induction false} NeverStuck(g: Setting, acts: seq<Action>)
    requires Serves(g)
    ensures exists more :: Over(Exec(g, acts + more).client)
    ensures |Last(g)| >= HEAD_LEN ==> exists more :: !Exec(g, acts + more).client.running
  {
    var more := Conclusion(g, acts, []);
    if |Last(g)| >= HEAD_LEN {
      NeverOverruns(g, acts + more);
    }
  }

  // ---------- when a store overruns the receive buffer ----------

  ghost predicate SomeRunOverruns(g: Setting) { exists acts :: Exec(g, acts).client.store.overrun }

  /** Some earlier contents of the buffer complete a short first header to an address in the window. */
  ghost predicate CanLand(b: seq<byte>) { exists stale :: InWindow(Named(Received(b, stale))) }

  /** The address a short last packet is stored at is inside the window: the one reached
      so far, or for the first block one that its header may name. */
  ghost predicate Lands(g: Setting)
    requires Serves(g) && g.size >= HEAD_LEN
  {
    if IndexOf(|g.blocks| - 1) == 0 then CanLand(Last(g))
    else InWindow(StoreAll(g.crc, Cleared(g.store), Image(g)).addr)
  }

  /** The last call of a transfer whose last packet is short. */
  lemma {:induction false} LastShort(g: Setting, c: Client)
    requires Serves(g) && g.size >= HEAD_LEN && |Last(g)| < HEAD_LEN && StoreOk(g, c) && Count(c) == |g.blocks|
    ensures var n := |g.blocks| - 1;
            c.store.overrun <==>
              InWindow(if IndexOf(n) == 0 then Named(c.calls[n].src) else StoreAll(g.crc, Cleared(g.store), Image(g)).addr)
  {
    LastCall(g, c);
    ShortCall(g.crc, StoreAll(g.crc, Cleared(g.store), Image(g)), c.calls[|g.blocks| - 1]);
  }

  lemma {:induction false} OverrunLands(g: Setting, acts: seq<Action>)
    requires Serves(g) && g.size >= HEAD_LEN && Exec(g, acts).client.store.overrun
    ensures |Last(g)| < HEAD_LEN && Lands(g)
  {
    var c, n := Exec(g, acts).client, |g.blocks| - 1;
    StoredInOrder(g, acts);
    StoredBlocks(g, acts);
    assert Count(c) == |g.blocks|;
    LastShort(g, c);
    if IndexOf(n) == 0 {
      var src := c.calls[n].src;
      assert g.blocks[..n + 1][n] == Last(g) && src[..|Last(g)|] == Last(g);
      SameBuffer(src, Last(g));
    }
  }

  lemma {:induction false} SameBuffer(src: Buffer, b: seq<byte>)
    requires |b| <= ROOM && src[..|b|] == b
    ensures Received(b, src) == src
  {
    forall i | 0 <= i < ROOM
      ensures Received(b, src)[i] == src[i]
    {
      if i < |b| {
        assert src[..|b|][i] == b[i];
      }
    }
  }

  lemma {:induction false} LandingOverruns(g: Setting)
    requires Serves(g) && g.size >= HEAD_LEN && |Last(g)| < HEAD_LEN && Lands(g)
    ensures SomeRunOverruns(g)
  {
    var n := |g.blocks| - 1;
    var stale: seq<byte> := [];
    if IndexOf(n) == 0 {
      stale :| InWindow(Named(Received(Last(g), stale)));
    }
    var more := Conclusion(g, [], stale);
    assert [] + more == more;
    StoredInOrder(g, more);
    LandedOverruns(g, Exec(g, more).client, stale);
  }

  /** A transfer that has come to its end from buffers with these contents has overrun. */
  lemma {:induction false} LandedOverruns(g: Setting, c: Client, stale: seq<byte>)
    requires Serves(g) && g.size >= HEAD_LEN && |Last(g)| < HEAD_LEN && Lands(g) && StoreOk(g, c)
    requires !c.store.overrun ==> Count(c) == |g.blocks| && c.calls[|g.blocks| - 1] == CallFor(g, |g.blocks| - 1, stale)
    requires IndexOf(|g.blocks| - 1) == 0 ==> InWindow(Named(Received(Last(g), stale)))
    ensures c.store.overrun
  {
    if !c.store.overrun {
      LastShort(g, c);
    }
  }

  /** With room for a header in every block but the last, some run overruns exactly when
      the last packet is too short for one and its address is inside the window. */
  lemma {:induction false} WholeBlocksIff(g: Setting)
    requires Serves(g) && g.size >= HEAD_LEN
    ensures SomeRunOverruns(g) <==> |Last(g)| < HEAD_LEN && Lands(g)
  {
    if SomeRunOverruns(g) {
      var acts :| Exec(g, acts).client.store.overrun;
      OverrunLands(g, acts);
    }
    if |Last(g)| < HEAD_LEN && Lands(g) {
      LandingOverruns(g);
    }
  }

  /** Some packet with number 1, the first or one after the numbers wrapped, can name an
      address in the window. */
  ghost predicate SomeStartLands(g: Setting) {
    exists i :: 0 <= i < |g.blocks| && IndexOf(i) == 0 && CanLand(g.blocks[i])
  }

  /** What a caller can check: with blocks of at least a header it is the last packet that
      decides, with smaller ones the packets that carry number 1. */
  ghost predicate AtRisk(g: Setting)
    requires Serves(g)
  {
    if g.size >= HEAD_LEN then |Last(g)| < HEAD_LEN && Lands(g) else SomeStartLands(g)
  }

  /** Some run overruns the receive buffer exactly when the setting is at risk, for every
      block size. */
  lemma {:induction false} OverrunIff(g: Setting)
    requires Serves(g)
    ensures SomeRunOverruns(g) <==> AtRisk(g)
  {
    if g.size >= HEAD_LEN {
      WholeBlocksIff(g);
    } else {
      SmallBlocksIff(g);
    }
  }

  lemma {:induction false} SmallBlocksIff(g: Setting)
    requires Serves(g) && g.size < HEAD_LEN
    ensures SomeRunOverruns(g) <==> SomeStartLands(g)
  {
    if SomeRunOverruns(g) {
      var acts :| Exec(g, acts).client.store.overrun;
      SmallOverrunLands(g, acts);
    }
    if SomeStartLands(g) {
      var i :| 0 <= i < |g.blocks| && IndexOf(i) == 0 && CanLand(g.blocks[i]);
      SmallLandingOverruns(g, i);
    }
  }

  lemma {:induction false} SmallOverrunLands(g: Setting, acts: seq<Action>)
    requires Serves(g) && g.size < HEAD_LEN && Exec(g, acts).client.store.overrun
    ensures SomeStartLands(g)
  {
    var c := Exec(g, acts).client;
    StoredInOrder(g, acts);
    SmallCalls(g, c);
    ShortCalls(g.crc, Cleared(g.store), c.calls);
    var i :| 0 <= i < |c.calls| && Restarts(c.calls[i]);
    assert c.calls[i].src[..|g.blocks[..Count(c)][i]|] == g.blocks[..Count(c)][i];
    SameBuffer(c.calls[i].src, g.blocks[i]);
    assert IndexOf(i) == 0 && CanLand(g.blocks[i]);
  }

  lemma {:induction false} SmallCalls(g: Setting, c: Client)
    requires Serves(g) && g.size < HEAD_LEN && StoreOk(g, c)
    ensures AllShort(c.calls) && (c.calls != [] ==> c.calls[0].index == 0)
  {
    forall i | 0 <= i < |c.calls|
      ensures c.calls[i].len < HEAD_LEN
    {
      assert c.calls[i].len == |g.blocks[..Count(c)][i]|;
      BlockLength(g, i);
    }
    IndexFirst(0);
  }

  lemma {:induction false} SmallLandingOverruns(g: Setting, i: nat)
    requires Serves(g) && g.size < HEAD_LEN && i < |g.blocks| && IndexOf(i) == 0 && CanLand(g.blocks[i])
    ensures SomeRunOverruns(g)
  {
    var stale :| InWindow(Named(Received(g.blocks[i], stale)));
    var more := Conclusion(g, [], stale);
    assert [] + more == more;
    var c := Exec(g, more).client;
    StoredInOrder(g, more);
    if !c.store.overrun {
      SmallCalls(g, c);
      assert c.calls[i] == CallFor(g, i, stale);
      RestartOverruns(g.crc, Cleared(g.store), c.calls, i);
    }
  }

  /** For an image that ends inside the window no store of any run overruns exactly when
      the last packet has at least 24 bytes. */
  lemma {:induction false} ImageOverrunIff(g: Setting)
    requires Serves(g) && g.size >= HEAD_LEN && Numbered(Image(g)) && Fits(Image(g)) && At(Image(g), |Image(g)|) < WINDOW_HIGH
    ensures (forall acts :: !Exec(g, acts).client.store.overrun) <==> |Last(g)| >= HEAD_LEN
  {
    OverrunIff(g);
    if |Last(g)| < HEAD_LEN {
      var n := |Image(g)|;
      AddrAfter(g.crc, Cleared(g.store), Image(g));
      NumberedShort(Image(g));
      IndexFirst(n);
      assert SomeRunOverruns(g);
    }
  }

  function Word24(b0: byte, b1: byte, b2: byte): nat { (b0 as int) + 256 * ((b1 as int) + 256 * (b2 as int)) }

  lemma {:induction false} NamedAddress(x: Buffer)
    ensures Named(x) == Word24(x[20], x[21], x[22]) + 0x100_0000 * (x[23] as int)
  {
    var w := x[20..24];
    assert w[0] == x[20] && w[1] == x[21] && w[2] == x[22] && w[3] == x[23];
  }

  lemma {:induction false} LandsOnlyIf(b: seq<byte>, t: seq<byte>)
    requires |b| == 23 && InWindow(Named(Received(b, t)))
    ensures InWindow(Word24(b[20], b[21], b[22]))
  {
    var x := Received(b, t);
    NamedAddress(x);
    assert x[20] == b[20] && x[21] == b[21] && x[22] == b[22];
    TopByte(Word24(x[20], x[21], x[22]), x[23]);
  }

  lemma {:induction false} TopByte(w: nat, top: byte)
    requires InWindow(w + 0x100_0000 * (top as int))
    ensures top == 0 && InWindow(w)
  {
  }

  lemma {:induction false} LandsIf(b: seq<byte>)
    requires |b| <= 22 || (|b| == 23 && InWindow(Word24(b[20], b[21], b[22])))
    ensures CanLand(b)
  {
    var stale: seq<byte> := seq(ROOM, i => if i == 22 then 16 else 0);
    var x := Received(b, stale);
    NamedAddress(x);
    assert x[23] == 0 && (|b| <= 22 ==> x[22] == 16);
    assert InWindow(Named(Received(b, stale)));
  }

  /** Which short packets can name an address in the window with bytes left over behind them. */
  lemma {:induction false} CanLandIff(b: seq<byte>)
    requires |b| < HEAD_LEN
    ensures CanLand(b) <==> |b| <= 22 || InWindow(Word24(b[20], b[21], b[22]))
  {
    if CanLand(b) && |b| == 23 {
      var t :| InWindow(Named(Received(b, t)));
      LandsOnlyIf(b, t);
    }
    if |b| <= 22 || InWindow(Word24(b[20], b[21], b[22])) {
      LandsIf(b);
    }
  }

  /** An image of exactly one default-sized block: RFC 1350 ends it with an empty packet,
      and a run of the transfer overruns. */
  lemma {:induction false} ExactMultipleOverruns(f: Crc, st: Store)
    ensures var g := Setting(f, SampleImage(1, 488, true) + [[]], false, false, DEFAULT_SIZE, st);
            Serves(g) && SomeRunOverruns(g)
  {
    var bs := SampleImage(1, 488, true);
    var g := Setting(f, bs + [[]], false, false, DEFAULT_SIZE, st);
    NineTimes();
    SampleMeets(1, 488, true);
    assert |bs[0]| == DEFAULT_SIZE;
    assert Image(g) == bs;
    ImageOverrunIff(g);
  }

  // ---------- more than 65536 blocks ----------

  /** Some run has handed over exactly `k` packets. */
  lemma {:induction false} Reach(g: Setting, k: nat) returns (acts: seq<Action>)
    requires Serves(g) && |Last(g)| >= HEAD_LEN && k <= |g.blocks|
    ensures Count(Exec(g, acts).client) == k
    decreases k
  {
    acts := [];
    if k > 0 {
      acts := Reach(g, k - 1);
      Reachable(g, acts);
      NeverOverruns(g, acts);
      var w := Exec(g, acts);
      var more: seq<Action> := [];
      if w.client.link.phase.Requesting? {
        more := Connect(g, w, []);
      }
      RunAppend(g, World(Started(g.store), map[]), acts, more);
      acts := acts + more;
      NeverOverruns(g, acts);
      w := Exec(g, acts);
      if Count(w.client) < k {
        more := OneMore(g, w, []);
        RunAppend(g, World(Started(g.store), map[]), acts, more);
        acts := acts + more;
      }
    }
  }

  /** Block 65537 has number 1 again: some run stores it at the address its header names,
      like a first block, and goes on from there with a fresh CRC. */
  lemma {:induction false} NumberWraps(g: Setting)
    requires Serves(g) && |Last(g)| >= HEAD_LEN && |g.blocks| > 0x1_0000
    requires InWindow(HeadOf(Image(g)[0x1_0000]).os1Addr)
    ensures exists acts :: var c := Exec(g, acts).client; var b := Image(g)[0x1_0000];
              Count(c) == 0x1_0001 && c.store.addr == HeadOf(b).os1Addr + |b| - HEAD_LEN
  {
    var acts := Reach(g, 0x1_0001);
    StoredBlocks(g, acts);
    var bs := Image(g)[..0x1_0001];
    assert bs[..0x1_0000] == Image(g)[..0x1_0000];
    RestartsAt(g.crc, StoreAll(g.crc, Cleared(g.store), bs[..0x1_0000]), bs[0x1_0000]);
    assert Count(Exec(g, acts).client) == 0x1_0001;
  }

  lemma {:induction false} RestartsAt(f: Crc, st: Store, b: Block)
    requires InWindow(HeadOf(b).os1Addr)
    ensures StoreBlock(f, st, IndexOf(0x1_0000), b).addr == HeadOf(b).os1Addr + |b| - HEAD_LEN
  {
    assert IndexOf(0x1_0000) == 0;
  }
}
