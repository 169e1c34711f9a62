/** The protocol between rpm-fake.so (the client) and rpm-fake-resolver (the server): a byte
    stream in each direction, and a pipe on which the server offers one token per command. */
module Resolver {
  import opened FileSystem

  const MAX_RQSIZE := 0x1000
  const DOT: Byte := 46
  const QUESTION: Byte := 63
  const CLOSE: Byte := 67   // 'C'
  const GROUP: Byte := 71   // 'G'
  const PASSWD: Byte := 80  // 'P'
  const QUIT: Byte := 81    // 'Q'

  // ---- numbers on the wire ----

  type U32 = n: nat | n < 0x1_0000_0000

  /** The four bytes of an uint32_t; both processes run on one machine. */
  function Bytes(n: U32): (s: seq<Byte>)
    ensures |s| == 4
  {
    [n % 256, n / 256 % 256, n / 256 / 256 % 256, n / 256 / 256 / 256]
  }

  function Number(s: seq<Byte>): (n: U32)
    requires |s| == 4
  {
    var a: int, b: int, c: int, d: int := s[0], s[1], s[2], s[3];
    a + 256 * (b + 256 * (c + 256 * d))
  }

  lemma NumberReads(n: U32)
    ensures Number(Bytes(n)) == n
  {
  }

  // ---- requests and answers ----

  datatype Style = Passwd | Group

  datatype Request = Request(style: Style, name: seq<Byte>)

  /** What the name service says: an id, or nothing. */
  datatype Answer = Found(id: U32) | Unknown

  type Service = Request -> Answer

  datatype Reply = Reply(code: Byte, result: U32)

  function ReplyOf(a: Answer): Reply {
    match a
    case Found(id) => Reply(1, id)
    case Unknown => Reply(0, 0xffff_ffff)
  }

  /** What getpwnam or getgrnam makes of a reply for its caller. */
  function CallerGets(reply: Reply): Answer {
    if reply.code != 0 then Found(reply.result) else Unknown
  }

  /** The caller gets what the name service said. */
  lemma ReplyReads(a: Answer)
    ensures var reply := ReplyOf(a);
      && CallerGets(reply) == a && (reply.code == 0 || reply.code == 1)
      && (reply.code == 0 ==> reply.result == 0xffff_ffff)
  {
  }

  function StyleByte(style: Style): Byte {
    if style == Passwd then PASSWD else GROUP
  }

  function Header(rq: Request): seq<Byte>
    requires |rq.name| < 0x1_0000_0000
  {
    [StyleByte(rq.style)] + Bytes(|rq.name|)
  }

  // ---- the two processes ----

  /** What the program around rpm-fake.so does: look names up, and close a database. */
  datatype Op = Lookup(rq: Request) | EndEnt(what: Byte)

  /** The client, by its next system call. */
  datatype Client =
    | ReadCtx | ReadToken0 | WriteHello | ReadHello
    | Idle
    | ReadToken(rq: Request) | WriteStyle(rq: Request) | WriteLen(rq: Request) | WriteName(rq: Request)
    | ReadCode(rq: Request) | ReadResult(rq: Request, code: Byte)
    | WriteClose(what: Byte)
    | ReadTokenExit | WriteQuit | Gone
    | Failed

  /** The server, by its next system call; `got` is what EreadAll has collected. */
  datatype Server =
    | WriteCtx | WriteToken | ReadCmd
    | ReadLen(style: Style, got: seq<Byte>) | ReadName(style: Style, len: nat, got: seq<Byte>)
    | SendCode(reply: Reply) | SendResult(result: U32)
    | ReadWhat | SendHello | SendUnknown | Exited

  /** `log` records the replies that the client has accepted, `closes` how many 'C' commands the
      server has processed, `queued` those it has not yet finished. */
  datatype State = State(client: Client, server: Server, todo: seq<Op>,
                         c2s: seq<Byte>, s2c: seq<Byte>, sync: seq<Byte>,
                         log: seq<(Request, Reply)>, queued: seq<Byte>, closes: nat)

  function Initial(todo: seq<Op>): State {
    State(ReadCtx, WriteCtx, todo, [], [], [], [], [], 0)
  }

  predicate ClientReadsSync(c: Client) {
    c.ReadCtx? || c.ReadToken0? || c.ReadToken? || c.ReadTokenExit?
  }

  predicate ClientReadsReply(c: Client) {
    c.ReadHello? || c.ReadCode? || c.ReadResult?
  }

  /** read(2) waits for the first byte. */
  predicate ClientBlocked(s: State) {
    (ClientReadsSync(s.client) && s.sync == []) || (ClientReadsReply(s.client) && s.s2c == [])
  }

  predicate CurrentOk(c: Client) {
    (c.WriteStyle? || c.WriteLen? || c.WriteName? || c.ReadToken? || c.ReadCode? || c.ReadResult?) ==>
      |c.rq.name| < 0x1_0000_0000
  }

  /** One system call of the client. */
  function ClientNext(s: State): State
    requires !ClientBlocked(s) && CurrentOk(s.client)
  {
    match s.client
    case ReadCtx => if |s.sync| < 4 then s.(client := Failed) else s.(client := ReadToken0, sync := s.sync[4..])
    case ReadToken0 => s.(client := WriteHello, sync := s.sync[1..])
    case WriteHello => s.(client := ReadHello, c2s := s.c2s + [DOT])
    case ReadHello => s.(client := if s.s2c[0] == DOT then Idle else Failed, s2c := s.s2c[1..])
    case Idle =>
      if s.todo == [] then s.(client := ReadTokenExit)
      else var next := if s.todo[0].Lookup? then ReadToken(s.todo[0].rq) else WriteClose(s.todo[0].what);
        s.(client := next, todo := s.todo[1..])
    case ReadToken(rq) => s.(client := WriteStyle(rq), sync := s.sync[1..])
    case WriteStyle(rq) => s.(client := WriteLen(rq), c2s := s.c2s + [StyleByte(rq.style)])
    case WriteLen(rq) => s.(client := WriteName(rq), c2s := s.c2s + Bytes(|rq.name|))
    case WriteName(rq) => s.(client := ReadCode(rq), c2s := s.c2s + rq.name)
    case ReadCode(rq) => s.(client := ReadResult(rq, s.s2c[0]), s2c := s.s2c[1..])
    case ReadResult(rq, code) =>
      if |s.s2c| < 4 then s.(client := Failed)
      else s.(client := Idle, s2c := s.s2c[4..], log := s.log + [(rq, Reply(code, Number(s.s2c[..4])))])
    case WriteClose(what) => s.(client := Idle, c2s := s.c2s + [CLOSE, what], queued := s.queued + [what])
    case ReadTokenExit => s.(client := WriteQuit, sync := s.sync[1..])
    case WriteQuit => s.(client := Gone, c2s := s.c2s + [QUIT])
    case Gone => s
    case Failed => s
  }

  predicate ServerReads(v: Server) {
    v.ReadCmd? || v.ReadLen? || v.ReadName? || v.ReadWhat?
  }

  predicate ServerBlocked(s: State) {
    s.server.Exited? || (ServerReads(s.server) && s.c2s == [])
  }

  /** How many bytes a read returns: at least one, at most what is wanted and what is there. */
  function ReadSize(k: nat, wanted: nat, there: nat): (n: nat)
    requires wanted > 0 && there > 0
    ensures 0 < n <= wanted && n <= there && (0 < k <= wanted && k <= there ==> n == k)
  {
    if 0 < k <= wanted && k <= there then k else 1
  }

  /** With the name complete, the server looks it up. */
  function Answered(nss: Service, style: Style, name: seq<Byte>): Server {
    SendCode(ReplyOf(nss(Request(style, name))))
  }

  predicate ServerOk(v: Server) {
    (v.ReadLen? ==> |v.got| < 4) && (v.ReadName? ==> |v.got| < v.len)
  }

  /** One system call of the server, where a read returns `k` bytes if it can. */
  function ServerNext(nss: Service, s: State, k: nat): State
    requires !ServerBlocked(s) && ServerOk(s.server)
  {
    match s.server
    case WriteCtx => s.(server := WriteToken, sync := s.sync + [0, 0, 0, 0])
    case WriteToken => s.(server := ReadCmd, sync := s.sync + [DOT])
    case ReadCmd =>
      var c := s.c2s[0];
      var next := if c == PASSWD then ReadLen(Passwd, []) else if c == GROUP then ReadLen(Group, [])
                  else if c == QUIT then Exited else if c == CLOSE then ReadWhat
                  else if c == DOT then SendHello else SendUnknown;
      s.(server := next, c2s := s.c2s[1..])
    case ReadLen(style, got) =>
      var n := ReadSize(k, 4 - |got|, |s.c2s|);
      var got' := got + s.c2s[..n];
      var next := if |got'| < 4 then ReadLen(style, got')
                  else if Number(got') >= MAX_RQSIZE then WriteToken
                  else if Number(got') == 0 then Answered(nss, style, [])
                  else ReadName(style, Number(got'), []);
      s.(server := next, c2s := s.c2s[n..])
    case ReadName(style, len, got) =>
      var n := ReadSize(k, len - |got|, |s.c2s|);
      var got' := got + s.c2s[..n];
      s.(server := if |got'| < len then ReadName(style, len, got') else Answered(nss, style, got'), c2s := s.c2s[n..])
    case SendCode(reply) => s.(server := SendResult(reply.result), s2c := s.s2c + [reply.code])
    case SendResult(result) => s.(server := WriteToken, s2c := s.s2c + Bytes(result))
    case ReadWhat =>
      s.(server := WriteToken, c2s := s.c2s[1..], closes := s.closes + 1,
         queued := if s.queued == [] then [] else s.queued[1..])
    case SendHello => s.(server := WriteToken, s2c := s.s2c + [DOT])
    case SendUnknown => s.(server := WriteToken, s2c := s.s2c + [QUESTION])
  }

  // ---- what holds in every state ----

  /** Shorter than MAX_RQSIZE. */
  predicate ShortName(rq: Request) {
    |rq.name| < 0x1000
  }

  function Requests(ops: seq<Op>): seq<Request> {
    if ops == [] then [] else (if ops[0].Lookup? then [ops[0].rq] else []) + Requests(ops[1..])
  }

  function LoggedRequests(log: seq<(Request, Reply)>): seq<Request> {
    seq(|log|, i requires 0 <= i < |log| => log[i].0)
  }

  predicate InRequest(c: Client) {
    c.ReadToken? || c.WriteStyle? || c.WriteLen? || c.WriteName? || c.ReadCode? || c.ReadResult?
  }

  function Current(c: Client): seq<Request> {
    if InRequest(c) then [c.rq] else []
  }

  /** The bytes of the client's current command that it has written. */
  function Sent(c: Client): seq<Byte>
    requires CurrentOk(c)
  {
    match c
    case ReadHello => [DOT]
    case WriteLen(rq) => [StyleByte(rq.style)]
    case WriteName(rq) => Header(rq)
    case ReadCode(rq) => Header(rq) + rq.name
    case ReadResult(rq, _) => Header(rq) + rq.name
    case Gone => [QUIT]
    case _ => []
  }

  /** The bytes of the client's current command that the server is holding. */
  function Held(v: Server): seq<Byte> {
    match v
    case ReadLen(style, got) => [StyleByte(style)] + got
    case ReadName(style, len, got) => if len < 0x1_0000_0000 then [StyleByte(style)] + Bytes(len) + got else []
    case _ => []
  }

  /** The whole request is written; an empty name has no bytes to write. */
  predicate Asked(c: Client) {
    c.ReadCode? || (c.WriteName? && c.rq.name == [])
  }

  /** The server has taken the whole of the client's current command. */
  predicate Consumed(s: State) {
    if s.client.ReadHello? then s.server.SendHello? || s.s2c != []
    else if Asked(s.client) then s.server.SendCode? || s.server.SendResult? || s.s2c != []
    else s.client.ReadResult? || (s.client.Gone? && s.server.Exited?)
  }

  function Closes(queued: seq<Byte>): seq<Byte> {
    if queued == [] then [] else [CLOSE, queued[0]] + Closes(queued[1..])
  }

  /** The command stream: what the server still has to read is the commands that close a
      database, in order, and then the client's current command. */
  ghost predicate CommandStream(s: State)
    requires CurrentOk(s.client)
  {
    if s.server.ReadLen? || s.server.ReadName? then
      && s.queued == [] && !Consumed(s) && Held(s.server) + s.c2s == Sent(s.client)
      && InRequest(s.client) && s.server.style == s.client.rq.style
      && (s.server.ReadName? ==> s.server.len == |s.client.rq.name|)
    else
      var rest := Closes(s.queued) + (if Consumed(s) then [] else Sent(s.client));
      && (Consumed(s) ==> s.queued == [])
      && (if s.server.ReadWhat? then s.queued != [] && s.c2s == rest[1..] else s.c2s == rest)
  }

  /** The reply stream holds exactly the unread part of the answer to the current request. */
  ghost predicate ReplyStream(nss: Service, s: State) {
    if s.client.ReadHello? then
      && !s.server.SendCode? && !s.server.SendResult? && !s.server.SendUnknown?
      && (s.server.SendHello? ==> s.s2c == []) && (s.s2c == [] || s.s2c == [DOT])
    else if Asked(s.client) then
      var reply := ReplyOf(nss(s.client.rq));
      && !s.server.SendHello? && !s.server.SendUnknown?
      && (s.server.SendCode? ==> s.server.reply == reply && s.s2c == [])
      && (s.server.SendResult? ==> s.server.result == reply.result && s.s2c == [reply.code])
      && (!s.server.SendResult? ==> s.s2c == [] || s.s2c == [reply.code] + Bytes(reply.result))
    else if s.client.ReadResult? then
      var reply := ReplyOf(nss(s.client.rq));
      && !s.server.SendHello? && !s.server.SendUnknown? && !s.server.SendCode? && s.client.code == reply.code
      && (if s.server.SendResult? then s.server.result == reply.result && s.s2c == []
          else s.s2c == Bytes(reply.result))
    else
      && !s.server.SendHello? && !s.server.SendUnknown? && !s.server.SendCode? && !s.server.SendResult?
      && s.s2c == []
  }

  predicate HoldsToken(c: Client) {
    c.WriteHello? || c.ReadHello? || c.WriteStyle? || c.WriteLen? || c.WriteName? || c.ReadCode? || c.ReadResult?
    || c.WriteQuit? || c.Gone?
  }

  /** The client has taken a token for a command that the server has not finished. */
  predicate InFlight(s: State) {
    HoldsToken(s.client) &&
    (Consumed(s) ==> s.server.SendHello? || s.server.SendCode? || s.server.SendResult? || s.server.Exited?)
  }

  /** The server has offered the token for the command that it waits for or works on. */
  predicate Offered(v: Server) {
    !v.WriteCtx? && !v.WriteToken?
  }

  /** Tokens are conserved: those unread, with the one that the client holds, are one for each
      closed database and one for the server's next command. */
  ghost predicate Tokens(s: State) {
    var unread := if s.client.ReadCtx? && !s.server.WriteCtx? then |s.sync| - 4 else |s.sync|;
    && (s.client.ReadCtx? && s.server.WriteCtx? ==> s.sync == [])
    && (s.server.WriteCtx? ==> s.client.ReadCtx?)
    && unread + (if InFlight(s) then 1 else 0) == s.closes + (if Offered(s.server) then 1 else 0)
    && (s.server.Exited? ==> s.client.Gone?)
    && (s.client.ReadCtx? || s.client.ReadToken0? || s.client.WriteHello? ==> s.closes == 0 && s.queued == [])
  }

  ghost predicate LogRight(nss: Service, log: seq<(Request, Reply)>) {
    forall i :: 0 <= i < |log| ==> log[i].1 == ReplyOf(nss(log[i].0))
  }

  ghost predicate ShortNames(s: State) {
    (InRequest(s.client) ==> ShortName(s.client.rq))
    && forall i :: 0 <= i < |s.todo| ==> s.todo[i].Lookup? ==> ShortName(s.todo[i].rq)
  }

  ghost predicate Inv(nss: Service, program: seq<Op>, s: State) {
    && ShortNames(s) && CurrentOk(s.client) && ServerOk(s.server) && !s.client.Failed?
    && CommandStream(s) && ReplyStream(nss, s) && Tokens(s) && LogRight(nss, s.log)
    && Order(s) == Requests(program)
  }

  lemma InitialInv(nss: Service, program: seq<Op>)
    requires forall i :: 0 <= i < |program| ==> program[i].Lookup? ==> ShortName(program[i].rq)
    ensures Inv(nss, program, Initial(program))
  {
  }

  // ---- the client keeps it ----

  lemma {:induction false} ClosesAppend(queued: seq<Byte>, what: Byte)
    ensures Closes(queued + [what]) == Closes(queued) + [CLOSE, what]
  {
    if queued != [] {
      ClosesAppend(queued[1..], what);
      assert (queued + [what])[1..] == queued[1..] + [what];
    }
  }

  /** Writing the next part of the current command. */
  lemma AppendKeepsCommands(s: State, t: State, w: seq<Byte>)
    requires CurrentOk(s.client) && CurrentOk(t.client) && CommandStream(s) && !Consumed(s) && !Consumed(t)
    requires t == s.(client := t.client, c2s := s.c2s + w) && Sent(t.client) == Sent(s.client) + w
    requires InRequest(s.client) ==> InRequest(t.client) && t.client.rq == s.client.rq
    ensures CommandStream(t)
  {
    hide Consumed, Sent, Bytes;
    if s.server.ReadLen? || s.server.ReadName? {
      assert Held(s.server) + (s.c2s + w) == Held(s.server) + s.c2s + w;
    } else {
      var rest := Closes(s.queued) + Sent(s.client);
      assert Closes(s.queued) + Sent(t.client) == rest + w;
      if s.server.ReadWhat? { assert (rest + w)[1..] == rest[1..] + w; }
    }
  }

  lemma CloseKeepsCommands(s: State)
    requires CurrentOk(s.client) && CommandStream(s) && s.client.WriteClose?
    ensures CommandStream(ClientNext(s))
  {
    hide Bytes, Held;
    ClosesAppend(s.queued, s.client.what);
    var rest := Closes(s.queued);
    assert rest + Sent(s.client) == rest;
    var w := [CLOSE, s.client.what];
    assert rest + w + [] == rest + w;
    if s.server.ReadWhat? { assert (rest + w)[1..] == rest[1..] + w; }
  }

  /** A call that does not write keeps the stream if the current command is untouched or over. */
  lemma ReadKeepsCommands(s: State, t: State)
    requires CurrentOk(s.client) && CurrentOk(t.client) && CommandStream(s)
    requires t.server == s.server && t.c2s == s.c2s && t.queued == s.queued
    requires || (!Consumed(s) && !Consumed(t) && Sent(s.client) == Sent(t.client) && !InRequest(s.client))
             || (!Consumed(s) && !Consumed(t) && s.client.ReadToken? && t.client == WriteStyle(s.client.rq))
             || (Consumed(s) && Consumed(t))
             || (Consumed(s) && !Consumed(t) && Sent(t.client) == [])
    ensures CommandStream(t)
  {
  }

  lemma ClientKeepsCommands(nss: Service, s: State)
    requires CurrentOk(s.client) && !ClientBlocked(s) && CommandStream(s) && ReplyStream(nss, s) && !s.client.Failed?
    requires ShortNames(s) && (s.server.Exited? ==> s.client.Gone?)
    ensures CurrentOk(ClientNext(s).client) && CommandStream(ClientNext(s))
  {
    hide Bytes, Number, CommandStream;
    var t := ClientNext(s);
    match s.client
    case WriteHello => AppendKeepsCommands(s, t, [DOT]);
    case WriteStyle(rq) => AppendKeepsCommands(s, t, [StyleByte(rq.style)]);
    case WriteLen(rq) => AppendKeepsCommands(s, t, Bytes(|rq.name|));
    case WriteName(rq) =>
      assert s.c2s + [] == s.c2s && Header(rq) + [] == Header(rq);
      if Consumed(s) { ReadKeepsCommands(s, t); } else { AppendKeepsCommands(s, t, rq.name); }
    case WriteQuit => AppendKeepsCommands(s, t, [QUIT]);
    case WriteClose(_) => CloseKeepsCommands(s);
    case Gone =>
    case _ => ReadKeepsCommands(s, t);
  }

  lemma ClientKeepsReplies(nss: Service, s: State)
    requires CurrentOk(s.client) && !ClientBlocked(s) && CommandStream(s) && ReplyStream(nss, s) && Tokens(s)
    requires !s.client.Failed?
    ensures ReplyStream(nss, ClientNext(s)) && !ClientNext(s).client.Failed?
  {
    hide Number, Bytes, Closes, Held;
  }

  lemma ClientKeepsTokens(nss: Service, s: State)
    requires CurrentOk(s.client) && !ClientBlocked(s) && CommandStream(s) && ReplyStream(nss, s) && Tokens(s)
    requires !s.client.Failed?
    ensures Tokens(ClientNext(s))
  {
    hide Tokens, ClientNext, CommandStream, ReplyStream;
    if ClientReadsSync(s.client) { TakingTokenKeeps(nss, s); } else { OtherCallKeepsTokens(nss, s); }
  }

  lemma OtherCallKeepsTokens(nss: Service, s: State)
    requires CurrentOk(s.client) && !ClientReadsSync(s.client) && !ClientBlocked(s) && !s.client.Failed?
    requires CommandStream(s) && ReplyStream(nss, s) && Tokens(s)
    ensures Tokens(ClientNext(s))
  {
    hide Number, Bytes, Closes, Held;
  }

  lemma TakingTokenKeeps(nss: Service, s: State)
    requires CurrentOk(s.client) && ClientReadsSync(s.client) && s.sync != []
    requires CommandStream(s) && ReplyStream(nss, s) && Tokens(s)
    ensures Tokens(ClientNext(s))
  {
    hide Number, Bytes, Closes, Held;
  }

  lemma ClientKeepsLog(nss: Service, s: State)
    requires CurrentOk(s.client) && !ClientBlocked(s) && ReplyStream(nss, s) && ShortNames(s) && LogRight(nss, s.log)
    ensures ShortNames(ClientNext(s)) && LogRight(nss, ClientNext(s).log)
  {
    if s.client.ReadResult? {
      var reply := ReplyOf(nss(s.client.rq));
      NumberReads(reply.result);
      hide Bytes, Number;
      assert s.s2c[..4] == Bytes(reply.result);
      assert Reply(s.client.code, reply.result) == reply;
    } else {
      hide ReplyStream, Bytes, Number;
    }
  }

  /** Requests that are logged, current or to come: their order never changes. */
  function Order(s: State): seq<Request> {
    LoggedRequests(s.log) + (Current(s.client) + Requests(s.todo))
  }

  lemma ClientKeepsOrder(s: State)
    requires CurrentOk(s.client) && !ClientBlocked(s) && !ClientNext(s).client.Failed?
    ensures Order(ClientNext(s)) == Order(s)
  {
    hide Bytes, Number;
    var t := ClientNext(s);
    if s.client.ReadResult? {
      assert LoggedRequests(t.log) == LoggedRequests(s.log) + [s.client.rq];
    } else if s.client.Idle? && s.todo != [] {
      assert Requests(s.todo) == Current(t.client) + Requests(t.todo);
    } else {
      assert Current(t.client) == Current(s.client);
    }
  }

  lemma ClientKeepsInv(nss: Service, program: seq<Op>, s: State)
    requires Inv(nss, program, s) && !ClientBlocked(s)
    ensures Inv(nss, program, ClientNext(s))
  {
    ClientKeepsCommands(nss, s);
    ClientKeepsReplies(nss, s);
    ClientKeepsTokens(nss, s);
    ClientKeepsLog(nss, s);
    ClientKeepsOrder(s);
    hide Tokens, Closes, Held, CommandStream, ReplyStream, Order;
  }

  // ---- the server keeps it ----

  lemma CmdKeepsCommands(nss: Service, s: State, k: nat)
    requires CurrentOk(s.client) && s.server.ReadCmd? && s.c2s != []
    requires CommandStream(s) && ReplyStream(nss, s)
    ensures CommandStream(ServerNext(nss, s, k)) && ReplyStream(nss, ServerNext(nss, s, k))
    ensures ServerOk(ServerNext(nss, s, k).server)
    ensures ServerNext(nss, s, k).server.Exited? ==> s.client.Gone?
  {
    if s.queued == [] {
      RequestCmdKeeps(nss, s, k);
    } else {
      hide Bytes, Sent, Number;
      assert s.c2s[0] == CLOSE;
    }
  }

  lemma RequestCmdKeeps(nss: Service, s: State, k: nat)
    requires CurrentOk(s.client) && s.server.ReadCmd? && s.c2s != [] && s.queued == []
    requires CommandStream(s) && ReplyStream(nss, s)
    ensures CommandStream(ServerNext(nss, s, k)) && ReplyStream(nss, ServerNext(nss, s, k))
    ensures ServerOk(ServerNext(nss, s, k).server)
    ensures ServerNext(nss, s, k).server.Exited? ==> s.client.Gone?
  {
    hide Bytes, Number;
    RequestCmdStarts(s);
    var t := ServerNext(nss, s, k);
    assert Closes([]) == [] && [] + Sent(s.client) == Sent(s.client);
    hide Closes, Sent;
    if t.server.ReadLen? { assert Held(t.server) + t.c2s == s.c2s; }
    assert Closes(t.queued) + [] == [];
  }

  /** What the server reads is the first byte of the client's command. */
  lemma RequestCmdStarts(s: State)
    requires CurrentOk(s.client) && s.server.ReadCmd? && s.c2s != [] && s.queued == [] && CommandStream(s)
    ensures !Consumed(s) && s.c2s == Sent(s.client)
    ensures match s.client
            case ReadHello => s.c2s == [DOT]
            case WriteLen(rq) => s.c2s == [StyleByte(rq.style)]
            case WriteName(rq) => s.c2s[0] == StyleByte(rq.style)
            case ReadCode(rq) => s.c2s[0] == StyleByte(rq.style)
            case Gone => s.c2s == [QUIT]
            case _ => false
  {
  }

  /** What a complete length field says. */
  lemma LenIsRight(s: State, n: nat)
    requires CurrentOk(s.client) && s.server.ReadLen? && CommandStream(s) && 0 < n <= |s.c2s| && |s.server.got| + n == 4
    ensures (s.client.WriteName? || s.client.ReadCode?) && s.server.got + s.c2s[..n] == Bytes(|s.client.rq.name|)
    ensures Number(s.server.got + s.c2s[..n]) == |s.client.rq.name|
  {
    var sent := Sent(s.client);
    var got' := s.server.got + s.c2s[..n];
    assert Held(s.server) + s.c2s == sent;
    assert sent[1..5] == got';
    hide Bytes;
    assert Header(s.client.rq)[1..5] == Bytes(|s.client.rq.name|);
    NumberReads(|s.client.rq.name|);
  }

  /** A read that does not complete the field only moves bytes to the server's side. */
  lemma PartKeepsCommands(s: State, t: State, n: nat)
    requires CurrentOk(s.client) && (s.server.ReadLen? || s.server.ReadName?) && CommandStream(s)
    requires 0 < n <= |s.c2s|
    requires t == s.(server := s.server.(got := s.server.got + s.c2s[..n]), c2s := s.c2s[n..])
    ensures CommandStream(t)
  {
  }

  lemma LenKeepsCommands(nss: Service, s: State, k: nat)
    requires CurrentOk(s.client) && s.server.ReadLen? && ServerOk(s.server) && s.c2s != []
    requires CommandStream(s) && ReplyStream(nss, s) && ShortNames(s)
    ensures CommandStream(ServerNext(nss, s, k)) && ReplyStream(nss, ServerNext(nss, s, k))
    ensures ServerOk(ServerNext(nss, s, k).server)
    ensures !ServerNext(nss, s, k).server.WriteToken?
  {
    hide Bytes, Number;
    var t := ServerNext(nss, s, k);
    var n := ReadSize(k, 4 - |s.server.got|, |s.c2s|);
    if |s.server.got| + n < 4 {
      PartKeepsCommands(s, t, n);
    } else {
      LenIsRight(s, n);
      LenCompleteKeeps(nss, s, t, n);
    }
  }

  lemma LenCompleteKeeps(nss: Service, s: State, t: State, n: nat)
    requires CurrentOk(s.client) && s.server.ReadLen? && CommandStream(s) && ReplyStream(nss, s)
    requires 0 < n <= |s.c2s| && |s.server.got| + n == 4 && (s.client.WriteName? || s.client.ReadCode?)
    requires s.server.got + s.c2s[..n] == Bytes(|s.client.rq.name|)
    requires var name := s.client.rq.name; var style := s.server.style;
      t == s.(server := if name == [] then Answered(nss, style, []) else ReadName(style, |name|, []), c2s := s.c2s[n..])
    ensures CommandStream(t) && ReplyStream(nss, t)
  {
  }

  lemma NameKeepsCommands(nss: Service, s: State, k: nat)
    requires CurrentOk(s.client) && s.server.ReadName? && ServerOk(s.server) && s.c2s != []
    requires CommandStream(s) && ReplyStream(nss, s)
    ensures CommandStream(ServerNext(nss, s, k)) && ReplyStream(nss, ServerNext(nss, s, k))
    ensures ServerOk(ServerNext(nss, s, k).server)
  {
    hide Bytes, Number;
    var t := ServerNext(nss, s, k);
    var n := ReadSize(k, s.server.len - |s.server.got|, |s.c2s|);
    if |s.server.got| + n < s.server.len {
      PartKeepsCommands(s, t, n);
    } else {
      NameCompleteKeeps(nss, s, t, n);
    }
  }

  lemma NameCompleteKeeps(nss: Service, s: State, t: State, n: nat)
    requires CurrentOk(s.client) && s.server.ReadName? && CommandStream(s) && ReplyStream(nss, s) && ServerOk(s.server)
    requires 0 < n <= |s.c2s| && |s.server.got| + n == s.server.len
    requires t == s.(server := Answered(nss, s.server.style, s.server.got + s.c2s[..n]), c2s := s.c2s[n..])
    ensures CommandStream(t) && ReplyStream(nss, t)
  {
    hide Bytes, Number;
    var rq, name := s.client.rq, s.server.got + s.c2s[..n];
    var sent := Sent(s.client);
    assert sent == Header(rq) + name + t.c2s by {
      assert s.c2s == s.c2s[..n] + t.c2s;
      assert Header(rq) + s.server.got + s.c2s == Header(rq) + name + t.c2s;
    }
    assert |sent| == 5 + |rq.name| && s.client.ReadCode?;
    assert t.c2s == [];
    assert sent[5..] == name && sent[5..] == rq.name;
    assert Request(s.server.style, name) == rq;
    assert Closes([]) + [] == [];
  }

  lemma OtherKeepsCommands(nss: Service, s: State, k: nat)
    requires CurrentOk(s.client) && !ServerBlocked(s) && ServerOk(s.server)
    requires !s.server.ReadCmd? && !s.server.ReadLen? && !s.server.ReadName?
    requires CommandStream(s) && ReplyStream(nss, s)
    ensures CommandStream(ServerNext(nss, s, k)) && ReplyStream(nss, ServerNext(nss, s, k))
    ensures ServerOk(ServerNext(nss, s, k).server)
  {
    if s.server.ReadWhat? {
      WhatKeepsCommands(nss, s, k);
    } else {
      hide Bytes, Number, Closes, Sent;
    }
  }

  lemma WhatKeepsCommands(nss: Service, s: State, k: nat)
    requires CurrentOk(s.client) && !ServerBlocked(s) && s.server.ReadWhat? && CommandStream(s) && ReplyStream(nss, s)
    ensures CommandStream(ServerNext(nss, s, k)) && ReplyStream(nss, ServerNext(nss, s, k))
    ensures ServerOk(ServerNext(nss, s, k).server)
  {
    hide Bytes, Number, Sent;
    var rest := Closes(s.queued) + (if Consumed(s) then [] else Sent(s.client));
    assert rest[1..][1..] == rest[2..];
  }

  /** Every call of the server keeps both streams on their frames; while names are short, the
      server never drops a request. */
  lemma ServerKeepsStreams(nss: Service, s: State, k: nat)
    requires CurrentOk(s.client) && !ServerBlocked(s) && ServerOk(s.server) && ShortNames(s)
    requires CommandStream(s) && ReplyStream(nss, s)
    ensures CommandStream(ServerNext(nss, s, k)) && ReplyStream(nss, ServerNext(nss, s, k))
    ensures ServerOk(ServerNext(nss, s, k).server)
    ensures s.server.ReadLen? ==> !ServerNext(nss, s, k).server.WriteToken?
    ensures s.server.ReadCmd? && ServerNext(nss, s, k).server.Exited? ==> s.client.Gone?
  {
    match s.server
    case ReadCmd => CmdKeepsCommands(nss, s, k);
    case ReadLen(_, _) => LenKeepsCommands(nss, s, k);
    case ReadName(_, _, _) => NameKeepsCommands(nss, s, k);
    case _ => OtherKeepsCommands(nss, s, k);
  }

  lemma ReadKeepsTokens(nss: Service, s: State, t: State)
    requires ServerReads(s.server) && !s.server.ReadWhat? && t == s.(server := t.server, c2s := t.c2s) && s.c2s != []
    requires CurrentOk(s.client) && Tokens(s) && CommandStream(s) && ReplyStream(nss, t) && CommandStream(t)
    requires Offered(t.server) && (t.server.Exited? ==> s.client.Gone?)
    ensures Tokens(t)
  {
  }

  lemma OtherKeepsTokens(nss: Service, s: State, k: nat)
    requires CurrentOk(s.client) && Tokens(s) && CommandStream(s) && ReplyStream(nss, s) && !ServerBlocked(s)
    requires !s.server.ReadCmd? && !s.server.ReadLen? && !s.server.ReadName? && ServerOk(s.server) && !s.client.Failed?
    ensures Tokens(ServerNext(nss, s, k))
  {
    hide Bytes, Held, Sent, Closes;
  }

  lemma ServerKeepsTokens(nss: Service, s: State, k: nat)
    requires CurrentOk(s.client) && !ServerBlocked(s) && ServerOk(s.server) && ShortNames(s) && !s.client.Failed?
    requires CommandStream(s) && ReplyStream(nss, s) && Tokens(s)
    ensures Tokens(ServerNext(nss, s, k))
  {
    if s.server.ReadCmd? || s.server.ReadLen? || s.server.ReadName? {
      ServerKeepsStreams(nss, s, k);
      hide CommandStream, ReplyStream, Tokens, Number;
      ReadKeepsTokens(nss, s, ServerNext(nss, s, k));
    } else {
      hide CommandStream, ReplyStream, Tokens, Number;
      OtherKeepsTokens(nss, s, k);
    }
  }

  lemma ServerKeepsInv(nss: Service, program: seq<Op>, s: State, k: nat)
    requires Inv(nss, program, s) && !ServerBlocked(s)
    ensures Inv(nss, program, ServerNext(nss, s, k))
  {
    ServerKeepsStreams(nss, s, k);
    ServerKeepsTokens(nss, s, k);
    hide Tokens, CommandStream, ReplyStream;
    assert Order(ServerNext(nss, s, k)) == Order(s);
  }

  // ---- whole runs ----

  /** Who moves next, and how much a read of the server returns; a blocked process cannot move. */
  datatype Move = ClientMoves | ServerMoves(k: nat)

  function Next(nss: Service, s: State, m: Move): State {
    match m
    case ClientMoves => if ClientBlocked(s) || !CurrentOk(s.client) then s else ClientNext(s)
    case ServerMoves(k) => if ServerBlocked(s) || !ServerOk(s.server) then s else ServerNext(nss, s, k)
  }

  function Run(nss: Service, s: State, moves: seq<Move>): State
    decreases |moves|
  {
    if moves == [] then s else Run(nss, Next(nss, s, moves[0]), moves[1..])
  }

  predicate ShortProgram(program: seq<Op>) {
    forall i :: 0 <= i < |program| ==> program[i].Lookup? ==> ShortName(program[i].rq)
  }

  lemma {:induction false} RunKeepsInv(nss: Service, program: seq<Op>, s: State, moves: seq<Move>)
    requires Inv(nss, program, s)
    ensures Inv(nss, program, Run(nss, s, moves))
    decreases |moves|
  {
    if moves != [] {
      hide Inv, ClientNext, ServerNext;
      NextKeepsInv(nss, program, s, moves[0]);
      RunKeepsInv(nss, program, Next(nss, s, moves[0]), moves[1..]);
    }
  }

  lemma NextKeepsInv(nss: Service, program: seq<Op>, s: State, m: Move)
    requires Inv(nss, program, s)
    ensures Inv(nss, program, Next(nss, s, m))
  {
    hide CommandStream, ReplyStream, Tokens, ClientNext, ServerNext, Order;
    match m
    case ClientMoves => if !ClientBlocked(s) { ClientKeepsInv(nss, program, s); }
    case ServerMoves(k) => if !ServerBlocked(s) { ServerKeepsInv(nss, program, s, k); }
  }

  /** The positions of a program from the `k`th on at which it looks something up, in order. */
  ghost predicate LookupsFrom(program: seq<Op>, k: nat, at: seq<nat>) {
    && (forall i :: 0 <= i < |at| ==> k <= at[i] < |program| && program[at[i]].Lookup?)
    && (forall i, j :: 0 <= i < j < |at| ==> at[i] < at[j])
    && (forall p: nat :: k <= p < |program| && program[p].Lookup? ==> p in at)
  }

  ghost predicate LookupsAt(program: seq<Op>, at: seq<nat>) {
    LookupsFrom(program, 0, at)
  }

  lemma {:induction false} RequestsAreLookups(program: seq<Op>, k: nat) returns (at: seq<nat>)
    requires k <= |program|
    ensures LookupsFrom(program, k, at) && |at| == |Requests(program[k..])|
    ensures forall i :: 0 <= i < |at| ==> program[at[i]].rq == Requests(program[k..])[i]
    decreases |program| - k
  {
    at := [];
    if k < |program| {
      hide LookupsFrom;
      var rest := RequestsAreLookups(program, k + 1);
      assert program[k..][0] == program[k] && program[k..][1..] == program[k + 1..];
      LookupsStep(program, k, rest);
      at := if program[k].Lookup? then [k] + rest else rest;
    }
  }

  lemma LookupsStep(program: seq<Op>, k: nat, rest: seq<nat>)
    requires k < |program| && LookupsFrom(program, k + 1, rest)
    ensures LookupsFrom(program, k, if program[k].Lookup? then [k] + rest else rest)
  {
  }

  /** The replies accepted so far, given the positions of the lookups in the program: the i-th is for
      the i-th of these, and hands the name service's answer to it to the caller. */
  ghost predicate AnswersInOrder(nss: Service, program: seq<Op>, at: seq<nat>, log: seq<(Request, Reply)>)
    requires LookupsAt(program, at)
  {
    && |log| <= |at|
    && forall i :: 0 <= i < |log| ==>
         var rq := program[at[i]].rq;
         && log[i].0 == rq && CallerGets(log[i].1) == nss(rq)
         && (log[i].1.code == 0 || log[i].1.code == 1) && (log[i].1.code == 0 ==> log[i].1.result == 0xffff_ffff)
  }

  /** Replies never cross: in every interleaving, whatever closes are interspersed, the replies
      that the client has accepted hand the name service's answers to the first lookups of the
      program to their callers, in order, and no read ever came back short. */
  lemma {:induction false} RepliesNeverCross(nss: Service, program: seq<Op>, moves: seq<Move>) returns (at: seq<nat>)
    requires ShortProgram(program)
    ensures LookupsAt(program, at) && |at| == |Requests(program)|
    ensures var s := Run(nss, Initial(program), moves);
      !s.client.Failed? && AnswersInOrder(nss, program, at, s.log)
  {
    InitialInv(nss, program);
    RunKeepsInv(nss, program, Initial(program), moves);
    at := RequestsAreLookups(program, 0);
    assert program[0..] == program;
    var s := Run(nss, Initial(program), moves);
    hide Run, CommandStream, ReplyStream, Tokens, Requests, LookupsAt;
    assert Order(s)[..|s.log|] == LoggedRequests(s.log);
    hide ReplyOf, CallerGets;
    forall i | 0 <= i < |s.log|
      ensures s.log[i].0 == Requests(program)[i] && CallerGets(s.log[i].1) == nss(Requests(program)[i])
    {
      assert Order(s)[i] == LoggedRequests(s.log)[i];
      ReplyReads(nss(s.log[i].0));
    }
    forall i | 0 <= i < |s.log|
      ensures s.log[i].1.code == 0 || s.log[i].1.code == 1
      ensures s.log[i].1.code == 0 ==> s.log[i].1.result == 0xffff_ffff
    {
      ReplyReads(nss(s.log[i].0));
    }
  }

  /** Whenever the server waits for a command and the client holds no token, the unread tokens
      are one more than the closes processed. */
  lemma {:induction false} TokensConserved(nss: Service, program: seq<Op>, moves: seq<Move>)
    requires ShortProgram(program)
    ensures var s := Run(nss, Initial(program), moves);
      s.server.ReadCmd? && !s.client.ReadCtx? ==>
        |s.sync| == s.closes + (if InFlight(s) then 0 else 1)
  {
    InitialInv(nss, program);
    RunKeepsInv(nss, program, Initial(program), moves);
    hide Run;
  }

  // ---- nobody waits forever ----

  /** How much the server can still do on its own. */
  function Work(s: State): nat {
    5 * |s.c2s| + match s.server
                  case WriteCtx => 2
                  case WriteToken => 1
                  case ReadCmd => 0
                  case ReadLen(_, _) => 4
                  case ReadName(_, _, _) => 4
                  case SendCode(_) => 3
                  case SendResult(_) => 2
                  case ReadWhat => 2
                  case SendHello => 2
                  case SendUnknown => 2
                  case Exited => 0
  }

  /** A client that waits has a server that can move, and each such move uses up work. */
  lemma WaitingClientHasServer(nss: Service, program: seq<Op>, s: State, k: nat)
    requires Inv(nss, program, s) && ClientBlocked(s)
    ensures !ServerBlocked(s) && Work(ServerNext(nss, s, k)) < Work(s)
  {
    hide Number, Bytes, LogRight, Order;
    if s.server.ReadLen? || s.server.ReadName? {
      assert Held(s.server) + s.c2s == Sent(s.client);
    } else {
      assert Closes(s.queued) + Sent(s.client) == Sent(s.client) || s.queued != [];
    }
  }

  function RunServer(nss: Service, s: State, ks: seq<nat>): State
    decreases |ks|
  {
    if ks == [] then s else RunServer(nss, Next(nss, s, ServerMoves(ks[0])), ks[1..])
  }

  /** No lost wake-up: however its reads split up, after at most Work(s) calls of the server the
      client's read returns, be it for a token or for a reply. */
  lemma {:induction false} ClientIsWoken(nss: Service, program: seq<Op>, s: State, ks: seq<nat>)
    requires Inv(nss, program, s) && |ks| >= Work(s)
    ensures exists j :: 0 <= j <= |ks| && !ClientBlocked(RunServer(nss, s, ks[..j]))
    decreases |ks|
  {
    if !ClientBlocked(s) {
      assert ks[..0] == [];
      assert !ClientBlocked(RunServer(nss, s, ks[..0]));
    } else {
      WaitingClientHasServer(nss, program, s, if |ks| > 0 then ks[0] else 0);
      hide CommandStream, ReplyStream, Tokens, ServerNext, Work, Order;
      var t := Next(nss, s, ServerMoves(ks[0]));
      NextKeepsInv(nss, program, s, ServerMoves(ks[0]));
      ClientIsWoken(nss, program, t, ks[1..]);
      var j :| 0 <= j <= |ks[1..]| && !ClientBlocked(RunServer(nss, t, ks[1..][..j]));
      assert ks[..j + 1][1..] == ks[1..][..j] && ks[..j + 1][0] == ks[0];
      assert RunServer(nss, s, ks[..j + 1]) == RunServer(nss, t, ks[1..][..j]);
    }
  }
}
