/** Runs of the resolver's protocol that lead somewhere: what happens to names that are too long. */
module ResolverRuns {
  import opened FileSystem
  import opened Resolver

  // ---- what can be reached ----

  ghost predicate Reaches(nss: Service, s: State, t: State) {
    exists moves :: Run(nss, s, moves) == t
  }

  lemma {:induction false} RunLast(nss: Service, s: State, moves: seq<Move>, m: Move)
    ensures Run(nss, s, moves + [m]) == Next(nss, Run(nss, s, moves), m)
    decreases |moves|
  {
    hide Next;
    if moves == [] {
      assert moves + [m] == [m];
      assert [m][1..] == [];
    } else {
      assert (moves + [m])[1..] == moves[1..] + [m];
      RunLast(nss, Next(nss, s, moves[0]), moves[1..], m);
    }
  }

  /** One more call of either process. */
  lemma Onward(nss: Service, s: State, t: State, m: Move)
    requires Reaches(nss, s, t)
    ensures Reaches(nss, s, Next(nss, t, m))
  {
    hide Next;
    var moves :| Run(nss, s, moves) == t;
    RunLast(nss, s, moves, m);
  }

  /** The client is between two operations, and the server waits for a command. */
  function Ready(todo: seq<Op>, tokens: nat, log: seq<(Request, Reply)>, closes: nat): State {
    State(Idle, ReadCmd, todo, [], [], seq(tokens, _ => DOT), log, [], closes)
  }

  lemma Handshake(nss: Service, program: seq<Op>)
    ensures Reaches(nss, Initial(program), Ready(program, 1, [], 0))
  {
    Greeting(nss, program);
    var s := Initial(program);
    hide Reaches, Bytes, Number;
    var e := s.(client := ReadHello, server := ReadCmd, c2s := [DOT]);
    Onward(nss, s, e, ServerMoves(0));
    var f := Next(nss, e, ServerMoves(0));
    Onward(nss, s, f, ServerMoves(0));
    var g := Next(nss, f, ServerMoves(0));
    Onward(nss, s, g, ServerMoves(0));
    var h := Next(nss, g, ServerMoves(0));
    assert h == e.(c2s := [], s2c := [DOT], sync := [DOT]);
    Onward(nss, s, h, ClientMoves);
    assert Next(nss, h, ClientMoves) == Ready(program, 1, [], 0);
  }

  lemma Greeting(nss: Service, program: seq<Op>)
    ensures Reaches(nss, Initial(program), Initial(program).(client := ReadHello, server := ReadCmd, c2s := [DOT]))
  {
    var s := Initial(program);
    assert Run(nss, s, []) == s;
    hide Run, Reaches, Bytes, Number;
    Onward(nss, s, s, ServerMoves(0));
    var a := Next(nss, s, ServerMoves(0));
    Onward(nss, s, a, ServerMoves(0));
    var b := Next(nss, a, ServerMoves(0));
    assert b.sync == [0, 0, 0, 0, DOT];
    Onward(nss, s, b, ClientMoves);
    var c := Next(nss, b, ClientMoves);
    assert c.sync == [DOT];
    Onward(nss, s, c, ClientMoves);
    var d := Next(nss, c, ClientMoves);
    Onward(nss, s, d, ClientMoves);
    var e := Next(nss, d, ClientMoves);
    assert e == s.(client := ReadHello, server := ReadCmd, c2s := [DOT]);
  }

  /** The client has sent a request; the server has not looked at it. */
  function Asking(rq: Request, todo: seq<Op>, tokens: nat, log: seq<(Request, Reply)>, closes: nat): State
    requires |rq.name| < 0x1_0000_0000
  {
    Ready(todo, tokens, log, closes).(client := ReadCode(rq), c2s := Header(rq) + rq.name)
  }

  lemma Ask(nss: Service, s: State, rq: Request, todo: seq<Op>, tokens: nat, log: seq<(Request, Reply)>, closes: nat)
    requires |rq.name| < 0x1_0000_0000 && Reaches(nss, s, Ready([Lookup(rq)] + todo, tokens + 1, log, closes))
    ensures Reaches(nss, s, Asking(rq, todo, tokens, log, closes))
  {
    hide Reaches, Bytes, Number;
    var a := Ready([Lookup(rq)] + todo, tokens + 1, log, closes);
    Onward(nss, s, a, ClientMoves);
    var b := Next(nss, a, ClientMoves);
    assert b == a.(client := ReadToken(rq), todo := todo);
    Onward(nss, s, b, ClientMoves);
    var c := Next(nss, b, ClientMoves);
    assert c == Ready(todo, tokens, log, closes).(client := WriteStyle(rq));
    Onward(nss, s, c, ClientMoves);
    var d := Next(nss, c, ClientMoves);
    Onward(nss, s, d, ClientMoves);
    var e := Next(nss, d, ClientMoves);
    assert e == c.(client := WriteName(rq), c2s := Header(rq));
    Onward(nss, s, e, ClientMoves);
  }

  /** The server has read the length of a request: it goes on to the name, or drops the request. */
  function AfterLength(nss: Service, rq: Request): Server {
    if |rq.name| >= MAX_RQSIZE then WriteToken
    else if rq.name == [] then Answered(nss, rq.style, []) else ReadName(rq.style, |rq.name|, [])
  }

  lemma TakeLength(nss: Service, s: State, rq: Request, todo: seq<Op>, tokens: nat,
                   log: seq<(Request, Reply)>, closes: nat)
    requires |rq.name| < 0x1_0000_0000 && Reaches(nss, s, Asking(rq, todo, tokens, log, closes))
    ensures Reaches(nss, s, Asking(rq, todo, tokens, log, closes).(server := AfterLength(nss, rq), c2s := rq.name))
  {
    hide Reaches, Bytes, Number, AfterLength;
    var a := Asking(rq, todo, tokens, log, closes);
    Onward(nss, s, a, ServerMoves(0));
    var b := a.(server := ReadLen(rq.style, []), c2s := Bytes(|rq.name|) + rq.name);
    assert Next(nss, a, ServerMoves(0)) == b by { assert a.c2s[1..] == b.c2s; }
    Onward(nss, s, b, ServerMoves(4));
    assert b.c2s[..4] == Bytes(|rq.name|) && b.c2s[4..] == rq.name;
    LengthIsRead(nss, b, rq);
  }

  lemma LengthIsRead(nss: Service, b: State, rq: Request)
    requires |rq.name| < 0x1_0000_0000
    requires b.server == ReadLen(rq.style, []) && 4 <= |b.c2s|
    requires b.c2s[..4] == Bytes(|rq.name|) && b.c2s[4..] == rq.name
    ensures Next(nss, b, ServerMoves(4)) == b.(server := AfterLength(nss, rq), c2s := rq.name)
  {
  }

  lemma AnswerIsRead(nss: Service, s: State, rq: Request, todo: seq<Op>, tokens: nat,
                     log: seq<(Request, Reply)>, closes: nat)
    requires |rq.name| < 0x1_0000_0000
    requires Reaches(nss, s,
                     Asking(rq, todo, tokens, log, closes).(server := Answered(nss, rq.style, rq.name), c2s := []))
    ensures Reaches(nss, s, Ready(todo, tokens + 1, log + [(rq, ReplyOf(nss(rq)))], closes))
  {
    var reply := ReplyOf(nss(rq));
    assert Request(rq.style, rq.name) == rq;
    hide Reaches, Bytes, Number, ReplyOf;
    var a := Asking(rq, todo, tokens, log, closes).(server := Answered(nss, rq.style, rq.name), c2s := []);
    Onward(nss, s, a, ServerMoves(0));
    var b := Next(nss, a, ServerMoves(0));
    Onward(nss, s, b, ServerMoves(0));
    var c := Next(nss, b, ServerMoves(0));
    assert c == a.(server := WriteToken, s2c := [reply.code] + Bytes(reply.result));
    Onward(nss, s, c, ServerMoves(0));
    var d := Next(nss, c, ServerMoves(0));
    assert d.sync == seq(tokens + 1, _ => DOT);
    ReplyIsTaken(nss, s, d, rq, reply);
  }

  lemma ReplyIsTaken(nss: Service, s: State, d: State, rq: Request, reply: Reply)
    requires Reaches(nss, s, d) && d.client == ReadCode(rq) && |rq.name| < 0x1_0000_0000
    requires d.s2c == [reply.code] + Bytes(reply.result)
    ensures Reaches(nss, s, d.(client := Idle, s2c := [], log := d.log + [(rq, reply)]))
  {
    NumberReads(reply.result);
    hide Reaches, Bytes, Number;
    Onward(nss, s, d, ClientMoves);
    var e := Next(nss, d, ClientMoves);
    assert e == d.(client := ReadResult(rq, reply.code), s2c := Bytes(reply.result));
    Onward(nss, s, e, ClientMoves);
    assert e.s2c[..4] == Bytes(reply.result) && e.s2c[4..] == [];
    assert Next(nss, e, ClientMoves) == d.(client := Idle, s2c := [], log := d.log + [(rq, reply)]);
  }

  lemma ShortLookup(nss: Service, s: State, rq: Request, todo: seq<Op>, tokens: nat,
                    log: seq<(Request, Reply)>, closes: nat)
    requires ShortName(rq) && Reaches(nss, s, Ready([Lookup(rq)] + todo, tokens + 1, log, closes))
    ensures Reaches(nss, s, Ready(todo, tokens + 1, log + [(rq, ReplyOf(nss(rq)))], closes))
  {
    Ask(nss, s, rq, todo, tokens, log, closes);
    TakeLength(nss, s, rq, todo, tokens, log, closes);
    hide Reaches, Bytes, Number, Answered;
    if rq.name != [] {
      var a := Asking(rq, todo, tokens, log, closes).(server := ReadName(rq.style, |rq.name|, []), c2s := rq.name);
      Onward(nss, s, a, ServerMoves(|rq.name|));
      assert [] + rq.name[..|rq.name|] == rq.name;
      assert Next(nss, a, ServerMoves(|rq.name|)) == a.(server := Answered(nss, rq.style, rq.name), c2s := []);
    }
    AnswerIsRead(nss, s, rq, todo, tokens, log, closes);
  }

  lemma CloseIsDone(nss: Service, s: State, what: Byte, todo: seq<Op>, tokens: nat,
                    log: seq<(Request, Reply)>, closes: nat)
    requires Reaches(nss, s, Ready([EndEnt(what)] + todo, tokens, log, closes))
    ensures Reaches(nss, s, Ready(todo, tokens + 1, log, closes + 1))
  {
    hide Reaches, Bytes, Number;
    var a := Ready([EndEnt(what)] + todo, tokens, log, closes);
    Onward(nss, s, a, ClientMoves);
    var b := Next(nss, a, ClientMoves);
    assert b == a.(client := WriteClose(what), todo := todo);
    Onward(nss, s, b, ClientMoves);
    var c := Next(nss, b, ClientMoves);
    assert c == a.(todo := todo, c2s := [CLOSE, what], queued := [what]);
    Onward(nss, s, c, ServerMoves(0));
    var d := Next(nss, c, ServerMoves(0));
    Onward(nss, s, d, ServerMoves(0));
    var e := Next(nss, d, ServerMoves(0));
    assert e == a.(server := WriteToken, todo := todo, closes := closes + 1);
    Onward(nss, s, e, ServerMoves(0));
    assert Next(nss, e, ServerMoves(0)).sync == seq(tokens + 1, _ => DOT);
  }

  // ---- names that are too long ----

  /** strlen fits the uint32_t that it is stored in. */
  predicate WellFormed(program: seq<Op>) {
    forall i :: 0 <= i < |program| && program[i].Lookup? ==> |program[i].rq.name| < 0x1_0000_0000
  }

  /** Both streams are on frame boundaries. */
  ghost predicate Framed(nss: Service, s: State) {
    CurrentOk(s.client) && CommandStream(s) && ReplyStream(nss, s)
  }

  /** The server has dropped a request: every byte of the name is a command to come. */
  lemma DroppedIsNotFramed(nss: Service, rq: Request, todo: seq<Op>, tokens: nat,
                           log: seq<(Request, Reply)>, closes: nat)
    requires MAX_RQSIZE <= |rq.name| < 0x1_0000_0000
    ensures !Framed(nss, Asking(rq, todo, tokens, log, closes).(server := WriteToken, c2s := rq.name))
  {
  }

  lemma {:induction false} LongNameLosesFrame(nss: Service, s: State, todo: seq<Op>, tokens: nat,
                                              log: seq<(Request, Reply)>, closes: nat)
    requires WellFormed(todo) && !ShortProgram(todo) && Reaches(nss, s, Ready(todo, tokens + 1, log, closes))
    ensures exists t :: Reaches(nss, s, t) && !Framed(nss, t)
    decreases |todo|
  {
    hide Reaches, Framed, Bytes, Number, ReplyOf;
    var rest := todo[1..];
    assert todo == [todo[0]] + rest;
    if todo[0].EndEnt? {
      CloseIsDone(nss, s, todo[0].what, rest, tokens + 1, log, closes);
      LongNameLosesFrame(nss, s, rest, tokens + 1, log, closes + 1);
    } else if ShortName(todo[0].rq) {
      ShortLookup(nss, s, todo[0].rq, rest, tokens, log, closes);
      LongNameLosesFrame(nss, s, rest, tokens, log + [(todo[0].rq, ReplyOf(nss(todo[0].rq)))], closes);
    } else {
      Ask(nss, s, todo[0].rq, rest, tokens, log, closes);
      TakeLength(nss, s, todo[0].rq, rest, tokens, log, closes);
      DroppedIsNotFramed(nss, todo[0].rq, rest, tokens, log, closes);
    }
  }

  /** Both streams stay on frame boundaries in all interleavings, however reads split up, if and
      only if all names are shorter than MAX_RQSIZE. */
  lemma FramingKeptIff(nss: Service, program: seq<Op>)
    requires WellFormed(program)
    ensures (forall moves :: Framed(nss, Run(nss, Initial(program), moves))) <==> ShortProgram(program)
  {
    if ShortProgram(program) {
      forall moves ensures Framed(nss, Run(nss, Initial(program), moves)) {
        InitialInv(nss, program);
        RunKeepsInv(nss, program, Initial(program), moves);
        hide Run;
      }
    } else {
      Handshake(nss, program);
      LongNameLosesFrame(nss, Initial(program), program, 0, [], 0);
      var t :| Reaches(nss, Initial(program), t) && !Framed(nss, t);
      var moves :| Run(nss, Initial(program), moves) == t;
      assert !Framed(nss, Run(nss, Initial(program), moves));
    }
  }

  /** The bytes of a long name that are no commands are answered one by one. */
  lemma {:induction false} NameIsRejected(nss: Service, s: State, rq: Request, n: nat)
    requires MAX_RQSIZE <= |rq.name| < 0x1_0000_0000 && n <= |rq.name|
    requires forall i :: 0 <= i < n ==> rq.name[i] !in {PASSWD, GROUP, QUIT, CLOSE, DOT}
    requires Reaches(nss, s, Asking(rq, [], 0, [], 0).(server := WriteToken, c2s := rq.name))
    ensures Reaches(nss, s, Rejecting(rq, n))
  {
    if n == 0 {
      assert rq.name[0..] == rq.name;
      assert seq(0, _ => QUESTION) == [] && seq(0, _ => DOT) == [];
    } else {
      NameIsRejected(nss, s, rq, n - 1);
      hide Reaches, Bytes, Number;
      var a := Rejecting(rq, n - 1);
      Onward(nss, s, a, ServerMoves(0));
      var b := Next(nss, a, ServerMoves(0));
      Onward(nss, s, b, ServerMoves(0));
      var c := Next(nss, b, ServerMoves(0));
      assert c == b.(server := SendUnknown, c2s := rq.name[n..]);
      Onward(nss, s, c, ServerMoves(0));
      assert seq(n - 1, _ => QUESTION) + [QUESTION] == seq(n, _ => QUESTION);
      assert seq(n - 1, _ => DOT) + [DOT] == seq(n, _ => DOT);
    }
  }

  function Rejecting(rq: Request, n: nat): State
    requires n <= |rq.name|
  {
    State(ReadCode(rq), WriteToken, [], rq.name[n..], seq(n, _ => QUESTION), seq(n, _ => DOT), [], [], 0)
  }

  /** A lookup of a long name, the first five bytes of which are no commands, can end with a reply
      that is no answer of any name service. */
  lemma LongNameGetsWrongReply(nss: Service, rq: Request)
    requires 0x1000 <= |rq.name| < 0x1_0000_0000
    requires forall i :: 0 <= i < 5 ==> rq.name[i] !in {80, 71, 81, 67, 46}  // P, G, Q, C and .
    ensures exists moves :: Run(nss, Initial([Lookup(rq)]), moves).log == [(rq, Reply(63, 0x3f3f_3f3f))]
    ensures CallerGets(Reply(63, 0x3f3f_3f3f)) == Found(0x3f3f_3f3f)
    ensures forall a :: ReplyOf(a) != Reply(63, 0x3f3f_3f3f)
  {
    var s := Initial([Lookup(rq)]);
    Handshake(nss, [Lookup(rq)]);
    assert [Lookup(rq)] + [] == [Lookup(rq)];
    Ask(nss, s, rq, [], 0, [], 0);
    TakeLength(nss, s, rq, [], 0, [], 0);
    NameIsRejected(nss, s, rq, 5);
    var reply := Reply(QUESTION, 0x3f3f_3f3f);
    assert Bytes(reply.result) == [QUESTION, QUESTION, QUESTION, QUESTION];
    hide Run, Bytes;
    assert Rejecting(rq, 5).s2c == [reply.code] + Bytes(reply.result);
    ReplyIsTaken(nss, s, Rejecting(rq, 5), rq, reply);
    assert [] + [(rq, reply)] == [(rq, reply)];
  }
}
