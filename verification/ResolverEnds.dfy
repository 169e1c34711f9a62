/** Every run of the resolver's protocol ends, with all requests answered, as long as both processes
    keep getting their turns. */
module ResolverEnds {
  import opened FileSystem
  import opened Resolver

  // ---- every call uses something up ----

  /** The calls that an operation takes, where a byte that the client writes counts for five calls of
      the server. */
  function OpCost(op: Op): nat {
    match op
    case Lookup(rq) => 32 + 5 * |rq.name|
    case EndEnt(_) => 12
  }

  function TodoCost(todo: seq<Op>): nat {
    if todo == [] then 0 else OpCost(todo[0]) + TodoCost(todo[1..])
  }

  /** What the client has yet to do before it is idle, or gone. */
  function ClientCost(c: Client): nat {
    match c
    case ReadCtx => 17
    case ReadToken0 => 16
    case WriteHello => 15
    case ReadHello => 9
    case Idle => 8
    case ReadToken(rq) => 39 + 5 * |rq.name|
    case WriteStyle(rq) => 38 + 5 * |rq.name|
    case WriteLen(rq) => 32 + 5 * |rq.name|
    case WriteName(rq) => 11 + 5 * |rq.name|
    case ReadCode(_) => 10
    case ReadResult(_, _) => 9
    case WriteClose(_) => 19
    case ReadTokenExit => 7
    case WriteQuit => 6
    case Gone => 0
    case Failed => 0
  }

  function Cost(s: State): nat {
    ClientCost(s.client) + TodoCost(s.todo) + Work(s)
  }

  /** Both processes are through. */
  predicate Ended(s: State) {
    s.client.Gone? && s.server.Exited?
  }

  /** The client leaves only when the program has nothing left to do. */
  predicate LeavesLast(s: State) {
    s.client.ReadTokenExit? || s.client.WriteQuit? || s.client.Gone? ==> s.todo == []
  }

  ghost predicate Good(nss: Service, program: seq<Op>, s: State) {
    Inv(nss, program, s) && LeavesLast(s)
  }

  lemma ClientCallCosts(s: State)
    requires !ClientBlocked(s) && CurrentOk(s.client) && !s.client.Gone? && !s.client.Failed?
    requires !ClientNext(s).client.Failed?
    ensures Cost(ClientNext(s)) < Cost(s)
    ensures LeavesLast(s) ==> LeavesLast(ClientNext(s))
  {
    hide Number, Bytes;
  }

  lemma ServerCallCosts(nss: Service, s: State, k: nat)
    requires !ServerBlocked(s) && ServerOk(s.server)
    ensures Cost(ServerNext(nss, s, k)) < Cost(s)
    ensures LeavesLast(s) ==> LeavesLast(ServerNext(nss, s, k))
  {
  }

  /** A move leaves everything as it is, or uses something up. */
  lemma MoveCosts(nss: Service, program: seq<Op>, s: State, m: Move)
    requires Good(nss, program, s)
    ensures Good(nss, program, Next(nss, s, m))
    ensures Next(nss, s, m) == s || Cost(Next(nss, s, m)) < Cost(s)
  {
    NextKeepsInv(nss, program, s, m);
    hide CommandStream, ReplyStream, Tokens, LogRight, Order, ShortNames, ClientNext, ServerNext, Cost;
    match m
    case ClientMoves =>
      if !ClientBlocked(s) {
        if s.client.Gone? { GoneStays(s); } else { ClientCallCosts(s); }
      }
    case ServerMoves(k) => if !ServerBlocked(s) { ServerCallCosts(nss, s, k); }
  }

  lemma GoneStays(s: State)
    requires s.client.Gone?
    ensures !ClientBlocked(s) && CurrentOk(s.client) && ClientNext(s) == s
  {
  }

  // ---- somebody can always move ----

  lemma GoneClientHasServer(nss: Service, program: seq<Op>, s: State)
    requires Inv(nss, program, s) && s.client.Gone? && !s.server.Exited?
    ensures !ServerBlocked(s)
  {
  }

  /** No deadlock: until both processes are through, one of them can go on. */
  lemma SomebodyMoves(nss: Service, program: seq<Op>, s: State, k: nat)
    requires Good(nss, program, s) && !Ended(s)
    ensures Next(nss, s, ClientMoves) != s || Next(nss, s, ServerMoves(k)) != s
  {
    if ClientBlocked(s) || s.client.Gone? {
      if ClientBlocked(s) { WaitingClientHasServer(nss, program, s, k); } else { GoneClientHasServer(nss, program, s); }
      ServerCallCosts(nss, s, k);
    } else {
      ClientKeepsInv(nss, program, s);
      ClientCallCosts(s);
    }
    hide CommandStream, ReplyStream, Tokens, LogRight, Order, ShortNames, ClientNext, ServerNext, Cost;
  }

  // ---- whole runs ----

  lemma {:induction false} RunCosts(nss: Service, program: seq<Op>, s: State, moves: seq<Move>)
    requires Good(nss, program, s)
    ensures var t := Run(nss, s, moves);
      Good(nss, program, t) && ((t == s && forall m :: m in moves ==> Next(nss, s, m) == s) || Cost(t) < Cost(s))
    decreases |moves|
  {
    if moves != [] {
      hide Good, Next, Cost;
      MoveCosts(nss, program, s, moves[0]);
      RunCosts(nss, program, Next(nss, s, moves[0]), moves[1..]);
    }
  }

  /** A round gives each process at least one turn, in any order, and with reads of any size. */
  predicate IsRound(moves: seq<Move>) {
    ClientMoves in moves && exists m :: m in moves && m.ServerMoves?
  }

  lemma {:induction false} RoundCosts(nss: Service, program: seq<Op>, s: State, moves: seq<Move>)
    requires Good(nss, program, s) && IsRound(moves) && !Ended(s)
    ensures Good(nss, program, Run(nss, s, moves)) && Cost(Run(nss, s, moves)) < Cost(s)
  {
    hide Good, Next, Cost, Run;
    RunCosts(nss, program, s, moves);
    var m :| m in moves && m.ServerMoves?;
    SomebodyMoves(nss, program, s, m.k);
  }

  function RunRounds(nss: Service, s: State, rounds: seq<seq<Move>>): State
    decreases |rounds|
  {
    if rounds == [] then s else RunRounds(nss, Run(nss, s, rounds[0]), rounds[1..])
  }

  lemma EndedCostsNothing(nss: Service, program: seq<Op>, s: State)
    requires Good(nss, program, s) && Ended(s)
    ensures Cost(s) == 0
  {
  }

  lemma {:induction false} RoundsEnd(nss: Service, program: seq<Op>, s: State, rounds: seq<seq<Move>>)
    requires Good(nss, program, s) && |rounds| >= Cost(s) && forall round :: round in rounds ==> IsRound(round)
    ensures Good(nss, program, RunRounds(nss, s, rounds)) && Ended(RunRounds(nss, s, rounds))
    decreases |rounds|
  {
    if rounds == [] {
      NothingLeftIsEnded(nss, program, s);
    } else {
      hide Good, Cost, Run;
      if Ended(s) {
        EndedCostsNothing(nss, program, s);
        RunCosts(nss, program, s, rounds[0]);
      } else {
        RoundCosts(nss, program, s, rounds[0]);
      }
      RoundsEnd(nss, program, Run(nss, s, rounds[0]), rounds[1..]);
    }
  }

  lemma NothingLeftIsEnded(nss: Service, program: seq<Op>, s: State)
    requires Good(nss, program, s) && Cost(s) == 0
    ensures Ended(s)
  {
    if s.client.Gone? && !s.server.Exited? { GoneClientHasServer(nss, program, s); }
    hide CommandStream, ReplyStream, Tokens, LogRight, Order, ShortNames;
  }

  lemma {:induction false} RoundsAreMoves(nss: Service, s: State, rounds: seq<seq<Move>>)
    ensures RunRounds(nss, s, rounds) == Run(nss, s, Flat(rounds))
    decreases |rounds|
  {
    if rounds != [] {
      RoundsAreMoves(nss, Run(nss, s, rounds[0]), rounds[1..]);
      RunConcat(nss, s, rounds[0], Flat(rounds[1..]));
    }
  }

  function Flat(rounds: seq<seq<Move>>): seq<Move> {
    if rounds == [] then [] else rounds[0] + Flat(rounds[1..])
  }

  lemma {:induction false} RunConcat(nss: Service, s: State, a: seq<Move>, b: seq<Move>)
    ensures Run(nss, s, a + b) == Run(nss, Run(nss, s, a), b)
    decreases |a|
  {
    hide Next;
    if a == [] {
      assert a + b == b;
    } else {
      RunConcat(nss, Next(nss, s, a[0]), a[1..], b);
      assert (a + b)[1..] == a[1..] + b;
    }
  }

  /** Every run comes to its end: with short names, and after Cost(Initial(program)) rounds in which
      both processes get a turn, the client is gone, the server has exited, and the caller of every
      lookup in the program has got the name service's answer to it. */
  lemma {:induction false} EveryRunEnds(nss: Service, program: seq<Op>, rounds: seq<seq<Move>>) returns (at: seq<nat>)
    requires ShortProgram(program) && |rounds| >= Cost(Initial(program))
    requires forall round :: round in rounds ==> IsRound(round)
    ensures LookupsAt(program, at)
    ensures var s := Run(nss, Initial(program), Flat(rounds));
      Ended(s) && |s.log| == |at| && AnswersInOrder(nss, program, at, s.log)
  {
    InitialInv(nss, program);
    RoundsEnd(nss, program, Initial(program), rounds);
    RoundsAreMoves(nss, Initial(program), rounds);
    var s := Run(nss, Initial(program), Flat(rounds));
    AllIsLogged(nss, program, s);
    hide *;
    at := RepliesNeverCross(nss, program, Flat(rounds));
  }

  lemma {:induction false} AllIsLogged(nss: Service, program: seq<Op>, s: State)
    requires Good(nss, program, s) && Ended(s)
    ensures |s.log| == |Requests(program)|
  {
  }

  function Alternating(sizes: seq<nat>): seq<seq<Move>> {
    seq(|sizes|, i requires 0 <= i < |sizes| => [ClientMoves, ServerMoves(sizes[i])])
  }

  /** In particular when the two take turns. */
  lemma {:induction false} TakingTurnsEnds(nss: Service, program: seq<Op>, sizes: seq<nat>) returns (at: seq<nat>)
    requires ShortProgram(program) && |sizes| >= Cost(Initial(program))
    ensures LookupsAt(program, at)
    ensures var s := Run(nss, Initial(program), Flat(Alternating(sizes)));
      Ended(s) && |s.log| == |at| && AnswersInOrder(nss, program, at, s.log)
  {
    var rounds := Alternating(sizes);
    forall round: seq<Move> | round in rounds ensures IsRound(round) {
      assert round[0] == ClientMoves && round[1].ServerMoves?;
    }
    hide *;
    at := EveryRunEnds(nss, program, rounds);
  }
}
