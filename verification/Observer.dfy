/** Readiness polling: the observer's status call and the wait loop that reopens it. */
module Observer {
  import opened Options
  import opened Utf8
  import opened ObserverStream

  // ---- StatusObserver.status_payload ----

  /** What the pipe and the clock do during one status call: the handshake request, whether the
      notification can be written, and the tool request. */
  datatype Poll = Poll(handshake: Turn, noted: bool, ask: Turn)

  /** What a status call gives: a status text, `None`, or an exception the observer does not catch. */
  datatype Polled = Payload(text: string) | Nothing | Crash

  datatype PollStep = PollStep(polled: Polled, wire: Wire, asked: bool)

  function Fresh(pipe: seq<PipeEvent>): (w: Wire) {
    Wire([], pipe, 0, false, true)
  }

  predicate HandshakeHolds(x: Exchange, noted: bool) {
    x.outcome.Got? && !x.outcome.message.failed && noted
  }

  function Interpret(x: Exchange): (p: PollStep) {
    match x.outcome
    case Broken => PollStep(Nothing, x.wire.(usable := false), true)
    case Quiet => PollStep(Nothing, x.wire, true)
    case Got(m) =>
      if m.failed then PollStep(Nothing, x.wire, true)
      else
        match m.answer
        case Status(text) => PollStep(Payload(text), x.wire, true)
        case ToolError => PollStep(Nothing, x.wire, true)
        case Misshapen => PollStep(Nothing, x.wire.(usable := false), true)
        case Unexpected => PollStep(Crash, x.wire, true)
  }

  function StatusPayload(read: Reader, w: Wire, env: Poll): (p: PollStep) {
    if !w.usable then PollStep(Nothing, w, false)
    else if w.initialized then Interpret(Request(read, w, env.ask))
    else
      var x := Request(read, w, env.handshake);
      if HandshakeHolds(x, env.noted) then Interpret(Request(read, x.wire.(initialized := true), env.ask))
      else PollStep(Nothing, x.wire.(usable := false), false)
  }

  lemma InterpretedAnswer(parse: Parser, ahead: Ahead, read: Reader, w: Wire, turn: Turn)
    requires TakesNext(parse, ahead, read)
    ensures var p := Interpret(Request(read, w, turn));
            && p.wire.nextId == w.nextId + 1 && p.wire.initialized == w.initialized
            && (p.polled.Payload? ==> p.wire.usable == w.usable && exists line :: Confirms(parse, line, p))
  {
    var x := Request(read, w, turn);
    RequestIsCorrelated(parse, ahead, read, w, turn);
    var p := Interpret(x);
    if p.polled.Payload? {
      var used := UsedByRequest(read, w, turn);
      assert Confirms(parse, used[|used| - 1], p);
    }
  }

  /** The line is a successful reply to the newest request, and carries this status text. */
  predicate Confirms(parse: Parser, line: seq<Byte>, p: PollStep) {
    && p.polled.Payload?
    && OutcomeOf(parse(line)) == Got(Message(Some(p.wire.nextId as real), false, Status(p.polled.text)))
  }

  lemma StatusIsConfirmed(parse: Parser, ahead: Ahead, read: Reader, w: Wire, env: Poll)
    requires TakesNext(parse, ahead, read)
    ensures var p := StatusPayload(read, w, env);
            && (p.polled.Payload? ==> p.wire.usable && p.wire.initialized && exists line :: Confirms(parse, line, p))
            && (p.asked ==>
                  w.usable && p.wire.initialized && p.wire.nextId == w.nextId + (if w.initialized then 1 else 2))
  {
    if w.usable && w.initialized {
      InterpretedAnswer(parse, ahead, read, w, env.ask);
    } else if w.usable {
      var x := Request(read, w, env.handshake);
      RequestIsCorrelated(parse, ahead, read, w, env.handshake);
      InterpretedAnswer(parse, ahead, read, x.wire.(initialized := true), env.ask);
    }
  }

  /** A status text comes from a successful reply to the newest request of a live, initialized
      connection; an unusable connection stays so and nothing more is asked of it. */
  lemma StatusIsAnAnswer(parse: Parser, w: Wire, env: Poll)
    ensures var p := StatusPayload(ReaderOf(parse), w, env);
            && (p.polled.Payload? ==> p.wire.usable && p.wire.initialized && exists line :: Confirms(parse, line, p))
            && (!w.usable ==> p == PollStep(Nothing, w, false))
            && (p.asked ==>
                  w.usable && p.wire.initialized && p.wire.nextId == w.nextId + (if w.initialized then 1 else 2))
  {
    ReaderTakesNext(parse);
    StatusIsConfirmed(parse, LinesAhead, ReaderOf(parse), w, env);
  }

  // ---- wait_for ----

  /** What the surroundings do in one round: whether a new observer process could be started, if one
      is needed, and what its pipe does; the status call; whether the daemon lives; whether the
      deadline has passed. */
  datatype Round = Round(opens: bool, pipe: seq<PipeEvent>, poll: Poll, alive: bool, late: bool)

  /** How a wait ends. `StillWaiting` is a run that has not ended within the rounds given. */
  datatype Exit =
    | Ready(payload: string) | DaemonExited | TimedOut(answered: bool, usable: bool)
    | OpenFailed | Crashed | StillWaiting

  /** The connections opened so far, whether the last is open, and the status requests sent. */
  datatype Watch = Watch(wires: seq<Wire>, open: bool, requests: nat)

  datatype Waited = Waited(exit: Exit, watch: Watch)

  type Predicate = string -> bool

  /** A status call: what it gives and what it leaves of the connection. */
  type Poller = (Wire, Poll) -> PollStep

  function PollerOf(parse: Parser): (poll: Poller) {
    (w, env) => StatusPayload(ReaderOf(parse), w, env)
  }

  function Reopen(s: Watch, pipe: seq<PipeEvent>): (t: Watch)
    ensures t.open && t.wires != []
  {
    if s.open && s.wires != [] then s else Watch(s.wires + [Fresh(pipe)], true, s.requests)
  }

  function Current(s: Watch): (w: Wire)
    requires s.wires != []
  {
    s.wires[|s.wires| - 1]
  }

  function Record(s: Watch, p: PollStep): (t: Watch)
    requires s.wires != []
  {
    Watch(s.wires[|s.wires| - 1 := p.wire], p.wire.usable, s.requests + if p.asked then 1 else 0)
  }

  /** How a round ends the wait, if it does. */
  function Verdict(ready: Predicate, round: Round, p: PollStep): (e: Option<Exit>) {
    if p.polled.Crash? then Some(Crashed)
    else if p.polled.Payload? && ready(p.polled.text) then Some(Ready(p.polled.text))
    else if !round.alive then Some(DaemonExited)
    else if round.late then Some(TimedOut(p.polled.Payload?, p.wire.usable))
    else None
  }

  function Wait(poll: Poller, ready: Predicate, s: Watch, rounds: seq<Round>): (r: Waited)
    decreases rounds
  {
    if rounds == [] then Waited(StillWaiting, s)
    else if !s.open && !rounds[0].opens then Waited(OpenFailed, s)
    else
      var held := Reopen(s, rounds[0].pipe);
      var p := poll(Current(held), rounds[0].poll);
      var next := Record(held, p);
      var verdict := Verdict(ready, rounds[0], p);
      if verdict.Some? then Waited(verdict.value, next.(open := false)) else Wait(poll, ready, next, rounds[1..])
  }

  /** The status calls a wait makes, in order. */
  function Polls(poll: Poller, ready: Predicate, s: Watch, rounds: seq<Round>): (polls: seq<PollStep>)
    ensures |polls| <= |rounds|
    decreases rounds
  {
    if rounds == [] || (!s.open && !rounds[0].opens) then []
    else
      var held := Reopen(s, rounds[0].pipe);
      var p := poll(Current(held), rounds[0].poll);
      if Verdict(ready, rounds[0], p).Some? then [p] else [p] + Polls(poll, ready, Record(held, p), rounds[1..])
  }

  /** Every observer but the newest was found unusable; a closed newest one too. */
  ghost predicate Orderly(s: Watch) {
    && (forall k :: 0 <= k < |s.wires| - 1 ==> !s.wires[k].usable)
    && (s.wires != [] ==> s.open == Current(s).usable)
    && (s.wires == [] ==> !s.open)
  }

  function Unusable(wires: seq<Wire>): (n: nat) {
    if wires == [] then 0 else Unusable(wires[..|wires| - 1]) + if wires[|wires| - 1].usable then 0 else 1
  }

  lemma {:induction false} AllUnusable(wires: seq<Wire>)
    requires forall k :: 0 <= k < |wires| ==> !wires[k].usable
    ensures Unusable(wires) == |wires|
  {
    if wires != [] {
      AllUnusable(wires[..|wires| - 1]);
    }
  }

  predicate NotReady(ready: Predicate, p: PollStep) {
    p.polled.Nothing? || (p.polled.Payload? && !ready(p.polled.text))
  }

  /** What the exit says about the last status call and its round. */
  predicate Explains(ready: Predicate, exit: Exit, p: PollStep, round: Round) {
    match exit
    case Ready(text) => p.polled == Payload(text) && ready(text)
    case DaemonExited => NotReady(ready, p) && !round.alive
    case TimedOut(answered, usable) => NotReady(ready, p) && round.alive && round.late && answered == p.polled.Payload?
    && usable == p.wire.usable
    case Crashed => p.polled.Crash?
    case OpenFailed => NotReady(ready, p) && round.alive && !round.late && !p.wire.usable
    case StillWaiting => NotReady(ready, p) && round.alive && !round.late
  }

  predicate GoesOn(ready: Predicate, p: PollStep, round: Round) {
    NotReady(ready, p) && round.alive && !round.late
  }

  lemma VerdictExplains(ready: Predicate, round: Round, p: PollStep)
    ensures var v := Verdict(ready, round, p);
            (v.None? <==> GoesOn(ready, p, round)) && (v.Some? ==> Explains(ready, v.value, p, round))
  {
  }

  /** The wait goes on exactly past the rounds that are not ready, alive and in time, and its exit says
      what the last round was. */
  ghost predicate Accounts(ready: Predicate, polls: seq<PollStep>, exit: Exit, rounds: seq<Round>) {
    && |polls| <= |rounds|
    && (forall k :: 0 <= k < |polls| - 1 ==> GoesOn(ready, polls[k], rounds[k]))
    && (polls != [] ==> Explains(ready, exit, polls[|polls| - 1], rounds[|polls| - 1]))
    && (polls == [] ==> exit == (if rounds == [] then StillWaiting else OpenFailed))
    && (exit.StillWaiting? ==> |polls| == |rounds|)
    && (exit.OpenFailed? ==> |polls| < |rounds| && !rounds[|polls|].opens)
  }

  lemma LaterRound(ready: Predicate, p: PollStep, polls: seq<PollStep>, exit: Exit, rounds: seq<Round>)
    requires rounds != [] && GoesOn(ready, p, rounds[0]) && Accounts(ready, polls, exit, rounds[1..])
    requires polls == [] && exit.OpenFailed? ==> !p.wire.usable
    ensures Accounts(ready, [p] + polls, exit, rounds)
  {
    var all := [p] + polls;
    forall k | 0 <= k < |all| - 1 ensures GoesOn(ready, all[k], rounds[k]) {
      if k > 0 {
        assert all[k] == polls[k - 1] && rounds[k] == rounds[1..][k - 1];
      }
    }
  }

  lemma {:induction false} ExitsAreExplained(poll: Poller, ready: Predicate, s: Watch, rounds: seq<Round>)
    requires Orderly(s)
    ensures Accounts(ready, Polls(poll, ready, s, rounds), Wait(poll, ready, s, rounds).exit, rounds)
    decreases rounds
  {
    if rounds != [] && (s.open || rounds[0].opens) {
      var held := Reopen(s, rounds[0].pipe);
      var p := poll(Current(held), rounds[0].poll);
      VerdictExplains(ready, rounds[0], p);
      if Verdict(ready, rounds[0], p).None? {
        var next := Record(held, p);
        ExitsAreExplained(poll, ready, next, rounds[1..]);
        LaterRound(ready, p, Polls(poll, ready, next, rounds[1..]), Wait(poll, ready, next, rounds[1..]).exit, rounds);
      }
    }
  }

  /** Every run of the wait keeps the observers orderly: one more is opened than were found unusable,
      and none is open once the wait has ended. */
  lemma {:induction false} ObserversAreOrderly(poll: Poller, ready: Predicate, s: Watch, rounds: seq<Round>)
    requires Orderly(s)
    ensures var r := Wait(poll, ready, s, rounds);
            && |s.wires| <= |r.watch.wires| && s.requests <= r.watch.requests
            && (forall k :: 0 <= k < |r.watch.wires| - 1 ==> !r.watch.wires[k].usable)
            && (r.exit != StillWaiting ==> !r.watch.open)
            && (r.exit.StillWaiting? ==> Orderly(r.watch))
            && (r.exit.Ready? ==> r.watch.wires != [] && ready(r.exit.payload))
            && (r.exit.OpenFailed? ==> forall k :: 0 <= k < |r.watch.wires| ==> !r.watch.wires[k].usable)
    decreases rounds
  {
    if rounds != [] && (s.open || rounds[0].opens) {
      var held := Reopen(s, rounds[0].pipe);
      var p := poll(Current(held), rounds[0].poll);
      if Verdict(ready, rounds[0], p).None? {
        ObserversAreOrderly(poll, ready, Record(held, p), rounds[1..]);
      }
    }
  }

  /** A status text leaves the connection usable. */
  ghost predicate KeepsUsable(poll: Poller) {
    forall w, env :: poll(w, env).polled.Payload? ==> poll(w, env).wire.usable
  }

  lemma {:induction false} ReadyMeansUsable(poll: Poller, ready: Predicate, s: Watch, rounds: seq<Round>)
    requires KeepsUsable(poll)
    ensures var r := Wait(poll, ready, s, rounds); r.exit.Ready? ==> r.watch.wires != [] && Current(r.watch).usable
    decreases rounds
  {
    if rounds != [] && (s.open || rounds[0].opens) {
      var held := Reopen(s, rounds[0].pipe);
      ReadyMeansUsable(poll, ready, Record(held, poll(Current(held), rounds[0].poll)), rounds[1..]);
    }
  }

  lemma ObserversAreCounted(poll: Poller, ready: Predicate, rounds: seq<Round>)
    requires KeepsUsable(poll)
    ensures var r := Wait(poll, ready, Watch([], false, 0), rounds);
            var wires := r.watch.wires;
            && (r.exit.Ready? ==> ready(r.exit.payload) && |wires| == 1 + Unusable(wires))
            && |wires| == Unusable(wires) + (if wires != [] && Current(r.watch).usable then 1 else 0)
            && (r.exit != StillWaiting ==> !r.watch.open)
            && (r.exit.OpenFailed? ==> |wires| == Unusable(wires))
  {
    var s := Watch([], false, 0);
    ObserversAreOrderly(poll, ready, s, rounds);
    ReadyMeansUsable(poll, ready, s, rounds);
    var wires := Wait(poll, ready, s, rounds).watch.wires;
    if wires != [] {
      AllUnusable(wires[..|wires| - 1]);
    }
  }

  /** Of every wait from its start: a normal return carries a payload that satisfies the predicate, on
      a usable observer; the observers opened are those found unusable and at most one more, exactly
      one more on a normal return; none stays open; and each exit is what the rounds call for. */
  lemma WaitIsSound(parse: Parser, ready: Predicate, rounds: seq<Round>)
    ensures var s := Watch([], false, 0);
            var r := Wait(PollerOf(parse), ready, s, rounds);
            var wires := r.watch.wires;
            && (r.exit.Ready? ==> ready(r.exit.payload) && |wires| == 1 + Unusable(wires))
            && |wires| == Unusable(wires) + (if wires != [] && Current(r.watch).usable then 1 else 0)
            && (r.exit != StillWaiting ==> !r.watch.open)
            && Accounts(ready, Polls(PollerOf(parse), ready, s, rounds), r.exit, rounds)
  {
    forall w, env
      ensures StatusPayload(ReaderOf(parse), w, env).polled.Payload? ==>
                StatusPayload(ReaderOf(parse), w, env).wire.usable
    {
      StatusIsAnAnswer(parse, w, env);
    }
    ObserversAreCounted(PollerOf(parse), ready, rounds);
    ExitsAreExplained(PollerOf(parse), ready, Watch([], false, 0), rounds);
  }

  // ---- the objects ----

  /** `await` waits for the reply to request `id`, one read at a time. */
  ghost predicate AwaitSteps(await: (Wire, nat) -> Exchange, read: Reader, id: nat) {
    && (forall w: Wire :: await(w, 0) == Exchange(Quiet, w))
    && (forall w: Wire, budget: nat :: budget > 0 ==>
        await(w, budget) == AfterRead(await, w, read(w.buffer, w.pipe), id, budget))
  }

  ghost function AfterRead(await: (Wire, nat) -> Exchange, w: Wire, r: ReadStep, id: nat, budget: nat): (x: Exchange)
    requires budget > 0
  {
    if Stray(r.outcome, id) then await(w.Past(r), budget - 1) else Exchange(r.outcome, w.Past(r))
  }

  ghost function AwaitOf(read: Reader, id: nat): (await: (Wire, nat) -> Exchange) {
    (w: Wire, budget: nat) => Await(read, w, id, budget)
  }

  lemma AwaitOfSteps(read: Reader, id: nat)
    ensures AwaitSteps(AwaitOf(read, id), read, id)
  {
  }

  /** `read` is the reader for a decoder, `poll` the status call. The triggers keep the definitions
      folded wherever only the names are needed. */
  ghost predicate ReadsAs(read: Reader, parse: Parser) {
    forall b, p {:trigger Read(parse, b, p)} :: read(b, p) == Read(parse, b, p)
  }

  ghost predicate PollsAs(poll: Poller, parse: Parser) {
    forall w, env {:trigger StatusPayload(ReaderOf(parse), w, env)} ::
      poll(w, env) == StatusPayload(ReaderOf(parse), w, env)
  }

  class StatusObserver {
    const parse: Parser
    var buffer: seq<Byte>
    var nextId: nat
    var initialized: bool
    var usable: bool
    var closed: bool
    /** What the process's standard output does from here on. */
    var pipe: seq<PipeEvent>

    ghost function State(): (w: Wire)
      reads this
    {
      Wire(buffer, pipe, nextId, initialized, usable)
    }

    constructor (parse: Parser, pipe: seq<PipeEvent>)
      ensures State() == Fresh(pipe) && !closed && this.parse == parse
    {
      this.parse := parse;
      buffer, nextId, initialized, usable, closed := [], 0, false, true, false;
      this.pipe := pipe;
    }

    method Close()
      modifies this`closed
      ensures closed
    {
      closed := true;
    }

    /** `_read`: the next message, `None` on a timeout, or an exception. */
    method ReadMessage(ghost read: Reader) returns (outcome: Outcome)
      requires ReadsAs(read, parse)
      modifies this`buffer, this`pipe
      ensures var r := read(old(buffer), old(pipe));
              outcome == r.outcome && State() == old(State()).Past(r)
    {
      while true
        invariant Read(parse, buffer, pipe) == Read(parse, old(buffer), old(pipe))
        decreases |pipe|, |buffer|
      {
        var n := LineEnd(buffer);
        if n < |buffer| {
          var line := buffer[..n];
          buffer := buffer[n + 1..];
          if !Blank(line) {
            var value := parse(line);
            return if value.Object? then Got(value.message) else Broken;
          }
        } else if pipe == [] {
          return Quiet;
        } else if pipe[0].Silence? {
          pipe := pipe[1..];
          return Quiet;
        } else if pipe[0].bytes == [] {
          return Broken;
        } else {
          buffer := buffer + pipe[0].bytes;
          pipe := pipe[1..];
        }
      }
    }

    /** The reading loop of `_request`. */
    method AwaitReply(budget: nat, ghost read: Reader, ghost await: (Wire, nat) -> Exchange) returns (outcome: Outcome)
      requires ReadsAs(read, parse) && AwaitSteps(await, read, nextId)
      modifies this`buffer, this`pipe
      ensures Exchange(outcome, State()) == await(old(State()), budget)
    {
      var left := budget;
      while left > 0
        invariant await(State(), left) == await(old(State()), budget)
      {
        assert await(State(), left) == AfterRead(await, State(), read(buffer, pipe), nextId, left);
        outcome := ReadMessage(read);
        if outcome.Got? {
          if outcome.message.id == Some(nextId as real) {
            return;
          }
        } else {
          return;
        }
        left := left - 1;
      }
      outcome := Quiet;
    }

    /** `_request`. */
    method RequestReply(turn: Turn) returns (outcome: Outcome)
      modifies this`buffer, this`pipe, this`nextId
      ensures Exchange(outcome, State()) == Request(ReaderOf(parse), old(State()), turn)
    {
      nextId := nextId + 1;
      if turn.sent {
        AwaitOfSteps(ReaderOf(parse), nextId);
        outcome := AwaitReply(turn.budget, ReaderOf(parse), AwaitOf(ReaderOf(parse), nextId));
      } else {
        outcome := Broken;
      }
    }

    /** `status_payload`; `asked` is the increment of the sandbox's request counter. */
    method GetStatus(env: Poll, ghost poll: Poller) returns (polled: Polled, asked: bool)
      requires PollsAs(poll, parse)
      modifies this`buffer, this`pipe, this`nextId, this`initialized, this`usable
      ensures PollStep(polled, State(), asked) == poll(old(State()), env)
    {
      assert poll(State(), env) == StatusPayload(ReaderOf(parse), State(), env);
      polled, asked := Nothing, false;
      if !usable {
        return;
      }
      if !initialized {
        var first := RequestReply(env.handshake);
        if !first.Got? || first.message.failed || !env.noted {
          usable := false;
          return;
        }
        initialized := true;
      }
      asked := true;
      var reply := RequestReply(env.ask);
      if reply.Broken? {
        usable := false;
      } else if reply.Got? && !reply.message.failed {
        match reply.message.answer
        case Status(text) => polled := Payload(text);
        case ToolError =>
        case Misshapen => usable := false;
        case Unexpected => polled := Crash;
      }
    }
  }

  class Sandbox {
    var processes: nat
    var connections: nat
    var requests: nat

    method OpenStatusObserver(parse: Parser, pipe: seq<PipeEvent>) returns (observer: StatusObserver)
      modifies this`processes, this`connections
      ensures fresh(observer) && observer.State() == Fresh(pipe) && !observer.closed && observer.parse == parse
      ensures processes == old(processes) + 1 && connections == old(connections) + 1
    {
      observer := new StatusObserver(parse, pipe);
      processes := processes + 1;
      connections := connections + 1;
    }
  }

  /** What a wait comes to from a given record and round on. */
  type Outlook = (Watch, nat) -> Waited

  ghost function Stepped(wait: Outlook, ready: Predicate, s: Watch, round: Round, i: nat, p: PollStep): (r: Waited)
    requires s.wires != []
  {
    var v := Verdict(ready, round, p);
    if v.Some? then Waited(v.value, Record(s, p).(open := false)) else wait(Record(s, p), i + 1)
  }

  /** One more round on an open observer, and no more rounds. */
  ghost predicate Stepping(wait: Outlook, poll: Poller, ready: Predicate, rounds: seq<Round>) {
    && (forall s: Watch, i: nat :: s.open && s.wires != [] && i < |rounds| ==>
          wait(s, i) == Stepped(wait, ready, s, rounds[i], i, poll(Current(s), rounds[i].poll)))
    && (forall s: Watch :: wait(s, |rounds|) == Waited(StillWaiting, s))
  }

  ghost function OutlookOf(poll: Poller, ready: Predicate, rounds: seq<Round>): (wait: Outlook) {
    (s: Watch, i: nat) => if i <= |rounds| then Wait(poll, ready, s, rounds[i..]) else Waited(StillWaiting, s)
  }

  lemma WaitStep(poll: Poller, ready: Predicate, s: Watch, rounds: seq<Round>, i: nat)
    requires s.open && s.wires != [] && i < |rounds|
    ensures var p := poll(Current(s), rounds[i].poll);
            var v := Verdict(ready, rounds[i], p);
            Wait(poll, ready, s, rounds[i..]) ==
            if v.Some? then Waited(v.value, Record(s, p).(open := false))
            else Wait(poll, ready, Record(s, p), rounds[i + 1..])
  {
    assert rounds[i..][0] == rounds[i] && rounds[i..][1..] == rounds[i + 1..];
  }

  lemma OutlookSteps(poll: Poller, ready: Predicate, rounds: seq<Round>)
    ensures Stepping(OutlookOf(poll, ready, rounds), poll, ready, rounds)
  {
    forall s: Watch, i: nat | s.open && s.wires != [] && i < |rounds|
      ensures OutlookOf(poll, ready, rounds)(s, i) ==
              Stepped(OutlookOf(poll, ready, rounds), ready, s, rounds[i], i, poll(Current(s), rounds[i].poll))
    {
      WaitStep(poll, ready, s, rounds, i);
    }
  }

  /** The life of one observer: polled until the wait ends or the observer is unusable, and then
      closed. `s` and `t` are the wait's record before and after. */
  method Observe(sandbox: Sandbox, observer: StatusObserver, ready: Predicate, rounds: seq<Round>, start: nat,
                 ghost poll: Poller, ghost wait: Outlook, ghost s: Watch)
    returns (exit: Option<Exit>, i: nat, ghost t: Watch)
    requires start <= |rounds| && s.open && s.wires != [] && Current(s) == observer.State() && observer.usable
             && !observer.closed
    requires PollsAs(poll, observer.parse) && Stepping(wait, poll, ready, rounds)
    modifies sandbox`requests, observer
    ensures t.wires == s.wires[|s.wires| - 1 := observer.State()]
    ensures sandbox.requests - old(sandbox.requests) == t.requests - s.requests
    ensures start <= i <= |rounds| && (exit.None? ==> start < i)
    ensures if exit.Some? then wait(s, start) == Waited(exit.value, t) else !t.open && wait(s, start) == wait(t, i)
    ensures observer.closed <==> exit != Some(StillWaiting)
  {
    i, t := start, s;
    while i < |rounds|
      invariant start <= i <= |rounds| && t.open && t.wires == s.wires[|s.wires| - 1 := observer.State()]
      invariant observer.usable && !observer.closed
      invariant sandbox.requests - old(sandbox.requests) == t.requests - s.requests
      invariant wait(t, i) == wait(s, start)
    {
      ghost var p := poll(Current(t), rounds[i].poll);
      assert wait(t, i) == Stepped(wait, ready, t, rounds[i], i, p);
      var polled, asked := observer.GetStatus(rounds[i].poll, poll);
      assert p == PollStep(polled, observer.State(), asked);
      sandbox.requests := sandbox.requests + if asked then 1 else 0;
      t := Record(t, p);
      exit := None;
      if polled.Crash? {
        exit := Some(Crashed);
      } else if polled.Payload? && ready(polled.text) {
        exit := Some(Ready(polled.text));
      } else if !rounds[i].alive {
        exit := Some(DaemonExited);
      } else if rounds[i].late {
        exit := Some(TimedOut(polled.Payload?, observer.usable));
      }
      assert exit == Verdict(ready, rounds[i], p);
      if exit.Some? {
        t := t.(open := false);
        observer.Close();
        return;
      }
      i := i + 1;
      if !observer.usable {
        observer.Close();
        return;
      }
    }
    exit := Some(StillWaiting);
  }

  ghost predicate Shows(observers: seq<StatusObserver>, s: Watch)
    reads observers
  {
    |observers| == |s.wires| && forall k :: 0 <= k < |observers| ==> observers[k].State() == s.wires[k]
  }

  /** `wait_for`: the exit, and the observers it opened, in order. */
  method WaitFor(sandbox: Sandbox, parse: Parser, ready: Predicate, rounds: seq<Round>, ghost poll: Poller)
    returns (exit: Exit, observers: seq<StatusObserver>)
    requires PollsAs(poll, parse)
    modifies sandbox
    ensures forall o <- observers :: fresh(o)
    ensures var r := Wait(poll, ready, Watch([], false, 0), rounds);
            exit == r.exit && Shows(observers, r.watch) && sandbox.requests == old(sandbox.requests) + r.watch.requests
    ensures sandbox.processes == old(sandbox.processes) + |observers|
    ensures sandbox.connections == old(sandbox.connections) + |observers|
    ensures exit != StillWaiting ==> forall o <- observers :: o.closed
  {
    observers := [];
    ghost var s := Watch([], false, 0);
    ghost var whole := Wait(poll, ready, s, rounds);
    OutlookSteps(poll, ready, rounds);
    var i := 0;
    while i < |rounds|
      invariant 0 <= i <= |rounds| && !s.open
      invariant Shows(observers, s) && forall o <- observers :: fresh(o) && o.closed
      invariant Wait(poll, ready, s, rounds[i..]) == whole
      invariant sandbox.requests == old(sandbox.requests) + s.requests
      invariant sandbox.processes == old(sandbox.processes) + |observers|
      invariant sandbox.connections == old(sandbox.connections) + |observers|
      decreases |rounds| - i
    {
      if !rounds[i].opens {
        return OpenFailed, observers;
      }
      OpenStep(poll, ready, s, rounds, i);
      var observer := sandbox.OpenStatusObserver(parse, rounds[i].pipe);
      observers := observers + [observer];
      var end;
      end, i, s := Observe(sandbox, observer, ready, rounds, i, poll, OutlookOf(poll, ready, rounds),
                           Reopen(s, rounds[i].pipe));
      if end.Some? {
        return end.value, observers;
      }
    }
    exit := StillWaiting;
  }

  /** Opening a new observer is not a round of its own. */
  lemma OpenStep(poll: Poller, ready: Predicate, s: Watch, rounds: seq<Round>, i: nat)
    requires !s.open && i < |rounds| && rounds[i].opens
    ensures Wait(poll, ready, s, rounds[i..]) == Wait(poll, ready, Reopen(s, rounds[i].pipe), rounds[i..])
  {
    assert rounds[i..][0] == rounds[i];
  }
}
