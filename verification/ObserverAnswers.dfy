/** What the observer makes of a pipe that delivers: a reply that arrives in time is the answer of the
    status call, and a ready answer ends the wait. */
module ObserverAnswers {
  import opened Options
  import opened Text
  import opened Utf8
  import opened ObserverStream
  import opened Observer

  // ---- one read ----

  /** The next `k` events of the pipe all bring bytes. */
  predicate Brings(pipe: seq<PipeEvent>, k: nat) {
    k <= |pipe| && forall i :: 0 <= i < k ==> pipe[i].Chunk? && pipe[i].bytes != []
  }

  /** The lines that are complete once the next `k` events have been read. */
  function Arriving(buffer: seq<Byte>, pipe: seq<PipeEvent>, k: nat): (lines: seq<seq<Byte>>)
    requires k <= |pipe|
  {
    Lines(buffer + Flow(pipe[..k]))
  }

  lemma NoLineEnd(buffer: seq<Byte>)
    requires LineEnd(buffer) == |buffer|
    ensures Lines(buffer) == []
  {
  }

  /** Reading one event of the pipe changes nothing about what arrives. */
  lemma ArrivingStep(buffer: seq<Byte>, pipe: seq<PipeEvent>, k: nat)
    requires Brings(pipe, k) && k > 0
    ensures Brings(pipe[1..], k - 1)
    ensures Arriving(buffer, pipe, k) == Arriving(buffer + pipe[0].bytes, pipe[1..], k - 1)
  {
    assert pipe[..k][1..] == pipe[1..][..k - 1];
    Assoc(buffer, pipe[0].bytes, Flow(pipe[1..][..k - 1]));
  }

  /** A read of what arrives takes its first line. */
  lemma {:induction false} ReadArrives(parse: Parser, buffer: seq<Byte>, pipe: seq<PipeEvent>, k: nat)
    returns (left: nat)
    requires Brings(pipe, k) && Arriving(buffer, pipe, k) != []
    ensures var r := Read(parse, buffer, pipe);
            && Brings(r.pipe, left) && r.pipe[left..] == pipe[k..]
            && r.line.Some? && r.outcome == OutcomeOf(parse(r.line.value))
            && Arriving(buffer, pipe, k) == [r.line.value] + Arriving(r.buffer, r.pipe, left)
    decreases |pipe|, |buffer|
  {
    var n := LineEnd(buffer);
    if n < |buffer| {
      FirstLine(buffer, Flow(pipe[..k]));
      if Blank(buffer[..n]) {
        left := ReadArrives(parse, buffer[n + 1..], pipe, k);
      } else {
        left := k;
      }
    } else {
      if k == 0 {
        Nil(buffer);
        NoLineEnd(buffer);
      }
      ArrivingStep(buffer, pipe, k);
      left := ReadArrives(parse, buffer + pipe[0].bytes, pipe[1..], k - 1);
    }
  }

  /** Once nothing more arrives, a read waits: it times out, or meets the end of the stream. */
  lemma {:induction false} ReadStalls(parse: Parser, buffer: seq<Byte>, pipe: seq<PipeEvent>, k: nat)
    requires Brings(pipe, k) && Arriving(buffer, pipe, k) == []
    ensures var r := Read(parse, buffer, pipe);
            && (k == |pipe| || pipe[k].Silence? ==> r.outcome == Quiet)
            && (k < |pipe| && pipe[k] == Chunk([]) ==> r.outcome == Broken)
    decreases |pipe|, |buffer|
  {
    var n := LineEnd(buffer);
    if n < |buffer| {
      FirstLine(buffer, Flow(pipe[..k]));
      ReadStalls(parse, buffer[n + 1..], pipe, k);
    } else if k > 0 {
      ArrivingStep(buffer, pipe, k);
      ReadStalls(parse, buffer + pipe[0].bytes, pipe[1..], k - 1);
    }
  }

  // ---- one request ----

  /** The first `n` lines are replies to other requests. */
  ghost predicate Strays(parse: Parser, lines: seq<seq<Byte>>, n: nat, id: nat) {
    n <= |lines| && forall i :: 0 <= i < n ==> Stray(OutcomeOf(parse(lines[i])), id)
  }

  lemma SkipOne(parse: Parser, w: Wire, id: nat, budget: nat, k: nat) returns (next: Wire, left: nat)
    requires Brings(w.pipe, k) && budget > 0
    requires var lines := Arriving(w.buffer, w.pipe, k); lines != [] && Stray(OutcomeOf(parse(lines[0])), id)
    ensures Await(ReaderOf(parse), w, id, budget) == Await(ReaderOf(parse), next, id, budget - 1)
    ensures next == w.(buffer := next.buffer, pipe := next.pipe)
    ensures Brings(next.pipe, left) && next.pipe[left..] == w.pipe[k..]
    ensures Arriving(next.buffer, next.pipe, left) == Arriving(w.buffer, w.pipe, k)[1..]
  {
    var r := Read(parse, w.buffer, w.pipe);
    left := ReadArrives(parse, w.buffer, w.pipe, k);
    Cons(r.line.value, Arriving(r.buffer, r.pipe, left));
    next := w.Past(r);
  }

  lemma StraysLeft(parse: Parser, lines: seq<seq<Byte>>, n: nat, id: nat)
    requires Strays(parse, lines, n, id) && n > 0
    ensures Strays(parse, lines[1..], n - 1, id) && lines[1..][n - 1..] == lines[n..]
  {
    assert forall i :: 0 <= i < n - 1 ==> lines[1..][i] == lines[i + 1];
  }

  /** A wait passes over the replies to other requests, a read for each. */
  lemma {:induction false} AwaitSkips(parse: Parser, w: Wire, id: nat, budget: nat, k: nat, n: nat)
    returns (next: Wire, left: nat)
    requires Brings(w.pipe, k) && n <= budget && Strays(parse, Arriving(w.buffer, w.pipe, k), n, id)
    ensures Await(ReaderOf(parse), w, id, budget) == Await(ReaderOf(parse), next, id, budget - n)
    ensures next == w.(buffer := next.buffer, pipe := next.pipe)
    ensures Brings(next.pipe, left) && next.pipe[left..] == w.pipe[k..]
    ensures Arriving(next.buffer, next.pipe, left) == Arriving(w.buffer, w.pipe, k)[n..]
    decreases n
  {
    if n == 0 {
      next, left := w, k;
    } else {
      StraysLeft(parse, Arriving(w.buffer, w.pipe, k), n, id);
      var one, more := SkipOne(parse, w, id, budget, k);
      next, left := AwaitSkips(parse, one, id, budget - 1, more, n - 1);
    }
  }

  /** A line that arrives in time and is not a reply to another request ends the wait: what it holds is
      the outcome, and the lines behind it are left. */
  lemma AwaitAnswered(parse: Parser, w: Wire, id: nat, budget: nat, k: nat, n: nat) returns (left: nat)
    requires Brings(w.pipe, k) && n < budget
    requires var lines := Arriving(w.buffer, w.pipe, k);
             Strays(parse, lines, n, id) && n < |lines| && !Stray(OutcomeOf(parse(lines[n])), id)
    ensures var x := Await(ReaderOf(parse), w, id, budget);
            && x.outcome == OutcomeOf(parse(Arriving(w.buffer, w.pipe, k)[n]))
            && x.wire == w.(buffer := x.wire.buffer, pipe := x.wire.pipe)
            && Brings(x.wire.pipe, left)
            && Arriving(x.wire.buffer, x.wire.pipe, left) == Arriving(w.buffer, w.pipe, k)[n + 1..]
  {
    var lines := Arriving(w.buffer, w.pipe, k);
    var next, more := AwaitSkips(parse, w, id, budget, k, n);
    left := ReadArrives(parse, next.buffer, next.pipe, more);
    var r := Read(parse, next.buffer, next.pipe);
    assert lines[n..][0] == lines[n] && lines[n..][1..] == lines[n + 1..];
    Cons(r.line.value, Arriving(r.buffer, r.pipe, left));
  }

  /** Without such a line the wait gives nothing: the clock runs out or the pipe falls silent, unless
      the stream ends, which breaks it. */
  lemma AwaitUnanswered(parse: Parser, w: Wire, id: nat, budget: nat, k: nat, n: nat)
    requires Brings(w.pipe, k) && n <= budget && Strays(parse, Arriving(w.buffer, w.pipe, k), n, id)
    requires || n == budget
             || (n == |Arriving(w.buffer, w.pipe, k)| && (k == |w.pipe| || w.pipe[k] in {Silence, Chunk([])}))
    ensures var x := Await(ReaderOf(parse), w, id, budget);
            x.outcome == if n < budget && k < |w.pipe| && w.pipe[k] == Chunk([]) then Broken else Quiet
  {
    var next, left := AwaitSkips(parse, w, id, budget, k, n);
    if n < budget {
      assert Arriving(w.buffer, w.pipe, k)[n..] == [];
      ReadStalls(parse, next.buffer, next.pipe, left);
      assert |next.pipe[left..]| == |w.pipe[k..]|;
      assert k < |w.pipe| ==> next.pipe[left] == next.pipe[left..][0] == w.pipe[k..][0];
    }
  }

  // ---- one status call ----

  /** What a status call gives and leaves when this is the line that answers its tool request. */
  predicate Gives(value: Parsed, p: PollStep) {
    match value
    case Object(m) =>
      if m.failed || m.answer.ToolError? then p.polled == Nothing && p.wire.usable
      else if m.answer.Status? then p.polled == Payload(m.answer.payload) && p.wire.usable
      else if m.answer.Misshapen? then p.polled == Nothing && !p.wire.usable
      else p.polled == Crash
    case Other => p.polled == Nothing && !p.wire.usable
    case Malformed => p.polled == Nothing && !p.wire.usable
  }

  /** Line `n` of those that arrive within the budget is the first that is no reply to another request
      than `id`. */
  ghost predicate Answered(parse: Parser, lines: seq<seq<Byte>>, n: nat, id: nat, turn: Turn) {
    && turn.sent && n < turn.budget && n < |lines| && Strays(parse, lines, n, id)
    && (parse(lines[n]).Object? ==> parse(lines[n]).message.id == Some(id as real))
  }

  lemma AskedAndAnswered(parse: Parser, w: Wire, turn: Turn, k: nat, n: nat) returns (left: nat)
    requires Brings(w.pipe, k) && Answered(parse, Arriving(w.buffer, w.pipe, k), n, w.nextId + 1, turn)
    ensures var x := Request(ReaderOf(parse), w, turn);
            && x.outcome == OutcomeOf(parse(Arriving(w.buffer, w.pipe, k)[n]))
            && x.wire == w.(buffer := x.wire.buffer, pipe := x.wire.pipe, nextId := w.nextId + 1)
            && Brings(x.wire.pipe, left)
            && Arriving(x.wire.buffer, x.wire.pipe, left) == Arriving(w.buffer, w.pipe, k)[n + 1..]
  {
    left := AwaitAnswered(parse, w.(nextId := w.nextId + 1), w.nextId + 1, turn.budget, k, n);
  }

  /** The line that answers the tool request decides what the call gives. */
  lemma AnswerIsInterpreted(value: Parsed, x: Exchange)
    requires x.wire.usable && x.outcome == OutcomeOf(value)
    ensures var p := Interpret(x); Gives(value, p) && p.asked && p.wire == x.wire.(usable := p.wire.usable)
  {
  }

  lemma InterpretAnswered(parse: Parser, w: Wire, turn: Turn, k: nat, n: nat)
    requires w.usable && Brings(w.pipe, k) && Answered(parse, Arriving(w.buffer, w.pipe, k), n, w.nextId + 1, turn)
    ensures var p := Interpret(Request(ReaderOf(parse), w, turn));
            && Gives(parse(Arriving(w.buffer, w.pipe, k)[n]), p)
            && p.asked && p.wire.initialized == w.initialized && p.wire.nextId == w.nextId + 1
  {
    var left := AskedAndAnswered(parse, w, turn, k, n);
    AnswerIsInterpreted(parse(Arriving(w.buffer, w.pipe, k)[n]), Request(ReaderOf(parse), w, turn));
  }

  /** A status call on an initialized connection: the line that answers it decides. */
  lemma StatusAnswered(parse: Parser, w: Wire, env: Poll, k: nat, n: nat)
    requires w.usable && w.initialized && Brings(w.pipe, k)
    requires Answered(parse, Arriving(w.buffer, w.pipe, k), n, w.nextId + 1, env.ask)
    ensures var p := StatusPayload(ReaderOf(parse), w, env);
            && Gives(parse(Arriving(w.buffer, w.pipe, k)[n]), p)
            && p.asked && p.wire.initialized && p.wire.nextId == w.nextId + 1
  {
    InterpretAnswered(parse, w, env.ask, k, n);
  }

  lemma HandshakeAnswered(parse: Parser, w: Wire, env: Poll, k: nat, n: nat) returns (next: Wire, left: nat)
    requires w.usable && !w.initialized && Brings(w.pipe, k) && env.noted
    requires var lines := Arriving(w.buffer, w.pipe, k);
             && Answered(parse, lines, n, w.nextId + 1, env.handshake)
             && parse(lines[n]).Object? && !parse(lines[n]).message.failed
    ensures StatusPayload(ReaderOf(parse), w, env) == Interpret(Request(ReaderOf(parse), next, env.ask))
    ensures next.usable && next.initialized && next.nextId == w.nextId + 1 && Brings(next.pipe, left)
    ensures Arriving(next.buffer, next.pipe, left) == Arriving(w.buffer, w.pipe, k)[n + 1..]
  {
    left := AskedAndAnswered(parse, w, env.handshake, k, n);
    next := Request(ReaderOf(parse), w, env.handshake).wire.(initialized := true);
  }

  /** The first status call of a connection: a good reply to the handshake, then as before. */
  lemma FirstStatusAnswered(parse: Parser, w: Wire, env: Poll, k: nat, n: nat, j: nat)
    requires w.usable && !w.initialized && Brings(w.pipe, k) && env.noted
    requires var lines := Arriving(w.buffer, w.pipe, k);
             && Answered(parse, lines, n, w.nextId + 1, env.handshake)
             && parse(lines[n]).Object? && !parse(lines[n]).message.failed
             && Answered(parse, lines[n + 1..], j, w.nextId + 2, env.ask)
    ensures var p := StatusPayload(ReaderOf(parse), w, env);
            && Gives(parse(Arriving(w.buffer, w.pipe, k)[n + 1 + j]), p)
            && p.asked && p.wire.initialized && p.wire.nextId == w.nextId + 2
  {
    var next, left := HandshakeAnswered(parse, w, env, k, n);
    InterpretAnswered(parse, next, env.ask, left, j);
    assert Arriving(w.buffer, w.pipe, k)[n + 1..][j] == Arriving(w.buffer, w.pipe, k)[n + 1 + j];
  }

  /** A handshake that fails, in any way, loses the connection before anything is asked. */
  lemma HandshakeRefused(parse: Parser, w: Wire, env: Poll, k: nat, n: nat)
    requires w.usable && !w.initialized && Brings(w.pipe, k)
    requires var lines := Arriving(w.buffer, w.pipe, k);
             && Answered(parse, lines, n, w.nextId + 1, env.handshake)
             && (!parse(lines[n]).Object? || parse(lines[n]).message.failed || !env.noted)
    ensures var p := StatusPayload(ReaderOf(parse), w, env);
            p.polled == Nothing && !p.wire.usable && !p.wire.initialized && !p.asked
  {
    var left := AskedAndAnswered(parse, w, env.handshake, k, n);
  }

  /** The request goes unanswered: it cannot be written, the replies to others use up its time, or the
      pipe falls silent or ends behind them. */
  ghost predicate Unanswered(parse: Parser, w: Wire, turn: Turn, k: nat, n: nat)
    requires k <= |w.pipe|
  {
    turn.sent ==>
      && n <= turn.budget && Strays(parse, Arriving(w.buffer, w.pipe, k), n, w.nextId + 1)
      && (|| n == turn.budget
          || (n == |Arriving(w.buffer, w.pipe, k)| && (k == |w.pipe| || w.pipe[k] in {Silence, Chunk([])})))
  }

  lemma AskedAndUnanswered(parse: Parser, w: Wire, turn: Turn, k: nat, n: nat)
    requires Brings(w.pipe, k) && Unanswered(parse, w, turn, k, n)
    ensures var x := Request(ReaderOf(parse), w, turn);
            var ended := n < turn.budget && k < |w.pipe| && w.pipe[k] == Chunk([]);
            x.outcome == (if !turn.sent || ended then Broken else Quiet) && x.wire.usable == w.usable
  {
    if turn.sent {
      AwaitUnanswered(parse, w.(nextId := w.nextId + 1), w.nextId + 1, turn.budget, k, n);
    }
    ReaderTakesNext(parse);
    RequestIsCorrelated(parse, LinesAhead, ReaderOf(parse), w, turn);
  }

  /** A call that cannot be written, or that the end of the stream meets, loses the connection; one that
      is not answered in time does not. */
  lemma StatusUnanswered(parse: Parser, w: Wire, env: Poll, k: nat, n: nat)
    requires w.usable && w.initialized && Brings(w.pipe, k) && Unanswered(parse, w, env.ask, k, n)
    ensures var p := StatusPayload(ReaderOf(parse), w, env);
            var ended := n < env.ask.budget && k < |w.pipe| && w.pipe[k] == Chunk([]);
            p.polled == Nothing && p.asked && p.wire.usable == (env.ask.sent && !ended)
  {
    AskedAndUnanswered(parse, w, env.ask, k, n);
  }

  // ---- the wait ----

  /** The lines hold a good reply to request 1 and, behind it, the status text as the reply to
      request 2, with only other replies between. */
  ghost predicate ReportsReady(parse: Parser, lines: seq<seq<Byte>>, n: nat, j: nat, poll: Poll, text: string) {
    && Answered(parse, lines, n, 1, poll.handshake)
    && parse(lines[n]).Object? && !parse(lines[n]).message.failed
    && Answered(parse, lines[n + 1..], j, 2, poll.ask)
    && parse(lines[n + 1 + j]) == Object(Message(Some(2.0), false, Status(text)))
  }

  lemma ReadyEndsWait(poll: Poller, ready: Predicate, s: Watch, rounds: seq<Round>, text: string)
    requires rounds != [] && (s.open || rounds[0].opens) && ready(text)
    requires poll(Current(Reopen(s, rounds[0].pipe)), rounds[0].poll).polled == Payload(text)
    ensures Wait(poll, ready, s, rounds).exit == Ready(text)
  {
  }

  lemma ReadyEndsFirstRound(poll: Poller, ready: Predicate, rounds: seq<Round>, text: string)
    requires rounds != [] && rounds[0].opens && ready(text)
    requires poll(Fresh(rounds[0].pipe), rounds[0].poll).polled == Payload(text)
    ensures Wait(poll, ready, Watch([], false, 0), rounds).exit == Ready(text)
  {
    var s := Watch([], false, 0);
    assert Current(Reopen(s, rounds[0].pipe)) == Fresh(rounds[0].pipe);
    ReadyEndsWait(poll, ready, s, rounds, text);
  }

  lemma ReadyAnswerIsPolled(parse: Parser, w: Wire, env: Poll, k: nat, n: nat, text: string)
    requires w.usable && w.initialized && Brings(w.pipe, k)
    requires Answered(parse, Arriving(w.buffer, w.pipe, k), n, w.nextId + 1, env.ask)
    requires parse(Arriving(w.buffer, w.pipe, k)[n])
             == Object(Message(Some((w.nextId + 1) as real), false, Status(text)))
    ensures PollerOf(parse)(w, env).polled == Payload(text)
  {
    StatusAnswered(parse, w, env, k, n);
  }

  lemma ReadyDaemonIsPolled(parse: Parser, pipe: seq<PipeEvent>, env: Poll, k: nat, n: nat, j: nat, text: string)
    requires env.noted && Brings(pipe, k) && ReportsReady(parse, Arriving([], pipe, k), n, j, env, text)
    ensures PollerOf(parse)(Fresh(pipe), env).polled == Payload(text)
  {
    FirstStatusAnswered(parse, Fresh(pipe), env, k, n, j);
  }

  /** A ready answer on the connection that is open ends the wait with it. */
  lemma ReadyAnswerEndsWait(parse: Parser, ready: Predicate, s: Watch, rounds: seq<Round>, k: nat, n: nat, text: string)
    requires rounds != [] && s.open && s.wires != [] && Current(s).usable && Current(s).initialized
    requires Brings(Current(s).pipe, k)
    requires var w := Current(s);
             var lines := Arriving(w.buffer, w.pipe, k);
             && Answered(parse, lines, n, w.nextId + 1, rounds[0].poll.ask)
             && parse(lines[n]) == Object(Message(Some((w.nextId + 1) as real), false, Status(text)))
    requires ready(text)
    ensures Wait(PollerOf(parse), ready, s, rounds).exit == Ready(text)
  {
    ReadyAnswerIsPolled(parse, Current(s), rounds[0].poll, k, n, text);
    ReadyEndsWait(PollerOf(parse), ready, s, rounds, text);
  }

  /** A daemon that answers the handshake and then reports ready is seen to be ready in the first round,
      however its bytes are cut into chunks. */
  lemma ReadyDaemonIsSeen(parse: Parser, ready: Predicate, rounds: seq<Round>, k: nat, n: nat, j: nat, text: string)
    requires rounds != [] && rounds[0].opens && rounds[0].poll.noted && Brings(rounds[0].pipe, k)
    requires ReportsReady(parse, Arriving([], rounds[0].pipe, k), n, j, rounds[0].poll, text) && ready(text)
    ensures Wait(PollerOf(parse), ready, Watch([], false, 0), rounds).exit == Ready(text)
  {
    ReadyDaemonIsPolled(parse, rounds[0].pipe, rounds[0].poll, k, n, j, text);
    ReadyEndsFirstRound(PollerOf(parse), ready, rounds, text);
  }
}
