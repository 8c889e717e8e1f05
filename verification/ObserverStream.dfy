/** The status observer's line reader and its request/reply correlation, over any behaviour of the
    pipe and the clock. */
module ObserverStream {
  import opened Options
  import opened Text
  import opened Utf8

  const LF: Byte := 10

  /** What `select` and `os.read` do next: bytes arrive (none of them means end of file or another
      operating-system error) or the wait times out. Past the end of a script nothing arrives. */
  datatype PipeEvent = Chunk(bytes: seq<Byte>) | Silence

  /** What a reply's `result` holds: a status text, a tool error, a shape that raises one of the
      exceptions the observer catches, or one that raises another. */
  datatype Answer = Status(payload: string) | ToolError | Misshapen | Unexpected

  /** A decoded reply. `id` is the number Python compares an `int` with, if the id is one. */
  datatype Message = Message(id: Option<real>, failed: bool, answer: Answer)

  /** `json.loads` of a line: an object, another value, or malformed text. */
  datatype Parsed = Object(message: Message) | Other | Malformed

  type Parser = seq<Byte> -> Parsed

  // ---- lines ----

  function LineEnd(s: seq<Byte>): (n: nat)
    ensures n <= |s| && (n < |s| ==> s[n] == LF) && LF !in s[..n]
  {
    if s == [] || s[0] == LF then 0
    else
      assert s[..1 + LineEnd(s[1..])] == [s[0]] + s[1..][..LineEnd(s[1..])];
      1 + LineEnd(s[1..])
  }

  /** `not line.strip()`. */
  predicate Blank(line: seq<Byte>) {
    forall i :: 0 <= i < |line| ==> line[i] in {9, 10, 11, 12, 13, 32}
  }

  /** The complete lines of a byte stream that hold something. */
  function Lines(s: seq<Byte>): (lines: seq<seq<Byte>>) {
    var n := LineEnd(s);
    if n == |s| then [] else (if Blank(s[..n]) then [] else [s[..n]]) + Lines(s[n + 1..])
  }

  lemma {:induction false} LineEndIs(line: seq<Byte>, rest: seq<Byte>)
    requires LF !in line
    ensures LineEnd(line + [LF] + rest) == |line|
  {
    if line != [] {
      LineEndIs(line[1..], rest);
      assert (line + [LF] + rest)[1..] == line[1..] + [LF] + rest && line[0] in line;
    }
  }

  /** A line is passed over exactly when it holds only white space: space, tab, line feed, vertical tab,
      form feed and carriage return. */
  lemma LinesOfLine(line: seq<Byte>, rest: seq<Byte>)
    requires LF !in line
    ensures Lines(line + [LF] + rest)
            == (if forall b <- line :: b in {32, 9, 10, 11, 12, 13} then [] else [line]) + Lines(rest)
  {
    var s := line + [LF] + rest;
    LineEndIs(line, rest);
    assert s[..|line|] == line && s[|line| + 1..] == rest;
    if !Blank(line) {
      var i :| 0 <= i < |line| && line[i] !in {32, 9, 10, 11, 12, 13};
      assert line[i] in line;
    }
  }

  /** The bytes the pipe still delivers, up to its end of file. */
  function Flow(pipe: seq<PipeEvent>): (bytes: seq<Byte>) {
    if pipe == [] then []
    else if pipe[0].Silence? then Flow(pipe[1..])
    else if pipe[0].bytes == [] then []
    else pipe[0].bytes + Flow(pipe[1..])
  }

  // ---- StatusObserver._read ----

  datatype Outcome = Got(message: Message) | Quiet | Broken

  /** A read's outcome, the line it used up if any, and what is left. */
  datatype ReadStep = ReadStep(outcome: Outcome, line: Option<seq<Byte>>, buffer: seq<Byte>, pipe: seq<PipeEvent>)

  function OutcomeOf(p: Parsed): (o: Outcome) {
    if p.Object? then Got(p.message) else Broken
  }

  function Read(parse: Parser, buffer: seq<Byte>, pipe: seq<PipeEvent>): (r: ReadStep)
    decreases |pipe|, |buffer|
  {
    var n := LineEnd(buffer);
    if n < |buffer| then
      if Blank(buffer[..n]) then Read(parse, buffer[n + 1..], pipe)
      else ReadStep(OutcomeOf(parse(buffer[..n])), Some(buffer[..n]), buffer[n + 1..], pipe)
    else if pipe == [] then ReadStep(Quiet, None, buffer, [])
    else if pipe[0].Silence? then ReadStep(Quiet, None, buffer, pipe[1..])
    else if pipe[0].bytes == [] then ReadStep(Broken, None, buffer, pipe)
    else Read(parse, buffer + pipe[0].bytes, pipe[1..])
  }

  function Used(line: Option<seq<Byte>>): (lines: seq<seq<Byte>>) {
    if line.Some? then [line.value] else []
  }

  /** A read takes exactly the next line of the stream, however the stream is cut into chunks: what
      it used and what is left are together what there was. */
  lemma {:induction false} ReadTakesTheNextLine(parse: Parser, buffer: seq<Byte>, pipe: seq<PipeEvent>)
    ensures var r := Read(parse, buffer, pipe);
            && Lines(buffer + Flow(pipe)) == Used(r.line) + Lines(r.buffer + Flow(r.pipe))
            && (r.line.Some? ==> r.outcome == OutcomeOf(parse(r.line.value)))
            && (r.line.None? ==> !r.outcome.Got? && LineEnd(r.buffer) == |r.buffer|)
            && (r.line.None? && r.outcome.Broken? ==> r.pipe != [] && r.pipe[0] == Chunk([]))
    decreases |pipe|, |buffer|
  {
    var n := LineEnd(buffer);
    if n < |buffer| {
      FirstLine(buffer, Flow(pipe));
      if Blank(buffer[..n]) {
        ReadTakesTheNextLine(parse, buffer[n + 1..], pipe);
      }
    } else if pipe != [] && pipe[0].Chunk? && pipe[0].bytes != [] {
      ReadTakesTheNextLine(parse, buffer + pipe[0].bytes, pipe[1..]);
      Assoc(buffer, pipe[0].bytes, Flow(pipe[1..]));
    }
  }

  lemma {:induction false} LineEndAppend(s: seq<Byte>, more: seq<Byte>)
    requires LineEnd(s) < |s|
    ensures LineEnd(s + more) == LineEnd(s)
  {
    if s[0] != LF {
      LineEndAppend(s[1..], more);
      assert (s + more)[1..] == s[1..] + more;
    }
  }

  lemma FirstLine(s: seq<Byte>, more: seq<Byte>)
    requires LineEnd(s) < |s|
    ensures var n := LineEnd(s); Lines(s + more) == (if Blank(s[..n]) then [] else [s[..n]]) + Lines(s[n + 1..] + more)
  {
    var n := LineEnd(s);
    LineEndAppend(s, more);
    assert (s + more)[..n] == s[..n];
    assert (s + more)[n + 1..] == s[n + 1..] + more;
  }

  /** Every line the observer would read from here until the pipe has nothing more to give. */
  function Drain(parse: Parser, buffer: seq<Byte>, pipe: seq<PipeEvent>): (lines: seq<seq<Byte>>)
    decreases |pipe|, |buffer|
  {
    var r := Read(parse, buffer, pipe);
    ReadMakesProgress(parse, buffer, pipe);
    if r.line.Some? then [r.line.value] + Drain(parse, r.buffer, r.pipe)
    else if r.outcome.Broken? || |r.pipe| == |pipe| then []
    else Drain(parse, r.buffer, r.pipe)
  }

  lemma {:induction false} ReadMakesProgress(parse: Parser, buffer: seq<Byte>, pipe: seq<PipeEvent>)
    ensures var r := Read(parse, buffer, pipe);
            && |r.pipe| <= |pipe|
            && (|r.pipe| == |pipe| && r.line.Some? ==> |r.buffer| < |buffer|)
            && (|r.pipe| == |pipe| && r.outcome.Quiet? ==> pipe == [])
    decreases |pipe|, |buffer|
  {
    var n := LineEnd(buffer);
    if n < |buffer| {
      if Blank(buffer[..n]) {
        ReadMakesProgress(parse, buffer[n + 1..], pipe);
      }
    } else if pipe != [] && pipe[0].Chunk? && pipe[0].bytes != [] {
      ReadMakesProgress(parse, buffer + pipe[0].bytes, pipe[1..]);
    }
  }

  /** Reading to the end returns the non-blank lines of the byte stream, in order, each once. */
  lemma {:induction false} ReadsAreTheLines(parse: Parser, buffer: seq<Byte>, pipe: seq<PipeEvent>)
    ensures Drain(parse, buffer, pipe) == Lines(buffer + Flow(pipe))
    decreases |pipe|, |buffer|
  {
    var r := Read(parse, buffer, pipe);
    ReadTakesTheNextLine(parse, buffer, pipe);
    ReadMakesProgress(parse, buffer, pipe);
    if r.line.Some? || !(r.outcome.Broken? || |r.pipe| == |pipe|) {
      ReadsAreTheLines(parse, r.buffer, r.pipe);
    } else {
      NothingFlows(r.pipe);
      Nil(r.buffer);
    }
  }

  lemma NothingFlows(pipe: seq<PipeEvent>)
    requires pipe == [] || pipe[0] == Chunk([])
    ensures Flow(pipe) == []
  {
  }

  /** So the chunking and the timeouts do not matter. */
  lemma ChunkingDoesNotMatter(parse: Parser, pipe: seq<PipeEvent>, other: seq<PipeEvent>)
    requires Flow(pipe) == Flow(other)
    ensures Drain(parse, [], pipe) == Drain(parse, [], other)
  {
    ReadsAreTheLines(parse, [], pipe);
    ReadsAreTheLines(parse, [], other);
  }

  // ---- StatusObserver._request ----

  type Reader = (seq<Byte>, seq<PipeEvent>) -> ReadStep

  function ReaderOf(parse: Parser): (read: Reader) {
    (buffer, pipe) => Read(parse, buffer, pipe)
  }

  /** The state of one connection. */
  datatype Wire = Wire(buffer: seq<Byte>, pipe: seq<PipeEvent>, nextId: nat, initialized: bool, usable: bool) {
    function Past(r: ReadStep): (w: Wire) {
      this.(buffer := r.buffer, pipe := r.pipe)
    }
  }

  datatype Exchange = Exchange(outcome: Outcome, wire: Wire)

  predicate Answers(m: Message, id: nat) {
    m.id == Some(id as real)
  }

  /** A reply, but not to this request. */
  predicate Stray(outcome: Outcome, id: nat) {
    outcome.Got? && !Answers(outcome.message, id)
  }

  /** The wait for a reply; the clock allows `budget` more reads. */
  function Await(read: Reader, w: Wire, id: nat, budget: nat): (x: Exchange)
    decreases budget
  {
    if budget == 0 then Exchange(Quiet, w)
    else
      var r := read(w.buffer, w.pipe);
      if Stray(r.outcome, id) then Await(read, w.Past(r), id, budget - 1) else Exchange(r.outcome, w.Past(r))
  }

  datatype Turn = Turn(sent: bool, budget: nat)

  /** One request: `sent` says whether the write succeeds. */
  function Request(read: Reader, w: Wire, turn: Turn): (x: Exchange) {
    var asked := w.(nextId := w.nextId + 1);
    if turn.sent then Await(read, asked, asked.nextId, turn.budget) else Exchange(Broken, asked)
  }

  /** The lines a wait uses up. */
  function Taken(read: Reader, w: Wire, id: nat, budget: nat): (lines: seq<seq<Byte>>)
    decreases budget
  {
    if budget == 0 then []
    else
      var r := read(w.buffer, w.pipe);
      Used(r.line) + (if Stray(r.outcome, id) then Taken(read, w.Past(r), id, budget - 1) else [])
  }

  function UsedByRequest(read: Reader, w: Wire, turn: Turn): (lines: seq<seq<Byte>>) {
    if turn.sent then Taken(read, w.(nextId := w.nextId + 1), w.nextId + 1, turn.budget) else []
  }

  /** The lines a wait uses up are the next ones: replies with another id, and then the one that ends
      the wait, if any. */
  ghost predicate Correlated(parse: Parser, before: seq<seq<Byte>>, used: seq<seq<Byte>>, outcome: Outcome,
                             after: seq<seq<Byte>>, id: nat) {
    && before == used + after
    && (forall i :: 0 <= i < |used| - 1 ==> Stray(OutcomeOf(parse(used[i])), id))
    && (used != [] ==> var last := OutcomeOf(parse(used[|used| - 1])); Stray(last, id) || outcome == last)
    && (outcome.Got? ==> used != [] && outcome == OutcomeOf(parse(used[|used| - 1])) && Answers(outcome.message, id))
  }

  type Ahead = (seq<Byte>, seq<PipeEvent>) -> seq<seq<Byte>>

  /** `read` takes the next of the lines ahead. */
  ghost predicate TakesNext(parse: Parser, ahead: Ahead, read: Reader) {
    forall b, p :: NextTaken(parse, ahead(b, p), read(b, p), ahead(read(b, p).buffer, read(b, p).pipe))
  }

  ghost predicate NextTaken(parse: Parser, before: seq<seq<Byte>>, r: ReadStep, after: seq<seq<Byte>>) {
    && before == Used(r.line) + after
    && (r.line.Some? ==> r.outcome == OutcomeOf(parse(r.line.value)))
    && (r.line.None? ==> !r.outcome.Got?)
  }

  function LinesAhead(buffer: seq<Byte>, pipe: seq<PipeEvent>): (lines: seq<seq<Byte>>) {
    Lines(buffer + Flow(pipe))
  }

  lemma ReaderTakesNext(parse: Parser)
    ensures TakesNext(parse, LinesAhead, ReaderOf(parse))
  {
    forall b, p
      ensures NextTaken(parse, LinesAhead(b, p), Read(parse, b, p),
                        LinesAhead(Read(parse, b, p).buffer, Read(parse, b, p).pipe))
    {
      ReadTakesTheNextLine(parse, b, p);
    }
  }

  lemma {:induction false} AwaitIsCorrelated(parse: Parser, ahead: Ahead, read: Reader, w: Wire, id: nat, budget: nat)
    requires TakesNext(parse, ahead, read)
    ensures var x := Await(read, w, id, budget);
            && Correlated(parse, ahead(w.buffer, w.pipe), Taken(read, w, id, budget), x.outcome,
                          ahead(x.wire.buffer, x.wire.pipe), id)
            && x.wire.nextId == w.nextId && x.wire.initialized == w.initialized && x.wire.usable == w.usable
    decreases budget
  {
    if budget > 0 {
      var r := read(w.buffer, w.pipe);
      var next := w.Past(r);
      assert NextTaken(parse, ahead(w.buffer, w.pipe), r, ahead(next.buffer, next.pipe));
      if Stray(r.outcome, id) {
        AwaitIsCorrelated(parse, ahead, read, next, id, budget - 1);
        var x := Await(read, next, id, budget - 1);
        Prepend(parse, ahead(next.buffer, next.pipe), r.line.value, Taken(read, next, id, budget - 1), x.outcome,
                ahead(x.wire.buffer, x.wire.pipe), id);
      } else {
        Nil(Used(r.line));
      }
    }
  }

  lemma Prepend(parse: Parser, before: seq<seq<Byte>>, line: seq<Byte>, used: seq<seq<Byte>>, outcome: Outcome,
                after: seq<seq<Byte>>, id: nat)
    requires Correlated(parse, before, used, outcome, after, id) && Stray(OutcomeOf(parse(line)), id)
    ensures Correlated(parse, [line] + before, [line] + used, outcome, after, id)
  {
    Assoc([line], used, after);
    if used == [] {
      Nil([line]);
    }
  }

  /** A request is answered only by a reply that carries its own, new id; what it skips are replies to
      other requests; and what it leaves in the stream is exactly what it did not use. */
  lemma RequestIsCorrelated(parse: Parser, ahead: Ahead, read: Reader, w: Wire, turn: Turn)
    requires TakesNext(parse, ahead, read)
    ensures var x := Request(read, w, turn);
            && x.wire.nextId == w.nextId + 1
            && x.wire.initialized == w.initialized && x.wire.usable == w.usable
            && Correlated(parse, ahead(w.buffer, w.pipe), UsedByRequest(read, w, turn), x.outcome,
                          ahead(x.wire.buffer, x.wire.pipe), w.nextId + 1)
  {
    var asked := w.(nextId := w.nextId + 1);
    AwaitIsCorrelated(parse, ahead, read, asked, asked.nextId, turn.budget);
  }

  // ---- several requests on one connection ----

  function Requests(read: Reader, w: Wire, turns: seq<Turn>): (xs: seq<Exchange>)
    ensures |xs| == |turns|
    decreases turns
  {
    if turns == [] then []
    else
      var x := Request(read, w, turns[0]);
      [x] + Requests(read, x.wire, turns[1..])
  }

  function UsedByRequests(read: Reader, w: Wire, turns: seq<Turn>): (lines: seq<seq<Byte>>)
    decreases turns
  {
    if turns == [] then []
    else UsedByRequest(read, w, turns[0]) + UsedByRequests(read, Request(read, w, turns[0]).wire, turns[1..])
  }

  function After(read: Reader, w: Wire, turns: seq<Turn>): (next: Wire)
    decreases turns
  {
    if turns == [] then w else After(read, Request(read, w, turns[0]).wire, turns[1..])
  }

  lemma {:induction false} IdsAreFresh(parse: Parser, ahead: Ahead, read: Reader, w: Wire, turns: seq<Turn>, k: nat)
    requires TakesNext(parse, ahead, read) && k < |turns|
    ensures var x := Requests(read, w, turns)[k];
            x.wire.nextId == w.nextId + k + 1 && (x.outcome.Got? ==> Answers(x.outcome.message, w.nextId + k + 1))
    decreases turns
  {
    var x := Request(read, w, turns[0]);
    RequestIsCorrelated(parse, ahead, read, w, turns[0]);
    if k > 0 {
      IdsAreFresh(parse, ahead, read, x.wire, turns[1..], k - 1);
    }
  }

  /** A late reply to an earlier request never answers a later one: the k-th request of any run is
      answered, if at all, by a message with the k-th fresh id. */
  lemma LateRepliesAreIgnored(parse: Parser, w: Wire, turns: seq<Turn>, k: nat, earlier: nat)
    requires k < |turns| && earlier <= w.nextId + k
    ensures var x := Requests(ReaderOf(parse), w, turns)[k];
            && (x.outcome.Got? ==> Answers(x.outcome.message, w.nextId + k + 1))
            && (x.outcome.Got? ==> !Answers(x.outcome.message, earlier))
  {
    ReaderTakesNext(parse);
    IdsAreFresh(parse, LinesAhead, ReaderOf(parse), w, turns, k);
  }

  lemma {:induction false} NothingLost(parse: Parser, ahead: Ahead, read: Reader, w: Wire, turns: seq<Turn>)
    requires TakesNext(parse, ahead, read)
    ensures var next := After(read, w, turns);
            ahead(w.buffer, w.pipe) == UsedByRequests(read, w, turns) + ahead(next.buffer, next.pipe)
    decreases turns
  {
    if turns != [] {
      var next := Request(read, w, turns[0]).wire;
      RequestIsCorrelated(parse, ahead, read, w, turns[0]);
      NothingLost(parse, ahead, read, next, turns[1..]);
      var last := After(read, next, turns[1..]);
      Assoc(UsedByRequest(read, w, turns[0]), UsedByRequests(read, next, turns[1..]), ahead(last.buffer, last.pipe));
    }
  }

  /** Over a whole run of requests the lines used are the stream's lines in order, with none lost and
      none used twice. */
  lemma RunsLoseNothing(parse: Parser, w: Wire, turns: seq<Turn>)
    ensures var next := After(ReaderOf(parse), w, turns);
            LinesAhead(w.buffer, w.pipe) == UsedByRequests(ReaderOf(parse), w, turns)
              + LinesAhead(next.buffer, next.pipe)
  {
    ReaderTakesNext(parse);
    NothingLost(parse, LinesAhead, ReaderOf(parse), w, turns);
  }
}
