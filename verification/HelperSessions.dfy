/**
 Whole sessions on the persistent helper (src/parishkit/parishsoft_transport.py, `_SourceHelper`):
 requests, timeouts, lost ownership, rebinding to another key, and restarts, interleaved with an
 honest helper process that answers, fails or dies at any moment.
 */
module HelperSessions {
  import opened Arithmetic
  import opened Results
  import opened Frames
  import opened HelperExchange

  /** A request has a serial number, so that a reply can be said to answer it. */
  datatype Request = Request(serial: nat, key: int)

  /**
   A helper process: the key it was started with, the complete request lines it has received, how
   many of them it has answered, its output not yet read, and whether it is still running.
   */
  datatype Helper = Helper(key: int, inbox: seq<Request>, answered: nat, output: Bytes, alive: bool)

  /** `read` is every byte read off the helper's output during this exchange. */
  datatype Client = Idle | Busy(request: Request, exchange: Exchange, read: Bytes)

  /** `answers` is what helpers began to print for each request; `returned` what the client was handed. */
  datatype Session = Session(client: Client, key: Option<int>, helper: Option<Helper>, next: nat,
                             answers: map<nat, (int, Reply)>, returned: seq<(Request, Bytes)>)

  datatype Action =
    | Start(key: int, bytes: Bytes)      // bind, check the idle helper, start one if needed, queue the line
    | Send(accepted: nat)                // the pipe takes some pending bytes
    | Receive(available: nat)            // the pipe has some reply bytes
    | Finish                             // the loop finds the exchange complete and returns
    | Abort                              // timeout, lost ownership, dead pipe: stop the helper
    | Close
    | HelperAnswers(reply: Reply)
    | HelperFails(invalid: bool)         // prints INVALID or ERROR and exits
    | HelperDies(lost: nat)              // perhaps in the middle of a line: its last unread bytes never appear

  const New := Session(Idle, None, None, 0, map[], [])

  /** The helper kept for a new request under `key`: the same key, running, and nothing unsolicited. */
  function Kept(s: Session, key: int): Option<Helper> {
    if s.key == Some(key) && s.helper.Some? && s.helper.value.alive && s.helper.value.output == [] then s.helper else None
  }

  function Next(s: Session, a: Action): Option<Session> {
    match a
    case Start(key, bytes) =>
      if !s.client.Idle? || bytes == [] then None else
      var kept := Kept(s, key);
      var helper := if kept.Some? then kept.value else Helper(key, [], 0, [], true);
      Some(s.(client := Busy(Request(s.next, key), Begin(bytes), []), key := Some(key), helper := Some(helper),
              next := s.next + 1))
    case Send(accepted) =>
      if !s.client.Busy? || s.helper.None? || !s.helper.value.alive || s.client.exchange.pending == [] then None else
      var e := s.client.exchange;
      var left := e.pending[Min(accepted, |e.pending|)..];
      var h := s.helper.value;
      // The line is complete, and can be answered, once its last byte is written.
      var inbox := if left == [] then h.inbox + [s.client.request] else h.inbox;
      Some(s.(client := s.client.(exchange := e.(pending := left)), helper := Some(h.(inbox := inbox))))
    case Receive(available) =>
      if !s.client.Busy? || s.helper.None? then None else
      var h := s.helper.value;
      var n := Min(available, Min(Want(s.client.exchange), |h.output|));
      var got := Absorb(s.client.exchange, h.output[..n]);
      if got.Err? then Some(s.(client := Idle, helper := None))
      else Some(s.(client := s.client.(exchange := got.value, read := s.client.read + h.output[..n]),
                   helper := Some(h.(output := h.output[n..]))))
    case Finish =>
      if !s.client.Busy? || !Complete(s.client.exchange) then None
      else Some(s.(client := Idle, returned := s.returned + [(s.client.request, s.client.exchange.reply)]))
    case Abort => if s.client.Busy? then Some(s.(client := Idle, helper := None)) else None
    case Close => if s.client.Idle? then Some(s.(key := None, helper := None)) else None
    case HelperAnswers(reply) =>
      if s.helper.None? || !s.helper.value.alive || s.helper.value.answered >= |s.helper.value.inbox| || !Printable(reply)
      then None else
      var h := s.helper.value;
      Some(s.(helper := Some(h.(answered := h.answered + 1, output := h.output + Print(reply))),
              answers := s.answers[h.inbox[h.answered].serial := (h.key, reply)]))
    case HelperFails(invalid) =>
      if s.helper.None? || !s.helper.value.alive then None else
      var h := s.helper.value;
      var line := (if invalid then INVALID_LINE else ERROR_LINE) + [NEWLINE];
      Some(s.(helper := Some(h.(output := h.output + line, alive := false))))
    case HelperDies(lost) =>
      if s.helper.None? then None else
      var h := s.helper.value;
      Some(s.(helper := Some(h.(output := h.output[..|h.output| - Min(lost, |h.output|)], alive := false))))
  }

  function Run(s: Session, actions: seq<Action>): Option<Session>
    decreases |actions|
  {
    if actions == [] then Some(s) else
    match Next(s, actions[0])
    case None => None
    case Some(t) => Run(t, actions[1..])
  }

  // ----- the invariant -----

  /** Nothing more follows, or the helper has exited during or after a failure line. */
  ghost predicate Tail(h: Helper, t: Bytes) {
    t == [] || (!h.alive && (t <= INVALID_LINE + [NEWLINE] || t <= ERROR_LINE + [NEWLINE]))
  }

  /** Between requests nothing is owed: every line was answered and every answer was read. */
  ghost predicate AtRest(h: Helper) {
    h.answered == |h.inbox| && Tail(h, h.output)
  }

  /** During a request: what was read and what is still unread are this request's own answer, if any. */
  ghost predicate Serving(s: Session, h: Helper, request: Request, e: Exchange, read: Bytes) {
    h.key == request.key && Holding(e, read) && OwnOutput(s, h, request, e.pending != [], read + h.output)
  }

  /** `output` is all the helper has printed since the request was begun. */
  ghost predicate OwnOutput(s: Session, h: Helper, request: Request, unsent: bool, output: Bytes) {
    if unsent then h.answered == |h.inbox| && request.serial !in s.answers && Tail(h, output)
    else
      && |h.inbox| >= 1 && h.inbox[|h.inbox| - 1] == request
      && if h.answered < |h.inbox| then
           h.answered == |h.inbox| - 1 && request.serial !in s.answers && Tail(h, output)
         else
           && h.answered == |h.inbox| && request.serial in s.answers
           && Owed(h, s.answers[request.serial], output)
  }

  /** The output is the printed answer, given under the helper's key, and its tail, or was cut short. */
  ghost predicate Owed(h: Helper, answer: (int, Reply), output: Bytes) {
    && answer.0 == h.key && Printable(answer.1)
    && (Whole(h, answer.1, output) || (!h.alive && output <= Print(answer.1)))
  }

  ghost predicate Whole(h: Helper, reply: Reply, output: Bytes) {
    Print(reply) <= output && Tail(h, output[|Print(reply)|..])
  }

  /** Each reply handed over is the printed answer to the request it was handed over for. */
  ghost predicate Paired(s: Session, request: Request, reply: Bytes) {
    && request.serial in s.answers && s.answers[request.serial].0 == request.key
    && reply == Handed(s.answers[request.serial].1)
  }

  /** What has been handed over so far, in the order of the requests. */
  ghost predicate History(s: Session) {
    && (forall n :: n in s.answers ==> n < s.next)
    && (forall i :: 0 <= i < |s.returned| ==> Paired(s, s.returned[i].0, s.returned[i].1))
    && (forall i, j :: 0 <= i < j < |s.returned| ==> s.returned[i].0.serial < s.returned[j].0.serial)
    && (forall i :: 0 <= i < |s.returned| ==> s.returned[i].0.serial < if s.client.Busy? then s.client.request.serial else s.next)
  }

  ghost predicate Inv(s: Session) {
    && History(s)
    && (s.helper.Some? ==> s.key == Some(s.helper.value.key))
    && match s.client
       case Idle => s.helper.Some? ==> AtRest(s.helper.value)
       case Busy(request, e, read) =>
         s.helper.Some? && request.serial < s.next && Serving(s, s.helper.value, request, e, read)
  }

  lemma StartKeepsInv(s: Session, key: int, bytes: Bytes)
    requires Inv(s) && Next(s, Start(key, bytes)).Some?
    ensures Inv(Next(s, Start(key, bytes)).value)
  {
  }

  lemma SendKeepsInv(s: Session, accepted: nat)
    requires Inv(s) && Next(s, Send(accepted)).Some?
    ensures Inv(Next(s, Send(accepted)).value)
  {
  }

  lemma OutputStands(s: Session, t: Session, h: Helper, request: Request, unsent: bool, output: Bytes, rest: Bytes)
    requires OwnOutput(s, h, request, unsent, output) && t.answers == s.answers
    ensures OwnOutput(t, h.(output := rest), request, unsent, output)
  {
  }

  /** Moving bytes from unread to read leaves the whole of this request's output the same. */
  lemma ServingReadsOn(s: Session, t: Session, h: Helper, request: Request, e: Exchange, read: Bytes, n: nat, got: Exchange)
    requires Serving(s, h, request, e, read) && t.answers == s.answers && n <= |h.output|
    requires Absorb(e, h.output[..n]) == Ok(got)
    ensures Serving(t, h.(output := h.output[n..]), request, got, read + h.output[..n])
  {
    hide Holding, Absorb, OwnOutput;
    AbsorbHolds(e, read, h.output[..n]);
    OutputStands(s, t, h, request, e.pending != [], read + h.output, h.output[n..]);
    assert read + h.output == read + h.output[..n] + h.output[n..];
  }

  lemma ReceiveKeepsInv(s: Session, available: nat)
    requires Inv(s) && Next(s, Receive(available)).Some?
    ensures Inv(Next(s, Receive(available)).value)
  {
    hide Serving, Absorb;
    var (request, e, read) := (s.client.request, s.client.exchange, s.client.read);
    var h := s.helper.value;
    var n := Min(available, Min(Want(e), |h.output|));
    var got := Absorb(e, h.output[..n]);
    if got.Ok? {
      ServingReadsOn(s, Next(s, Receive(available)).value, h, request, e, read, n, got.value);
    }
  }

  /** A complete exchange has read the whole printed answer to its own request. */
  lemma CompleteIsOwnAnswer(s: Session, h: Helper, request: Request, e: Exchange, read: Bytes)
    requires Serving(s, h, request, e, read) && Complete(e)
    ensures Paired(s, request, e.reply) && AtRest(h)
  {
    hide Holding, Complete;
    var r := CompleteIsOneFrame(e, read);
    HeaderShape(r);
    var output := read + h.output;
    assert output[0] == Header(r)[..3][0] && IsDigit(output[0]);
    assert h.answered == |h.inbox|;
    OwedIsFrame(h, s.answers[request.serial], r, h.output);
  }

  /** Output that begins with a whole frame, and is owed for an answer, is that answer's frame and a tail. */
  lemma OwedIsFrame(h: Helper, answer: (int, Reply), r: Reply, rest: Bytes)
    requires Printable(r) && Owed(h, answer, Print(r) + rest)
    ensures answer.1 == r && Tail(h, rest)
  {
    hide Print, Printable, Tail;
    var output, frame := Print(r) + rest, Print(answer.1);
    if Whole(h, answer.1, output) {
      var tail := output[|frame|..];
      assert output == frame + tail;
      FramesArePrefixFree(r, answer.1, rest, tail);
    } else {
      var missing := frame[|output|..];
      assert Print(r) + (rest + missing) == frame + [];
      FramesArePrefixFree(r, answer.1, rest + missing, []);
      NothingTails(h);
    }
  }

  lemma NothingTails(h: Helper)
    ensures Tail(h, [])
  {
  }

  lemma FinishKeepsInv(s: Session)
    requires Inv(s) && Next(s, Finish).Some?
    ensures Inv(Next(s, Finish).value)
  {
    var (request, e, read) := (s.client.request, s.client.exchange, s.client.read);
    CompleteIsOwnAnswer(s, s.helper.value, request, e, read);
    var t := Next(s, Finish).value;
    forall i | 0 <= i < |t.returned| ensures Paired(t, t.returned[i].0, t.returned[i].1) {
      assert i < |s.returned| ==> Paired(s, s.returned[i].0, s.returned[i].1);
    }
  }

  /** A printed answer becomes the output owed for the request just begun. */
  lemma AnswerOwed(s: Session, t: Session, h: Helper, request: Request, unsent: bool, output: Bytes, reply: Reply)
    requires OwnOutput(s, h, request, unsent, output) && h.alive && h.answered < |h.inbox| && Printable(reply)
    requires t.answers == s.answers[h.inbox[h.answered].serial := (h.key, reply)]
    ensures !unsent && h.inbox[h.answered] == request && request.serial !in s.answers
    ensures OwnOutput(t, h.(answered := h.answered + 1, output := h.output + Print(reply)), request, unsent, output + Print(reply))
  {
    hide Print, Printable;
    assert output == [] && output + Print(reply) == Print(reply);
  }

  lemma AnswerKeepsInv(s: Session, reply: Reply)
    requires Inv(s) && Next(s, HelperAnswers(reply)).Some?
    ensures Inv(Next(s, HelperAnswers(reply)).value)
  {
    hide Printable, Print, Holding, OwnOutput;
    var t := Next(s, HelperAnswers(reply)).value;
    var h := s.helper.value;
    if s.client.Busy? {
      var e, read := s.client.exchange, s.client.read;
      AnswerOwed(s, t, h, s.client.request, e.pending != [], read + h.output, reply);
      assert read + t.helper.value.output == (read + h.output) + Print(reply);
    }
    assert History(t);
  }

  /** A failure line can only follow nothing, or the whole answer. */
  lemma FailureTails(s: Session, h: Helper, request: Request, unsent: bool, output: Bytes, line: Bytes)
    requires OwnOutput(s, h, request, unsent, output) && h.alive
    requires line == INVALID_LINE + [NEWLINE] || line == ERROR_LINE + [NEWLINE]
    ensures OwnOutput(s, h.(output := h.output + line, alive := false), request, unsent, output + line)
  {
    hide Print, Printable;
    assert output == [] ==> output + line == line;
    if !unsent && h.answered == |h.inbox| {
      var n := |Print(s.answers[request.serial].1)|;
      assert output[n..] == [] && |output| == n;
      assert (output + line)[..n] == output && (output + line)[n..] == line;
    }
  }

  lemma FailKeepsInv(s: Session, invalid: bool)
    requires Inv(s) && Next(s, HelperFails(invalid)).Some?
    ensures Inv(Next(s, HelperFails(invalid)).value)
  {
    hide Printable, Print, Holding, OwnOutput;
    var t := Next(s, HelperFails(invalid)).value;
    var h := s.helper.value;
    if s.client.Busy? {
      var e, read := s.client.exchange, s.client.read;
      var line := (if invalid then INVALID_LINE else ERROR_LINE) + [NEWLINE];
      FailureTails(s, h, s.client.request, e.pending != [], read + h.output, line);
      OutputStands(s, t, h, s.client.request, e.pending != [], read + h.output, h.output);
      assert read + (h.output + line) == read + h.output + line;
      OutputStands(s, t, h.(output := h.output + line, alive := false), s.client.request, e.pending != [],
                   read + h.output + line, h.output + line);
    }
    assert History(t);
  }

  lemma CutPrefix(a: Bytes, b: Bytes, n: nat)
    requires a <= b && n <= |a|
    ensures a[..n] <= b
  {
  }

  lemma CutTail(h: Helper, dead: Helper, t: Bytes, n: nat)
    requires Tail(h, t) && n <= |t| && !dead.alive
    ensures Tail(dead, t[..n])
  {
    if t <= INVALID_LINE + [NEWLINE] {
      CutPrefix(t, INVALID_LINE + [NEWLINE], n);
    } else if t <= ERROR_LINE + [NEWLINE] {
      CutPrefix(t, ERROR_LINE + [NEWLINE], n);
    }
  }

  lemma CutOwed(h: Helper, dead: Helper, answer: (int, Reply), output: Bytes, n: nat)
    requires Owed(h, answer, output) && n <= |output| && !dead.alive && dead.key == h.key
    ensures Owed(dead, answer, output[..n])
  {
    hide Print, Printable, Tail;
    var frame := Print(answer.1);
    if Whole(h, answer.1, output) && |frame| <= n {
      CutTail(h, dead, output[|frame|..], n - |frame|);
      assert output[..n][|frame|..] == output[|frame|..][..n - |frame|];
      assert frame <= output[..n];
    } else if Whole(h, answer.1, output) {
      assert output[..n] == frame[..n];
    } else {
      CutPrefix(output, frame, n);
    }
  }

  /** Cutting off the end of a dead helper's output leaves a cut answer, or none. */
  lemma CutStands(s: Session, t: Session, h: Helper, request: Request, unsent: bool, output: Bytes, n: nat, rest: Bytes)
    requires OwnOutput(s, h, request, unsent, output) && t.answers == s.answers && n <= |output|
    ensures OwnOutput(t, h.(output := rest, alive := false), request, unsent, output[..n])
  {
    hide Owed, Tail;
    var dead := h.(output := rest, alive := false);
    if !unsent && h.answered == |h.inbox| {
      CutOwed(h, dead, s.answers[request.serial], output, n);
    } else {
      CutTail(h, dead, output, n);
    }
  }

  lemma DieKeepsInv(s: Session, lost: nat)
    requires Inv(s) && Next(s, HelperDies(lost)).Some?
    ensures Inv(Next(s, HelperDies(lost)).value)
  {
    hide Printable, Print, Holding, OwnOutput;
    var t := Next(s, HelperDies(lost)).value;
    var h := s.helper.value;
    if s.client.Busy? {
      var e, read := s.client.exchange, s.client.read;
      var rest := t.helper.value.output;
      CutStands(s, t, h, s.client.request, e.pending != [], read + h.output, |read| + |rest|, rest);
      assert (read + h.output)[..|read| + |rest|] == read + rest;
    } else {
      CutTail(h, t.helper.value, h.output, |t.helper.value.output|);
    }
    assert History(t);
  }

  lemma NextKeepsInv(s: Session, a: Action)
    requires Inv(s) && Next(s, a).Some?
    ensures Inv(Next(s, a).value)
  {
    match a
    case Start(key, bytes) => StartKeepsInv(s, key, bytes);
    case Send(accepted) => SendKeepsInv(s, accepted);
    case Receive(available) => ReceiveKeepsInv(s, available);
    case Finish => FinishKeepsInv(s);
    case Abort =>
    case Close =>
    case HelperAnswers(reply) => AnswerKeepsInv(s, reply);
    case HelperFails(invalid) => FailKeepsInv(s, invalid);
    case HelperDies(lost) => DieKeepsInv(s, lost);
  }

  lemma {:induction false} RunKeepsInv(s: Session, actions: seq<Action>)
    requires Inv(s) && Run(s, actions).Some?
    ensures Inv(Run(s, actions).value)
    decreases |actions|
  {
    if actions != [] {
      NextKeepsInv(s, actions[0]);
      RunKeepsInv(Next(s, actions[0]).value, actions[1..]);
    }
  }

  /**
   Reply pairing. Over every run of successes, timeouts, lost ownership, rebinding and restarts, with
   an honest helper that may answer, fail or die at any moment, also in the middle of a frame, each reply handed over is exactly the
   answer printed for the request it was handed over for, by a helper holding that request's key;
   and no request is handed more than one reply.
   */
  lemma RepliesArePaired(actions: seq<Action>)
    requires Run(New, actions).Some?
    ensures var t := Run(New, actions).value;
            && (forall i :: 0 <= i < |t.returned| ==> Paired(t, t.returned[i].0, t.returned[i].1))
            && (forall i, j :: 0 <= i < j < |t.returned| ==> t.returned[i].0.serial < t.returned[j].0.serial)
  {
    RunKeepsInv(New, actions);
  }

  // ----- a request on a healthy helper -----

  /** A request that is sent whole, answered, read in two pieces and handed over. */
  function Serve(key: int, bytes: Bytes, reply: Reply): seq<Action> {
    [Start(key, bytes), Send(|bytes|), HelperAnswers(reply), Receive(|Print(reply)|), Receive(|Print(reply)|), Finish]
  }

  /** Action i leads from session i to session i + 1. */
  ghost predicate Steps(sessions: seq<Session>, actions: seq<Action>) {
    && |sessions| == |actions| + 1
    && forall i :: 0 <= i < |actions| ==> Next(sessions[i], actions[i]) == Some(sessions[i + 1])
  }

  lemma {:induction false} StepsRun(sessions: seq<Session>, actions: seq<Action>)
    requires Steps(sessions, actions)
    ensures Run(sessions[0], actions) == Some(sessions[|actions|])
    decreases |actions|
  {
    hide Next;
    if actions != [] {
      assert Next(sessions[0], actions[0]) == Some(sessions[0 + 1]);
      StepsRun(sessions[1..], actions[1..]);
    }
  }

  /** The request line is sent whole to the kept helper or to a new one, and answered. */
  lemma AskRuns(s: Session, key: int, bytes: Bytes, reply: Reply) returns (s1: Session, s2: Session, s3: Session)
    requires Inv(s) && s.client.Idle? && bytes != [] && Printable(reply)
    ensures Next(s, Start(key, bytes)) == Some(s1) && Next(s1, Send(|bytes|)) == Some(s2)
    ensures Next(s2, HelperAnswers(reply)) == Some(s3)
    ensures s3.client == Busy(Request(s.next, key), Exchange([], [], None), []) && s3.returned == s.returned
    ensures s3.key == Some(key) && s3.helper.Some? && s3.helper.value.alive && s3.helper.value.output == Print(reply)
  {
    hide Print, Printable;
    s1 := Next(s, Start(key, bytes)).value;
    s2 := Next(s1, Send(|bytes|)).value;
    assert bytes[|bytes|..] == [];
    s3 := Next(s2, HelperAnswers(reply)).value;
    assert [] + Print(reply) == Print(reply);
  }

  lemma ReceiveTakes(s: Session, available: nat, n: nat, got: Exchange)
    requires s.client.Busy? && s.helper.Some?
    requires n == Min(available, Min(Want(s.client.exchange), |s.helper.value.output|))
    requires Absorb(s.client.exchange, s.helper.value.output[..n]) == Ok(got)
    ensures var h := s.helper.value;
            Next(s, Receive(available)) == Some(s.(client := s.client.(exchange := got, read := s.client.read + h.output[..n]),
                                                  helper := Some(h.(output := h.output[n..]))))
  {
    hide Absorb, Want;
  }

  /** One read of the frame takes what the reader wants of it. */
  lemma ReceiveOne(s: Session, request: Request, reply: Reply, k: nat, m: nat) returns (t: Session)
    requires Printable(reply) && k + m <= |Print(reply)| && m == Min(Want(ReadOf([], reply, k)), |Print(reply)| - k)
    requires s.client.Busy? && s.client.request == request && s.client.exchange == ReadOf([], reply, k)
    requires s.helper.Some? && s.helper.value.output == Print(reply)[k..]
    ensures Next(s, Receive(|Print(reply)|)) == Some(t)
    ensures t.client.Busy? && t.client.request == request && t.client.exchange == ReadOf([], reply, k + m)
    ensures t.helper == Some(s.helper.value.(output := Print(reply)[k + m..])) && t.returned == s.returned && t.key == s.key
  {
    hide Print, Printable, Absorb, ReadOf, Want, Next;
    AbsorbReadsOn([], reply, k, m);
    NextSlice(Print(reply), k, m);
    ReceiveTakes(s, |Print(reply)|, m, ReadOf([], reply, k + m));
    t := Next(s, Receive(|Print(reply)|)).value;
  }

  lemma FirstWants(reply: Reply)
    requires Printable(reply)
    ensures Exchange([], [], None) == ReadOf([], reply, 0) && Print(reply)[0..] == Print(reply)
    ensures Want(ReadOf([], reply, 0)) == MAX_HEADER_BYTES
  {
    HeaderShape(reply);
    assert Print(reply)[..0] == [];
  }

  lemma ThenWantsRest(reply: Reply, k: nat)
    requires Printable(reply) && k == Min(MAX_HEADER_BYTES, |Print(reply)|)
    ensures Min(Want(ReadOf([], reply, k)), |Print(reply)| - k) == |Print(reply)| - k
  {
    HeaderShape(reply);
  }

  /** Two reads take a whole frame: one up to the length of a header, and one for the rest. */
  lemma ReceiveRuns(s: Session, request: Request, reply: Reply) returns (t: Session, u: Session)
    requires Printable(reply) && s.client == Busy(request, Exchange([], [], None), [])
    requires s.helper.Some? && s.helper.value.output == Print(reply)
    ensures Next(s, Receive(|Print(reply)|)) == Some(t) && Next(t, Receive(|Print(reply)|)) == Some(u)
    ensures u.client.Busy? && u.client.request == request && Complete(u.client.exchange) && u.client.exchange.reply == Handed(reply)
    ensures u.helper == Some(s.helper.value.(output := [])) && u.returned == s.returned && u.key == s.key
  {
    hide Next, Print, Printable, ReadOf, Want, Complete, Handed;
    var all := Print(reply);
    var n := Min(MAX_HEADER_BYTES, |all|);
    FirstWants(reply);
    t := ReceiveOne(s, request, reply, 0, n);
    ThenWantsRest(reply, n);
    u := ReceiveOne(t, request, reply, n, |all| - n);
    CompleteIffAllRead(reply, [], |all|);
    assert n + (|all| - n) == |all| && all[|all|..] == [];
  }

  lemma FinishRuns(s: Session, reply: Bytes) returns (t: Session)
    requires s.client.Busy? && Complete(s.client.exchange) && s.client.exchange.reply == reply
    ensures Next(s, Finish) == Some(t) && t.client.Idle? && t.returned == s.returned + [(s.client.request, reply)]
    ensures t.helper == s.helper && t.key == s.key
  {
    t := Next(s, Finish).value;
  }

  lemma NewIsOk()
    ensures Inv(New)
  {
  }

  /**
   A request is served. From every reachable idle session, whatever became of the helper before, a request
   that a helper answers is handed exactly that answer, and leaves the helper running with nothing unread.
   */
  lemma RequestIsServed(past: seq<Action>, key: int, bytes: Bytes, reply: Reply)
    requires Run(New, past).Some? && Run(New, past).value.client.Idle? && bytes != [] && Printable(reply)
    ensures var s := Run(New, past).value;
            var t := Run(s, Serve(key, bytes, reply));
            && t.Some? && t.value.client.Idle? && t.value.key == Some(key)
            && t.value.returned == s.returned + [(Request(s.next, key), Handed(reply))]
            && t.value.helper.Some? && t.value.helper.value.alive && t.value.helper.value.output == []
  {
    hide Next, Inv, Print, Printable, Handed, Complete;
    NewIsOk();
    RunKeepsInv(New, past);
    var s := Run(New, past).value;
    var s1, s2, s3 := AskRuns(s, key, bytes, reply);
    var s4, s5 := ReceiveRuns(s3, Request(s.next, key), reply);
    var s6 := FinishRuns(s5, Handed(reply));
    hide Run;
    StepsRun([s, s1, s2, s3, s4, s5, s6], Serve(key, bytes, reply));
  }

  /**
   A helper is kept for the next request exactly when it was started for the same key, is running and has
   nothing unread; otherwise a new one is started, so that no request meets an earlier one's leftovers.
   */
  lemma HelperIsReused(s: Session, key: int, bytes: Bytes)
    requires s.client.Idle? && bytes != []
    ensures Next(s, Start(key, bytes)).Some? && Next(s, Start(key, bytes)).value.helper.Some?
    ensures var h := Next(s, Start(key, bytes)).value.helper;
            if s.key == Some(key) && s.helper.Some? && s.helper.value.alive && s.helper.value.output == [] then h == s.helper
            else h.value.key == key && h.value.inbox == [] && h.value.answered == 0 && h.value.output == [] && h.value.alive
  {
  }

  /** A timeout, lost ownership or dead pipe stops the helper, and closing forgets it and its key. */
  lemma HelperIsStopped(s: Session)
    ensures s.client.Busy? ==> Next(s, Abort).Some? && Next(s, Abort).value.helper.None? && Next(s, Abort).value.client.Idle?
    ensures s.client.Idle? ==> Next(s, Close).Some? && Next(s, Close).value.helper.None? && Next(s, Close).value.key.None?
  {
  }

  /** A running helper may fail, printing a failure line, and a helper may die with any of its unread output lost. */
  lemma HelperMayStop(s: Session, invalid: bool, lost: nat)
    requires s.helper.Some?
    ensures s.helper.value.alive ==>
              && Next(s, HelperFails(invalid)).Some?
              && Next(s, HelperFails(invalid)).value.helper.Some? && !Next(s, HelperFails(invalid)).value.helper.value.alive
    ensures Next(s, HelperDies(lost)).Some? && Next(s, HelperDies(lost)).value.helper.Some?
    ensures var h := Next(s, HelperDies(lost)).value.helper.value;
            !h.alive && h.output <= s.helper.value.output && |s.helper.value.output| - |h.output| <= lost
            && (h.output == [] || |s.helper.value.output| - |h.output| == lost)
  {
  }
}
