/**
 One request on the helper process (src/parishkit/parishsoft_transport.py, `_SourceHelper.exchange`):
 the poll loop over both pipes, for every way the pipes can become ready and split the bytes.
 */
module HelperExchange {
  import opened Arithmetic
  import opened Results
  import opened Frames

  /** One readiness event: how many bytes the pipe takes or has now, or how it fails. */
  datatype Ready =
    | CanWrite(accepted: nat)
    | WriteError
    | CanRead(available: nat)
    | ReadError
    | EndOfFile

  /** One turn of the loop: the owner's checks, the deadline and the ready pipes, in any order. */
  datatype Round = Round(owned: bool, inTime: bool, ready: seq<Ready>, ownedAfter: bool)

  datatype Outcome =
    | Returned(reply: Bytes, unread: Bytes)
    | Failed(error: Error)
    | StillWaiting(exchange: Exchange, unread: Bytes)

  function React(e: Exchange, unread: Bytes, ready: Ready): Result<(Exchange, Bytes), Error> {
    match ready
    case CanWrite(k) => Ok((e.(pending := e.pending[Min(k, |e.pending|)..]), unread))
    case CanRead(k) =>
      var n := Min(k, Min(Want(e), |unread|));
      var next :- Absorb(e, unread[..n]);
      Ok((next, unread[n..]))
    case _ => Err(BadFrame)
  }

  function ReactAll(e: Exchange, unread: Bytes, ready: seq<Ready>): Result<(Exchange, Bytes), Error>
    decreases |ready|
  {
    if ready == [] then Ok((e, unread)) else
    var next :- React(e, unread, ready[0]);
    ReactAll(next.0, next.1, ready[1..])
  }

  /** The loop over `rounds`, with `unread` the bytes the helper writes on its pipe from now on. */
  function Poll(e: Exchange, unread: Bytes, rounds: seq<Round>): Outcome
    decreases |rounds|
  {
    if rounds == [] then StillWaiting(e, unread)
    else if !rounds[0].owned then Failed(LostOwnership)
    else if !rounds[0].inTime then Failed(Timeout)
    else match ReactAll(e, unread, rounds[0].ready)
         case Err(error) => Failed(error)
         case Ok((next, rest)) =>
           if !Complete(next) then Poll(next, rest, rounds[1..])
           else if rounds[0].ownedAfter then Returned(next.reply, rest)
           else Failed(LostOwnership)
  }

  function Begin(pending: Bytes): Exchange {
    Exchange(pending, [], None)
  }

  /** The loop itself, updating pending, reply and length as the pipes become ready. */
  method PollLoop(request: Bytes, stream: Bytes, rounds: seq<Round>) returns (outcome: Outcome)
    ensures outcome == Poll(Begin(request), stream, rounds)
  {
    var e, unread := Begin(request), stream;
    ghost var goal := Poll(e, unread, rounds);
    for i := 0 to |rounds|
      invariant Poll(e, unread, rounds[i..]) == goal
    {
      var round := rounds[i];
      assert rounds[i..][0] == round && rounds[i..][1..] == rounds[i + 1..];
      if !round.owned {
        return Failed(LostOwnership);
      }
      if !round.inTime {
        return Failed(Timeout);
      }
      ghost var after := ReactAll(e, unread, round.ready);
      for j := 0 to |round.ready|
        invariant ReactAll(e, unread, round.ready[j..]) == after
      {
        assert round.ready[j..][0] == round.ready[j] && round.ready[j..][1..] == round.ready[j + 1..];
        var next := React(e, unread, round.ready[j]);
        if next.Err? {
          return Failed(next.error);
        }
        e, unread := next.value.0, next.value.1;
      }
      if Complete(e) {
        return if round.ownedAfter then Returned(e.reply, unread) else Failed(LostOwnership);
      }
    }
    outcome := StillWaiting(e, unread);
  }

  // ----- any byte stream -----

  lemma PendingIsFree(e: Exchange, read: Bytes, pending: Bytes)
    requires Holding(e, read)
    ensures Holding(e.(pending := pending), read)
  {
  }

  /** After one event the reader holds exactly the bytes taken off the stream. */
  lemma ReactHolds(stream: Bytes, e: Exchange, read: Bytes, unread: Bytes, ready: Ready) returns (now: Bytes)
    requires Holding(e, read) && stream == read + unread && React(e, unread, ready).Ok?
    ensures var (next, rest) := React(e, unread, ready).value; stream == now + rest && Holding(next, now)
  {
    hide Holding, Absorb, Want;
    now := read;
    if ready.CanWrite? {
      PendingIsFree(e, read, e.pending[Min(ready.accepted, |e.pending|)..]);
    }
    if ready.CanRead? {
      var n := Min(ready.available, Min(Want(e), |unread|));
      AbsorbHolds(e, read, unread[..n]);
      now := read + unread[..n];
    }
  }

  lemma {:induction false} ReactAllHolds(stream: Bytes, e: Exchange, read: Bytes, unread: Bytes, ready: seq<Ready>)
    returns (now: Bytes)
    requires Holding(e, read) && stream == read + unread && ReactAll(e, unread, ready).Ok?
    ensures var (next, rest) := ReactAll(e, unread, ready).value; stream == now + rest && Holding(next, now)
    decreases |ready|
  {
    now := read;
    if ready != [] {
      now := ReactHolds(stream, e, read, unread, ready[0]);
      var (next, rest) := React(e, unread, ready[0]).value;
      now := ReactAllHolds(stream, next, now, rest, ready[1..]);
    }
  }

  lemma {:induction false} PollReturnsFirstFrame(stream: Bytes, e: Exchange, read: Bytes, unread: Bytes,
                                                 rounds: seq<Round>)
    returns (r: Reply)
    requires Holding(e, read) && stream == read + unread && Poll(e, unread, rounds).Returned?
    ensures var done := Poll(e, unread, rounds);
            Printable(r) && stream == Print(r) + done.unread && done.reply == Handed(r)
    decreases |rounds|
  {
    var now := ReactAllHolds(stream, e, read, unread, rounds[0].ready);
    var (next, rest) := ReactAll(e, unread, rounds[0].ready).value;
    if Complete(next) {
      r := CompleteIsOneFrame(next, now);
    } else {
      r := PollReturnsFirstFrame(stream, next, now, rest, rounds[1..]);
    }
  }

  /**
   Whatever bytes the pipe carries and however they are split, a successful exchange returns the
   decoding of the first frame on the stream and consumes exactly that frame. No other frame leads
   the same stream.
   */
  lemma ReturnIsFirstFrame(request: Bytes, stream: Bytes, rounds: seq<Round>) returns (r: Reply)
    requires Poll(Begin(request), stream, rounds).Returned?
    ensures var done := Poll(Begin(request), stream, rounds);
            Printable(r) && stream == Print(r) + done.unread && done.reply == Handed(r)
    ensures forall q: Reply, rest: Bytes :: Printable(q) && stream == Print(q) + rest ==> q == r
  {
    assert [] + stream == stream;
    r := PollReturnsFirstFrame(stream, Begin(request), [], stream, rounds);
    var left := Poll(Begin(request), stream, rounds).unread;
    forall q: Reply, rest: Bytes | Printable(q) && stream == Print(q) + rest ensures q == r {
      FramesArePrefixFree(q, r, rest, left);
    }
  }

  // ----- a printed frame -----

  predicate Healthy(rounds: seq<Round>) {
    forall i :: 0 <= i < |rounds| ==> rounds[i].owned && rounds[i].inTime && rounds[i].ownedAfter && Sound(rounds[i].ready)
  }

  predicate Sound(ready: seq<Ready>) {
    forall i :: 0 <= i < |ready| ==> ready[i].CanWrite? || ready[i].CanRead?
  }

  lemma ReadOfPending(pending: Bytes, r: Reply, k: nat, left: Bytes)
    requires k <= |Print(r)|
    ensures ReadOf(pending, r, k).pending == pending && ReadOf(pending, r, k).(pending := left) == ReadOf(left, r, k)
  {
  }

  lemma NextSlice(all: Bytes, k: nat, m: nat)
    requires k + m <= |all|
    ensures all[k..][..m] == all[k..k + m] && all[k..][m..] == all[k + m..] && all[..k] + all[k..][..m] == all[..k + m]
  {
  }

  /** One event takes the next bytes of the frame, or leaves it as it is. */
  lemma ReactReadsFrame(r: Reply, pending: Bytes, k: nat, ready: Ready) returns (left: Bytes, n: nat)
    requires Printable(r) && k <= |Print(r)| && (ready.CanWrite? || ready.CanRead?)
    ensures k <= n <= |Print(r)| && |left| <= |pending|
    ensures React(ReadOf(pending, r, k), Print(r)[k..], ready) == Ok((ReadOf(left, r, n), Print(r)[n..]))
    ensures ready.CanWrite? && ready.accepted >= 1 && pending != [] ==> |left| < |pending|
    ensures ready.CanRead? && ready.available >= 1 && k < |Print(r)| ==> n > k
  {
    hide Absorb, Print, Printable, ReadOf;
    var e := ReadOf(pending, r, k);
    left, n := pending, k;
    ReadOfPending(pending, r, k, pending);
    match ready
    case CanWrite(accepted) =>
      left := pending[Min(accepted, |pending|)..];
      ReadOfPending(pending, r, k, left);
    case CanRead(available) =>
      var m := Min(available, Min(Want(e), |Print(r)| - k));
      NextSlice(Print(r), k, m);
      AbsorbReadsOn(pending, r, k, m);
      n := k + m;
  }

  /** Some event takes a byte of the request. */
  predicate Accepts(ready: seq<Ready>) {
    exists i :: 0 <= i < |ready| && ready[i].CanWrite? && ready[i].accepted >= 1
  }

  /** Some event offers a byte of the reply. */
  predicate Offers(ready: seq<Ready>) {
    exists i :: 0 <= i < |ready| && ready[i].CanRead? && ready[i].available >= 1
  }

  lemma {:induction false} ReactAllReadsFrame(r: Reply, pending: Bytes, k: nat, ready: seq<Ready>)
    returns (left: Bytes, n: nat)
    requires Printable(r) && k <= |Print(r)| && Sound(ready)
    ensures k <= n <= |Print(r)| && |left| <= |pending|
    ensures ReactAll(ReadOf(pending, r, k), Print(r)[k..], ready) == Ok((ReadOf(left, r, n), Print(r)[n..]))
    ensures Accepts(ready) && pending != [] ==> |left| < |pending|
    ensures Offers(ready) && k < |Print(r)| ==> n > k
    decreases |ready|
  {
    hide React, ReadOf, Print, Printable;
    left, n := pending, k;
    if ready != [] {
      left, n := ReactReadsFrame(r, pending, k, ready[0]);
      left, n := ReactAllReadsFrame(r, left, n, ready[1..]);
      Later(ready);
    }
  }

  lemma Later(ready: seq<Ready>)
    requires ready != []
    ensures Accepts(ready) ==> (ready[0].CanWrite? && ready[0].accepted >= 1) || Accepts(ready[1..])
    ensures Offers(ready) ==> (ready[0].CanRead? && ready[0].available >= 1) || Offers(ready[1..])
  {
    if Accepts(ready) {
      var i :| 0 <= i < |ready| && ready[i].CanWrite? && ready[i].accepted >= 1;
      assert i > 0 ==> ready[1..][i - 1] == ready[i];
    }
    if Offers(ready) {
      var i :| 0 <= i < |ready| && ready[i].CanRead? && ready[i].available >= 1;
      assert i > 0 ==> ready[1..][i - 1] == ready[i];
    }
  }

  lemma CompleteIffAllRead(r: Reply, pending: Bytes, k: nat)
    requires Printable(r) && k <= |Print(r)|
    ensures Complete(ReadOf(pending, r, k)) <==> k == |Print(r)| && pending == []
    ensures k == |Print(r)| ==> ReadOf(pending, r, k).reply == Handed(r)
  {
    HeaderShape(r);
    if k == |Print(r)| {
      assert r.body[..k - |Header(r)|] == r.body;
    }
  }

  /** Every round takes a byte of the request and offers a byte of the reply. */
  predicate Moving(rounds: seq<Round>) {
    forall i :: 0 <= i < |rounds| ==> Accepts(rounds[i].ready) && Offers(rounds[i].ready)
  }

  lemma {:induction false} PollReadsFrame(r: Reply, pending: Bytes, k: nat, rounds: seq<Round>)
    requires Printable(r) && k <= |Print(r)| && Healthy(rounds) && (k < |Print(r)| || pending != [])
    ensures match Poll(ReadOf(pending, r, k), Print(r)[k..], rounds)
            case Returned(reply, unread) => reply == Handed(r) && unread == []
            case StillWaiting(e, unread) => unread != [] || e.pending != []
            case Failed(_) => false
    ensures Moving(rounds) && |rounds| >= |pending| && |rounds| >= |Print(r)| - k ==>
              Poll(ReadOf(pending, r, k), Print(r)[k..], rounds) == Returned(Handed(r), [])
    decreases |rounds|
  {
    if rounds == [] {
      assert Print(r)[k..] != [] || pending != [];
    } else {
      var left, n := ReactAllReadsFrame(r, pending, k, rounds[0].ready);
      CompleteIffAllRead(r, left, n);
      hide ReactAll, ReadOf, Print, Printable, Complete, Handed, Accepts, Offers;
      if !Complete(ReadOf(left, r, n)) {
        PollReadsFrame(r, left, n, rounds[1..]);
      }
    }
  }

  /**
   Round trip. For every reply the helper can print and every split of its bytes into reads, the
   exchange does not fail; it returns exactly the status line and body, and it goes on waiting only
   while some byte of the request or the reply is still in transit. If every round moves a byte each way,
   it has returned once there were as many rounds as the request and the reply have bytes.
   */
  lemma RoundTrip(r: Reply, request: Bytes, rounds: seq<Round>)
    requires 100 <= r.status <= 999 && |r.body| <= 8 * 1024 * 1024 && (r.body != [] ==> 200 <= r.status < 300)
    requires Healthy(rounds)
    ensures match Poll(Begin(request), Print(r), rounds)
            case Returned(reply, unread) => reply == Handed(r) && unread == []
            case StillWaiting(e, unread) => unread != [] || e.pending != []
            case Failed(_) => false
    ensures Moving(rounds) && |rounds| >= |request| && |rounds| >= |Print(r)| ==>
              Poll(Begin(request), Print(r), rounds) == Returned(Handed(r), [])
  {
    HeaderShape(r);
    assert Print(r)[..0] == [] && Print(r)[0..] == Print(r);
    assert Begin(request) == ReadOf(request, r, 0);
    PollReadsFrame(r, request, 0, rounds);
  }

  /** What the bytes look like: the frame `200 2`, newline, `OK`, is handed over as `200`, newline, `OK`. */
  lemma FrameFormat()
    ensures Print(Reply(200, [79, 75])) == [50, 48, 48, 32, 50, 10, 79, 75]
    ensures Handed(Reply(200, [79, 75])) == [50, 48, 48, 10, 79, 75]
  {
    assert Digits(2) == [50] && Digits(20) == Digits(2) + [48] && Digits(200) == Digits(20) + [48];
  }

  // ----- no read goes past the frame -----

  /**
   Whatever bytes follow the frame, a read of the body takes exactly what is available of the frame and
   leaves the rest, and before the header is complete no read brings more than a header's length.
   */
  lemma ReadsStayInFrame(r: Reply, pending: Bytes, k: nat, available: nat, after: Bytes)
    requires Printable(r) && |Header(r)| <= k < |Print(r)|
    ensures var n := Min(k + available, |Print(r)|);
            React(ReadOf(pending, r, k), Print(r)[k..] + after, CanRead(available))
            == Ok((ReadOf(pending, r, n), Print(r)[n..] + after))
  {
    HeaderShape(r);
    var e := ReadOf(pending, r, k);
    var n := Min(k + available, |Print(r)|);
    assert Want(e) == |Print(r)| - k;
    hide Absorb, Print, Printable, ReadOf, Header, Want;
    var unread := Print(r)[k..] + after;
    assert unread[..n - k] == Print(r)[k..n] && unread[n - k..] == Print(r)[n..] + after;
    AbsorbReadsOn(pending, r, k, n - k);
  }

  lemma HeaderReadIsShort(e: Exchange, unread: Bytes, available: nat)
    requires e.length.None? && |e.reply| < 32 && React(e, unread, CanRead(available)).Ok?
    ensures var (next, rest) := React(e, unread, CanRead(available)).value;
            |rest| <= |unread| && rest == unread[|unread| - |rest|..]
            && |unread| - |rest| == Min(available, Min(32 - |e.reply|, |unread|))
  {
  }

  /** Without its newline a header is waited for up to 31 bytes, and refused at 32. */
  lemma UnfinishedHeader(read: Bytes)
    requires NEWLINE !in read
    ensures ParseHeader(read) == if |read| >= 32 then Err(BadFrame) else Ok(None)
  {
    assert read[..|read|] == read;
  }

  /** A status of three digits, a blank, and a length of at most nine, neither beginning with a zero but for 0 itself. */
  lemma HeaderLineIff(line: Bytes)
    ensures IsHeaderLine(line) <==>
              && 5 <= |line| <= 13 && line[0] != 48 && line[3] == 32 && (line[4] != 48 || |line| == 5)
              && forall i :: 0 <= i < |line| && i != 3 ==> 48 <= line[i] <= 57
  {
    if |line| >= 5 {
      assert forall i :: 0 <= i < 3 ==> line[..3][i] == line[i];
      assert forall i :: 4 <= i < |line| ==> line[4..][i - 4] == line[i];
    }
  }

  // ----- failures -----

  lemma {:induction false} ReactAllIsSound(e: Exchange, unread: Bytes, ready: seq<Ready>)
    ensures ReactAll(e, unread, ready).Ok? ==> Sound(ready)
    ensures ReactAll(e, unread, ready).Err? ==> ReactAll(e, unread, ready).error in {BadFrame, InvalidResponse}
    decreases |ready|
  {
    if ready != [] && React(e, unread, ready[0]).Ok? {
      var (next, rest) := React(e, unread, ready[0]).value;
      ReactAllIsSound(next, rest, ready[1..]);
      assert forall i :: 1 <= i < |ready| ==> ready[i] == ready[1..][i - 1];
    }
  }

  /** The first `n` rounds are owned, in time, and without a broken pipe, and ownership is checked once more. */
  predicate Undisturbed(rounds: seq<Round>, n: int) {
    && 1 <= n <= |rounds| && rounds[n - 1].ownedAfter
    && forall i :: 0 <= i < n ==> rounds[i].owned && rounds[i].inTime && Sound(rounds[i].ready)
  }

  lemma OneMoreRound(rounds: seq<Round>, n: int)
    requires rounds != [] && rounds[0].owned && rounds[0].inTime && Sound(rounds[0].ready) && Undisturbed(rounds[1..], n)
    ensures Undisturbed(rounds, n + 1)
  {
    assert rounds[n] == rounds[1..][n - 1];
    assert forall i :: 1 <= i < n + 1 ==> rounds[i] == rounds[1..][i - 1];
  }

  /**
   A reply is only returned in time and while owned: the loop was owned, in time and read from sound
   pipes in every round up to the last, and still owned after it. And a failure has its cause: lost
   ownership a failed check, a timeout a passed deadline; anything else is a bad reply or a broken pipe.
   */
  lemma {:induction false} OutcomeIsExplained(e: Exchange, unread: Bytes, rounds: seq<Round>)
    ensures match Poll(e, unread, rounds)
            case Returned(_, _) => exists n :: Undisturbed(rounds, n)
            case StillWaiting(_, _) => forall i :: 0 <= i < |rounds| ==> rounds[i].owned && rounds[i].inTime
            case Failed(LostOwnership) => exists i :: 0 <= i < |rounds| && !(rounds[i].owned && rounds[i].ownedAfter)
            case Failed(Timeout) => exists i :: 0 <= i < |rounds| && rounds[i].owned && !rounds[i].inTime
            case Failed(_) => true
    decreases |rounds|
  {
    hide ReactAll, Complete, Sound;
    if rounds != [] && rounds[0].owned && rounds[0].inTime {
      ReactAllIsSound(e, unread, rounds[0].ready);
      var moved := ReactAll(e, unread, rounds[0].ready);
      if moved.Ok? && !Complete(moved.value.0) {
        OutcomeIsExplained(moved.value.0, moved.value.1, rounds[1..]);
        assert forall i :: 1 <= i < |rounds| ==> rounds[i] == rounds[1..][i - 1];
        match Poll(moved.value.0, moved.value.1, rounds[1..])
        case Returned(_, _) =>
          var n :| Undisturbed(rounds[1..], n);
          OneMoreRound(rounds, n);
        case _ =>
      } else {
        assert moved.Ok? && rounds[0].ownedAfter ==> Undisturbed(rounds, 1);
      }
    }
  }

  // ----- failure lines -----

  /** A single line that the parser refuses once it is complete. */
  predicate Refused(line: Bytes, error: Error) {
    NEWLINE !in line && |line| < 31 && ParseHeader(line + [NEWLINE]) == Err(error)
  }

  lemma PartOfLine(line: Bytes, k: nat)
    requires NEWLINE !in line && |line| < MAX_HEADER_BYTES - 1 && k <= |line|
    ensures ParseHeader((line + [NEWLINE])[..k]) == Ok(None)
  {
    assert (line + [NEWLINE])[..k] == line[..k];
  }

  lemma ReactReadsLine(line: Bytes, error: Error, pending: Bytes, k: nat, ready: Ready) returns (left: Bytes, n: nat)
    requires Refused(line, error) && k <= |line| && (ready.CanWrite? || ready.CanRead?)
    ensures k <= n <= |line| + 1
    ensures var all := line + [NEWLINE];
            React(Exchange(pending, all[..k], None), all[k..], ready)
            == if n > |line| then Err(error) else Ok((Exchange(left, all[..n], None), all[n..]))
    ensures ready.CanRead? && ready.available >= 1 ==> n > k
  {
    hide ParseHeader;
    var all := line + [NEWLINE];
    var e := Exchange(pending, all[..k], None);
    left, n := pending, k;
    match ready
    case CanWrite(accepted) =>
      left := pending[Min(accepted, |pending|)..];
    case CanRead(available) =>
      var m := Min(available, Min(Want(e), |all| - k));
      n := k + m;
      NextSlice(all, k, m);
      if n <= |line| {
        PartOfLine(line, n);
      } else {
        WholeLine(line);
      }
  }

  lemma WholeLine(line: Bytes)
    ensures (line + [NEWLINE])[..|line| + 1] == line + [NEWLINE]
  {
  }

  lemma {:induction false} ReactAllReadsLine(line: Bytes, error: Error, pending: Bytes, k: nat, ready: seq<Ready>)
    returns (left: Bytes, n: nat)
    requires Refused(line, error) && k <= |line| && Sound(ready)
    ensures k <= n <= |line| + 1
    ensures var all := line + [NEWLINE];
            ReactAll(Exchange(pending, all[..k], None), all[k..], ready)
            == if n > |line| then Err(error) else Ok((Exchange(left, all[..n], None), all[n..]))
    ensures Offers(ready) ==> n > k
    decreases |ready|
  {
    hide React, Refused;
    left, n := pending, k;
    if ready != [] {
      LineFits(line, error);
      Later(ready);
      left, n := ReactReadsLine(line, error, pending, k, ready[0]);
      if n <= |line| {
        left, n := ReactAllReadsLine(line, error, left, n, ready[1..]);
      }
    }
  }

  lemma LineFits(line: Bytes, error: Error)
    requires Refused(line, error)
    ensures |line| < MAX_HEADER_BYTES - 1
  {
  }

  /**
   A failure line fails the exchange. However its bytes are split, a line that the parser refuses never
   returns a reply; the exchange waits while bytes of it are unread, then fails with the parser's error,
   and does so within as many rounds as the line has bytes if every round offers one.
   */
  lemma {:induction false} RefusedLineFails(line: Bytes, error: Error, pending: Bytes, k: nat, rounds: seq<Round>)
    requires Refused(line, error) && k <= |line| && Healthy(rounds)
    ensures match Poll(Exchange(pending, (line + [NEWLINE])[..k], None), (line + [NEWLINE])[k..], rounds)
            case Returned(_, _) => false
            case StillWaiting(e, unread) => unread != []
            case Failed(cause) => cause == error
    ensures (forall i :: 0 <= i < |rounds| ==> Offers(rounds[i].ready)) && |rounds| > |line| - k ==>
              Poll(Exchange(pending, (line + [NEWLINE])[..k], None), (line + [NEWLINE])[k..], rounds) == Failed(error)
    decreases |rounds|
  {
    hide ReactAll, Offers, Refused;
    if rounds != [] {
      var left, n := ReactAllReadsLine(line, error, pending, k, rounds[0].ready);
      if n <= |line| {
        RefusedLineFails(line, error, left, n, rounds[1..]);
      }
    }
  }

  const ERROR_LINE: Bytes := [69, 82, 82, 79, 82]

  /** The helper's two failure lines: one is a broken body contract, the other a failed helper. */
  lemma FailureLines()
    ensures Refused(INVALID_LINE, InvalidResponse) && Refused(ERROR_LINE, BadFrame)
  {
    LineEndAt(INVALID_LINE + [NEWLINE], 7);
    LineEndAt(ERROR_LINE + [NEWLINE], 5);
    assert (INVALID_LINE + [NEWLINE])[..7] == INVALID_LINE;
    assert (ERROR_LINE + [NEWLINE])[..5] == ERROR_LINE;
  }

  /**
   A well-formed header that promises too much is a broken body contract, one that promises a body for
   anything but a success is a bad frame, and so is any other line.
   */
  lemma HeaderVerdict(line: Bytes)
    requires NEWLINE !in line && line != INVALID_LINE
    ensures var verdict := ParseHeader(line + [NEWLINE]);
            if !IsHeaderLine(line) then verdict == Err(BadFrame)
            else if Number(line[4..]) > 8 * 1024 * 1024 then verdict == Err(InvalidResponse)
            else verdict == Err(BadFrame) <==> Number(line[4..]) > 0 && !(200 <= Number(line[..3]) < 300)
  {
    hide Number;
    var all := line + [NEWLINE];
    LineEndAt(all, |line|);
    assert all[..|line|] == line;
  }
}
