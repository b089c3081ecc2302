/**
 What a successful read proves whatever the server answered: distinct identities, an unbroken
 run of ordinals, the declared total met exactly, and only rows the server sent.
 */
module PaginationSoundness {
  import opened Arithmetic
  import opened Results
  import opened Pagination

  /** What every successful `add` keeps. */
  ghost predicate Coherent(c: Contract, s: State) {
    Distinguished(s) && (c.hasTotal ==> Totalled(s)) && (c.hasOrdinal ==> Contiguous(s))
  }

  ghost predicate Distinguished(s: State) {
    && Identified(s.rows) && DistinctIds(s.rows) && |s.rows| <= s.received
    && (forall i :: 0 <= i < |s.rows| ==> s.rows[i].id.value in s.ids)
  }

  ghost predicate Totalled(s: State) {
    && (forall i :: 0 <= i < |s.rows| ==> s.rows[i].total.Some? && s.rows[i].total == s.expected)
    && (s.received > 0 ==> s.rows != [])
  }

  ghost predicate Contiguous(s: State) {
    && |s.rows| == s.received
    && (s.origin.None? ==> s.received == 0)
    && (s.origin.Some? ==> s.origin.value == 0 || s.origin.value == 1)
    && (s.origin.Some? ==> OrdinalsFrom(s.rows, s.origin.value))
  }

  ghost predicate OrdinalsFrom(rows: seq<Row>, origin: int) {
    forall i :: 0 <= i < |rows| ==> rows[i].ordinal == Some(i + origin)
  }

  /** The current page's retained rows are rows of the state, under their own identities. */
  ghost predicate PageHeld(s: State, page: map<int, Row>) {
    forall id :: id in page ==> page[id].id == Some(id) && page[id] in s.rows
  }

  lemma AddRowKeepsDistinguished(c: Contract, max: int, s: State, page: map<int, Row>, row: Row)
    requires Distinguished(s) && PageHeld(s, page) && AddRow(c, max, s, page, row).Ok?
    ensures var (t, held) := AddRow(c, max, s, page, row).value; Distinguished(t) && PageHeld(t, held)
  {
    var id := row.id.value;
    var (t, held) := AddRow(c, max, s, page, row).value;
    if !(id in page && page[id] == row) {
      assert t.rows == s.rows + [row];
    }
  }

  lemma AddRowKeepsTotalled(c: Contract, max: int, s: State, page: map<int, Row>, row: Row)
    requires c.hasTotal && Totalled(s) && PageHeld(s, page) && AddRow(c, max, s, page, row).Ok?
    ensures Totalled(AddRow(c, max, s, page, row).value.0)
  {
  }

  lemma AddRowKeepsContiguous(c: Contract, max: int, s: State, page: map<int, Row>, row: Row)
    requires c.hasOrdinal && Contiguous(s) && PageHeld(s, page) && AddRow(c, max, s, page, row).Ok?
    ensures Contiguous(AddRow(c, max, s, page, row).value.0)
  {
    // A repeated row's ordinal was already used, so an accepted row is a new one.
  }

  lemma AddRowKeepsCoherent(c: Contract, max: int, s: State, page: map<int, Row>, row: Row)
    requires Coherent(c, s) && PageHeld(s, page)
    requires AddRow(c, max, s, page, row).Ok?
    ensures var (t, held) := AddRow(c, max, s, page, row).value; Coherent(c, t) && PageHeld(t, held)
  {
    hide AddRow, Distinguished, Totalled, Contiguous, PageHeld;
    AddRowKeepsDistinguished(c, max, s, page, row);
    if c.hasTotal {
      AddRowKeepsTotalled(c, max, s, page, row);
    }
    if c.hasOrdinal {
      AddRowKeepsContiguous(c, max, s, page, row);
    }
  }

  lemma {:induction false} AddRowsKeepsCoherent(c: Contract, max: int, s: State, page: map<int, Row>, rows: seq<Row>)
    requires Coherent(c, s) && PageHeld(s, page)
    requires AddRows(c, max, s, page, rows).Ok?
    ensures var t := AddRows(c, max, s, page, rows).value;
            Coherent(c, t) && s.rows <= t.rows && t.received == s.received + |rows|
    decreases |rows|
  {
    if rows != [] {
      AddRowKeepsCoherent(c, max, s, page, rows[0]);
      var (t, held) := AddRow(c, max, s, page, rows[0]).value;
      AddRowsKeepsCoherent(c, max, t, held, rows[1..]);
    }
  }

  lemma AddPageKeepsCoherent(c: Contract, max: int, s: State, rows: seq<Row>)
    requires Coherent(c, s) && AddPage(c, max, s, rows).Ok?
    ensures var t := AddPage(c, max, s, rows).value;
            Coherent(c, t) && s.rows <= t.rows && t.received == s.received + |rows| <= max
  {
    AddRowsKeepsCoherent(c, max, s, map[], rows);
  }

  /** The ordinal after those of the rows received so far; the first one is 0 or 1. */
  predicate ContinuesRun(s: State, ordinal: int) {
    if s.origin.Some? then ordinal == s.received + s.origin.value else s.received == 0 && (ordinal == 0 || ordinal == 1)
  }

  /**
   When a row is refused, and as what: it is taken exactly when it is identified, new or an exact repeat
   within its page, declares the total agreed so far, and continues the run of ordinals; and only a row
   that contradicts what was read before is taken as a sign that the collection moved.
   */
  lemma RowVerdict(c: Contract, max: int, s: State, page: map<int, Row>, row: Row)
    ensures AddRow(c, max, s, page, row).Ok? <==>
              && row.id.Some? && (row.id.value in s.ids ==> row.id.value in page && page[row.id.value] == row)
              && (c.hasTotal ==> row.total.Some? && 1 <= row.total.value <= max && (s.expected.Some? ==> row.total == s.expected))
              && (c.hasOrdinal ==> row.ordinal.Some? && ContinuesRun(s, row.ordinal.value))
    ensures AddRow(c, max, s, page, row) == Err(Shifted) ==>
              || (row.id.Some? && row.id.value in s.ids && row.id.value !in page)
              || (c.hasTotal && row.total.Some? && s.expected.Some? && row.total != s.expected)
              || (c.hasOrdinal && row.ordinal.Some? && !ContinuesRun(s, row.ordinal.value))
    ensures row.id.Some? && row.id.value in s.ids && row.id.value !in page ==> AddRow(c, max, s, page, row) == Err(Shifted)
    ensures row.id.Some? && (row.id.value in s.ids ==> row.id.value in page && page[row.id.value] == row) ==>
              && (c.hasTotal && row.total.Some? && 1 <= row.total.value <= max && s.expected.Some? && row.total != s.expected ==>
                  AddRow(c, max, s, page, row) == Err(Shifted))
              && (!c.hasTotal && c.hasOrdinal && row.ordinal.Some? && s.origin.Some? && !ContinuesRun(s, row.ordinal.value) ==>
                  AddRow(c, max, s, page, row) == Err(Shifted))
    ensures AddRow(c, max, s, page, row).Err? ==> AddRow(c, max, s, page, row).error in {Incomplete, Shifted}
  {
  }

  // ----- provenance -----

  function AnswerRows(answer: Answer): seq<Row> {
    match answer
    case Array(items) => Records(items)
    case Paged(Array(items), _) => Records(items)
    case _ => []
  }

  /** At most a page of items, all of them records. */
  predicate OnlyRecords(items: seq<Item>, size: int) {
    |items| <= size && forall i :: 0 <= i < |items| ==> items[i].Record?
  }

  /** An answer that a read may go on from: no malformed page, and no page that is another one's. */
  predicate Acceptable(c: Contract, size: int, max: int, position: int, answer: Answer)
    requires 1 <= size
  {
    if !c.envelope then answer.Array? && OnlyRecords(answer.items, size)
    else
      && answer.Paged? && answer.info.Some?
      && var info := answer.info.value;
         && 0 <= info.totalRecords <= max && info.pageSize == size && info.pageNumber == position
         && (if info.totalRecords == 0 then info.totalPages == 0 || info.totalPages == 1
             else (info.totalPages - 1) * size < info.totalRecords <= info.totalPages * size && position <= info.totalPages)
         && (if answer.data.Null? then info.totalRecords == 0
             else answer.data.Array? && OnlyRecords(answer.data.items, size))
  }

  ghost predicate AllAcceptable(server: Server, c: Contract, size: int, max: int, asked: seq<int>)
    requires 1 <= size
  {
    forall k :: 0 <= k < |asked| ==> Acceptable(c, size, max, asked[k], server(k, asked[k]))
  }

  /** Every record answered to request `k` is among the rows. */
  ghost predicate Holds(server: Server, asked: seq<int>, k: nat, rows: seq<Row>)
    requires k < |asked|
  {
    forall row :: row in AnswerRows(server(k, asked[k])) ==> row in rows
  }

  /** No answer is lost, but for the second probe answer when it showed a row offset and is read again. */
  ghost predicate NothingLost(server: Server, c: Contract, asked: seq<int>, rows: seq<Row>) {
    forall k :: 0 <= k < |asked| ==> Holds(server, asked, k, rows) || (c.zeroProbe && k == 1 && Offsets(server, c, asked))
  }

  /** The second probe answer begins with the first's later rows, and the read goes on after the first's last. */
  ghost predicate Offsets(server: Server, c: Contract, asked: seq<int>) {
    |asked| > 2 && asked[2] == |AnswerRows(server(0, 0))| && OneLater(c, AnswerRows(server(0, 0)), AnswerRows(server(1, 1)))
  }

  /** The second page is the first one moved on by a row, of distinct records. */
  predicate OneLater(c: Contract, first: seq<Row>, second: seq<Row>) {
    && 2 <= |first| <= |second| + 1 && (forall i :: 1 <= i < |first| ==> second[i - 1] == first[i])
    && (forall i :: 0 <= i < |second| ==> second[i].id.Some?)
    && (forall i, j :: 0 <= i < j < |second| ==> second[i].id != second[j].id)
    && (c.hasTotal ==> forall i :: 0 <= i < |second| && second[i].total.Some? ==> second[i].total == first[0].total)
  }

  /** The positions the loop asks for from `position` on. */
  function ScanAsks(server: Server, c: Contract, size: int, max: int, maxPages: int,
                    s: State, position: int, step: int, requests: nat): seq<int>
    requires 1 <= size
    decreases maxPages - requests
  {
    if requests >= maxPages then [] else
    match Turn(c, size, max, s, server(requests, position), position)
    case Err(_) => [position]
    case Ok((t, rows, done)) =>
      [position] + if done then [] else
      ScanAsks(server, c, size, max, maxPages, t, Next(c, size, step, position, rows), step, requests + 1)
  }

  /** The positions a probing read asks for after positions 0 and 1. */
  function AsksAfterProbe(server: Server, c: Contract, size: int, max: int, maxPages: int): seq<int>
    requires 1 <= size
  {
    var first, second := ArrayRows(server(0, 0), size), ArrayRows(server(1, 1), size);
    if first.Err? || second.Err? then [] else
    match Probe(c, max, size, first.value, second.value)
    case Err(_) => []
    case Ok(plan) =>
      if plan.done then [] else ScanAsks(server, c, size, max, maxPages, plan.state, plan.position, plan.step, 2)
  }

  /** The positions a read asks for, in order. */
  function Asks(server: Server, c: Contract, size: int, max: int, maxPages: int): seq<int> {
    if !ValidArguments(c, size, max, maxPages) then []
    else if !c.zeroProbe then ScanAsks(server, c, size, max, maxPages, Start, 1, 1, 0)
    else if maxPages == 1 || ArrayRows(server(0, 0), size).Err? then [0]
    else [0, 1] + AsksAfterProbe(server, c, size, max, maxPages)
  }

  /** The row was in the answer to one of these requests. */
  ghost predicate Sent(server: Server, asked: seq<int>, row: Row) {
    exists k :: 0 <= k < |asked| && row in AnswerRows(server(k, asked[k]))
  }

  ghost predicate AllSent(server: Server, asked: seq<int>, rows: seq<Row>) {
    forall i :: 0 <= i < |rows| ==> Sent(server, asked, rows[i])
  }

  lemma {:induction false} AddRowsOnlyAdds(c: Contract, max: int, s: State, page: map<int, Row>, rows: seq<Row>)
    requires AddRows(c, max, s, page, rows).Ok?
    ensures forall row :: row in AddRows(c, max, s, page, rows).value.rows ==> row in s.rows || row in rows
    decreases |rows|
  {
    if rows != [] {
      var (t, held) := AddRow(c, max, s, page, rows[0]).value;
      AddRowsOnlyAdds(c, max, t, held, rows[1..]);
      assert forall row :: row in t.rows ==> row in s.rows || row == rows[0];
    }
  }

  lemma SentStays(server: Server, asked: seq<int>, more: seq<int>, row: Row)
    requires Sent(server, asked, row)
    ensures Sent(server, asked + more, row)
  {
    var k :| 0 <= k < |asked| && row in AnswerRows(server(k, asked[k]));
    assert (asked + more)[k] == asked[k];
  }

  lemma AddPageIsSent(server: Server, asked: seq<int>, p: int, c: Contract, max: int, s: State, rows: seq<Row>)
    requires AllSent(server, asked, s.rows) && rows == AnswerRows(server(|asked|, p))
    requires AddPage(c, max, s, rows).Ok?
    ensures AllSent(server, asked + [p], AddPage(c, max, s, rows).value.rows)
  {
    AddRowsOnlyAdds(c, max, s, map[], rows);
    var t := AddPage(c, max, s, rows).value;
    forall i | 0 <= i < |t.rows| ensures Sent(server, asked + [p], t.rows[i]) {
      assert t.rows[i] in t.rows;
      if t.rows[i] in s.rows {
        var j :| 0 <= j < |s.rows| && s.rows[j] == t.rows[i];
        SentStays(server, asked, [p], s.rows[j]);
      } else {
        assert (asked + [p])[|asked|] == p;
      }
    }
  }

  lemma TurnKeeps(server: Server, asked: seq<int>, c: Contract, size: int, max: int, s: State, position: int)
    requires 1 <= size && Coherent(c, s) && AllSent(server, asked, s.rows)
    requires Turn(c, size, max, s, server(|asked|, position), position).Ok?
    ensures var (t, rows, done) := Turn(c, size, max, s, server(|asked|, position), position).value;
            Coherent(c, t) && AllSent(server, asked + [position], t.rows)
  {
    var answer := server(|asked|, position);
    var (t, rows, done) := Turn(c, size, max, s, answer, position).value;
    var from := if c.envelope then s.(expected := Some(EnvelopeRows(answer, position, size, max).value.1)) else s;
    assert Coherent(c, from);
    AddPageKeepsCoherent(c, max, from, rows);
    AddPageIsSent(server, asked, position, c, max, from, rows);
  }

  /** A successful run ends coherent, with its total met, holding only rows sent for what it asked. */
  ghost predicate Trustworthy(server: Server, c: Contract, maxPages: int, asked: seq<int>, run: Run) {
    && |asked| == run.requests <= maxPages
    && (run.outcome.Ok? ==>
        && Coherent(c, run.outcome.value)
        && AllSent(server, asked, run.outcome.value.rows)
        && Finish(run.outcome.value).Ok?)
  }

  /** The loop goes on past this page. */
  predicate GoesOn(server: Server, c: Contract, size: int, max: int, maxPages: int, s: State, position: int, requests: nat)
    requires 1 <= size
  {
    && requests < maxPages
    && var turn := Turn(c, size, max, s, server(requests, position), position); turn.Ok? && !turn.value.2
  }

  lemma ScanGoesOn(server: Server, c: Contract, size: int, max: int, maxPages: int,
                   s: State, position: int, step: int, requests: nat)
    requires 1 <= size && GoesOn(server, c, size, max, maxPages, s, position, requests)
    ensures var (t, rows, done) := Turn(c, size, max, s, server(requests, position), position).value;
            var next := Next(c, size, step, position, rows);
            && Scan(server, c, size, max, maxPages, s, position, step, requests)
               == Scan(server, c, size, max, maxPages, t, next, step, requests + 1)
            && ScanAsks(server, c, size, max, maxPages, s, position, step, requests)
               == [position] + ScanAsks(server, c, size, max, maxPages, t, next, step, requests + 1)
  {
    hide Turn, Next;
  }

  lemma ScanStops(server: Server, c: Contract, size: int, max: int, maxPages: int,
                  s: State, position: int, step: int, requests: nat)
    requires 1 <= size && !GoesOn(server, c, size, max, maxPages, s, position, requests)
    ensures Scan(server, c, size, max, maxPages, s, position, step, requests)
         == if requests >= maxPages then Run(Err(Incomplete), requests)
            else match Turn(c, size, max, s, server(requests, position), position)
                 case Err(e) => Run(Err(e), requests + 1)
                 case Ok((t, _, _)) => Run(Finish(t), requests + 1)
    ensures ScanAsks(server, c, size, max, maxPages, s, position, step, requests)
         == if requests >= maxPages then [] else [position]
  {
    hide Turn, Next, Finish;
  }

  lemma LastTurnKeeps(server: Server, c: Contract, size: int, max: int, maxPages: int,
                      s: State, position: int, step: int, asked: seq<int>)
    requires 1 <= size && Coherent(c, s) && AllSent(server, asked, s.rows) && |asked| <= maxPages
    requires !GoesOn(server, c, size, max, maxPages, s, position, |asked|)
    ensures var run := Scan(server, c, size, max, maxPages, s, position, step, |asked|);
            var more := ScanAsks(server, c, size, max, maxPages, s, position, step, |asked|);
            Trustworthy(server, c, maxPages, asked + more, run)
  {
    hide Turn, Coherent, AllSent, Scan, ScanAsks;
    ScanStops(server, c, size, max, maxPages, s, position, step, |asked|);
    if |asked| < maxPages && Turn(c, size, max, s, server(|asked|, position), position).Ok? {
      TurnKeeps(server, asked, c, size, max, s, position);
    }
  }

  lemma {:induction false} ScanKeeps(server: Server, c: Contract, size: int, max: int, maxPages: int,
                                     s: State, position: int, step: int, asked: seq<int>)
    requires 1 <= size && Coherent(c, s) && AllSent(server, asked, s.rows) && |asked| <= maxPages
    ensures var run := Scan(server, c, size, max, maxPages, s, position, step, |asked|);
            var more := ScanAsks(server, c, size, max, maxPages, s, position, step, |asked|);
            Trustworthy(server, c, maxPages, asked + more, run)
    decreases maxPages - |asked|
  {
    hide Turn, Coherent, AllSent, Scan, ScanAsks, Trustworthy, Next;
    if GoesOn(server, c, size, max, maxPages, s, position, |asked|) {
      TurnKeeps(server, asked, c, size, max, s, position);
      ScanGoesOn(server, c, size, max, maxPages, s, position, step, |asked|);
      var (t, rows, done) := Turn(c, size, max, s, server(|asked|, position), position).value;
      var next := Next(c, size, step, position, rows);
      ScanKeeps(server, c, size, max, maxPages, t, next, step, asked + [position]);
      var rest := ScanAsks(server, c, size, max, maxPages, t, next, step, |asked| + 1);
      assert asked + [position] + rest == asked + ([position] + rest);
    } else {
      LastTurnKeeps(server, c, size, max, maxPages, s, position, step, asked);
    }
  }

  lemma ProbeKeeps(server: Server, c: Contract, size: int, max: int, first: seq<Row>, second: seq<Row>)
    requires first == AnswerRows(server(0, 0)) && second == AnswerRows(server(1, 1))
    requires Probe(c, max, size, first, second).Ok?
    ensures var plan := Probe(c, max, size, first, second).value;
            Coherent(c, plan.state) && AllSent(server, [0, 1], plan.state.rows)
  {
    StartIsCoherent(server, c);
    hide Coherent, AddPage;
    var s := AddPage(c, max, Start, first).value;
    AddPageKeepsCoherent(c, max, Start, first);
    AddPageIsSent(server, [], 0, c, max, Start, first);
    assert [] + [0] == [0] && [0] + [1] == [0, 1];
    forall i | 0 <= i < |s.rows| ensures Sent(server, [0, 1], s.rows[i]) {
      SentStays(server, [0], [1], s.rows[i]);
    }
    if AddPage(c, max, s, second).Ok? {
      AddPageKeepsCoherent(c, max, s, second);
      AddPageIsSent(server, [0], 1, c, max, s, second);
    }
  }

  lemma ReadProbedKeeps(server: Server, c: Contract, size: int, max: int, maxPages: int)
    requires ValidArguments(c, size, max, maxPages) && c.zeroProbe
    ensures Trustworthy(server, c, maxPages, Asks(server, c, size, max, maxPages), ReadProbed(server, c, size, max, maxPages))
  {
    hide Coherent, AllSent, Probe, Scan, ScanAsks;
    assert [0, 1] + [] == [0, 1];
    var first, second := ArrayRows(server(0, 0), size), ArrayRows(server(1, 1), size);
    if first.Ok? && second.Ok? && maxPages > 1 {
      var probe := Probe(c, max, size, first.value, second.value);
      if probe.Ok? {
        ProbeKeeps(server, c, size, max, first.value, second.value);
        var plan := probe.value;
        if !plan.done {
          ScanKeeps(server, c, size, max, maxPages, plan.state, plan.position, plan.step, [0, 1]);
        }
      }
    }
  }

  // ----- refusals -----

  /** Arguments out of range are refused before any request, and others always lead to one. */
  lemma ArgumentsAreChecked(server: Server, c: Contract, size: int, max: int, maxPages: int)
    ensures var run := Read(server, c, size, max, maxPages);
            var inRange := 1 <= size <= 500 && 1 <= max <= 1000000 && 1 <= maxPages <= 10000 && !(c.envelope && c.zeroProbe);
            (inRange <==> run.requests > 0) && (!inRange ==> run.outcome == Err(BadArguments))
  {
    hide Probe, Scan, ArrayRows;
    if ValidArguments(c, size, max, maxPages) {
      forall s, position, step, n: nat | n < maxPages ensures Scan(server, c, size, max, maxPages, s, position, step, n).requests > n {
        ScanAsksOn(server, c, size, max, maxPages, s, position, step, n);
      }
      if c.zeroProbe && ArrayRows(server(0, 0), size).Ok? && maxPages == 2 {
        forall s, position, step ensures Scan(server, c, size, max, maxPages, s, position, step, 2).requests == 2 {
          ScanFull(server, c, size, max, maxPages, s, position, step, 2);
        }
      }
    }
  }

  lemma ScanFull(server: Server, c: Contract, size: int, max: int, maxPages: int, s: State, position: int, step: int, n: nat)
    requires 1 <= size && n == maxPages
    ensures Scan(server, c, size, max, maxPages, s, position, step, n).requests == n
  {
  }

  lemma {:induction false} ScanAsksOn(server: Server, c: Contract, size: int, max: int, maxPages: int,
                                      s: State, position: int, step: int, n: nat)
    requires 1 <= size && n < maxPages
    ensures Scan(server, c, size, max, maxPages, s, position, step, n).requests > n
    decreases maxPages - n
  {
    hide Turn, Scan, Next;
    if GoesOn(server, c, size, max, maxPages, s, position, n) {
      ScanGoesOn(server, c, size, max, maxPages, s, position, step, n);
      var (t, rows, done) := Turn(c, size, max, s, server(n, position), position).value;
      var next := Next(c, size, step, position, rows);
      if n + 1 < maxPages {
        ScanAsksOn(server, c, size, max, maxPages, t, next, step, n + 1);
      } else {
        ScanFull(server, c, size, max, maxPages, t, next, step, n + 1);
      }
    } else {
      ScanStops(server, c, size, max, maxPages, s, position, step, n);
    }
  }

  lemma {:induction false} AddRowsRefuses(c: Contract, max: int, s: State, page: map<int, Row>, rows: seq<Row>)
    ensures AddRows(c, max, s, page, rows).Err? ==> AddRows(c, max, s, page, rows).error in {Incomplete, Shifted}
    decreases |rows|
  {
    if rows != [] {
      RowVerdict(c, max, s, page, rows[0]);
      if AddRow(c, max, s, page, rows[0]).Ok? {
        var (t, held) := AddRow(c, max, s, page, rows[0]).value;
        AddRowsRefuses(c, max, t, held, rows[1..]);
      }
    }
  }

  /** A fetch that raises ends the read with its own failure, which nothing else ends in. */
  lemma FetchFailureEndsRead(c: Contract, size: int, max: int, s: State, answer: Answer, position: int)
    requires 1 <= size
    ensures answer.Raised? ==> Turn(c, size, max, s, answer, position) == Err(Unavailable)
    ensures Turn(c, size, max, s, answer, position) == Err(Unavailable) ==> answer.Raised? || (answer.Paged? && answer.data.Raised?)
  {
    if c.envelope {
      if EnvelopeRows(answer, position, size, max).Ok? {
        var (rows, total, done) := EnvelopeRows(answer, position, size, max).value;
        AddRowsRefuses(c, max, s.(expected := Some(total)), map[], rows);
      }
    } else if ArrayRows(answer, size).Ok? {
      AddRowsRefuses(c, max, s, map[], ArrayRows(answer, size).value);
    }
  }

  /** A page that is in order but declares another total than the pages before it shows that the collection moved. */
  lemma TotalsMustAgree(c: Contract, size: int, max: int, s: State, answer: Answer, position: int)
    requires 1 <= size && c.envelope && EnvelopeRows(answer, position, size, max).Ok?
    requires s.expected.Some? && s.expected.value != answer.info.value.totalRecords
    ensures Turn(c, size, max, s, answer, position) == Err(Shifted)
  {
  }

  /** So does a second probe answer with another total than the first's. */
  lemma ProbeTotalsMustAgree(c: Contract, max: int, size: int, first: seq<Row>, second: seq<Row>, i: nat)
    requires c.hasTotal && first != [] && first != second && AddPage(c, max, Start, first).Ok?
    requires i < |second| && second[i].total.Some? && second[i].total != first[0].total
    ensures Probe(c, max, size, first, second) == Err(Shifted)
  {
    StartIsCoherent((k, p) => Null, c);
    AddPageKeepsCoherent(c, max, Start, first);
    AddPageHolds(c, max, Start, first);
    assert first[0] in AddPage(c, max, Start, first).value.rows;
  }

  /** A collection that ends with another number of rows than expected moved while it was read. */
  lemma EndMustAgree(s: State)
    requires s.expected.Some? && s.expected.value != s.received
    ensures Finish(s) == Err(Shifted)
  {
  }

  // ----- nothing malformed, nothing lost -----

  lemma {:induction false} AddRowsHolds(c: Contract, max: int, s: State, page: map<int, Row>, rows: seq<Row>)
    requires PageHeld(s, page) && AddRows(c, max, s, page, rows).Ok?
    ensures var t := AddRows(c, max, s, page, rows).value;
            s.rows <= t.rows && t.received == s.received + |rows| && forall row :: row in rows ==> row in t.rows
    decreases |rows|
  {
    if rows != [] {
      var (t, held) := AddRow(c, max, s, page, rows[0]).value;
      AddRowHolds(c, max, s, page, rows[0]);
      AddRowsHolds(c, max, t, held, rows[1..]);
      assert rows == [rows[0]] + rows[1..];
    }
  }

  lemma AddRowHolds(c: Contract, max: int, s: State, page: map<int, Row>, row: Row)
    requires PageHeld(s, page) && AddRow(c, max, s, page, row).Ok?
    ensures var (t, held) := AddRow(c, max, s, page, row).value;
            s.rows <= t.rows && t.received == s.received + 1 && row in t.rows && PageHeld(t, held)
  {
    var (t, held) := AddRow(c, max, s, page, row).value;
    if t.rows != s.rows {
      assert t.rows == s.rows + [row];
    }
  }

  lemma AddPageHolds(c: Contract, max: int, s: State, rows: seq<Row>)
    requires AddPage(c, max, s, rows).Ok?
    ensures var t := AddPage(c, max, s, rows).value;
            s.rows <= t.rows && t.received <= max && forall row :: row in rows ==> row in t.rows
  {
    AddRowsHolds(c, max, s, map[], rows);
  }

  lemma CeilingBounds(total: int, size: int)
    requires 1 <= size
    ensures (PageCount(total, size) - 1) * size < total <= PageCount(total, size) * size
  {
    var q := PageCount(total, size);
    assert total + size - 1 == q * size + (total + size - 1) % size;
    assert (q - 1) * size == q * size - size;
  }

  lemma {:induction false} RecordsOf(items: seq<Item>)
    requires forall i :: 0 <= i < |items| ==> items[i].Record?
    ensures |Records(items)| == |items|
  {
    if items != [] {
      RecordsOf(items[1..]);
    }
  }

  lemma ArrayIsClean(answer: Answer, size: int)
    requires ArrayRows(answer, size).Ok?
    ensures answer.Array? && OnlyRecords(answer.items, size) && ArrayRows(answer, size).value == AnswerRows(answer)
  {
    forall i | 0 <= i < |answer.items| ensures answer.items[i].Record? {
      assert answer.items[i] in answer.items;
    }
  }

  lemma EnvelopeIsAcceptable(c: Contract, answer: Answer, position: int, size: int, max: int)
    requires 1 <= size && c.envelope && EnvelopeRows(answer, position, size, max).Ok?
    ensures Acceptable(c, size, max, position, answer) && EnvelopeRows(answer, position, size, max).value.0 == AnswerRows(answer)
  {
    hide PageCount;
    CeilingBounds(answer.info.value.totalRecords, size);
    if answer.data.Array? {
      ArrayIsClean(answer.data, size);
    }
  }

  /** A page that is taken is well formed, and all its records are kept. */
  lemma TurnHolds(server: Server, c: Contract, size: int, max: int, s: State, k: nat, position: int)
    requires 1 <= size && Turn(c, size, max, s, server(k, position), position).Ok?
    ensures var answer := server(k, position);
            var (t, rows, done) := Turn(c, size, max, s, answer, position).value;
            && Acceptable(c, size, max, position, answer) && rows == AnswerRows(answer) && s.rows <= t.rows
            && t.received <= max && (forall row :: row in rows ==> row in t.rows) && (!c.envelope && done ==> rows == [])
  {
    hide EnvelopeRows, ArrayRows, AddPage, Acceptable, AnswerRows;
    var answer := server(k, position);
    var (t, rows, done) := Turn(c, size, max, s, answer, position).value;
    if c.envelope {
      EnvelopeIsAcceptable(c, answer, position, size, max);
      AddPageHolds(c, max, s.(expected := Some(EnvelopeRows(answer, position, size, max).value.1)), rows);
    } else {
      ArrayIsAcceptable(c, answer, position, size, max);
      AddPageHolds(c, max, s, rows);
    }
  }

  lemma ArrayIsAcceptable(c: Contract, answer: Answer, position: int, size: int, max: int)
    requires 1 <= size && !c.envelope && ArrayRows(answer, size).Ok?
    ensures Acceptable(c, size, max, position, answer) && ArrayRows(answer, size).value == AnswerRows(answer)
  {
    ArrayIsClean(answer, size);
  }

  /** What the answers to these requests were, and that but for the excused ones their records are kept. */
  ghost predicate Accounted(server: Server, c: Contract, size: int, max: int, asked: seq<int>, rows: seq<Row>, excused: set<int>)
    requires 1 <= size
  {
    && AllAcceptable(server, c, size, max, asked)
    && forall k :: 0 <= k < |asked| && k !in excused ==> Holds(server, asked, k, rows)
  }

  lemma AccountedNext(server: Server, c: Contract, size: int, max: int, asked: seq<int>, rows: seq<Row>, excused: set<int>,
                      position: int, more: seq<Row>)
    requires 1 <= size && Accounted(server, c, size, max, asked, rows, excused) && rows <= more
    requires Acceptable(c, size, max, position, server(|asked|, position))
    requires forall row :: row in AnswerRows(server(|asked|, position)) ==> row in more
    ensures Accounted(server, c, size, max, asked + [position], more, excused)
  {
    hide Acceptable;
    var all := asked + [position];
    forall k | 0 <= k < |all| ensures Acceptable(c, size, max, all[k], server(k, all[k])) {
      assert k < |asked| ==> all[k] == asked[k];
    }
    forall k | 0 <= k < |all| && k !in excused ensures Holds(server, all, k, more) {
      if k < |asked| {
        assert Holds(server, asked, k, rows) && all[k] == asked[k];
      }
    }
  }

  /** How a successful scan ends: everything accounted for, after an empty page unless pages are in envelopes. */
  ghost predicate EndsAccounted(server: Server, c: Contract, size: int, max: int, asked: seq<int>, excused: set<int>, run: Run)
    requires 1 <= size
  {
    run.outcome.Ok? ==>
      && Accounted(server, c, size, max, asked, run.outcome.value.rows, excused) && run.outcome.value.received <= max
      && asked != [] && (!c.envelope ==> AnswerRows(server(|asked| - 1, asked[|asked| - 1])) == [])
  }

  lemma {:induction false} ScanAccounts(server: Server, c: Contract, size: int, max: int, maxPages: int,
                                        s: State, position: int, step: int, asked: seq<int>, excused: set<int>)
    requires 1 <= size && Accounted(server, c, size, max, asked, s.rows, excused)
    ensures var run := Scan(server, c, size, max, maxPages, s, position, step, |asked|);
            var more := ScanAsks(server, c, size, max, maxPages, s, position, step, |asked|);
            EndsAccounted(server, c, size, max, asked + more, excused, run) && (run.outcome.Ok? ==> more != [] && more[0] == position)
    decreases maxPages - |asked|
  {
    hide Turn, Scan, ScanAsks, Next, Accounted, Acceptable, AnswerRows, EndsAccounted;
    if |asked| < maxPages && Turn(c, size, max, s, server(|asked|, position), position).Ok? {
      TurnHolds(server, c, size, max, s, |asked|, position);
      var (t, rows, done) := Turn(c, size, max, s, server(|asked|, position), position).value;
      AccountedNext(server, c, size, max, asked, s.rows, excused, position, t.rows);
      if done {
        ScanStops(server, c, size, max, maxPages, s, position, step, |asked|);
        LastAccounted(server, c, size, max, asked, position, excused, t);
      } else {
        ScanGoesOn(server, c, size, max, maxPages, s, position, step, |asked|);
        var next := Next(c, size, step, position, rows);
        ScanAccounts(server, c, size, max, maxPages, t, next, step, asked + [position], excused);
        var rest := ScanAsks(server, c, size, max, maxPages, t, next, step, |asked| + 1);
        assert asked + [position] + rest == asked + ([position] + rest);
      }
    } else {
      ScanStops(server, c, size, max, maxPages, s, position, step, |asked|);
      FailureAccounts(server, c, size, max, asked + ScanAsks(server, c, size, max, maxPages, s, position, step, |asked|), excused,
                      Scan(server, c, size, max, maxPages, s, position, step, |asked|));
    }
  }

  lemma LastAccounted(server: Server, c: Contract, size: int, max: int, asked: seq<int>, position: int, excused: set<int>, t: State)
    requires 1 <= size && Accounted(server, c, size, max, asked + [position], t.rows, excused)
    requires t.received <= max
    requires !c.envelope ==> AnswerRows(server(|asked|, position)) == []
    ensures EndsAccounted(server, c, size, max, asked + [position], excused, Run(Finish(t), |asked| + 1))
  {
    hide Accounted;
    assert (asked + [position])[|asked|] == position;
  }

  lemma FailureAccounts(server: Server, c: Contract, size: int, max: int, asked: seq<int>, excused: set<int>, run: Run)
    requires 1 <= size && run.outcome.Err?
    ensures EndsAccounted(server, c, size, max, asked, excused, run)
  {
  }

  /** What the probe keeps of its two answers: all, but for the second when it goes on at a row offset. */
  lemma ProbeHolds(c: Contract, max: int, size: int, first: seq<Row>, second: seq<Row>)
    requires Probe(c, max, size, first, second).Ok?
    ensures var plan := Probe(c, max, size, first, second).value;
            && plan.state.received <= max && (forall row :: row in first ==> row in plan.state.rows)
            && ((forall row :: row in second ==> row in plan.state.rows) ||
                (!plan.done && plan.position == |first| && OneLater(c, first, second)))
            && (plan.done ==> second == [])
  {
    hide AddPage;
    var s := AddPage(c, max, Start, first).value;
    AddPageHolds(c, max, Start, first);
    assert forall i :: 1 <= i < |first| ==> first[i] == first[1..][i - 1];
    StartIsCoherent((k, p) => Null, c);
    AddPageKeepsCoherent(c, max, Start, first);
    assert first != [] ==> first[0] in s.rows;
    if AddPage(c, max, s, second).Ok? {
      AddPageHolds(c, max, s, second);
    }
  }

  lemma ReadProbedAccounts(server: Server, c: Contract, size: int, max: int, maxPages: int)
    requires ValidArguments(c, size, max, maxPages) && c.zeroProbe
    requires ReadProbed(server, c, size, max, maxPages).outcome.Ok?
    ensures var asked := Asks(server, c, size, max, maxPages);
            var rows := ReadProbed(server, c, size, max, maxPages).outcome.value.rows;
            && AllAcceptable(server, c, size, max, asked) && NothingLost(server, c, asked, rows)
            && ReadProbed(server, c, size, max, maxPages).outcome.value.received <= max
            && asked != [] && AnswerRows(server(|asked| - 1, asked[|asked| - 1])) == []
  {
    hide Probe, Scan, ScanAsks, ArrayRows, AnswerRows, Acceptable;
    var first, second := ArrayRows(server(0, 0), size).value, ArrayRows(server(1, 1), size).value;
    ArrayIsAcceptable(c, server(0, 0), 0, size, max);
    ArrayIsAcceptable(c, server(1, 1), 1, size, max);
    ProbeHolds(c, max, size, first, second);
    var plan := Probe(c, max, size, first, second).value;
    assert [0, 1] + [] == [0, 1];
    var excused: set<int> := if forall row :: row in second ==> row in plan.state.rows then {} else {1};
    assert Accounted(server, c, size, max, [0, 1], plan.state.rows, excused);
    if !plan.done {
      ScanAccounts(server, c, size, max, maxPages, plan.state, plan.position, plan.step, [0, 1], excused);
    }
  }

  /**
   No partial success. Whatever the server answers, every answer that a successful read saw was a whole
   page of records (or the page of that total and number, in an envelope), every record of it was kept,
   and a read without envelopes ended at an empty page. Only a second probe answer that showed the
   positions to be row offsets need not be kept: the scan asks for its rows again.
   */
  lemma SuccessIsWhole(server: Server, c: Contract, size: int, max: int, maxPages: int)
    requires Read(server, c, size, max, maxPages).outcome.Ok?
    ensures 1 <= size
    ensures var asked := Asks(server, c, size, max, maxPages);
            var rows := Read(server, c, size, max, maxPages).outcome.value.rows;
            && AllAcceptable(server, c, size, max, asked) && NothingLost(server, c, asked, rows)
            && Read(server, c, size, max, maxPages).outcome.value.received <= max
            && asked != [] && (!c.envelope ==> AnswerRows(server(|asked| - 1, asked[|asked| - 1])) == [])
  {
    hide Scan, ScanAsks, ReadProbed, AsksAfterProbe, Acceptable, AnswerRows;
    if c.zeroProbe {
      ReadProbedAccounts(server, c, size, max, maxPages);
    } else {
      ScanAccounts(server, c, size, max, maxPages, Start, 1, 1, [], {});
      assert [] + Asks(server, c, size, max, maxPages) == Asks(server, c, size, max, maxPages);
    }
  }

  // ----- the positions asked -----

  /** Each position is the one before it plus one, or plus the rows that were answered there. */
  ghost predicate Advances(server: Server, from: nat, asks: seq<int>, byRows: bool) {
    forall i :: 0 <= i < |asks| - 1 ==> asks[i + 1] == asks[i] + if byRows then |AnswerRows(server(from + i, asks[i]))| else 1
  }

  lemma AdvancesOn(server: Server, from: nat, position: int, asks: seq<int>, byRows: bool)
    requires Advances(server, from + 1, asks, byRows)
    requires asks != [] ==> asks[0] == position + if byRows then |AnswerRows(server(from, position))| else 1
    ensures Advances(server, from, [position] + asks, byRows)
  {
    var all := [position] + asks;
    forall i | 0 <= i < |all| - 1
      ensures all[i + 1] == all[i] + if byRows then |AnswerRows(server(from + i, all[i]))| else 1
    {
      if i > 0 {
        assert all[i + 1] == asks[i] && all[i] == asks[i - 1] && from + i == from + 1 + (i - 1);
      }
    }
  }

  lemma {:induction false} ScanAdvances(server: Server, c: Contract, size: int, max: int, maxPages: int,
                                        s: State, position: int, step: int, n: nat)
    requires 1 <= size && (step == 1 || (step == size && c.zeroProbe))
    ensures var asks := ScanAsks(server, c, size, max, maxPages, s, position, step, n);
            Advances(server, n, asks, step == size && c.zeroProbe) && (asks != [] ==> asks[0] == position)
    decreases maxPages - n
  {
    hide Turn, Scan, ScanAsks, Advances, AnswerRows;
    var byRows := step == size && c.zeroProbe;
    if GoesOn(server, c, size, max, maxPages, s, position, n) {
      ScanGoesOn(server, c, size, max, maxPages, s, position, step, n);
      TurnHolds(server, c, size, max, s, n, position);
      var (t, rows, done) := Turn(c, size, max, s, server(n, position), position).value;
      var next := Next(c, size, step, position, rows);
      ScanAdvances(server, c, size, max, maxPages, t, next, step, n + 1);
      AdvancesOn(server, n, position, ScanAsks(server, c, size, max, maxPages, t, next, step, n + 1), byRows);
    } else {
      ScanStops(server, c, size, max, maxPages, s, position, step, n);
      FewAdvance(server, n, ScanAsks(server, c, size, max, maxPages, s, position, step, n), byRows);
    }
  }

  lemma FewAdvance(server: Server, from: nat, asks: seq<int>, byRows: bool)
    requires |asks| <= 1
    ensures Advances(server, from, asks, byRows)
  {
  }

  /**
   The positions asked, whatever the server answers. Without a probe they are 1, 2, 3 and so on. With one
   they are 0 and 1, and then either 2, 3 and so on, or row offsets: from the number of rows first
   answered, each next one further by exactly the rows that were answered, however few.
   */
  lemma PositionsAsked(server: Server, c: Contract, size: int, max: int, maxPages: int)
    ensures var asks := Asks(server, c, size, max, maxPages);
            if !c.zeroProbe then (asks != [] ==> asks[0] == 1) && Advances(server, 0, asks, false)
            else
              && (|asks| > 0 ==> asks[0] == 0) && (|asks| > 1 ==> asks[1] == 1)
              && (|asks| > 2 ==>
                    || (asks[2] == 2 && Advances(server, 2, asks[2..], false))
                    || (asks[2] == |AnswerRows(server(0, 0))| && Advances(server, 2, asks[2..], true)))
  {
    hide Scan, ScanAsks, Probe, ArrayRows, AnswerRows, Advances;
    var asks := Asks(server, c, size, max, maxPages);
    if ValidArguments(c, size, max, maxPages) {
      if !c.zeroProbe {
        ScanAdvances(server, c, size, max, maxPages, Start, 1, 1, 0);
      } else if |asks| > 2 {
        assert asks[2..] == AsksAfterProbe(server, c, size, max, maxPages);
        var first, second := ArrayRows(server(0, 0), size).value, ArrayRows(server(1, 1), size).value;
        ArrayIsAcceptable(c, server(0, 0), 0, size, max);
        ProbePlans(c, max, size, first, second);
        var plan := Probe(c, max, size, first, second).value;
        ScanAdvances(server, c, size, max, maxPages, plan.state, plan.position, plan.step, 2);
        if size == 1 && plan.step == 1 {
          ScanAdvancesByOne(server, c, max, maxPages, plan.state, plan.position, 2);
        }
      }
    } else {
      FewAdvance(server, 0, asks, false);
    }
  }

  /** What the probe may plan: pages from 2 on, one by one, or offsets from the first answer's length on. */
  lemma ProbePlans(c: Contract, max: int, size: int, first: seq<Row>, second: seq<Row>)
    requires Probe(c, max, size, first, second).Ok?
    ensures var plan := Probe(c, max, size, first, second).value;
            (plan.position == 2 && plan.step == 1) || (plan.position == |first| > 1 && plan.step == size)
  {
    hide AddPage;
  }

  /** With pages of one row both ways of advancing are the same. */
  lemma {:induction false} ScanAdvancesByOne(server: Server, c: Contract, max: int, maxPages: int,
                                             s: State, position: int, n: nat)
    requires !c.envelope
    ensures Advances(server, n, ScanAsks(server, c, 1, max, maxPages, s, position, 1, n), false)
    ensures var asks := ScanAsks(server, c, 1, max, maxPages, s, position, 1, n); asks != [] ==> asks[0] == position
    decreases maxPages - n
  {
    hide Turn, Scan, ScanAsks, Advances, AnswerRows;
    if GoesOn(server, c, 1, max, maxPages, s, position, n) {
      ScanGoesOn(server, c, 1, max, maxPages, s, position, 1, n);
      TurnHolds(server, c, 1, max, s, n, position);
      var (t, rows, done) := Turn(c, 1, max, s, server(n, position), position).value;
      OneRow(c, max, s, server(n, position), position);
      var next := Next(c, 1, 1, position, rows);
      ScanAdvancesByOne(server, c, max, maxPages, t, next, n + 1);
      AdvancesOn(server, n, position, ScanAsks(server, c, 1, max, maxPages, t, next, 1, n + 1), false);
    } else {
      ScanStops(server, c, 1, max, maxPages, s, position, 1, n);
      FewAdvance(server, n, ScanAsks(server, c, 1, max, maxPages, s, position, 1, n), false);
    }
  }

  lemma OneRow(c: Contract, max: int, s: State, answer: Answer, position: int)
    requires !c.envelope && Turn(c, 1, max, s, answer, position).Ok? && !Turn(c, 1, max, s, answer, position).value.2
    ensures |Turn(c, 1, max, s, answer, position).value.1| == 1
  {
    ArrayIsClean(answer, 1);
    RecordsOf(answer.items);
  }

  /**
   Adversarial soundness. Whatever the server answers, a read makes at most `maxPages` fetches, and
   if it succeeds every answer was a whole page of records, nothing of which was lost, and its rows are
   within the row bound, have pairwise distinct identities and were each sent in answer to a position
   it asked for. Under a contract with embedded totals and ordinals the ordinals run without a gap from
   0 or 1 and the number of rows is the total that every row declares.
   */
  lemma ReadIsSound(server: Server, c: Contract, size: int, max: int, maxPages: int)
    ensures var run := Read(server, c, size, max, maxPages);
            var asked := Asks(server, c, size, max, maxPages);
            && |asked| == run.requests <= Max(maxPages, 0)
            && (run.outcome.Ok? ==>
                var rows := run.outcome.value.rows;
                && 1 <= size && AllAcceptable(server, c, size, max, asked) && NothingLost(server, c, asked, rows)
                && Identified(rows) && DistinctIds(rows)
                && AllSent(server, asked, rows)
                && |rows| <= run.outcome.value.received <= max
                && (c.hasTotal ==> forall i :: 0 <= i < |rows| ==> rows[i].total == Some(run.outcome.value.received))
                && (c.hasOrdinal ==> OrdinalsFrom(rows, 0) || OrdinalsFrom(rows, 1))
                && (c.hasTotal && c.hasOrdinal ==> forall i :: 0 <= i < |rows| ==> rows[i].total == Some(|rows|)))
  {
    hide Scan, ScanAsks, ReadProbed, AsksAfterProbe, Coherent, AllSent, AllAcceptable, NothingLost;
    var run := Read(server, c, size, max, maxPages);
    if ValidArguments(c, size, max, maxPages) {
      if c.zeroProbe {
        ReadProbedKeeps(server, c, size, max, maxPages);
      } else {
        StartIsCoherent(server, c);
        ScanKeeps(server, c, size, max, maxPages, Start, 1, 1, []);
        assert [] + Asks(server, c, size, max, maxPages) == Asks(server, c, size, max, maxPages);
      }
      if run.outcome.Ok? {
        SuccessIsWhole(server, c, size, max, maxPages);
        TrustworthyIsSound(server, c, maxPages, Asks(server, c, size, max, maxPages), run);
      }
    }
  }

  lemma StartIsCoherent(server: Server, c: Contract)
    ensures Coherent(c, Start) && AllSent(server, [], Start.rows)
  {
  }

  lemma TrustworthyIsSound(server: Server, c: Contract, maxPages: int, asked: seq<int>, run: Run)
    requires Trustworthy(server, c, maxPages, asked, run) && run.outcome.Ok?
    ensures var rows := run.outcome.value.rows;
            && Identified(rows) && DistinctIds(rows)
            && AllSent(server, asked, rows)
            && |rows| <= run.outcome.value.received
            && (c.hasTotal ==> forall i :: 0 <= i < |rows| ==> rows[i].total == Some(run.outcome.value.received))
            && (c.hasOrdinal ==> OrdinalsFrom(rows, 0) || OrdinalsFrom(rows, 1))
            && (c.hasTotal && c.hasOrdinal ==> forall i :: 0 <= i < |rows| ==> rows[i].total == Some(|rows|))
  {
    hide AllSent;
  }
}
