/**
 Envelope reads: the exact number of requests, the one total all pages agree on, and the rows
 returned as the pages' own rows with nothing dropped but exact repeats inside one page.
 */
module PaginationEnvelope {
  import opened Arithmetic
  import opened Results
  import opened Pagination
  import opened PaginationSoundness
  import opened PaginationDialects

  // ----- what one page contributes -----

  /** The rows of a page without later exact repeats. */
  function Dedup(rows: seq<Row>): seq<Row> {
    if rows == [] then [] else
    var before := rows[..|rows| - 1];
    var last := rows[|rows| - 1];
    Dedup(before) + if last in before then [] else [last]
  }

  /** The page's retained rows are exactly the rows seen so far, by identity. */
  ghost predicate PageIs(page: map<int, Row>, seen: seq<Row>) {
    && (forall id :: id in page ==> page[id] in seen && page[id].id == Some(id))
    && (forall row :: row in seen ==> row.id.Some? && row.id.value in page && page[row.id.value] == row)
  }

  /** The state holds the base rows and the page's distinct rows seen so far. */
  ghost predicate MidPage(s: State, page: map<int, Row>, base: seq<Row>, seen: seq<Row>) {
    PageIs(page, seen) && s.rows == base + Dedup(seen) && page.Keys <= s.ids
  }

  lemma DedupSnoc(seen: seq<Row>, row: Row)
    ensures Dedup(seen + [row]) == Dedup(seen) + if row in seen then [] else [row]
  {
    assert (seen + [row])[..|seen|] == seen;
  }

  lemma PageGrows(page: map<int, Row>, seen: seq<Row>, row: Row)
    requires PageIs(page, seen) && row.id.Some? && row.id.value !in page
    ensures PageIs(page[row.id.value := row], seen + [row])
  {
    assert forall r :: r in seen + [row] <==> r in seen || r == row;
  }

  lemma PageRepeats(page: map<int, Row>, seen: seq<Row>, row: Row)
    requires PageIs(page, seen) && row in seen
    ensures PageIs(page, seen + [row])
  {
    assert forall r :: r in seen + [row] <==> r in seen;
  }

  lemma AddRowDedups(c: Contract, max: int, s: State, page: map<int, Row>, base: seq<Row>, seen: seq<Row>, row: Row)
    requires MidPage(s, page, base, seen) && AddRow(c, max, s, page, row).Ok?
    ensures var (t, held) := AddRow(c, max, s, page, row).value; MidPage(t, held, base, seen + [row])
  {
    var (t, held) := AddRow(c, max, s, page, row).value;
    DedupSnoc(seen, row);
    if row in seen {
      PageRepeats(page, seen, row);
    } else {
      PageGrows(page, seen, row);
      assert t.rows == base + (Dedup(seen) + [row]);
    }
  }

  lemma {:induction false} AddRowsDedups(c: Contract, max: int, s: State, page: map<int, Row>, base: seq<Row>,
                                         seen: seq<Row>, rows: seq<Row>)
    requires MidPage(s, page, base, seen) && AddRows(c, max, s, page, rows).Ok?
    ensures AddRows(c, max, s, page, rows).value.rows == base + Dedup(seen + rows)
    decreases |rows|
  {
    if rows == [] {
      assert seen + rows == seen;
    } else {
      AddRowDedups(c, max, s, page, base, seen, rows[0]);
      var (t, held) := AddRow(c, max, s, page, rows[0]).value;
      AddRowsDedups(c, max, t, held, base, seen + [rows[0]], rows[1..]);
      assert seen + rows == seen + [rows[0]] + rows[1..];
    }
  }

  lemma AddPageDedups(c: Contract, max: int, s: State, rows: seq<Row>)
    requires AddPage(c, max, s, rows).Ok?
    ensures AddPage(c, max, s, rows).value.rows == s.rows + Dedup(rows)
  {
    AddRowsDedups(c, max, s, map[], s.rows, [], rows);
    assert [] + rows == rows;
  }

  // ----- the loop -----

  /** The deduplicated rows of pages 1 to `n`, page k having been fetched by request k - 1. */
  function PageRows(server: Server, n: nat): seq<Row> {
    if n == 0 then [] else PageRows(server, n - 1) + Dedup(AnswerRows(server(n - 1, n)))
  }

  /** Every one of pages 1 to `n` declared the total `total`. */
  ghost predicate Declared(server: Server, n: nat, total: int) {
    forall k: nat :: k < n ==> Declares(server, k, total)
  }

  /** Request `k` asked for page k + 1, and was answered as that page of `total` rows. */
  ghost predicate Declares(server: Server, k: nat, total: int) {
    var answer := server(k, k + 1);
    answer.Paged? && answer.info.Some? && answer.info.value.totalRecords == total && answer.info.value.pageNumber == k + 1
  }

  /** The state after `n` accepted pages. */
  ghost predicate After(server: Server, size: int, max: int, s: State, n: nat)
    requires 1 <= size
  {
    && s.rows == PageRows(server, n)
    && (if n == 0 then s == Start
        else
          && s.expected.Some? && 0 <= s.expected.value <= max
          && n <= Max(PageCount(s.expected.value, size), 1)
          && s.received == RowsThrough(n, size, s.expected.value)
          && Declared(server, n, s.expected.value))
  }

  lemma {:induction false} AddRowsCounts(c: Contract, max: int, s: State, page: map<int, Row>, rows: seq<Row>)
    requires AddRows(c, max, s, page, rows).Ok?
    ensures var t := AddRows(c, max, s, page, rows).value;
            t.received == s.received + |rows| && (s.expected.Some? ==> t.expected == s.expected)
    decreases |rows|
  {
    if rows != [] {
      var (t, held) := AddRow(c, max, s, page, rows[0]).value;
      AddRowsCounts(c, max, t, held, rows[1..]);
    }
  }

  /** Rows in pages 1 to `n` of a list of `total` rows. */
  function RowsThrough(n: nat, size: int, total: int): int {
    Min(n * size, total)
  }

  lemma RowsThroughNext(n: nat, size: int, total: int)
    requires 1 <= size && 0 <= total
    ensures RowsThrough(n + 1, size, total) == RowsThrough(n, size, total) + Min(size, Max(0, total - n * size))
    ensures RowsThrough(0, size, total) == 0
  {
    assert (n + 1) * size == n * size + size;
  }

  lemma RowsThroughAll(size: int, total: int)
    requires 1 <= size && 0 <= total
    ensures 0 <= PageCount(total, size) && RowsThrough(Max(PageCount(total, size), 1), size, total) == total
  {
    var pages := PageCount(total, size);
    assert total + size - 1 == pages * size + (total + size - 1) % size;
  }

  lemma AddPageCounts(c: Contract, max: int, s: State, rows: seq<Row>)
    requires AddPage(c, max, s, rows).Ok?
    ensures var t := AddPage(c, max, s, rows).value;
            t.received == s.received + |rows| && (s.expected.Some? ==> t.expected == s.expected)
  {
    AddRowsCounts(c, max, s, map[], rows);
  }

  /** What an accepted envelope says about its page. */
  lemma EnvelopeSays(answer: Answer, position: int, size: int, max: int)
    requires 1 <= size && EnvelopeRows(answer, position, size, max).Ok?
    ensures var (rows, total, done) := EnvelopeRows(answer, position, size, max).value;
            && rows == AnswerRows(answer) && 0 <= total <= max && |rows| == Min(size, Max(0, total - (position - 1) * size))
            && answer.Paged? && answer.info.Some? && answer.info.value.totalRecords == total
            && answer.info.value.pageNumber == position
            && position <= Max(PageCount(total, size), 1) && done == (position == Max(PageCount(total, size), 1))
  {
    hide PageCount;
  }

  lemma EnvelopeTurn(server: Server, c: Contract, size: int, max: int, s: State, n: nat)
    requires 1 <= size && c.envelope && After(server, size, max, s, n)
    requires Turn(c, size, max, s, server(n, n + 1), n + 1).Ok?
    ensures var (t, rows, done) := Turn(c, size, max, s, server(n, n + 1), n + 1).value;
            After(server, size, max, t, n + 1) && done == (n + 1 == Max(PageCount(t.expected.value, size), 1))
  {
    hide PageCount, RowsThrough, AddPage, Dedup, EnvelopeRows;
    var answer := server(n, n + 1);
    var (rows, total, done) := EnvelopeRows(answer, n + 1, size, max).value;
    EnvelopeSays(answer, n + 1, size, max);
    var from := s.(expected := Some(total));
    AddPageDedups(c, max, from, rows);
    AddPageCounts(c, max, from, rows);
    RowsThroughNext(n, size, total);
    assert Declares(server, n, total);
  }

  ghost predicate Exact(server: Server, size: int, max: int, run: Run)
    requires 1 <= size
  {
    run.outcome.Ok? ==>
      var t := run.outcome.value;
      && 1 <= run.requests && After(server, size, max, t, run.requests)
      && run.requests == Max(PageCount(t.expected.value, size), 1)
      && t.received == t.expected.value
  }

  lemma LastPageIsExact(server: Server, size: int, max: int, t: State, n: nat)
    requires 1 <= size && 1 <= n && After(server, size, max, t, n) && n == Max(PageCount(t.expected.value, size), 1)
    ensures Exact(server, size, max, Run(Finish(t), n))
  {
  }

  lemma {:induction false} EnvelopeScan(server: Server, c: Contract, size: int, max: int, maxPages: int, s: State, n: nat)
    requires 1 <= size && c.envelope && !c.zeroProbe && After(server, size, max, s, n)
    ensures Exact(server, size, max, Scan(server, c, size, max, maxPages, s, n + 1, 1, n))
    decreases maxPages - n
  {
    hide Turn;
    var run := Scan(server, c, size, max, maxPages, s, n + 1, 1, n);
    var turn := Turn(c, size, max, s, server(n, n + 1), n + 1);
    if n < maxPages && turn.Ok? {
      EnvelopeTurn(server, c, size, max, s, n);
      var (t, rows, done) := turn.value;
      if done {
        LastPageIsExact(server, size, max, t, n + 1);
        assert run == Run(Finish(t), n + 1);
      } else {
        EnvelopeScan(server, c, size, max, maxPages, t, n + 1);
        assert Next(c, size, 1, n + 1, rows) == n + 2;
        assert run == Scan(server, c, size, max, maxPages, t, n + 2, 1, n + 1);
      }
    } else {
      assert run.outcome.Err?;
    }
  }

  /**
   Whatever the server answers, a successful envelope read made exactly max(1, ceil(total/size))
   requests, for pages 1, 2, ... in turn, where `total` is the one total every page declared; it
   received exactly `total` rows, and it returns the pages' rows in order, dropping only exact
   repeats within a page.
   */
  lemma EnvelopeReadIsExact(server: Server, c: Contract, size: int, max: int, maxPages: int)
    requires c.envelope && ValidArguments(c, size, max, maxPages)
    ensures var run := Read(server, c, size, max, maxPages);
            run.outcome.Ok? ==>
              var total := run.outcome.value.received;
              && run.requests == Max(1, PageCount(total, size))
              && Declared(server, run.requests, total)
              && run.outcome.value.rows == PageRows(server, run.requests)
  {
    EnvelopeScan(server, c, size, max, maxPages, Start, 0);
  }

  // ----- a fixed list behind an envelope -----

  /** A server that pages one fixed list and declares its true size on every page. */
  function Declaring(all: seq<Row>, size: nat): Server
    requires 1 <= size
  {
    (k: nat, position: int) =>
      if position < 1 then Malformed
      else Paged(Array(AsItems(Window(all, Offset(OneBasedEmpty, size, position), size))),
                 Some(PagingInfo(|all|, PageCount(|all|, size), size, position)))
  }

  lemma ItemsRead(rows: seq<Row>, size: nat)
    requires |rows| <= size
    ensures ArrayRows(Array(AsItems(rows)), size) == Ok(rows)
  {
    RecordsOfItems(rows);
  }

  lemma NoRowsNoPages(size: nat)
    requires 1 <= size
    ensures PageCount(0, size) == 0
  {
    QuotientIs(size - 1, size, 0);
  }

  lemma WindowLength(all: seq<Row>, from: nat, size: nat)
    ensures |Window(all, from, size)| == Min(size, Max(0, |all| - from)) <= size
  {
  }

  lemma DeclaredPageReads(all: seq<Row>, size: nat, max: int, n: nat)
    requires 1 <= size && |all| <= max && n + 1 <= Max(PageCount(|all|, size), 1)
    ensures EnvelopeRows(Declaring(all, size)(n, n + 1), n + 1, size, max)
         == Ok((Window(all, n * size, size), |all|, n + 1 == Max(PageCount(|all|, size), 1)))
  {
    hide PageCount, Window, ArrayRows;
    NoRowsNoPages(size);
    WindowLength(all, n * size, size);
    ItemsRead(Window(all, n * size, size), size);
    assert Offset(OneBasedEmpty, size, n + 1) == n * size;
  }

  /** The state before page n + 1 holds the rows of the pages before it, and knows the total if there were any. */
  ghost predicate ReadThrough(c: Contract, all: seq<Row>, origin: int, size: nat, s: State, n: nat)
    requires Identified(all)
  {
    && 0 <= RowsThrough(n, size, |all|) <= |all|
    && s.(expected := Some(|all|)) == Taken(c, all, origin, RowsThrough(n, size, |all|))
    && (s.expected.None? || s.expected == Some(|all|))
  }

  lemma DeclaredTurn(c: Contract, all: seq<Row>, origin: int, size: nat, max: int, s: State, n: nat)
    requires 1 <= size && c.envelope && Listing(c, max, all, origin) && ReadThrough(c, all, origin, size, s, n)
    requires n + 1 <= Max(PageCount(|all|, size), 1)
    ensures var turn := Turn(c, size, max, s, Declaring(all, size)(n, n + 1), n + 1);
            && turn.Ok? && ReadThrough(c, all, origin, size, turn.value.0, n + 1)
            && turn.value.0.expected == Some(|all|)
            && turn.value.2 == (n + 1 == Max(PageCount(|all|, size), 1))
  {
    hide EnvelopeRows, AddPage, PageCount, Window, Declaring;
    DeclaredPageReads(all, size, max, n);
    AddWindow(c, max, all, origin, n * size, size);
    assert n * size + size == (n + 1) * size;
  }

  /** A last state has everything. */
  lemma ReadThroughAll(c: Contract, all: seq<Row>, origin: int, size: nat, max: int, s: State, n: nat)
    requires 1 <= size && c.envelope && Listing(c, max, all, origin) && ReadThrough(c, all, origin, size, s, n)
    requires n == Max(PageCount(|all|, size), 1) && s.expected == Some(|all|)
    ensures Finish(s) == Ok(Taken(c, all, origin, |all|))
  {
    hide PageCount;
    RowsThroughAll(size, |all|);
  }

  lemma {:induction false} DeclaredScanCompletes(c: Contract, all: seq<Row>, origin: int, size: nat, max: int,
                                                 maxPages: int, s: State, n: nat)
    requires 1 <= size && c.envelope && !c.zeroProbe && Listing(c, max, all, origin) && n <= maxPages
    requires n + 1 <= Max(PageCount(|all|, size), 1) && ReadThrough(c, all, origin, size, s, n)
    ensures var needed := Max(PageCount(|all|, size), 1);
            Scan(Declaring(all, size), c, size, max, maxPages, s, n + 1, 1, n)
              == if needed <= maxPages then Run(Ok(Taken(c, all, origin, |all|)), needed)
                 else Run(Err(Incomplete), maxPages)
    decreases maxPages - n
  {
    hide Turn, PageCount, ReadThrough, Taken, Declaring, Finish;
    if n < maxPages {
      DeclaredTurn(c, all, origin, size, max, s, n);
      var t := Turn(c, size, max, s, Declaring(all, size)(n, n + 1), n + 1).value.0;
      if n + 1 < Max(PageCount(|all|, size), 1) {
        DeclaredScanCompletes(c, all, origin, size, max, maxPages, t, n + 1);
      } else {
        ReadThroughAll(c, all, origin, size, max, t, n + 1);
      }
    }
  }

  /** An honest envelope server is read completely and in order, in exactly max(1, ceil(n/size)) requests. */
  lemma EnvelopeReadCompletes(c: Contract, all: seq<Row>, origin: int, size: nat, max: int, maxPages: int)
    requires c.envelope && ValidArguments(c, size, max, maxPages) && Listing(c, max, all, origin)
    ensures var run := Read(Declaring(all, size), c, size, max, maxPages);
            var needed := Max(1, PageCount(|all|, size));
            if needed <= maxPages
            then run.outcome.Ok? && run.outcome.value.rows == all && run.requests == needed
            else run == Run(Err(Incomplete), maxPages)
  {
    hide Scan, Declaring, PageCount;
    assert Start.(expected := Some(|all|)) == Taken(c, all, origin, 0);
    DeclaredScanCompletes(c, all, origin, size, max, maxPages, Start, 0);
  }
}
