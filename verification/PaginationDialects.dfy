/**
 Dialect completeness: a server that pages one fixed list, in any of the four paging dialects the
 zero-origin probe tells apart, is read completely and in order, at an exactly known number of fetches.
 */
module PaginationDialects {
  import opened Arithmetic
  import opened Results
  import opened Pagination
  import opened PaginationSoundness

  datatype Dialect =
    | ZeroBased      // position 0 is the first page
    | OneBasedAlias  // position 1 is the first page, and 0 answers the same page
    | OneBasedEmpty  // position 1 is the first page, and 0 answers an empty page
    | RowOffset      // the position is the index of the first row wanted

  // ----- the server -----

  function Window(all: seq<Row>, from: nat, size: nat): seq<Row> {
    all[Min(from, |all|)..Min(from + size, |all|)]
  }

  /** The row index a position stands for. */
  function Offset(d: Dialect, size: nat, position: nat): nat {
    match d
    case ZeroBased => position * size
    case RowOffset => position
    case _ => if position == 0 then 0 else (position - 1) * size
  }

  function Page(d: Dialect, all: seq<Row>, size: nat, position: nat): seq<Row> {
    if d.OneBasedEmpty? && position == 0 then [] else Window(all, Offset(d, size, position), size)
  }

  function AsItems(rows: seq<Row>): seq<Item> {
    seq(|rows|, i requires 0 <= i < |rows| => Record(rows[i]))
  }

  /** The same answer to the same position, whenever it is asked. */
  function Serving(d: Dialect, all: seq<Row>, size: nat): Server {
    (k: nat, position: int) => if position < 0 then Malformed else Array(AsItems(Page(d, all, size, position)))
  }

  lemma {:induction false} RecordsOfItems(rows: seq<Row>)
    ensures Records(AsItems(rows)) == rows
  {
    if rows != [] {
      assert AsItems(rows)[1..] == AsItems(rows[1..]);
      RecordsOfItems(rows[1..]);
    }
  }

  lemma PageReads(d: Dialect, all: seq<Row>, size: nat, k: nat, position: nat)
    ensures ArrayRows(Serving(d, all, size)(k, position), size) == Ok(Page(d, all, size, position))
  {
    RecordsOfItems(Page(d, all, size, position));
  }

  // ----- the accumulator on a fixed list -----

  /** A fixed list with distinct identities and true totals and ordinals, within the row bound. */
  ghost predicate Listing(c: Contract, max: int, all: seq<Row>, origin: int) {
    && Identified(all) && DistinctIds(all) && |all| <= max
    && (c.hasTotal ==> forall i :: 0 <= i < |all| ==> all[i].total == Some(|all|))
    && (c.hasOrdinal ==> 0 <= origin <= 1 && OrdinalsFrom(all, origin))
  }

  /** The state once exactly the first `n` rows have been added. */
  ghost function Taken(c: Contract, all: seq<Row>, origin: int, n: nat): State
    requires n <= |all| && Identified(all)
  {
    State(all[..n], set i | 0 <= i < n :: all[i].id.value, n,
          if c.envelope || (c.hasTotal && n > 0) then Some(|all|) else None,
          if c.hasOrdinal && n > 0 then Some(origin) else None)
  }

  lemma AddNext(c: Contract, max: int, all: seq<Row>, origin: int, n: nat, page: map<int, Row>)
    requires Listing(c, max, all, origin) && n < |all|
    requires page.Keys <= Taken(c, all, origin, n).ids
    ensures AddRow(c, max, Taken(c, all, origin, n), page, all[n])
         == Ok((Taken(c, all, origin, n + 1), page[all[n].id.value := all[n]]))
  {
    var s := Taken(c, all, origin, n);
    var row := all[n];
    assert row.id.value !in s.ids;
    assert s.rows + [row] == all[..n + 1];
    assert s.ids + {row.id.value} == Taken(c, all, origin, n + 1).ids;
  }

  lemma {:induction false} AddRun(c: Contract, max: int, all: seq<Row>, origin: int, from: nat, to: nat,
                                  page: map<int, Row>)
    requires Listing(c, max, all, origin) && from <= to <= |all|
    requires page.Keys <= Taken(c, all, origin, from).ids
    ensures AddRows(c, max, Taken(c, all, origin, from), page, all[from..to]) == Ok(Taken(c, all, origin, to))
    decreases |all| - from
  {
    if from < to {
      AddNext(c, max, all, origin, from, page);
      var held := page[all[from].id.value := all[from]];
      AddRun(c, max, all, origin, from + 1, to, held);
      assert all[from..to][1..] == all[from + 1..to];
    }
  }

  lemma AddWindow(c: Contract, max: int, all: seq<Row>, origin: int, from: nat, size: nat)
    requires Listing(c, max, all, origin)
    ensures AddPage(c, max, Taken(c, all, origin, Min(from, |all|)), Window(all, from, size))
         == Ok(Taken(c, all, origin, Min(from + size, |all|)))
  {
    AddRun(c, max, all, origin, Min(from, |all|), Min(from + size, |all|), map[]);
  }

  // ----- the page loop on a fixed list -----

  /** Non-empty pages of `size` rows in `n` rows. */
  function Pages(n: int, size: nat): nat
    requires 1 <= size
    decreases n
  {
    if n <= 0 then 0 else 1 + Pages(n - size, size)
  }

  lemma FactorsOrdered(a: int, b: int, size: nat)
    requires a * size < b * size
    ensures a < b
  {
    assert b * size - a * size == (b - a) * size;
  }

  lemma QuotientIs(x: int, size: nat, q: int)
    requires 1 <= size && q * size <= x < q * size + size
    ensures x / size == q
  {
    var p := x / size;
    assert p * size <= x < p * size + size;
    assert (p + 1) * size == p * size + size && (q + 1) * size == q * size + size;
    FactorsOrdered(q, p + 1, size);
    FactorsOrdered(p, q + 1, size);
  }

  lemma {:induction false} PagesIsCeiling(n: nat, size: nat)
    requires 1 <= size
    ensures Pages(n, size) == PageCount(n, size)
    decreases n
  {
    if n <= size {
      QuotientIs(n + size - 1, size, if n == 0 then 0 else 1);
    } else {
      PagesIsCeiling(n - size, size);
      var q := PageCount(n - size, size);
      assert q * size + size == (q + 1) * size;
      QuotientIs(n + size - 1, size, q + 1);
    }
  }

  /** The loop's step leads from one window to the adjacent one. */
  ghost predicate Stride(c: Contract, d: Dialect, size: nat, step: int) {
    if d.RowOffset? && size > 1 then step == size && c.zeroProbe else step == 1 && (size == 1 || !d.RowOffset?)
  }

  lemma NextIsAdjacent(c: Contract, d: Dialect, all: seq<Row>, size: nat, step: int, position: nat)
    requires 1 <= size && 1 <= position && Stride(c, d, size, step)
    requires Window(all, Offset(d, size, position), size) != []
    ensures var p := Next(c, size, step, position, Window(all, Offset(d, size, position), size));
            1 <= p && Min(Offset(d, size, p), |all|) == Min(Offset(d, size, position) + size, |all|)
  {
    var rows := Window(all, Offset(d, size, position), size);
    var p := Next(c, size, step, position, rows);
    if !d.RowOffset? {
      assert p == position + 1;
      assert position * size + size == (position + 1) * size;
      assert (position - 1) * size + size == position * size;
    }
  }

  /** One turn of the loop adds exactly the next window. */
  lemma WindowTurn(c: Contract, d: Dialect, all: seq<Row>, origin: int, size: nat, max: int, k: nat, position: nat)
    requires 1 <= size && 1 <= position && !c.envelope && Listing(c, max, all, origin)
    ensures var from := Offset(d, size, position);
            var rows := Window(all, from, size);
            var turn := Turn(c, size, max, Taken(c, all, origin, Min(from, |all|)), Serving(d, all, size)(k, position), position);
            turn == Ok((Taken(c, all, origin, Min(from + size, |all|)), rows, rows == []))
  {
    PageReads(d, all, size, k, position);
    AddWindow(c, max, all, origin, Offset(d, size, position), size);
  }

  lemma PagesStep(n: nat, from: nat, size: nat)
    requires 1 <= size
    ensures Pages(n - Min(from, n), size) == if from < n then 1 + Pages(n - Min(from + size, n), size) else 0
  {
  }

  /** What the loop should return once the first `n` rows are taken. */
  ghost function Completion(c: Contract, all: seq<Row>, origin: int, size: nat, maxPages: int, n: nat, requests: nat): Run
    requires 1 <= size && n <= |all| && Identified(all) && requests <= maxPages
  {
    var needed := Pages(|all| - n, size) + 1;
    if requests + needed <= maxPages then Run(Ok(Taken(c, all, origin, |all|)), requests + needed)
    else Run(Err(Incomplete), maxPages)
  }

  /** From the rows before `position` on, the loop reads the rest, and one empty page. */
  lemma {:induction false} ScanCompletes(c: Contract, d: Dialect, all: seq<Row>, origin: int, size: nat, max: int,
                                         maxPages: int, position: nat, step: int, requests: nat)
    requires 1 <= size && 1 <= position && !c.envelope && Stride(c, d, size, step) && requests <= maxPages
    requires Listing(c, max, all, origin)
    ensures var n := Min(Offset(d, size, position), |all|);
            var run := Scan(Serving(d, all, size), c, size, max, maxPages, Taken(c, all, origin, n), position, step, requests);
            run == Completion(c, all, origin, size, maxPages, n, requests)
    decreases maxPages - requests
  {
    hide Turn;
    var from := Offset(d, size, position);
    var rows := Window(all, from, size);
    if requests < maxPages {
      WindowTurn(c, d, all, origin, size, max, requests, position);
      PagesStep(|all|, from, size);
      if rows != [] {
        NextIsAdjacent(c, d, all, size, step, position);
        ScanCompletes(c, d, all, origin, size, max, maxPages, Next(c, size, step, position, rows), step, requests + 1);
      } else {
        TakenFinishes(c, max, all, origin);
      }
    }
  }

  lemma TakenFinishes(c: Contract, max: int, all: seq<Row>, origin: int)
    requires Listing(c, max, all, origin)
    ensures Finish(Taken(c, all, origin, |all|)) == Ok(Taken(c, all, origin, |all|))
  {
  }

  // ----- the probe on a fixed list -----

  /** The fetches a probing read makes of a list of `n` rows. */
  function Cost(d: Dialect, n: nat, size: nat): nat
    requires 1 <= size
  {
    if n == 0 then 2
    else if d.ZeroBased? || (d.RowOffset? && (size == 1 || n == 1)) then Pages(n, size) + 1
    else Pages(n, size) + 2
  }

  lemma WindowsDistinct(all: seq<Row>, size: nat)
    requires 1 <= size && Identified(all) && DistinctIds(all)
    ensures var first, second := Window(all, 0, size), Window(all, size, size);
            Identified(second) && DistinctIds(second) && !Overlaps(first, second)
  {
  }

  lemma OffsetsOverlap(all: seq<Row>, size: nat)
    requires 2 <= size && Identified(all) && DistinctIds(all) && |all| >= 2
    ensures var first, second := Window(all, 0, size), Window(all, 1, size);
            && first != second && Identified(second) && DistinctIds(second) && Overlaps(first, second)
            && |first| > 1 && |second| >= |first| - 1 && first[1..] == second[..|first| - 1]
  {
    var first, second := Window(all, 0, size), Window(all, 1, size);
    assert first[0] == all[0] && second[0] == all[1] && first[1] == all[1];
    assert all[0].id != all[1].id;
    assert first[1].id == second[0].id;
    assert first[1..] == second[..|first| - 1];
  }

  lemma NotMoved(c: Contract, max: int, all: seq<Row>, origin: int, n: nat, from: nat, size: nat)
    requires Listing(c, max, all, origin) && 0 < n <= |all|
    ensures !Moved(c, Taken(c, all, origin, n), Window(all, from, size))
  {
  }

  /** The probe found how the server pages and kept exactly the rows before its next position. */
  ghost predicate Resolved(c: Contract, d: Dialect, all: seq<Row>, origin: int, size: nat, probe: Result<Plan, Failure>)
    requires 1 <= size && Identified(all)
  {
    && probe.Ok?
    && if probe.value.done then probe.value.state == Taken(c, all, origin, |all|) && Cost(d, |all|, size) == 2
       else
         && 2 <= probe.value.position && Stride(c, d, size, probe.value.step)
         && var n := Min(Offset(d, size, probe.value.position), |all|);
            && probe.value.state == Taken(c, all, origin, n)
            && 2 + Pages(|all| - n, size) + 1 == Cost(d, |all|, size)
  }

  lemma PagesUnroll(n: nat, size: nat)
    requires 1 <= size
    ensures 1 <= n <= size ==> Pages(n, size) == 1
    ensures size < n ==> Pages(n, size) == 1 + Pages(n - size, size) == 2 + Pages(n - 2 * size, size)
    ensures 1 <= n ==> Pages(n, size) == 1 + Pages(n - Min(size, n), size)
    ensures size < n ==> Pages(n - 2 * size, size) == Pages(n - Min(2 * size, n), size)
  {
  }

  lemma ProbeFindsZeroBased(c: Contract, all: seq<Row>, origin: int, size: nat, max: int)
    requires 1 <= size && Listing(c, max, all, origin) && !c.envelope
    ensures Resolved(c, ZeroBased, all, origin, size, Probe(c, max, size, Window(all, 0, size), Window(all, size, size)))
  {
    hide AddPage, Moved, Overlaps, Pages, Resolved;
    assert Start == Taken(c, all, origin, 0);
    AddWindow(c, max, all, origin, 0, size);
    AddWindow(c, max, all, origin, size, size);
    if all != [] {
      NotMoved(c, max, all, origin, Min(size, |all|), size, size);
      WindowsDistinct(all, size);
      WindowsDiffer(all, size);
    }
    ZeroBasedPlan(c, all, origin, size);
  }

  lemma WindowsDiffer(all: seq<Row>, size: nat)
    requires 1 <= size && Identified(all) && DistinctIds(all) && all != []
    ensures Window(all, 0, size) != [] && Window(all, 0, size) != Window(all, size, size)
  {
    assert Window(all, 0, size)[0] == all[0];
  }

  /** Both pages kept, the scan goes on at page 2 in steps of one, unless the second was empty. */
  lemma ZeroBasedPlan(c: Contract, all: seq<Row>, origin: int, size: nat)
    requires 1 <= size && Identified(all)
    ensures Resolved(c, ZeroBased, all, origin, size,
                     Ok(Plan(Taken(c, all, origin, Min(size + size, |all|)), 2, 1, Window(all, size, size) == [])))
  {
    hide Taken, Pages;
    PagesUnroll(|all|, size);
  }

  lemma ProbeFindsOneBased(c: Contract, d: Dialect, all: seq<Row>, origin: int, size: nat, max: int)
    requires 1 <= size && Listing(c, max, all, origin) && !c.envelope && (d.OneBasedAlias? || d.OneBasedEmpty?)
    ensures Resolved(c, d, all, origin, size, Probe(c, max, size, Page(d, all, size, 0), Page(d, all, size, 1)))
  {
    assert Start == Taken(c, all, origin, 0);
    assert Offset(d, size, 1) == 0 && Offset(d, size, 2) == size;
    AddWindow(c, max, all, origin, 0, size);
    if all != [] {
      assert Window(all, 0, size)[0] == all[0];
      PagesUnroll(|all|, size);
    }
  }

  lemma AddNothing(c: Contract, max: int, s: State)
    requires s.received <= max
    ensures AddPage(c, max, s, []) == Ok(s)
  {
  }

  lemma ProbeFindsRowOffset(c: Contract, all: seq<Row>, origin: int, size: nat, max: int)
    requires 2 <= size && Listing(c, max, all, origin) && c.zeroProbe && !c.envelope
    ensures Resolved(c, RowOffset, all, origin, size, Probe(c, max, size, Window(all, 0, size), Window(all, 1, size)))
  {
    if |all| >= 2 {
      hide AddPage, Pages, Moved, Overlaps;
      assert Start == Taken(c, all, origin, 0);
      AddWindow(c, max, all, origin, 0, size);
      PagesUnroll(|all|, size);
      NotMoved(c, max, all, origin, Min(size, |all|), 1, size);
      OffsetsOverlap(all, size);
    } else {
      ProbeFindsFewRows(c, all, origin, size, max);
    }
  }

  /** With at most one row the second answer is empty, and the read is done. */
  lemma ProbeFindsFewRows(c: Contract, all: seq<Row>, origin: int, size: nat, max: int)
    requires 2 <= size && Listing(c, max, all, origin) && c.zeroProbe && !c.envelope && |all| <= 1
    ensures Resolved(c, RowOffset, all, origin, size, Probe(c, max, size, Window(all, 0, size), Window(all, 1, size)))
  {
    hide AddPage, Pages;
    assert Start == Taken(c, all, origin, 0);
    AddWindow(c, max, all, origin, 0, size);
    PagesUnroll(|all|, size);
    assert Window(all, 1, size) == [];
    AddNothing(c, max, Taken(c, all, origin, |all|));
  }

  /** With pages of one row, a row offset and a zero-based page number are the same thing. */
  lemma ProbeFindsSingleRows(c: Contract, all: seq<Row>, origin: int, max: int)
    requires Listing(c, max, all, origin) && c.zeroProbe && !c.envelope
    ensures Resolved(c, RowOffset, all, origin, 1, Probe(c, max, 1, Window(all, 0, 1), Window(all, 1, 1)))
  {
    ProbeFindsZeroBased(c, all, origin, 1, max);
    PagesUnroll(|all|, 1);
  }

  lemma ProbeResolves(c: Contract, d: Dialect, all: seq<Row>, origin: int, size: nat, max: int)
    requires 1 <= size && Listing(c, max, all, origin) && c.zeroProbe && !c.envelope
    ensures Resolved(c, d, all, origin, size, Probe(c, max, size, Page(d, all, size, 0), Page(d, all, size, 1)))
  {
    match d
    case ZeroBased => ProbeFindsZeroBased(c, all, origin, size, max);
    case RowOffset =>
      if size == 1 {
        ProbeFindsSingleRows(c, all, origin, max);
      } else {
        ProbeFindsRowOffset(c, all, origin, size, max);
      }
    case _ => ProbeFindsOneBased(c, d, all, origin, size, max);
  }

  lemma CostBound(d: Dialect, n: nat, size: nat)
    requires 1 <= size
    ensures 2 <= Cost(d, n, size) <= PageCount(n, size) + 2
  {
    PagesIsCeiling(n, size);
    PagesUnroll(n, size);
  }

  /** With room for both probe requests, the read goes where the probe's plan leads. */
  lemma ReadFollowsPlan(c: Contract, d: Dialect, all: seq<Row>, origin: int, size: nat, max: int, maxPages: int)
    requires c.zeroProbe && ValidArguments(c, size, max, maxPages) && 2 <= maxPages && Listing(c, max, all, origin)
    requires Resolved(c, d, all, origin, size, Probe(c, max, size, Page(d, all, size, 0), Page(d, all, size, 1)))
    ensures var plan := Probe(c, max, size, Page(d, all, size, 0), Page(d, all, size, 1)).value;
            var run := Read(Serving(d, all, size), c, size, max, maxPages);
            run == if plan.done then Run(Finish(plan.state), 2)
                   else Scan(Serving(d, all, size), c, size, max, maxPages, plan.state, plan.position, plan.step, 2)
  {
    PageReads(d, all, size, 0, 0);
    PageReads(d, all, size, 1, 1);
  }

  lemma ReadCompletes(c: Contract, d: Dialect, all: seq<Row>, origin: int, size: nat, max: int, maxPages: int)
    requires c.zeroProbe && ValidArguments(c, size, max, maxPages) && 2 <= maxPages && Listing(c, max, all, origin)
    requires Resolved(c, d, all, origin, size, Probe(c, max, size, Page(d, all, size, 0), Page(d, all, size, 1)))
    ensures Read(Serving(d, all, size), c, size, max, maxPages)
         == if Cost(d, |all|, size) <= maxPages then Run(Ok(Taken(c, all, origin, |all|)), Cost(d, |all|, size))
            else Run(Err(Incomplete), maxPages)
  {
    hide Read, Scan, Probe, Listing, Page, Finish;
    ReadFollowsPlan(c, d, all, origin, size, max, maxPages);
    TakenFinishes(c, max, all, origin);
    var plan := Probe(c, max, size, Page(d, all, size, 0), Page(d, all, size, 1)).value;
    if !plan.done {
      ScanCompletes(c, d, all, origin, size, max, maxPages, plan.position, plan.step, 2);
    }
  }

  /**
   Dialect completeness. For every fixed list and every dialect, a probing read returns exactly that
   list, in order, when the page bound admits the `Cost` fetches it needs, and otherwise refuses
   with the page-bound error after `maxPages` fetches. `Cost` is at most ceil(n/size) + 2.
   */
  lemma DialectsComplete(c: Contract, d: Dialect, all: seq<Row>, origin: int, size: nat, max: int, maxPages: int)
    requires c.zeroProbe && ValidArguments(c, size, max, maxPages) && Listing(c, max, all, origin)
    ensures Cost(d, |all|, size) <= PageCount(|all|, size) + 2
    ensures var run := Read(Serving(d, all, size), c, size, max, maxPages);
            if Cost(d, |all|, size) <= maxPages
            then run.outcome.Ok? && run.outcome.value.rows == all && run.requests == Cost(d, |all|, size)
            else run == Run(Err(Incomplete), maxPages)
  {
    CostBound(d, |all|, size);
    if maxPages >= 2 {
      ProbeResolves(c, d, all, origin, size, max);
      ReadCompletes(c, d, all, origin, size, max, maxPages);
      assert Taken(c, all, origin, |all|).rows == all;
    } else {
      PageReads(d, all, size, 0, 0);
    }
  }

  /** A contract without a probe reads a one-based server the same way, in ceil(n/size) + 1 fetches. */
  lemma PlainReadCompletes(c: Contract, d: Dialect, all: seq<Row>, origin: int, size: nat, max: int, maxPages: int)
    requires !c.zeroProbe && !c.envelope && (d.OneBasedAlias? || d.OneBasedEmpty?)
    requires ValidArguments(c, size, max, maxPages) && Listing(c, max, all, origin)
    ensures var run := Read(Serving(d, all, size), c, size, max, maxPages);
            var needed := PageCount(|all|, size) + 1;
            if needed <= maxPages
            then run.outcome.Ok? && run.outcome.value.rows == all && run.requests == needed
            else run == Run(Err(Incomplete), maxPages)
  {
    hide Scan;
    PagesIsCeiling(|all|, size);
    assert Start == Taken(c, all, origin, 0) && Taken(c, all, origin, |all|).rows == all;
    ScanCompletes(c, d, all, origin, size, max, maxPages, 1, 1, 0);
  }
}
