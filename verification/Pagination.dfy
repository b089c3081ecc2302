/**
 Strict bounded pagination (src/parishkit/parishsoft_pagination.py): the accumulator, the
 envelope check, the zero-origin probe and the page loop, as functions on values.
 PagedReader.dfy holds the same operations in the source's imperative form.
 */
module Pagination {
  import opened Arithmetic
  import opened Results

  /** The exception classes a read can end with. */
  datatype Failure =
    | Incomplete    // IncompleteSourceCollection: cannot prove a complete collection
    | Shifted       // ShiftedSourceScan: the collection moved while it was read
    | BadArguments  // ValueError: invalid contract or bounds
    | Unavailable   // whatever the fetch callback itself raised

  /**
   One source record. `id` is what the endpoint's identity extractor returns (`None` when it
   raises); `total` and `ordinal` are the embedded fields when they hold an integer.
   */
  datatype Row = Row(id: Option<int>, total: Option<int>, ordinal: Option<int>, payload: int)

  datatype Item = Record(row: Row) | NotARecord

  datatype PagingInfo = PagingInfo(totalRecords: int, totalPages: int, pageSize: int, pageNumber: int)

  /** What one fetch can answer; `Paged` has exactly the keys `data` and `pagingInfo`. */
  datatype Answer =
    | Array(items: seq<Item>)
    | Null
    | Paged(data: Answer, info: Option<PagingInfo>)
    | Malformed
    | Raised

  datatype Contract = Contract(envelope: bool, zeroProbe: bool, hasTotal: bool, hasOrdinal: bool)

  /** The fields of the accumulator. */
  datatype State = State(rows: seq<Row>, ids: set<int>, received: nat, expected: Option<int>, origin: Option<int>)

  const Start := State([], {}, 0, None, None)

  /** The k-th request (from 0) at a position: every server, however it changes its mind. */
  type Server = (nat, int) -> Answer

  // ----- the accumulator -----

  function CheckTotal(c: Contract, max: int, s: State, row: Row): Result<State, Failure> {
    if !c.hasTotal then Ok(s)
    else if row.total.None? || !(1 <= row.total.value <= max) then Err(Incomplete)
    else if s.expected.Some? && s.expected != row.total then Err(Shifted)
    else Ok(s.(expected := row.total))
  }

  function CheckOrdinal(c: Contract, s: State, row: Row): Result<State, Failure> {
    if !c.hasOrdinal then Ok(s)
    else if row.ordinal.None? then Err(Incomplete)
    else if s.origin.None? && row.ordinal.value != 0 && row.ordinal.value != 1 then Err(Incomplete)
    else
      var origin := if s.origin.None? then row.ordinal.value else s.origin.value;
      if row.ordinal.value != s.received + origin then Err(Shifted)
      else Ok(s.(origin := Some(origin)))
  }

  /** One row: `page` holds the rows of the current page retained so far, by identity. */
  function AddRow(c: Contract, max: int, s: State, page: map<int, Row>, row: Row)
    : Result<(State, map<int, Row>), Failure>
  {
    if row.id.None? then Err(Incomplete) else
    var id := row.id.value;
    var repeat := id in page && page[id] == row;
    if id in s.ids && !repeat then Err(if id in page then Incomplete else Shifted) else
    var s1 :- CheckTotal(c, max, s, row);
    var s2 :- CheckOrdinal(c, s1, row);
    if repeat then Ok((s2.(received := s2.received + 1), page))
    else Ok((State(s2.rows + [row], s2.ids + {id}, s2.received + 1, s2.expected, s2.origin), page[id := row]))
  }

  function AddRows(c: Contract, max: int, s: State, page: map<int, Row>, rows: seq<Row>): Result<State, Failure>
    decreases |rows|
  {
    if rows == [] then Ok(s) else
    var next :- AddRow(c, max, s, page, rows[0]);
    AddRows(c, max, next.0, next.1, rows[1..])
  }

  function AddPage(c: Contract, max: int, s: State, rows: seq<Row>): Result<State, Failure> {
    if s.received + |rows| > max then Err(Incomplete) else AddRows(c, max, s, map[], rows)
  }

  function Finish(s: State): Result<State, Failure> {
    if s.expected.Some? && s.expected.value != s.received then Err(Shifted) else Ok(s)
  }

  // ----- page shapes -----

  /** The records of an answer, skipping anything that is not a record. */
  function Records(items: seq<Item>): seq<Row> {
    if items == [] then []
    else (if items[0].Record? then [items[0].row] else []) + Records(items[1..])
  }

  function ArrayRows(answer: Answer, size: int): Result<seq<Row>, Failure> {
    if answer.Raised? then Err(Unavailable)
    else if !answer.Array? || |answer.items| > size then Err(Incomplete)
    else if NotARecord in answer.items then Err(Incomplete)
    else Ok(Records(answer.items))
  }

  /** Pages of `size` rows needed for `total` rows, as the envelope check computes it. */
  function PageCount(total: int, size: int): int
    requires 1 <= size
  {
    (total + size - 1) / size
  }

  function EnvelopeRows(answer: Answer, position: int, size: int, max: int)
    : Result<(seq<Row>, int, bool), Failure>
    requires 1 <= size
  {
    if answer.Raised? then Err(Unavailable)
    else if !answer.Paged? || answer.info.None? then Err(Incomplete)
    else
      var info := answer.info.value;
      var total := info.totalRecords;
      var pages := PageCount(total, size);
      if !(0 <= total <= max) || info.pageSize != size || info.pageNumber != position
         || (if total == 0 then info.totalPages != 0 && info.totalPages != 1 else info.totalPages != pages)
         || position > Max(pages, 1)
      then Err(Incomplete)
      else
        var rows :- ArrayRows(if answer.data.Null? && total == 0 then Array([]) else answer.data, size);
        if |rows| != Min(size, Max(0, total - (position - 1) * size)) then Err(Incomplete)
        else Ok((rows, total, position >= Max(pages, 1)))
  }

  // ----- the zero-origin probe -----

  datatype Plan = Plan(state: State, position: int, step: int, done: bool)

  predicate Moved(c: Contract, s: State, second: seq<Row>) {
    c.hasTotal && exists i :: 0 <= i < |second| && second[i].total.Some? && second[i].total != s.expected
  }

  predicate Identified(rows: seq<Row>) {
    forall i :: 0 <= i < |rows| ==> rows[i].id.Some?
  }

  predicate DistinctIds(rows: seq<Row>) {
    forall i, j :: 0 <= i < j < |rows| ==> rows[i].id != rows[j].id
  }

  predicate Overlaps(a: seq<Row>, b: seq<Row>) {
    exists i, j :: 0 <= i < |a| && 0 <= j < |b| && a[i].id == b[j].id
  }

  function Probe(c: Contract, max: int, size: int, first: seq<Row>, second: seq<Row>): Result<Plan, Failure> {
    var s :- AddPage(c, max, Start, first);
    if first == [] then
      var t :- AddPage(c, max, s, second);
      Ok(Plan(t, 2, 1, second == []))
    else if first == second then Ok(Plan(s, 2, 1, false))
    else if Moved(c, s, second) then Err(Shifted)
    else if !Identified(second) || !DistinctIds(second) then Err(Incomplete)
    else if Overlaps(first, second) then
      if |first| > 1 && |second| >= |first| - 1 && first[1..] == second[..|first| - 1]
      then Ok(Plan(s, |first|, size, false))
      else Err(Incomplete)
    else
      var t :- AddPage(c, max, s, second);
      Ok(Plan(t, 2, 1, second == []))
  }

  // ----- the page loop -----

  /** How a read ended and how many fetches it made. */
  datatype Run = Run(outcome: Result<State, Failure>, requests: nat)

  /** One page read at `position`: the new state, the rows it brought and whether it was the last. */
  function Turn(c: Contract, size: int, max: int, s: State, answer: Answer, position: int)
    : Result<(State, seq<Row>, bool), Failure>
    requires 1 <= size
  {
    if c.envelope then
      var page :- EnvelopeRows(answer, position, size, max);
      if s.expected.Some? && s.expected.value != page.1 then Err(Shifted) else
      var t :- AddPage(c, max, s.(expected := Some(page.1)), page.0);
      Ok((t, page.0, page.2))
    else
      var rows :- ArrayRows(answer, size);
      var t :- AddPage(c, max, s, rows);
      Ok((t, rows, rows == []))
  }

  function Next(c: Contract, size: int, step: int, position: int, rows: seq<Row>): int {
    position + if step == size && c.zeroProbe then |rows| else step
  }

  /** The loop from `position`, `requests` fetches having been made. */
  function Scan(server: Server, c: Contract, size: int, max: int, maxPages: int,
                s: State, position: int, step: int, requests: nat): Run
    requires 1 <= size
    decreases maxPages - requests
  {
    if requests >= maxPages then Run(Err(Incomplete), requests) else
    match Turn(c, size, max, s, server(requests, position), position)
    case Err(e) => Run(Err(e), requests + 1)
    case Ok((t, rows, done)) =>
      if done then Run(Finish(t), requests + 1)
      else Scan(server, c, size, max, maxPages, t, Next(c, size, step, position, rows), step, requests + 1)
  }

  predicate ValidArguments(c: Contract, size: int, max: int, maxPages: int) {
    && 1 <= size <= 500 && 1 <= max <= 1000000 && 1 <= maxPages <= 10000
    && !(c.envelope && c.zeroProbe)
  }

  function ReadProbed(server: Server, c: Contract, size: int, max: int, maxPages: int): Run
    requires 1 <= size && 1 <= maxPages
  {
    match ArrayRows(server(0, 0), size)
    case Err(e) => Run(Err(e), 1)
    case Ok(first) =>
      if 1 >= maxPages then Run(Err(Incomplete), 1) else
      match ArrayRows(server(1, 1), size)
      case Err(e) => Run(Err(e), 2)
      case Ok(second) =>
        match Probe(c, max, size, first, second)
        case Err(e) => Run(Err(e), 2)
        case Ok(plan) =>
          if plan.done then Run(Finish(plan.state), 2)
          else Scan(server, c, size, max, maxPages, plan.state, plan.position, plan.step, 2)
  }

  /** `read_pages`: the whole read, with the number of fetches it made. */
  function Read(server: Server, c: Contract, size: int, max: int, maxPages: int): Run {
    if !ValidArguments(c, size, max, maxPages) then Run(Err(BadArguments), 0)
    else if c.zeroProbe then ReadProbed(server, c, size, max, maxPages)
    else Scan(server, c, size, max, maxPages, Start, 1, 1, 0)
  }
}
