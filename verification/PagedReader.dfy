/** The pagination reader in the source's own form: a mutable accumulator and a page loop. */
module PagedReader {
  import opened Results
  import opened Pagination
  import opened PaginationSoundness

  /** Validates identity, counts and embedded ordinals before retaining rows. */
  class Collection {
    const contract: Contract
    const maximum: int
    var rows: seq<Row>
    var identities: set<int>
    var received: nat
    var expectedTotal: Option<int>
    var ordinalOrigin: Option<int>

    function Value(): State
      reads this
    {
      State(rows, identities, received, expectedTotal, ordinalOrigin)
    }

    constructor (contract: Contract, maximum: int)
      ensures this.contract == contract && this.maximum == maximum && Value() == Start
    {
      this.contract, this.maximum := contract, maximum;
      rows, identities, received, expectedTotal, ordinalOrigin := [], {}, 0, None, None;
    }

    /** The row's embedded total must be present, in bounds and unchanged. */
    method NoteTotal(row: Row) returns (failure: Option<Failure>)
      modifies this`expectedTotal
      ensures match CheckTotal(contract, maximum, old(Value()), row)
              case Ok(t) => failure.None? && Value() == t
              case Err(e) => failure == Some(e)
    {
      if contract.hasTotal {
        if row.total.None? || !(1 <= row.total.value <= maximum) {
          return Some(Incomplete);
        }
        if expectedTotal.Some? && row.total != expectedTotal {
          return Some(Shifted);
        }
        expectedTotal := row.total;
      }
      failure := None;
    }

    /** The row's embedded ordinal must continue the run that the first row began at 0 or 1. */
    method NoteOrdinal(row: Row) returns (failure: Option<Failure>)
      modifies this`ordinalOrigin
      ensures match CheckOrdinal(contract, old(Value()), row)
              case Ok(t) => failure.None? && Value() == t
              case Err(e) => failure == Some(e)
    {
      if contract.hasOrdinal {
        if row.ordinal.None? {
          return Some(Incomplete);
        }
        if ordinalOrigin.None? {
          if row.ordinal.value != 0 && row.ordinal.value != 1 {
            return Some(Incomplete);
          }
          ordinalOrigin := row.ordinal;
        }
        if row.ordinal.value != received + ordinalOrigin.value {
          return Some(Shifted);
        }
      }
      failure := None;
    }

    /** Adds one row, `page` being the rows of its page retained so far. */
    method AddOne(page: map<int, Row>, row: Row) returns (failure: Option<Failure>, held: map<int, Row>)
      modifies this
      ensures match AddRow(contract, maximum, old(Value()), page, row)
              case Ok((t, p)) => failure.None? && Value() == t && held == p
              case Err(e) => failure == Some(e)
    {
      held := page;
      if row.id.None? {
        return Some(Incomplete), held;
      }
      var id := row.id.value;
      var repeat := id in page && page[id] == row;
      if id in identities && !repeat {
        return Some(if id !in page then Shifted else Incomplete), held;
      }
      failure := NoteTotal(row);
      if failure.Some? {
        return;
      }
      failure := NoteOrdinal(row);
      if failure.Some? {
        return;
      }
      received := received + 1;
      if !repeat {
        held := page[id := row];
        identities := identities + {id};
        rows := rows + [row];
      }
    }

    /** Adds one page; a failure raises and the collection is abandoned. */
    method Add(added: seq<Row>) returns (failure: Option<Failure>)
      modifies this
      ensures match AddPage(contract, maximum, old(Value()), added)
              case Ok(t) => failure.None? && Value() == t
              case Err(e) => failure == Some(e)
    {
      if received + |added| > maximum {
        return Some(Incomplete);
      }
      var page: map<int, Row> := map[];
      ghost var goal := AddRows(contract, maximum, Value(), page, added);
      for i := 0 to |added|
        invariant AddRows(contract, maximum, Value(), page, added[i..]) == goal
      {
        assert added[i..][0] == added[i] && added[i..][1..] == added[i + 1..];
        failure, page := AddOne(page, added[i]);
        if failure.Some? {
          return;
        }
      }
      failure := None;
    }

    method Finish() returns (result: Result<seq<Row>, Failure>)
      ensures result == Rows(Pagination.Finish(Value()))
    {
      if expectedTotal.Some? && expectedTotal.value != received {
        return Err(Shifted);
      }
      result := Ok(rows);
    }
  }

  function Rows(outcome: Result<State, Failure>): Result<seq<Row>, Failure> {
    match outcome
    case Ok(s) => Ok(s.rows)
    case Err(e) => Err(e)
  }

  /** Resolves the paging dialect from the answers to positions 0 and 1, adding what they prove. */
  method Resolve(first: seq<Row>, second: seq<Row>, size: int, collection: Collection)
    returns (plan: Result<(int, int, bool), Failure>)
    requires collection.Value() == Start
    modifies collection
    ensures match Probe(collection.contract, collection.maximum, size, first, second)
            case Ok(p) => plan == Ok((p.position, p.step, p.done)) && collection.Value() == p.state
            case Err(e) => plan == Err(e)
  {
    var failure := collection.Add(first);
    if failure.Some? {
      return Err(failure.value);
    }
    if first == [] {
      failure := collection.Add(second);
      return if failure.Some? then Err(failure.value) else Ok((2, 1, second == []));
    }
    if first == second {
      return Ok((2, 1, false));
    }
    if Moved(collection.contract, collection.Value(), second) {
      return Err(Shifted);
    }
    if !Identified(second) || !DistinctIds(second) {
      return Err(Incomplete);
    }
    if Overlaps(first, second) {
      if |first| > 1 && |second| >= |first| - 1 && first[1..] == second[..|first| - 1] {
        return Ok((|first|, size, false));
      }
      return Err(Incomplete);
    }
    failure := collection.Add(second);
    return if failure.Some? then Err(failure.value) else Ok((2, 1, second == []));
  }

  /**
   Fetches one complete collection, or says why it cannot be proved complete; `asked` is every position
   it asked the server for, in order.
   */
  method ReadPages(server: Server, contract: Contract, size: int, maxRecords: int, maxPages: int)
    returns (result: Result<seq<Row>, Failure>, asked: seq<int>)
    ensures var run := Read(server, contract, size, maxRecords, maxPages);
            result == Rows(run.outcome) && |asked| == run.requests
    ensures asked == Asks(server, contract, size, maxRecords, maxPages)
  {
    asked := [];
    if !ValidArguments(contract, size, maxRecords, maxPages) {
      return Err(BadArguments), asked;
    }
    var collection := new Collection(contract, maxRecords);
    var position, step := 1, 1;
    if contract.zeroProbe {
      asked := [0];
      var first := ArrayRows(server(0, 0), size);
      if first.Err? {
        return Err(first.error), asked;
      }
      if |asked| >= maxPages {
        return Err(Incomplete), asked;
      }
      asked := [0, 1];
      var second := ArrayRows(server(1, 1), size);
      if second.Err? {
        return Err(second.error), asked;
      }
      var plan := Resolve(first.value, second.value, size, collection);
      if plan.Err? {
        return Err(plan.error), asked;
      }
      position, step := plan.value.0, plan.value.1;
      if plan.value.2 {
        result := collection.Finish();
        return;
      }
    }
    result, asked := ScanPages(server, contract, size, maxRecords, maxPages, collection, position, step, asked);
  }

  /** One page, as the loop treats it: the rows and whether it is the last. */
  method TurnPage(answer: Answer, size: int, position: int, collection: Collection)
    returns (turn: Result<(seq<Row>, bool), Failure>)
    requires 1 <= size
    modifies collection
    ensures match Turn(collection.contract, size, collection.maximum, old(collection.Value()), answer, position)
            case Ok((t, rows, done)) => turn == Ok((rows, done)) && collection.Value() == t
            case Err(e) => turn == Err(e)
  {
    var rows: seq<Row>, done: bool;
    if collection.contract.envelope {
      var page := EnvelopeRows(answer, position, size, collection.maximum);
      if page.Err? {
        return Err(page.error);
      }
      if collection.expectedTotal.Some? && collection.expectedTotal.value != page.value.1 {
        return Err(Shifted);
      }
      collection.expectedTotal := Some(page.value.1);
      rows, done := page.value.0, page.value.2;
    } else {
      var page := ArrayRows(answer, size);
      if page.Err? {
        return Err(page.error);
      }
      rows, done := page.value, page.value == [];
    }
    var failure := collection.Add(rows);
    turn := if failure.Some? then Err(failure.value) else Ok((rows, done));
  }

  /** The page loop. */
  method ScanPages(server: Server, contract: Contract, size: int, maxRecords: int, maxPages: int,
                   collection: Collection, first: int, step: int, before: seq<int>)
    returns (result: Result<seq<Row>, Failure>, asked: seq<int>)
    requires 1 <= size && collection.contract == contract && collection.maximum == maxRecords && |before| <= maxPages
    modifies collection
    ensures var s := old(collection.Value());
            var run := Scan(server, contract, size, maxRecords, maxPages, s, first, step, |before|);
            && result == Rows(run.outcome) && |asked| == run.requests
            && asked == before + ScanAsks(server, contract, size, maxRecords, maxPages, s, first, step, |before|)
  {
    hide Turn, Next, Scan, ScanAsks;
    var position := first;
    asked := before;
    ghost var s := collection.Value();
    while |asked| < maxPages
      invariant |asked| <= maxPages
      invariant Scan(server, contract, size, maxRecords, maxPages, collection.Value(), position, step, |asked|)
             == Scan(server, contract, size, maxRecords, maxPages, s, first, step, |before|)
      invariant asked + ScanAsks(server, contract, size, maxRecords, maxPages, collection.Value(), position, step, |asked|)
             == before + ScanAsks(server, contract, size, maxRecords, maxPages, s, first, step, |before|)
      decreases maxPages - |asked|
    {
      ghost var now, done, at := collection.Value(), asked, position;
      var turn := TurnPage(server(|asked|, position), size, position, collection);
      asked := asked + [position];
      if turn.Err? || turn.value.1 {
        ScanStops(server, contract, size, maxRecords, maxPages, now, position, step, |done|);
      }
      if turn.Err? {
        return Err(turn.error), asked;
      }
      if turn.value.1 {
        result := collection.Finish();
        return;
      }
      ScanGoesOn(server, contract, size, maxRecords, maxPages, now, position, step, |done|);
      position := Next(contract, size, step, position, turn.value.0);
      ghost var rest := ScanAsks(server, contract, size, maxRecords, maxPages, collection.Value(), position, step, |asked|);
      assert done + ([at] + rest) == asked + rest;
    }
    ScanStops(server, contract, size, maxRecords, maxPages, collection.Value(), position, step, |asked|);
    result := Err(Incomplete);
  }
}
