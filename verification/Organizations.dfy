/**
 Keeping one organization's records (src/parishkit/parishsoft.py, `_own_organization` and the paginated
 reads around it): a key that reaches several organizations is answered with records of all of them.
 */
module Organizations {
  import opened Results
  import opened Lists

  /**
   One record. `org` is the organization field its endpoint is judged by, `None` when it is missing or
   not a positive 32-bit integer; `member` and `family` are `memberDUID` and `familyDUID`.
   */
  datatype Row = Row(org: Option<int>, member: Option<int>, family: Option<int>, payload: int)

  datatype Endpoint =
    | Members                     // members/search
    | Contacts                    // members/contact/list
    | Scoped(collection: string)  // the other endpoints of ORGANIZATION_FIELDS
    | Unscoped(name: string)      // everything else

  datatype Refusal = MembersFirst | Unproved

  type Ids = set<Option<int>>

  /** What the client remembers of its organization and of the records it dropped. */
  datatype State = State(organization: Option<int>, reached: nat, skipped: map<string, nat>,
                         kept: Option<Ids>, families: Ids)

  datatype Outcome = Outcome(state: State, result: Result<seq<Row>, Refusal>)

  const NEW := State(None, 0, map[], None, {})

  // ----- one filtered read -----

  function CollectionOf(e: Endpoint): string {
    match e
    case Members => "members"
    case Contacts => "member_contactinfos"
    case Scoped(collection) => collection
    case Unscoped(name) => name
  }

  predicate Restricts(s: State, e: Endpoint) {
    s.reached >= 2 && !e.Unscoped?
  }

  /** Which records are kept. */
  function Mine(s: State, e: Endpoint): Row -> bool {
    if e.Contacts? then (row: Row) => s.kept.Some? && row.member in s.kept.value
    else (row: Row) => row.org == s.organization
  }

  function Others(s: State, e: Endpoint): Row -> bool {
    (row: Row) => !Mine(s, e)(row)
  }

  /** Whether a record can be proved to belong to the organization, or to another one. */
  predicate Provable(s: State, e: Endpoint, row: Row) {
    if e.Contacts? then Mine(s, e)(row) ==> row.org.Some? && row.org == s.organization
    else row.org.Some?
  }

  /** How many records come before the first that cannot be proved. */
  function Proved(s: State, e: Endpoint, rows: seq<Row>): (n: nat)
    ensures n <= |rows| && (n < |rows| ==> !Provable(s, e, rows[n]))
    ensures forall i :: 0 <= i < n ==> Provable(s, e, rows[i])
  {
    if rows == [] || !Provable(s, e, rows[0]) then 0 else 1 + Proved(s, e, rows[1..])
  }

  function IdsOf(rows: seq<Row>): Ids {
    set row | row in rows :: row.member
  }

  function FamiliesOf(rows: seq<Row>): Ids {
    set row | row in rows :: row.family
  }

  function Count(counts: map<string, nat>, collection: string): nat {
    if collection in counts then counts[collection] else 0
  }

  function Counted(counts: map<string, nat>, collection: string, n: nat): map<string, nat> {
    if n == 0 then counts else counts[collection := Count(counts, collection) + n]
  }

  /** The counters after these rows went through the loop. */
  function After(s: State, e: Endpoint, rows: seq<Row>): State {
    var others := Filter(rows, Others(s, e));
    s.(skipped := Counted(s.skipped, CollectionOf(e), |others|),
       families := if e.Members? then s.families + FamiliesOf(others) else s.families)
  }

  /** `_own_organization` */
  function Own(s: State, e: Endpoint, rows: seq<Row>): Outcome {
    if !Restricts(s, e) then Outcome(s, Ok(rows))
    else if e.Contacts? && s.kept.None? then Outcome(s, Err(MembersFirst))
    else
      var n := Proved(s, e, rows);
      if n < |rows| then Outcome(After(s, e, rows[..n]), Err(Unproved))
      else
        var kept := Filter(rows, Mine(s, e));
        var t := After(s, e, rows);
        Outcome(if e.Members? then t.(kept := Some(IdsOf(kept))) else t, Ok(kept))
  }

  lemma ProvedAt(s: State, e: Endpoint, rows: seq<Row>, n: nat)
    requires n <= |rows| && (n < |rows| ==> !Provable(s, e, rows[n]))
    requires forall i :: 0 <= i < n ==> Provable(s, e, rows[i])
    ensures Proved(s, e, rows) == n
  {
  }

  lemma FamiliesNext(rows: seq<Row>, row: Row)
    ensures FamiliesOf(rows + [row]) == FamiliesOf(rows) + {row.family}
  {
  }

  lemma AfterNext(s: State, e: Endpoint, rows: seq<Row>, i: nat)
    requires i < |rows|
    ensures var before, after, row := After(s, e, rows[..i]), After(s, e, rows[..i + 1]), rows[i];
            if Mine(s, e)(row) then after == before
            else after == before.(skipped := Counted(before.skipped, CollectionOf(e), 1),
                                  families := if e.Members? then before.families + {row.family} else before.families)
  {
    hide Filter, FamiliesOf, Mine;
    var others := Filter(rows[..i], Others(s, e));
    FilterNext(rows, i, Others(s, e));
    if Mine(s, e)(rows[i]) {
      assert others + [] == others;
    } else {
      FamiliesNext(others, rows[i]);
    }
  }

  lemma AfterNothing(s: State, e: Endpoint)
    ensures After(s, e, []) == s && Filter([], Mine(s, e)) == []
  {
  }

  /** The counters are all that changes. */
  lemma AfterSelects(s: State, e: Endpoint, rows: seq<Row>)
    ensures var t := After(s, e, rows); t.organization == s.organization && t.reached == s.reached && t.kept == s.kept
  {
  }

  /** The client, in the source's form: counters updated row by row. */
  class Client {
    var organization: Option<int>
    var reached: nat
    var skipped: map<string, nat>
    var kept: Option<Ids>
    var families: Ids

    function Value(): State
      reads this
    {
      State(organization, reached, skipped, kept, families)
    }

    constructor ()
      ensures Value() == NEW
    {
      organization, reached, skipped, kept, families := None, 0, map[], None, {};
    }

    /** The end of `validate_organization`: everything remembered of an earlier load is forgotten. */
    method Select(id: int, count: nat)
      modifies this
      ensures Value() == NEW.(organization := Some(id), reached := count)
    {
      organization, reached, skipped, kept, families := Some(id), count, map[], None, {};
    }

    method OwnOrganization(e: Endpoint, rows: seq<Row>) returns (result: Result<seq<Row>, Refusal>)
      modifies this
      ensures Outcome(Value(), result) == Own(old(Value()), e, rows)
    {
      ghost var s := Value();
      if reached < 2 || e.Unscoped? {
        return Ok(rows);
      }
      if e.Contacts? && kept.None? {
        return Err(MembersFirst);
      }
      var mine := [];
      AfterNothing(s, e);
      hide Filter, After, IdsOf;
      for i := 0 to |rows|
        invariant Value() == After(s, e, rows[..i]) && mine == Filter(rows[..i], Mine(s, e))
        invariant forall k :: 0 <= k < i ==> Provable(s, e, rows[k])
      {
        var row := rows[i];
        AfterNext(s, e, rows, i);
        AfterSelects(s, e, rows[..i]);
        FilterNext(rows, i, Mine(s, e));
        var own := if e.Contacts? then row.member in kept.value else row.org == organization;
        if (if e.Contacts? then own && (row.org.None? || row.org != organization) else row.org.None?) {
          ProvedAt(s, e, rows, i);
          return Err(Unproved);
        }
        if own {
          mine := mine + [row];
        } else {
          skipped := Counted(skipped, CollectionOf(e), 1);
          if e.Members? {
            families := families + {row.family};
          }
        }
      }
      assert rows[..|rows|] == rows;
      ProvedAt(s, e, rows, |rows|);
      if e.Members? {
        kept := Some(IdsOf(mine));
      }
      return Ok(mine);
    }
  }

  // ----- conservation and stability -----

  lemma {:induction false} FilterSplits(rows: seq<Row>, f: Row -> bool, g: Row -> bool)
    requires forall row :: g(row) <==> !f(row)
    ensures |Filter(rows, f)| + |Filter(rows, g)| == |rows|
  {
    if rows != [] {
      FilterSplits(rows[1..], f, g);
    }
  }

  lemma FilterAll(rows: seq<Row>, f: Row -> bool)
    ensures Filter(rows, f) == rows <==> forall row :: row in rows ==> f(row)
  {
    forall row | row in Filter(rows, f) ensures f(row) {
      FilterMembers(rows, f, row);
    }
    if forall row :: row in rows ==> f(row) {
      FilterEverything(rows, f);
    }
  }

  /**
   A read of a filtered collection succeeds if and only if every record's organization can be proved
   (and Members were read before their contacts); the records kept and those counted as skipped are
   together the records fetched, and no other collection's count moves.
   */
  lemma KeptAndSkipped(s: State, e: Endpoint, rows: seq<Row>, other: string)
    requires Restricts(s, e)
    ensures var o := Own(s, e, rows);
            var name := if e.Members? then "members" else if e.Contacts? then "member_contactinfos" else e.collection;
            && (o.result.Ok? <==>
                  && (e.Contacts? ==> s.kept.Some?)
                  && forall row :: row in rows ==>
                       if e.Contacts? then row.member in s.kept.value ==> row.org.Some? && row.org == s.organization else row.org.Some?)
            && (o.result.Err? ==> o.result.error == if e.Contacts? && s.kept.None? then MembersFirst else Unproved)
            && (o.result.Ok? ==> |o.result.value| + Count(o.state.skipped, name) == |rows| + Count(s.skipped, name))
            && (other != name ==> Count(o.state.skipped, other) == Count(s.skipped, other))
  {
    FilterSplits(rows, Mine(s, e), Others(s, e));
    var n := Proved(s, e, rows);
    if n < |rows| {
      assert rows[n] in rows;
    }
  }

  /**
   What a read returns and remembers. A key that reaches one organization, or a collection without an
   organization field, is passed on as it is; otherwise a contact is kept exactly when its Member is, and
   any other record exactly when it is of the loaded organization; and a Members read remembers the
   Members kept, and the families that the others named.
   */
  lemma KeptAre(s: State, e: Endpoint, rows: seq<Row>, row: Row)
    requires Own(s, e, rows).result.Ok?
    ensures var (t, kept) := (Own(s, e, rows).state, Own(s, e, rows).result.value);
            if s.reached < 2 || e.Unscoped? then kept == rows && t == s
            else
              && (e.Contacts? ==> s.kept.Some? && (row in kept <==> row in rows && row.member in s.kept.value))
              && (!e.Contacts? ==> (row in kept <==> row in rows && row.org == s.organization))
              && (forall r :: multiset(kept)[r] <= multiset(rows)[r])
              && (e.Members? ==> t.kept.Some? && t.families == s.families + set r | r in rows && r !in kept :: r.family)
              && (e.Members? ==> forall m :: m in t.kept.value <==> exists r :: r in kept && r.member == m)
              && (!e.Members? ==> t.kept == s.kept && t.families == s.families)
              && t.organization == s.organization && t.reached == s.reached
  {
    FilterMembers(rows, Mine(s, e), row);
    forall r ensures multiset(Filter(rows, Mine(s, e)))[r] <= multiset(rows)[r] {
      FilterCount(rows, Mine(s, e), r);
    }
    if Restricts(s, e) {
      OthersAre(s, e, rows);
    }
  }

  lemma OthersAre(s: State, e: Endpoint, rows: seq<Row>)
    ensures FamiliesOf(Filter(rows, Others(s, e))) == set r | r in rows && r !in Filter(rows, Mine(s, e)) :: r.family
  {
    forall r ensures r in Filter(rows, Others(s, e)) <==> r in rows && r !in Filter(rows, Mine(s, e)) {
      FilterMembers(rows, Others(s, e), r);
      FilterMembers(rows, Mine(s, e), r);
    }
  }

  /**
   Filtering an already filtered result again, as every cache hit does: it comes back unchanged if and
   only if it is not a contact list, or all its contacts are of Members kept in this load; and then
   nothing more is counted as skipped.
   */
  lemma RefilterIsIdentity(s: State, e: Endpoint, rows: seq<Row>, u: State)
    requires Restricts(s, e) && Restricts(u, e) && u.organization == s.organization && Own(s, e, rows).result.Ok?
    ensures var once := Own(s, e, rows).result.value;
            var again := Own(u, e, once);
            && (again.result == Ok(once) <==> (e.Contacts? ==> u.kept.Some? && IdsOf(once) <= u.kept.value))
            && (again.result == Ok(once) ==>
                again.state.skipped == u.skipped && again.state.families == u.families
                && again.state.kept == if e.Members? then Some(IdsOf(once)) else u.kept)
  {
    hide Own, IdsOf;
    OwnIsOwned(s, e, rows);
    RefilterOwned(u, e, Own(s, e, rows).result.value);
  }

  lemma RefilterOwned(u: State, e: Endpoint, once: seq<Row>)
    requires Restricts(u, e) && Owned(u.organization, once)
    ensures var again := Own(u, e, once);
            && (again.result == Ok(once) <==> (e.Contacts? ==> u.kept.Some? && IdsOf(once) <= u.kept.value))
            && (again.result == Ok(once) ==>
                again.state.skipped == u.skipped && again.state.families == u.families
                && again.state.kept == if e.Members? then Some(IdsOf(once)) else u.kept)
  {
    hide Filter;
    assert forall row :: row in once ==> Provable(u, e, row);
    ProvedAt(u, e, once, |once|);
    FilterAll(once, Mine(u, e));
    if forall row :: row in once ==> Mine(u, e)(row) {
      FilterNone(once, Others(u, e));
    }
    MineAll(u, e, once);
  }

  lemma MineAll(u: State, e: Endpoint, rows: seq<Row>)
    requires Owned(u.organization, rows)
    ensures (forall row :: row in rows ==> Mine(u, e)(row)) <==>
            (e.Contacts? && rows != [] ==> u.kept.Some? && IdsOf(rows) <= u.kept.value)
  {
    if e.Contacts? && u.kept.Some? && IdsOf(rows) <= u.kept.value {
      assert forall row :: row in rows ==> row.member in IdsOf(rows);
    }
    if e.Contacts? && rows != [] {
      assert rows[0] in rows;
    }
  }

  /** A contact list filtered for Members 1 and 2 loses a contact again once only Member 1 is kept. */
  lemma CachedContactsCanShrink()
    ensures var s := State(Some(5), 2, map[], Some({Some(1), Some(2)}), {});
            var rows := [Row(Some(5), Some(1), None, 0), Row(Some(5), Some(2), None, 0)];
            && Own(s, Contacts, rows).result == Ok(rows)
            && Own(s.(kept := Some({Some(1)})), Contacts, rows).result == Ok(rows[..1])
  {
    var s := State(Some(5), 2, map[], Some({Some(1), Some(2)}), {});
    var rows := [Row(Some(5), Some(1), None, 0), Row(Some(5), Some(2), None, 0)];
    var u := s.(kept := Some({Some(1)}));
    FilterAll(rows, Mine(s, Contacts));
    FilterPicksLeft(rows[..1], rows[1..], Mine(u, Contacts));
    assert rows[..1] + rows[1..] == rows;
  }

  // ----- whole loads over a shared cache -----

  /** A read that returned: under which organization, and what Members had been returned before it. */
  datatype Returned = Returned(organization: Option<int>, several: bool, endpoint: Endpoint, rows: seq<Row>,
                               members: Option<seq<Row>>)

  /** A cache file's name: the API key's fingerprint, the validated organization and the endpoint. */
  datatype File = File(key: int, organization: Option<int>, endpoint: Endpoint)

  /** A cached answer, and whether the key reached several organizations when it was written. */
  datatype Copy = Copy(rows: seq<Row>, several: bool)

  /** `key` and `client` are the current load's, and `members` its last Members read. */
  datatype World = World(key: int, client: State, cache: map<File, Copy>, members: Option<seq<Row>>, log: seq<Returned>)

  /** `answer` is what the server would return; `recent` whether a cached copy, if any, is recent enough. */
  datatype Action =
    | Select(key: int, id: int, reached: nat)
    | Read(endpoint: Endpoint, recent: bool, answer: seq<Row>)

  function Next(w: World, a: Action): World {
    match a
    case Select(key, id, reached) =>
      World(key, NEW.(organization := Some(id), reached := reached), w.cache, None, w.log)
    case Read(e, recent, answer) =>
      var file := File(w.key, w.client.organization, e);
      var hit := recent && file in w.cache;
      var several := w.client.reached >= 2;
      var o := Own(w.client, e, if hit then w.cache[file].rows else answer);
      if o.result.Err? then w.(client := o.state)
      else
        var rows := o.result.value;
        World(w.key, o.state, if hit then w.cache else w.cache[file := Copy(rows, several)],
              if e.Members? then Some(rows) else w.members,
              w.log + [Returned(w.client.organization, several, e, rows, w.members)])
  }

  function Run(w: World, actions: seq<Action>): World
    decreases |actions|
  {
    if actions == [] then w else Run(Next(w, actions[0]), actions[1..])
  }

  /** Every record is of this organization. */
  ghost predicate Owned(organization: Option<int>, rows: seq<Row>) {
    forall row :: row in rows ==> row.org.Some? && row.org == organization
  }

  ghost predicate ReturnOk(r: Returned) {
    r.several && !r.endpoint.Unscoped? ==>
      && Owned(r.organization, r.rows)
      && (r.endpoint.Contacts? ==> r.members.Some? && IdsOf(r.rows) <= IdsOf(r.members.value))
  }

  ghost predicate Inv(w: World) {
    && (w.client.kept.Some? ==> w.members.Some? && w.client.kept.value == IdsOf(w.members.value))
    && (w.client.reached < 2 ==> w.client.kept.None?)
    && (forall i :: 0 <= i < |w.log| ==> ReturnOk(w.log[i]))
    && CacheOwned(w)
  }

  /** What a key that reached several organizations wrote for a filtered collection is all of its own. */
  ghost predicate CacheOwned(w: World) {
    forall file :: file in w.cache && w.cache[file].several && !file.endpoint.Unscoped? ==>
      Owned(file.organization, w.cache[file].rows)
  }

  /** Every organization is selected with a key that reaches several. */
  predicate AllReachSeveral(actions: seq<Action>) {
    forall i :: 0 <= i < |actions| && actions[i].Select? ==> actions[i].reached >= 2
  }

  /** Every copy kept for a selected organization was written by a key that reached several. */
  ghost predicate AllWrittenSeveral(w: World) {
    && (w.client.organization.Some? ==> w.client.reached >= 2)
    && (forall file :: file in w.cache && file.organization.Some? ==> w.cache[file].several)
  }

  lemma OwnIsOwned(s: State, e: Endpoint, rows: seq<Row>)
    requires Restricts(s, e) && Own(s, e, rows).result.Ok?
    ensures Owned(s.organization, Own(s, e, rows).result.value)
    ensures e.Contacts? ==> s.kept.Some? && IdsOf(Own(s, e, rows).result.value) <= s.kept.value
  {
    forall row | row in Own(s, e, rows).result.value ensures row in rows && Mine(s, e)(row) && Provable(s, e, row) {
      FilterMembers(rows, Mine(s, e), row);
      var i :| 0 <= i < |rows| && rows[i] == row;
      assert Provable(s, e, rows[i]);
    }
  }

  lemma NextKeepsInv(w: World, a: Action)
    requires Inv(w)
    ensures Inv(Next(w, a)) && (AllWrittenSeveral(w) && AllReachSeveral([a]) ==> AllWrittenSeveral(Next(w, a)))
  {
    hide Filter, Mine;
    if a.Read? {
      var file := File(w.key, w.client.organization, a.endpoint);
      var rows := if a.recent && file in w.cache then w.cache[file].rows else a.answer;
      if Restricts(w.client, a.endpoint) && Own(w.client, a.endpoint, rows).result.Ok? {
        OwnIsOwned(w.client, a.endpoint, rows);
      }
    } else {
      assert AllReachSeveral([a]) ==> [a][0].reached >= 2;
    }
  }

  lemma {:induction false} RunKeepsInv(w: World, actions: seq<Action>)
    requires Inv(w)
    ensures Inv(Run(w, actions)) && (AllWrittenSeveral(w) && AllReachSeveral(actions) ==> AllWrittenSeveral(Run(w, actions)))
    decreases |actions|
  {
    if actions != [] {
      NextKeepsInv(w, actions[0]);
      assert AllReachSeveral(actions) ==> AllReachSeveral([actions[0]]) && AllReachSeveral(actions[1..]);
      RunKeepsInv(Next(w, actions[0]), actions[1..]);
    }
  }

  /**
   Over any number of loads and keys sharing the cache, whatever the server answers and whichever cached
   copies are recent: a read with a key that reaches several organizations returns only records of the
   loaded one, even from a copy cached when the key reached one; contacts are only of Members already
   returned in the same load; every cached copy of a filtered collection written under several
   organizations holds only records of the organization it is kept for; and if every organization was
   selected under several, so was every copy kept for one.
   */
  lemma OnlyOwnRecords(key: int, actions: seq<Action>)
    ensures var t := Run(World(key, NEW, map[], None, []), actions);
            && (forall i :: 0 <= i < |t.log| ==> ReturnOk(t.log[i]))
            && CacheOwned(t) && (AllReachSeveral(actions) ==> AllWrittenSeveral(t))
  {
    RunKeepsInv(World(key, NEW, map[], None, []), actions);
  }

  /** A refused read has counted the others among the records before the first that cannot be proved. */
  lemma RefusalCounts(s: State, e: Endpoint, rows: seq<Row>, n: nat)
    requires Restricts(s, e) && (e.Contacts? ==> s.kept.Some?) && n < |rows| && !Provable(s, e, rows[n])
    requires forall i :: 0 <= i < n ==> Provable(s, e, rows[i])
    ensures var o := Own(s, e, rows);
            && o.result == Err(Unproved) && o.state.kept == s.kept
            && Count(o.state.skipped, CollectionOf(e)) == Count(s.skipped, CollectionOf(e)) + (n - |Filter(rows[..n], Mine(s, e))|)
  {
    ProvedAt(s, e, rows, n);
    FilterSplits(rows[..n], Mine(s, e), Others(s, e));
  }

  /** What a read returns is cached, and then answers the next read whatever the server would say. */
  lemma ReadIsCached(w: World, e: Endpoint, recent: bool, answer: seq<Row>, later: seq<Row>)
    requires |Next(w, Read(e, recent, answer)).log| > |w.log|
    ensures var t := Next(w, Read(e, recent, answer));
            var file := File(w.key, w.client.organization, e);
            && file in t.cache
            && (!recent || file !in w.cache ==> t.cache[file].rows == t.log[|w.log|].rows)
            && (recent && file in w.cache ==> t.cache == w.cache)
            && Next(t, Read(e, true, later)) == Next(t, Read(e, true, []))
            && (forall other :: other != file ==> (other in t.cache <==> other in w.cache))
  {
  }
}
