/**
 Applying a Google Group plan: the group ends with exactly one member per desired address, in the
 desired role, matched members survive, and a second diff finds nothing to do.
 */
module GoogleGroupSync {
  import opened Results
  import opened GoogleGroups

  // ----- merged desired members -----

  /** No two desired members compare as the same address. */
  ghost predicate DistinctAddresses(desired: seq<Desired>, norm: Norm) {
    forall i, j :: 0 <= i < j < |desired| ==> norm(desired[i].email) != norm(desired[j].email)
  }

  function KeyOf(x: Source, norm: Norm): string {
    norm(Lists.LowerAll(x.email))
  }

  /** Some source at this comparable address leads. */
  ghost predicate Leads(sources: seq<Source>, key: string, norm: Norm) {
    exists i :: 0 <= i < |sources| && KeyOf(sources[i], norm) == key && sources[i].leader
  }

  ghost predicate FromSource(sources: seq<Source>, email: string) {
    exists i :: 0 <= i < |sources| && Lists.LowerAll(sources[i].email) == email
  }

  /** The non-empty names given at this comparable address, in order. */
  function NamesAt(sources: seq<Source>, key: string, norm: Norm): seq<string> {
    if sources == [] then [] else
    var x := sources[|sources| - 1];
    NamesAt(sources[..|sources| - 1], key, norm) + if KeyOf(x, norm) == key then NamesOf(x) else []
  }

  /** They are exactly the names, other than blank ones, of the sources at the address. */
  lemma {:induction false} NamesAtHas(sources: seq<Source>, key: string, norm: Norm, name: string)
    ensures name in NamesAt(sources, key, norm) <==>
            name != "" && exists i :: 0 <= i < |sources| && norm(Lists.LowerAll(sources[i].email)) == key && sources[i].name == name
  {
    if sources != [] {
      var n := |sources| - 1;
      NamesAtHas(sources[..n], key, norm, name);
      assert forall i :: 0 <= i < n ==> sources[..n][i] == sources[i];
    }
  }

  /** A desired member's address, leadership and names are those of the sources at its comparable address. */
  ghost predicate Faithful(d: Desired, sources: seq<Source>, norm: Norm) {
    var key := norm(d.email);
    FromSource(sources, d.email) && (d.leader <==> Leads(sources, key, norm)) && d.names == NamesAt(sources, key, norm)
  }

  ghost predicate Represents(desired: seq<Desired>, sources: seq<Source>, norm: Norm) {
    && DistinctAddresses(desired, norm)
    && (forall i :: 0 <= i < |desired| ==> Faithful(desired[i], sources, norm))
    && (forall k :: 0 <= k < |sources| ==> Slot(desired, KeyOf(sources[k], norm), norm) < |desired|)
  }

  lemma OneMore(sources: seq<Source>, x: Source, key: string, norm: Norm)
    ensures Leads(sources + [x], key, norm) <==> Leads(sources, key, norm) || (KeyOf(x, norm) == key && x.leader)
    ensures NamesAt(sources + [x], key, norm)
         == NamesAt(sources, key, norm) + if KeyOf(x, norm) == key then NamesOf(x) else []
  {
    var more := sources + [x];
    assert more[|sources|] == x && more[..|sources|] == sources;
    if Leads(sources, key, norm) {
      var i :| 0 <= i < |sources| && KeyOf(sources[i], norm) == key && sources[i].leader;
      assert more[i] == sources[i];
    }
  }

  lemma OneMoreEmail(sources: seq<Source>, x: Source, email: string)
    ensures FromSource(sources + [x], email) <==> FromSource(sources, email) || Lists.LowerAll(x.email) == email
  {
    var more := sources + [x];
    assert more[|sources|] == x;
    if FromSource(sources, email) {
      var i :| 0 <= i < |sources| && Lists.LowerAll(sources[i].email) == email;
      assert more[i] == sources[i];
    }
  }

  lemma {:induction false} NamesOfNobody(sources: seq<Source>, key: string, norm: Norm)
    requires forall k :: 0 <= k < |sources| ==> KeyOf(sources[k], norm) != key
    ensures NamesAt(sources, key, norm) == [] && !Leads(sources, key, norm)
  {
    if sources != [] {
      NamesOfNobody(sources[..|sources| - 1], key, norm);
    }
  }

  lemma SlotIfPresent(desired: seq<Desired>, key: string, norm: Norm, i: nat)
    requires i < |desired| && norm(desired[i].email) == key
    ensures Slot(desired, key, norm) < |desired|
  {
    SlotIs(desired, key, norm);
  }

  lemma MergeIsFaithful(desired: seq<Desired>, sources: seq<Source>, x: Source, norm: Norm, i: nat)
    requires Represents(desired, sources, norm) && i < |Merge(desired, x, norm)|
    ensures Faithful(Merge(desired, x, norm)[i], sources + [x], norm)
  {
    var d := Merge(desired, x, norm)[i];
    SlotIs(desired, KeyOf(x, norm), norm);
    OneMore(sources, x, norm(d.email), norm);
    OneMoreEmail(sources, x, d.email);
    if i == |desired| {
      forall k | 0 <= k < |sources| ensures KeyOf(sources[k], norm) != KeyOf(x, norm) {
        assert Slot(desired, KeyOf(sources[k], norm), norm) < |desired|;
      }
      NamesOfNobody(sources, KeyOf(x, norm), norm);
    } else {
      assert Faithful(desired[i], sources, norm);
    }
  }

  lemma MergeKeepsSlot(desired: seq<Desired>, x: Source, norm: Norm, key: string)
    requires Slot(desired, key, norm) < |desired| || key == KeyOf(x, norm)
    ensures Slot(Merge(desired, x, norm), key, norm) < |Merge(desired, x, norm)|
  {
    var n := Slot(desired, KeyOf(x, norm), norm);
    SlotIs(desired, KeyOf(x, norm), norm);
    SlotIs(desired, key, norm);
    SlotIfPresent(Merge(desired, x, norm), key, norm, if key == KeyOf(x, norm) then n else Slot(desired, key, norm));
  }

  lemma MergeKeepsDistinct(desired: seq<Desired>, x: Source, norm: Norm)
    requires DistinctAddresses(desired, norm)
    ensures DistinctAddresses(Merge(desired, x, norm), norm)
  {
    var merged := Merge(desired, x, norm);
    SlotIs(desired, KeyOf(x, norm), norm);
    assert forall i :: 0 <= i < |desired| ==> merged[i].email == desired[i].email;
  }

  lemma MergeRepresents(desired: seq<Desired>, sources: seq<Source>, x: Source, norm: Norm)
    requires Represents(desired, sources, norm)
    ensures Represents(Merge(desired, x, norm), sources + [x], norm)
  {
    var merged, more := Merge(desired, x, norm), sources + [x];
    MergeKeepsDistinct(desired, x, norm);
    forall i | 0 <= i < |merged| ensures Faithful(merged[i], more, norm) {
      MergeIsFaithful(desired, sources, x, norm, i);
    }
    forall k | 0 <= k < |more| ensures Slot(merged, KeyOf(more[k], norm), norm) < |merged| {
      assert k < |sources| ==> Slot(desired, KeyOf(sources[k], norm), norm) < |desired|;
      MergeKeepsSlot(desired, x, norm, KeyOf(more[k], norm));
    }
  }

  /**
   The merged members have pairwise different comparable addresses, one for every address among the
   sources; each leads if and only if some source at its address does, and carries their names.
   */
  lemma {:induction false} MergeAllRepresents(sources: seq<Source>, norm: Norm)
    ensures Represents(MergeAll(sources, norm), sources, norm)
  {
    if sources != [] {
      var n := |sources| - 1;
      var before := sources[..n];
      MergeAllRepresents(before, norm);
      MergeRepresents(MergeAll(before, norm), before, sources[n], norm);
      assert sources == before + [sources[n]];
      assert MergeAll(sources, norm) == Merge(MergeAll(before, norm), sources[n], norm);
    }
  }

  // ----- the group -----

  datatype Member = Member(email: string, role: string)

  /** A group as Google keeps it: members under unique ids. */
  type Group = map<string, Member>

  datatype Rejection = Duplicate | NotFound

  /** One API write. Google refuses an address it takes for an existing member, and an unknown id. */
  function Write(g: Group, a: Action, newId: string -> string, norm: Norm): Result<Group, Rejection> {
    match a
    case Add(email, role) =>
      if exists id :: id in g && norm(g[id].email) == norm(email) then Err(Duplicate)
      else Ok(g[newId(email) := Member(email, role)])
    case ChangeRole(id, role) =>
      if id !in g then Err(NotFound) else Ok(g[id := g[id].(role := role)])
    case Delete(id) =>
      if id !in g then Err(NotFound) else Ok(g - {id})
  }

  function WriteAll(g: Group, actions: seq<Action>, newId: string -> string, norm: Norm): Result<Group, Rejection>
    decreases |actions|
  {
    if actions == [] then Ok(g) else
    var before :- WriteAll(g, actions[..|actions| - 1], newId, norm);
    Write(before, actions[|actions| - 1], newId, norm)
  }

  function IsDelete(wanted: bool): Action -> bool {
    (a: Action) => a.Delete? == wanted
  }

  /** `sorted(actions, key=lambda action: action.action != "delete")`: deletes first, otherwise in order. */
  function Ordered(actions: seq<Action>): seq<Action> {
    Lists.Filter(actions, IsDelete(true)) + Lists.Filter(actions, IsDelete(false))
  }

  /** The group, changed by applying a plan to it. */
  function Apply(g: Group, desired: seq<Desired>, current: seq<Entry>, newId: string -> string, norm: Norm)
    : Result<Group, Rejection>
  {
    WriteAll(g, Ordered(Plan(desired, current, norm)), newId, norm)
  }

  /** The group is as the writes before the first refused one left it. */
  ghost predicate StoppedAt(g: Group, t: Group, actions: seq<Action>, newId: string -> string, norm: Norm, e: Rejection) {
    exists i :: 0 <= i < |actions| && WriteAll(g, actions[..i], newId, norm) == Ok(t) && Write(t, actions[i], newId, norm) == Err(e)
  }

  /** The group behind the Directory API; `apply_actions` stops at the first refused write. */
  class GroupService {
    var members: Group

    method WriteEach(actions: seq<Action>, newId: string -> string, norm: Norm) returns (refused: Option<Rejection>)
      modifies this
      ensures match WriteAll(old(members), actions, newId, norm)
              case Ok(g) => refused.None? && members == g
              case Err(e) => refused == Some(e) && StoppedAt(old(members), members, actions, newId, norm, e)
    {
      for i := 0 to |actions|
        invariant WriteAll(old(members), actions[..i], newId, norm) == Ok(members)
      {
        var w := Write(members, actions[i], newId, norm);
        WriteNext(old(members), actions, i, newId, norm);
        if w.Err? {
          WriteStops(old(members), actions, i + 1, newId, norm);
          return Some(w.error);
        }
        members := w.value;
      }
      assert actions[..|actions|] == actions;
      refused := None;
    }

    method ApplyActions(actions: seq<Action>, newId: string -> string, norm: Norm) returns (refused: Option<Rejection>)
      modifies this
      ensures match WriteAll(old(members), Ordered(actions), newId, norm)
              case Ok(g) => refused.None? && members == g
              case Err(e) => refused == Some(e) && StoppedAt(old(members), members, Ordered(actions), newId, norm, e)
    {
      refused := WriteEach(Ordered(actions), newId, norm);
    }
  }

  lemma WriteNext(g: Group, actions: seq<Action>, i: nat, newId: string -> string, norm: Norm)
    requires i < |actions| && WriteAll(g, actions[..i], newId, norm).Ok?
    ensures WriteAll(g, actions[..i + 1], newId, norm) == Write(WriteAll(g, actions[..i], newId, norm).value, actions[i], newId, norm)
  {
    assert actions[..i + 1][..i] == actions[..i];
  }

  lemma {:induction false} WriteStops(g: Group, actions: seq<Action>, n: nat, newId: string -> string, norm: Norm)
    requires n <= |actions| && WriteAll(g, actions[..n], newId, norm).Err?
    ensures WriteAll(g, actions, newId, norm) == WriteAll(g, actions[..n], newId, norm)
  {
    var m := |actions| - 1;
    if n <= m {
      assert actions[..m][..n] == actions[..n];
      WriteStops(g, actions[..m], n, newId, norm);
    } else {
      assert actions[..n] == actions;
    }
  }

  lemma {:induction false} ChangesHaveNoDelete(desired: seq<Desired>, current: seq<Entry>, norm: Norm)
    ensures forall a :: a in Changes(desired, current, norm) ==> !a.Delete?
  {
    if desired != [] {
      ChangesHaveNoDelete(desired[..|desired| - 1], current, norm);
    }
  }

  lemma {:induction false} DeletesAreDeletes(n: nat, desired: seq<Desired>, current: seq<Entry>, norm: Norm)
    requires n <= |current|
    ensures forall a :: a in Deletes(n, desired, current, norm) ==> a.Delete?
  {
    if n > 0 {
      DeletesAreDeletes(n - 1, desired, current, norm);
    }
  }

  lemma OrderedPlan(desired: seq<Desired>, current: seq<Entry>, norm: Norm)
    ensures Ordered(Plan(desired, current, norm))
         == Deletes(|current|, desired, current, norm) + Changes(desired, current, norm)
  {
    var changes, deletes := Changes(desired, current, norm), Deletes(|current|, desired, current, norm);
    ChangesHaveNoDelete(desired, current, norm);
    DeletesAreDeletes(|current|, desired, current, norm);
    Lists.FilterPicks(changes, deletes, IsDelete(true));
    Lists.FilterPicksLeft(changes, deletes, IsDelete(false));
  }

  /** The list is the group, each member once. */
  ghost predicate Listing(current: seq<Entry>, g: Group) {
    && (forall i :: 0 <= i < |current| ==> current[i].id in g && g[current[i].id] == Member(current[i].email, current[i].role))
    && (forall i, j :: 0 <= i < j < |current| ==> current[i].id != current[j].id)
    && (forall id :: id in g ==> Listed(current, id))
  }

  ghost predicate Listed(current: seq<Entry>, id: string) {
    exists i :: 0 <= i < |current| && current[i].id == id
  }

  // ----- where each desired member ends up -----

  predicate Found(d: Desired, current: seq<Entry>, norm: Norm) {
    FirstMatch(d.email, current, norm) < |current|
  }

  function Home(d: Desired, current: seq<Entry>, newId: string -> string, norm: Norm): string {
    var n := FirstMatch(d.email, current, norm);
    if n < |current| then current[n].id else newId(d.email)
  }

  function HomeEmail(d: Desired, current: seq<Entry>, norm: Norm): string {
    var n := FirstMatch(d.email, current, norm);
    if n < |current| then current[n].email else d.email
  }

  /** The service gives new members ids that no current or other new member has. */
  ghost predicate FreshIds(desired: seq<Desired>, current: seq<Entry>, newId: string -> string, norm: Norm) {
    && (forall j :: 0 <= j < |desired| && !Found(desired[j], current, norm) ==> !Listed(current, newId(desired[j].email)))
    && (forall i, j :: 0 <= i < j < |desired| && !Found(desired[i], current, norm) && !Found(desired[j], current, norm) ==>
          newId(desired[i].email) != newId(desired[j].email))
  }

  /** A settled problem: a listed group, distinct desired addresses, fresh ids for new members. */
  ghost predicate Setting(g: Group, desired: seq<Desired>, current: seq<Entry>, newId: string -> string, norm: Norm) {
    Listing(current, g) && DistinctAddresses(desired, norm) && FreshIds(desired, current, newId, norm)
  }

  lemma HomesDiffer(g: Group, desired: seq<Desired>, current: seq<Entry>, newId: string -> string, norm: Norm, i: nat, j: nat)
    requires Setting(g, desired, current, newId, norm) && i < j < |desired|
    ensures Home(desired[i], current, newId, norm) != Home(desired[j], current, newId, norm)
  {
    FirstMatchIs(desired[i].email, current, norm);
    FirstMatchIs(desired[j].email, current, norm);
    var m, n := FirstMatch(desired[i].email, current, norm), FirstMatch(desired[j].email, current, norm);
    if m < |current| && n < |current| {
      assert m != n;
    }
  }

  /** The desired member is in the group, at its place, with the desired role. */
  ghost predicate Placed(g: Group, d: Desired, current: seq<Entry>, newId: string -> string, norm: Norm) {
    var home := Home(d, current, newId, norm);
    home in g && g[home] == Member(HomeEmail(d, current, norm), RoleOf(d))
  }

  /** The member matched to this desired member is still as it was listed. */
  ghost predicate Untouched(g: Group, d: Desired, current: seq<Entry>, norm: Norm) {
    var n := FirstMatch(d.email, current, norm);
    n < |current| ==> current[n].id in g && g[current[n].id] == Member(current[n].email, current[n].role)
  }

  /** After the first `n` desired members: theirs are right, later matched ones untouched, nobody else is there. */
  ghost predicate Progress(g: Group, n: nat, desired: seq<Desired>, current: seq<Entry>, newId: string -> string, norm: Norm) {
    && (forall j :: 0 <= j < |desired| && j < n ==> Placed(g, desired[j], current, newId, norm))
    && (forall j :: n <= j < |desired| ==> Untouched(g, desired[j], current, norm))
    && (forall id :: id in g ==> Housed(id, n, desired, current, newId, norm))
  }

  ghost predicate Housed(id: string, n: nat, desired: seq<Desired>, current: seq<Entry>, newId: string -> string, norm: Norm) {
    exists j :: 0 <= j < |desired| && Home(desired[j], current, newId, norm) == id && (j < n || Found(desired[j], current, norm))
  }

  /** Exactly the unmatched among the first `n` listed members are gone. */
  ghost predicate Deleted(g: Group, r: Group, n: nat, desired: seq<Desired>, current: seq<Entry>, norm: Norm) {
    && (forall i :: 0 <= i < |current| ==>
          if i < n && !Matched(i, desired, current, norm) then current[i].id !in r
          else current[i].id in r && r[current[i].id] == Member(current[i].email, current[i].role))
    && (forall id :: id in r ==> id in g)
  }

  lemma WriteOne(g: Group, a: Action, newId: string -> string, norm: Norm)
    ensures WriteAll(g, [], newId, norm) == Ok(g)
    ensures WriteAll(g, [a], newId, norm) == Write(g, a, newId, norm)
  {
    assert [a][..0] == [];
  }

  lemma {:induction false} WriteMore(g: Group, a: seq<Action>, b: seq<Action>, newId: string -> string, norm: Norm)
    requires WriteAll(g, a, newId, norm).Ok?
    ensures WriteAll(g, a + b, newId, norm) == WriteAll(WriteAll(g, a, newId, norm).value, b, newId, norm)
    decreases |b|
  {
    if b == [] {
      assert a + b == a;
    } else {
      var n := |b| - 1;
      assert (a + b)[..|a + b| - 1] == a + b[..n];
      WriteMore(g, a, b[..n], newId, norm);
    }
  }

  lemma DeleteNext(g: Group, r: Group, n: nat, desired: seq<Desired>, current: seq<Entry>, norm: Norm)
    requires Listing(current, g) && n < |current| && Deleted(g, r, n, desired, current, norm)
    ensures current[n].id in r
    ensures var next := if Matched(n, desired, current, norm) then r else r - {current[n].id};
            Deleted(g, next, n + 1, desired, current, norm)
  {
  }

  /** One more delete, if the next listed member is unmatched. */
  lemma DeleteWrites(g: Group, r: Group, n: nat, desired: seq<Desired>, current: seq<Entry>, newId: string -> string, norm: Norm)
    requires Listing(current, g) && n < |current| && Deleted(g, r, n, desired, current, norm)
    ensures var last := if Matched(n, desired, current, norm) then [] else [Delete(current[n].id)];
            var w := WriteAll(r, last, newId, norm);
            w.Ok? && Deleted(g, w.value, n + 1, desired, current, norm)
  {
    DeleteNext(g, r, n, desired, current, norm);
    WriteOne(r, Delete(current[n].id), newId, norm);
  }

  lemma {:induction false} DeletesApply(g: Group, n: nat, desired: seq<Desired>, current: seq<Entry>,
                                        newId: string -> string, norm: Norm)
    requires Listing(current, g) && n <= |current|
    ensures var r := WriteAll(g, Deletes(n, desired, current, norm), newId, norm);
            r.Ok? && Deleted(g, r.value, n, desired, current, norm)
  {
    hide Listing, Deleted, Matched, WriteAll, Deletes;
    if n == 0 {
      NothingDeleted(g, desired, current, newId, norm);
    } else {
      DeletesApply(g, n - 1, desired, current, newId, norm);
      var before := Deletes(n - 1, desired, current, norm);
      DeleteWrites(g, WriteAll(g, before, newId, norm).value, n - 1, desired, current, newId, norm);
      var last := if Matched(n - 1, desired, current, norm) then [] else [Delete(current[n - 1].id)];
      WriteMore(g, before, last, newId, norm);
      DeletesNext(n, desired, current, norm);
    }
  }

  lemma NothingDeleted(g: Group, desired: seq<Desired>, current: seq<Entry>, newId: string -> string, norm: Norm)
    requires Listing(current, g)
    ensures WriteAll(g, Deletes(0, desired, current, norm), newId, norm) == Ok(g) && Deleted(g, g, 0, desired, current, norm)
  {
  }

  lemma DeletesNext(n: nat, desired: seq<Desired>, current: seq<Entry>, norm: Norm)
    requires 1 <= n <= |current|
    ensures Deletes(n, desired, current, norm)
         == Deletes(n - 1, desired, current, norm)
            + if Matched(n - 1, desired, current, norm) then [] else [Delete(current[n - 1].id)]
  {
  }

  lemma DeletesProgress(g: Group, desired: seq<Desired>, current: seq<Entry>, newId: string -> string, norm: Norm)
    requires Setting(g, desired, current, newId, norm)
    ensures var r := WriteAll(g, Deletes(|current|, desired, current, norm), newId, norm);
            r.Ok? && Progress(r.value, 0, desired, current, newId, norm)
  {
    DeletesApply(g, |current|, desired, current, newId, norm);
    var r := WriteAll(g, Deletes(|current|, desired, current, norm), newId, norm).value;
    forall j | 0 <= j < |desired| ensures Untouched(r, desired[j], current, norm) {
      assert Matched(FirstMatch(desired[j].email, current, norm), desired, current, norm);
    }
    forall id | id in r ensures Housed(id, 0, desired, current, newId, norm) {
      assert Listed(current, id);
      var i :| 0 <= i < |current| && current[i].id == id;
      assert Matched(i, desired, current, norm);
      var j :| 0 <= j < |desired| && FirstMatch(desired[j].email, current, norm) == i;
      assert Home(desired[j], current, newId, norm) == id;
    }
  }

  /** Nobody in the group compares equal to an address that still has to be added. */
  lemma NoDuplicate(g: Group, n: nat, desired: seq<Desired>, current: seq<Entry>, newId: string -> string, norm: Norm, id: string)
    requires DistinctAddresses(desired, norm) && n < |desired| && !Found(desired[n], current, norm)
    requires Progress(g, n, desired, current, newId, norm) && id in g
    ensures norm(g[id].email) != norm(desired[n].email)
  {
    assert Housed(id, n, desired, current, newId, norm);
    var j :| 0 <= j < |desired| && Home(desired[j], current, newId, norm) == id && (j < n || Found(desired[j], current, norm));
    FirstMatchIs(desired[j].email, current, norm);
    assert Placed(g, desired[j], current, newId, norm) || Untouched(g, desired[j], current, norm);
    assert norm(g[id].email) == norm(desired[j].email);
  }

  /** One desired member's plan is accepted, puts that member right and touches nobody else. */
  lemma StepWrites(g: Group, n: nat, desired: seq<Desired>, current: seq<Entry>, newId: string -> string, norm: Norm)
    requires DistinctAddresses(desired, norm) && n < |desired| && Progress(g, n, desired, current, newId, norm)
    ensures var d := desired[n];
            var r := WriteAll(g, PlanOne(d, current, norm), newId, norm);
            var home := Home(d, current, newId, norm);
            r.Ok? && r.value == g[home := Member(HomeEmail(d, current, norm), RoleOf(d))]
  {
    var d := desired[n];
    if !Found(d, current, norm) {
      WriteOne(g, Add(d.email, RoleOf(d)), newId, norm);
      forall id | id in g ensures norm(g[id].email) != norm(d.email) {
        NoDuplicate(g, n, desired, current, newId, norm, id);
      }
    } else {
      WriteOne(g, ChangeRole(current[FirstMatch(d.email, current, norm)].id, RoleOf(d)), newId, norm);
    }
  }

  lemma HomesApart(g: Group, desired: seq<Desired>, current: seq<Entry>, newId: string -> string, norm: Norm, n: nat, j: nat)
    requires Setting(g, desired, current, newId, norm) && n < |desired| && j < |desired| && j != n
    ensures Home(desired[j], current, newId, norm) != Home(desired[n], current, newId, norm)
  {
    if j < n {
      HomesDiffer(g, desired, current, newId, norm, j, n);
    } else {
      HomesDiffer(g, desired, current, newId, norm, n, j);
    }
  }

  lemma HousedNext(id: string, n: nat, desired: seq<Desired>, current: seq<Entry>, newId: string -> string, norm: Norm)
    requires n < |desired|
    requires id == Home(desired[n], current, newId, norm) || Housed(id, n, desired, current, newId, norm)
    ensures Housed(id, n + 1, desired, current, newId, norm)
  {
    if id != Home(desired[n], current, newId, norm) {
      var j :| 0 <= j < |desired| && Home(desired[j], current, newId, norm) == id && (j < n || Found(desired[j], current, norm));
    }
  }

  lemma OthersKept(g0: Group, g: Group, n: nat, m: Member, j: nat, desired: seq<Desired>, current: seq<Entry>,
                   newId: string -> string, norm: Norm)
    requires Setting(g0, desired, current, newId, norm) && n < |desired| && j < |desired| && j != n
    ensures var r := g[Home(desired[n], current, newId, norm) := m];
            && (Placed(g, desired[j], current, newId, norm) ==> Placed(r, desired[j], current, newId, norm))
            && (Untouched(g, desired[j], current, norm) ==> Untouched(r, desired[j], current, norm))
  {
    HomesApart(g0, desired, current, newId, norm, n, j);
  }

  lemma StepProgress(g0: Group, g: Group, n: nat, desired: seq<Desired>, current: seq<Entry>, newId: string -> string, norm: Norm)
    requires Setting(g0, desired, current, newId, norm) && n < |desired|
    requires Progress(g, n, desired, current, newId, norm)
    ensures var m := Member(HomeEmail(desired[n], current, norm), RoleOf(desired[n]));
            Progress(g[Home(desired[n], current, newId, norm) := m], n + 1, desired, current, newId, norm)
  {
    var m := Member(HomeEmail(desired[n], current, norm), RoleOf(desired[n]));
    var r := g[Home(desired[n], current, newId, norm) := m];
    forall j | 0 <= j < |desired| && j != n
      ensures Placed(g, desired[j], current, newId, norm) ==> Placed(r, desired[j], current, newId, norm)
      ensures Untouched(g, desired[j], current, norm) ==> Untouched(r, desired[j], current, norm)
    {
      OthersKept(g0, g, n, m, j, desired, current, newId, norm);
    }
    forall id | id in r ensures Housed(id, n + 1, desired, current, newId, norm) {
      HousedNext(id, n, desired, current, newId, norm);
    }
  }

  lemma {:induction false} ChangesApply(g0: Group, g: Group, n: nat, desired: seq<Desired>, current: seq<Entry>,
                                        newId: string -> string, norm: Norm)
    requires Setting(g0, desired, current, newId, norm) && n <= |desired|
    requires Progress(g, 0, desired, current, newId, norm)
    ensures var r := WriteAll(g, Changes(desired[..n], current, norm), newId, norm);
            r.Ok? && Progress(r.value, n, desired, current, newId, norm)
  {
    if n > 0 {
      ChangesApply(g0, g, n - 1, desired, current, newId, norm);
      var before := Changes(desired[..n - 1], current, norm);
      assert desired[..n][..n - 1] == desired[..n - 1];
      StepWrites(WriteAll(g, before, newId, norm).value, n - 1, desired, current, newId, norm);
      StepProgress(g0, WriteAll(g, before, newId, norm).value, n - 1, desired, current, newId, norm);
      WriteMore(g, before, PlanOne(desired[n - 1], current, norm), newId, norm);
    }
  }

  /** The group holds exactly one member per desired address, with the desired role, and nobody else. */
  ghost predicate Settled(g: Group, desired: seq<Desired>, norm: Norm) {
    && (forall j :: 0 <= j < |desired| ==> Present(g, desired[j], norm))
    && (forall id :: id in g ==> DesiredAt(g, id, desired, norm))
    && OnePerAddress(g, norm)
  }

  ghost predicate OnePerAddress(g: Group, norm: Norm) {
    forall a, b :: a in g && b in g && norm(g[a].email) == norm(g[b].email) ==> a == b
  }

  ghost predicate Present(g: Group, d: Desired, norm: Norm) {
    exists id :: id in g && norm(g[id].email) == norm(d.email) && g[id].role == if d.leader then "OWNER" else "MEMBER"
  }

  ghost predicate DesiredAt(g: Group, id: string, desired: seq<Desired>, norm: Norm)
    requires id in g
  {
    exists j :: 0 <= j < |desired| && norm(g[id].email) == norm(desired[j].email)
             && g[id].role == if desired[j].leader then "OWNER" else "MEMBER"
  }

  /** Everybody in the finished group is some desired member, at its place. */
  lemma Occupant(g: Group, id: string, desired: seq<Desired>, current: seq<Entry>, newId: string -> string, norm: Norm)
    returns (j: nat)
    requires Progress(g, |desired|, desired, current, newId, norm) && id in g
    ensures j < |desired| && Home(desired[j], current, newId, norm) == id
    ensures norm(g[id].email) == norm(desired[j].email) && g[id].role == RoleOf(desired[j])
  {
    assert Housed(id, |desired|, desired, current, newId, norm);
    j :| 0 <= j < |desired| && Home(desired[j], current, newId, norm) == id;
    FirstMatchIs(desired[j].email, current, norm);
    assert Placed(g, desired[j], current, newId, norm);
  }

  lemma OneEach(g: Group, desired: seq<Desired>, current: seq<Entry>, newId: string -> string, norm: Norm)
    requires DistinctAddresses(desired, norm) && Progress(g, |desired|, desired, current, newId, norm)
    ensures OnePerAddress(g, norm)
  {
    forall a, b | a in g && b in g && norm(g[a].email) == norm(g[b].email) ensures a == b {
      var i := Occupant(g, a, desired, current, newId, norm);
      var j := Occupant(g, b, desired, current, newId, norm);
    }
  }

  lemma ProgressSettles(g: Group, desired: seq<Desired>, current: seq<Entry>, newId: string -> string, norm: Norm)
    requires DistinctAddresses(desired, norm) && Progress(g, |desired|, desired, current, newId, norm)
    ensures Settled(g, desired, norm)
  {
    forall j | 0 <= j < |desired| ensures Present(g, desired[j], norm) {
      FirstMatchIs(desired[j].email, current, norm);
      assert Placed(g, desired[j], current, newId, norm);
    }
    forall id | id in g ensures DesiredAt(g, id, desired, norm) {
      var j := Occupant(g, id, desired, current, newId, norm);
    }
    OneEach(g, desired, current, newId, norm);
  }

  lemma MatchedSurvives(r: Group, i: nat, desired: seq<Desired>, current: seq<Entry>, newId: string -> string, norm: Norm)
    requires Progress(r, |desired|, desired, current, newId, norm) && i < |current| && Matched(i, desired, current, norm)
    ensures current[i].id in r && r[current[i].id].email == current[i].email
  {
    var j :| 0 <= j < |desired| && FirstMatch(desired[j].email, current, norm) == i;
    assert Home(desired[j], current, newId, norm) == current[i].id;
  }

  /**
   Convergence. For a group listed in any order and any desired members with distinct comparable
   addresses, the whole plan is accepted by Google; the group then has exactly one member per desired
   address, with the desired role, and nobody else; every member that was matched is still there
   under the same id and address.
   */
  lemma PlanConverges(g: Group, desired: seq<Desired>, current: seq<Entry>, newId: string -> string, norm: Norm)
    requires Setting(g, desired, current, newId, norm)
    ensures var r := Apply(g, desired, current, newId, norm);
            && r.Ok? && Settled(r.value, desired, norm)
            && (forall i :: 0 <= i < |current| && Matched(i, desired, current, norm) ==>
                  current[i].id in r.value && r.value[current[i].id].email == current[i].email)
  {
    DeletesProgress(g, desired, current, newId, norm);
    var g1 := WriteAll(g, Deletes(|current|, desired, current, norm), newId, norm).value;
    ChangesApply(g, g1, |desired|, desired, current, newId, norm);
    assert desired[..|desired|] == desired;
    OrderedPlan(desired, current, norm);
    WriteMore(g, Deletes(|current|, desired, current, norm), Changes(desired, current, norm), newId, norm);
    var r := Apply(g, desired, current, newId, norm).value;
    ProgressSettles(r, desired, current, newId, norm);
    forall i | 0 <= i < |current| && Matched(i, desired, current, norm)
      ensures current[i].id in r && r[current[i].id].email == current[i].email
    {
      MatchedSurvives(r, i, desired, current, newId, norm);
    }
  }

  /** In a settled group, two listed members at one address are the same list entry. */
  lemma ListedOnce(g: Group, current: seq<Entry>, norm: Norm, n: nat, k: nat)
    requires OnePerAddress(g, norm) && Listing(current, g) && n < |current| && k < |current|
    requires norm(current[n].email) == norm(current[k].email)
    ensures n == k
  {
    assert g[current[n].id].email == current[n].email && g[current[k].id].email == current[k].email;
    assert current[n].id == current[k].id;
  }

  lemma ListedAt(g: Group, current: seq<Entry>, norm: Norm, d: Desired) returns (k: nat)
    requires Present(g, d, norm) && Listing(current, g)
    ensures k < |current| && norm(current[k].email) == norm(d.email) && current[k].role == RoleOf(d)
  {
    var id :| id in g && norm(g[id].email) == norm(d.email) && g[id].role == RoleOf(d);
    assert Listed(current, id);
    k :| 0 <= k < |current| && current[k].id == id;
  }

  lemma SettledNeedsNoChange(g: Group, desired: seq<Desired>, current: seq<Entry>, norm: Norm, d: Desired)
    requires Settled(g, desired, norm) && Listing(current, g) && d in desired
    ensures PlanOne(d, current, norm) == []
  {
    var k := ListedAt(g, current, norm, d);
    FirstMatchIs(d.email, current, norm);
    assert Same(d.email, current[k].email, norm);
    ListedOnce(g, current, norm, FirstMatch(d.email, current, norm), k);
  }

  lemma DesiredIndex(g: Group, id: string, desired: seq<Desired>, norm: Norm) returns (j: nat)
    requires id in g && DesiredAt(g, id, desired, norm)
    ensures j < |desired| && norm(g[id].email) == norm(desired[j].email)
  {
    j :| 0 <= j < |desired| && norm(g[id].email) == norm(desired[j].email)
      && g[id].role == if desired[j].leader then "OWNER" else "MEMBER";
  }

  lemma SettledNeedsNoDelete(g: Group, desired: seq<Desired>, current: seq<Entry>, norm: Norm, i: nat)
    requires Settled(g, desired, norm) && Listing(current, g) && i < |current|
    ensures Matched(i, desired, current, norm)
  {
    hide Present, FirstMatch;
    var id := current[i].id;
    assert g[id].email == current[i].email && DesiredAt(g, id, desired, norm);
    var j := DesiredIndex(g, id, desired, norm);
    assert Same(desired[j].email, current[i].email, norm);
    FirstMatchIs(desired[j].email, current, norm);
    ListedOnce(g, current, norm, FirstMatch(desired[j].email, current, norm), i);
  }

  lemma {:induction false} NoChanges(g: Group, all: seq<Desired>, desired: seq<Desired>, current: seq<Entry>, norm: Norm)
    requires Settled(g, all, norm) && Listing(current, g)
    requires forall d :: d in desired ==> d in all
    ensures Changes(desired, current, norm) == []
  {
    if desired != [] {
      var n := |desired| - 1;
      NoChanges(g, all, desired[..n], current, norm);
      SettledNeedsNoChange(g, all, current, norm, desired[n]);
    }
  }

  lemma {:induction false} NoDeletes(g: Group, n: nat, desired: seq<Desired>, current: seq<Entry>, norm: Norm)
    requires Settled(g, desired, norm) && Listing(current, g) && n <= |current|
    ensures Deletes(n, desired, current, norm) == []
  {
    hide Settled, Listing, Matched;
    if n > 0 {
      NoDeletes(g, n - 1, desired, current, norm);
      SettledNeedsNoDelete(g, desired, current, norm, n - 1);
    }
  }

  /** Fixed point: however the group is listed after the plan was applied, the next diff is empty. */
  lemma SecondDiffIsEmpty(g: Group, desired: seq<Desired>, current: seq<Entry>, newId: string -> string, norm: Norm,
                          relisted: seq<Entry>)
    requires Setting(g, desired, current, newId, norm)
    requires Apply(g, desired, current, newId, norm).Ok? && Listing(relisted, Apply(g, desired, current, newId, norm).value)
    ensures Plan(desired, relisted, norm) == []
  {
    PlanConverges(g, desired, current, newId, norm);
    var r := Apply(g, desired, current, newId, norm).value;
    NoChanges(r, desired, desired, relisted, norm);
    NoDeletes(r, |relisted|, desired, relisted, norm);
  }

  /** Somebody in the group is at this comparable address. */
  ghost predicate MemberAt(g: Group, key: string, norm: Norm) {
    exists id :: id in g && norm(g[id].email) == key
  }

  /** Some source is at this comparable address. */
  ghost predicate SourceAt(sources: seq<Source>, key: string, norm: Norm) {
    exists i :: 0 <= i < |sources| && norm(Lists.LowerAll(sources[i].email)) == key
  }

  /** A group settled on the merged members is settled on their sources. */
  lemma SettledOnSources(g: Group, desired: seq<Desired>, sources: seq<Source>, norm: Norm)
    requires Settled(g, desired, norm) && Represents(desired, sources, norm)
    ensures forall k :: 0 <= k < |sources| ==> MemberAt(g, norm(Lists.LowerAll(sources[k].email)), norm)
    ensures forall id :: id in g ==>
              && SourceAt(sources, norm(g[id].email), norm)
              && g[id].role == if Leads(sources, norm(g[id].email), norm) then "OWNER" else "MEMBER"
  {
    hide Lists.LowerAll, Present, DesiredAt, Faithful, Slot, Leads, SourceAt, MemberAt;
    forall k | 0 <= k < |sources| ensures MemberAt(g, norm(Lists.LowerAll(sources[k].email)), norm) {
      var key := KeyOf(sources[k], norm);
      var n := Slot(desired, key, norm);
      SlotIs(desired, key, norm);
      PresentIsMember(g, desired[n], norm);
    }
    forall id | id in g
      ensures SourceAt(sources, norm(g[id].email), norm)
      ensures g[id].role == if Leads(sources, norm(g[id].email), norm) then "OWNER" else "MEMBER"
    {
      DesiredIsFromSource(g, id, desired, sources, norm);
    }
  }

  lemma PresentIsMember(g: Group, d: Desired, norm: Norm)
    requires Present(g, d, norm)
    ensures MemberAt(g, norm(d.email), norm)
  {
  }

  lemma DesiredIsFromSource(g: Group, id: string, desired: seq<Desired>, sources: seq<Source>, norm: Norm)
    requires id in g && DesiredAt(g, id, desired, norm)
    requires forall j :: 0 <= j < |desired| ==> Faithful(desired[j], sources, norm)
    ensures SourceAt(sources, norm(g[id].email), norm)
    ensures g[id].role == if Leads(sources, norm(g[id].email), norm) then "OWNER" else "MEMBER"
  {
    hide Lists.LowerAll, NamesAt, Leads;
    var j :| 0 <= j < |desired| && norm(g[id].email) == norm(desired[j].email)
          && g[id].role == if desired[j].leader then "OWNER" else "MEMBER";
    assert Faithful(desired[j], sources, norm);
    var i :| 0 <= i < |sources| && Lists.LowerAll(sources[i].email) == desired[j].email;
    assert norm(Lists.LowerAll(sources[i].email)) == norm(g[id].email);
  }

  /**
   From the sources to the group: whatever the membership sources and the Google-hosted domains, the
   merged desired members satisfy what convergence asks, so one sync settles the group on exactly the
   addresses of the sources, one member each, owners exactly where some source leads and plain members
   elsewhere, and the next sync does nothing.
   */
  lemma SyncSettles(g: Group, sources: seq<Source>, domains: set<string>, current: seq<Entry>, newId: string -> string,
                    relisted: seq<Entry>)
    requires Listing(current, g)
    requires FreshIds(MergeAll(sources, Comparable(domains)), current, newId, Comparable(domains))
    ensures var norm := Comparable(domains);
            var desired := MergeAll(sources, norm);
            var r := Apply(g, desired, current, newId, norm);
            && r.Ok? && Settled(r.value, desired, norm) && Represents(desired, sources, norm)
            && (forall k :: 0 <= k < |sources| ==> MemberAt(r.value, norm(Lists.LowerAll(sources[k].email)), norm))
            && (forall id :: id in r.value ==>
                  && SourceAt(sources, norm(r.value[id].email), norm)
                  && r.value[id].role == if Leads(sources, norm(r.value[id].email), norm) then "OWNER" else "MEMBER")
            && (forall a, b :: a in r.value && b in r.value && norm(r.value[a].email) == norm(r.value[b].email) ==> a == b)
            && (Listing(relisted, r.value) ==> Plan(desired, relisted, norm) == [])
  {
    var norm := Comparable(domains);
    var desired := MergeAll(sources, norm);
    MergeAllRepresents(sources, norm);
    PlanConverges(g, desired, current, newId, norm);
    SettledOnSources(Apply(g, desired, current, newId, norm).value, desired, sources, norm);
    if Listing(relisted, Apply(g, desired, current, newId, norm).value) {
      SecondDiffIsEmpty(g, desired, current, newId, norm, relisted);
    }
  }
}
