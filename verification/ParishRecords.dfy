/**
 Linking and pruning ParishSoft families and members (src/parishkit/parishsoft.py,
 `link_families_and_members` and `_filter_families_and_members`), against a declarative filter.
 */
module ParishRecords {
  import opened Results
  import opened Lists

  /** `active` and `deceased` are what `member_is_active` and `member_is_deceased` say of the record. */
  datatype Member = Member(family: int, active: bool, deceased: bool)

  datatype Family = Family(inGroupInactive: bool, parishioner: bool)

  /** One workgroup or ministry row: the ids it names, -1 standing for none. */
  datatype Row = Row(member: int, family: int)

  datatype Flags = Flags(activeOnly: bool, parishionersOnly: bool, includeDeceased: bool, retainEmpty: bool)

  /** The loaded records, with the order in which the dictionaries hold their keys. */
  datatype World = World(memberIds: seq<int>, members: map<int, Member>, familyIds: seq<int>, families: map<int, Family>)

  ghost predicate ValidWorld(w: World) {
    && (forall id :: id in w.members <==> id in w.memberIds)
    && (forall id :: id in w.families <==> id in w.familyIds)
    && (forall i, j :: 0 <= i < j < |w.memberIds| ==> w.memberIds[i] != w.memberIds[j])
    && (forall i, j :: 0 <= i < j < |w.familyIds| ==> w.familyIds[i] != w.familyIds[j])
  }

  // ----- the declarative filter -----

  predicate Drops(fl: Flags, m: Member) {
    (!fl.includeDeceased && m.deceased) || (fl.activeOnly && !m.active)
  }

  /** Members dropped on their own account. */
  function Dropped(w: World, fl: Flags): set<int> {
    set id | id in w.members && Drops(fl, w.members[id])
  }

  function LivesIn(w: World, f: int, gone: set<int>): int -> bool {
    (id: int) => id in w.members && w.members[id].family == f && id !in gone
  }

  /** The member's family, if it was loaded. */
  function HomeOf(w: World, id: int): Option<int>
    requires id in w.members
  {
    if w.members[id].family in w.families then Some(w.members[id].family) else None
  }

  /** A family's members in dictionary order, without those gone. */
  function Roster(w: World, f: int, gone: set<int>): seq<int> {
    Filter(w.memberIds, LivesIn(w, f, gone))
  }

  /** `family_is_active` for the roster a family has left. */
  predicate FamilyActive(w: World, f: int, roster: seq<int>)
    requires f in w.families
  {
    !w.families[f].inGroupInactive && exists id :: id in roster && id in w.members && w.members[id].active
  }

  /** Whether a family with this roster is removed. */
  predicate Removes(w: World, fl: Flags, f: int, roster: seq<int>)
    requires f in w.families
  {
    || (roster == [] && !fl.retainEmpty)
    || (fl.activeOnly && !FamilyActive(w, f, roster))
    || (fl.parishionersOnly && !w.families[f].parishioner)
  }

  function RemovedFamilies(w: World, fl: Flags): set<int> {
    set f | f in w.families && Removes(w, fl, f, Roster(w, f, Dropped(w, fl)))
  }

  /** Members that go only because their loaded family goes. */
  function RemovedWithFamily(w: World, fl: Flags): set<int> {
    set id | id in w.members && w.members[id].family in RemovedFamilies(w, fl) && id !in Dropped(w, fl)
  }

  /** The members left once these are gone and these families are removed. */
  function Residents(w: World, gone: set<int>, removed: set<int>): map<int, Member> {
    map id | id in w.members && id !in gone && w.members[id].family !in removed :: w.members[id]
  }

  /** The rows that name neither one of these members nor one of these families. */
  function Keeps(members: set<int>, families: set<int>): Row -> bool {
    (r: Row) => r.member !in members && r.family !in families
  }

  function KeepRows(groups: seq<seq<Row>>, members: set<int>, families: set<int>): seq<seq<Row>> {
    seq(|groups|, i requires 0 <= i < |groups| => Filter(groups[i], Keeps(members, families)))
  }

  // ----- list lemmas -----

  lemma KeepRowsTwice(groups: seq<seq<Row>>, m1: set<int>, f1: set<int>, m2: set<int>, f2: set<int>)
    ensures KeepRows(KeepRows(groups, m1, f1), m2, f2) == KeepRows(groups, m1 + m2, f1 + f2)
  {
    forall i | 0 <= i < |groups|
      ensures Filter(Filter(groups[i], Keeps(m1, f1)), Keeps(m2, f2)) == Filter(groups[i], Keeps(m1 + m2, f1 + f2))
    {
      FilterTwice(groups[i], Keeps(m1, f1), Keeps(m2, f2), Keeps(m1 + m2, f1 + f2));
    }
  }

  lemma KeepRowsNothing(groups: seq<seq<Row>>)
    ensures KeepRows(groups, {}, {}) == groups
  {
    forall i | 0 <= i < |groups| ensures Filter(groups[i], Keeps({}, {})) == groups[i] {
      FilterEverything(groups[i], Keeps({}, {}));
    }
  }

  function IsNot(id: int): int -> bool {
    (x: int) => x != id
  }

  lemma RosterWithout(w: World, f: int, gone: set<int>, id: int)
    ensures Filter(Roster(w, f, gone), IsNot(id)) == Roster(w, f, gone + {id})
  {
    FilterTwice(w.memberIds, LivesIn(w, f, gone), IsNot(id), LivesIn(w, f, gone + {id}));
  }

  lemma RosterOfOthers(w: World, f: int, gone: set<int>, id: int)
    requires id in w.members && w.members[id].family != f
    ensures Roster(w, f, gone + {id}) == Roster(w, f, gone)
  {
    FilterAgrees(w.memberIds, LivesIn(w, f, gone), LivesIn(w, f, gone + {id}));
  }

  lemma RosterHas(w: World, f: int, gone: set<int>, id: int)
    requires ValidWorld(w)
    ensures id in Roster(w, f, gone) <==> id in w.members && w.members[id].family == f && id !in gone
  {
    FilterMembers(w.memberIds, LivesIn(w, f, gone), id);
  }

  function DroppedAmong(w: World, fl: Flags, ids: seq<int>): set<int> {
    set id | id in ids && id in w.members && Drops(fl, w.members[id])
  }

  lemma DroppedNext(w: World, fl: Flags, i: nat)
    requires ValidWorld(w) && i < |w.memberIds|
    ensures var id := w.memberIds[i];
            && id in w.members && id !in DroppedAmong(w, fl, w.memberIds[..i])
            && DroppedAmong(w, fl, w.memberIds[..i + 1])
            == DroppedAmong(w, fl, w.memberIds[..i]) + if Drops(fl, w.members[id]) then {id} else {}
  {
    assert w.memberIds[..i + 1] == w.memberIds[..i] + [w.memberIds[i]];
  }

  function RemovedAmong(w: World, fl: Flags, ids: seq<int>): set<int> {
    set f | f in ids && f in w.families && Removes(w, fl, f, Roster(w, f, Dropped(w, fl)))
  }

  lemma RemovedNext(w: World, fl: Flags, j: nat)
    requires ValidWorld(w) && j < |w.familyIds|
    ensures var f := w.familyIds[j];
            && f in w.families && f !in RemovedAmong(w, fl, w.familyIds[..j])
            && RemovedAmong(w, fl, w.familyIds[..j + 1])
            == RemovedAmong(w, fl, w.familyIds[..j]) + if Removes(w, fl, f, Roster(w, f, Dropped(w, fl))) then {f} else {}
  {
    assert w.familyIds[..j + 1] == w.familyIds[..j] + [w.familyIds[j]];
  }

  lemma AmongAll(w: World, fl: Flags)
    requires ValidWorld(w)
    ensures DroppedAmong(w, fl, w.memberIds) == Dropped(w, fl) && RemovedAmong(w, fl, w.familyIds) == RemovedFamilies(w, fl)
  {
    forall id | id in Dropped(w, fl) ensures id in DroppedAmong(w, fl, w.memberIds) {
      assert id in w.memberIds;
    }
    forall f | f in RemovedFamilies(w, fl) ensures f in RemovedAmong(w, fl, w.familyIds) {
      assert f in w.familyIds;
    }
  }

  lemma NothingRemoved(w: World, fl: Flags)
    ensures w.members - Dropped(w, fl) == Residents(w, Dropped(w, fl), {}) && w.families == w.families - {}
    ensures RemovedAmong(w, fl, []) == {}
  {
  }

  lemma NoneMore(s: set<int>)
    ensures s + {} == s
  {
  }

  lemma NextResident(w: World, i: nat, f: int)
    requires ValidWorld(w) && i < |w.memberIds| && w.memberIds[i] in w.members
    ensures Filter(w.memberIds[..i + 1], LivesIn(w, f, {}))
         == Filter(w.memberIds[..i], LivesIn(w, f, {})) + if w.members[w.memberIds[i]].family == f then [w.memberIds[i]] else []
  {
    assert w.memberIds[..i + 1] == w.memberIds[..i] + [w.memberIds[i]];
    FilterAppend(w.memberIds[..i], [w.memberIds[i]], LivesIn(w, f, {}));
  }

  /** The links made for the first `n` members. */
  ghost predicate PartlyLinked(w: World, homes: map<int, Option<int>>, rosters: map<int, seq<int>>, n: nat)
    requires n <= |w.memberIds|
  {
    && rosters.Keys == w.families.Keys
    && (forall f :: f in rosters ==> rosters[f] == Filter(w.memberIds[..n], LivesIn(w, f, {})))
    && (forall k :: 0 <= k < n ==> HomeLinked(w, homes, w.memberIds[k]))
  }

  ghost predicate HomeLinked(w: World, homes: map<int, Option<int>>, id: int) {
    id in w.members && id in homes && homes[id] == HomeOf(w, id)
  }

  lemma LinkStarts(w: World, homes: map<int, Option<int>>, rosters: map<int, seq<int>>)
    requires rosters == map f | f in w.families :: []
    ensures PartlyLinked(w, homes, rosters, 0)
  {
  }

  lemma LinkEnds(w: World, homes: map<int, Option<int>>, rosters: map<int, seq<int>>)
    requires ValidWorld(w) && PartlyLinked(w, homes, rosters, |w.memberIds|)
    ensures forall f :: f in w.families ==> f in rosters && rosters[f] == Roster(w, f, {})
    ensures forall id :: id in w.members ==> id in homes && homes[id] == HomeOf(w, id)
  {
    hide Filter;
    assert w.memberIds[..|w.memberIds|] == w.memberIds;
    forall id | id in w.members ensures HomeLinked(w, homes, id) {
      var k :| 0 <= k < |w.memberIds| && w.memberIds[k] == id;
      assert HomeLinked(w, homes, w.memberIds[k]);
    }
  }

  lemma LinkNext(w: World, homes: map<int, Option<int>>, rosters: map<int, seq<int>>, n: nat)
    requires ValidWorld(w) && n < |w.memberIds| && PartlyLinked(w, homes, rosters, n)
    ensures w.memberIds[n] in w.members
    ensures var id := w.memberIds[n];
            var f := w.members[id].family;
            var more := if f in rosters then rosters[f := rosters[f] + [id]] else rosters;
            PartlyLinked(w, homes[id := HomeOf(w, id)], more, n + 1)
  {
    hide Filter, LivesIn;
    var id := w.memberIds[n];
    assert id in w.memberIds;
    var f := w.members[id].family;
    var more := if f in rosters then rosters[f := rosters[f] + [id]] else rosters;
    forall g | g in more ensures more[g] == Filter(w.memberIds[..n + 1], LivesIn(w, g, {})) {
      NextResident(w, n, g);
    }
    forall k | 0 <= k < n + 1 ensures HomeLinked(w, homes[id := HomeOf(w, id)], w.memberIds[k]) {
      assert k < n ==> HomeLinked(w, homes, w.memberIds[k]);
    }
  }

  // ----- rebuilding the membership lists -----

  function OtherMember(id: int): Row -> bool {
    (r: Row) => r.member != id
  }

  function OtherFamily(f: int): Row -> bool {
    (r: Row) => r.family != f
  }

  /** In every group, the rows to keep are there as often as before, and no other row is. */
  ghost predicate Purged(before: seq<seq<Row>>, after: seq<seq<Row>>, keep: Row -> bool) {
    && |after| == |before|
    && forall i, r :: 0 <= i < |before| ==> multiset(after[i])[r] == if keep(r) then multiset(before[i])[r] else 0
  }

  /** Every group's list is rebuilt row by row, in order. */
  ghost predicate Rebuilt(before: seq<seq<Row>>, after: seq<seq<Row>>, keep: Row -> bool) {
    |after| == |before| && forall i :: 0 <= i < |before| ==> after[i] == Filter(before[i], keep)
  }

  method PurgeGroup(group: seq<Row>, keep: Row -> bool) returns (kept: seq<Row>)
    ensures kept == Filter(group, keep)
  {
    kept := [];
    for j := 0 to |group|
      invariant kept == Filter(group[..j], keep)
    {
      FilterNext(group, j, keep);
      if keep(group[j]) {
        kept := kept + [group[j]];
      }
    }
    assert group[..|group|] == group;
  }

  method Purge(groups: seq<seq<Row>>, keep: Row -> bool) returns (kept: seq<seq<Row>>)
    ensures Rebuilt(groups, kept, keep)
  {
    kept := [];
    for i := 0 to |groups|
      invariant Rebuilt(groups[..i], kept, keep)
    {
      var group := PurgeGroup(groups[i], keep);
      kept := kept + [group];
    }
    assert groups[..|groups|] == groups;
  }

  lemma RebuiltIsPurged(before: seq<seq<Row>>, after: seq<seq<Row>>, keep: Row -> bool)
    requires Rebuilt(before, after, keep)
    ensures Purged(before, after, keep)
  {
    forall i, r | 0 <= i < |before| ensures multiset(after[i])[r] == if keep(r) then multiset(before[i])[r] else 0 {
      FilterCount(before[i], keep, r);
    }
  }

  lemma PurgedMember(before: seq<seq<Row>>, after: seq<seq<Row>>, id: int)
    requires Rebuilt(before, after, OtherMember(id))
    ensures Purged(before, after, OtherMember(id)) && after == KeepRows(before, {id}, {})
  {
    RebuiltIsPurged(before, after, OtherMember(id));
    forall i | 0 <= i < |before| ensures Filter(before[i], OtherMember(id)) == Filter(before[i], Keeps({id}, {})) {
      FilterAgrees(before[i], OtherMember(id), Keeps({id}, {}));
    }
  }

  lemma PurgedFamily(before: seq<seq<Row>>, after: seq<seq<Row>>, f: int)
    requires Rebuilt(before, after, OtherFamily(f))
    ensures Purged(before, after, OtherFamily(f)) && after == KeepRows(before, {}, {f})
  {
    RebuiltIsPurged(before, after, OtherFamily(f));
    forall i | 0 <= i < |before| ensures Filter(before[i], OtherFamily(f)) == Filter(before[i], Keeps({}, {f})) {
      FilterAgrees(before[i], OtherFamily(f), Keeps({}, {f}));
    }
  }

  lemma KeepRowsFamily(groups: seq<seq<Row>>, gone: set<int>, removed: set<int>, f: int)
    ensures KeepRows(KeepRows(groups, gone, removed), {}, {f}) == KeepRows(groups, gone, removed + {f})
  {
    KeepRowsTwice(groups, gone, removed, {}, {f});
    NoneMore(gone);
  }

  lemma ResidentsWithout(w: World, gone: set<int>, removed: set<int>, f: int)
    requires ValidWorld(w)
    ensures Residents(w, gone, removed) - (set id | id in Roster(w, f, gone)) == Residents(w, gone, removed + {f})
  {
    var roster := Roster(w, f, gone);
    forall id ensures id in roster <==> id in w.members && w.members[id].family == f && id !in gone {
      RosterHas(w, f, gone, id);
    }
  }

  // ----- the records, updated in place -----

  class Records {
    ghost const world: World
    ghost const groups: (seq<seq<Row>>, seq<seq<Row>>, seq<seq<Row>>)
    var memberIds: seq<int>
    var members: map<int, Member>
    var familyIds: seq<int>
    var families: map<int, Family>
    var homes: map<int, Option<int>>        // each member's "py family"
    var rosters: map<int, seq<int>>         // each family's "py members"
    var familyRows: seq<seq<Row>>
    var workgroupRows: seq<seq<Row>>
    var ministryRows: seq<seq<Row>>

    constructor (w: World, familyRows: seq<seq<Row>>, workgroupRows: seq<seq<Row>>, ministryRows: seq<seq<Row>>)
      requires ValidWorld(w)
      ensures world == w && groups == (familyRows, workgroupRows, ministryRows) && Loaded()
      ensures homes == map[] && rosters == map[]
    {
      world, groups := w, (familyRows, workgroupRows, ministryRows);
      memberIds, members, familyIds, families := w.memberIds, w.members, w.familyIds, w.families;
      this.familyRows, this.workgroupRows, this.ministryRows := familyRows, workgroupRows, ministryRows;
      homes, rosters := map[], map[];
    }

    /** As constructed, whatever links there are. */
    ghost predicate Loaded()
      reads this
    {
      && ValidWorld(world) && World(memberIds, members, familyIds, families) == world
      && (familyRows, workgroupRows, ministryRows) == groups
    }

    /** Every family lists its members that are not gone, and every member knows its loaded family. */
    ghost predicate Linked(gone: set<int>)
      reads this
    {
      && (forall f :: f in world.families ==> f in rosters && rosters[f] == Roster(world, f, gone))
      && (forall id :: id in world.members ==> id in homes && homes[id] == HomeOf(world, id))
    }

    /** `link_families_and_members` */
    method Link()
      requires Loaded()
      modifies this`homes, this`rosters
      ensures Linked({})
    {
      rosters := map f | f in families :: [];
      LinkStarts(world, homes, rosters);
      hide PartlyLinked, Roster, Filter, ValidWorld;
      for i := 0 to |memberIds|
        invariant PartlyLinked(world, homes, rosters, i)
      {
        var id := memberIds[i];
        var f := members[id].family;
        LinkNext(world, homes, rosters, i);
        homes := homes[id := if f in families then Some(f) else None];
        if f in families {
          rosters := rosters[f := rosters[f] + [id]];
        }
      }
      LinkEnds(world, homes, rosters);
    }

    /** `_remove_memberships_for_member`: exactly the rows naming the member go. */
    method RemoveMemberships(id: int)
      modifies this`workgroupRows, this`ministryRows
      ensures Purged(old(workgroupRows), workgroupRows, OtherMember(id))
      ensures Purged(old(ministryRows), ministryRows, OtherMember(id))
      ensures workgroupRows == KeepRows(old(workgroupRows), {id}, {})
      ensures ministryRows == KeepRows(old(ministryRows), {id}, {})
    {
      workgroupRows := Purge(workgroupRows, OtherMember(id));
      ministryRows := Purge(ministryRows, OtherMember(id));
      PurgedMember(old(workgroupRows), workgroupRows, id);
      PurgedMember(old(ministryRows), ministryRows, id);
    }

    /** `_remove_memberships_for_family`: exactly the rows naming the family go, in all three collections. */
    method RemoveFamilyMemberships(f: int)
      modifies this`familyRows, this`workgroupRows, this`ministryRows
      ensures Purged(old(familyRows), familyRows, OtherFamily(f))
      ensures Purged(old(workgroupRows), workgroupRows, OtherFamily(f))
      ensures Purged(old(ministryRows), ministryRows, OtherFamily(f))
      ensures familyRows == KeepRows(old(familyRows), {}, {f})
      ensures workgroupRows == KeepRows(old(workgroupRows), {}, {f})
      ensures ministryRows == KeepRows(old(ministryRows), {}, {f})
    {
      familyRows := Purge(familyRows, OtherFamily(f));
      workgroupRows := Purge(workgroupRows, OtherFamily(f));
      ministryRows := Purge(ministryRows, OtherFamily(f));
      PurgedFamily(old(familyRows), familyRows, f);
      PurgedFamily(old(workgroupRows), workgroupRows, f);
      PurgedFamily(old(ministryRows), ministryRows, f);
    }

    /** The rows are those loaded, less the rows of these members and families. */
    ghost predicate RowsWithout(gone: set<int>, removed: set<int>)
      reads this
    {
      && familyRows == KeepRows(groups.0, {}, removed)
      && workgroupRows == KeepRows(groups.1, gone, removed)
      && ministryRows == KeepRows(groups.2, gone, removed)
    }

    /** One member leaves: its family's list, its rows and the dictionary. */
    method DropOne(id: int, ghost gone: set<int>)
      requires id in members && members == world.members - gone && Linked(gone) && RowsWithout(gone, {})
      modifies this`members, this`rosters, this`workgroupRows, this`ministryRows
      ensures members == world.members - (gone + {id}) && Linked(gone + {id}) && RowsWithout(gone + {id}, {})
    {
      var home := homes[id];
      if home.Some? {
        rosters := rosters[home.value := Filter(rosters[home.value], IsNot(id))];
      }
      forall f | f in world.families ensures rosters[f] == Roster(world, f, gone + {id}) {
        if world.members[id].family == f {
          RosterWithout(world, f, gone, id);
        } else {
          RosterOfOthers(world, f, gone, id);
        }
      }
      KeepRowsTwice(groups.1, gone, {}, {id}, {});
      KeepRowsTwice(groups.2, gone, {}, {id}, {});
      NoneMore({});
      RemoveMemberships(id);
      members := members - {id};
    }

    /** First pass: members that are out of scope themselves. */
    method DropMembers(fl: Flags)
      requires Loaded() && Linked({})
      modifies this`members, this`rosters, this`workgroupRows, this`ministryRows
      ensures members == world.members - Dropped(world, fl)
      ensures Linked(Dropped(world, fl)) && RowsWithout(Dropped(world, fl), {})
    {
      KeepRowsNothing(groups.0);
      KeepRowsNothing(groups.1);
      KeepRowsNothing(groups.2);
      ghost var gone: set<int> := {};
      for i := 0 to |memberIds|
        invariant gone == DroppedAmong(world, fl, memberIds[..i])
        invariant members == world.members - gone && Linked(gone) && RowsWithout(gone, {})
      {
        var id := memberIds[i];
        DroppedNext(world, fl, i);
        if Drops(fl, members[id]) {
          DropOne(id, gone);
          gone := gone + {id};
        }
      }
      assert memberIds[..|memberIds|] == memberIds;
      AmongAll(world, fl);
    }

    method PopMembers(roster: seq<int>)
      modifies this`members
      ensures members == old(members) - (set id | id in roster)
    {
      for i := 0 to |roster|
        invariant members == old(members) - (set id | id in roster[..i])
      {
        assert roster[..i + 1] == roster[..i] + [roster[i]];
        members := members - {roster[i]};
      }
      assert roster[..|roster|] == roster;
    }

    /** One family leaves, with the members it still lists, and every row that names it. */
    method RemoveOne(f: int, ghost gone: set<int>, ghost removed: set<int>)
      requires ValidWorld(world) && f in families && f in world.families && Linked(gone)
      requires families == world.families - removed && members == Residents(world, gone, removed) && RowsWithout(gone, removed)
      modifies this`members, this`families, this`familyRows, this`workgroupRows, this`ministryRows
      ensures families == world.families - (removed + {f}) && members == Residents(world, gone, removed + {f})
      ensures RowsWithout(gone, removed + {f})
    {
      var roster := rosters[f];
      assert roster == Roster(world, f, gone);
      ResidentsWithout(world, gone, removed, f);
      KeepRowsFamily(groups.0, {}, removed, f);
      KeepRowsFamily(groups.1, gone, removed, f);
      KeepRowsFamily(groups.2, gone, removed, f);
      hide Roster, Residents, KeepRows, Purged;
      PopMembers(roster);
      RemoveFamilyMemberships(f);
      families := families - {f};
    }

    /** Whether the family, with the members it still lists, is out of scope. */
    method OutOfScope(f: int, fl: Flags, ghost gone: set<int>, ghost removed: set<int>) returns (out: bool)
      requires ValidWorld(world) && f in families && f in world.families && families[f] == world.families[f]
      requires f !in removed && Linked(gone) && members == Residents(world, gone, removed)
      ensures out == Removes(world, fl, f, Roster(world, f, gone))
    {
      var roster := rosters[f];
      forall id ensures id in roster <==> id in world.members && world.members[id].family == f && id !in gone {
        RosterHas(world, f, gone, id);
      }
      var anyActive := exists id :: id in roster && id in members && members[id].active;
      assert anyActive == exists id :: id in roster && id in world.members && world.members[id].active;
      out := (roster == [] && !fl.retainEmpty)
             || (fl.activeOnly && (families[f].inGroupInactive || !anyActive))
             || (fl.parishionersOnly && !families[f].parishioner);
    }

    /** Second pass: families that are out of scope, with the members they still have. */
    method RemoveFamilies(fl: Flags)
      requires ValidWorld(world) && familyIds == world.familyIds && families == world.families
      requires members == world.members - Dropped(world, fl)
      requires Linked(Dropped(world, fl)) && RowsWithout(Dropped(world, fl), {})
      modifies this`members, this`families, this`familyRows, this`workgroupRows, this`ministryRows
      ensures families == world.families - RemovedFamilies(world, fl)
      ensures members == Residents(world, Dropped(world, fl), RemovedFamilies(world, fl))
      ensures RowsWithout(Dropped(world, fl), RemovedFamilies(world, fl))
    {
      ghost var gone := Dropped(world, fl);
      ghost var removed: set<int> := {};
      NothingRemoved(world, fl);
      hide Dropped, Removes, KeepRows, RemovedAmong, RemovedFamilies, Roster, Residents;
      for j := 0 to |familyIds|
        invariant removed == RemovedAmong(world, fl, familyIds[..j]) && Linked(gone)
        invariant families == world.families - removed && members == Residents(world, gone, removed)
        invariant RowsWithout(gone, removed)
      {
        var f := familyIds[j];
        RemovedNext(world, fl, j);
        var out := OutOfScope(f, fl, gone, removed);
        if out {
          RemoveOne(f, gone, removed);
          removed := removed + {f};
        }
      }
      assert familyIds[..|familyIds|] == familyIds;
      AmongAll(world, fl);
    }

    /** `_filter_families_and_members`, after linking. */
    method FilterRecords(fl: Flags)
      requires Loaded() && Linked({})
      modifies this`members, this`families, this`rosters, this`familyRows, this`workgroupRows, this`ministryRows
      ensures families == world.families - RemovedFamilies(world, fl)
      ensures members == Residents(world, Dropped(world, fl), RemovedFamilies(world, fl))
      ensures Linked(Dropped(world, fl)) && RowsWithout(Dropped(world, fl), RemovedFamilies(world, fl))
    {
      DropMembers(fl);
      RemoveFamilies(fl);
    }
  }

  /** What links are: a member's to its family if that was loaded, and a family's to each of its members once. */
  lemma LinksAre(w: World, f: int, id: int)
    requires ValidWorld(w) && id in w.members
    ensures HomeOf(w, id) == if w.members[id].family in w.families then Some(w.members[id].family) else None
    ensures multiset(Roster(w, f, {}))[id] == if w.members[id].family == f then 1 else 0
  {
    FilterCount(w.memberIds, LivesIn(w, f, {}), id);
    var n :| 0 <= n < |w.memberIds| && w.memberIds[n] == id;
    assert w.memberIds == w.memberIds[..n] + [id] + w.memberIds[n + 1..];
    assert id !in w.memberIds[..n] && id !in w.memberIds[n + 1..];
  }

  // ----- what the filter guarantees -----

  predicate Named(groups: seq<seq<Row>>, r: Row) {
    exists i :: 0 <= i < |groups| && r in groups[i]
  }

  lemma KeptRows(groups: seq<seq<Row>>, members: set<int>, families: set<int>, r: Row)
    ensures Named(KeepRows(groups, members, families), r)
       <==> Named(groups, r) && r.member !in members && r.family !in families
  {
    var kept := KeepRows(groups, members, families);
    forall i | 0 <= i < |groups|
      ensures r in kept[i] <==> r in groups[i] && r.member !in members && r.family !in families
    {
      FilterMembers(groups[i], Keeps(members, families), r);
    }
  }

  /** The filtered records refer to each other and to nothing else. */
  ghost predicate Consistent(w: World, fl: Flags, members: map<int, Member>, families: map<int, Family>)
    requires families.Keys <= w.families.Keys
  {
    var gone := Dropped(w, fl);
    && (forall id :: id in members ==> id in w.members && members[id] == w.members[id])
    && (forall f, id :: f in families ==> (id in Roster(w, f, gone) <==> id in members && members[id].family == f))
    && (forall id :: id in members && members[id].family in w.families ==> members[id].family in families)
    && (forall f :: f in families ==>
          && (Roster(w, f, gone) != [] || fl.retainEmpty)
          && (fl.activeOnly ==> FamilyActive(w, f, Roster(w, f, gone)))
          && (fl.parishionersOnly ==> families[f].parishioner))
  }

  /**
   After linking and filtering, a retained family lists exactly the retained members with its id; a
   retained member's loaded family is retained; no retained family is empty unless allowed, inactive
   or outside the parish; and a member is gone if and only if it is out of scope or its family is.
   */
  lemma FilterIsConsistent(w: World, fl: Flags)
    requires ValidWorld(w)
    ensures var gone, removed := Dropped(w, fl), RemovedFamilies(w, fl);
            var members, families := Residents(w, gone, removed), w.families - removed;
            && families.Keys <= w.families.Keys && Consistent(w, fl, members, families)
            && members.Keys == w.members.Keys - gone - RemovedWithFamily(w, fl)
  {
    var gone, removed := Dropped(w, fl), RemovedFamilies(w, fl);
    ResidentKeys(w, fl);
    hide FamilyActive, Roster, Dropped, RemovedFamilies, ValidWorld, RemovedWithFamily, Residents, Drops;
    var members, families := Residents(w, gone, removed), w.families - removed;
    forall f | f in families
      ensures (Roster(w, f, gone) != [] || fl.retainEmpty) && (fl.activeOnly ==> FamilyActive(w, f, Roster(w, f, gone)))
      ensures fl.parishionersOnly ==> families[f].parishioner
    {
      RetainedInScope(w, fl, f);
    }
    forall f, id | f in families ensures id in Roster(w, f, gone) <==> id in members && members[id].family == f {
      RosterIsResident(w, f, gone, removed, id);
    }
    ResidentsAre(w, gone, removed);
  }

  lemma RosterIsResident(w: World, f: int, gone: set<int>, removed: set<int>, id: int)
    requires ValidWorld(w) && f !in removed
    ensures var members := Residents(w, gone, removed);
            id in Roster(w, f, gone) <==> id in members && members[id].family == f
  {
    RosterHas(w, f, gone, id);
  }

  lemma ResidentsAre(w: World, gone: set<int>, removed: set<int>)
    ensures var members := Residents(w, gone, removed);
            forall id :: id in members ==> id in w.members && members[id] == w.members[id] && members[id].family !in removed
  {
  }

  lemma ResidentKeys(w: World, fl: Flags)
    ensures Residents(w, Dropped(w, fl), RemovedFamilies(w, fl)).Keys
         == w.members.Keys - Dropped(w, fl) - RemovedWithFamily(w, fl)
  {
    hide RemovedFamilies, Dropped;
  }

  lemma RetainedInScope(w: World, fl: Flags, f: int)
    requires f in w.families && f !in RemovedFamilies(w, fl)
    ensures var roster := Roster(w, f, Dropped(w, fl));
            && (roster != [] || fl.retainEmpty) && (fl.activeOnly ==> FamilyActive(w, f, roster))
            && (fl.parishionersOnly ==> w.families[f].parishioner)
  {
  }

  /** A loaded member who is neither deceased, unless those are included, nor inactive when only active ones are. */
  predicate InScope(w: World, fl: Flags, id: int) {
    id in w.members && (w.members[id].deceased ==> fl.includeDeceased) && (fl.activeOnly ==> w.members[id].active)
  }

  ghost predicate HasMember(w: World, fl: Flags, f: int) {
    exists id :: InScope(w, fl, id) && w.members[id].family == f
  }

  ghost predicate HasActiveMember(w: World, fl: Flags, f: int) {
    exists id :: InScope(w, fl, id) && w.members[id].family == f && w.members[id].active
  }

  /**
   Who stays. A member is retained exactly when in scope and its family, if it was loaded, is retained; a
   family exactly when it has a member in scope, unless empty ones are retained, is active itself and
   through such a member when only active ones are, and is of the parish when only parishioners are.
   */
  lemma RetainedIff(w: World, fl: Flags)
    requires ValidWorld(w)
    ensures var members := Residents(w, Dropped(w, fl), RemovedFamilies(w, fl));
            var families := w.families - RemovedFamilies(w, fl);
            && (forall id :: id in members <==>
                  InScope(w, fl, id) && (w.members[id].family in w.families ==> w.members[id].family in families))
            && (forall f :: f in families <==>
                  && f in w.families && (fl.retainEmpty || HasMember(w, fl, f))
                  && (fl.activeOnly ==> !w.families[f].inGroupInactive && HasActiveMember(w, fl, f))
                  && (fl.parishionersOnly ==> w.families[f].parishioner))
  {
    forall f | f in w.families
      ensures f in RemovedFamilies(w, fl) <==>
                || (!fl.retainEmpty && !HasMember(w, fl, f))
                || (fl.activeOnly && (w.families[f].inGroupInactive || !HasActiveMember(w, fl, f)))
                || (fl.parishionersOnly && !w.families[f].parishioner)
    {
      FamilyScope(w, fl, f);
    }
    hide HasMember, HasActiveMember, Removes;
  }

  lemma FamilyScope(w: World, fl: Flags, f: int)
    requires ValidWorld(w) && f in w.families
    ensures Roster(w, f, Dropped(w, fl)) == [] <==> !HasMember(w, fl, f)
    ensures FamilyActive(w, f, Roster(w, f, Dropped(w, fl))) <==> !w.families[f].inGroupInactive && HasActiveMember(w, fl, f)
  {
    var roster := Roster(w, f, Dropped(w, fl));
    forall id ensures id in roster <==> InScope(w, fl, id) && w.members[id].family == f {
      RosterHas(w, f, Dropped(w, fl), id);
    }
    hide Roster, Dropped;
    if roster != [] {
      assert roster[0] in roster;
      assert InScope(w, fl, roster[0]) && w.members[roster[0]].family == f;
    }
    if id :| InScope(w, fl, id) && w.members[id].family == f {
      assert id in roster;
    }
    if id :| InScope(w, fl, id) && w.members[id].family == f && w.members[id].active {
      assert id in roster;
    }
    if id :| id in roster && id in w.members && w.members[id].active {
      assert InScope(w, fl, id) && w.members[id].family == f;
    }
  }

  /**
   A workgroup or ministry row is retained if and only if it names neither a removed family nor a member
   dropped on its own account, and a family-workgroup row if and only if it names no removed family.
   */
  lemma NoDanglingRows(w: World, fl: Flags, groups: seq<seq<Row>>, r: Row)
    ensures var gone, removed := Dropped(w, fl), RemovedFamilies(w, fl);
            && (Named(KeepRows(groups, gone, removed), r) <==> Named(groups, r) && r.family !in removed && r.member !in gone)
            && (Named(KeepRows(groups, {}, removed), r) <==> Named(groups, r) && r.family !in removed)
  {
    KeptRows(groups, Dropped(w, fl), RemovedFamilies(w, fl), r);
    KeptRows(groups, {}, RemovedFamilies(w, fl), r);
  }

  /** A row that still names a member removed with its family. */
  ghost predicate Dangles(w: World, fl: Flags, groups: seq<seq<Row>>) {
    exists r :: Named(KeepRows(groups, Dropped(w, fl), RemovedFamilies(w, fl)), r) && r.member in RemovedWithFamily(w, fl)
  }

  /** A loaded row names such a member together with a family that is not removed, or with none. */
  ghost predicate Misattributed(w: World, fl: Flags, groups: seq<seq<Row>>) {
    exists r :: Named(groups, r) && r.member in RemovedWithFamily(w, fl) && r.family !in RemovedFamilies(w, fl)
  }

  /** Every row's family id is the family of the member it names. */
  ghost predicate RowsAgree(w: World, groups: seq<seq<Row>>) {
    forall r :: Named(groups, r) && r.member in w.members ==> r.family == w.members[r.member].family
  }

  /**
   The second pass removes rows by family id only: a row naming a member removed with its family
   survives if and only if its own family id is not one of the removed families. So when rows' family
   ids agree with their members' families, no retained row names any removed member.
   */
  lemma DanglingIffMisattributed(w: World, fl: Flags, groups: seq<seq<Row>>)
    ensures Dangles(w, fl, groups) <==> Misattributed(w, fl, groups)
    ensures RowsAgree(w, groups) ==> !Dangles(w, fl, groups)
  {
    if Dangles(w, fl, groups) {
      var r :| Named(KeepRows(groups, Dropped(w, fl), RemovedFamilies(w, fl)), r) && r.member in RemovedWithFamily(w, fl);
      KeptRows(groups, Dropped(w, fl), RemovedFamilies(w, fl), r);
    }
    if Misattributed(w, fl, groups) {
      var r :| Named(groups, r) && r.member in RemovedWithFamily(w, fl) && r.family !in RemovedFamilies(w, fl);
      KeptRows(groups, Dropped(w, fl), RemovedFamilies(w, fl), r);
    }
  }

  /** A concrete load in which that happens: a row without a family id outlives its member. */
  lemma RowCanDangle()
    ensures var w := World([7], map[7 := Member(1, true, false)], [1], map[1 := Family(false, false)]);
            var fl := Flags(true, true, false, false);
            ValidWorld(w) && Dangles(w, fl, [[Row(7, -1)]])
  {
    var w := World([7], map[7 := Member(1, true, false)], [1], map[1 := Family(false, false)]);
    var fl := Flags(true, true, false, false);
    var r := Row(7, -1);
    assert Dropped(w, fl) == {};
    assert 1 in RemovedFamilies(w, fl) && -1 !in RemovedFamilies(w, fl);
    assert 7 in RemovedWithFamily(w, fl);
    assert [[r]][0][0] == r;
    assert Named([[r]], r);
    DanglingIffMisattributed(w, fl, [[r]]);
  }
}
