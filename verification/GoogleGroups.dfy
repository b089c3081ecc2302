/**
 Google Group reconciliation (src/parishkit/pk_sync_ps_to_ggroup.py): merging the desired members,
 diffing them against the group, and applying the plan to the group.
 */
module GoogleGroups {
  import opened Lists

  // ----- comparable addresses -----

  /** The index of the first `c`, or the length. */
  function Find(s: string, c: char): (n: nat)
    ensures n <= |s| && c !in s[..n] && (n < |s| ==> s[n] == c)
  {
    if s == [] || s[0] == c then 0
    else
      var n := 1 + Find(s[1..], c);
      assert s[..n] == [s[0]] + s[1..][..n - 1];
      n
  }

  function Without(s: string, c: char): string {
    Filter(s, (x: char) => x != c)
  }

  /** `normalize_email`: plus-tags go for Google-hosted domains, dots for consumer Gmail only. */
  function Normalize(email: string, domains: set<string>): string {
    var e := LowerAll(email);
    var at := Find(e, '@');
    if at == |e| then e else
    var local, domain := e[..at], e[at + 1..];
    if domain !in domains then e else
    var untagged := local[..Find(local, '+')];
    (if domain == "gmail.com" || domain == "googlemail.com" then Without(untagged, '.') else untagged) + "@" + domain
  }

  lemma {:induction false} FindAt(s: string, c: char, n: nat)
    requires n <= |s| && c !in s[..n] && (n < |s| ==> s[n] == c)
    ensures Find(s, c) == n
  {
    if n > 0 {
      assert s[..n][0] == s[0] && s[1..][..n - 1] == s[..n][1..];
      FindAt(s[1..], c, n - 1);
    }
  }

  predicate IsConsumerGmail(domain: string) {
    domain == "gmail.com" || domain == "googlemail.com"
  }

  /** A local part without a plus, and a tag: nothing, or a plus and more. */
  predicate Tagged(local: string, tag: string) {
    '@' !in local && '+' !in local && '@' !in tag && (tag != "" ==> tag[0] == '+')
  }

  lemma LowerKeeps(s: string, c: char)
    requires c == '@' || c == '+'
    ensures c in LowerAll(s) <==> c in s
  {
    LowerIs(s);
    if c in s {
      var i :| 0 <= i < |s| && s[i] == c;
      assert LowerAll(s)[i] == c;
    }
    if c in LowerAll(s) {
      var i :| 0 <= i < |s| && LowerAll(s)[i] == c;
      assert s[i] == c;
    }
  }

  lemma NormalizeLowered(local: string, tag: string, domain: string, domains: set<string>)
    requires Tagged(local, tag) && LowerAll(local + tag + "@" + domain) == local + tag + "@" + domain
    ensures Normalize(local + tag + "@" + domain, domains)
         == if domain !in domains then local + tag + "@" + domain
            else (if IsConsumerGmail(domain) then Filter(local, (x: char) => x != '.') else local) + "@" + domain
  {
    hide LowerAll, Filter;
    var e := local + tag + "@" + domain;
    var n := |local + tag|;
    assert e[..n] == local + tag && e[n] == '@' && e[n + 1..] == domain;
    FindAt(e, '@', n);
    assert (local + tag)[..|local|] == local && (tag != "" ==> (local + tag)[|local|] == '+');
    FindAt(local + tag, '+', |local|);
  }

  lemma LowerTagged(local: string, tag: string, domain: string)
    requires Tagged(local, tag)
    ensures Tagged(LowerAll(local), LowerAll(tag))
    ensures LowerAll(local + tag + "@" + domain) == LowerAll(local) + LowerAll(tag) + "@" + LowerAll(domain)
    ensures LowerAll(LowerAll(local) + LowerAll(tag) + "@" + LowerAll(domain)) == LowerAll(local) + LowerAll(tag) + "@" + LowerAll(domain)
  {
    LowerKeeps(local, '@');
    LowerKeeps(local, '+');
    LowerKeeps(tag, '@');
    LowerOfAppend(local + tag + "@", domain);
    LowerOfAppend(local + tag, "@");
    LowerOfAppend(local, tag);
  }

  /**
   What an address is compared as. Case never matters. Outside the Google-hosted domains nothing else is
   dropped; inside them the tag is, and for the two consumer Gmail domains only, so are the dots.
   */
  lemma NormalizeIs(local: string, tag: string, domain: string, domains: set<string>)
    requires Tagged(local, tag)
    ensures var l, t, d := LowerAll(local), LowerAll(tag), LowerAll(domain);
            Normalize(local + tag + "@" + domain, domains)
            == if d !in domains then l + t + "@" + d
               else if d == "gmail.com" || d == "googlemail.com" then Filter(l, (x: char) => x != '.') + "@" + d
               else l + "@" + d
  {
    hide LowerAll, Filter;
    LowerTagged(local, tag, domain);
    var l, t, d := LowerAll(local), LowerAll(tag), LowerAll(domain);
    OnlyLoweredMatters(local + tag + "@" + domain, l + t + "@" + d, domains);
    NormalizeLowered(l, t, d, domains);
  }

  lemma OnlyLoweredMatters(a: string, b: string, domains: set<string>)
    requires LowerAll(a) == LowerAll(b)
    ensures Normalize(a, domains) == Normalize(b, domains)
  {
  }

  lemma NormalizeWithoutAt(email: string, domains: set<string>)
    requires '@' !in email
    ensures Normalize(email, domains) == LowerAll(email)
  {
    LowerKeeps(email, '@');
    var e := LowerAll(email);
    assert e[..|e|] == e;
    FindAt(e, '@', |e|);
  }

  /** Two addresses at Google-hosted domains are the same exactly when domain and untagged local part are. */
  lemma SameAddressIff(l1: string, t1: string, d1: string, l2: string, t2: string, d2: string, domains: set<string>)
    requires Tagged(l1, t1) && Tagged(l2, t2) && LowerAll(d1) in domains && LowerAll(d2) in domains
    ensures Same(l1 + t1 + "@" + d1, l2 + t2 + "@" + d2, Comparable(domains)) <==>
              && LowerAll(d1) == LowerAll(d2)
              && (if LowerAll(d1) == "gmail.com" || LowerAll(d1) == "googlemail.com"
                  then Filter(LowerAll(l1), (x: char) => x != '.') == Filter(LowerAll(l2), (x: char) => x != '.')
                  else LowerAll(l1) == LowerAll(l2))
  {
    NormalizeIs(l1, t1, d1, domains);
    NormalizeIs(l2, t2, d2, domains);
    LowerKeeps(l1, '@');
    LowerKeeps(l2, '@');
    var dots := (x: char) => x != '.';
    FilterMembers(LowerAll(l1), dots, '@');
    FilterMembers(LowerAll(l2), dots, '@');
    var s1 := if IsConsumerGmail(LowerAll(d1)) then Filter(LowerAll(l1), dots) else LowerAll(l1);
    var s2 := if IsConsumerGmail(LowerAll(d2)) then Filter(LowerAll(l2), dots) else LowerAll(l2);
    hide LowerAll, Filter;
    if s1 + "@" + LowerAll(d1) == s2 + "@" + LowerAll(d2) {
      FirstAt(s1, LowerAll(d1), s2, LowerAll(d2));
    }
  }

  /** The first `@` splits a string in one way only. */
  lemma FirstAt(s1: string, d1: string, s2: string, d2: string)
    requires '@' !in s1 && '@' !in s2 && s1 + "@" + d1 == s2 + "@" + d2
    ensures s1 == s2 && d1 == d2
  {
    var e := s1 + "@" + d1;
    assert e[|s1|] == '@' && e[|s2|] == '@' && e[..|s1|] == s1 && e[..|s2|] == s2;
    FindAt(e, '@', |s1|);
    FindAt(e, '@', |s2|);
    assert e[|s1| + 1..] == d1 && e[|s2| + 1..] == d2;
  }

  /** What makes two addresses the same; everything below holds for any such function. */
  type Norm = string -> string

  /** The comparison used for a given set of Google-hosted domains. */
  function Comparable(domains: set<string>): Norm {
    (email: string) => Normalize(email, domains)
  }

  // ----- desired members -----

  datatype Desired = Desired(email: string, leader: bool, names: seq<string>)

  /** One source of membership: an address, whether it leads, and a display name if any. */
  datatype Source = Source(email: string, leader: bool, name: string)

  function NamesOf(x: Source): seq<string> {
    if x.name == "" then [] else [x.name]
  }

  /** The index of the desired member with this comparable address, or the length. */
  function Slot(found: seq<Desired>, key: string, norm: Norm): (n: nat)
    ensures n <= |found|
  {
    if found == [] || norm(found[0].email) == key then 0 else 1 + Slot(found[1..], key, norm)
  }

  lemma {:induction false} SlotIs(found: seq<Desired>, key: string, norm: Norm)
    ensures var n := Slot(found, key, norm);
            && (n < |found| ==> norm(found[n].email) == key)
            && forall i :: 0 <= i < n ==> norm(found[i].email) != key
  {
    if found != [] {
      SlotIs(found[1..], key, norm);
    }
  }

  function Combined(d: Desired, x: Source): Desired {
    d.(leader := d.leader || x.leader, names := d.names + NamesOf(x))
  }

  /** `add_desired_member`: insert, or merge leadership and name into the entry already there. */
  function Merge(found: seq<Desired>, x: Source, norm: Norm): seq<Desired> {
    var email := LowerAll(x.email);
    var n := Slot(found, norm(email), norm);
    if n < |found| then found[n := Combined(found[n], x)]
    else found + [Desired(email, x.leader, NamesOf(x))]
  }

  function MergeAll(sources: seq<Source>, norm: Norm): seq<Desired> {
    if sources == [] then [] else
    Merge(MergeAll(sources[..|sources| - 1], norm), sources[|sources| - 1], norm)
  }

  /** The dictionary's values, in insertion order, are the merged members, under their comparable addresses. */
  ghost predicate Tabulates(order: seq<string>, found: map<string, Desired>, merged: seq<Desired>, norm: Norm) {
    && |order| == |merged| && (forall key :: key in found <==> key in order)
    && (forall i, j :: 0 <= i < j < |order| ==> order[i] != order[j])
    && (forall i :: 0 <= i < |order| ==> norm(merged[i].email) == order[i] && order[i] in found && found[order[i]] == merged[i])
  }

  lemma MergeTabulates(order: seq<string>, found: map<string, Desired>, merged: seq<Desired>, x: Source, norm: Norm)
    requires Tabulates(order, found, merged, norm)
    ensures var email := LowerAll(x.email);
            var key := norm(email);
            if key in found then Tabulates(order, found[key := Combined(found[key], x)], Merge(merged, x, norm), norm)
            else Tabulates(order + [key], found[key := Desired(email, x.leader, NamesOf(x))], Merge(merged, x, norm), norm)
  {
    hide LowerAll, NamesOf, Slot;
    var key := norm(LowerAll(x.email));
    SlotIs(merged, key, norm);
    var slot := Slot(merged, key, norm);
    if key in found {
      var i :| 0 <= i < |order| && order[i] == key;
      assert norm(merged[i].email) == key;
      assert slot == i;
    } else {
      assert slot == |merged|;
    }
  }

  /** `desired_members` over its membership sources: a dictionary by comparable address, merged in place. */
  method DesiredMembers(sources: seq<Source>, norm: Norm) returns (members: seq<Desired>)
    ensures members == MergeAll(sources, norm)
  {
    var order: seq<string>, found: map<string, Desired> := [], map[];
    for n := 0 to |sources|
      invariant Tabulates(order, found, MergeAll(sources[..n], norm), norm)
    {
      assert sources[..n + 1][..n] == sources[..n];
      var x := sources[n];
      var email := LowerAll(x.email);
      var key := norm(email);
      MergeTabulates(order, found, MergeAll(sources[..n], norm), x, norm);
      if key in found {
        found := found[key := Combined(found[key], x)];
      } else {
        order, found := order + [key], found[key := Desired(email, x.leader, NamesOf(x))];
      }
    }
    assert sources[..|sources|] == sources;
    members := seq(|order|, i requires 0 <= i < |order| && order[i] in found => found[order[i]]);
  }

  // ----- the diff -----

  datatype Entry = Entry(id: string, email: string, role: string)

  datatype Action =
    | Add(email: string, role: string)
    | ChangeRole(id: string, role: string)
    | Delete(id: string)

  function RoleOf(d: Desired): string {
    if d.leader then "OWNER" else "MEMBER"
  }

  predicate Same(a: string, b: string, norm: Norm) {
    norm(a) == norm(b)
  }

  /** The first current member at this address, or the length. */
  function FirstMatch(email: string, current: seq<Entry>, norm: Norm): (n: nat)
    ensures n <= |current|
  {
    if current == [] || Same(email, current[0].email, norm) then 0 else 1 + FirstMatch(email, current[1..], norm)
  }

  lemma {:induction false} FirstMatchIs(email: string, current: seq<Entry>, norm: Norm)
    ensures var n := FirstMatch(email, current, norm);
            && (n < |current| ==> Same(email, current[n].email, norm))
            && forall i :: 0 <= i < n ==> !Same(email, current[i].email, norm)
  {
    if current != [] {
      FirstMatchIs(email, current[1..], norm);
    }
  }

  function PlanOne(d: Desired, current: seq<Entry>, norm: Norm): seq<Action> {
    var n := FirstMatch(d.email, current, norm);
    if n == |current| then [Add(d.email, RoleOf(d))]
    else if current[n].role != RoleOf(d) then [ChangeRole(current[n].id, RoleOf(d))]
    else []
  }

  /** Adds and role changes, in the order of the desired members. */
  function Changes(desired: seq<Desired>, current: seq<Entry>, norm: Norm): seq<Action> {
    if desired == [] then [] else
    Changes(desired[..|desired| - 1], current, norm) + PlanOne(desired[|desired| - 1], current, norm)
  }

  predicate Matched(i: nat, desired: seq<Desired>, current: seq<Entry>, norm: Norm) {
    exists j :: 0 <= j < |desired| && FirstMatch(desired[j].email, current, norm) == i
  }

  /** Deletes of the first `n` current members that no desired member matched. */
  function Deletes(n: nat, desired: seq<Desired>, current: seq<Entry>, norm: Norm): seq<Action>
    requires n <= |current|
  {
    if n == 0 then [] else
    Deletes(n - 1, desired, current, norm)
    + if Matched(n - 1, desired, current, norm) then [] else [Delete(current[n - 1].id)]
  }

  function Plan(desired: seq<Desired>, current: seq<Entry>, norm: Norm): seq<Action> {
    Changes(desired, current, norm) + Deletes(|current|, desired, current, norm)
  }

  lemma MatchedNext(i: nat, desired: seq<Desired>, j: nat, current: seq<Entry>, norm: Norm)
    requires j < |desired|
    ensures Matched(i, desired[..j + 1], current, norm)
       <==> Matched(i, desired[..j], current, norm) || i == FirstMatch(desired[j].email, current, norm)
  {
    var more := desired[..j + 1];
    assert more[j] == desired[j];
    if Matched(i, desired[..j], current, norm) {
      var k :| 0 <= k < j && FirstMatch(desired[..j][k].email, current, norm) == i;
      assert more[k] == desired[..j][k];
    }
    if Matched(i, more, current, norm) {
      var k :| 0 <= k <= j && FirstMatch(more[k].email, current, norm) == i;
      assert k < j ==> more[k] == desired[..j][k];
    }
  }

  /** The adds and role changes, and the indexes they matched. */
  method MatchDesired(desired: seq<Desired>, current: seq<Entry>, norm: Norm)
    returns (actions: seq<Action>, matched: set<nat>)
    ensures actions == Changes(desired, current, norm)
    ensures forall i: nat :: i < |current| ==> (i in matched <==> Matched(i, desired, current, norm))
  {
    actions, matched := [], {};
    for j := 0 to |desired|
      invariant actions == Changes(desired[..j], current, norm)
      invariant forall i: nat :: i < |current| ==> (i in matched <==> Matched(i, desired[..j], current, norm))
    {
      var d := desired[j];
      assert desired[..j + 1][..j] == desired[..j];
      var n := FirstMatch(d.email, current, norm);
      if n == |current| {
        actions := actions + [Add(d.email, RoleOf(d))];
      } else {
        matched := matched + {n};
        if current[n].role != RoleOf(d) {
          actions := actions + [ChangeRole(current[n].id, RoleOf(d))];
        }
      }
      forall i: nat | i < |current| ensures i in matched <==> Matched(i, desired[..j + 1], current, norm) {
        MatchedNext(i, desired, j, current, norm);
      }
    }
    assert desired[..|desired|] == desired;
  }

  /** `compute_actions` in the source's form: the matched plan first, then a delete for everyone else. */
  method ComputeActions(desired: seq<Desired>, current: seq<Entry>, norm: Norm) returns (actions: seq<Action>)
    ensures actions == Plan(desired, current, norm)
  {
    var matched;
    actions, matched := MatchDesired(desired, current, norm);
    ghost var changes := actions;
    for i := 0 to |current|
      invariant actions == changes + Deletes(i, desired, current, norm)
    {
      if i !in matched {
        actions := actions + [Delete(current[i].id)];
      }
    }
  }
}
