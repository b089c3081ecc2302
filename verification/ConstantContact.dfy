/**
 Constant Contact list synchronization (src/parishkit/pk_sync_ps_to_cc.py and
 src/parishkit/constant_contact.py): filtering unsubscribed addresses, diffing each configured list,
 and executing the plan as at most one sign-up POST and one replacing PUT per contact.
 */
module ConstantContact {
  import opened Lists

  /** A contact, by its list ids as Constant Contact returns them. */
  datatype Contact = Contact(lists: seq<string>)

  /** The account's contacts by lower-case address. */
  type Account = map<string, Contact>

  /** For each configured mapping, in order, its target list id. */
  type Targets = seq<string>

  datatype Action =
    | Create(email: string)
    | Subscribe(email: string, listId: string)
    | Unsubscribe(email: string, listId: string)
    | Rename(email: string)

  predicate OnList(account: Account, email: string, listId: string) {
    email in account && listId in account[email].lists
  }

  /** `link_cc_data`: the addresses of a list's contacts. */
  function Current(account: Account, listId: string): set<string> {
    set email | email in account && listId in account[email].lists
  }

  // ----- sorted sets -----

  ghost predicate IsLeast(s: set<string>, m: string) {
    m in s && forall x :: x in s ==> Leq(m, x)
  }

  lemma LeastOfMore(s: set<string>, y: string, m: string)
    requires y in s && IsLeast(s - {y}, m)
    ensures IsLeast(s, m) || IsLeast(s, y)
  {
    hide Leq;
    LeqTotal(m, y);
    LeqTotal(y, y);
    forall x | x in s ensures Leq(m, y) ==> Leq(m, x) {
      assert x == y || x in s - {y};
    }
    forall x | x in s ensures !Leq(m, y) ==> Leq(y, x) {
      if !Leq(m, y) && x != y {
        assert x in s - {y};
        LeqTransitive(y, m, x);
      }
    }
  }

  lemma {:induction false} LeastExists(s: set<string>)
    requires s != {}
    ensures exists m :: IsLeast(s, m)
    decreases |s|
  {
    var y :| y in s;
    if s == {y} {
      LeqTotal(y, y);
      assert IsLeast(s, y);
    } else {
      LeastExists(s - {y});
      var m :| IsLeast(s - {y}, m);
      hide IsLeast;
      LeastOfMore(s, y, m);
    }
  }

  lemma LeastIsUnique(s: set<string>, a: string, b: string)
    requires IsLeast(s, a) && IsLeast(s, b)
    ensures a == b
  {
    LeqAntisymmetric(a, b);
  }

  function Least(s: set<string>): (m: string)
    requires s != {}
    ensures m in s
  {
    LeastExists(s);
    assert exists m :: m in s && forall x :: x in s ==> Leq(m, x) by {
      var m :| IsLeast(s, m);
    }
    assert forall a, b :: a in s && b in s && (forall x :: x in s ==> Leq(a, x)) && (forall x :: x in s ==> Leq(b, x)) ==> a == b by {
      forall a, b | a in s && b in s && (forall x :: x in s ==> Leq(a, x)) && (forall x :: x in s ==> Leq(b, x)) ensures a == b {
        LeastIsUnique(s, a, b);
      }
    }
    var m :| m in s && forall x :: x in s ==> Leq(m, x);
    m
  }

  /** `sorted(s)` of a set. */
  function Sorted(s: set<string>): seq<string> {
    if s == {} then [] else [Least(s)] + Sorted(s - {Least(s)})
  }

  lemma {:induction false} SortedMembers(s: set<string>, x: string)
    ensures x in Sorted(s) <==> x in s
  {
    if s != {} {
      SortedMembers(s - {Least(s)}, x);
    }
  }

  // ----- the plan -----

  function UnionOf(desired: seq<set<string>>): set<string> {
    if desired == [] then {} else desired[0] + UnionOf(desired[1..])
  }

  lemma {:induction false} UnionHas(desired: seq<set<string>>, email: string)
    ensures email in UnionOf(desired) <==> exists i :: 0 <= i < |desired| && email in desired[i]
  {
    if desired != [] {
      UnionHas(desired[1..], email);
      if email in UnionOf(desired[1..]) {
        var i :| 0 <= i < |desired[1..]| && email in desired[1..][i];
        assert email in desired[i + 1];
      }
    }
  }

  function Creating(): string -> Action { (email: string) => Create(email) }

  function Renaming(): string -> Action { (email: string) => Rename(email) }

  function Subscribing(listId: string): string -> Action { (email: string) => Subscribe(email, listId) }

  function Unsubscribing(listId: string): string -> Action { (email: string) => Unsubscribe(email, listId) }

  function Creates(account: Account, desired: seq<set<string>>): seq<Action> {
    Map(Creating(), Sorted(UnionOf(desired) - account.Keys))
  }

  function OneList(account: Account, listId: string, wanted: set<string>): seq<Action> {
    Map(Subscribing(listId), Sorted(wanted - Current(account, listId)))
    + Map(Unsubscribing(listId), Sorted(Current(account, listId) - wanted))
  }

  /** Subscribe and unsubscribe actions of the first `n` mappings. */
  function ListPlan(account: Account, targets: Targets, desired: seq<set<string>>, n: nat): seq<Action>
    requires n <= |targets| == |desired|
  {
    if n == 0 then [] else ListPlan(account, targets, desired, n - 1) + OneList(account, targets[n - 1], desired[n - 1])
  }

  /** All actions of one run; `renames` are the contacts whose names are to be updated. */
  function Plan(account: Account, targets: Targets, desired: seq<set<string>>, renames: seq<string>): seq<Action>
    requires |targets| == |desired|
  {
    Creates(account, desired) + ListPlan(account, targets, desired, |targets|) + Map(Renaming(), renames)
  }

  lemma MapNext<T, U>(f: T -> U, s: seq<T>, n: nat)
    requires n < |s|
    ensures Map(f, s[..n + 1]) == Map(f, s[..n]) + [f(s[n])]
  {
  }

  /** The inner loop of the diff: one action per address, in order. */
  method Emit(emails: seq<string>, action: string -> Action, before: seq<Action>) returns (actions: seq<Action>)
    ensures actions == before + Map(action, emails)
  {
    actions := before;
    for n := 0 to |emails|
      invariant actions == before + Map(action, emails[..n])
    {
      MapNext(action, emails, n);
      actions := actions + [action(emails[n])];
    }
    assert emails[..|emails|] == emails;
  }

  method EmitList(account: Account, listId: string, wanted: set<string>, before: seq<Action>) returns (actions: seq<Action>)
    ensures actions == before + OneList(account, listId, wanted)
  {
    hide Map, Sorted, Current;
    var current := Current(account, listId);
    actions := Emit(Sorted(wanted - current), Subscribing(listId), before);
    actions := Emit(Sorted(current - wanted), Unsubscribing(listId), actions);
  }

  lemma NoRenames()
    ensures Map(Renaming(), []) == []
  {
  }

  /** `compute_all_actions`, the membership plan, in the source's form. */
  method ComputeAllActions(account: Account, targets: Targets, desired: seq<set<string>>) returns (actions: seq<Action>)
    requires |targets| == |desired|
    ensures actions == Plan(account, targets, desired, [])
  {
    hide Map, Sorted, Current, UnionOf;
    actions := Emit(Sorted(UnionOf(desired) - account.Keys), Creating(), []);
    for n := 0 to |targets|
      invariant actions == Creates(account, desired) + ListPlan(account, targets, desired, n)
    {
      actions := EmitList(account, targets[n], desired[n], actions);
    }
    NoRenames();
  }

  /** The action is one that the difference between the account and the desired sets calls for. */
  predicate Due(account: Account, targets: Targets, desired: seq<set<string>>, n: nat, a: Action)
    requires n <= |targets| == |desired|
  {
    match a
    case Create(email) => email in UnionOf(desired) && email !in account
    case Subscribe(email, l) => exists i :: 0 <= i < n && targets[i] == l && email in desired[i] && !OnList(account, email, l)
    case Unsubscribe(email, l) => exists i :: 0 <= i < n && targets[i] == l && email !in desired[i] && OnList(account, email, l)
    case Rename(_) => false
  }

  lemma MapHas<T, U>(f: T -> U, s: seq<T>, y: U)
    ensures y in Map(f, s) <==> exists x :: x in s && f(x) == y
  {
    if y in Map(f, s) {
      var i :| 0 <= i < |s| && Map(f, s)[i] == y;
      assert s[i] in s;
    }
    if exists x :: x in s && f(x) == y {
      var x :| x in s && f(x) == y;
      var i :| 0 <= i < |s| && s[i] == x;
      assert Map(f, s)[i] == y;
    }
  }

  lemma OneListHas(account: Account, listId: string, wanted: set<string>, a: Action)
    ensures a in OneList(account, listId, wanted) <==>
            match a
            case Subscribe(email, l) => l == listId && email in wanted && !OnList(account, email, l)
            case Unsubscribe(email, l) => l == listId && email !in wanted && OnList(account, email, l)
            case _ => false
  {
    var subs, unsubs := wanted - Current(account, listId), Current(account, listId) - wanted;
    var f := Subscribing(listId);
    var g := Unsubscribing(listId);
    MapHas(f, Sorted(subs), a);
    MapHas(g, Sorted(unsubs), a);
    SortedMembers(subs, a.email);
    SortedMembers(unsubs, a.email);
    assert a in OneList(account, listId, wanted) <==> a in Map(f, Sorted(subs)) || a in Map(g, Sorted(unsubs));
    if a.Subscribe? && a.listId == listId {
      assert f(a.email) == a;
    }
    if a.Unsubscribe? && a.listId == listId {
      assert g(a.email) == a;
    }
  }

  lemma {:induction false} ListPlanHas(account: Account, targets: Targets, desired: seq<set<string>>, n: nat, a: Action)
    requires n <= |targets| == |desired|
    ensures a in ListPlan(account, targets, desired, n) <==> !a.Create? && Due(account, targets, desired, n, a)
  {
    hide OneList, OnList, UnionOf;
    if n > 0 {
      ListPlanHas(account, targets, desired, n - 1, a);
      OneListHas(account, targets[n - 1], desired[n - 1], a);
    }
  }

  lemma PlanHas(account: Account, targets: Targets, desired: seq<set<string>>, renames: seq<string>, a: Action)
    requires |targets| == |desired|
    ensures a in Plan(account, targets, desired, renames)
       <==> Due(account, targets, desired, |targets|, a) || (a.Rename? && a.email in renames)
  {
    ListPlanHas(account, targets, desired, |targets|, a);
    var f := Creating();
    var g := Renaming();
    MapHas(f, Sorted(UnionOf(desired) - account.Keys), a);
    SortedMembers(UnionOf(desired) - account.Keys, a.email);
    MapHas(g, renames, a);
    if a.Create? {
      assert f(a.email) == a;
    }
    if a.Rename? {
      assert g(a.email) == a;
    }
  }

  /** Addresses are emitted in order. */
  lemma {:induction false} SortedIsAscending(s: set<string>)
    ensures forall i, j :: 0 <= i < j < |Sorted(s)| ==> Leq(Sorted(s)[i], Sorted(s)[j]) && Sorted(s)[i] != Sorted(s)[j]
  {
    if s != {} {
      var m := Least(s);
      SortedIsAscending(s - {m});
      forall j | 0 <= j < |Sorted(s - {m})| ensures Leq(m, Sorted(s - {m})[j]) && m != Sorted(s - {m})[j] {
        SortedMembers(s - {m}, Sorted(s - {m})[j]);
      }
    }
  }
}
