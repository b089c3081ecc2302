/**
 Executing a Constant Contact plan: the account ends with every configured list equal to its desired
 set, every other list as it was, and nothing left for a second run to do, exactly when no contact to
 be removed carries a list twice.
 */
module ConstantContactSync {
  import opened Results
  import opened Lists
  import opened ConstantContact

  // ----- one contact -----

  /** `list.remove`: the first occurrence, if any. */
  function Remove(lists: seq<string>, l: string): seq<string> {
    if lists == [] then [] else if lists[0] == l then lists[1..] else [lists[0]] + Remove(lists[1..], l)
  }

  ghost predicate NoRepeats(lists: seq<string>) {
    forall i, j :: 0 <= i < j < |lists| ==> lists[i] != lists[j]
  }

  /** The lists named by a contact's subscribe actions. */
  function PostLists(actions: seq<Action>): seq<string> {
    if actions == [] then []
    else (if actions[0].Subscribe? then [actions[0].listId] else []) + PostLists(actions[1..])
  }

  /** The contact's lists after its unsubscribe actions. */
  function Unsubscribed(lists: seq<string>, actions: seq<Action>): seq<string>
    decreases |actions|
  {
    if actions == [] then lists
    else Unsubscribed(if actions[0].Unsubscribe? then Remove(lists, actions[0].listId) else lists, actions[1..])
  }

  /** Appends the lists that are not there yet. */
  function FoldIn(lists: seq<string>, more: seq<string>): seq<string>
    decreases |more|
  {
    if more == [] then lists else FoldIn(if more[0] in lists then lists else lists + [more[0]], more[1..])
  }

  predicate NeedsPost(actions: seq<Action>) {
    exists a :: a in actions && (a.Create? || a.Subscribe?)
  }

  predicate NeedsPut(actions: seq<Action>) {
    exists a :: a in actions && (a.Unsubscribe? || a.Rename?)
  }

  /** The PUT body's lists, with the sign-up's lists folded in when the contact needs both. */
  function PutLists(loaded: Contact, actions: seq<Action>): seq<string> {
    var kept := Unsubscribed(loaded.lists, actions);
    if NeedsPost(actions) then FoldIn(kept, PostLists(actions)) else kept
  }

  /** The sign-up form adds lists to a contact, creating it if it does not exist. */
  function Post(live: Account, email: string, lists: seq<string>): Account {
    var contact := if email in live then live[email] else Contact([]);
    live[email := contact.(lists := FoldIn(contact.lists, lists))]
  }

  /** The update replaces a contact's lists. */
  function Put(live: Account, email: string, lists: seq<string>): Account {
    if email in live then live[email := live[email].(lists := lists)] else live
  }

  /** One contact's writes: the bodies are built from the account as loaded, and sent to the live one. */
  function Perform(live: Account, loaded: Account, email: string, actions: seq<Action>): Account
    requires NeedsPut(actions) ==> email in loaded
  {
    var posted := if NeedsPost(actions) then Post(live, email, PostLists(actions)) else live;
    if NeedsPut(actions) then Put(posted, email, PutLists(loaded[email], actions)) else posted
  }

  // ----- all contacts -----

  function ForEmail(email: string): Action -> bool {
    (a: Action) => a.email == email
  }

  /** The addresses acted on, each once, in the order of their first action. */
  function Emails(actions: seq<Action>): seq<string> {
    if actions == [] then [] else
    var before := Emails(actions[..|actions| - 1]);
    var email := actions[|actions| - 1].email;
    if email in before then before else before + [email]
  }

  /** Updates and unsubscriptions only ever name contacts that were loaded. */
  predicate Loaded(loaded: Account, actions: seq<Action>) {
    forall a :: a in actions && (a.Unsubscribe? || a.Rename?) ==> a.email in loaded
  }

  lemma LoadedFor(loaded: Account, actions: seq<Action>, email: string)
    requires Loaded(loaded, actions)
    ensures NeedsPut(Filter(actions, ForEmail(email))) ==> email in loaded
  {
    var mine := Filter(actions, ForEmail(email));
    if NeedsPut(mine) {
      var a :| a in mine && (a.Unsubscribe? || a.Rename?);
      FilterMembers(actions, ForEmail(email), a);
    }
  }

  /** `execute_actions` over the first `n` addresses. */
  function Execute(live: Account, loaded: Account, actions: seq<Action>, emails: seq<string>, n: nat): Account
    requires n <= |emails| && Loaded(loaded, actions)
  {
    if n == 0 then live else
    var email := emails[n - 1];
    LoadedFor(loaded, actions, email);
    Perform(Execute(live, loaded, actions, emails, n - 1), loaded, email, Filter(actions, ForEmail(email)))
  }

  function Executed(account: Account, actions: seq<Action>): Account
    requires Loaded(account, actions)
  {
    Execute(account, account, actions, Emails(actions), |Emails(actions)|)
  }

  // ----- what one contact's writes achieve -----

  lemma {:induction false} PostListsHas(actions: seq<Action>, l: string)
    ensures l in PostLists(actions) <==> exists a :: a in actions && a.Subscribe? && a.listId == l
  {
    if actions != [] {
      PostListsHas(actions[1..], l);
      assert actions == [actions[0]] + actions[1..];
    }
  }

  lemma {:induction false} FoldInHas(lists: seq<string>, more: seq<string>, l: string)
    ensures l in FoldIn(lists, more) <==> l in lists || l in more
    decreases |more|
  {
    if more != [] {
      FoldInHas(if more[0] in lists then lists else lists + [more[0]], more[1..], l);
      assert more == [more[0]] + more[1..];
    }
  }

  lemma {:induction false} RemoveCount(lists: seq<string>, gone: string, l: string)
    ensures var n := multiset(lists)[l];
            multiset(Remove(lists, gone))[l] == if l == gone && n > 0 then n - 1 else n
  {
    if lists != [] {
      RemoveCount(lists[1..], gone, l);
      assert lists == [lists[0]] + lists[1..];
    }
  }

  /** How many of these actions unsubscribe from the list. */
  function Times(actions: seq<Action>, l: string): nat {
    if actions == [] then 0
    else (if actions[0].Unsubscribe? && actions[0].listId == l then 1 else 0) + Times(actions[1..], l)
  }

  /** Every unsubscribe action takes one copy of its list away, while there is one. */
  lemma {:induction false} UnsubscribedCount(lists: seq<string>, actions: seq<Action>, l: string)
    ensures var n, k := multiset(lists)[l], Times(actions, l);
            multiset(Unsubscribed(lists, actions))[l] == if k <= n then n - k else 0
    decreases |actions|
  {
    if actions != [] {
      var a := actions[0];
      if a.Unsubscribe? {
        RemoveCount(lists, a.listId, l);
      }
      UnsubscribedCount(if a.Unsubscribe? then Remove(lists, a.listId) else lists, actions[1..], l);
    }
  }

  lemma {:induction false} NoTimes(actions: seq<Action>, l: string)
    requires !NeedsPut(actions)
    ensures Times(actions, l) == 0
  {
    if actions != [] {
      assert actions[0] in actions;
      assert forall a :: a in actions[1..] ==> a in actions;
      NoTimes(actions[1..], l);
    }
  }

  predicate Subscribes(actions: seq<Action>, l: string) {
    exists a :: a in actions && a.Subscribe? && a.listId == l
  }

  /** How often the contact's list ids name the list. */
  function Copies(account: Account, email: string, l: string): nat {
    if email in account then multiset(account[email].lists)[l] else 0
  }

  /**
   One contact ends on the lists it subscribed to, and on those that its list ids name more often than
   it has unsubscribe actions; nobody else changes.
   */
  lemma PerformLists(live: Account, loaded: Account, email: string, actions: seq<Action>, l: string)
    requires NeedsPut(actions) ==> email in loaded
    requires SameAt(live, loaded, email)
    ensures OnList(Perform(live, loaded, email, actions), email, l)
       <==> Subscribes(actions, l) || Copies(live, email, l) > Times(actions, l)
    ensures forall e :: e != email ==> (e in Perform(live, loaded, email, actions) <==> e in live)
    ensures forall e :: e != email && e in live ==> Perform(live, loaded, email, actions)[e] == live[e]
  {
    hide Times, Unsubscribed, FoldIn, PostLists, NeedsPut;
    var lists := if email in live then live[email].lists else [];
    assert l in lists <==> multiset(lists)[l] > 0;
    PostListsHas(actions, l);
    FoldInHas(lists, PostLists(actions), l);
    UnsubscribedCount(lists, actions, l);
    var left := Unsubscribed(lists, actions);
    assert l in left <==> multiset(left)[l] > 0;
    FoldInHas(left, PostLists(actions), l);
    if !NeedsPut(actions) {
      NoTimes(actions, l);
    }
  }

  /**
   What the writes do when the live contact is no longer as it was loaded. An update, for an unsubscription
   or a new name, replaces its lists by the loaded ones with the changes; without one, the sign-up only
   adds lists. The contact exists afterwards if it did before, or was created or subscribed.
   */
  lemma PerformOnLive(live: Account, loaded: Account, email: string, actions: seq<Action>, l: string)
    requires NeedsPut(actions) ==> email in loaded
    ensures var done := Perform(live, loaded, email, actions);
            var signsUp := exists a :: a in actions && (a.Create? || a.Subscribe?);
            var updates := exists a :: a in actions && (a.Unsubscribe? || a.Rename?);
            && (email in done <==> email in live || signsUp)
            && (email in done && updates ==>
                (OnList(done, email, l) <==> Subscribes(actions, l) || Copies(loaded, email, l) > Times(actions, l)))
            && (!updates ==> (OnList(done, email, l) <==> OnList(live, email, l) || Subscribes(actions, l)))
  {
    hide Times, Unsubscribed, FoldIn, PostLists;
    var lists := if email in live then live[email].lists else [];
    PostListsHas(actions, l);
    FoldInHas(lists, PostLists(actions), l);
    if NeedsPut(actions) {
      var left := Unsubscribed(loaded[email].lists, actions);
      UnsubscribedCount(loaded[email].lists, actions, l);
      assert l in left <==> multiset(left)[l] > 0;
      FoldInHas(left, PostLists(actions), l);
    }
  }

  // ----- the same in the source's form -----

  function PostOf(a: Action): seq<string> {
    if a.Subscribe? then [a.listId] else []
  }

  lemma {:induction false} PostListsNext(actions: seq<Action>, a: Action)
    ensures PostLists(actions + [a]) == PostLists(actions) + PostOf(a)
  {
    if actions == [] {
      assert actions + [a] == [a];
    } else {
      assert (actions + [a])[1..] == actions[1..] + [a];
      PostListsNext(actions[1..], a);
    }
  }

  lemma {:induction false} UnsubscribedNext(lists: seq<string>, actions: seq<Action>, a: Action)
    ensures Unsubscribed(lists, actions + [a])
         == var left := Unsubscribed(lists, actions); if a.Unsubscribe? then Remove(left, a.listId) else left
    decreases |actions|
  {
    if actions == [] {
      assert actions + [a] == [a];
    } else {
      assert (actions + [a])[1..] == actions[1..] + [a];
      UnsubscribedNext(if actions[0].Unsubscribe? then Remove(lists, actions[0].listId) else lists, actions[1..], a);
    }
  }

  lemma {:induction false} FoldInNext(lists: seq<string>, more: seq<string>, l: string)
    ensures FoldIn(lists, more + [l]) == var all := FoldIn(lists, more); if l in all then all else all + [l]
    decreases |more|
  {
    if more == [] {
      assert more + [l] == [l];
    } else {
      assert (more + [l])[1..] == more[1..] + [l];
      FoldInNext(if more[0] in lists then lists else lists + [more[0]], more[1..], l);
    }
  }

  lemma {:induction false} RemoveAbsent(lists: seq<string>, l: string)
    requires l !in lists
    ensures Remove(lists, l) == lists
  {
    if lists != [] {
      RemoveAbsent(lists[1..], l);
    }
  }

  /** `post_body_for_actions`: the sign-up's lists, if the contact needs one. */
  method PostBody(mine: seq<Action>) returns (body: Option<seq<string>>)
    ensures body == if NeedsPost(mine) then Some(PostLists(mine)) else None
  {
    var needed, lists := false, [];
    for i := 0 to |mine|
      invariant needed == NeedsPost(mine[..i]) && lists == PostLists(mine[..i])
    {
      assert mine[..i + 1] == mine[..i] + [mine[i]];
      PostListsNext(mine[..i], mine[i]);
      needed := needed || mine[i].Create? || mine[i].Subscribe?;
      lists := lists + PostOf(mine[i]);
    }
    assert mine[..|mine|] == mine;
    body := if needed then Some(lists) else None;
  }

  /** `put_body_for_actions`: the lists the contact was loaded with, less those unsubscribed from. */
  method PutBody(loaded: Account, email: string, mine: seq<Action>) returns (body: Option<seq<string>>)
    requires NeedsPut(mine) ==> email in loaded
    ensures body == if NeedsPut(mine) then Some(Unsubscribed(loaded[email].lists, mine)) else None
  {
    if !NeedsPut(mine) {
      return None;
    }
    var lists := loaded[email].lists;
    for i := 0 to |mine|
      invariant lists == Unsubscribed(loaded[email].lists, mine[..i])
    {
      assert mine[..i + 1] == mine[..i] + [mine[i]];
      UnsubscribedNext(loaded[email].lists, mine[..i], mine[i]);
      if mine[i].Unsubscribe? {
        if mine[i].listId in lists {
          lists := Remove(lists, mine[i].listId);
        } else {
          RemoveAbsent(lists, mine[i].listId);
        }
      }
    }
    assert mine[..|mine|] == mine;
    body := Some(lists);
  }

  /** The sign-up's lists that the update does not have yet are appended to it. */
  method AddMissing(lists: seq<string>, more: seq<string>) returns (all: seq<string>)
    ensures all == FoldIn(lists, more)
  {
    all := lists;
    for i := 0 to |more|
      invariant all == FoldIn(lists, more[..i])
    {
      assert more[..i + 1] == more[..i] + [more[i]];
      FoldInNext(lists, more[..i], more[i]);
      if more[i] !in all {
        all := all + [more[i]];
      }
    }
    assert more[..|more|] == more;
  }

  /** Each address's own actions, in order, and the addresses in the order of their first action. */
  ghost predicate Grouped(actions: seq<Action>, order: seq<string>, groups: map<string, seq<Action>>) {
    && order == Emails(actions) && (forall e :: e in order <==> e in groups)
    && forall e :: e in groups ==> groups[e] == Filter(actions, ForEmail(e))
  }

  lemma GroupedNext(actions: seq<Action>, order: seq<string>, groups: map<string, seq<Action>>, a: Action)
    requires Grouped(actions, order, groups)
    ensures if a.email in groups then Grouped(actions + [a], order, groups[a.email := groups[a.email] + [a]])
            else Grouped(actions + [a], order + [a.email], groups[a.email := [a]])
  {
    hide Filter;
    assert (actions + [a])[..|actions|] == actions;
    forall e ensures Filter(actions + [a], ForEmail(e)) == Filter(actions, ForEmail(e)) + if a.email == e then [a] else [] {
      FilterNext(actions + [a], |actions|, ForEmail(e));
      assert (actions + [a])[..|actions| + 1] == actions + [a];
    }
    if a.email !in groups {
      NobodysActions(actions, a.email);
    }
  }

  lemma NobodysActions(actions: seq<Action>, e: string)
    requires e !in Emails(actions)
    ensures Filter(actions, ForEmail(e)) == []
  {
    EmailsHas(actions, e);
    if Filter(actions, ForEmail(e)) != [] {
      FilterMembers(actions, ForEmail(e), Filter(actions, ForEmail(e))[0]);
    }
  }

  method GroupByEmail(actions: seq<Action>) returns (order: seq<string>, groups: map<string, seq<Action>>)
    ensures Grouped(actions, order, groups)
  {
    order, groups := [], map[];
    for i := 0 to |actions|
      invariant Grouped(actions[..i], order, groups)
    {
      var a := actions[i];
      assert actions[..i + 1] == actions[..i] + [a];
      GroupedNext(actions[..i], order, groups, a);
      if a.email in groups {
        groups := groups[a.email := groups[a.email] + [a]];
      } else {
        order, groups := order + [a.email], groups[a.email := [a]];
      }
    }
    assert actions[..|actions|] == actions;
  }

  /** The account behind the API, changed by the source's own loop over grouped actions. */
  class AccountService {
    var contacts: Account

    /**
     One contact's writes. If the contact is still as it was loaded, it ends on the lists it subscribed
     to, and on those its list ids name more often than it has unsubscribe actions; nobody else changes.
     */
    method PerformOne(loaded: Account, email: string, mine: seq<Action>)
      requires NeedsPut(mine) ==> email in loaded
      modifies this
      ensures SameAt(old(contacts), loaded, email) ==>
                forall l :: OnList(contacts, email, l) <==> Subscribes(mine, l) || Copies(loaded, email, l) > Times(mine, l)
      ensures forall e :: e != email ==> SameAt(contacts, old(contacts), e)
      ensures contacts == Perform(old(contacts), loaded, email, mine)
    {
      var post := PostBody(mine);
      var put := PutBody(loaded, email, mine);
      if post.Some? && put.Some? {
        var all := AddMissing(put.value, post.value);
        put := Some(all);
      }
      if post.Some? {
        contacts := Post(contacts, email, post.value);
      }
      if put.Some? {
        contacts := Put(contacts, email, put.value);
      }
      PerformedLists(old(contacts), loaded, email, mine);
    }

    method ExecuteActions(loaded: Account, actions: seq<Action>)
      requires Loaded(loaded, actions)
      modifies this
      ensures contacts == Execute(old(contacts), loaded, actions, Emails(actions), |Emails(actions)|)
    {
      hide Perform, Emails, Filter, NeedsPut, SameAt, Subscribes, Times, Copies;
      var emails, groups := GroupByEmail(actions);
      for i := 0 to |emails|
        invariant contacts == Execute(old(contacts), loaded, actions, emails, i)
      {
        LoadedFor(loaded, actions, emails[i]);
        PerformOne(loaded, emails[i], groups[emails[i]]);
      }
    }
  }

  lemma PerformedLists(live: Account, loaded: Account, email: string, mine: seq<Action>)
    requires NeedsPut(mine) ==> email in loaded
    ensures var done := Perform(live, loaded, email, mine);
            && (SameAt(live, loaded, email) ==>
                forall l :: OnList(done, email, l) <==> Subscribes(mine, l) || Copies(loaded, email, l) > Times(mine, l))
            && (forall e :: e != email ==> SameAt(done, live, e))
  {
    forall e | e != email ensures SameAt(Perform(live, loaded, email, mine), live, e) {
      PerformIsLocal(live, live, loaded, email, mine, e);
    }
    if SameAt(live, loaded, email) {
      forall l
        ensures OnList(Perform(live, loaded, email, mine), email, l)
           <==> Subscribes(mine, l) || Copies(loaded, email, l) > Times(mine, l)
      {
        PerformLists(live, loaded, email, mine, l);
      }
    }
  }

  // ----- what the whole execution achieves -----

  lemma {:induction false} EmailsHas(actions: seq<Action>, email: string)
    ensures NoRepeats(Emails(actions)) && (email in Emails(actions) <==> exists a :: a in actions && a.email == email)
  {
    if actions != [] {
      var n := |actions| - 1;
      EmailsHas(actions[..n], email);
      assert actions == actions[..n] + [actions[n]];
    }
  }

  ghost predicate SameAt(a: Account, b: Account, email: string) {
    (email in a <==> email in b) && (email in a ==> a[email] == b[email])
  }

  lemma PerformIsLocal(a: Account, b: Account, loaded: Account, email: string, actions: seq<Action>, e: string)
    requires (NeedsPut(actions) ==> email in loaded) && SameAt(a, b, e)
    ensures e == email ==> SameAt(Perform(a, loaded, email, actions), Perform(b, loaded, email, actions), e)
    ensures e != email ==> SameAt(Perform(a, loaded, email, actions), a, e)
  {
  }

  /** Each contact is written once, from the account as loaded, whatever happens to the others. */
  lemma {:induction false} ExecuteAt(account: Account, actions: seq<Action>, emails: seq<string>, n: nat, e: string)
    requires n <= |emails| && Loaded(account, actions) && NoRepeats(emails)
    requires NeedsPut(Filter(actions, ForEmail(e))) ==> e in account
    ensures SameAt(Execute(account, account, actions, emails, n),
                   if e in emails[..n] then Perform(account, account, e, Filter(actions, ForEmail(e))) else account, e)
  {
    hide Perform, Filter, NeedsPut;
    if n > 0 {
      var email := emails[n - 1];
      var before := Execute(account, account, actions, emails, n - 1);
      ExecuteAt(account, actions, emails, n - 1, e);
      LoadedFor(account, actions, email);
      assert emails[..n] == emails[..n - 1] + [email];
      assert email !in emails[..n - 1];
      var target := if e in emails[..n - 1] then Perform(account, account, e, Filter(actions, ForEmail(e))) else account;
      PerformIsLocal(before, target, account, email, Filter(actions, ForEmail(email)), e);
    }
  }

  lemma MineHas(actions: seq<Action>, e: string, l: string)
    ensures Subscribes(Filter(actions, ForEmail(e)), l) <==> Subscribe(e, l) in actions
  {
    var mine := Filter(actions, ForEmail(e));
    FilterMembers(actions, ForEmail(e), Subscribe(e, l));
    if Subscribes(mine, l) {
      var a :| a in mine && a.Subscribe? && a.listId == l;
      FilterMembers(actions, ForEmail(e), a);
      assert a == Subscribe(e, l);
    }
    assert Subscribe(e, l) in mine ==> Subscribes(mine, l);
  }

  lemma {:induction false} TimesOfMine(actions: seq<Action>, e: string, l: string)
    ensures Times(Filter(actions, ForEmail(e)), l) == multiset(actions)[Unsubscribe(e, l)]
  {
    if actions != [] {
      var a := actions[0];
      TimesOfMine(actions[1..], e, l);
      assert actions == [a] + actions[1..];
      var rest := Filter(actions[1..], ForEmail(e));
      assert a.email != e ==> Filter(actions, ForEmail(e)) == rest;
      assert ([a] + rest)[0] == a && ([a] + rest)[1..] == rest;
    }
  }

  /** A contact ends on the lists it subscribed to, and on those it was on more often than it unsubscribed. */
  lemma ExecutedLists(account: Account, actions: seq<Action>, e: string, l: string)
    requires Loaded(account, actions)
    ensures OnList(Executed(account, actions), e, l)
       <==> Subscribe(e, l) in actions || Copies(account, e, l) > multiset(actions)[Unsubscribe(e, l)]
  {
    hide Perform, Times, Filter, Loaded, Emails, NeedsPut;
    var emails := Emails(actions);
    var mine := Filter(actions, ForEmail(e));
    EmailsHas(actions, e);
    LoadedFor(account, actions, e);
    ExecuteAt(account, actions, emails, |emails|, e);
    assert emails[..|emails|] == emails;
    MineHas(actions, e, l);
    TimesOfMine(actions, e, l);
    PerformLists(account, account, e, mine, l);
    assert OnList(account, e, l) <==> Copies(account, e, l) > 0;
    if e !in emails {
      assert Subscribe(e, l) !in actions && Unsubscribe(e, l) !in actions;
    }
  }

  // ----- how often the plan names an action -----

  lemma {:induction false} SortedOnce(s: set<string>, x: string)
    ensures multiset(Sorted(s))[x] == if x in s then 1 else 0
  {
    if s != {} {
      var m := Least(s);
      SortedOnce(s - {m}, x);
      assert Sorted(s) == [m] + Sorted(s - {m});
    }
  }

  lemma {:induction false} UnsubscribingOnce(emails: seq<string>, listId: string, e: string, l: string)
    ensures multiset(Map(Unsubscribing(listId), emails))[Unsubscribe(e, l)] == if l == listId then multiset(emails)[e] else 0
  {
    if emails != [] {
      var f := Unsubscribing(listId);
      UnsubscribingOnce(emails[1..], listId, e, l);
      assert emails == [emails[0]] + emails[1..];
      assert Map(f, emails) == [f(emails[0])] + Map(f, emails[1..]);
    }
  }

  lemma NoneIn(f: string -> Action, emails: seq<string>, a: Action)
    requires forall x :: f(x) != a
    ensures multiset(Map(f, emails))[a] == 0
  {
    MapHas(f, emails, a);
    assert a !in multiset(Map(f, emails));
  }

  lemma OneListOnce(account: Account, listId: string, wanted: set<string>, e: string, l: string)
    ensures multiset(OneList(account, listId, wanted))[Unsubscribe(e, l)]
         == if l == listId && e !in wanted && OnList(account, e, l) then 1 else 0
  {
    var subs, unsubs := wanted - Current(account, listId), Current(account, listId) - wanted;
    NoneIn(Subscribing(listId), Sorted(subs), Unsubscribe(e, l));
    UnsubscribingOnce(Sorted(unsubs), listId, e, l);
    SortedOnce(unsubs, e);
  }

  lemma {:induction false} ListPlanOnce(account: Account, targets: Targets, desired: seq<set<string>>, n: nat, e: string, l: string)
    requires n <= |targets| == |desired| && NoRepeats(targets)
    ensures multiset(ListPlan(account, targets, desired, n))[Unsubscribe(e, l)]
         == if Due(account, targets, desired, n, Unsubscribe(e, l)) then 1 else 0
  {
    hide OneList, OnList;
    if n > 0 {
      ListPlanOnce(account, targets, desired, n - 1, e, l);
      OneListOnce(account, targets[n - 1], desired[n - 1], e, l);
    }
  }

  lemma PlanOnce(account: Account, targets: Targets, desired: seq<set<string>>, renames: seq<string>, e: string, l: string)
    requires |targets| == |desired| && NoRepeats(targets)
    ensures multiset(Plan(account, targets, desired, renames))[Unsubscribe(e, l)]
         == if Due(account, targets, desired, |targets|, Unsubscribe(e, l)) then 1 else 0
  {
    hide Due, ListPlan;
    ListPlanOnce(account, targets, desired, |targets|, e, l);
    NoneIn(Creating(), Sorted(UnionOf(desired) - account.Keys), Unsubscribe(e, l));
    NoneIn(Renaming(), renames, Unsubscribe(e, l));
  }

  // ----- convergence -----

  /** A plan with distinct targets that renames loaded contacts only. */
  ghost predicate Setting(account: Account, targets: Targets, desired: seq<set<string>>, renames: seq<string>) {
    && |targets| == |desired| && NoRepeats(targets)
    && (forall e :: e in renames ==> e in account)
  }

  /** A contact to be taken off a list that its list ids name twice: one removal leaves the other. */
  ghost predicate Stuck(account: Account, targets: Targets, desired: seq<set<string>>, i: nat, e: string)
    requires |targets| == |desired| && i < |targets|
  {
    e !in desired[i] && Copies(account, e, targets[i]) >= 2
  }

  lemma PlanIsLoaded(account: Account, targets: Targets, desired: seq<set<string>>, renames: seq<string>)
    requires Setting(account, targets, desired, renames)
    ensures Loaded(account, Plan(account, targets, desired, renames))
  {
    forall a | a in Plan(account, targets, desired, renames) && (a.Unsubscribe? || a.Rename?) ensures a.email in account {
      PlanHas(account, targets, desired, renames, a);
    }
  }

  /**
   Convergence. After the plan has been executed, a contact is on the list of a mapping if and only if
   its address is in that mapping's desired set or its list ids named that list twice, and on any other
   list if and only if it was before, also when the contact needs both a sign-up POST and a replacing
   PUT, or is renamed as well.
   */
  lemma SyncConverges(account: Account, targets: Targets, desired: seq<set<string>>, renames: seq<string>, e: string, l: string)
    requires Setting(account, targets, desired, renames)
    ensures Loaded(account, Plan(account, targets, desired, renames))
    ensures var done := Executed(account, Plan(account, targets, desired, renames));
            && (forall i :: 0 <= i < |targets| && targets[i] == l ==>
                  (OnList(done, e, l) <==> e in desired[i] || Stuck(account, targets, desired, i, e)))
            && (l !in targets ==> (OnList(done, e, l) <==> OnList(account, e, l)))
  {
    hide Plan, Executed, Loaded;
    var plan := Plan(account, targets, desired, renames);
    PlanIsLoaded(account, targets, desired, renames);
    PlanHas(account, targets, desired, renames, Subscribe(e, l));
    PlanOnce(account, targets, desired, renames, e, l);
    ExecutedLists(account, plan, e, l);
    assert OnList(account, e, l) <==> Copies(account, e, l) > 0;
  }

  lemma SortedEmpty(s: set<string>)
    requires s == {}
    ensures Sorted(s) == []
  {
  }

  lemma {:induction false} NothingListed(account: Account, targets: Targets, desired: seq<set<string>>, n: nat)
    requires n <= |targets| == |desired|
    requires forall i, e :: 0 <= i < |targets| ==> (OnList(account, e, targets[i]) <==> e in desired[i])
    ensures ListPlan(account, targets, desired, n) == []
  {
    if n > 0 {
      NothingListed(account, targets, desired, n - 1);
      var l := targets[n - 1];
      assert forall e :: e in Current(account, l) <==> OnList(account, e, l);
      SortedEmpty(desired[n - 1] - Current(account, l));
      SortedEmpty(Current(account, l) - desired[n - 1]);
    }
  }

  lemma SomethingListed(account: Account, targets: Targets, desired: seq<set<string>>, i: nat, e: string)
    requires |targets| == |desired| && i < |targets| && e !in desired[i] && OnList(account, e, targets[i])
    ensures Plan(account, targets, desired, []) != []
  {
    PlanHas(account, targets, desired, [], Unsubscribe(e, targets[i]));
  }

  /**
   Fixed point: recomputing the membership actions after the execution yields none, if and only if no
   contact was to be taken off a list that its list ids named twice.
   */
  lemma SecondRunIsIdle(account: Account, targets: Targets, desired: seq<set<string>>, renames: seq<string>)
    requires Setting(account, targets, desired, renames)
    ensures Loaded(account, Plan(account, targets, desired, renames))
    ensures Plan(Executed(account, Plan(account, targets, desired, renames)), targets, desired, []) == []
       <==> forall i, e :: 0 <= i < |targets| ==> !Stuck(account, targets, desired, i, e)
  {
    hide Plan, Stuck, Executed, OnList;
    PlanIsLoaded(account, targets, desired, renames);
    var done := Executed(account, Plan(account, targets, desired, renames));
    forall i, e | 0 <= i < |targets|
      ensures OnList(done, e, targets[i]) <==> e in desired[i] || Stuck(account, targets, desired, i, e)
    {
      SyncConverges(account, targets, desired, renames, e, targets[i]);
    }
    if i, e :| 0 <= i < |targets| && Stuck(account, targets, desired, i, e) {
      StuckIsUnwanted(account, targets, desired, i, e);
      SomethingListed(done, targets, desired, i, e);
    } else {
      NothingPlanned(done, targets, desired);
    }
  }

  lemma StuckIsUnwanted(account: Account, targets: Targets, desired: seq<set<string>>, i: nat, e: string)
    requires |targets| == |desired| && i < |targets| && Stuck(account, targets, desired, i, e)
    ensures e !in desired[i]
  {
  }

  lemma NothingPlanned(account: Account, targets: Targets, desired: seq<set<string>>)
    requires |targets| == |desired|
    requires forall i, e :: 0 <= i < |targets| ==> (OnList(account, e, targets[i]) <==> e in desired[i])
    ensures Plan(account, targets, desired, []) == []
  {
    NothingListed(account, targets, desired, |targets|);
    forall e | e in UnionOf(desired) ensures e in account {
      UnionHas(desired, e);
      var i :| 0 <= i < |desired| && e in desired[i];
      assert OnList(account, e, targets[i]);
    }
    SortedEmpty(UnionOf(desired) - account.Keys);
  }

  /** Such an account: one unwanted contact whose list ids name the list twice is still on it afterwards. */
  lemma RepeatedListSurvives()
    ensures var account: Account := map["a" := Contact(["x", "x"])];
            && Setting(account, ["x"], [{}], []) && Loaded(account, Plan(account, ["x"], [{}], []))
            && OnList(Executed(account, Plan(account, ["x"], [{}], [])), "a", "x")
  {
    var lists := ["x", "x"];
    assert multiset(lists) == multiset{"x", "x"};
    var account: Account := map["a" := Contact(lists)];
    var desired: seq<set<string>> := [{}];
    assert Stuck(account, ["x"], desired, 0, "a");
    SyncConverges(account, ["x"], desired, [], "a", "x");
    assert ["x"][0] == "x";
  }

  // ----- unsubscribed addresses -----

  /** A contact as listed: its lower-case address, and whether it has opted out. */
  datatype Listed = Listed(email: string, optedOut: bool)

  datatype Person = Person(name: string, duid: string)

  /** One line of the unsubscribed report. */
  datatype Line = Line(email: string, names: string, duids: string)

  /** `", ".join(parts)` */
  function CommaJoined(parts: seq<string>): string {
    if parts == [] then "" else if |parts| == 1 then parts[0] else parts[0] + ", " + CommaJoined(parts[1..])
  }

  /** The line for an address, naming the ParishSoft members who have it. */
  function LineOf(people: map<string, seq<Person>>): string -> Line {
    (email: string) =>
      var who := if email in people then people[email] else [];
      Line(email, CommaJoined(Map((p: Person) => p.name, who)), CommaJoined(Map((p: Person) => p.duid, who)))
  }

  function OptedOut(contacts: seq<Listed>): set<string> {
    set c | c in contacts && c.optedOut :: c.email
  }

  /** The wanted addresses that have opted out, each once, in the order of the contacts. */
  function Dropouts(contacts: seq<Listed>, wanted: set<string>): seq<string> {
    if contacts == [] then [] else
    var c := contacts[|contacts| - 1];
    var before := Dropouts(contacts[..|contacts| - 1], wanted);
    if c.optedOut && c.email in wanted && c.email !in before then before + [c.email] else before
  }

  lemma {:induction false} DropoutsAre(contacts: seq<Listed>, wanted: set<string>)
    ensures NoRepeats(Dropouts(contacts, wanted))
    ensures forall e :: e in Dropouts(contacts, wanted) <==> e in wanted && e in OptedOut(contacts)
  {
    if contacts != [] {
      var n := |contacts| - 1;
      DropoutsAre(contacts[..n], wanted);
      OptedOutNext(contacts, n);
      assert contacts[..n + 1] == contacts;
    }
  }

  lemma OptedOutNext(contacts: seq<Listed>, n: nat)
    requires n < |contacts|
    ensures OptedOut(contacts[..n + 1]) == OptedOut(contacts[..n]) + if contacts[n].optedOut then {contacts[n].email} else {}
  {
    assert contacts[..n + 1] == contacts[..n] + [contacts[n]];
  }

  /** What one mapping's set and report are once the first `n` contacts were treated. */
  ghost predicate FilteredTo(contacts: seq<Listed>, n: nat, people: map<string, seq<Person>>, wanted: set<string>,
                             kept: set<string>, lines: seq<Line>)
    requires n <= |contacts|
  {
    kept == wanted - OptedOut(contacts[..n]) && lines == Map(LineOf(people), Dropouts(contacts[..n], wanted))
  }

  lemma FilteredNext(contacts: seq<Listed>, n: nat, people: map<string, seq<Person>>, wanted: set<string>,
                     kept: set<string>, lines: seq<Line>)
    requires n < |contacts| && FilteredTo(contacts, n, people, wanted, kept, lines)
    ensures var c := contacts[n];
            if c.optedOut && c.email in kept
            then FilteredTo(contacts, n + 1, people, wanted, kept - {c.email}, lines + [LineOf(people)(c.email)])
            else FilteredTo(contacts, n + 1, people, wanted, kept, lines)
  {
    hide LineOf, OptedOut;
    DropoutsAre(contacts[..n], wanted);
    OptedOutNext(contacts, n);
    assert contacts[..n + 1][..n] == contacts[..n];
    var before, after := Dropouts(contacts[..n], wanted), Dropouts(contacts[..n + 1], wanted);
    if after != before {
      MapNext(LineOf(people), after, |before|);
      assert after[..|before|] == before && after[..|before| + 1] == after;
    }
  }

  ghost predicate AllFilteredTo(contacts: seq<Listed>, n: nat, people: map<string, seq<Person>>, desired: seq<set<string>>,
                                kept: seq<set<string>>, reported: seq<seq<Line>>)
    requires n <= |contacts|
  {
    && |kept| == |reported| == |desired|
    && forall i :: 0 <= i < |desired| ==> FilteredTo(contacts, n, people, desired[i], kept[i], reported[i])
  }

  /** One contact: discarded from every set it is in, with a line for each. */
  method DropContact(contacts: seq<Listed>, n: nat, people: map<string, seq<Person>>, ghost desired: seq<set<string>>,
                     kept0: seq<set<string>>, reported0: seq<seq<Line>>)
    returns (kept: seq<set<string>>, reported: seq<seq<Line>>)
    requires n < |contacts| && AllFilteredTo(contacts, n, people, desired, kept0, reported0)
    ensures AllFilteredTo(contacts, n + 1, people, desired, kept, reported)
  {
    hide FilteredTo;
    var c := contacts[n];
    kept, reported := kept0, reported0;
    for i := 0 to |kept0|
      invariant |kept| == |reported| == |desired|
      invariant forall j :: 0 <= j < i ==> FilteredTo(contacts, n + 1, people, desired[j], kept[j], reported[j])
      invariant forall j :: i <= j < |desired| ==> kept[j] == kept0[j] && reported[j] == reported0[j]
    {
      FilteredNext(contacts, n, people, desired[i], kept[i], reported[i]);
      if c.optedOut && c.email in kept[i] {
        kept := kept[i := kept[i] - {c.email}];
        reported := reported[i := reported[i] + [LineOf(people)(c.email)]];
      }
    }
  }

  /** `filter_unsubscribed`: drops opted-out addresses from every desired set, and reports them. */
  method FilterUnsubscribed(contacts: seq<Listed>, desired: seq<set<string>>, people: map<string, seq<Person>>)
    returns (kept: seq<set<string>>, reported: seq<seq<Line>>)
    ensures |kept| == |reported| == |desired|
    ensures forall i :: 0 <= i < |desired| ==> kept[i] == desired[i] - OptedOut(contacts)
    ensures forall i :: 0 <= i < |desired| ==> reported[i] == Map(LineOf(people), Dropouts(contacts, desired[i]))
    ensures forall i :: 0 <= i < |desired| ==> |reported[i]| == |Dropouts(contacts, desired[i])|
    ensures forall i, j :: 0 <= i < |desired| && 0 <= j < |reported[i]| ==>
              IsLine(reported[i][j], Dropouts(contacts, desired[i])[j], people)
  {
    hide LineOf, OptedOut, Map, Dropouts;
    kept, reported := desired, seq(|desired|, i => []);
    NothingFiltered(contacts, people, desired);
    for n := 0 to |contacts|
      invariant AllFilteredTo(contacts, n, people, desired, kept, reported)
    {
      kept, reported := DropContact(contacts, n, people, desired, kept, reported);
    }
    assert contacts[..|contacts|] == contacts;
    assert forall i :: 0 <= i < |desired| ==> FilteredTo(contacts, |contacts|, people, desired[i], kept[i], reported[i]);
    forall i, j | 0 <= i < |desired| && 0 <= j < |reported[i]|
      ensures j < |Dropouts(contacts, desired[i])| && IsLine(reported[i][j], Dropouts(contacts, desired[i])[j], people)
    {
      LinesAre(people, Dropouts(contacts, desired[i]), j);
    }
    forall i | 0 <= i < |desired| ensures |reported[i]| == |Dropouts(contacts, desired[i])| {
      MapLength(LineOf(people), Dropouts(contacts, desired[i]));
    }
  }

  /** The line is for this address, with the names and then the ids of those who have it. */
  predicate IsLine(line: Line, email: string, people: map<string, seq<Person>>) {
    && line.email == email
    && line.names == CommaJoined(if email in people then Map((p: Person) => p.name, people[email]) else [])
    && line.duids == CommaJoined(if email in people then Map((p: Person) => p.duid, people[email]) else [])
  }

  lemma MapLength<T, U>(f: T -> U, s: seq<T>)
    ensures |Map(f, s)| == |s|
  {
  }

  lemma LinesAre(people: map<string, seq<Person>>, emails: seq<string>, j: nat)
    requires j < |Map(LineOf(people), emails)|
    ensures j < |emails| && IsLine(Map(LineOf(people), emails)[j], emails[j], people)
  {
  }

  /** Joining puts a comma and a blank between any two parts. */
  lemma {:induction false} CommaJoinedIs(parts: seq<string>, more: seq<string>)
    ensures CommaJoined([]) == "" && (|parts| == 1 ==> CommaJoined(parts) == parts[0])
    ensures parts != [] && more != [] ==> CommaJoined(parts + more) == CommaJoined(parts) + ", " + CommaJoined(more)
  {
    if |parts| > 1 && more != [] {
      CommaJoinedIs(parts[1..], more);
      assert (parts + more)[1..] == parts[1..] + more;
    } else if |parts| == 1 && more != [] {
      assert (parts + more)[1..] == more;
    }
  }

  lemma NothingFiltered(contacts: seq<Listed>, people: map<string, seq<Person>>, desired: seq<set<string>>)
    ensures AllFilteredTo(contacts, 0, people, desired, desired, seq(|desired|, i => []))
  {
  }

  /**
   After a sync with sets from which some addresses were dropped, such an address is off every
   configured list, unless its list ids named that list twice.
   */
  lemma OptedOutStayOff(account: Account, targets: Targets, desired: seq<set<string>>, kept: seq<set<string>>,
                        optedOut: set<string>, renames: seq<string>, e: string, i: nat)
    requires Setting(account, targets, kept, renames) && |desired| == |kept| && i < |targets|
    requires forall j :: 0 <= j < |kept| ==> kept[j] == desired[j] - optedOut
    requires e in optedOut
    ensures Loaded(account, Plan(account, targets, kept, renames))
    ensures OnList(Executed(account, Plan(account, targets, kept, renames)), e, targets[i])
       <==> Copies(account, e, targets[i]) >= 2
  {
    SyncConverges(account, targets, kept, renames, e, targets[i]);
  }
}
