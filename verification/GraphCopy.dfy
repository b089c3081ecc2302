/**
 The display copy of a cyclic record graph (src/parishkit/pk_query_ps_memfam.py,
 `_omit_membership_lists`): a memoised recursive copy that replaces list-valued `membership` entries.
 */
module GraphCopy {
  import opened Results

  /** A scalar, a reference to a dict or list object, or the marker for an omitted list. */
  datatype Value = Atom(content: int) | Ref(id: nat) | Omitted

  datatype Container =
    | Dict(entries: seq<(string, Value)>)
    | List(items: seq<Value>)

  /** Objects by identity. */
  type Heap = map<nat, Container>

  // ----- graphs -----

  /** The key under which a container's i-th value sits; list elements have none. */
  function KeyAt(c: Container, i: nat): string
    requires i < Width(c)
  {
    if c.Dict? then c.entries[i].0 else ""
  }

  function ValueAt(c: Container, i: nat): Value
    requires i < Width(c)
  {
    if c.Dict? then c.entries[i].1 else c.items[i]
  }

  function Width(c: Container): nat {
    if c.Dict? then |c.entries| else |c.items|
  }

  predicate WellFormed(h: Heap) {
    forall id :: id in h ==> forall i :: 0 <= i < Width(h[id]) ==> InHeap(h, ValueAt(h[id], i))
  }

  predicate InHeap(h: Heap, v: Value) {
    v.Ref? ==> v.id in h
  }

  /** The i-th value is a list under the key `membership` of a dict. */
  predicate Hidden(h: Heap, c: Container, i: nat)
    requires i < Width(c)
  {
    c.Dict? && KeyAt(c, i) == "membership" && ValueAt(c, i).Ref? && ValueAt(c, i).id in h && h[ValueAt(c, i).id].List?
  }

  /** What the copy shows for the i-th value: the value itself, or the marker. */
  function Shown(h: Heap, c: Container, i: nat): Value
    requires i < Width(c)
  {
    if Hidden(h, c, i) then Omitted else ValueAt(c, i)
  }

  // ----- copies -----

  /** `copy` stands for the value `v` under the memo. */
  predicate Image(memo: map<nat, nat>, v: Value, copy: Value) {
    if v.Ref? then v.id in memo && copy == Ref(memo[v.id]) else copy == v
  }

  /** The first `n` values of the container are copied, under the same keys, in the same order. */
  predicate Mirrored(h: Heap, memo: map<nat, nat>, c: Container, copy: Container, n: nat)
    requires n <= Width(c)
  {
    && copy.Dict? == c.Dict? && Width(copy) == n
    && forall i :: 0 <= i < n ==> KeyAt(copy, i) == KeyAt(c, i) && Image(memo, Shown(h, c, i), ValueAt(copy, i))
  }

  /** A set of objects that contains everything its members show. */
  predicate ClosedUnder(h: Heap, s: set<nat>) {
    forall id :: id in s && id in h ==>
      forall i :: 0 <= i < Width(h[id]) && Shown(h, h[id], i).Ref? ==> Shown(h, h[id], i).id in s
  }

  function Append(c: Container, key: string, v: Value): Container {
    if c.Dict? then Dict(c.entries + [(key, v)]) else List(c.items + [v])
  }

  /** The memo and the copies made so far. */
  datatype Stage = Stage(memo: map<nat, nat>, copies: Heap)

  /** Every memoised object has its own copy, and every copy belongs to one. */
  ghost predicate Sound(h: Heap, st: Stage) {
    && st.memo.Keys <= h.Keys
    && (forall id :: id in st.memo ==> st.memo[id] in st.copies)
    && (forall a, b :: a in st.memo && b in st.memo && st.memo[a] == st.memo[b] ==> a == b)
    && (forall k :: k in st.copies ==> k < |st.copies| && Owned(st, k))
  }

  ghost predicate Owned(st: Stage, k: nat) {
    exists id :: id in st.memo && st.memo[id] == k
  }

  /** Nothing already memoised has moved or changed. */
  ghost predicate Keeps(before: Stage, after: Stage) {
    forall id :: id in before.memo ==>
      && id in after.memo && after.memo[id] == before.memo[id]
      && before.memo[id] in before.copies && before.memo[id] in after.copies
      && after.copies[before.memo[id]] == before.copies[before.memo[id]]
  }

  ghost predicate Complete(h: Heap, st: Stage, id: nat) {
    id in st.memo && id in h && st.memo[id] in st.copies
    && Mirrored(h, st.memo, h[id], st.copies[st.memo[id]], Width(h[id]))
  }

  /** Every set that contains `v` and all it leads to accounts for everything newly memoised. */
  ghost predicate OnlyReached(h: Heap, v: Value, before: Stage, after: Stage) {
    forall s: set<nat> :: ClosedUnder(h, s) && (v.Ref? ==> v.id in s) ==> after.memo.Keys <= before.memo.Keys + s
  }

  /** What one call does: old copies stay, new ones are complete and were all needed for `v`. */
  ghost predicate Extends(h: Heap, v: Value, before: Stage, after: Stage) {
    && Sound(h, after) && Keeps(before, after)
    && (forall id :: id in after.memo && id !in before.memo ==> Complete(h, after, id))
    && OnlyReached(h, v, before, after)
  }

  /** In the middle of copying object `id`: its first `n` values are done, other new copies are complete. */
  ghost predicate Building(h: Heap, id: nat, before: Stage, now: Stage, n: nat) {
    && Sound(h, now) && Keeps(before, now)
    && id in h && n <= Width(h[id]) && id !in before.memo && id in now.memo && now.memo[id] in now.copies
    && Mirrored(h, now.memo, h[id], now.copies[now.memo[id]], n)
    && (forall x :: x in now.memo && x !in before.memo && x != id ==> Complete(h, now, x))
    && OnlyReached(h, Ref(id), before, now)
  }

  /** A fresh empty copy keeps the memo sound. */
  lemma SoundStarts(h: Heap, id: nat, before: Stage, empty: Container)
    requires Sound(h, before) && id in h && id !in before.memo
    ensures var k := |before.copies|;
            k !in before.copies && Sound(h, Stage(before.memo[id := k], before.copies[k := empty]))
  {
    hide Owned;
    var k := |before.copies|;
    var now := Stage(before.memo[id := k], before.copies[k := empty]);
    assert k !in before.copies;
    OneMore(before.copies, k, empty);
    FreshInjective(h, id, before, k);
    forall j | j in now.copies ensures j < |now.copies| && Owned(now, j) {
      OwnedBefore(h, before, j, k);
      FreshOwner(id, before, k, empty, j);
    }
  }

  lemma OneMore(copies: Heap, k: nat, c: Container)
    requires k !in copies
    ensures copies[k := c].Keys == copies.Keys + {k} && |copies[k := c]| == |copies| + 1
  {
    assert copies[k := c].Keys == copies.Keys + {k};
  }

  lemma OwnedBefore(h: Heap, before: Stage, j: nat, k: nat)
    requires Sound(h, before) && (j in before.copies || j == k)
    ensures j == k || (j < |before.copies| && Owned(before, j))
  {
  }

  lemma FreshInjective(h: Heap, id: nat, before: Stage, k: nat)
    requires Sound(h, before) && k !in before.copies && id in h
    ensures var memo := before.memo[id := k];
            && memo.Keys <= h.Keys && (forall a :: a in memo ==> memo[a] == k || memo[a] in before.copies)
            && forall a, b :: a in memo && b in memo && memo[a] == memo[b] ==> a == b
  {
    hide Owned;
  }

  lemma FreshOwner(id: nat, before: Stage, k: nat, empty: Container, j: nat)
    requires id !in before.memo && (j == k || Owned(before, j))
    ensures Owned(Stage(before.memo[id := k], before.copies[k := empty]), j)
  {
    var memo := before.memo[id := k];
    if j == k {
      assert memo[id] == k;
    } else {
      var x :| x in before.memo && before.memo[x] == j;
      assert memo[x] == j;
    }
  }

  lemma BuildingStarts(h: Heap, id: nat, before: Stage)
    requires Sound(h, before) && id in h && id !in before.memo
    ensures var k := |before.copies|;
            var empty := if h[id].Dict? then Dict([]) else List([]);
            Building(h, id, before, Stage(before.memo[id := k], before.copies[k := empty]), 0)
  {
    var k := |before.copies|;
    var empty := if h[id].Dict? then Dict([]) else List([]);
    var now := Stage(before.memo[id := k], before.copies[k := empty]);
    SoundStarts(h, id, before, empty);
    KeepsFresh(h, id, before, k, empty);
    hide Sound, Keeps, Owned;
  }

  lemma KeepsFresh(h: Heap, id: nat, before: Stage, k: nat, empty: Container)
    requires Sound(h, before) && id !in before.memo && k !in before.copies
    ensures Keeps(before, Stage(before.memo[id := k], before.copies[k := empty]))
  {
    hide Owned;
  }

  /** Rewriting one object's copy touches no other object's. */
  lemma RewriteKeeps(h: Heap, id: nat, before: Stage, now: Stage, c: Container)
    requires Sound(h, now) && Keeps(before, now) && id !in before.memo && id in now.memo
    ensures var next := now.(copies := now.copies[now.memo[id] := c]);
            Sound(h, next) && Keeps(before, next) && forall x :: x != id && Complete(h, now, x) ==> Complete(h, next, x)
  {
    var next := now.(copies := now.copies[now.memo[id] := c]);
    assert next.copies.Keys == now.copies.Keys;
    forall j | j in next.copies ensures Owned(next, j) {
      assert Owned(now, j);
    }
  }

  lemma MirroredAppends(h: Heap, memo: map<nat, nat>, c: Container, copy: Container, n: nat, v: Value)
    requires n < Width(c) && Mirrored(h, memo, c, copy, n) && Image(memo, Shown(h, c, n), v)
    ensures Mirrored(h, memo, c, Append(copy, KeyAt(c, n), v), n + 1)
  {
    var more := Append(copy, KeyAt(c, n), v);
    assert forall i :: 0 <= i < n ==> KeyAt(more, i) == KeyAt(copy, i) && ValueAt(more, i) == ValueAt(copy, i);
  }

  /** Adding one more value to the copy under construction, everything else staying put. */
  lemma BuildingAppends(h: Heap, id: nat, before: Stage, now: Stage, n: nat, copy: Value)
    requires Building(h, id, before, now, n) && n < Width(h[id])
    requires Image(now.memo, Shown(h, h[id], n), copy)
    ensures var k := now.memo[id];
            Building(h, id, before, now.(copies := now.copies[k := Append(now.copies[k], KeyAt(h[id], n), copy)]), n + 1)
  {
    var k := now.memo[id];
    var c := Append(now.copies[k], KeyAt(h[id], n), copy);
    RewriteKeeps(h, id, before, now, c);
    MirroredAppends(h, now.memo, h[id], now.copies[k], n, copy);
  }

  lemma KeepsTransitive(a: Stage, b: Stage, c: Stage)
    requires Keeps(a, b) && Keeps(b, c)
    ensures Keeps(a, c)
  {
  }

  lemma CompleteSurvives(h: Heap, now: Stage, after: Stage, x: nat, n: nat)
    requires Keeps(now, after) && x in now.memo && x in h && n <= Width(h[x]) && now.memo[x] in now.copies
    requires Mirrored(h, now.memo, h[x], now.copies[now.memo[x]], n)
    ensures x in after.memo && after.memo[x] in after.copies
    ensures Mirrored(h, after.memo, h[x], after.copies[after.memo[x]], n)
  {
    forall i | 0 <= i < n ensures Image(after.memo, Shown(h, h[x], i), ValueAt(now.copies[now.memo[x]], i)) {
      assert Image(now.memo, Shown(h, h[x], i), ValueAt(now.copies[now.memo[x]], i));
    }
  }

  lemma ReachedOn(h: Heap, id: nat, n: nat, before: Stage, now: Stage, after: Stage)
    requires id in h && n < Width(h[id]) && !Hidden(h, h[id], n)
    requires OnlyReached(h, Ref(id), before, now) && OnlyReached(h, ValueAt(h[id], n), now, after)
    ensures OnlyReached(h, Ref(id), before, after)
  {
    var v := Shown(h, h[id], n);
    forall s: set<nat> | ClosedUnder(h, s) && id in s ensures after.memo.Keys <= before.memo.Keys + s {
      assert now.memo.Keys <= before.memo.Keys + s;
      assert v.Ref? ==> v.id in s;
      assert after.memo.Keys <= now.memo.Keys + s;
    }
  }

  /** A recursive call for the n-th value leaves the construction as it was, with a larger memo. */
  lemma BuildingSurvives(h: Heap, id: nat, before: Stage, now: Stage, n: nat, after: Stage)
    requires Building(h, id, before, now, n) && n < Width(h[id]) && !Hidden(h, h[id], n)
    requires Extends(h, ValueAt(h[id], n), now, after)
    ensures Building(h, id, before, after, n)
  {
    KeepsTransitive(before, now, after);
    ReachedOn(h, id, n, before, now, after);
    CompleteSurvives(h, now, after, id, n);
    forall x | x in after.memo && x !in before.memo && x != id ensures Complete(h, after, x) {
      if x in now.memo {
        assert Complete(h, now, x);
        CompleteSurvives(h, now, after, x, Width(h[x]));
      }
    }
  }

  lemma BuildingEnds(h: Heap, id: nat, before: Stage, now: Stage)
    requires id in h && Building(h, id, before, now, Width(h[id]))
    ensures Extends(h, Ref(id), before, now)
  {
    assert Complete(h, now, id);
  }

  lemma NothingNew(h: Heap, v: Value, st: Stage)
    requires Sound(h, st)
    ensures Extends(h, v, st, st)
  {
  }

  class Copier {
    const source: Heap
    var memo: map<nat, nat>
    var copies: Heap

    ghost function Now(): Stage
      reads this
    {
      Stage(memo, copies)
    }

    constructor (source: Heap)
      ensures this.source == source && Now() == Stage(map[], map[])
    {
      this.source, memo, copies := source, map[], map[];
    }

    method Copy(v: Value) returns (copy: Value)
      requires WellFormed(source) && Sound(source, Now()) && InHeap(source, v)
      modifies this
      ensures Extends(source, v, old(Now()), Now()) && Image(memo, v, copy)
      decreases |source.Keys - memo.Keys|
    {
      if !v.Ref? || v.id in memo {
        NothingNew(source, v, Now());
        return if v.Ref? then Ref(memo[v.id]) else v;
      }
      var id, slot := v.id, |copies|;
      var c := source[id];
      BuildingStarts(source, id, Now());
      memo := memo[id := slot];
      copies := copies[slot := if c.Dict? then Dict([]) else List([])];
      for i := 0 to Width(c)
        invariant Building(source, id, old(Now()), Now(), i)
        invariant memo[id] == slot
      {
        assert InHeap(source, ValueAt(c, i));
        var item := Omitted;
        if !Hidden(source, c, i) {
          ghost var now := Now();
          Smaller(source.Keys, old(memo).Keys, memo.Keys, id);
          item := Copy(ValueAt(c, i));
          BuildingSurvives(source, id, old(Now()), now, i, Now());
        }
        BuildingAppends(source, id, old(Now()), Now(), i, item);
        copies := copies[slot := Append(copies[slot], KeyAt(c, i), item)];
      }
      BuildingEnds(source, id, old(Now()), Now());
      copy := Ref(slot);
    }
  }

  /** Every memoised object brings the recursion closer to its end, on cyclic graphs too. */
  lemma Smaller(all: set<nat>, before: set<nat>, now: set<nat>, id: nat)
    requires id in all && id !in before && id in now && before <= now
    ensures |all - now| < |all - before|
  {
    assert all - now <= all - before - {id};
    Bounded(all - now, all - before - {id});
  }

  lemma {:induction false} Bounded(a: set<nat>, b: set<nat>)
    requires a <= b
    ensures |a| <= |b|
  {
    if a != {} {
      var x :| x in a;
      Bounded(a - {x}, b - {x});
    }
  }

  // ----- the whole copy -----

  /** The objects reached from the root: the least set that contains it and all that its members show. */
  ghost predicate IsReachable(h: Heap, root: Value, s: set<nat>) {
    && s <= h.Keys && ClosedUnder(h, s) && (root.Ref? ==> root.id in s)
    && forall t: set<nat> :: ClosedUnder(h, t) && (root.Ref? ==> root.id in t) ==> s <= t
  }

  /** Exactly one copy per reached object, mirroring it edge for edge apart from the omitted lists. */
  ghost predicate IsCopy(h: Heap, root: Value, memo: map<nat, nat>, copies: Heap, copy: Value) {
    && IsReachable(h, root, memo.Keys)
    && (forall id :: id in memo ==> Complete(h, Stage(memo, copies), id))
    && (forall a, b :: a in memo && b in memo && memo[a] == memo[b] ==> a == b)
    && (forall k :: k in copies ==> Owned(Stage(memo, copies), k))
    && Image(memo, root, copy)
  }

  /** `_omit_membership_lists` from an empty memo. */
  method OmitMembershipLists(h: Heap, root: Value) returns (copy: Value, memo: map<nat, nat>, copies: Heap)
    requires WellFormed(h) && InHeap(h, root)
    ensures IsCopy(h, root, memo, copies, copy)
  {
    var copier := new Copier(h);
    copy := copier.Copy(root);
    memo, copies := copier.memo, copier.copies;
    ReachedExactly(h, root, Stage(memo, copies));
  }

  lemma ReachedExactly(h: Heap, root: Value, st: Stage)
    requires InHeap(h, root) && (root.Ref? ==> root.id in st.memo) && Extends(h, root, Stage(map[], map[]), st)
    ensures IsReachable(h, root, st.memo.Keys)
  {
    var empty := Stage(map[], map[]);
    forall id | id in st.memo && id in h
      ensures forall i :: 0 <= i < Width(h[id]) && Shown(h, h[id], i).Ref? ==> Shown(h, h[id], i).id in st.memo
    {
      assert Complete(h, st, id);
    }
    forall t: set<nat> | ClosedUnder(h, t) && (root.Ref? ==> root.id in t) ensures st.memo.Keys <= t {
      assert st.memo.Keys <= empty.memo.Keys + t;
    }
  }

  // ----- what a reader of the copy sees -----

  /** The value at the end of a path of positions, with omitted lists shown as the marker. */
  function Follow(h: Heap, v: Value, path: seq<nat>, omit: bool): Option<Value>
    decreases |path|
  {
    if path == [] then Some(v)
    else if !v.Ref? || v.id !in h || path[0] >= Width(h[v.id]) then None
    else Follow(h, if omit then Shown(h, h[v.id], path[0]) else ValueAt(h[v.id], path[0]), path[1..], omit)
  }

  lemma {:induction false} ImagesLookTheSame(h: Heap, root: Value, memo: map<nat, nat>, copies: Heap, rootCopy: Value,
                                             v: Value, copy: Value, path: seq<nat>)
    requires IsCopy(h, root, memo, copies, rootCopy) && Image(memo, v, copy)
    ensures match Follow(h, v, path, true)
            case None => Follow(copies, copy, path, false).None?
            case Some(x) => Follow(copies, copy, path, false).Some? && Image(memo, x, Follow(copies, copy, path, false).value)
    decreases |path|
  {
    if path != [] && v.Ref? {
      assert Complete(h, Stage(memo, copies), v.id);
      var c, d := h[v.id], copies[memo[v.id]];
      if path[0] < Width(c) {
        ImagesLookTheSame(h, root, memo, copies, rootCopy, Shown(h, c, path[0]), ValueAt(d, path[0]), path[1..]);
      }
    }
  }

  /**
   Every path of positions from the root that leads somewhere in the source, with list-valued memberships
   read as the marker, leads to the image of the same value in the copy, and no other path leads anywhere.
   */
  lemma CopyLooksTheSame(h: Heap, root: Value, memo: map<nat, nat>, copies: Heap, copy: Value, path: seq<nat>)
    requires IsCopy(h, root, memo, copies, copy)
    ensures match Follow(h, root, path, true)
            case None => Follow(copies, copy, path, false).None?
            case Some(x) => Follow(copies, copy, path, false).Some? && Image(memo, x, Follow(copies, copy, path, false).value)
  {
    ImagesLookTheSame(h, root, memo, copies, copy, root, copy, path);
  }

  /** What a copied value is: a scalar or the marker as it was, and an object by its copy. */
  predicate Copied(memo: map<nat, nat>, v: Value, copy: Value) {
    match v
    case Ref(id) => id in memo && copy == Ref(memo[id])
    case _ => copy == v
  }

  /**
   What one container's copy is: the same keys in the same order, each `membership` entry that holds a list
   replaced by the marker, and every other value copied; a list's items are copied one by one.
   */
  lemma CopyOfContainer(h: Heap, root: Value, memo: map<nat, nat>, copies: Heap, copy: Value, id: nat)
    requires IsCopy(h, root, memo, copies, copy) && id in memo
    ensures id in h && memo[id] in copies
    ensures match (h[id], copies[memo[id]])
            case (Dict(from), Dict(to)) =>
              && |to| == |from|
              && forall i :: 0 <= i < |from| ==>
                   && to[i].0 == from[i].0
                   && if from[i].0 == "membership" && from[i].1.Ref? && from[i].1.id in h && h[from[i].1.id].List?
                      then to[i].1 == Omitted else Copied(memo, from[i].1, to[i].1)
            case (List(from), List(to)) => |to| == |from| && forall i :: 0 <= i < |from| ==> Copied(memo, from[i], to[i])
            case _ => false
  {
    assert Complete(h, Stage(memo, copies), id);
    var c, d := h[id], copies[memo[id]];
    if c.Dict? {
      forall i | 0 <= i < |c.entries|
        ensures d.entries[i].0 == c.entries[i].0 && Image(memo, Shown(h, c, i), d.entries[i].1)
        ensures Hidden(h, c, i) <==> c.entries[i].0 == "membership" && c.entries[i].1.Ref?
                                     && c.entries[i].1.id in h && h[c.entries[i].1.id].List?
      {
        assert KeyAt(d, i) == KeyAt(c, i) && ValueAt(d, i) == d.entries[i].1;
      }
    } else {
      forall i | 0 <= i < |c.items| ensures Image(memo, c.items[i], d.items[i]) {
        assert KeyAt(d, i) == KeyAt(c, i) && ValueAt(d, i) == d.items[i];
      }
    }
  }
}
