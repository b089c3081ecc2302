/**
 The strict loader's parse cache (src/parishkit/config.py, `_load_strict_yaml` with `cache_parsed`):
 concurrent loads, file edits and callers that mutate what they were given, over a heap of parsed values.
 */
module ParseCache {
  import opened Results

  const CACHE_PATHS := 8

  type Path = string
  type Bytes = seq<int>
  type Ref = nat

  /** One cached parse: the digest of the bytes it came from and the private value. */
  datatype Slot = Slot(path: Path, digest: int, value: Ref)

  datatype Phase =
    | Idle
    | Read(path: Path, bytes: Bytes)                  // the file was read; about to look in the cache
    | Missed(path: Path, bytes: Bytes)                // about to parse
    | Parsed(path: Path, bytes: Bytes, value: Ref)    // about to store a copy and return

  /** A load that returned: the bytes it read and the value its caller got. */
  datatype Returned = Returned(bytes: Bytes, value: int)

  /** `heap` holds every parsed value by reference; `given` the references callers own and may mutate. */
  datatype State = State(files: map<Path, Bytes>, cache: seq<Slot>, heap: seq<int>, given: set<Ref>,
                         loads: map<nat, Phase>, returned: seq<Returned>)

  datatype Action =
    | Edit(path: Path, bytes: Bytes)
    | Mutate(value: Ref, content: int)
    | ReadFile(t: nat, path: Path)
    | LookUp(t: nat)
    | Parse(t: nat)
    | Store(t: nat)

  /** What the parser makes of a file: an error, an empty document, or a mapping. */
  datatype Document = Invalid | Empty | Mapping(value: int)

  /** The content of `{}`, which is what an empty document loads as. */
  const NOTHING := 0

  /** What a load without a cache returns, `None` when it raises. */
  function Meaning(document: Document): Option<int> {
    match document
    case Invalid => None
    case Empty => Some(NOTHING)
    case Mapping(value) => Some(value)
  }

  datatype Library = Library(parse: Bytes -> Document, digest: Bytes -> int)

  /** No two byte strings that are ever hashed collide. */
  ghost predicate NoCollisions(lib: Library) {
    forall a, b :: lib.digest(a) == lib.digest(b) ==> a == b
  }

  function At(s: State, t: nat): Phase {
    if t in s.loads then s.loads[t] else Idle
  }

  function Find(cache: seq<Slot>, path: Path): Option<Slot> {
    if cache == [] then None else if cache[0].path == path then Some(cache[0]) else Find(cache[1..], path)
  }

  function Pop(cache: seq<Slot>, path: Path): seq<Slot> {
    if cache == [] then [] else (if cache[0].path == path then [] else [cache[0]]) + Pop(cache[1..], path)
  }

  /** Replace the path's entry, dropping the least recently stored one when the cache is full. */
  function Put(cache: seq<Slot>, slot: Slot): seq<Slot> {
    var popped := Pop(cache, slot.path);
    (if |popped| >= CACHE_PATHS then popped[1..] else popped) + [slot]
  }

  function Next(lib: Library, s: State, a: Action): Option<State> {
    match a
    case Edit(path, bytes) => Some(s.(files := s.files[path := bytes]))
    case Mutate(value, content) =>
      if value in s.given && value < |s.heap| then Some(s.(heap := s.heap[value := content])) else None
    case ReadFile(t, path) =>
      if At(s, t).Idle? && path in s.files then Some(s.(loads := s.loads[t := Read(path, s.files[path])])) else None
    case LookUp(t) =>
      var phase := At(s, t);
      if !phase.Read? then None else
      var found := Find(s.cache, phase.path);
      if found.Some? && found.value.digest == lib.digest(phase.bytes) && found.value.value < |s.heap| then
        // A deep copy of the cached value goes to the caller.
        var value := s.heap[found.value.value];
        Some(s.(heap := s.heap + [value], given := s.given + {|s.heap|}, loads := s.loads[t := Idle],
                returned := s.returned + [Returned(phase.bytes, value)]))
      else Some(s.(loads := s.loads[t := Missed(phase.path, phase.bytes)]))
    case Parse(t) =>
      var phase := At(s, t);
      if !phase.Missed? then None else
      (match lib.parse(phase.bytes)
       case Invalid => Some(s.(loads := s.loads[t := Idle]))
       case Empty =>
         // A new empty dictionary goes to the caller, and nothing is stored.
         Some(s.(heap := s.heap + [NOTHING], given := s.given + {|s.heap|}, loads := s.loads[t := Idle],
                 returned := s.returned + [Returned(phase.bytes, NOTHING)]))
       case Mapping(v) => Some(s.(heap := s.heap + [v], loads := s.loads[t := Parsed(phase.path, phase.bytes, |s.heap|)])))
    case Store(t) =>
      var phase := At(s, t);
      if !phase.Parsed? || phase.value >= |s.heap| then None else
      // A private copy is stored; the parsed object itself goes to the caller.
      var value := s.heap[phase.value];
      var slot := Slot(phase.path, lib.digest(phase.bytes), |s.heap|);
      Some(s.(heap := s.heap + [value], cache := Put(s.cache, slot), given := s.given + {phase.value},
              loads := s.loads[t := Idle], returned := s.returned + [Returned(phase.bytes, value)]))
  }

  function Run(lib: Library, s: State, actions: seq<Action>): Option<State>
    decreases |actions|
  {
    if actions == [] then Some(s) else
    match Next(lib, s, actions[0])
    case None => None
    case Some(t) => Run(lib, t, actions[1..])
  }

  /** An empty process: nothing cached, loaded or returned yet. */
  predicate Initial(s: State) {
    s.cache == [] && s.heap == [] && s.given == {} && s.loads == map[] && s.returned == []
  }

  // ----- the invariant -----

  /** The slot's private value is the parse of the only bytes with its digest. */
  ghost predicate SlotOk(lib: Library, s: State, slot: Slot) {
    && slot.value < |s.heap| && slot.value !in s.given
    && forall b :: lib.digest(b) == slot.digest ==> lib.parse(b) == Mapping(s.heap[slot.value])
  }

  ghost predicate LoadOk(lib: Library, s: State, t: nat) {
    var phase := At(s, t);
    phase.Parsed? ==>
      && phase.value < |s.heap| && phase.value !in s.given && lib.parse(phase.bytes) == Mapping(s.heap[phase.value])
      && (forall i :: 0 <= i < |s.cache| ==> s.cache[i].value != phase.value)
      && (forall u :: u in s.loads && u != t && s.loads[u].Parsed? ==> s.loads[u].value != phase.value)
  }

  ghost predicate DistinctPaths(cache: seq<Slot>) {
    forall i, j :: 0 <= i < j < |cache| ==> cache[i].path != cache[j].path
  }

  ghost predicate Inv(lib: Library, s: State) {
    && (forall i :: 0 <= i < |s.cache| ==> SlotOk(lib, s, s.cache[i]))
    && (forall t :: LoadOk(lib, s, t))
    && (forall v :: v in s.given ==> v < |s.heap|)
    && (forall i :: 0 <= i < |s.returned| ==> Meaning(lib.parse(s.returned[i].bytes)) == Some(s.returned[i].value))
    && |s.cache| <= CACHE_PATHS && DistinctPaths(s.cache)
  }

  lemma {:induction false} FindIn(cache: seq<Slot>, path: Path)
    ensures Find(cache, path).Some? ==> Find(cache, path).value in cache
  {
    if cache != [] {
      FindIn(cache[1..], path);
    }
  }

  lemma {:induction false} PopKeeps(cache: seq<Slot>, path: Path)
    requires DistinctPaths(cache)
    ensures DistinctPaths(Pop(cache, path)) && |Pop(cache, path)| <= |cache|
    ensures forall slot :: slot in Pop(cache, path) <==> slot in cache && slot.path != path
  {
    if cache != [] {
      PopKeeps(cache[1..], path);
      assert cache == [cache[0]] + cache[1..];
      assert forall slot :: slot in Pop(cache[1..], path) ==> slot.path != cache[0].path;
    }
  }

  lemma {:induction false} PopAbsent(cache: seq<Slot>, path: Path)
    requires forall x :: x in cache ==> x.path != path
    ensures Pop(cache, path) == cache
  {
    if cache != [] {
      PopAbsent(cache[1..], path);
    }
  }

  lemma {:induction false} PopPresent(cache: seq<Slot>, path: Path)
    requires exists x :: x in cache && x.path == path
    ensures |Pop(cache, path)| < |cache|
  {
    if cache[0].path != path {
      PopPresent(cache[1..], path);
    } else {
      PopShrinks(cache[1..], path);
    }
  }

  lemma {:induction false} PopShrinks(cache: seq<Slot>, path: Path)
    ensures |Pop(cache, path)| <= |cache|
  {
    if cache != [] {
      PopShrinks(cache[1..], path);
    }
  }

  lemma {:induction false} FindLast(cache: seq<Slot>, slot: Slot)
    requires forall x :: x in cache ==> x.path != slot.path
    ensures Find(cache + [slot], slot.path) == Some(slot)
  {
    if cache != [] {
      assert (cache + [slot])[0] == cache[0] && (cache + [slot])[1..] == cache[1..] + [slot];
      FindLast(cache[1..], slot);
    }
  }

  /**
   Storing puts the new entry last, where it is found under its path; every entry of another path stays,
   unless the path is new and the cache is full: then exactly the oldest goes.
   */
  lemma PutKeeps(cache: seq<Slot>, slot: Slot)
    requires DistinctPaths(cache) && |cache| <= CACHE_PATHS
    ensures var put := Put(cache, slot);
            var evicts := |cache| == 8 && forall x :: x in cache ==> x.path != slot.path;
            && DistinctPaths(put) && 1 <= |put| <= 8 && put[|put| - 1] == slot
            && Find(put, slot.path) == Some(slot)
            && (forall x :: x in put <==> x == slot || (x in cache && x.path != slot.path && !(evicts && x == cache[0])))
            && (evicts ==> put == cache[1..] + [slot])
  {
    hide Pop, Find;
    PopKeeps(cache, slot.path);
    var popped := Pop(cache, slot.path);
    if x :| x in cache && x.path == slot.path {
      PopPresent(cache, slot.path);
      FindLast(popped, slot);
    } else {
      PopAbsent(cache, slot.path);
      FindLast(if |cache| == CACHE_PATHS then cache[1..] else cache, slot);
      assert |cache| == CACHE_PATHS ==> cache == [cache[0]] + cache[1..];
    }
  }

  lemma PutOnlyAdds(cache: seq<Slot>, slot: Slot)
    requires DistinctPaths(cache) && |cache| <= CACHE_PATHS
    ensures DistinctPaths(Put(cache, slot)) && |Put(cache, slot)| <= CACHE_PATHS
    ensures forall x :: x in Put(cache, slot) ==> x == slot || x in cache
  {
    hide Put, Find;
    PutKeeps(cache, slot);
  }

  lemma LookUpKeepsInv(lib: Library, s: State, t: nat)
    requires Inv(lib, s) && Next(lib, s, LookUp(t)).Some?
    ensures Inv(lib, Next(lib, s, LookUp(t)).value)
  {
    var phase := At(s, t);
    FindIn(s.cache, phase.path);
    var n := Next(lib, s, LookUp(t)).value;
    forall u ensures LoadOk(lib, n, u) {
      assert LoadOk(lib, s, u);
    }
    forall i | 0 <= i < |n.cache| ensures SlotOk(lib, n, n.cache[i]) {
      assert SlotOk(lib, s, s.cache[i]);
    }
  }

  lemma StoreKeepsInv(lib: Library, s: State, t: nat)
    requires Inv(lib, s) && NoCollisions(lib) && Next(lib, s, Store(t)).Some?
    ensures Inv(lib, Next(lib, s, Store(t)).value)
  {
    var phase := At(s, t);
    var slot := Slot(phase.path, lib.digest(phase.bytes), |s.heap|);
    PutOnlyAdds(s.cache, slot);
    hide Put, DistinctPaths;
    assert LoadOk(lib, s, t);
    var n := Next(lib, s, Store(t)).value;
    forall u ensures LoadOk(lib, n, u) {
      assert LoadOk(lib, s, u);
      if At(n, u).Parsed? {
        forall i | 0 <= i < |n.cache| ensures n.cache[i].value != At(n, u).value {
          assert n.cache[i] in n.cache;
        }
      }
    }
    forall i | 0 <= i < |n.cache| ensures SlotOk(lib, n, n.cache[i]) {
      assert n.cache[i] in n.cache;
      if n.cache[i] != slot {
        var j :| 0 <= j < |s.cache| && s.cache[j] == n.cache[i];
        assert SlotOk(lib, s, s.cache[j]);
      }
    }
  }

  lemma OtherKeepsInv(lib: Library, s: State, a: Action)
    requires Inv(lib, s) && Next(lib, s, a).Some? && !a.LookUp? && !a.Store?
    ensures Inv(lib, Next(lib, s, a).value)
  {
    var n := Next(lib, s, a).value;
    forall u ensures LoadOk(lib, n, u) {
      assert LoadOk(lib, s, u);
      forall v | v in s.loads ensures LoadOk(lib, s, v) {
      }
    }
    forall i | 0 <= i < |n.cache| ensures SlotOk(lib, n, n.cache[i]) {
      assert SlotOk(lib, s, s.cache[i]);
    }
  }

  lemma {:induction false} RunKeepsInv(lib: Library, s: State, actions: seq<Action>)
    requires Inv(lib, s) && NoCollisions(lib) && Run(lib, s, actions).Some?
    ensures Inv(lib, Run(lib, s, actions).value)
    decreases |actions|
  {
    if actions != [] {
      match actions[0] {
        case LookUp(t) => LookUpKeepsInv(lib, s, t);
        case Store(t) => StoreKeepsInv(lib, s, t);
        case _ => OtherKeepsInv(lib, s, actions[0]);
      }
      RunKeepsInv(lib, Next(lib, s, actions[0]).value, actions[1..]);
    }
  }

  /**
   Under any interleaving of loads, file edits and callers mutating what they were given, and without
   digest collisions, every load returns what a fresh parse of the bytes it read would return, and the
   cache holds at most eight entries, one per path.
   */
  lemma CachedLoadsAreFresh(lib: Library, s: State, actions: seq<Action>)
    requires Initial(s) && NoCollisions(lib) && Run(lib, s, actions).Some?
    ensures var t := Run(lib, s, actions).value;
            && (forall i :: 0 <= i < |t.returned| ==> Meaning(lib.parse(t.returned[i].bytes)) == Some(t.returned[i].value))
            && |t.cache| <= 8 && DistinctPaths(t.cache)
  {
    assert forall t :: LoadOk(lib, s, t);
    RunKeepsInv(lib, s, actions);
  }

  lemma Two(lib: Library, s: State, a: Action, t: State, b: Action, u: State)
    requires Next(lib, s, a) == Some(t) && Next(lib, t, b) == Some(u)
    ensures Run(lib, s, [a, b]) == Some(u)
  {
    assert [b][1..] == [];
    assert Run(lib, t, [b]) == Run(lib, u, []) == Some(u);
    assert [a, b][1..] == [b];
  }

  lemma {:induction false} RunAppend(lib: Library, s: State, a: seq<Action>, b: seq<Action>)
    requires Run(lib, s, a).Some?
    ensures Run(lib, s, a + b) == Run(lib, Run(lib, s, a).value, b)
    decreases |a|
  {
    if a == [] {
      assert a + b == b;
    } else {
      assert (a + b)[0] == a[0] && (a + b)[1..] == a[1..] + b;
      RunAppend(lib, Next(lib, s, a[0]).value, a[1..], b);
    }
  }

  lemma LookUpSteps(lib: Library, s: State, t: nat, path: Path) returns (u: State)
    requires Inv(lib, s) && At(s, t).Idle? && path in s.files
    ensures Run(lib, s, [ReadFile(t, path), LookUp(t)]) == Some(u) && u.files == s.files && Inv(lib, u)
    ensures Find(s.cache, path).Some? ==> Find(s.cache, path).value.value < |s.heap|
    ensures var found := Find(s.cache, path);
            if found.Some? && found.value.digest == lib.digest(s.files[path])
            then At(u, t).Idle? && u.returned == s.returned + [Returned(s.files[path], s.heap[found.value.value])]
            else At(u, t) == Missed(path, s.files[path]) && u.returned == s.returned
  {
    var read := Next(lib, s, ReadFile(t, path)).value;
    OtherKeepsInv(lib, s, ReadFile(t, path));
    u := Next(lib, read, LookUp(t)).value;
    LookUpKeepsInv(lib, read, t);
    FindIn(s.cache, path);
    if Find(s.cache, path).Some? {
      var i :| 0 <= i < |s.cache| && s.cache[i] == Find(s.cache, path).value;
      assert SlotOk(lib, s, s.cache[i]);
    }
    Two(lib, s, ReadFile(t, path), read, LookUp(t), u);
  }

  /**
   Loads come to an end. From every reachable state, a new load left to itself returns what the file's
   bytes mean, or returns nothing when they cannot be parsed.
   */
  lemma LoadReturns(lib: Library, s0: State, past: seq<Action>, s: State, t: nat, path: Path) returns (actions: seq<Action>)
    requires Initial(s0) && NoCollisions(lib) && Run(lib, s0, past) == Some(s) && At(s, t).Idle? && path in s.files
    ensures Run(lib, s, actions).Some? && |actions| <= 4
    ensures var u := Run(lib, s, actions).value;
            && At(u, t).Idle? && u.files == s.files
            && u.returned == s.returned + match lib.parse(s.files[path])
                                          case Invalid => []
                                          case Empty => [Returned(s.files[path], NOTHING)]
                                          case Mapping(value) => [Returned(s.files[path], value)]
  {
    assert forall p :: LoadOk(lib, s0, p);
    RunKeepsInv(lib, s0, past);
    var u := LookUpSteps(lib, s, t, path);
    actions := [ReadFile(t, path), LookUp(t)];
    if At(u, t).Idle? {
      CachedMeans(lib, s, path);
    } else {
      var more := MissSteps(lib, u, t);
      RunAppend(lib, s, actions, more);
      actions := actions + more;
    }
  }

  lemma CachedMeans(lib: Library, s: State, path: Path)
    requires Inv(lib, s) && path in s.files && Find(s.cache, path).Some?
    requires Find(s.cache, path).value.digest == lib.digest(s.files[path])
    ensures Find(s.cache, path).value.value < |s.heap|
    ensures lib.parse(s.files[path]) == Mapping(s.heap[Find(s.cache, path).value.value])
  {
    FindIn(s.cache, path);
    var i :| 0 <= i < |s.cache| && s.cache[i] == Find(s.cache, path).value;
    assert SlotOk(lib, s, s.cache[i]);
  }

  lemma MissSteps(lib: Library, s: State, t: nat) returns (actions: seq<Action>)
    requires At(s, t).Missed?
    ensures Run(lib, s, actions).Some? && 1 <= |actions| <= 2
    ensures var (u, bytes) := (Run(lib, s, actions).value, At(s, t).bytes);
            && At(u, t).Idle? && u.files == s.files
            && u.returned == s.returned + match lib.parse(bytes)
                                          case Invalid => []
                                          case Empty => [Returned(bytes, NOTHING)]
                                          case Mapping(value) => [Returned(bytes, value)]
  {
    var parsed := Next(lib, s, Parse(t)).value;
    actions := [Parse(t)];
    assert [Parse(t)][1..] == [];
    if At(parsed, t).Parsed? {
      var stored := Next(lib, parsed, Store(t)).value;
      actions := [Parse(t), Store(t)];
      Two(lib, s, Parse(t), parsed, Store(t), stored);
    }
  }

  /** A load of unchanged bytes right after they were stored is answered from the cache, without a parse. */
  lemma RepeatedLoadHits(lib: Library, s: State, t: nat, u: nat, path: Path)
    requires Inv(lib, s) && NoCollisions(lib) && At(s, t).Parsed? && At(s, t).path == path && At(s, u).Idle? && u != t
    requires path in s.files && s.files[path] == At(s, t).bytes
    ensures Next(lib, s, Store(t)).Some?
    ensures var stored := Next(lib, s, Store(t)).value;
            var run := Run(lib, stored, [ReadFile(u, path), LookUp(u)]);
            && run.Some? && At(run.value, u).Idle? && |run.value.returned| == |stored.returned| + 1
            && run.value.cache == stored.cache
  {
    assert LoadOk(lib, s, t);
    var stored := Next(lib, s, Store(t)).value;
    StoreKeepsInv(lib, s, t);
    PutKeeps(s.cache, Slot(path, lib.digest(At(s, t).bytes), |s.heap|));
    var read := Next(lib, stored, ReadFile(u, path)).value;
    var hit := Next(lib, read, LookUp(u)).value;
    Two(lib, stored, ReadFile(u, path), read, LookUp(u), hit);
  }

  /** Files may change at any time, and a caller may change what it was given at any time. */
  lemma EditsAreCovered(lib: Library, s: State, path: Path, bytes: Bytes, value: Ref, content: int)
    ensures Next(lib, s, Edit(path, bytes)) == Some(s.(files := s.files[path := bytes]))
    ensures value in s.given && value < |s.heap| ==>
              Next(lib, s, Mutate(value, content)) == Some(s.(heap := s.heap[value := content]))
  {
  }
}
