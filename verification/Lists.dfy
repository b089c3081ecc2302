/** List comprehensions, string order and stable sorting, as the reconcilers use them. */
module Lists {

  /** `[x for x in s if f(x)]` */
  function Filter<T>(s: seq<T>, f: T -> bool): seq<T> {
    if s == [] then [] else (if f(s[0]) then [s[0]] else []) + Filter(s[1..], f)
  }

  lemma {:induction false} FilterCount<T>(s: seq<T>, f: T -> bool, x: T)
    ensures multiset(Filter(s, f))[x] == if f(x) then multiset(s)[x] else 0
  {
    if s != [] {
      FilterCount(s[1..], f, x);
      assert s == [s[0]] + s[1..];
    }
  }

  lemma FilterMembers<T>(s: seq<T>, f: T -> bool, x: T)
    ensures x in Filter(s, f) <==> x in s && f(x)
  {
    FilterCount(s, f, x);
    assert x in Filter(s, f) <==> x in multiset(Filter(s, f));
  }

  lemma FilterFirst<T>(s: seq<T>, t: seq<T>, f: T -> bool)
    requires s != []
    ensures Filter(s + t, f) == (if f(s[0]) then [s[0]] else []) + Filter(s[1..] + t, f)
  {
    assert (s + t)[1..] == s[1..] + t;
  }

  lemma Regroup<T>(a: seq<T>, b: seq<T>, c: seq<T>)
    ensures a + (b + c) == a + b + c
  {
  }

  lemma {:induction false} FilterAppend<T>(s: seq<T>, t: seq<T>, f: T -> bool)
    ensures Filter(s + t, f) == Filter(s, f) + Filter(t, f)
  {
    if s == [] {
      assert s + t == t;
    } else {
      FilterAppend(s[1..], t, f);
      FilterFirst(s, t, f);
      FilterFirst(s, [], f);
      assert s + [] == s && s[1..] + [] == s[1..];
      Regroup(if f(s[0]) then [s[0]] else [], Filter(s[1..], f), Filter(t, f));
    }
  }

  lemma FilterNext<T>(s: seq<T>, i: nat, f: T -> bool)
    requires i < |s|
    ensures Filter(s[..i + 1], f) == Filter(s[..i], f) + if f(s[i]) then [s[i]] else []
  {
    assert s[..i + 1] == s[..i] + [s[i]];
    FilterAppend(s[..i], [s[i]], f);
  }

  lemma {:induction false} FilterTwice<T(!new)>(s: seq<T>, f: T -> bool, g: T -> bool, h: T -> bool)
    requires forall x :: h(x) <==> f(x) && g(x)
    ensures Filter(Filter(s, f), g) == Filter(s, h)
  {
    if s != [] {
      FilterTwice(s[1..], f, g, h);
      FilterAppend(if f(s[0]) then [s[0]] else [], Filter(s[1..], f), g);
    }
  }

  lemma {:induction false} FilterAgrees<T>(s: seq<T>, f: T -> bool, g: T -> bool)
    requires forall x :: x in s ==> f(x) == g(x)
    ensures Filter(s, f) == Filter(s, g)
  {
    if s != [] {
      FilterAgrees(s[1..], f, g);
    }
  }

  lemma {:induction false} FilterNone<T>(s: seq<T>, f: T -> bool)
    requires forall x :: x in s ==> !f(x)
    ensures Filter(s, f) == []
  {
    if s != [] {
      FilterNone(s[1..], f);
    }
  }

  lemma {:induction false} FilterEverything<T>(s: seq<T>, f: T -> bool)
    requires forall x :: x in s ==> f(x)
    ensures Filter(s, f) == s
  {
    if s != [] {
      FilterEverything(s[1..], f);
    }
  }

  lemma FilterPicks<T>(a: seq<T>, b: seq<T>, f: T -> bool)
    requires forall x :: x in a ==> !f(x)
    requires forall x :: x in b ==> f(x)
    ensures Filter(a + b, f) == b
  {
    FilterAppend(a, b, f);
    FilterNone(a, f);
    FilterEverything(b, f);
  }

  lemma FilterPicksLeft<T>(a: seq<T>, b: seq<T>, f: T -> bool)
    requires forall x :: x in a ==> f(x)
    requires forall x :: x in b ==> !f(x)
    ensures Filter(a + b, f) == a
  {
    FilterAppend(a, b, f);
    FilterEverything(a, f);
    FilterNone(b, f);
  }

  lemma FilterPermutes<T(!new)>(s: seq<T>, t: seq<T>, f: T -> bool)
    requires multiset(s) == multiset(t)
    ensures multiset(Filter(s, f)) == multiset(Filter(t, f))
  {
    forall x: T ensures multiset(Filter(s, f))[x] == multiset(Filter(t, f))[x] {
      FilterCount(s, f, x);
      FilterCount(t, f, x);
    }
  }

  /** `[f(x) for x in s]` */
  function Map<T, U>(f: T -> U, s: seq<T>): seq<U> {
    seq(|s|, i requires 0 <= i < |s| => f(s[i]))
  }

  lemma WithoutOne<T>(t: seq<T>, n: nat)
    requires n < |t|
    ensures multiset(t) == multiset(t[..n] + t[n + 1..]) + multiset{t[n]}
  {
    assert t == t[..n] + [t[n]] + t[n + 1..];
  }

  lemma Cancel<T>(a: multiset<T>, b: multiset<T>, x: T)
    requires a + multiset{x} == b + multiset{x}
    ensures a == b
  {
    assert a == a + multiset{x} - multiset{x} == b + multiset{x} - multiset{x} == b;
  }

  lemma MapWithoutOne<T, U>(f: T -> U, t: seq<T>, n: nat)
    requires n < |t|
    ensures multiset(Map(f, t)) == multiset(Map(f, t[..n] + t[n + 1..])) + multiset{f(t[n])}
  {
    var m := Map(f, t);
    WithoutOne(m, n);
    assert Map(f, t[..n] + t[n + 1..]) == m[..n] + m[n + 1..];
  }

  lemma {:induction false} MapPermutes<T, U>(f: T -> U, s: seq<T>, t: seq<T>)
    requires multiset(s) == multiset(t)
    ensures multiset(Map(f, s)) == multiset(Map(f, t))
    decreases |s|
  {
    if s == [] {
      assert |multiset(t)| == 0;
    } else {
      assert s[0] in multiset(t);
      var n :| 0 <= n < |t| && t[n] == s[0];
      WithoutOne(s, 0);
      WithoutOne(t, n);
      Cancel(multiset(s[..0] + s[1..]), multiset(t[..n] + t[n + 1..]), s[0]);
      MapPermutes(f, s[..0] + s[1..], t[..n] + t[n + 1..]);
      MapWithoutOne(f, s, 0);
      MapWithoutOne(f, t, n);
    }
  }

  // ----- strings -----

  /** ASCII lower case, standing for `str.lower` and `str.casefold`. */
  function Lower(c: char): char {
    if 'A' <= c <= 'Z' then c - 'A' + 'a' else c
  }

  function LowerAll(s: string): string {
    seq(|s|, i requires 0 <= i < |s| => Lower(s[i]))
  }

  /** The letters A to Z become a to z, and every other character stays. */
  lemma LowerIs(s: string)
    ensures |LowerAll(s)| == |s|
    ensures forall i :: 0 <= i < |s| ==>
              LowerAll(s)[i] as int == s[i] as int + if 65 <= s[i] as int <= 90 then 32 else 0
  {
  }

  lemma LowerOfAppend(s: string, t: string)
    ensures LowerAll(s + t) == LowerAll(s) + LowerAll(t)
  {
  }

  /** Python's `<=` on strings: code points, left to right. */
  predicate Leq(a: string, b: string) {
    a == [] || (b != [] && (a[0] < b[0] || (a[0] == b[0] && Leq(a[1..], b[1..]))))
  }

  /** One string comes before another if it is a prefix of it, or smaller at the first difference. */
  lemma {:induction false} LeqIsDictionaryOrder(a: string, b: string)
    ensures Leq(a, b) <==> a <= b || exists k :: SmallerAt(a, b, k)
  {
    if a != [] && b != [] && a[0] == b[0] {
      LeqIsDictionaryOrder(a[1..], b[1..]);
      assert a <= b <==> a[1..] <= b[1..];
      if k :| SmallerAt(a, b, k) {
        SmallerStarts(a, b, k);
        assert a[..k][1..] == a[1..][..k - 1] && b[..k][1..] == b[1..][..k - 1];
        assert SmallerAt(a[1..], b[1..], k - 1);
      }
      if k :| SmallerAt(a[1..], b[1..], k) {
        assert a[..k + 1] == [a[0]] + a[1..][..k] && b[..k + 1] == [b[0]] + b[1..][..k];
        assert SmallerAt(a, b, k + 1);
      }
    } else if a != [] && b != [] && a[0] < b[0] {
      assert SmallerAt(a, b, 0);
    } else {
      forall k ensures !SmallerAt(a, b, k) {
        if SmallerAt(a, b, k) {
          SmallerStarts(a, b, k);
        }
      }
    }
  }

  lemma SmallerStarts(a: string, b: string, k: int)
    requires SmallerAt(a, b, k)
    ensures a[0] <= b[0] && (a[0] == b[0] ==> k > 0)
  {
    assert k > 0 ==> a[0] == a[..k][0] == b[..k][0] == b[0];
  }

  predicate SmallerAt(a: string, b: string, k: int) {
    0 <= k < |a| && k < |b| && a[..k] == b[..k] && a[k] < b[k]
  }

  lemma {:induction false} LeqTotal(a: string, b: string)
    ensures Leq(a, b) || Leq(b, a)
  {
    if a != [] && b != [] && a[0] == b[0] {
      LeqTotal(a[1..], b[1..]);
    }
  }

  lemma {:induction false} LeqAntisymmetric(a: string, b: string)
    requires Leq(a, b) && Leq(b, a)
    ensures a == b
  {
    if a != [] && b != [] {
      LeqAntisymmetric(a[1..], b[1..]);
      assert a == [a[0]] + a[1..] && b == [b[0]] + b[1..];
    }
  }

  lemma {:induction false} LeqTransitive(a: string, b: string, c: string)
    requires Leq(a, b) && Leq(b, c)
    ensures Leq(a, c)
  {
    if a != [] && a[0] == b[0] == c[0] {
      LeqTransitive(a[1..], b[1..], c[1..]);
    }
  }

  // ----- stable sorting by a string key -----

  function Insert<T>(x: T, s: seq<T>, key: T -> string): seq<T> {
    if s == [] || Leq(key(x), key(s[0])) then [x] + s else [s[0]] + Insert(x, s[1..], key)
  }

  /** `sorted(s, key=key)`: stable, since an element goes before later ones with an equal key. */
  function SortBy<T>(s: seq<T>, key: T -> string): seq<T> {
    if s == [] then [] else Insert(s[0], SortBy(s[1..], key), key)
  }

  ghost predicate SortedBy<T>(s: seq<T>, key: T -> string) {
    forall i, j :: 0 <= i < j < |s| ==> Leq(key(s[i]), key(s[j]))
  }

  lemma {:induction false} InsertPermutes<T>(x: T, s: seq<T>, key: T -> string)
    ensures multiset(Insert(x, s, key)) == multiset(s) + multiset{x}
  {
    if s != [] && !Leq(key(x), key(s[0])) {
      InsertPermutes(x, s[1..], key);
      assert s == [s[0]] + s[1..];
    }
  }

  lemma {:induction false} InsertSorts<T>(x: T, s: seq<T>, key: T -> string)
    requires SortedBy(s, key)
    ensures SortedBy(Insert(x, s, key), key)
  {
    var t := Insert(x, s, key);
    if s == [] {
    } else if Leq(key(x), key(s[0])) {
      forall j | 0 <= j < |s| ensures Leq(key(x), key(s[j])) {
        if j > 0 {
          LeqTransitive(key(x), key(s[0]), key(s[j]));
        }
      }
    } else {
      LeqTotal(key(x), key(s[0]));
      InsertSorts(x, s[1..], key);
      InsertPermutes(x, s[1..], key);
      var rest := Insert(x, s[1..], key);
      forall j | 0 <= j < |rest| ensures Leq(key(s[0]), key(rest[j])) {
        assert rest[j] in multiset(rest);
        assert rest[j] == x || rest[j] in s[1..];
      }
    }
  }

  lemma {:induction false} SortPermutes<T>(s: seq<T>, key: T -> string)
    ensures multiset(SortBy(s, key)) == multiset(s) && SortedBy(SortBy(s, key), key)
  {
    if s != [] {
      SortPermutes(s[1..], key);
      InsertPermutes(s[0], SortBy(s[1..], key), key);
      InsertSorts(s[0], SortBy(s[1..], key), key);
      assert s == [s[0]] + s[1..];
    }
  }

  function HasKey<T>(key: T -> string, k: string): T -> bool {
    (x: T) => key(x) == k
  }

  lemma {:induction false} InsertKeepsOrder<T>(x: T, s: seq<T>, key: T -> string, k: string)
    ensures Filter(Insert(x, s, key), HasKey(key, k)) == (if key(x) == k then [x] else []) + Filter(s, HasKey(key, k))
  {
    if s == [] || Leq(key(x), key(s[0])) {
      assert ([x] + s)[1..] == s;
    } else {
      var rest := Insert(x, s[1..], key);
      InsertKeepsOrder(x, s[1..], key, k);
      assert ([s[0]] + rest)[1..] == rest;
      LeqTotal(key(x), key(s[0]));
    }
  }

  /** Elements with the same key keep their order. */
  lemma {:induction false} SortIsStable<T>(s: seq<T>, key: T -> string, k: string)
    ensures Filter(SortBy(s, key), HasKey(key, k)) == Filter(s, HasKey(key, k))
  {
    if s != [] {
      SortIsStable(s[1..], key, k);
      InsertKeepsOrder(s[0], SortBy(s[1..], key), key, k);
    }
  }

  ghost predicate DistinctKeys<T>(s: seq<T>, key: T -> string) {
    forall i, j :: 0 <= i < j < |s| ==> key(s[i]) != key(s[j])
  }

  /** Distinct keys is a property of the elements, not of their order. */
  lemma DistinctKeysPermute<T>(s: seq<T>, t: seq<T>, key: T -> string)
    requires multiset(s) == multiset(t) && DistinctKeys(s, key)
    ensures DistinctKeys(t, key)
  {
    forall i, j | 0 <= i < j < |t| ensures key(t[i]) != key(t[j]) {
      assert t[i] in multiset(t) && t[j] in multiset(t);
      var m :| 0 <= m < |s| && s[m] == t[i];
      var n :| 0 <= n < |s| && s[n] == t[j];
      if t[i] == t[j] {
        Twice(t, i, j);
        OnceIfDistinct(s, key, m);
      }
    }
  }

  lemma Twice<T>(t: seq<T>, i: nat, j: nat)
    requires i < j < |t| && t[i] == t[j]
    ensures multiset(t)[t[i]] >= 2
  {
    assert t == t[..j] + [t[j]] + t[j + 1..];
    assert t[i] in t[..j];
  }

  lemma OnceIfDistinct<T>(s: seq<T>, key: T -> string, m: nat)
    requires DistinctKeys(s, key) && m < |s|
    ensures multiset(s)[s[m]] == 1
  {
    assert s == s[..m] + [s[m]] + s[m + 1..];
    assert s[m] !in s[..m] && s[m] !in s[m + 1..];
  }

  lemma LeastIsFirst<T>(s: seq<T>, key: T -> string, x: T)
    requires SortedBy(s, key) && x in s
    ensures Leq(key(s[0]), key(x))
  {
    LeqTotal(key(x), key(x));
  }

  lemma SameFirst<T>(s: seq<T>, t: seq<T>, key: T -> string)
    requires SortedBy(s, key) && SortedBy(t, key) && multiset(s) == multiset(t) && DistinctKeys(s, key) && s != []
    ensures t != [] && s[0] == t[0]
  {
    assert s[0] in multiset(t);
    assert t[0] in multiset(s);
    LeastIsFirst(s, key, t[0]);
    LeastIsFirst(t, key, s[0]);
    LeqAntisymmetric(key(s[0]), key(t[0]));
  }

  lemma TailIsSorted<T>(s: seq<T>, key: T -> string)
    requires SortedBy(s, key) && s != []
    ensures SortedBy(s[1..], key)
  {
  }

  lemma TailIsDistinct<T>(s: seq<T>, key: T -> string)
    requires DistinctKeys(s, key) && s != []
    ensures DistinctKeys(s[1..], key)
  {
  }

  lemma SameTail<T>(s: seq<T>, t: seq<T>)
    requires s != [] && t != [] && s[0] == t[0] && multiset(s) == multiset(t)
    ensures multiset(s[1..]) == multiset(t[1..])
  {
    assert s == [s[0]] + s[1..] && t == [t[0]] + t[1..];
    assert multiset(s[1..]) == multiset(s) - multiset{s[0]} == multiset(t[1..]);
  }

  /** Two sorted arrangements of the same elements agree when no two keys are equal. */
  lemma {:induction false} SortedUnique<T>(s: seq<T>, t: seq<T>, key: T -> string)
    requires SortedBy(s, key) && SortedBy(t, key) && multiset(s) == multiset(t) && DistinctKeys(s, key)
    ensures s == t
  {
    if s == [] {
      assert |multiset(t)| == 0;
    } else {
      hide SortedBy, DistinctKeys;
      SameFirst(s, t, key);
      SameTail(s, t);
      TailIsSorted(s, key);
      TailIsSorted(t, key);
      TailIsDistinct(s, key);
      SortedUnique(s[1..], t[1..], key);
      assert s == [s[0]] + s[1..] && t == [t[0]] + t[1..];
    }
  }

  /** Sorting by a key that tells the elements apart does not depend on their order. */
  lemma SortIgnoresOrder<T>(s: seq<T>, t: seq<T>, key: T -> string)
    requires multiset(s) == multiset(t) && DistinctKeys(s, key)
    ensures SortBy(s, key) == SortBy(t, key)
  {
    SortPermutes(s, key);
    SortPermutes(t, key);
    DistinctKeysPermute(s, SortBy(s, key), key);
    SortedUnique(SortBy(s, key), SortBy(t, key), key);
  }
}
