/**
  The list operations the app applies to every store: keeping the records that
  satisfy a condition (a Python list comprehension with an `if`), taking a
  prefix (`[:n]`), and Python's stable `sort(key=..., reverse=True)`.

  Sort keys are pairs compared lexicographically, which covers every sort key
  the app uses (a rank or a count first, a timestamp second).
*/
module Seqs {
  import opened Wrappers

  function Min(a: int, b: int): int { if a <= b then a else b }

  // ----- filtering -----

  /** `[x for x in s if p(x)]`. */
  function Keep<T>(s: seq<T>, p: T -> bool): (r: seq<T>)
    ensures |r| <= |s|
    ensures forall i :: 0 <= i < |r| ==> p(r[i])
    decreases |s|
  {
    if |s| == 0 then []
    else if p(s[0]) then [s[0]] + Keep(s[1..], p)
    else Keep(s[1..], p)
  }

  /** The filter keeps exactly the elements that satisfy `p`. */
  lemma {:induction false} KeepMembers<T>(s: seq<T>, p: T -> bool)
    ensures forall i :: 0 <= i < |Keep(s, p)| ==> Keep(s, p)[i] in s
    ensures forall i :: 0 <= i < |s| && p(s[i]) ==> s[i] in Keep(s, p)
    decreases |s|
  {
    if |s| > 0 {
      KeepMembers(s[1..], p);
      assert forall i :: 1 <= i < |s| ==> s[i] == s[1..][i - 1];
    }
  }

  /** Membership in a filtered sequence. */
  lemma {:induction false} KeepIn<T>(s: seq<T>, p: T -> bool)
    ensures forall x :: x in Keep(s, p) <==> x in s && p(x)
    decreases |s|
  {
    if |s| > 0 {
      KeepIn(s[1..], p);
      assert s == [s[0]] + s[1..];
    }
  }

  /** Filtering a concatenation filters each part. */
  lemma {:induction false} KeepAppend<T>(a: seq<T>, b: seq<T>, p: T -> bool)
    ensures Keep(a + b, p) == Keep(a, p) + Keep(b, p)
    decreases |a|
  {
    if |a| == 0 {
      assert a + b == b;
    } else {
      assert (a + b)[0] == a[0];
      assert (a + b)[1..] == a[1..] + b;
      KeepAppend(a[1..], b, p);
    }
  }

  /** Keeping from a sequence one element longer keeps that element at the end when it passes. */
  lemma KeepSnoc<T>(s: seq<T>, x: T, p: T -> bool)
    ensures Keep(s + [x], p) == Keep(s, p) + (if p(x) then [x] else [])
  {
    KeepAppend(s, [x], p);
  }

  /** A one-element sequence whose element passes is kept whole. */
  lemma KeepOne<T>(x: T, p: T -> bool)
    requires p(x)
    ensures Keep([x], p) == [x]
  {
    assert [x][1..] == [];
  }

  /** A filter that every element passes keeps the whole sequence. */
  lemma {:induction false} KeepAll<T>(s: seq<T>, p: T -> bool)
    requires forall i :: 0 <= i < |s| ==> p(s[i])
    ensures Keep(s, p) == s
    decreases |s|
  {
    if |s| > 0 {
      KeepAll(s[1..], p);
    }
  }

  /** Filtering: its members, its split over a concatenation, and a filter every element passes. */
  lemma KeepSplit<T>(a: seq<T>, b: seq<T>, p: T -> bool)
    ensures forall x :: x in Keep(a, p) <==> x in a && p(x)
    ensures Keep(a + b, p) == Keep(a, p) + Keep(b, p)
    ensures (forall i :: 0 <= i < |a| ==> p(a[i])) ==> Keep(a, p) == a
  {
    KeepIn(a, p);
    KeepAppend(a, b, p);
    if forall i :: 0 <= i < |a| ==> p(a[i]) {
      KeepAll(a, p);
    }
  }

  /** A filter that no element passes keeps nothing. */
  lemma {:induction false} KeepNone<T>(s: seq<T>, p: T -> bool)
    requires forall i :: 0 <= i < |s| ==> !p(s[i])
    ensures Keep(s, p) == []
    decreases |s|
  {
    if |s| > 0 {
      KeepNone(s[1..], p);
    }
  }

  /** The number of elements that satisfy `p`. */
  function Count<T>(s: seq<T>, p: T -> bool): (n: nat)
    ensures n <= |s|
  {
    |Keep(s, p)|
  }

  lemma {:induction false} CountAppend<T>(a: seq<T>, b: seq<T>, p: T -> bool)
    ensures Count(a + b, p) == Count(a, p) + Count(b, p)
  {
    KeepAppend(a, b, p);
  }

  /** The elements that pass and those that fail a test are the whole list. */
  lemma {:induction false} KeepPartition<T>(s: seq<T>, p: T -> bool, q: T -> bool)
    requires forall i :: 0 <= i < |s| ==> q(s[i]) == !p(s[i])
    ensures |Keep(s, q)| == |s| - |Keep(s, p)|
    decreases |s|
  {
    if |s| > 0 {
      KeepPartition(s[1..], p, q);
    }
  }

  /** The counts of two tests that no element passes together add up to at most the length. */
  lemma {:induction false} DisjointCounts<T>(s: seq<T>, p: T -> bool, q: T -> bool)
    requires forall i :: 0 <= i < |s| ==> !(p(s[i]) && q(s[i]))
    ensures Count(s, p) + Count(s, q) <= |s|
    decreases |s|
  {
    if |s| > 0 {
      DisjointCounts(s[1..], p, q);
    }
  }

  /** One more element of a prefix. */
  lemma TakeSnoc<T>(s: seq<T>, k: nat)
    requires k < |s|
    ensures s[..k + 1] == s[..k] + [s[k]]
  {
  }

  lemma TakeAll<T>(s: seq<T>)
    ensures s[..|s|] == s
  {
  }

  /** Counting after appending one element. */
  lemma CountSnoc<T>(s: seq<T>, x: T, p: T -> bool)
    ensures Count(s + [x], p) == Count(s, p) + if p(x) then 1 else 0
  {
    CountAppend(s, [x], p);
    assert [x][1..] == [];
  }

  /** Filtering keeps pairwise distinct keys pairwise distinct. */
  lemma {:induction false} KeepDistinct<T, K>(s: seq<T>, p: T -> bool, key: T -> K)
    requires forall i, j :: 0 <= i < j < |s| ==> key(s[i]) != key(s[j])
    ensures forall i, j :: 0 <= i < j < |Keep(s, p)| ==> key(Keep(s, p)[i]) != key(Keep(s, p)[j])
    decreases |s|
  {
    if |s| > 0 {
      var rest := s[1..];
      assert forall i, j :: 0 <= i < j < |rest| ==> key(rest[i]) != key(rest[j]) by {
        forall i, j | 0 <= i < j < |rest|
          ensures key(rest[i]) != key(rest[j])
        {
          assert rest[i] == s[i + 1] && rest[j] == s[j + 1];
        }
      }
      KeepDistinct(rest, p, key);
      if p(s[0]) {
        var t := Keep(rest, p);
        KeepMembers(rest, p);
        forall j | 0 <= j < |t|
          ensures key(s[0]) != key(t[j])
        {
          var i :| 0 <= i < |rest| && rest[i] == t[j];
          assert s[i + 1] == t[j];
        }
        var r := Keep(s, p);
        assert r == [s[0]] + t;
        forall i, j | 0 <= i < j < |r|
          ensures key(r[i]) != key(r[j])
        {
          if i > 0 {
            assert r[i] == t[i - 1] && r[j] == t[j - 1];
          } else {
            assert r[j] == t[j - 1];
          }
        }
      }
    }
  }

  /** `s[:n]`. */
  function Take<T>(s: seq<T>, n: nat): (r: seq<T>)
    ensures |r| == Min(|s|, n)
    ensures r == s[..|r|]
  {
    if n <= |s| then s[..n] else s
  }

  /** The index of the first element that satisfies `p`, the search a `for ... if ...: ...; break` loop does. */
  function FirstWhere<T>(s: seq<T>, p: T -> bool): (r: Option<nat>)
    ensures r.Some? ==> r.value < |s| && p(s[r.value]) && forall j :: 0 <= j < r.value ==> !p(s[j])
    ensures r.None? ==> forall j :: 0 <= j < |s| ==> !p(s[j])
    decreases |s|
  {
    if |s| == 0 then None
    else if p(s[0]) then Some(0)
    else match FirstWhere(s[1..], p)
      case None => None
      case Some(i) => Some(i + 1)
  }

  // ----- keeping the first element per key -----

  /** An element appended after elements that all fail `p` is the first match when it satisfies `p`. */
  lemma FirstWhereAppended<T>(s: seq<T>, x: T, p: T -> bool)
    requires forall j :: 0 <= j < |s| ==> !p(s[j])
    requires p(x)
    ensures FirstWhere(s + [x], p) == Some(|s|)
  {
    var t := s + [x];
    assert t[|s|] == x;
    assert forall j :: 0 <= j < |s| ==> t[j] == s[j];
  }

  /** The first match is at `i` when `i` matches and nothing before it does. */
  lemma FirstWhereAt<T>(s: seq<T>, p: T -> bool, i: nat)
    requires i < |s| && p(s[i])
    requires forall j :: 0 <= j < i ==> !p(s[j])
    ensures FirstWhere(s, p) == Some(i)
  {
  }

  /** Two tests that agree on every element find the same first match. */
  lemma {:induction false} FirstWhereSame<T>(s: seq<T>, p: T -> bool, q: T -> bool)
    requires forall i :: 0 <= i < |s| ==> p(s[i]) == q(s[i])
    ensures FirstWhere(s, p) == FirstWhere(s, q)
    decreases |s|
  {
    if |s| > 0 {
      FirstWhereSame(s[1..], p, q);
    }
  }

  /** The keys of a sequence, in order. */
  function Keys<T, K>(s: seq<T>, key: T -> K): (r: seq<K>)
    ensures |r| == |s| && forall i :: 0 <= i < |s| ==> r[i] == key(s[i])
  {
    seq(|s|, i requires 0 <= i < |s| => key(s[i]))
  }

  /** Keeps the first element of each key not already in `seen`; later elements with a seen key are dropped. */
  function DedupeFrom<T, K(==)>(s: seq<T>, key: T -> K, seen: set<K>): (r: seq<T>)
    ensures |r| <= |s|
    decreases |s|
  {
    if |s| == 0 then []
    else if key(s[0]) in seen then DedupeFrom(s[1..], key, seen)
    else [s[0]] + DedupeFrom(s[1..], key, seen + {key(s[0])})
  }

  /** Keeping the first element per key (pandas' `drop_duplicates(keep="first")`). */
  function Dedupe<T, K(==)>(s: seq<T>, key: T -> K): seq<T> {
    DedupeFrom(s, key, {})
  }

  /**
    What the dedupe keeps: elements of `s` in their order, no key twice and
    none from `seen`, and every key of `s` outside `seen` represented.
  */
  lemma {:induction false} DedupeFromSpec<T, K>(s: seq<T>, key: T -> K, seen: set<K>)
    ensures var r := DedupeFrom(s, key, seen);
            (forall i :: 0 <= i < |r| ==> r[i] in s && key(r[i]) !in seen)
            && (forall i, j :: 0 <= i < j < |r| ==> key(r[i]) != key(r[j]))
            && (forall i :: 0 <= i < |s| && key(s[i]) !in seen ==> key(s[i]) in Keys(r, key))
    decreases |s|
  {
    if |s| > 0 {
      var x := s[0];
      if key(x) in seen {
        DedupeFromSpec(s[1..], key, seen);
        assert forall i :: 1 <= i < |s| ==> s[i] == s[1..][i - 1];
      } else {
        var seen' := seen + {key(x)};
        DedupeFromSpec(s[1..], key, seen');
        var t := DedupeFrom(s[1..], key, seen');
        var r := [x] + t;
        assert forall i :: 1 <= i < |r| ==> r[i] == t[i - 1];
        assert forall i :: 1 <= i < |s| ==> s[i] == s[1..][i - 1];
        forall i | 0 <= i < |s| && key(s[i]) !in seen
          ensures key(s[i]) in Keys(r, key)
        {
          if key(s[i]) == key(x) {
            assert Keys(r, key)[0] == key(x);
          } else {
            assert i > 0 && key(s[1..][i - 1]) !in seen';
            var j :| 0 <= j < |t| && Keys(t, key)[j] == key(s[i]);
            assert Keys(r, key)[j + 1] == key(s[i]);
          }
        }
      }
    }
  }

  /** On a sequence with no repeated key, the dedupe keeps everything. */
  lemma {:induction false} DedupeFromDistinct<T, K>(s: seq<T>, key: T -> K, seen: set<K>)
    requires forall i, j :: 0 <= i < j < |s| ==> key(s[i]) != key(s[j])
    requires forall i :: 0 <= i < |s| ==> key(s[i]) !in seen
    ensures DedupeFrom(s, key, seen) == s
    decreases |s|
  {
    if |s| > 0 {
      DedupeFromDistinct(s[1..], key, seen + {key(s[0])});
    }
  }

  // ----- stable descending sort -----

  /** A sort key: compared on `major` first, then on `minor`. */
  datatype Key = Key(major: int, minor: int)

  /** A missing or unparseable timestamp sorts like the empty string, below every real timestamp. */
  function CreatedKey(t: Option<nat>): (k: int)
    ensures t.None? ==> k < 0
    ensures t.Some? ==> k == t.value
  {
    match t
    case None => -1
    case Some(v) => v
  }

  /** Strict lexicographic order on keys. */
  predicate Above(a: Key, b: Key) {
    a.major > b.major || (a.major == b.major && a.minor > b.minor)
  }

  /** The key that orders the other way round, for ascending sorts. */
  function Negated(k: Key): Key {
    Key(-k.major, -k.minor)
  }

  /** No element is ordered strictly above an element before it. */
  predicate SortedDesc<T>(s: seq<T>, key: T -> Key) {
    forall i, j :: 0 <= i < j < |s| ==> !Above(key(s[j]), key(s[i]))
  }

  /** Where `x` goes: after the elements strictly above it, before the first one that is not. */
  function InsertPos<T>(x: T, s: seq<T>, key: T -> Key): (n: nat)
    ensures n <= |s|
    ensures forall i :: 0 <= i < n ==> Above(key(s[i]), key(x))
    ensures n < |s| ==> !Above(key(s[n]), key(x))
    decreases |s|
  {
    if |s| == 0 || !Above(key(s[0]), key(x)) then 0 else 1 + InsertPos(x, s[1..], key)
  }

  function Insert<T>(x: T, s: seq<T>, key: T -> Key): (r: seq<T>)
    ensures multiset(r) == multiset(s) + multiset{x}
    ensures |r| == |s| + 1
  {
    var n := InsertPos(x, s, key);
    assert s == s[..n] + s[n..];
    s[..n] + [x] + s[n..]
  }

  lemma InsertSorted<T>(x: T, s: seq<T>, key: T -> Key)
    requires SortedDesc(s, key)
    ensures SortedDesc(Insert(x, s, key), key)
  {
    var n := InsertPos(x, s, key);
    var r := Insert(x, s, key);
    forall i, j | 0 <= i < j < |r|
      ensures !Above(key(r[j]), key(r[i]))
    {
      if j > n && i == n {
        assert r[j] == s[j - 1];
        assert !Above(key(s[j - 1]), key(s[n]));
      }
    }
  }

  /** `sorted(s, key=key, reverse=True)`: Python's sort is stable, so elements with equal keys keep their order. */
  function SortDesc<T>(s: seq<T>, key: T -> Key): (r: seq<T>)
    ensures multiset(r) == multiset(s)
    ensures |r| == |s|
    ensures SortedDesc(r, key)
    decreases |s|
  {
    if |s| == 0 then []
    else
      var t := SortDesc(s[1..], key);
      assert s == [s[0]] + s[1..];
      InsertSorted(s[0], t, key);
      Insert(s[0], t, key)
  }

  /** Sorting keeps exactly the elements it was given. */
  lemma SortDescIn<T>(s: seq<T>, key: T -> Key)
    ensures forall x :: x in SortDesc(s, key) <==> x in s
  {
    var r := SortDesc(s, key);
    forall x
      ensures x in r <==> x in s
    {
      assert x in r <==> x in multiset(r);
      assert x in s <==> x in multiset(s);
    }
  }

  /**
    The first `n` of a sorted sequence are its members highest first, and
    a member left out is ranked no higher than any of them.
  */
  lemma TakeOfSorted<T>(s: seq<T>, key: T -> Key, n: nat)
    requires SortedDesc(s, key)
    ensures var r := Take(s, n);
            |r| <= n && (forall x :: x in r ==> x in s) && SortedDesc(r, key)
            && forall x :: x in s && x !in r ==> |r| == n && forall y :: y in r ==> !Above(key(x), key(y))
  {
    var r := Take(s, n);
    forall x | x in s && x !in r
      ensures |r| == n && forall y :: y in r ==> !Above(key(x), key(y))
    {
      var p :| 0 <= p < |s| && s[p] == x;
      assert p >= |r|;
      forall y | y in r
        ensures !Above(key(x), key(y))
      {
        var q :| 0 <= q < |r| && r[q] == y;
        assert s[q] == y;
      }
    }
  }

  /** `sorted(s, key=key)`: the stable ascending sort, which is the descending sort on the negated key. */
  function SortAsc<T>(s: seq<T>, key: T -> Key): (r: seq<T>)
    ensures multiset(r) == multiset(s)
    ensures forall i, j :: 0 <= i < j < |r| ==> !Above(key(r[i]), key(r[j]))
  {
    SortDesc(s, x => Negated(key(x)))
  }

  /** The elements whose key is exactly `k`, in order. */
  function WithKey<T>(s: seq<T>, key: T -> Key, k: Key): seq<T> {
    Keep(s, HasKey(key, k))
  }

  function HasKey<T>(key: T -> Key, k: Key): T -> bool {
    x => key(x) == k
  }

  /** Inserting `x` changes the elements of one key class only by putting `x` in front. */
  lemma {:induction false} InsertStable<T>(x: T, s: seq<T>, key: T -> Key, k: Key)
    ensures WithKey(Insert(x, s, key), key, k) == WithKey([x] + s, key, k)
    decreases |s|
  {
    var p := HasKey(key, k);
    if |s| == 0 || !Above(key(s[0]), key(x)) {
      InsertFront(x, s, key);
    } else {
      InsertCons(x, s, key);
      InsertStable(x, s[1..], key, k);
      assert [s[0]] + s[1..] == s;
      KeepPastOther(s[0], x, s[1..], Insert(x, s[1..], key), p);
    }
  }

  /** Moving `x` past an element `h` that not both of them pass leaves what passes in the same order. */
  lemma KeepPastOther<T>(h: T, x: T, tail: seq<T>, t: seq<T>, p: T -> bool)
    requires !(p(h) && p(x))
    requires Keep(t, p) == Keep([x] + tail, p)
    ensures Keep([h] + t, p) == Keep([x] + ([h] + tail), p)
  {
    KeepCons(h, t, p);
    KeepCons(x, tail, p);
    KeepCons(h, tail, p);
    KeepCons(x, [h] + tail, p);
    if p(h) {
      assert Keep([x] + ([h] + tail), p) == [h] + Keep(tail, p);
    } else if p(x) {
      assert Keep([h] + t, p) == [x] + Keep(tail, p);
    }
  }

  /** An element not below the first one goes in front. */
  lemma InsertFront<T>(x: T, s: seq<T>, key: T -> Key)
    requires |s| == 0 || !Above(key(s[0]), key(x))
    ensures Insert(x, s, key) == [x] + s
  {
    assert InsertPos(x, s, key) == 0;
    assert s[..0] == [] && s[0..] == s;
  }

  /** Past an element strictly above `x`, insertion continues in the rest. */
  lemma InsertCons<T>(x: T, s: seq<T>, key: T -> Key)
    requires |s| > 0 && Above(key(s[0]), key(x))
    ensures Insert(x, s, key) == [s[0]] + Insert(x, s[1..], key)
  {
    var m := InsertPos(x, s[1..], key);
    assert InsertPos(x, s, key) == m + 1;
    SplitAfterHead(s, m, x);
  }

  /** Putting `x` after the first m + 1 elements is keeping the head and putting it after m in the rest. */
  lemma SplitAfterHead<T>(s: seq<T>, m: nat, x: T)
    requires m < |s|
    ensures s[..m + 1] + [x] + s[m + 1..] == [s[0]] + (s[1..][..m] + [x] + s[1..][m..])
  {
    assert s[..m + 1] == [s[0]] + s[1..][..m];
    assert s[m + 1..] == s[1..][m..];
  }

  /** Filtering a sequence with a known first element. */
  lemma KeepCons<T>(x: T, s: seq<T>, p: T -> bool)
    ensures Keep([x] + s, p) == if p(x) then [x] + Keep(s, p) else Keep(s, p)
  {
    assert ([x] + s)[0] == x;
    assert ([x] + s)[1..] == s;
  }

  /** Stability: the elements with any given key appear in the sorted sequence in their original order. */
  lemma {:induction false} SortDescStable<T>(s: seq<T>, key: T -> Key, k: Key)
    ensures WithKey(SortDesc(s, key), key, k) == WithKey(s, key, k)
    decreases |s|
  {
    if |s| > 0 {
      SortDescStable(s[1..], key, k);
      InsertStable(s[0], SortDesc(s[1..], key), key, k);
      var p := HasKey(key, k);
      KeepAppend([s[0]], SortDesc(s[1..], key), p);
      KeepAppend([s[0]], s[1..], p);
      assert s == [s[0]] + s[1..];
    }
  }

  /** A sequence that is already in order comes back unchanged. */
  lemma {:induction false} SortDescOfSorted<T>(s: seq<T>, key: T -> Key)
    requires SortedDesc(s, key)
    ensures SortDesc(s, key) == s
    decreases |s|
  {
    if |s| > 0 {
      assert SortedDesc(s[1..], key);
      SortDescOfSorted(s[1..], key);
      assert |s| == 1 || !Above(key(s[1]), key(s[0]));
    }
  }

  /** Two tests that agree on every element keep the same elements. */
  lemma {:induction false} KeepSame<T>(s: seq<T>, p: T -> bool, q: T -> bool)
    requires forall i :: 0 <= i < |s| ==> p(s[i]) == q(s[i])
    ensures Keep(s, p) == Keep(s, q)
    decreases |s|
  {
    if |s| > 0 {
      KeepSame(s[1..], p, q);
    }
  }

  /** Keeping the first per key of a sequence one element longer: the new element is kept when its key is new. */
  lemma {:induction false} DedupeFromSnoc<T, K>(s: seq<T>, x: T, key: T -> K, seen: set<K>)
    ensures DedupeFrom(s + [x], key, seen)
            == DedupeFrom(s, key, seen) + (if key(x) in seen || key(x) in Keys(s, key) then [] else [x])
    decreases |s|
  {
    if |s| == 0 {
      assert s + [x] == [x];
    } else {
      assert (s + [x])[0] == s[0];
      assert (s + [x])[1..] == s[1..] + [x];
      assert Keys(s, key) == [key(s[0])] + Keys(s[1..], key);
      if key(s[0]) in seen {
        DedupeFromSnoc(s[1..], x, key, seen);
      } else {
        DedupeFromSnoc(s[1..], x, key, seen + {key(s[0])});
      }
    }
  }

  /** The dedupe keeps every key of the sequence once: its keys are the sequence's keys, without repeats. */
  lemma DedupeKeys<T, K>(s: seq<T>, key: T -> K)
    ensures var r := Keys(Dedupe(s, key), key);
            (forall k :: k in r <==> k in Keys(s, key))
            && forall i, j :: 0 <= i < j < |r| ==> r[i] != r[j]
  {
    DedupeFromSpec(s, key, {});
    var d := Dedupe(s, key);
    forall k | k in Keys(d, key)
      ensures k in Keys(s, key)
    {
      var i :| 0 <= i < |d| && Keys(d, key)[i] == k;
      var j :| 0 <= j < |s| && s[j] == d[i];
      assert Keys(s, key)[j] == k;
    }
  }
}
