/** Grouping a list into a JavaScript `Map` from string keys to arrays: the
    pattern `const existing = grouped.get(key) || []; existing.push(x);
    grouped.set(key, existing)` run over a list, where an element without a key
    is skipped. A `Map` remembers the order in which its keys were first set. */
module Grouping {
  import opened Wrappers

  /** A JavaScript `Map<string, T[]>`: its keys in insertion order and its entries. */
  datatype Grouped<T> = Grouped(keys: seq<string>, items: map<string, seq<T>>)

  /** The keys are distinct and are exactly the entries' keys. */
  ghost predicate WellFormed<T>(g: Grouped<T>) {
    (forall i, j :: 0 <= i < j < |g.keys| ==> g.keys[i] != g.keys[j]) &&
    (forall k :: k in g.items <==> k in g.keys)
  }

  function Empty<T>(): (g: Grouped<T>)
    ensures WellFormed(g) && g.items == map[]
  {
    Grouped([], map[])
  }

  /** `map.set(k, v)`: a new key goes to the end of the key order, an existing
      key keeps its place. */
  function Set<T>(g: Grouped<T>, k: string, v: seq<T>): (r: Grouped<T>)
    requires WellFormed(g)
    ensures WellFormed(r)
    ensures r.items == g.items[k := v]
    ensures k in g.items ==> r.keys == g.keys
    ensures k !in g.items ==> r.keys == g.keys + [k]
  {
    if k in g.items then Grouped(g.keys, g.items[k := v])
    else Grouped(g.keys + [k], g.items[k := v])
  }

  // ---------------------------------------------------------------------------
  // Sublists

  /** `sub` is `xs` with some elements left out and the rest in their order:
      the last element of `xs` either ends `sub` or is left out. */
  predicate Subsequence<T(==)>(sub: seq<T>, xs: seq<T>)
    decreases |xs|
  {
    if xs == [] then sub == []
    else
      (sub != [] && sub[|sub| - 1] == xs[|xs| - 1] && Subsequence(sub[..|sub| - 1], xs[..|xs| - 1])) ||
      Subsequence(sub, xs[..|xs| - 1])
  }

  /** A sublist of a sublist is a sublist. */
  lemma {:induction false} SubsequenceTransitive<T>(a: seq<T>, b: seq<T>, c: seq<T>)
    requires Subsequence(a, b) && Subsequence(b, c)
    ensures Subsequence(a, c)
    decreases |c|
  {
    if c != [] {
      var ci := c[..|c| - 1];
      if b != [] && b[|b| - 1] == c[|c| - 1] && Subsequence(b[..|b| - 1], ci) {
        var bi := b[..|b| - 1];
        if a != [] && a[|a| - 1] == b[|b| - 1] && Subsequence(a[..|a| - 1], bi) {
          SubsequenceTransitive(a[..|a| - 1], bi, ci);
        } else {
          SubsequenceTransitive(a, bi, ci);
        }
      } else {
        SubsequenceTransitive(a, b, ci);
      }
    }
  }

  // ---------------------------------------------------------------------------
  // What grouping should produce

  /** The elements of `xs` whose key is `k`, in their order in `xs`. */
  function Select<T>(xs: seq<T>, key: T -> Option<string>, k: string): (r: seq<T>)
    ensures |r| <= |xs|
    ensures forall i :: 0 <= i < |r| ==> r[i] in xs && key(r[i]) == Some(k)
    ensures forall i :: 0 <= i < |xs| && key(xs[i]) == Some(k) ==> xs[i] in r
  {
    if xs == [] then []
    else
      var init, last := xs[..|xs| - 1], xs[|xs| - 1];
      Snoc(xs);
      Select(init, key, k) + (if key(last) == Some(k) then [last] else [])
  }

  /** The selection is a sublist of `xs` holding each element with key `k` as
      often as `xs` does, and nothing else. */
  lemma {:induction false} SelectSublist<T>(xs: seq<T>, key: T -> Option<string>, k: string)
    ensures Subsequence(Select(xs, key, k), xs)
    ensures forall x :: x in xs ==> multiset(Select(xs, key, k))[x] == if key(x) == Some(k) then multiset(xs)[x] else 0
    decreases |xs|
  {
    if xs != [] {
      var init, last := xs[..|xs| - 1], xs[|xs| - 1];
      SelectSublist(init, key, k);
      Snoc(xs);
      SnocSublist(Select(init, key, k), init, last, key(last) == Some(k));
      SnocCounts(Select(init, key, k), init, last, (x: T) => key(x) == Some(k));
    }
  }

  /** The test "has a key". */
  function HasKey<T>(key: T -> Option<string>): T -> bool {
    (x: T) => key(x).Some?
  }

  /** The elements of `xs` that have a key, in order and as often as in `xs`. */
  function Kept<T>(xs: seq<T>, key: T -> Option<string>): (r: seq<T>)
    ensures |r| <= |xs|
    ensures forall i :: 0 <= i < |r| ==> r[i] in xs && key(r[i]).Some?
    ensures forall i :: 0 <= i < |xs| && key(xs[i]).Some? ==> xs[i] in r
  {
    Filter(xs, HasKey(key))
  }

  /** The kept elements are a sublist of `xs` holding each element with a key
      as often as `xs` does, and nothing else. */
  lemma KeptSublist<T>(xs: seq<T>, key: T -> Option<string>)
    ensures Subsequence(Kept(xs, key), xs)
    ensures forall x :: x in xs ==> multiset(Kept(xs, key))[x] == if key(x).Some? then multiset(xs)[x] else 0
  {
    FilterSublist(xs, HasKey(key));
  }

  /** The elements of `xs` that pass `keep`, in their order in `xs` and as
      often as in `xs` (`Array.filter`). */
  function Filter<T>(xs: seq<T>, keep: T -> bool): (r: seq<T>)
    ensures |r| <= |xs|
    ensures forall i :: 0 <= i < |r| ==> r[i] in xs && keep(r[i])
    ensures forall i :: 0 <= i < |xs| && keep(xs[i]) ==> xs[i] in r
  {
    if xs == [] then []
    else
      var init, last := xs[..|xs| - 1], xs[|xs| - 1];
      Snoc(xs);
      Filter(init, keep) + (if keep(last) then [last] else [])
  }

  /** The filtered list is a sublist of `xs` holding each passing element as
      often as `xs` does, and no failing one. */
  lemma {:induction false} FilterSublist<T>(xs: seq<T>, keep: T -> bool)
    ensures Subsequence(Filter(xs, keep), xs)
    ensures forall x :: x in xs ==> multiset(Filter(xs, keep))[x] == if keep(x) then multiset(xs)[x] else 0
    decreases |xs|
  {
    if xs != [] {
      var init, last := xs[..|xs| - 1], xs[|xs| - 1];
      FilterSublist(init, keep);
      Snoc(xs);
      SnocSublist(Filter(init, keep), init, last, keep(last));
      SnocCounts(Filter(init, keep), init, last, keep);
    }
  }

  /** A sublist of `init`, with `last` appended or not, is a sublist of
      `init + [last]`. */
  lemma SnocSublist<T>(f: seq<T>, init: seq<T>, last: T, b: bool)
    requires Subsequence(f, init)
    ensures Subsequence(f + (if b then [last] else []), init + [last])
  {
    var xs := init + [last];
    InitOfSnoc(init, last);
    if b {
      var sub := f + [last];
      InitOfSnoc(f, last);
      assert sub[|sub| - 1] == xs[|xs| - 1];
      assert sub[..|sub| - 1] == f && xs[..|xs| - 1] == init;
      assert sub != [] && xs != [];
    } else {
      assert f + [] == f;
    }
  }

  /** Appending `last` to `init`, and to the selection of `init` exactly when
      it passes, keeps the selection's multiplicities those of `init + [last]`. */
  lemma SnocCounts<T>(f: seq<T>, init: seq<T>, last: T, keep: T -> bool)
    requires forall x :: x in f ==> x in init
    requires forall x :: x in init ==> multiset(f)[x] == if keep(x) then multiset(init)[x] else 0
    ensures forall x :: x in init + [last] ==>
              multiset(f + (if keep(last) then [last] else []))[x] == if keep(x) then multiset(init + [last])[x] else 0
  {
    forall x | x in init + [last]
      ensures multiset(f + (if keep(last) then [last] else []))[x] == if keep(x) then multiset(init + [last])[x] else 0
    {
      if x !in init {
        assert x !in multiset(f);
      }
    }
  }

  /** Filtering a concatenation filters each part. */
  lemma {:induction false} FilterAppend<T>(a: seq<T>, b: seq<T>, keep: T -> bool)
    ensures Filter(a + b, keep) == Filter(a, keep) + Filter(b, keep)
    decreases |b|
  {
    if b == [] {
      assert a + b == a;
    } else {
      var init, last := b[..|b| - 1], b[|b| - 1];
      assert Filter(a + b, keep) == Filter(a + init, keep) + (if keep(last) then [last] else []) by {
        assert (a + b)[..|a + b| - 1] == a + init;
      }
      FilterAppend(a, init, keep);
    }
  }

  /** When every element passes, none is dropped. */
  lemma {:induction false} FilterAll<T>(xs: seq<T>, keep: T -> bool)
    requires forall i :: 0 <= i < |xs| ==> keep(xs[i])
    ensures Filter(xs, keep) == xs
  {
    if xs != [] {
      var init := xs[..|xs| - 1];
      FilterAll(init, keep);
      assert xs == init + [xs[|xs| - 1]];
    }
  }

  /** Filtering twice by the same test is filtering once. */
  lemma FilterIdempotent<T>(xs: seq<T>, keep: T -> bool)
    ensures Filter(Filter(xs, keep), keep) == Filter(xs, keep)
  {
    FilterAll(Filter(xs, keep), keep);
  }

  /** Filtering one more element appends it when it passes. */
  lemma FilterSnoc<T>(xs: seq<T>, x: T, keep: T -> bool)
    ensures keep(x) ==> Filter(xs + [x], keep) == Filter(xs, keep) + [x]
    ensures !keep(x) ==> Filter(xs + [x], keep) == Filter(xs, keep)
  {
    InitOfSnoc(xs, x);
  }

  /** A test and its negation split a list: the two parts hold every element once. */
  lemma {:induction false} FilterPartition<T>(xs: seq<T>, keep: T -> bool, drop: T -> bool)
    requires forall x :: drop(x) == !keep(x)
    ensures |Filter(xs, keep)| + |Filter(xs, drop)| == |xs|
  {
    if xs != [] {
      FilterPartition(xs[..|xs| - 1], keep, drop);
    }
  }

  /** The distinct keys of `xs` in the order they first occur. */
  function FirstSeen<T>(xs: seq<T>, key: T -> Option<string>): (ks: seq<string>)
  {
    if xs == [] then []
    else
      var ks := FirstSeen(xs[..|xs| - 1], key);
      match key(xs[|xs| - 1])
      case Some(k) => if k in ks then ks else ks + [k]
      case None => ks
  }

  /** `g` is the grouping of `xs` by `key`: one entry per key that occurs, each
      holding exactly the elements with that key in input order, and the keys
      in the order of their first occurrence. */
  ghost predicate GroupedBy<T>(g: Grouped<T>, xs: seq<T>, key: T -> Option<string>) {
    WellFormed(g) &&
    g.keys == FirstSeen(xs, key) &&
    (forall k :: k in g.items <==> Select(xs, key, k) != []) &&
    (forall k :: k in g.items ==> g.items[k] == Select(xs, key, k))
  }

  /** The number of elements held in the entries for `keys`. */
  function SizeSum<T>(keys: seq<string>, items: map<string, seq<T>>): nat
    requires forall k :: k in keys ==> k in items
  {
    if keys == [] then 0 else SizeSum(keys[..|keys| - 1], items) + |items[keys[|keys| - 1]]|
  }

  /** The number of elements a grouping holds. */
  function Size<T>(g: Grouped<T>): nat
    requires WellFormed(g)
  {
    SizeSum(g.keys, g.items)
  }

  // ---------------------------------------------------------------------------
  // One step of the loop

  /** Changing an entry whose key is not among `keys` leaves their sum alone. */
  lemma {:induction false} SizeSumUnrelated<T>(keys: seq<string>, items: map<string, seq<T>>, k: string, v: seq<T>)
    requires forall j :: j in keys ==> j in items
    requires k !in keys
    ensures SizeSum(keys, items[k := v]) == SizeSum(keys, items)
  {
    if keys != [] {
      SizeSumUnrelated(keys[..|keys| - 1], items, k, v);
    }
  }

  /** Replacing the entry of one of `keys` (listed once) changes the sum by the
      change in that entry's length. */
  lemma {:induction false} SizeSumUpdate<T>(keys: seq<string>, items: map<string, seq<T>>, k: string, v: seq<T>)
    requires forall j :: j in keys ==> j in items
    requires forall i, j :: 0 <= i < j < |keys| ==> keys[i] != keys[j]
    requires k in keys
    ensures SizeSum(keys, items[k := v]) == SizeSum(keys, items) - |items[k]| + |v|
  {
    var init := keys[..|keys| - 1];
    var last := keys[|keys| - 1];
    if last == k {
      assert k !in init;
      SizeSumUnrelated(init, items, k, v);
    } else {
      assert k in init;
      SizeSumUpdate(init, items, k, v);
    }
  }

  /** The selections of `xs + [x]` extend those of `xs` by `x` under its own key only. */
  lemma SelectAppend<T>(xs: seq<T>, key: T -> Option<string>, x: T, k: string)
    ensures Select(xs + [x], key, k) == Select(xs, key, k) + (if key(x) == Some(k) then [x] else [])
    ensures Kept(xs + [x], key) == Kept(xs, key) + (if key(x).Some? then [x] else [])
  {
    assert (xs + [x])[..|xs + [x]| - 1] == xs;
  }

  lemma FirstSeenAppend<T>(xs: seq<T>, key: T -> Option<string>, x: T)
    ensures FirstSeen(xs + [x], key) == match key(x)
                                       case Some(k) => if k in FirstSeen(xs, key) then FirstSeen(xs, key) else FirstSeen(xs, key) + [k]
                                       case None => FirstSeen(xs, key)
  {
    assert (xs + [x])[..|xs + [x]| - 1] == xs;
  }

  /** Skipping an element without a key keeps the grouping and its size. */
  lemma StepSkip<T>(g: Grouped<T>, xs: seq<T>, key: T -> Option<string>, x: T)
    requires GroupedBy(g, xs, key) && key(x).None?
    ensures GroupedBy(g, xs + [x], key)
    ensures Kept(xs + [x], key) == Kept(xs, key)
  {
    FirstSeenAppend(xs, key, x);
    forall k
      ensures Select(xs + [x], key, k) == Select(xs, key, k)
    {
      SelectAppend(xs, key, x, k);
    }
    SelectAppend(xs, key, x, "");
  }

  /** `get(k) || []`, push, `set(k, …)` turns the grouping of `xs` into that of
      `xs + [x]` and holds one more element. */
  lemma StepPush<T>(g: Grouped<T>, xs: seq<T>, key: T -> Option<string>, x: T, k: string)
    requires GroupedBy(g, xs, key) && key(x) == Some(k)
    requires Size(g) == |Kept(xs, key)|
    ensures var existing := if k in g.items then g.items[k] else [];
            var r := Set(g, k, existing + [x]);
            GroupedBy(r, xs + [x], key) && Size(r) == |Kept(xs + [x], key)|
  {
    StepPushGroups(g, xs, key, x, k);
    StepPushSize(g, xs, key, x, k);
  }

  lemma StepPushGroups<T>(g: Grouped<T>, xs: seq<T>, key: T -> Option<string>, x: T, k: string)
    requires GroupedBy(g, xs, key) && key(x) == Some(k)
    ensures var existing := if k in g.items then g.items[k] else [];
            GroupedBy(Set(g, k, existing + [x]), xs + [x], key)
  {
    var existing := if k in g.items then g.items[k] else [];
    var r := Set(g, k, existing + [x]);
    FirstSeenAppend(xs, key, x);
    SelectAppend(xs, key, x, k);
    assert k in g.items <==> k in FirstSeen(xs, key);
    forall j
      ensures j in r.items <==> Select(xs + [x], key, j) != []
      ensures j in r.items ==> r.items[j] == Select(xs + [x], key, j)
    {
      SelectAppend(xs, key, x, j);
    }
  }

  lemma StepPushSize<T>(g: Grouped<T>, xs: seq<T>, key: T -> Option<string>, x: T, k: string)
    requires GroupedBy(g, xs, key) && key(x) == Some(k)
    requires Size(g) == |Kept(xs, key)|
    ensures var existing := if k in g.items then g.items[k] else [];
            Size(Set(g, k, existing + [x])) == |Kept(xs + [x], key)|
  {
    var existing := if k in g.items then g.items[k] else [];
    var r := Set(g, k, existing + [x]);
    assert |Kept(xs + [x], key)| == |Kept(xs, key)| + 1 by {
      SelectAppend(xs, key, x, k);
    }
    assert Size(r) == Size(g) + 1 by {
      if k in g.items {
        SizeSumUpdate(g.keys, g.items, k, existing + [x]);
      } else {
        SizeSumUnrelated(g.keys, g.items, k, existing + [x]);
        assert (g.keys + [k])[..|g.keys|] == g.keys;
      }
    }
  }

  // ---------------------------------------------------------------------------
  // Consequences of a grouping

  /** The next prefix of a list is the current one and one more element. */
  lemma PrefixStep<T>(xs: seq<T>, i: nat)
    requires i < |xs|
    ensures xs[..i + 1] == xs[..i] + [xs[i]]
  {
  }

  /** A non-empty list is its first part and its last element. */
  lemma Snoc<T>(xs: seq<T>)
    requires xs != []
    ensures xs == xs[..|xs| - 1] + [xs[|xs| - 1]]
  {
  }

  /** Dropping the element just appended gives the list back. */
  lemma InitOfSnoc<T>(xs: seq<T>, x: T)
    ensures (xs + [x])[..|xs + [x]| - 1] == xs
  {
  }

  /** The prefix of full length is the whole list. */
  lemma WholePrefix<T>(xs: seq<T>)
    ensures xs[..|xs|] == xs
  {
  }

  /** Setting a key twice keeps the second value. */
  lemma SetTwice<K, V>(m: map<K, V>, k: K, v1: V, v2: V)
    ensures m[k := v1][k := v2] == m[k := v2]
  {
  }

  /** When every element has a key, none is dropped. */
  lemma KeptAll<T>(xs: seq<T>, key: T -> Option<string>)
    requires forall i :: 0 <= i < |xs| ==> key(xs[i]).Some?
    ensures Kept(xs, key) == xs
  {
    FilterAll(xs, HasKey(key));
  }

  /** Every element with a key lies in the entry for its key and in no other entry. */
  lemma ExactlyOneGroup<T>(g: Grouped<T>, xs: seq<T>, key: T -> Option<string>, i: nat, k: string)
    requires GroupedBy(g, xs, key) && i < |xs| && key(xs[i]) == Some(k)
    ensures k in g.items && xs[i] in g.items[k]
    ensures forall j :: j in g.items && xs[i] in g.items[j] ==> j == k
  {
    assert xs[i] in Select(xs, key, k);
  }

  /** Entries exist only for keys that occur, and are never empty. */
  lemma OnlyOccurringKeys<T>(g: Grouped<T>, xs: seq<T>, key: T -> Option<string>, k: string)
    requires GroupedBy(g, xs, key) && k in g.items
    ensures g.items[k] != []
    ensures exists i :: 0 <= i < |xs| && key(xs[i]) == Some(k)
  {
    var x := g.items[k][0];
    assert x in Select(xs, key, k);
    var i :| 0 <= i < |xs| && xs[i] == x;
  }
}
