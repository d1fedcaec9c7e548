/**
 The golang-lru list behind both caches, as a value: the entries from the least
 to the most recently used, no key twice.
 */
module Lru {
  import opened Wrappers

  datatype Entry<V> = Entry(key: string, value: V)

  function Find<V>(es: seq<Entry<V>>, k: string): Option<V> {
    if es == [] then None else if es[0].key == k then Some(es[0].value) else Find(es[1..], k)
  }

  predicate Distinct<V>(es: seq<Entry<V>>) {
    es == [] || (Find(es[1..], es[0].key).None? && Distinct(es[1..]))
  }

  /** The list without its entry for `k`, if it has one. */
  function Without<V>(es: seq<Entry<V>>, k: string): (t: seq<Entry<V>>)
    ensures Find(es, k).None? ==> t == es
    ensures Find(es, k).Some? ==> |t| == |es| - 1
  {
    if es == [] then [] else if es[0].key == k then es[1..] else [es[0]] + Without(es[1..], k)
  }

  lemma {:induction false} FindAppend<V>(a: seq<Entry<V>>, b: seq<Entry<V>>, k: string)
    ensures Find(a + b, k) == if Find(a, k).Some? then Find(a, k) else Find(b, k)
  {
    if a == [] {
      assert a + b == b;
    } else {
      assert (a + b)[1..] == a[1..] + b;
      FindAppend(a[1..], b, k);
    }
  }

  lemma {:induction false} FindWithout<V>(es: seq<Entry<V>>, k: string, x: string)
    requires Distinct(es)
    ensures Find(Without(es, k), x) == if x == k then None else Find(es, x)
  {
    if es != [] {
      FindWithout(es[1..], k, x);
      if es[0].key != k {
        assert ([es[0]] + Without(es[1..], k))[1..] == Without(es[1..], k);
      }
    }
  }

  lemma {:induction false} DistinctWithout<V>(es: seq<Entry<V>>, k: string)
    requires Distinct(es)
    ensures Distinct(Without(es, k))
  {
    if es != [] && es[0].key != k {
      DistinctWithout(es[1..], k);
      FindWithout(es[1..], k, es[0].key);
      assert Without(es, k)[1..] == Without(es[1..], k);
    }
  }

  lemma {:induction false} DistinctAppend<V>(es: seq<Entry<V>>, e: Entry<V>)
    requires Distinct(es) && Find(es, e.key).None?
    ensures Distinct(es + [e])
  {
    if es != [] {
      assert (es + [e])[1..] == es[1..] + [e];
      DistinctAppend(es[1..], e);
      FindAppend(es[1..], [e], es[0].key);
    }
  }

  lemma {:induction false} FindIn<V>(es: seq<Entry<V>>, k: string)
    requires Find(es, k).Some?
    ensures Entry(k, Find(es, k).value) in es
  {
    if es[0].key != k {
      FindIn(es[1..], k);
    }
  }

  lemma {:induction false} WithoutIn<V>(es: seq<Entry<V>>, k: string, e: Entry<V>)
    requires e in Without(es, k)
    ensures e in es
  {
    if es != [] && es[0].key != k && e != es[0] {
      WithoutIn(es[1..], k, e);
    }
  }

  /** The list with the entry at position `p` taken out, the others in their order. */
  predicate TakenOut<V(==)>(es: seq<Entry<V>>, p: nat, rest: seq<Entry<V>>)
    requires p < |es|
  {
    && |rest| == |es| - 1
    && (forall j | 0 <= j < p :: rest[j] == es[j])
    && (forall j | p <= j < |rest| :: rest[j] == es[j + 1])
  }

  lemma {:induction false} WithoutOrder<V>(es: seq<Entry<V>>, k: string) returns (p: nat)
    requires Find(es, k).Some?
    ensures p < |es| && es[p] == Entry(k, Find(es, k).value) && TakenOut(es, p, Without(es, k))
  {
    if es[0].key == k {
      p := 0;
    } else {
      var q := WithoutOrder(es[1..], k);
      p := q + 1;
    }
  }

  datatype Lru<V> = Lru(entries: seq<Entry<V>>) {
    predicate Valid() {
      Distinct(entries)
    }

    /** Peek: no change of recency. */
    function Peek(k: string): Option<V> {
      Find(entries, k)
    }

    /** Get on a present key: it becomes the most recent one. */
    function Touch(k: string): (t: Lru<V>)
      requires Valid() && Peek(k).Some?
      ensures t.Valid()
    {
      DistinctWithout(entries, k);
      FindWithout(entries, k, k);
      DistinctAppend(Without(entries, k), Entry(k, Peek(k).value));
      Lru(Without(entries, k) + [Entry(k, Peek(k).value)])
    }

    function Remove(k: string): (t: Lru<V>)
      requires Valid()
      ensures t.Valid()
    {
      DistinctWithout(entries, k);
      Lru(Without(entries, k))
    }

    function RemoveOldest(): (t: Lru<V>)
      requires Valid() && entries != []
      ensures t.Valid()
    {
      Lru(entries[1..])
    }

    /** Adding a new key to a full list drops the oldest entry. */
    predicate Overflows(k: string, capacity: nat) {
      Peek(k).None? && |entries| >= capacity
    }

    function Add(k: string, v: V, capacity: nat): (t: Lru<V>)
      requires Valid() && capacity >= 1
      ensures t.Valid()
      ensures |entries| <= capacity ==> |t.entries| <= capacity
    {
      DistinctWithout(entries, k);
      FindWithout(entries, k, k);
      DistinctAppend(Without(entries, k), Entry(k, v));
      var grown := Lru(Without(entries, k) + [Entry(k, v)]);
      if Overflows(k, capacity) then grown.RemoveOldest() else grown
    }

    /** A touched entry is the most recent one; the others keep their order. */
    lemma TouchOrder(k: string) returns (p: nat)
      requires Valid() && Peek(k).Some?
      ensures p < |entries| && entries[p] == Entry(k, Peek(k).value)
      ensures var t := Touch(k).entries; t != [] && t[|t| - 1] == entries[p] && TakenOut(entries, p, t[..|t| - 1])
    {
      p := WithoutOrder(entries, k);
      assert Touch(k).entries[..|entries| - 1] == Without(entries, k);
    }

    lemma RemoveOrder(k: string) returns (p: nat)
      requires Valid() && Peek(k).Some?
      ensures p < |entries| && entries[p].key == k && TakenOut(entries, p, Remove(k).entries)
    {
      p := WithoutOrder(entries, k);
    }

    /** An added entry is the most recent one; it takes the place of an old one or, in a full list, of the oldest. */
    lemma AddOrder(k: string, v: V, capacity: nat) returns (p: nat)
      requires Valid() && capacity >= 1 && |entries| <= capacity
      ensures var t := Add(k, v, capacity).entries;
              && t != [] && t[|t| - 1] == Entry(k, v)
              && var rest := t[..|t| - 1];
                 if Peek(k).Some? then p < |entries| && entries[p].key == k && TakenOut(entries, p, rest)
                 else if |entries| == capacity then p == 0 && TakenOut(entries, 0, rest)
                 else rest == entries
    {
      var t := Add(k, v, capacity).entries;
      p := 0;
      if Peek(k).Some? {
        p := WithoutOrder(entries, k);
        assert t[..|t| - 1] == Without(entries, k);
      } else if |entries| == capacity {
        assert t == entries[1..] + [Entry(k, v)] && t[..|t| - 1] == entries[1..];
      } else {
        assert t[..|t| - 1] == entries;
      }
    }

    lemma TouchPeek(k: string, x: string)
      requires Valid() && Peek(k).Some?
      ensures Touch(k).Peek(x) == Peek(x)
    {
      FindWithout(entries, k, x);
      FindAppend(Without(entries, k), [Entry(k, Peek(k).value)], x);
    }

    lemma RemovePeek(k: string, x: string)
      requires Valid()
      ensures Remove(k).Peek(x) == if x == k then None else Peek(x)
    {
      FindWithout(entries, k, x);
    }

    /** After an insertion: the new entry, and otherwise only what was there. */
    lemma AddPeek(k: string, v: V, capacity: nat, x: string)
      requires Valid() && capacity >= 1
      ensures Add(k, v, capacity).Peek(k) == Some(v)
      ensures x != k ==> Add(k, v, capacity).Peek(x).None? || Add(k, v, capacity).Peek(x) == Peek(x)
    {
      FindWithout(entries, k, x);
      var kept := Without(entries, k);
      FindAppend(kept, [Entry(k, v)], x);
      FindWithout(entries, k, k);
      FindAppend(kept, [Entry(k, v)], k);
      if Overflows(k, capacity) {
        assert (kept + [Entry(k, v)])[1..] == kept[1..] + [Entry(k, v)];
        FindAppend(kept[1..], [Entry(k, v)], k);
        FindAppend(kept[1..], [Entry(k, v)], x);
        assert Find(kept, k).None? && Distinct(kept);
        DistinctWithout(entries, k);
      }
    }

    /** No operation invents an entry. */
    lemma TouchIn(k: string, e: Entry<V>)
      requires Valid() && Peek(k).Some? && e in Touch(k).entries
      ensures e in entries
    {
      FindIn(entries, k);
      if e in Without(entries, k) {
        WithoutIn(entries, k, e);
      }
    }

    lemma AddIn(k: string, v: V, capacity: nat, e: Entry<V>)
      requires Valid() && capacity >= 1 && e in Add(k, v, capacity).entries
      ensures e in entries || e == Entry(k, v)
    {
      if e in Without(entries, k) {
        WithoutIn(entries, k, e);
      }
    }
  }
}
