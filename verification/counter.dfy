/** A Python `dict` from strings to integers used as a counter: `d[k] = d.get(k, 0) + 1` in a loop,
    then `d.items()` in insertion order. */
module Counters {

  /** One `(key, count)` pair of `dict.items()`. */
  datatype Entry = Entry(key: string, count: nat)

  /** The dictionary: its keys in insertion order and its key-to-count mapping. */
  datatype Counter = Counter(keys: seq<string>, counts: map<string, nat>) {

    /** Keys are distinct, exactly the mapped ones, and every stored count is at least 1
        (a key enters the dictionary with its first increment). */
    ghost predicate Valid() {
      && (forall i, j :: 0 <= i < j < |keys| ==> keys[i] != keys[j])
      && (forall k :: k in counts <==> k in keys)
      && (forall k :: k in counts ==> counts[k] >= 1)
    }

    /** `d.get(k, 0)`. */
    function Get(k: string): nat {
      if k in counts then counts[k] else 0
    }

    /** `d[k] = d.get(k, 0) + 1`: a new key goes to the end of the insertion order. */
    function Increment(k: string): (c: Counter)
      requires Valid()
      ensures c.Valid()
      ensures c.Get(k) == Get(k) + 1
      ensures forall other :: other != k ==> c.Get(other) == Get(other)
      ensures c.keys == if k in keys then keys else keys + [k]
    {
      Counter(if k in counts then keys else keys + [k], counts[k := Get(k) + 1])
    }

    /** `d.items()`: the pairs in insertion order. */
    function Items(): (items: seq<Entry>)
      ensures |items| == |keys|
      ensures forall i :: 0 <= i < |keys| ==> items[i] == Entry(keys[i], Get(keys[i]))
    {
      seq(|keys|, i requires 0 <= i < |keys| => Entry(keys[i], Get(keys[i])))
    }
  }

  /** `{}`. */
  const Empty: Counter := Counter([], map[])

  /** What `items()` of a well-formed dictionary promises: no key is listed twice, and a key is
      listed, with its count, exactly when it has been counted at least once. */
  lemma ItemsListEachCountedKeyOnce(c: Counter)
    requires c.Valid()
    ensures forall i, j :: 0 <= i < j < |c.Items()| ==> c.Items()[i].key != c.Items()[j].key
    ensures forall k :: c.Get(k) >= 1 <==> exists i :: 0 <= i < |c.Items()| && c.Items()[i] == Entry(k, c.Get(k))
  {
    var items := c.Items();
    forall k | c.Get(k) >= 1 ensures exists i :: 0 <= i < |items| && items[i] == Entry(k, c.Get(k)) {
      var i :| 0 <= i < |c.keys| && c.keys[i] == k;
      assert items[i] == Entry(k, c.Get(k));
    }
  }

  /** The sum of the counts of a list of pairs. */
  function Total(items: seq<Entry>): nat {
    if items == [] then 0 else items[0].count + Total(items[1..])
  }

  lemma {:induction false} TotalAppend(a: seq<Entry>, b: seq<Entry>)
    ensures Total(a + b) == Total(a) + Total(b)
  {
    if a == [] {
      assert a + b == b;
    } else {
      assert (a + b)[0] == a[0] && (a + b)[1..] == a[1..] + b;
      TotalAppend(a[1..], b);
    }
  }

  lemma {:induction false} TotalUpdate(items: seq<Entry>, j: nat, e: Entry)
    requires j < |items|
    ensures Total(items[j := e]) + items[j].count == Total(items) + e.count
  {
    if j == 0 {
      assert items[j := e][1..] == items[1..];
    } else {
      assert items[j := e][1..] == items[1..][j - 1 := e];
      TotalUpdate(items[1..], j - 1, e);
    }
  }

  /** Each increment adds exactly one to the sum of the counts. */
  lemma IncrementTotal(c: Counter, k: string)
    requires c.Valid()
    ensures Total(c.Increment(k).Items()) == Total(c.Items()) + 1
  {
    if k in c.keys {
      var j :| 0 <= j < |c.keys| && c.keys[j] == k;
      IncrementExistingItems(c, k, j);
      TotalUpdate(c.Items(), j, Entry(k, c.Get(k) + 1));
    } else {
      IncrementNewItems(c, k);
      TotalAppend(c.Items(), [Entry(k, 1)]);
      assert Total([Entry(k, 1)]) == 1;
    }
  }

  /** Counting a key already present changes its own pair and no other. */
  lemma IncrementExistingItems(c: Counter, k: string, j: nat)
    requires c.Valid() && j < |c.keys| && c.keys[j] == k
    ensures c.Increment(k).Items() == c.Items()[j := Entry(k, c.Get(k) + 1)]
  {
    var d, before := c.Increment(k), c.Items();
    forall i | 0 <= i < |c.keys| ensures d.Items()[i] == before[j := Entry(k, c.Get(k) + 1)][i] {
      if i != j {
        assert c.keys[i] != k;
      }
    }
  }

  /** Counting a new key appends its pair with count 1. */
  lemma IncrementNewItems(c: Counter, k: string)
    requires c.Valid() && k !in c.keys
    ensures c.Increment(k).Items() == c.Items() + [Entry(k, 1)]
  {
    var d, before := c.Increment(k), c.Items();
    forall i | 0 <= i < |c.keys| ensures d.Items()[i] == before[i] {
      assert c.keys[i] != k;
    }
  }
}
