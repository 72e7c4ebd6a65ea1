/** The two `sorted(...)` calls of the overview: top pages by views, highest first, and daily
    traffic by date, earliest first. Both are written as insertion sorts, which order these inputs
    exactly as Python's stable sort does. */
module Sorting {
  import opened Strings
  import opened Counters

  /** Counts never increase from left to right. */
  ghost predicate ByCountDesc(s: seq<Entry>) {
    forall i, j :: 0 <= i < j < |s| ==> s[i].count >= s[j].count
  }

  /** `a` is a leading part of `b`. */
  ghost predicate IsPrefix(a: seq<Entry>, b: seq<Entry>) {
    |a| <= |b| && b[..|a|] == a
  }

  /** The entries whose count is `v`, in their order in `s`. */
  function WithCount(s: seq<Entry>, v: nat): seq<Entry> {
    if s == [] then [] else (if s[0].count == v then [s[0]] else []) + WithCount(s[1..], v)
  }

  lemma {:induction false} WithCountAppend(a: seq<Entry>, b: seq<Entry>, v: nat)
    ensures WithCount(a + b, v) == WithCount(a, v) + WithCount(b, v)
  {
    if a == [] {
      assert a + b == b;
    } else {
      assert (a + b)[0] == a[0] && (a + b)[1..] == a[1..] + b;
      WithCountAppend(a[1..], b, v);
    }
  }

  /** Puts `x` in front of the first entry whose count is not larger than its own, so that `x`
      stays ahead of every later entry with the same count. */
  function InsertByCount(x: Entry, t: seq<Entry>): seq<Entry> {
    if t == [] || x.count >= t[0].count then [x] + t else [t[0]] + InsertByCount(x, t[1..])
  }

  lemma {:induction false} InsertByCountPermutes(x: Entry, t: seq<Entry>)
    ensures multiset(InsertByCount(x, t)) == multiset([x] + t)
    ensures Total(InsertByCount(x, t)) == x.count + Total(t)
  {
    if !(t == [] || x.count >= t[0].count) {
      InsertByCountPermutes(x, t[1..]);
      assert t == [t[0]] + t[1..];
      var r := InsertByCount(x, t);
      assert r[0] == t[0] && r[1..] == InsertByCount(x, t[1..]);
    }
  }

  lemma {:induction false} InsertByCountSorted(x: Entry, t: seq<Entry>)
    requires ByCountDesc(t)
    ensures ByCountDesc(InsertByCount(x, t))
  {
    if !(t == [] || x.count >= t[0].count) {
      var rest := InsertByCount(x, t[1..]);
      ByCountDescTail(t);
      InsertByCountSorted(x, t[1..]);
      InsertByCountPermutes(x, t[1..]);
      forall e | e in rest ensures t[0].count >= e.count {
        assert e in multiset(rest);
        assert e == x || e in t[1..];
      }
      ByCountDescCons(t[0], rest);
    }
  }

  lemma ByCountDescTail(t: seq<Entry>)
    requires ByCountDesc(t) && t != []
    ensures ByCountDesc(t[1..])
    ensures forall e :: e in t[1..] ==> t[0].count >= e.count
  {
    forall i, j | 0 <= i < j < |t[1..]| ensures t[1..][i].count >= t[1..][j].count {
      assert t[1..][i] == t[i + 1] && t[1..][j] == t[j + 1];
    }
  }

  lemma ByCountDescCons(h: Entry, rest: seq<Entry>)
    requires ByCountDesc(rest)
    requires forall e :: e in rest ==> h.count >= e.count
    ensures ByCountDesc([h] + rest)
  {
    var r := [h] + rest;
    forall i, j | 0 <= i < j < |r| ensures r[i].count >= r[j].count {
      assert r[j] == rest[j - 1];
      if i > 0 {
        assert r[i] == rest[i - 1];
      }
    }
  }

  /** Inserting keeps, for every count, the entries with that count in the order they have in
      `[x] + t`: `x` only moves past entries with a higher count than its own. */
  lemma {:induction false} InsertByCountStable(x: Entry, t: seq<Entry>, v: nat)
    ensures WithCount(InsertByCount(x, t), v) == WithCount([x] + t, v)
  {
    if !(t == [] || x.count >= t[0].count) {
      var t0, t' := t[0], t[1..];
      InsertByCountStable(x, t', v);
      assert t == [t0] + t';
      WithCountCons(t0, InsertByCount(x, t'), v);
      WithCountCons(x, t', v);
      WithCountCons(x, t, v);
      WithCountCons(t0, t', v);
      // `t0` has a higher count than `x`, so at most one of them has count `v` and they commute.
      if x.count == v {
        assert WithCount(InsertByCount(x, t), v) == [x] + WithCount(t', v);
      } else {
        assert WithCount(InsertByCount(x, t), v) == WithCount(t, v);
      }
    }
  }

  lemma WithCountCons(e: Entry, s: seq<Entry>, v: nat)
    ensures WithCount([e] + s, v) == (if e.count == v then [e] else []) + WithCount(s, v)
  {
    assert ([e] + s)[0] == e && ([e] + s)[1..] == s;
  }

  /** `sorted(items, key=lambda x: x[1], reverse=True)`: highest count first; among entries with
      equal counts the original order is kept (Python's sort is stable, also with `reverse=True`). */
  function SortByCountDesc(items: seq<Entry>): (r: seq<Entry>)
    ensures ByCountDesc(r)
    ensures multiset(r) == multiset(items)
    ensures forall v :: WithCount(r, v) == WithCount(items, v)
    ensures Total(r) == Total(items)
  {
    if items == [] then []
    else
      var rest := SortByCountDesc(items[1..]);
      InsertByCountSorted(items[0], rest);
      InsertByCountPermutes(items[0], rest);
      assert items == [items[0]] + items[1..];
      var r := InsertByCount(items[0], rest);
      assert forall v :: WithCount(r, v) == WithCount(items, v) by {
        forall v ensures WithCount(r, v) == WithCount(items, v) {
          InsertByCountStable(items[0], rest, v);
          WithCountCons(items[0], rest, v);
          WithCountCons(items[0], items[1..], v);
        }
      }
      r
  }

  /** `s[:n]` on a list of pairs. */
  function Prefix(s: seq<Entry>, n: nat): (r: seq<Entry>)
    ensures |r| == if |s| <= n then |s| else n
    ensures IsPrefix(r, s)
  {
    if |s| <= n then s else s[..n]
  }

  /** Cutting a list keeps, for every count, a leading part of the entries with that count. */
  lemma PrefixWithCount(s: seq<Entry>, n: nat, v: nat)
    ensures IsPrefix(WithCount(Prefix(s, n), v), WithCount(s, v))
  {
    var p := Prefix(s, n);
    assert s == p + s[|p|..];
    WithCountAppend(p, s[|p|..], v);
  }

  lemma PrefixTotal(s: seq<Entry>, n: nat)
    ensures Total(Prefix(s, n)) <= Total(s)
  {
    var p := Prefix(s, n);
    assert s == p + s[|p|..];
    TotalAppend(p, s[|p|..]);
  }

  /** Keys strictly increase from left to right in Python's string order. */
  ghost predicate ByKeyAsc(s: seq<Entry>) {
    forall i, j :: 0 <= i < j < |s| ==> Less(s[i].key, s[j].key)
  }

  /** No key occurs twice, as in the items of a dictionary. */
  ghost predicate DistinctKeys(s: seq<Entry>) {
    forall i, j :: 0 <= i < j < |s| ==> s[i].key != s[j].key
  }

  /** Puts `x` in front of the first entry with a larger key. */
  function InsertByKey(x: Entry, t: seq<Entry>): seq<Entry> {
    if t == [] || Less(x.key, t[0].key) then [x] + t else [t[0]] + InsertByKey(x, t[1..])
  }

  lemma {:induction false} InsertByKeyPermutes(x: Entry, t: seq<Entry>)
    ensures multiset(InsertByKey(x, t)) == multiset([x] + t)
    ensures Total(InsertByKey(x, t)) == x.count + Total(t)
  {
    if !(t == [] || Less(x.key, t[0].key)) {
      InsertByKeyPermutes(x, t[1..]);
      assert t == [t[0]] + t[1..];
      var r := InsertByKey(x, t);
      assert r[0] == t[0] && r[1..] == InsertByKey(x, t[1..]);
    }
  }

  lemma {:induction false} InsertByKeySorted(x: Entry, t: seq<Entry>)
    requires ByKeyAsc(t)
    requires forall e :: e in t ==> e.key != x.key
    ensures ByKeyAsc(InsertByKey(x, t))
  {
    ByKeyAscTail(t);
    if t == [] || Less(x.key, t[0].key) {
      forall e | e in t ensures Less(x.key, e.key) {
        if e != t[0] {
          LessTransitive(x.key, t[0].key, e.key);
        }
      }
      ByKeyAscCons(x, t);
    } else {
      LessTotal(x.key, t[0].key);
      var rest := InsertByKey(x, t[1..]);
      InsertByKeySorted(x, t[1..]);
      InsertByKeyPermutes(x, t[1..]);
      forall e | e in rest ensures Less(t[0].key, e.key) {
        assert e in multiset(rest);
        assert e == x || e in t[1..];
      }
      ByKeyAscCons(t[0], rest);
    }
  }

  lemma ByKeyAscTail(t: seq<Entry>)
    requires ByKeyAsc(t)
    ensures t != [] ==> ByKeyAsc(t[1..])
    ensures t != [] ==> forall e :: e in t[1..] ==> Less(t[0].key, e.key)
  {
    if t != [] {
      forall i, j | 0 <= i < j < |t[1..]| ensures Less(t[1..][i].key, t[1..][j].key) {
        assert t[1..][i] == t[i + 1] && t[1..][j] == t[j + 1];
      }
    }
  }

  lemma ByKeyAscCons(h: Entry, rest: seq<Entry>)
    requires ByKeyAsc(rest)
    requires forall e :: e in rest ==> Less(h.key, e.key)
    ensures ByKeyAsc([h] + rest)
  {
    var r := [h] + rest;
    forall i, j | 0 <= i < j < |r| ensures Less(r[i].key, r[j].key) {
      assert r[j] == rest[j - 1];
      if i > 0 {
        assert r[i] == rest[i - 1];
      }
    }
  }

  /** `sorted(d.items())` for a dictionary: its keys are distinct, so the pairs are ordered by key
      alone and the count component is never compared. */
  function SortByKey(items: seq<Entry>): (r: seq<Entry>)
    requires DistinctKeys(items)
    ensures ByKeyAsc(r)
    ensures multiset(r) == multiset(items)
    ensures Total(r) == Total(items)
  {
    if items == [] then []
    else
      var rest := SortByKey(items[1..]);
      assert items == [items[0]] + items[1..];
      forall e | e in rest ensures e.key != items[0].key {
        assert e in multiset(items[1..]);
        var j :| 0 <= j < |items[1..]| && items[1..][j] == e;
        assert items[j + 1] == e;
      }
      InsertByKeySorted(items[0], rest);
      InsertByKeyPermutes(items[0], rest);
      InsertByKey(items[0], rest)
  }
}
