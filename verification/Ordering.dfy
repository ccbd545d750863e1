/** The orders behind every ORDER BY: text, and (instant, infohash) keys sorted descending. */
module Ordering {
  import opened Basics

  /** Strict lexicographic order on text. */
  predicate LexLess(a: string, b: string)
    decreases |a|
  {
    if b == "" then false
    else if a == "" then true
    else a[0] < b[0] || (a[0] == b[0] && LexLess(a[1..], b[1..]))
  }

  lemma {:induction false} LexIrreflexive(a: string)
    ensures !LexLess(a, a)
    decreases |a|
  {
    if a != "" {
      LexIrreflexive(a[1..]);
    }
  }

  lemma {:induction false} LexTransitive(a: string, b: string, c: string)
    requires LexLess(a, b) && LexLess(b, c)
    ensures LexLess(a, c)
    decreases |a|
  {
    if a != "" && a[0] == b[0] == c[0] {
      LexTransitive(a[1..], b[1..], c[1..]);
    }
  }

  lemma {:induction false} LexTotal(a: string, b: string)
    ensures a == b || LexLess(a, b) || LexLess(b, a)
    decreases |a|
  {
    if a != "" && b != "" && a[0] == b[0] {
      LexTotal(a[1..], b[1..]);
      assert a == [a[0]] + a[1..] && b == [b[0]] + b[1..];
    }
  }

  /** A keyset-pagination key: the primary instant with the infohash as tiebreak. */
  datatype Key = Key(at: Instant, hash: string)

  predicate Below(a: Key, b: Key) {
    a.at < b.at || (a.at == b.at && LexLess(a.hash, b.hash))
  }

  lemma BelowIrreflexive(a: Key)
    ensures !Below(a, a)
  {
    LexIrreflexive(a.hash);
  }

  lemma BelowTransitive(a: Key, b: Key, c: Key)
    requires Below(a, b) && Below(b, c)
    ensures Below(a, c)
  {
    if a.at == c.at {
      LexTransitive(a.hash, b.hash, c.hash);
    }
  }

  lemma BelowTotal(a: Key, b: Key)
    ensures a == b || Below(a, b) || Below(b, a)
  {
    LexTotal(a.hash, b.hash);
  }

  ghost predicate Descending(s: seq<Key>) {
    forall i, j :: 0 <= i < j < |s| ==> Below(s[j], s[i])
  }

  ghost predicate IsTop(m: Key, keys: set<Key>) {
    m in keys && forall k :: k in keys && k != m ==> Below(k, m)
  }

  lemma TopExists(keys: set<Key>)
    requires keys != {}
    ensures exists m :: IsTop(m, keys)
  {
    var k :| k in keys;
    if keys == {k} {
      assert IsTop(k, keys);
    } else {
      TopExists(keys - {k});
      var m :| IsTop(m, keys - {k});
      BelowTotal(m, k);
      if Below(m, k) {
        forall x | x in keys && x != k ensures Below(x, k) {
          if x != m { BelowTransitive(x, m, k); }
        }
        assert IsTop(k, keys);
      } else {
        assert IsTop(m, keys);
      }
    }
  }

  lemma TopUnique(m: Key, n: Key, keys: set<Key>)
    requires IsTop(m, keys) && IsTop(n, keys)
    ensures m == n
  {
    if m != n {
      BelowTransitive(m, n, m);
      BelowIrreflexive(m);
    }
  }

  /** s lists exactly the keys, in descending order. */
  ghost predicate IsDescendingList(s: seq<Key>, keys: set<Key>) {
    && |s| == |keys|
    && (forall k :: k in s <==> k in keys)
    && Descending(s)
  }

  /** The keys in descending order: ORDER BY at DESC, infohash DESC. */
  ghost function Desc(keys: set<Key>): seq<Key> {
    if keys == {} then []
    else
      TopExists(keys);
      var m :| IsTop(m, keys);
      [m] + Desc(keys - {m})
  }

  lemma {:induction false} DescLists(keys: set<Key>)
    ensures IsDescendingList(Desc(keys), keys)
  {
    if keys != {} {
      TopExists(keys);
      var m :| IsTop(m, keys) && Desc(keys) == [m] + Desc(keys - {m});
      DescLists(keys - {m});
      TopThenRest(keys, m, Desc(keys - {m}));
    }
  }

  lemma TopThenRest(keys: set<Key>, m: Key, rest: seq<Key>)
    requires IsTop(m, keys) && IsDescendingList(rest, keys - {m})
    ensures IsDescendingList([m] + rest, keys)
  {
    var s := [m] + rest;
    assert |keys| == |keys - {m}| + 1;
    forall i, j | 0 <= i < j < |s| ensures Below(s[j], s[i]) {
      assert s[j] == rest[j - 1] && rest[j - 1] in rest;
      if i > 0 { assert s[i] == rest[i - 1]; }
    }
  }

  lemma HeadIsTop(s: seq<Key>, keys: set<Key>)
    requires s != [] && Descending(s)
    requires forall k :: k in s <==> k in keys
    ensures IsTop(s[0], keys)
    ensures forall k :: k in s[1..] <==> k in keys - {s[0]}
  {
    forall k | k in keys && k != s[0] ensures Below(k, s[0]) {
      var i :| 0 <= i < |s| && s[i] == k;
    }
    assert s == [s[0]] + s[1..];
    if s[0] in s[1..] {
      var i :| 0 <= i < |s[1..]| && s[1..][i] == s[0];
      assert Below(s[i + 1], s[0]);
      BelowIrreflexive(s[0]);
    }
  }

  lemma {:induction false} DescUnique(s: seq<Key>, keys: set<Key>)
    requires Descending(s)
    requires forall k :: k in s <==> k in keys
    ensures s == Desc(keys)
    decreases |s|
  {
    var d := Desc(keys);
    DescLists(keys);
    if s == [] {
      assert keys == {};
    } else {
      assert s[0] in keys;
      assert d != [];
      HeadIsTop(s, keys);
      HeadIsTop(d, keys);
      TopUnique(s[0], d[0], keys);
      TailDescends(s);
      TailDescends(d);
      DescUnique(s[1..], keys - {s[0]});
      DescUnique(d[1..], keys - {s[0]});
      SameHeadAndTail(s, d);
    }
  }

  lemma TailDescends(s: seq<Key>)
    requires s != [] && Descending(s)
    ensures Descending(s[1..])
  {
  }

  lemma SameHeadAndTail(s: seq<Key>, d: seq<Key>)
    requires s != [] && d != [] && s[0] == d[0] && s[1..] == d[1..]
    ensures s == d
  {
    assert s == [s[0]] + s[1..] && d == [d[0]] + d[1..];
  }

  lemma TakeSplits(all: seq<Key>, n: nat, k: Key, t: Key)
    requires Descending(all)
    requires k in all && k !in Take(all, n) && t in Take(all, n)
    ensures Below(k, t)
  {
    var top := Take(all, n);
    var i :| 0 <= i < |all| && all[i] == k;
    var j :| 0 <= j < |top| && top[j] == t;
    assert forall x :: 0 <= x < |top| ==> all[x] == top[x];
    assert |top| <= i;
    assert Below(all[i], all[j]);
  }

  lemma TakeIsPrefix(all: seq<Key>, n: nat)
    requires Descending(all)
    ensures Descending(Take(all, n))
    ensures forall k :: k in Take(all, n) ==> k in all
  {
  }

  /** LIMIT n of a descending scan: whatever is left out lies below everything returned. */
  lemma TakeDescIsTop(keys: set<Key>, n: nat)
    ensures |Take(Desc(keys), n)| == Min(n, |keys|)
    ensures Descending(Take(Desc(keys), n))
    ensures forall k :: k in Take(Desc(keys), n) ==> k in keys
    ensures forall k, t :: k in keys && k !in Take(Desc(keys), n) && t in Take(Desc(keys), n) ==> Below(k, t)
  {
    var all := Desc(keys);
    DescLists(keys);
    TakeIsPrefix(all, n);
    forall k, t | k in keys && k !in Take(all, n) && t in Take(all, n) ensures Below(k, t) {
      TakeSplits(all, n, k, t);
    }
  }
}
