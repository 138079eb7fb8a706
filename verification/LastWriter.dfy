/**
 * Last-writer-wins deduplication under any notion of identity. An item whose identity is `None`
 * is dropped.
 */
module LastWriter {
  import opened Strings

  predicate Occurs<E, K(==)>(id: E -> Option<K>, k: K, items: seq<E>) {
    exists i :: 0 <= i < |items| && id(items[i]) == Some(k)
  }

  /** The items no later item overwrites, in their original order. */
  function Dedupe<E, K(==)>(id: E -> Option<K>, items: seq<E>): seq<E> {
    if items == [] then []
    else
      var k := id(items[0]);
      if k.None? || Occurs(id, k.value, items[1..]) then Dedupe(id, items[1..])
      else [items[0]] + Dedupe(id, items[1..])
  }

  /** A jar after the items were written into it in order. */
  function Replay<E, K>(id: E -> Option<K>, jar: map<K, E>, items: seq<E>): map<K, E>
    decreases |items|
  {
    if items == [] then jar
    else
      var k := id(items[0]);
      Replay(id, if k.Some? then jar[k.value := items[0]] else jar, items[1..])
  }

  /** The members of `indexes` from `lo` below `hi`, ascending. */
  function Ascending(indexes: set<nat>, lo: nat, hi: nat): (sorted: seq<nat>)
    requires lo <= hi
    ensures forall i :: 0 <= i < |sorted| ==> lo <= sorted[i] < hi && sorted[i] in indexes
    ensures forall i, j :: 0 <= i < j < |sorted| ==> sorted[i] < sorted[j]
    ensures forall k :: k in indexes && lo <= k < hi ==> k in sorted
    decreases hi - lo
  {
    if lo == hi then []
    else (if lo in indexes then [lo] else []) + Ascending(indexes, lo + 1, hi)
  }

  function Pick<E>(items: seq<E>, indexes: seq<nat>): seq<E>
    requires forall i :: 0 <= i < |indexes| ==> indexes[i] < |items|
  {
    seq(|indexes|, i requires 0 <= i < |indexes| => items[indexes[i]])
  }

  predicate IsWinner<E, K(==)>(id: E -> Option<K>, items: seq<E>, i: nat)
    requires i < |items|
  {
    id(items[i]).Some? && !Occurs(id, id(items[i]).value, items[i + 1..])
  }

  ghost predicate TracksLast<E, K>(id: E -> Option<K>, last: map<K, nat>, items: seq<E>, n: nat)
    requires n <= |items|
  {
    && (forall k :: k in last ==> last[k] < n && id(items[last[k]]) == Some(k))
    && (forall k, j :: k in last && last[k] < j < n ==> id(items[j]) != Some(k))
    && (forall j :: 0 <= j < n && id(items[j]).Some? ==> id(items[j]).value in last)
  }

  lemma TrackedAreWinners<E, K>(id: E -> Option<K>, last: map<K, nat>, items: seq<E>, i: nat)
    requires TracksLast(id, last, items, |items|)
    requires i < |items|
    ensures i in last.Values <==> IsWinner(id, items, i)
  {
    if id(items[i]).Some? {
      var k := id(items[i]).value;
      assert last[k] >= i;
      if last[k] > i {
        assert items[i + 1..][last[k] - i - 1] == items[last[k]];
      }
    }
  }

  lemma PickAfter<E>(items: seq<E>, first: nat, rest: seq<nat>)
    requires first < |items|
    requires forall i :: 0 <= i < |rest| ==> rest[i] < |items|
    ensures Pick(items, [first] + rest) == [items[first]] + Pick(items, rest)
  {
  }

  lemma {:induction false} PickedAreDeduped<E, K>(id: E -> Option<K>, items: seq<E>, indexes: set<nat>, lo: nat)
    requires lo <= |items|
    requires forall i :: 0 <= i < |items| ==> (i in indexes <==> IsWinner(id, items, i))
    ensures Pick(items, Ascending(indexes, lo, |items|)) == Dedupe(id, items[lo..])
    decreases |items| - lo
  {
    if lo < |items| {
      PickedAreDeduped(id, items, indexes, lo + 1);
      assert items[lo..][1..] == items[lo + 1..];
      var rest := Ascending(indexes, lo + 1, |items|);
      hide Pick;
      if lo in indexes {
        PickAfter(items, lo, rest);
      } else {
        assert [] + rest == rest;
      }
    }
  }

  /** Sorting the last index of every identity and reading the items there is deduplicating. */
  lemma TrackedPickIsDedupe<E, K>(id: E -> Option<K>, last: map<K, nat>, items: seq<E>)
    requires TracksLast(id, last, items, |items|)
    ensures Pick(items, Ascending(last.Values, 0, |items|)) == Dedupe(id, items)
  {
    forall i | 0 <= i < |items| ensures i in last.Values <==> IsWinner(id, items, i) {
      TrackedAreWinners(id, last, items, i);
    }
    PickedAreDeduped(id, items, last.Values, 0);
    assert items[0..] == items;
  }

  lemma WinnersDiffer<E, K>(id: E -> Option<K>, items: seq<E>, i: nat, j: nat)
    requires i < |items| && j < |items|
    requires IsWinner(id, items, i)
    ensures i < j ==> id(items[i]) != id(items[j])
  {
    if i < j {
      assert items[i + 1..][j - i - 1] == items[j];
    }
  }

  lemma NothingTracked<E, K>(id: E -> Option<K>, items: seq<E>)
    ensures TracksLast(id, map[], items, 0)
  {
  }

  lemma TrackStep<E, K>(id: E -> Option<K>, last: map<K, nat>, items: seq<E>, n: nat)
    requires n < |items| && TracksLast(id, last, items, n)
    ensures var next := if id(items[n]).Some? then last[id(items[n]).value := n] else last;
      TracksLast(id, next, items, n + 1)
  {
  }

  lemma OccursInConcat<E, K>(id: E -> Option<K>, k: K, a: seq<E>, b: seq<E>)
    ensures Occurs(id, k, a + b) <==> Occurs(id, k, a) || Occurs(id, k, b)
  {
    if Occurs(id, k, a) {
      var i :| 0 <= i < |a| && id(a[i]) == Some(k);
      assert (a + b)[i] == a[i];
    }
    if Occurs(id, k, b) {
      var i :| 0 <= i < |b| && id(b[i]) == Some(k);
      assert (a + b)[|a| + i] == b[i];
    }
  }

  lemma {:induction false} OverwrittenLater<E, K>(id: E -> Option<K>, jar: map<K, E>, k: K, item: E, items: seq<E>)
    requires Occurs(id, k, items)
    ensures Replay(id, jar[k := item], items) == Replay(id, jar, items)
    decreases |items|
  {
    var first := id(items[0]);
    if first == Some(k) {
      assert jar[k := item][k := items[0]] == jar[k := items[0]];
    } else {
      var i :| 0 <= i < |items| && id(items[i]) == Some(k);
      assert items[1..][i - 1] == items[i];
      if first.Some? {
        assert jar[k := item][first.value := items[0]] == jar[first.value := items[0]][k := item];
        OverwrittenLater(id, jar[first.value := items[0]], k, item, items[1..]);
      } else {
        OverwrittenLater(id, jar, k, item, items[1..]);
      }
    }
  }

  /** Any jar ends up the same with the short list as with the whole one. */
  lemma {:induction false} DedupePreservesReplay<E, K>(id: E -> Option<K>, jar: map<K, E>, items: seq<E>)
    ensures Replay(id, jar, Dedupe(id, items)) == Replay(id, jar, items)
    decreases |items|
  {
    if items != [] {
      var k := id(items[0]);
      var rest := Dedupe(id, items[1..]);
      if k.None? {
        DedupePreservesReplay(id, jar, items[1..]);
      } else if Occurs(id, k.value, items[1..]) {
        DedupePreservesReplay(id, jar, items[1..]);
        OverwrittenLater(id, jar, k.value, items[0], items[1..]);
      } else {
        DedupePreservesReplay(id, jar[k.value := items[0]], items[1..]);
        assert ([items[0]] + rest)[1..] == rest;
      }
    }
  }

  lemma {:induction false} DedupeKeepsIds<E, K>(id: E -> Option<K>, k: K, items: seq<E>)
    ensures Occurs(id, k, Dedupe(id, items)) <==> Occurs(id, k, items)
    decreases |items|
  {
    if items != [] {
      DedupeKeepsIds(id, k, items[1..]);
      OccursInConcat(id, k, [items[0]], items[1..]);
      OccursInConcat(id, k, [items[0]], Dedupe(id, items[1..]));
      assert [items[0]] + items[1..] == items;
    }
  }

  /**
   * The short list has one item per identity, and nothing but items of the input: the jar it
   * describes is exactly itself.
   */
  lemma {:induction false} DedupeIsOnePerId<E, K>(id: E -> Option<K>, items: seq<E>, i: nat)
    requires i < |Dedupe(id, items)|
    ensures var out := Dedupe(id, items);
      IsWinner(id, out, i) && out[i] in items
    decreases |items|
  {
    var k := id(items[0]);
    var rest := Dedupe(id, items[1..]);
    if k.None? || Occurs(id, k.value, items[1..]) {
      DedupeIsOnePerId(id, items[1..], i);
    } else {
      var out := [items[0]] + rest;
      if i > 0 {
        DedupeIsOnePerId(id, items[1..], i - 1);
        assert out[i + 1..] == rest[i..];
      } else {
        DedupeKeepsIds(id, k.value, items[1..]);
        assert out[1..] == rest;
      }
    }
  }

  /** Deduplicating in stages is deduplicating once; with `b` empty, it is idempotent. */
  lemma {:induction false} DedupeInStages<E, K>(id: E -> Option<K>, a: seq<E>, b: seq<E>)
    ensures Dedupe(id, Dedupe(id, a) + b) == Dedupe(id, a + b)
    decreases |a|
  {
    if a == [] {
      assert [] + b == b;
    } else {
      var k := id(a[0]);
      var rest := Dedupe(id, a[1..]);
      assert (a + b)[1..] == a[1..] + b;
      DedupeInStages(id, a[1..], b);
      if k.Some? {
        OccursInConcat(id, k.value, a[1..], b);
        OccursInConcat(id, k.value, rest, b);
        DedupeKeepsIds(id, k.value, a[1..]);
        if !Occurs(id, k.value, a[1..]) {
          assert Dedupe(id, a) + b == [a[0]] + (rest + b);
          assert ([a[0]] + (rest + b))[1..] == rest + b;
        }
      }
    }
  }

  /** Two notions of identity that group the items alike keep the same items. */
  predicate GroupAlike<E, K(==), L(==)>(id1: E -> Option<K>, id2: E -> Option<L>, items: seq<E>) {
    && (forall i :: 0 <= i < |items| ==> (id1(items[i]).None? <==> id2(items[i]).None?))
    && (forall i, j :: 0 <= i < |items| && 0 <= j < |items| ==>
          (id1(items[i]) == id1(items[j]) <==> id2(items[i]) == id2(items[j])))
  }

  lemma {:induction false} GroupAlikeDedupeAlike<E, K, L>(id1: E -> Option<K>, id2: E -> Option<L>, items: seq<E>)
    requires GroupAlike(id1, id2, items)
    ensures Dedupe(id1, items) == Dedupe(id2, items)
    decreases |items|
  {
    if items != [] {
      var rest := items[1..];
      assert forall i :: 0 <= i < |rest| ==> rest[i] == items[i + 1];
      GroupAlikeDedupeAlike(id1, id2, rest);
      if id1(items[0]).Some? {
        assert Occurs(id1, id1(items[0]).value, rest) <==> Occurs(id2, id2(items[0]).value, rest) by {
          forall i | 0 <= i < |rest|
            ensures id1(rest[i]) == id1(items[0]) <==> id2(rest[i]) == id2(items[0]) {
            assert rest[i] == items[i + 1];
          }
        }
      }
    }
  }

  lemma {:induction false} ReplayedIds<E, K>(id: E -> Option<K>, jar: map<K, E>, items: seq<E>, k: K)
    ensures k in Replay(id, jar, items) <==> k in jar || Occurs(id, k, items)
    decreases |items|
  {
    if items != [] {
      var first := id(items[0]);
      ReplayedIds(id, if first.Some? then jar[first.value := items[0]] else jar, items[1..], k);
      OccursInConcat(id, k, [items[0]], items[1..]);
      assert [items[0]] + items[1..] == items;
    }
  }
}
