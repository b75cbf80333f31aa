/**
 * The dedup-and-flush cycle both insertion loops of db_composer.py run: keys go into a set,
 * after each record the set is handed to the sink and cleared when it holds more than
 * 8000 keys, and what is left at the end is handed over once if it is not empty. These
 * functions give the batches the sink receives for a sequence of records, each record
 * given by the keys it adds; the loops in db_composer.dfy are proved to produce them.
 */
module Batching {

  /** The set is flushed once it holds more than this many keys. */
  const Threshold: nat := 8000

  /** The keys collected since the last flush, and the batches flushed so far. */
  datatype Batcher = Batcher(pending: set<string>, flushed: seq<set<string>>)

  function Elems(keys: seq<string>): set<string> {
    set k | k in keys
  }

  lemma ElemsSnoc(keys: seq<string>, k: string)
    ensures Elems(keys + [k]) == Elems(keys) + {k}
  {
    forall x ensures x in keys + [k] <==> x in keys || x == k {
    }
  }

  lemma ElemsConcat(a: seq<string>, b: seq<string>)
    ensures Elems(a + b) == Elems(a) + Elems(b)
  {
    forall x ensures x in a + b <==> x in a || x in b {
    }
  }

  /** One record: its keys are added to the set, then the size check runs. */
  function Step(b: Batcher, keys: seq<string>): Batcher {
    var p := b.pending + Elems(keys);
    if |p| > Threshold then Batcher({}, b.flushed + [p]) else Batcher(p, b.flushed)
  }

  /** The state after the records `groups`, starting from an empty set. */
  function Feed(groups: seq<seq<string>>): Batcher
    decreases |groups|
  {
    if groups == [] then Batcher({}, [])
    else Step(Feed(groups[..|groups| - 1]), groups[|groups| - 1])
  }

  /** The final flush: the remaining set, only when it is not empty. */
  function Finish(b: Batcher): seq<set<string>> {
    if |b.pending| > 0 then b.flushed + [b.pending] else b.flushed
  }

  /** Every batch the sink receives for the records `groups`, in order. */
  function Batches(groups: seq<seq<string>>): seq<set<string>> {
    Finish(Feed(groups))
  }

  /** The index of the batch that record `i` adds its keys to. */
  function BatchIndex(groups: seq<seq<string>>, i: nat): nat
    requires i <= |groups|
  {
    |Feed(groups[..i]).flushed|
  }

  /** One more record is one `Step` of the fold. */
  lemma FeedLast(groups: seq<seq<string>>, keys: seq<string>)
    ensures Feed(groups + [keys]) == Step(Feed(groups), keys)
  {
    assert (groups + [keys])[..|groups|] == groups;
  }

  /** Adding a key that the set or the record already holds changes nothing. */
  lemma StepKnownKey(b: Batcher, keys: seq<string>, k: string)
    requires k in b.pending || k in keys
    ensures Step(b, keys + [k]) == Step(b, keys)
  {
    ElemsSnoc(keys, k);
    assert b.pending + Elems(keys + [k]) == b.pending + Elems(keys);
  }

  /** Between records the set never holds more than the threshold, and every flush of the
      loop proper hands over more than the threshold. */
  lemma {:induction false} FeedSizes(groups: seq<seq<string>>)
    ensures |Feed(groups).pending| <= Threshold
    ensures forall n :: 0 <= n < |Feed(groups).flushed| ==> |Feed(groups).flushed[n]| > Threshold
    decreases |groups|
  {
    if groups != [] {
      FeedSizes(groups[..|groups| - 1]);
    }
  }

  /** No batch is empty, and all but the last hold more than the threshold. */
  lemma BatchSizes(groups: seq<seq<string>>)
    ensures forall n :: 0 <= n < |Batches(groups)| ==> Batches(groups)[n] != {}
    ensures forall n :: 0 <= n < |Batches(groups)| - 1 ==> |Batches(groups)[n]| > Threshold
  {
    FeedSizes(groups);
    var b := Feed(groups);
    forall n | 0 <= n < |b.flushed| ensures b.flushed[n] != {} {
      assert |b.flushed[n]| > 0;
    }
  }

  /** One more record never alters a batch already flushed, and only adds to the batch that
      was still being collected. */
  lemma StepGrows(groups: seq<seq<string>>, keys: seq<string>)
    ensures Feed(groups).flushed <= Feed(groups + [keys]).flushed
    ensures |Batches(groups)| <= |Batches(groups + [keys])|
    ensures forall n :: 0 <= n < |Batches(groups)| ==> Batches(groups)[n] <= Batches(groups + [keys])[n]
  {
    FeedLast(groups, keys);
    var b := Feed(groups);
    var p := b.pending + Elems(keys);
    if |p| > Threshold {
      assert Batches(groups + [keys]) == b.flushed + [p];
    } else if |p| > 0 {
      assert Batches(groups + [keys]) == b.flushed + [p];
    }
  }

  /** What holds for one more record holds for any number of them. */
  lemma {:induction false} PrefixGrows(groups: seq<seq<string>>, j: nat)
    requires j <= |groups|
    ensures Feed(groups[..j]).flushed <= Feed(groups).flushed
    ensures |Batches(groups[..j])| <= |Batches(groups)|
    ensures forall n :: 0 <= n < |Batches(groups[..j])| ==> Batches(groups[..j])[n] <= Batches(groups)[n]
    decreases |groups| - j
  {
    if j < |groups| {
      var front, last := groups[..|groups| - 1], groups[|groups| - 1];
      assert front[..j] == groups[..j];
      assert front + [last] == groups;
      PrefixGrows(front, j);
      StepGrows(front, last);
      var a, b, c := Batches(groups[..j]), Batches(front), Batches(groups);
      forall n | 0 <= n < |a|
        ensures a[n] <= c[n]
      {
        assert a[n] <= b[n] && b[n] <= c[n];
      }
    } else {
      assert groups[..j] == groups;
    }
  }

  /** Record `i` adds all its keys to one batch, the one with index `BatchIndex(groups, i)`:
      every key offered is handed to the sink. */
  lemma KeyInItsBatch(groups: seq<seq<string>>, i: nat, k: string)
    requires i < |groups| && k in groups[i]
    ensures BatchIndex(groups, i) < |Batches(groups)|
    ensures k in Batches(groups)[BatchIndex(groups, i)]
  {
    var front := groups[..i];
    assert groups[..i + 1] == front + [groups[i]];
    FeedLast(front, groups[i]);
    var n := |Feed(front).flushed|;
    var p := Feed(front).pending + Elems(groups[i]);
    assert k in p;
    if |p| > Threshold {
      assert Feed(groups[..i + 1]).flushed == Feed(front).flushed + [p];
    } else {
      assert Feed(groups[..i + 1]) == Batcher(p, Feed(front).flushed);
    }
    assert k in Batches(groups[..i + 1])[n];
    PrefixGrows(groups, i + 1);
  }

  /** The key `k` was offered by a record whose batch index is `n`. */
  predicate OfferedInto(groups: seq<seq<string>>, n: nat, k: string) {
    exists i :: 0 <= i < |groups| && k in groups[i] && BatchIndex(groups, i) == n
  }

  lemma OfferedIntoExtend(groups: seq<seq<string>>, keys: seq<string>, n: nat, k: string)
    requires OfferedInto(groups, n, k)
    ensures OfferedInto(groups + [keys], n, k)
  {
    var i :| 0 <= i < |groups| && k in groups[i] && BatchIndex(groups, i) == n;
    var g := groups + [keys];
    assert g[..i] == groups[..i];
    assert g[i] == groups[i];
    assert BatchIndex(g, i) == n;
  }

  /** Every key of a flushed batch, or of the set still being collected, was offered by a
      record assigned to that batch. */
  lemma {:induction false} FeedOrigins(groups: seq<seq<string>>)
    ensures forall n, k :: 0 <= n < |Feed(groups).flushed| && k in Feed(groups).flushed[n] ==>
      OfferedInto(groups, n, k)
    ensures forall k :: k in Feed(groups).pending ==> OfferedInto(groups, |Feed(groups).flushed|, k)
    decreases |groups|
  {
    if groups != [] {
      var front, keys := groups[..|groups| - 1], groups[|groups| - 1];
      assert groups == front + [keys];
      FeedOrigins(front);
      FeedLast(front, keys);
      var b := Feed(front);
      var m := |b.flushed|;
      assert BatchIndex(groups, |front|) == m;
      forall k | k in b.pending + Elems(keys) ensures OfferedInto(groups, m, k) {
        if k in b.pending {
          OfferedIntoExtend(front, keys, m, k);
        } else {
          assert k in groups[|front|];
        }
      }
      forall n, k | 0 <= n < m && k in b.flushed[n] ensures OfferedInto(groups, n, k) {
        OfferedIntoExtend(front, keys, n, k);
      }
    }
  }

  /** Batch `n` holds exactly the keys offered by the records assigned to it: each batch is
      the set of keys offered between two flushes, and nothing else. */
  lemma BatchMembers(groups: seq<seq<string>>, n: nat, k: string)
    requires n < |Batches(groups)|
    ensures k in Batches(groups)[n] <==> OfferedInto(groups, n, k)
  {
    FeedOrigins(groups);
    if OfferedInto(groups, n, k) {
      var i :| 0 <= i < |groups| && k in groups[i] && BatchIndex(groups, i) == n;
      KeyInItsBatch(groups, i, k);
    }
  }

  /** A later record never goes to an earlier batch. */
  lemma BatchIndexMonotone(groups: seq<seq<string>>, i: nat, j: nat)
    requires i <= j <= |groups|
    ensures BatchIndex(groups, i) <= BatchIndex(groups, j)
  {
    var g := groups[..j];
    assert g[..i] == groups[..i];
    PrefixGrows(g, i);
  }

  /** Record `m` triggered a flush. */
  predicate FlushedAfter(groups: seq<seq<string>>, m: nat)
    requires m < |groups|
  {
    BatchIndex(groups, m + 1) > BatchIndex(groups, m)
  }

  /** Duplicates are removed only within a batch: a key offered before a flush and again
      after it is handed to the sink twice, in two different batches. */
  lemma CrossBatchDuplicate(groups: seq<seq<string>>, i: nat, m: nat, j: nat, k: string)
    requires i <= m < j < |groups| && FlushedAfter(groups, m)
    requires k in groups[i] && k in groups[j]
    ensures BatchIndex(groups, i) < BatchIndex(groups, j) < |Batches(groups)|
    ensures k in Batches(groups)[BatchIndex(groups, i)] && k in Batches(groups)[BatchIndex(groups, j)]
  {
    BatchIndexMonotone(groups, i, m);
    BatchIndexMonotone(groups, m + 1, j);
    KeyInItsBatch(groups, i, k);
    KeyInItsBatch(groups, j, k);
  }
}
