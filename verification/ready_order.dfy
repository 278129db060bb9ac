/**
 * The ordered ready-queue insertions of sim_srt.h and sim_sjf.h. Each C
 * routine walks the list from the front and links the new node in before
 * the first entry its break test fires on. All three break tests are a
 * strict lexicographic comparison of a per-process key, so the walk is
 * modelled once over `Key` and each policy supplies its keys.
 */
module ReadyOrder {
  import opened ProcessIds

  /** Lexicographic sort key: primary, secondary, id letter, id number. */
  datatype Key = Key(primary: int, secondary: int, letter: int, number: int)

  /** Strict lexicographic order on keys. */
  predicate Less(a: Key, b: Key) {
    || a.primary < b.primary
    || (a.primary == b.primary && a.secondary < b.secondary)
    || (a.primary == b.primary && a.secondary == b.secondary && a.letter < b.letter)
    || (a.primary == b.primary && a.secondary == b.secondary && a.letter == b.letter && a.number < b.number)
  }

  predicate Leq(a: Key, b: Key) {
    !Less(b, a)
  }

  /** The key of process `i`; indices without a key read as all zeros. */
  function KeyOf(keys: seq<Key>, i: nat): Key {
    if i < |keys| then keys[i] else Key(0, 0, 0, 0)
  }

  /** Neighbouring entries never step down in key order. */
  predicate Sorted(q: seq<nat>, keys: seq<Key>) {
    forall i :: 0 < i < |q| ==> Leq(KeyOf(keys, q[i - 1]), KeyOf(keys, q[i]))
  }

  /** Every earlier entry is at most every later entry. */
  predicate SortedPairwise(q: seq<nat>, keys: seq<Key>) {
    forall i, j :: 0 <= i < j < |q| ==> Leq(KeyOf(keys, q[i]), KeyOf(keys, q[j]))
  }

  lemma LeqTransitive(a: Key, b: Key, c: Key)
    requires Leq(a, b) && Leq(b, c)
    ensures Leq(a, c)
  {
  }

  /** Neighbour sortedness is full sortedness, by transitivity of `Leq`. */
  lemma {:induction false} SortedIsPairwise(q: seq<nat>, keys: seq<Key>)
    requires Sorted(q, keys)
    ensures SortedPairwise(q, keys)
    decreases |q|
  {
    if |q| > 1 {
      var t := q[1..];
      assert Sorted(t, keys) by {
        forall i | 0 < i < |t|
          ensures Leq(KeyOf(keys, t[i - 1]), KeyOf(keys, t[i]))
        {
          assert t[i - 1] == q[i] && t[i] == q[i + 1];
        }
      }
      SortedIsPairwise(t, keys);
      forall i, j | 0 <= i < j < |q|
        ensures Leq(KeyOf(keys, q[i]), KeyOf(keys, q[j]))
      {
        if i > 0 {
          assert q[i] == t[i - 1] && q[j] == t[j - 1];
        } else if j > 1 {
          assert q[1] == t[0] && q[j] == t[j - 1];
          LeqTransitive(KeyOf(keys, q[0]), KeyOf(keys, q[1]), KeyOf(keys, q[j]));
        }
      }
    }
  }

  /** Index of the first entry whose key is strictly greater than `k`, or `|q|`. */
  function FirstAbove(q: seq<nat>, k: Key, keys: seq<Key>): (j: nat)
    ensures j <= |q|
    ensures forall i :: 0 <= i < j ==> !Less(k, KeyOf(keys, q[i]))
    ensures j < |q| ==> Less(k, KeyOf(keys, q[j]))
    decreases |q|
  {
    if |q| == 0 then 0
    else if Less(k, KeyOf(keys, q[0])) then 0
    else 1 + FirstAbove(q[1..], k, keys)
  }

  /**
   * The C insertion walk: link `p` in before the first entry whose key is
   * strictly greater than `p`'s, or at the rear when there is none.
   */
  function InsertSorted(q: seq<nat>, p: nat, keys: seq<Key>): (r: seq<nat>)
    ensures var j := FirstAbove(q, KeyOf(keys, p), keys);
      r == q[..j] + [p] + q[j..]
    decreases |q|
  {
    if |q| == 0 then
      [p]
    else if Less(KeyOf(keys, p), KeyOf(keys, q[0])) then
      [p] + q
    else
      var rest := InsertSorted(q[1..], p, keys);
      SplitAfterHead(q, FirstAbove(q[1..], KeyOf(keys, p), keys));
      [q[0]] + rest
  }

  lemma SplitAfterHead(q: seq<nat>, j: nat)
    requires 0 < |q| && j < |q|
    ensures q[..j + 1] == [q[0]] + q[1..][..j] && q[j + 1..] == q[1..][j..]
  {
  }

  /** The insertion adds exactly one occurrence of `p` and loses nothing. */
  lemma {:induction false} InsertAddsOne(q: seq<nat>, p: nat, keys: seq<Key>)
    ensures multiset(InsertSorted(q, p, keys)) == multiset(q) + multiset{p}
    decreases |q|
  {
    if |q| > 0 && !Less(KeyOf(keys, p), KeyOf(keys, q[0])) {
      InsertAddsOne(q[1..], p, keys);
      assert q == [q[0]] + q[1..];
    }
  }

  /** Inserting at the first strictly-greater position keeps the queue sorted. */
  lemma {:induction false} InsertKeepsSorted(q: seq<nat>, p: nat, keys: seq<Key>)
    ensures Sorted(q, keys) ==> Sorted(InsertSorted(q, p, keys), keys)
  {
    if !Sorted(q, keys) {
      return;
    }
    var k := KeyOf(keys, p);
    var j := FirstAbove(q, k, keys);
    var r := InsertSorted(q, p, keys);
    assert r == q[..j] + [p] + q[j..];
    forall i | 0 < i < |r|
      ensures Leq(KeyOf(keys, r[i - 1]), KeyOf(keys, r[i]))
    {
      if i < j {
        assert r[i - 1] == q[i - 1] && r[i] == q[i];
      } else if i == j {
        assert r[i - 1] == q[i - 1] && r[i] == p;
      } else if i == j + 1 {
        assert r[i - 1] == p && r[i] == q[j];
      } else {
        assert r[i - 1] == q[i - 2] && r[i] == q[i - 1];
      }
    }
  }

  predicate AllBelow(q: seq<nat>, n: nat) {
    forall i :: 0 <= i < |q| ==> q[i] < n
  }

  lemma InsertKeepsBelow(q: seq<nat>, p: nat, keys: seq<Key>, n: nat)
    requires AllBelow(q, n) && p < n
    ensures AllBelow(InsertSorted(q, p, keys), n)
  {
    var r := InsertSorted(q, p, keys);
    InsertAddsOne(q, p, keys);
    forall i | 0 <= i < |r|
      ensures r[i] < n
    {
      assert r[i] in multiset(r);
    }
  }

  // ----- Shortest remaining time, exact variant (sim_srt.h) -----

  /** Keys for `enqueue_sorted_by_remaining_time`: remaining time, then id. */
  function RemainingKeys(remaining: seq<int>, ids: seq<string>): (keys: seq<Key>)
    requires |remaining| == |ids|
    ensures |keys| == |ids|
    ensures forall i :: 0 <= i < |ids| ==>
      keys[i] == Key(remaining[i], 0, Lead(ids[i]), Number(ids[i]))
  {
    seq(|ids|, i requires 0 <= i < |ids| => Key(remaining[i], 0, Lead(ids[i]), Number(ids[i])))
  }

  /** The break test of the `enqueue_sorted_by_remaining_time` walk. */
  predicate RemainingBreaks(remaining: seq<int>, ids: seq<string>, p: nat, c: nat)
    requires p < |remaining| && c < |remaining| && |remaining| == |ids|
  {
    || remaining[p] < remaining[c]
    || (remaining[p] == remaining[c] && CompareIds(ids[p], ids[c]) < 0)
  }

  /** The C break test is exactly the strict key order. */
  lemma RemainingBreaksIsLess(remaining: seq<int>, ids: seq<string>, p: nat, c: nat)
    requires p < |remaining| && c < |remaining| && |remaining| == |ids|
    ensures RemainingBreaks(remaining, ids, p, c)
      <==> Less(KeyOf(RemainingKeys(remaining, ids), p), KeyOf(RemainingKeys(remaining, ids), c))
  {
  }

  /**
   * `enqueue_sorted_by_remaining_time`: the new process goes before the first
   * entry with strictly larger remaining time, or equal remaining time and a
   * larger id, and otherwise at the rear; the queue gains exactly that
   * process and a sorted queue stays sorted.
   */
  function EnqueueSortedByRemaining(q: seq<nat>, p: nat, remaining: seq<int>, ids: seq<string>): (r: seq<nat>)
    requires |remaining| == |ids| && p < |ids| && AllBelow(q, |ids|)
    ensures multiset(r) == multiset(q) + multiset{p}
    ensures AllBelow(r, |ids|)
    ensures var j := FirstAbove(q, KeyOf(RemainingKeys(remaining, ids), p), RemainingKeys(remaining, ids));
      && r == q[..j] + [p] + q[j..]
      && (forall i :: 0 <= i < j ==> !RemainingBreaks(remaining, ids, p, q[i]))
      && (j < |q| ==> RemainingBreaks(remaining, ids, p, q[j]))
    ensures Sorted(q, RemainingKeys(remaining, ids)) ==> Sorted(r, RemainingKeys(remaining, ids))
  {
    var keys := RemainingKeys(remaining, ids);
    RemainingPosition(q, p, remaining, ids);
    InsertKeepsSorted(q, p, keys);
    InsertKeepsBelow(q, p, keys, |ids|);
    InsertAddsOne(q, p, keys);
    InsertSorted(q, p, keys)
  }

  lemma RemainingPosition(q: seq<nat>, p: nat, remaining: seq<int>, ids: seq<string>)
    requires |remaining| == |ids| && p < |ids| && AllBelow(q, |ids|)
    ensures var j := FirstAbove(q, KeyOf(RemainingKeys(remaining, ids), p), RemainingKeys(remaining, ids));
      && (forall i :: 0 <= i < j ==> !RemainingBreaks(remaining, ids, p, q[i]))
      && (j < |q| ==> RemainingBreaks(remaining, ids, p, q[j]))
  {
    var j := FirstAbove(q, KeyOf(RemainingKeys(remaining, ids), p), RemainingKeys(remaining, ids));
    forall i | 0 <= i < j
      ensures !RemainingBreaks(remaining, ids, p, q[i])
    {
      RemainingBreaksIsLess(remaining, ids, p, q[i]);
    }
    if j < |q| {
      RemainingBreaksIsLess(remaining, ids, p, q[j]);
    }
  }

  // ----- Shortest remaining time, estimate variant (sim_srt.h) -----

  /** The primary value of `enqueue_sorted_by_tau_then_id`. */
  function TauValue(tau: seq<int>, preempted: seq<bool>, remaining: seq<int>, i: nat): int
    requires i < |tau| && |preempted| == |tau| && |remaining| == |tau|
  {
    if preempted[i] then remaining[i] else tau[i]
  }

  /** Keys for `enqueue_sorted_by_tau_then_id`: value, then tau, then id. */
  function TauKeys(tau: seq<int>, preempted: seq<bool>, remaining: seq<int>, ids: seq<string>): (keys: seq<Key>)
    requires |tau| == |ids| && |preempted| == |ids| && |remaining| == |ids|
    ensures |keys| == |ids|
    ensures forall i :: 0 <= i < |ids| ==>
      keys[i] == Key(TauValue(tau, preempted, remaining, i), tau[i], Lead(ids[i]), Number(ids[i]))
  {
    seq(|ids|, i requires 0 <= i < |ids| =>
      Key(TauValue(tau, preempted, remaining, i), tau[i], Lead(ids[i]), Number(ids[i])))
  }

  /** The break test of the `enqueue_sorted_by_tau_then_id` walk. */
  predicate TauBreaks(tau: seq<int>, preempted: seq<bool>, remaining: seq<int>, ids: seq<string>, p: nat, c: nat)
    requires |tau| == |ids| && |preempted| == |ids| && |remaining| == |ids|
    requires p < |ids| && c < |ids|
  {
    var newValue := TauValue(tau, preempted, remaining, p);
    var currentValue := TauValue(tau, preempted, remaining, c);
    if newValue < currentValue then true
    else if newValue == currentValue then
      if tau[p] < tau[c] then true
      else tau[p] == tau[c] && CompareIds(ids[p], ids[c]) < 0
    else false
  }

  /** The C break test is exactly the strict key order. */
  lemma TauBreaksIsLess(tau: seq<int>, preempted: seq<bool>, remaining: seq<int>, ids: seq<string>, p: nat, c: nat)
    requires |tau| == |ids| && |preempted| == |ids| && |remaining| == |ids|
    requires p < |ids| && c < |ids|
    ensures var keys := TauKeys(tau, preempted, remaining, ids);
      TauBreaks(tau, preempted, remaining, ids, p, c) <==> Less(KeyOf(keys, p), KeyOf(keys, c))
  {
  }

  /**
   * `enqueue_sorted_by_tau_then_id`: ordered by (preempted ? remaining : tau),
   * then tau, then id; the queue gains exactly the new process and a sorted
   * queue stays sorted.
   */
  function EnqueueSortedByTau(q: seq<nat>, p: nat, tau: seq<int>, preempted: seq<bool>, remaining: seq<int>, ids: seq<string>): (r: seq<nat>)
    requires |tau| == |ids| && |preempted| == |ids| && |remaining| == |ids|
    requires p < |ids| && AllBelow(q, |ids|)
    ensures multiset(r) == multiset(q) + multiset{p}
    ensures AllBelow(r, |ids|)
    ensures var keys := TauKeys(tau, preempted, remaining, ids);
      var j := FirstAbove(q, KeyOf(keys, p), keys);
      && r == q[..j] + [p] + q[j..]
      && (forall i :: 0 <= i < j ==> !TauBreaks(tau, preempted, remaining, ids, p, q[i]))
      && (j < |q| ==> TauBreaks(tau, preempted, remaining, ids, p, q[j]))
    ensures Sorted(q, TauKeys(tau, preempted, remaining, ids)) ==> Sorted(r, TauKeys(tau, preempted, remaining, ids))
  {
    var keys := TauKeys(tau, preempted, remaining, ids);
    TauPosition(q, p, tau, preempted, remaining, ids);
    InsertKeepsSorted(q, p, keys);
    InsertKeepsBelow(q, p, keys, |ids|);
    InsertAddsOne(q, p, keys);
    InsertSorted(q, p, keys)
  }

  lemma TauPosition(q: seq<nat>, p: nat, tau: seq<int>, preempted: seq<bool>, remaining: seq<int>, ids: seq<string>)
    requires |tau| == |ids| && |preempted| == |ids| && |remaining| == |ids|
    requires p < |ids| && AllBelow(q, |ids|)
    ensures var keys := TauKeys(tau, preempted, remaining, ids);
      var j := FirstAbove(q, KeyOf(keys, p), keys);
      && (forall i :: 0 <= i < j ==> !TauBreaks(tau, preempted, remaining, ids, p, q[i]))
      && (j < |q| ==> TauBreaks(tau, preempted, remaining, ids, p, q[j]))
  {
    var keys := TauKeys(tau, preempted, remaining, ids);
    var j := FirstAbove(q, KeyOf(keys, p), keys);
    forall i | 0 <= i < j
      ensures !TauBreaks(tau, preempted, remaining, ids, p, q[i])
    {
      TauBreaksIsLess(tau, preempted, remaining, ids, p, q[i]);
    }
    if j < |q| {
      TauBreaksIsLess(tau, preempted, remaining, ids, p, q[j]);
    }
  }

  // ----- Shortest job first (sim_sjf.h) -----

  /**
   * The comparison value of `enqueue_sjf` for every process: with the
   * sentinel alpha = -1 it is `cpu_bursts[process->index]`, and
   * `simulate_sjf` forces every `index` to 0, so the first CPU burst;
   * otherwise the tau stored at the index `get_process_index` finds.
   */
  function SjfValues(alpha: real, firstBursts: seq<int>, tau: seq<int>, ids: seq<string>): (values: seq<int>)
    requires |firstBursts| == |ids| && |tau| == |ids|
    ensures |values| == |ids|
    ensures forall i :: 0 <= i < |ids| ==>
      values[i] == if alpha == -1.0 then firstBursts[i] else tau[IndexOf(ids, ids[i])]
  {
    seq(|ids|, i requires 0 <= i < |ids| =>
      if alpha == -1.0 then firstBursts[i] else tau[IndexOf(ids, ids[i])])
  }

  /** Keys for `enqueue_sjf`: the comparison value alone, so ties stay tied. */
  function SjfKeys(values: seq<int>): (keys: seq<Key>)
    ensures |keys| == |values|
    ensures forall i :: 0 <= i < |values| ==> keys[i] == Key(values[i], 0, 0, 0)
  {
    seq(|values|, i requires 0 <= i < |values| => Key(values[i], 0, 0, 0))
  }

  /**
   * `enqueue_sjf`: the new process goes to the front only if its value is
   * strictly smaller than the front's, and otherwise behind every entry
   * whose value is not greater, so equal values keep their arrival order.
   */
  function EnqueueSjf(q: seq<nat>, p: nat, values: seq<int>): (r: seq<nat>)
    requires p < |values| && AllBelow(q, |values|)
    ensures multiset(r) == multiset(q) + multiset{p}
    ensures AllBelow(r, |values|)
    ensures var j := FirstAbove(q, KeyOf(SjfKeys(values), p), SjfKeys(values));
      && r == q[..j] + [p] + q[j..]
      && (forall i :: 0 <= i < j ==> values[q[i]] <= values[p])
      && (j < |q| ==> values[p] < values[q[j]])
    ensures Sorted(q, SjfKeys(values)) ==> Sorted(r, SjfKeys(values))
  {
    InsertKeepsSorted(q, p, SjfKeys(values));
    InsertKeepsBelow(q, p, SjfKeys(values), |values|);
    InsertAddsOne(q, p, SjfKeys(values));
    InsertSorted(q, p, SjfKeys(values))
  }
}
