/** The split of a batch of texts into cache hits and the list of texts still to translate, and
    the merge of the translations back by position, shared by the endpoint (api/translate.js:28-55)
    and the browser (js/script.js:38-69). Both sides key their caches as `${target}|${text}`; the
    browser always uses the target `es`. */
module Batch {
  import opened Wrappers

  // ================================================================ cache keys

  /** `${target}|${text}`: no normalisation of either part. */
  function CacheKey(target: string, text: string): (key: string)
    ensures |key| == |target| + 1 + |text| && key[|target|] == '|'
    ensures key[..|target|] == target && key[|target| + 1..] == text
  {
    target + "|" + text
  }

  /** For one target language, two texts share a key only when they are identical. */
  lemma CacheKeySameTarget(target: string, a: string, b: string)
    ensures CacheKey(target, a) == CacheKey(target, b) <==> a == b
  {
    if CacheKey(target, a) == CacheKey(target, b) {
      assert a == CacheKey(target, a)[|target| + 1..];
      assert b == CacheKey(target, b)[|target| + 1..];
    }
  }

  /** When neither target contains `|`, a key determines its (target, text) pair. */
  lemma CacheKeyInjective(t1: string, a: string, t2: string, b: string)
    requires '|' !in t1 && '|' !in t2
    ensures CacheKey(t1, a) == CacheKey(t2, b) <==> t1 == t2 && a == b
  {
    if CacheKey(t1, a) == CacheKey(t2, b) {
      var key := CacheKey(t1, a);
      assert key[|t1|] == '|' && key[|t2|] == '|';
      assert |t1| == |t2|;
      assert t1 == key[..|t1|] && t2 == key[..|t2|];
      CacheKeySameTarget(t1, a, b);
    }
  }

  /** A target that contains `|` can share a key with another target (the request chooses
      `target` freely). */
  lemma CacheKeyCollision()
    ensures CacheKey("es|a", "b") == CacheKey("es", "a|b")
  {
  }

  // ================================================================ ranks

  /** Number of `true` flags. */
  function CountTrue(flags: seq<bool>): nat
    decreases |flags|
  {
    if flags == [] then 0
    else CountTrue(flags[..|flags| - 1]) + (if flags[|flags| - 1] then 1 else 0)
  }

  lemma {:induction false} CountTrueNone(flags: seq<bool>)
    requires forall i :: 0 <= i < |flags| ==> !flags[i]
    ensures CountTrue(flags) == 0
    decreases |flags|
  {
    if flags != [] {
      CountTrueNone(flags[..|flags| - 1]);
    }
  }

  /** Number of flagged positions before `i`: the slot a flagged item takes in the needed list. */
  function Rank(flags: seq<bool>, i: nat): nat
    requires i <= |flags|
  {
    CountTrue(flags[..i])
  }

  /** The items at flagged positions, in order. */
  function Select(items: seq<string>, flags: seq<bool>): (r: seq<string>)
    requires |flags| == |items|
    ensures |r| == CountTrue(flags)
    decreases |items|
  {
    if items == [] then []
    else
      var n := |items| - 1;
      Select(items[..n], flags[..n]) + (if flags[n] then [items[n]] else [])
  }

  /** Everything selected is an item at a flagged position. */
  lemma {:induction false} SelectMember(items: seq<string>, flags: seq<bool>, t: string)
    requires |flags| == |items| && t in Select(items, flags)
    ensures exists j :: 0 <= j < |items| && flags[j] && items[j] == t
    decreases |items|
  {
    var n := |items| - 1;
    if t in Select(items[..n], flags[..n]) {
      SelectMember(items[..n], flags[..n], t);
      var j :| 0 <= j < n && flags[..n][j] && items[..n][j] == t;
      assert flags[j] && items[j] == t;
    } else {
      assert flags[n] && items[n] == t;
    }
  }

  lemma RankStep(flags: seq<bool>, i: nat)
    requires i < |flags|
    ensures Rank(flags, i + 1) == Rank(flags, i) + (if flags[i] then 1 else 0)
  {
    assert flags[..i + 1][..i] == flags[..i];
  }

  lemma SelectStep(items: seq<string>, flags: seq<bool>, i: nat)
    requires |flags| == |items| && i < |items|
    ensures Select(items[..i + 1], flags[..i + 1]) ==
            Select(items[..i], flags[..i]) + (if flags[i] then [items[i]] else [])
  {
    assert items[..i + 1][..i] == items[..i];
    assert flags[..i + 1][..i] == flags[..i];
  }

  lemma {:induction false} RankBelow(flags: seq<bool>, i: nat, j: nat)
    requires i <= j <= |flags|
    ensures Rank(flags, i) <= Rank(flags, j)
    decreases j - i
  {
    if i < j {
      RankStep(flags, j - 1);
      RankBelow(flags, i, j - 1);
    }
  }

  /** A flagged position's rank is a valid index into the needed list. */
  lemma RankBound(flags: seq<bool>, i: nat)
    requires i < |flags| && flags[i]
    ensures Rank(flags, i) < CountTrue(flags)
  {
    RankStep(flags, i);
    RankBelow(flags, i + 1, |flags|);
    assert flags[..|flags|] == flags;
  }

  /** The needed list holds each flagged item at its rank. */
  lemma {:induction false} SelectAtRank(items: seq<string>, flags: seq<bool>, i: nat)
    requires |flags| == |items| && i < |items| && flags[i]
    ensures Rank(flags, i) < |Select(items, flags)|
    ensures Select(items, flags)[Rank(flags, i)] == items[i]
    decreases |items|
  {
    RankBound(flags, i);
    var n := |items| - 1;
    if i < n {
      assert items[..n][..i] == items[..i] && flags[..n][..i] == flags[..i];
      SelectAtRank(items[..n], flags[..n], i);
      assert flags[..n][i] == flags[i] && items[..n][i] == items[i];
    } else {
      assert flags[..i] == flags[..n];
    }
  }

  /** `need`/`idx` as the loops build them: `need[k] == items[idx[k]]`, `idx` strictly increasing,
      and exactly the flagged positions appear in `idx`, each at its rank. */
  ghost predicate IsSplit(items: seq<string>, flags: seq<bool>, need: seq<string>, idx: seq<nat>) {
    |flags| == |items| && |need| == |idx| == CountTrue(flags) &&
    (forall k :: 0 <= k < |idx| ==>
       idx[k] < |items| && flags[idx[k]] && Rank(flags, idx[k]) == k && need[k] == items[idx[k]]) &&
    (forall k, l :: 0 <= k < l < |idx| ==> idx[k] < idx[l]) &&
    (forall i :: 0 <= i < |items| && flags[i] ==> Rank(flags, i) < |idx| && idx[Rank(flags, i)] == i)
  }

  /** What the partition loops have built after looking at the first `i` items. */
  ghost predicate SplitUpTo(items: seq<string>, flags: seq<bool>, need: seq<string>, idx: seq<nat>, i: nat) {
    |flags| == |items| && i <= |items| && |need| == |idx| == Rank(flags, i) &&
    need == Select(items[..i], flags[..i]) &&
    (forall k :: 0 <= k < |idx| ==>
       idx[k] < i && flags[idx[k]] && Rank(flags, idx[k]) == k && need[k] == items[idx[k]]) &&
    (forall k, l :: 0 <= k < l < |idx| ==> idx[k] < idx[l]) &&
    (forall j :: 0 <= j < i && flags[j] ==> Rank(flags, j) < |idx| && idx[Rank(flags, j)] == j)
  }

  lemma SplitUpToStart(items: seq<string>, flags: seq<bool>)
    requires |flags| == |items|
    ensures SplitUpTo(items, flags, [], [], 0)
  {
    assert items[..0] == [] && flags[..0] == [];
  }

  /** One iteration: a flagged item is appended to `need` and its position to `idx`. */
  lemma SplitUpToStep(items: seq<string>, flags: seq<bool>, need: seq<string>, idx: seq<nat>, i: nat)
    requires SplitUpTo(items, flags, need, idx, i) && i < |items|
    ensures flags[i] ==> SplitUpTo(items, flags, need + [items[i]], idx + [i], i + 1)
    ensures !flags[i] ==> SplitUpTo(items, flags, need, idx, i + 1)
  {
    RankStep(flags, i);
    SelectStep(items, flags, i);
    if flags[i] {
      var idx' := idx + [i];
      assert forall j :: 0 <= j < i && flags[j] ==> idx'[Rank(flags, j)] == j;
    }
  }

  lemma SplitUpToDone(items: seq<string>, flags: seq<bool>, need: seq<string>, idx: seq<nat>)
    requires SplitUpTo(items, flags, need, idx, |items|)
    ensures IsSplit(items, flags, need, idx)
    ensures need == Select(items, flags)
  {
    assert items[..|items|] == items && flags[..|flags|] == flags;
  }

  /** Slot `idx[k]` is the one flagged position whose rank is `k`. */
  lemma SlotOfRank(items: seq<string>, flags: seq<bool>, need: seq<string>, idx: seq<nat>, k: nat, i: nat)
    requires IsSplit(items, flags, need, idx) && k < |idx| && i < |items| && flags[i]
    ensures Rank(flags, i) == k <==> i == idx[k]
  {
  }

  /** The flagged positions, in increasing order: the `idx` list of the partition loops. */
  function Positions(flags: seq<bool>): (r: seq<nat>)
    ensures |r| == CountTrue(flags)
    ensures forall k :: 0 <= k < |r| ==> r[k] < |flags| && flags[r[k]]
    decreases |flags|
  {
    if flags == [] then []
    else
      var n := |flags| - 1;
      Positions(flags[..n]) + (if flags[n] then [n] else [])
  }

  lemma PositionsStep(flags: seq<bool>, i: nat)
    requires i < |flags|
    ensures Positions(flags[..i + 1]) == Positions(flags[..i]) + (if flags[i] then [i] else [])
  {
    assert flags[..i + 1][..i] == flags[..i];
  }

  lemma {:induction false} SplitUpToPrefix(items: seq<string>, flags: seq<bool>, i: nat)
    requires |flags| == |items| && i <= |items|
    ensures SplitUpTo(items, flags, Select(items[..i], flags[..i]), Positions(flags[..i]), i)
  {
    if i == 0 {
      SplitUpToStart(items, flags);
    } else {
      SplitUpToPrefix(items, flags, i - 1);
      SplitUpToStep(items, flags, Select(items[..i - 1], flags[..i - 1]), Positions(flags[..i - 1]), i - 1);
      SelectStep(items, flags, i - 1);
      PositionsStep(flags, i - 1);
    }
  }

  /** The selected items and their positions form a split of the batch. */
  lemma SelectPositionsSplit(items: seq<string>, flags: seq<bool>)
    requires |flags| == |items|
    ensures IsSplit(items, flags, Select(items, flags), Positions(flags))
  {
    SplitUpToPrefix(items, flags, |items|);
    assert items[..|items|] == items && flags[..|flags|] == flags;
    SplitUpToDone(items, flags, Select(items, flags), Positions(flags));
  }

  // ================================================================ partition

  /** Which items miss the cache: position `i` is a miss when `${target}|${items[i]}` is not stored. */
  function MissFlags(entries: map<string, string>, target: string, items: seq<string>): (flags: seq<bool>)
    ensures |flags| == |items|
    ensures forall i :: 0 <= i < |items| ==> (flags[i] <==> CacheKey(target, items[i]) !in entries)
  {
    seq(|items|, i requires 0 <= i < |items| => CacheKey(target, items[i]) !in entries)
  }

  // ================================================================ merge

  /** The response slots after the first `k` iterations of the write-back loop. */
  function Fill(out0: seq<Option<string>>, idx: seq<nat>, translated: seq<string>, k: nat): (out: seq<Option<string>>)
    requires k <= |translated| && forall j :: 0 <= j < |idx| ==> idx[j] < |out0|
    ensures |out| == |out0|
  {
    if k == 0 then out0
    else
      var prev := Fill(out0, idx, translated, k - 1);
      if k - 1 < |idx| then prev[idx[k - 1] := Some(translated[k - 1])] else prev
  }

  lemma FillStep(out0: seq<Option<string>>, idx: seq<nat>, translated: seq<string>, k: nat)
    requires k < |translated| && forall j :: 0 <= j < |idx| ==> idx[j] < |out0|
    ensures k < |idx| ==> Fill(out0, idx, translated, k + 1) == Fill(out0, idx, translated, k)[idx[k] := Some(translated[k])]
    ensures k >= |idx| ==> Fill(out0, idx, translated, k + 1) == Fill(out0, idx, translated, k)
  {
  }

  /** After the write-back, the miss of rank `r` holds provider output `r` when there is one;
      every other slot is as before. */
  lemma {:induction false} FillByRank(items: seq<string>, flags: seq<bool>, out0: seq<Option<string>>,
                                      translated: seq<string>, k: nat)
    requires |flags| == |items| && |out0| == |items| && k <= |translated|
    ensures forall i :: 0 <= i < |items| ==>
              Fill(out0, Positions(flags), translated, k)[i] ==
                if flags[i] && Rank(flags, i) < k then Some(translated[Rank(flags, i)]) else out0[i]
  {
    var idx := Positions(flags);
    if k > 0 {
      FillByRank(items, flags, out0, translated, k - 1);
      SelectPositionsSplit(items, flags);
      forall i | 0 <= i < |items|
        ensures Fill(out0, idx, translated, k)[i] ==
                  if flags[i] && Rank(flags, i) < k then Some(translated[Rank(flags, i)]) else out0[i]
      {
        if flags[i] {
          RankBound(flags, i);
          if k - 1 < |idx| {
            SlotOfRank(items, flags, Select(items, flags), idx, k - 1, i);
          }
        } else if k - 1 < |idx| {
          assert i != idx[k - 1];
        }
      }
    }
  }

}
