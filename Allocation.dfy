/**
  Final song numbers within one `(normalized_label, label_id)` group, walked
  in sorted order.  A requested number that is at least 1 and not yet used is
  kept; any other request receives the cursor `nextAvailableNumber` after it
  has been advanced past the used numbers, which is always the least positive
  number not yet used.

  The JavaScript `Set` `usedNumbers` is modelled as the sequence of its
  elements in insertion order; since every final number is new, that sequence
  is exactly the final numbers handed out so far.
 */
module Allocation {
  import opened Records
  import StableSort

  /** How many entries of `used` are at least `k`. */
  function CountAtLeast(used: seq<int>, k: int): nat {
    if used == [] then 0
    else CountAtLeast(used[..|used| - 1], k) + (if used[|used| - 1] >= k then 1 else 0)
  }

  lemma {:induction false} CountAtLeastDrops(used: seq<int>, k: int)
    ensures CountAtLeast(used, k + 1) <= CountAtLeast(used, k)
    ensures k in used ==> CountAtLeast(used, k + 1) < CountAtLeast(used, k)
  {
    if used != [] {
      var p := used[..|used| - 1];
      CountAtLeastDrops(p, k);
      assert used == p + [used[|used| - 1]];
    }
  }

  /** The least number `>= k` missing from `used`. */
  function LeastFreeFrom(used: seq<int>, k: int): int
    decreases CountAtLeast(used, k)
  {
    if k in used then
      CountAtLeastDrops(used, k);
      LeastFreeFrom(used, k + 1)
    else k
  }

  lemma LeastFreeFromSpec(used: seq<int>, k: int)
    requires k >= 1 && forall n :: 1 <= n < k ==> n in used
    ensures LeastFreeFrom(used, k) >= k
    ensures LeastFreeFrom(used, k) !in used
    ensures forall n :: 1 <= n < LeastFreeFrom(used, k) ==> n in used
    decreases CountAtLeast(used, k)
  {
    if k in used {
      CountAtLeastDrops(used, k);
      LeastFreeFromSpec(used, k + 1);
    }
  }

  /** The least positive number not in `used`. */
  function LeastFree(used: seq<int>): (r: int)
    ensures r >= 1 && r !in used
    ensures forall n :: 1 <= n < r ==> n in used
  {
    LeastFreeFromSpec(used, 1);
    LeastFreeFrom(used, 1)
  }

  /** A positive number missing from `used`, with everything below it present, is `LeastFree(used)`. */
  lemma LeastFreeUnique(used: seq<int>, n: int)
    requires n >= 1 && n !in used
    requires forall m :: 1 <= m < n ==> m in used
    ensures n == LeastFree(used)
  {
    var r := LeastFree(used);
    assert r <= n by {
      assert 1 <= r && r !in used;
    }
    assert n <= r by {
      assert 1 <= n && n !in used;
    }
  }

  /** The number a song requesting `requested` receives when `used` are taken. */
  function FinalNumber(requested: int, used: seq<int>): int {
    if requested < 1 || requested in used then LeastFree(used) else requested
  }

  /** The final numbers of a group whose requested numbers, in walking order, are `requested`. */
  function FinalNumbers(requested: seq<int>): (f: seq<int>)
    ensures |f| == |requested|
  {
    if requested == [] then []
    else
      var p := FinalNumbers(requested[..|requested| - 1]);
      p + [FinalNumber(requested[|requested| - 1], p)]
  }

  /** Every final number is at least 1, and no two final numbers of a group are equal. */
  lemma {:induction false} FinalNumbersSpec(requested: seq<int>)
    ensures forall i :: 0 <= i < |requested| ==> FinalNumbers(requested)[i] >= 1
    ensures forall i, j :: 0 <= i < j < |requested| ==> FinalNumbers(requested)[i] != FinalNumbers(requested)[j]
  {
    if requested != [] {
      var q := requested[..|requested| - 1];
      var p := FinalNumbers(q);
      FinalNumbersSpec(q);
      var n := FinalNumber(requested[|requested| - 1], p);
      assert n >= 1 && n !in p;
      var f := FinalNumbers(requested);
      assert f == p + [n];
      forall i | 0 <= i < |f| ensures f[i] >= 1 {
        if i < |p| {
          assert f[i] == p[i];
        }
      }
      forall i, j | 0 <= i < j < |f| ensures f[i] != f[j] {
        assert f[i] == p[i];
        if j < |p| {
          assert f[j] == p[j];
        }
      }
    }
  }

  lemma {:induction false} FinalNumbersPrefix(requested: seq<int>, t: int)
    requires 0 <= t <= |requested|
    ensures FinalNumbers(requested[..t]) == FinalNumbers(requested)[..t]
    decreases |requested|
  {
    if t < |requested| {
      var p := requested[..|requested| - 1];
      assert requested[..t] == p[..t];
      FinalNumbersPrefix(p, t);
      var fp := FinalNumbers(p);
      assert FinalNumbers(requested) == fp + [FinalNumber(requested[|requested| - 1], fp)];
      assert (fp + [FinalNumber(requested[|requested| - 1], fp)])[..t] == fp[..t];
    } else {
      assert requested[..t] == requested;
    }
  }

  /**
    The assignment rule: the request at position `i` is kept when it is at
    least 1 and not among the numbers already handed out; otherwise position
    `i` receives the least positive number not handed out before it.
   */
  lemma FinalNumbersRule(requested: seq<int>, i: int)
    requires 0 <= i < |requested|
    ensures var f := FinalNumbers(requested);
      && (requested[i] >= 1 && requested[i] !in f[..i] ==> f[i] == requested[i])
      && (requested[i] < 1 || requested[i] in f[..i] ==>
            && f[i] !in f[..i]
            && forall n :: 1 <= n < f[i] ==> n in f[..i])
  {
    FinalNumbersPrefix(requested, i + 1);
    FinalNumbersPrefix(requested, i);
    var f := FinalNumbers(requested);
    assert requested[..i + 1][..i] == requested[..i];
    assert f[..i + 1] == f[..i] + [f[i]];
  }

  /** Requests that are all at least 1 and pairwise distinct are all kept. */
  lemma {:induction false} FinalNumbersKeep(requested: seq<int>)
    requires forall i :: 0 <= i < |requested| ==> requested[i] >= 1
    requires forall i, j :: 0 <= i < j < |requested| ==> requested[i] != requested[j]
    ensures FinalNumbers(requested) == requested
  {
    if requested != [] {
      var n := |requested| - 1;
      var p := requested[..n];
      FinalNumbersKeep(p);
      assert requested[n] !in p;
      assert requested == p + [requested[n]];
    }
  }

  /** Sorted requests `[3, 3]`: the first keeps 3, the second receives 1. */
  lemma RepeatedThree(requested: seq<int>)
    requires requested == [3, 3]
    ensures FinalNumbers(requested) == [3, 1]
  {
    assert requested[..1] == [3] && [3][..0] == [];
    assert FinalNumbers([3]) == [3];
    assert LeastFree([3]) == 1;
  }

  /** Sorted requests `[0, 1]`: the invalid 0 takes 1 first, so the request for 1 receives 2. */
  lemma ZeroThenOne(requested: seq<int>)
    requires requested == [0, 1]
    ensures FinalNumbers(requested) == [1, 2]
  {
    assert requested[..1] == [0] && [0][..0] == [];
    LeastFreeUnique([], 1);
    assert FinalNumbers([0]) == [1];
    LeastFreeUnique([1], 2);
  }

  function Numbers(s: seq<LabelledSong>): (r: seq<int>)
    ensures |r| == |s|
  {
    seq(|s|, i requires 0 <= i < |s| => StableSort.Number(s[i]))
  }

  /** Pairs every song with its final number. */
  function Attach(s: seq<LabelledSong>, finals: seq<int>): (r: seq<ResolvedSong>)
    requires |finals| == |s|
    ensures |r| == |s|
  {
    seq(|s|, i requires 0 <= i < |s| => ResolvedSong(s[i], finals[i]))
  }

  /** The records pushed for one sorted group. */
  function NumberGroup(sorted: seq<LabelledSong>): (r: seq<ResolvedSong>)
    ensures |r| == |sorted|
  {
    Attach(sorted, FinalNumbers(Numbers(sorted)))
  }

  /**
    What a group's records promise: the songs in the given order, each with
    a final number that is at least 1 and differs from every other one of the
    group.
   */
  lemma NumberGroupSpec(sorted: seq<LabelledSong>)
    ensures forall i :: 0 <= i < |sorted| ==> NumberGroup(sorted)[i].labelled == sorted[i]
    ensures forall i :: 0 <= i < |sorted| ==> NumberGroup(sorted)[i].finalSongNumber >= 1
    ensures forall i, j :: 0 <= i < j < |sorted| ==>
      NumberGroup(sorted)[i].finalSongNumber != NumberGroup(sorted)[j].finalSongNumber
  {
    var f := FinalNumbers(Numbers(sorted));
    FinalNumbersSpec(Numbers(sorted));
    assert forall i :: 0 <= i < |sorted| ==> NumberGroup(sorted)[i].finalSongNumber == f[i];
  }

  /**
    `while (usedNumbers.has(nextAvailableNumber)) nextAvailableNumber++`: from a
    cursor below which every positive number is used, this reaches the least
    positive number not used.
   */
  method SkipUsed(usedNumbers: seq<int>, cursor: int) returns (nextAvailableNumber: int)
    requires cursor >= 1 && forall n :: 1 <= n < cursor ==> n in usedNumbers
    ensures nextAvailableNumber >= cursor
    ensures nextAvailableNumber == LeastFree(usedNumbers)
  {
    nextAvailableNumber := cursor;
    while nextAvailableNumber in usedNumbers
      invariant nextAvailableNumber >= cursor
      invariant forall n :: 1 <= n < nextAvailableNumber ==> n in usedNumbers
      decreases CountAtLeast(usedNumbers, nextAvailableNumber)
    {
      CountAtLeastDrops(usedNumbers, nextAvailableNumber);
      nextAvailableNumber := nextAvailableNumber + 1;
    }
    LeastFreeUnique(usedNumbers, nextAvailableNumber);
  }

  /**
    The `forEach` callback over one sorted group: walk it with `usedNumbers`
    and the cursor `nextAvailableNumber`, and push each song with its final
    number.
   */
  method NumberLabelGroup(labelSongs: seq<LabelledSong>) returns (pushed: seq<ResolvedSong>)
    ensures pushed == NumberGroup(labelSongs)
  {
    ghost var requested := Numbers(labelSongs);
    var usedNumbers: seq<int> := [];
    var nextAvailableNumber := 1;
    pushed := [];
    for t := 0 to |labelSongs|
      invariant usedNumbers == FinalNumbers(requested[..t])
      invariant pushed == Attach(labelSongs[..t], usedNumbers)
      invariant nextAvailableNumber >= 1
      invariant forall n :: 1 <= n < nextAvailableNumber ==> n in usedNumbers
    {
      var song := labelSongs[t];
      var finalNumber := song.song.songNumber;
      if finalNumber < 1 || finalNumber in usedNumbers {
        nextAvailableNumber := SkipUsed(usedNumbers, nextAvailableNumber);
        finalNumber := nextAvailableNumber;
        nextAvailableNumber := nextAvailableNumber + 1;
      }
      assert requested[..t + 1][..t] == requested[..t];
      assert finalNumber == FinalNumber(requested[t], usedNumbers);
      if finalNumber !in usedNumbers {
        usedNumbers := usedNumbers + [finalNumber];
      }
      assert labelSongs[..t + 1] == labelSongs[..t] + [song];
      pushed := pushed + [ResolvedSong(song, finalNumber)];
    }
    assert labelSongs[..|labelSongs|] == labelSongs && requested[..|labelSongs|] == requested;
  }

  /** A sorted group whose requested numbers are at least 1 and pairwise distinct keeps every request. */
  lemma NumberGroupKeep(sorted: seq<LabelledSong>)
    requires forall i :: 0 <= i < |sorted| ==> StableSort.Number(sorted[i]) >= 1
    requires StableSort.DistinctNumbers(sorted)
    ensures forall i :: 0 <= i < |sorted| ==>
      NumberGroup(sorted)[i].finalSongNumber == StableSort.Number(sorted[i])
  {
    FinalNumbersKeep(Numbers(sorted));
  }
}
