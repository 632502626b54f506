/**
 * The loop shared by `get_mod_pos_from_rec` (extract_bed_from_bam.py:19-23) and
 * `get_mods_from_rec` (add_nucleosomes.py:17-21): for every requested
 * modification key that the record reports, collect that key's call positions.
 */
module ModCalls {
  import opened Common
  import opened Records

  /** A key is reported only when it has calls (pysam's behaviour). */
  predicate CallsNonEmpty(calls: map<ModKey, seq<int>>) {
    forall k :: k in calls ==> |calls[k]| > 0
  }

  /** The position lists of the requested keys that are present, in key order. */
  function PresentCalls(calls: map<ModKey, seq<int>>, mods: seq<ModKey>): (r: seq<seq<int>>)
    ensures |r| <= |mods|
    ensures |r| == 0 <==> forall k :: 0 <= k < |mods| ==> mods[k] !in calls
    ensures forall k :: 0 <= k < |r| ==> exists j :: 0 <= j < |mods| && mods[j] in calls && r[k] == calls[mods[j]]
  {
    if |mods| == 0 then []
    else
      var key := mods[|mods| - 1];
      var init := PresentCalls(calls, mods[..|mods| - 1]);
      assert forall k :: 0 <= k < |mods| - 1 ==> mods[..|mods| - 1][k] == mods[k];
      init + (if key in calls then [calls[key]] else [])
  }

  /** The gathered lists hold as many calls as the present keys have. */
  lemma {:induction false} PresentCallsTotal(calls: map<ModKey, seq<int>>, mods: seq<ModKey>)
    ensures TotalLength(PresentCalls(calls, mods)) ==
            KeyCallCount(calls, mods)
  {
    if |mods| > 0 {
      var key := mods[|mods| - 1];
      var init := PresentCalls(calls, mods[..|mods| - 1]);
      PresentCallsTotal(calls, mods[..|mods| - 1]);
      var tail := if key in calls then [calls[key]] else [];
      FlattenLength(init + tail);
      FlattenLength(init);
      FlattenAppendAll(init, tail);
    }
  }

  /** The indices below n of the requested keys that are present, in increasing order. */
  function PresentKeys(calls: map<ModKey, seq<int>>, mods: seq<ModKey>, n: nat): (idx: seq<int>)
    requires n <= |mods|
    ensures |idx| <= n
    ensures forall k :: 0 <= k < |idx| ==> 0 <= idx[k] < n && mods[idx[k]] in calls
    ensures StrictlyIncreasing(idx)
    ensures forall j :: 0 <= j < n && mods[j] in calls ==> j in idx
  {
    if n == 0 then []
    else
      var init := PresentKeys(calls, mods, n - 1);
      init + (if mods[n - 1] in calls then [n - 1] else [])
  }

  /**
   * The k-th gathered list is the list of the k-th present requested key:
   * one list per present key, in the order the keys are requested.
   */
  lemma PresentCallsAt(calls: map<ModKey, seq<int>>, mods: seq<ModKey>)
    ensures var idx := PresentKeys(calls, mods, |mods|);
            var r := PresentCalls(calls, mods);
            |r| == |idx| && forall k :: 0 <= k < |idx| ==> r[k] == calls[mods[idx[k]]]
  {
    PresentCallsPrefix(calls, mods, |mods|);
    assert mods[..|mods|] == mods;
  }

  /** PresentCallsAt for the first n requested keys. */
  lemma {:induction false} PresentCallsPrefix(calls: map<ModKey, seq<int>>, mods: seq<ModKey>, n: nat)
    requires n <= |mods|
    ensures var idx := PresentKeys(calls, mods, n);
            var r := PresentCalls(calls, mods[..n]);
            |r| == |idx| && forall k :: 0 <= k < |idx| ==> r[k] == calls[mods[idx[k]]]
  {
    if n > 0 {
      PresentCallsPrefix(calls, mods, n - 1);
      assert mods[..n][..n - 1] == mods[..n - 1];
      assert mods[..n][n - 1] == mods[n - 1];
    }
  }

  /** Every call of every requested key that is present, counted once per request. */
  function KeyCallMultiset(calls: map<ModKey, seq<int>>, mods: seq<ModKey>): multiset<int> {
    if |mods| == 0 then multiset{}
    else
      var key := mods[|mods| - 1];
      KeyCallMultiset(calls, mods[..|mods| - 1]) + (if key in calls then multiset(calls[key]) else multiset{})
  }

  /** The gathered lists hold exactly the calls of the present keys: none lost, none deduplicated. */
  lemma {:induction false} PresentCallsMultiset(calls: map<ModKey, seq<int>>, mods: seq<ModKey>)
    ensures multiset(Flatten(PresentCalls(calls, mods))) == KeyCallMultiset(calls, mods)
  {
    if |mods| > 0 {
      var key := mods[|mods| - 1];
      var init := PresentCalls(calls, mods[..|mods| - 1]);
      PresentCallsMultiset(calls, mods[..|mods| - 1]);
      var tail := if key in calls then [calls[key]] else [];
      FlattenAppendAll(init, tail);
      if key in calls {
        assert Flatten(tail) == calls[key] + Flatten(tail[1..]);
        assert Flatten(tail) == calls[key];
      } else {
        assert Flatten(tail) == [];
      }
    }
  }

  /** The number of calls of the requested keys that are present. */
  function KeyCallCount(calls: map<ModKey, seq<int>>, mods: seq<ModKey>): nat {
    if |mods| == 0 then 0
    else
      var key := mods[|mods| - 1];
      KeyCallCount(calls, mods[..|mods| - 1]) + (if key in calls then |calls[key]| else 0)
  }

  lemma FlattenAppendAll<T>(parts: seq<seq<T>>, tail: seq<seq<T>>)
    requires |tail| <= 1
    ensures Flatten(parts + tail) == Flatten(parts) + Flatten(tail)
  {
    if |tail| == 0 {
      assert parts + tail == parts;
    } else {
      FlattenAppend(parts, tail[0]);
      assert tail == [tail[0]];
      assert Flatten(tail) == tail[0] + Flatten(tail[1..]);
    }
  }

  /** The loop `for mod in mods: if mod in calls: positions.append(calls[mod])`. */
  method Gather(calls: map<ModKey, seq<int>>, mods: seq<ModKey>) returns (positions: seq<seq<int>>)
    ensures positions == PresentCalls(calls, mods)
    ensures |Flatten(positions)| == KeyCallCount(calls, mods)
    ensures multiset(Flatten(positions)) == KeyCallMultiset(calls, mods)
  {
    positions := [];
    for i := 0 to |mods|
      invariant positions == PresentCalls(calls, mods[..i])
    {
      assert mods[..i + 1][..i] == mods[..i];
      if mods[i] in calls {
        positions := positions + [calls[mods[i]]];
      }
    }
    assert mods[..|mods|] == mods;
    FlattenLength(positions);
    PresentCallsTotal(calls, mods);
    PresentCallsMultiset(calls, mods);
  }
}
