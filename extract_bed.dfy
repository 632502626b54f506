/**
 * workflow/scripts/extract_bed_from_bam.py: modification positions of a read,
 * the nucleosome / accessible tag pairs, the liftover of fiber intervals onto
 * the reference, and the BED12 block columns (blockCount, blockSizes,
 * blockStarts as in the UCSC BED12 format).
 */
module ExtractBed {
  import opened Common
  import opened Records
  import opened ModCalls

  // ---------------------------------------------------------------------------
  // get_mod_pos_from_rec

  /**
   * None when the record has no forward modification map or when none of the
   * requested keys is present; otherwise every call of the present keys,
   * sorted ascending, with repeats kept.
   */
  method GetModPosFromRec(rec: Record, mods: seq<ModKey>) returns (r: Option<seq<int>>)
    requires rec.modifiedBasesForward.Some? ==> CallsNonEmpty(rec.modifiedBasesForward.value)
    ensures rec.modifiedBasesForward.None? ==> r.None?
    ensures rec.modifiedBasesForward.Some? ==>
              (r.None? <==> forall k :: 0 <= k < |mods| ==> mods[k] !in rec.modifiedBasesForward.value)
    ensures r.Some? ==> rec.modifiedBasesForward.Some?
    ensures r.Some? ==>
              var calls := rec.modifiedBasesForward.value;
              && Sorted(r.value)
              && multiset(r.value) == multiset(Flatten(PresentCalls(calls, mods)))
              && multiset(r.value) == KeyCallMultiset(calls, mods)
              && |r.value| == KeyCallCount(calls, mods)
  {
    if rec.modifiedBasesForward.None? {
      return None;
    }
    var positions := Gather(rec.modifiedBasesForward.value, mods);
    if |positions| < 1 {
      return None;
    }
    var modPositions := Flatten(positions);
    modPositions := SortSeq(modPositions);
    return Some(modPositions);
  }

  // ---------------------------------------------------------------------------
  // get_start_length_tags, get_nucleosomes, get_accessible

  /** The start and length tags, when both are present (and hold integer arrays). */
  predicate IntArrayIfPresent(tags: seq<Tag>, name: string) {
    HasTag(tags, name) ==> GetTag(tags, name).IntArray?
  }

  function GetStartLengthTags(rec: Record, startTag: string, lengthTag: string): (r: Option<(seq<int>, seq<int>)>)
    reads rec
    requires IntArrayIfPresent(rec.tags, startTag) && IntArrayIfPresent(rec.tags, lengthTag)
    ensures r.Some? <==> HasTag(rec.tags, startTag) && HasTag(rec.tags, lengthTag)
    ensures r.Some? ==> r.value.0 == GetTag(rec.tags, startTag).numbers &&
                        r.value.1 == GetTag(rec.tags, lengthTag).numbers
  {
    if !HasTag(rec.tags, startTag) || !HasTag(rec.tags, lengthTag) then None
    else Some((GetTag(rec.tags, startTag).numbers, GetTag(rec.tags, lengthTag).numbers))
  }

  /** Nucleosomes are stored as ns (starts) and nl (lengths). */
  function GetNucleosomes(rec: Record): (r: Option<(seq<int>, seq<int>)>)
    reads rec
    requires IntArrayIfPresent(rec.tags, "ns") && IntArrayIfPresent(rec.tags, "nl")
    ensures r.Some? <==> HasTag(rec.tags, "ns") && HasTag(rec.tags, "nl")
  {
    GetStartLengthTags(rec, "ns", "nl")
  }

  /**
   * Accessible stretches (MSPs) are stored as as (starts) and al (lengths);
   * like get_accessible beside get_nucleosomes, only the tag names differ.
   */
  function GetAccessible(rec: Record): (r: Option<(seq<int>, seq<int>)>)
    reads rec
    requires IntArrayIfPresent(rec.tags, "as") && IntArrayIfPresent(rec.tags, "al")
    ensures r.Some? <==> HasTag(rec.tags, "as") && HasTag(rec.tags, "al")
  {
    GetStartLengthTags(rec, "as", "al")
  }

  // ---------------------------------------------------------------------------
  // liftover_helper

  function ReadPositions(pairs: seq<(int, int)>): (r: seq<int>)
    ensures |r| == |pairs| && forall k :: 0 <= k < |pairs| ==> r[k] == pairs[k].0
  {
    seq(|pairs|, k requires 0 <= k < |pairs| => pairs[k].0)
  }

  function RefPositions(pairs: seq<(int, int)>): (r: seq<int>)
    ensures |r| == |pairs| && forall k :: 0 <= k < |pairs| ==> r[k] == pairs[k].1
  {
    seq(|pairs|, k requires 0 <= k < |pairs| => pairs[k].1)
  }

  /** s[::-1] */
  function Reverse(s: seq<int>): (r: seq<int>)
    ensures |r| == |s| && forall k :: 0 <= k < |s| ==> r[k] == s[|s| - 1 - k]
  {
    seq(|s|, k requires 0 <= k < |s| => s[|s| - 1 - k])
  }

  /** query_length - s, elementwise */
  function SubtractFrom(n: int, s: seq<int>): (r: seq<int>)
    ensures |r| == |s| && forall k :: 0 <= k < |s| ==> r[k] == n - s[k]
  {
    seq(|s|, k requires 0 <= k < |s| => n - s[k])
  }

  /**
   * The reverse-strand flip: interval [s, e) of a read of length n becomes
   * [n - e, n - s), and the arrays are reversed so that the starts stay in
   * the order of the flipped read.
   */
  function Mirror(sts: seq<int>, ens: seq<int>, n: int): (r: (seq<int>, seq<int>))
    requires |sts| == |ens|
    ensures |r.0| == |sts| && |r.1| == |sts|
    ensures forall k :: 0 <= k < |sts| ==>
              r.0[k] == n - ens[|sts| - 1 - k] && r.1[k] == n - sts[|sts| - 1 - k]
  {
    (Reverse(SubtractFrom(n, ens)), Reverse(SubtractFrom(n, sts)))
  }

  lemma ReverseInvolution(s: seq<int>)
    ensures Reverse(Reverse(s)) == s
  {
    assert forall k :: 0 <= k < |s| ==> Reverse(Reverse(s))[k] == s[k];
  }

  lemma SubtractInvolution(n: int, s: seq<int>)
    ensures SubtractFrom(n, SubtractFrom(n, s)) == s
  {
    assert forall k :: 0 <= k < |s| ==> SubtractFrom(n, SubtractFrom(n, s))[k] == s[k];
  }

  lemma SubtractReverse(n: int, s: seq<int>)
    ensures SubtractFrom(n, Reverse(s)) == Reverse(SubtractFrom(n, s))
  {
    assert forall k :: 0 <= k < |s| ==> SubtractFrom(n, Reverse(s))[k] == Reverse(SubtractFrom(n, s))[k];
  }

  /** Flipping twice gives the intervals back. */
  lemma MirrorInvolution(sts: seq<int>, ens: seq<int>, n: int)
    requires |sts| == |ens|
    ensures Mirror(Mirror(sts, ens, n).0, Mirror(sts, ens, n).1, n) == (sts, ens)
  {
    var a, b := SubtractFrom(n, sts), SubtractFrom(n, ens);
    assert Mirror(sts, ens, n) == (Reverse(b), Reverse(a));
    SubtractReverse(n, a);
    SubtractReverse(n, b);
    ReverseInvolution(SubtractFrom(n, a));
    ReverseInvolution(SubtractFrom(n, b));
    SubtractInvolution(n, sts);
    SubtractInvolution(n, ens);
    assert Mirror(Reverse(b), Reverse(a), n) == (Reverse(SubtractFrom(n, Reverse(a))), Reverse(SubtractFrom(n, Reverse(b))));
  }

  /** The worked example in the comment: length 7, [1, 5) becomes [2, 6). */
  lemma MirrorExample()
    ensures Mirror([1], [5], 7) == ([2], [6])
  {
    var m := Mirror([1], [5], 7);
    assert m.0 == [2];
    assert m.1 == [6];
  }

  /**
   * numpy's `searchsorted(a, t, side="left")`: the least index whose element is
   * at least t, or |a| when there is none. On a sorted array every element from
   * that index on is at least t.
   */
  function SearchSortedLeft(a: seq<int>, t: int): (i: nat)
    ensures i <= |a|
    ensures forall j :: 0 <= j < i ==> a[j] < t
    ensures i < |a| ==> a[i] >= t
  {
    if |a| == 0 then 0
    else if a[0] >= t then 0
    else 1 + SearchSortedLeft(a[1..], t)
  }

  /** A larger target is never found at a smaller index. */
  lemma {:induction false} SearchSortedMonotone(a: seq<int>, x: int, y: int)
    requires x <= y
    ensures SearchSortedLeft(a, x) <= SearchSortedLeft(a, y)
  {
    if |a| > 0 && a[0] < x {
      SearchSortedMonotone(a[1..], x, y);
    }
  }

  /**
   * One lifted endpoint: the reference position of the first matched pair whose
   * read position is at least t, or of the last pair when t lies past them all
   * (searchsorted, then the clamp to the last index).
   */
  function LiftPosition(pairs: seq<(int, int)>, t: int): int
    requires |pairs| > 0
  {
    var i := SearchSortedLeft(ReadPositions(pairs), t);
    pairs[if i >= |pairs| then |pairs| - 1 else i].1
  }

  /**
   * What a lifted endpoint is: some pair's reference position; the last one when
   * every read position is before t; otherwise the one of the first pair at or
   * after t.
   */
  lemma LiftPositionMeaning(pairs: seq<(int, int)>, t: int)
    requires |pairs| > 0
    ensures exists j :: 0 <= j < |pairs| && LiftPosition(pairs, t) == pairs[j].1
    ensures (forall j :: 0 <= j < |pairs| ==> pairs[j].0 < t) ==> LiftPosition(pairs, t) == pairs[|pairs| - 1].1
    ensures (exists j :: 0 <= j < |pairs| && pairs[j].0 >= t) ==>
              exists j :: 0 <= j < |pairs| && pairs[j].0 >= t && LiftPosition(pairs, t) == pairs[j].1 &&
                          forall k :: 0 <= k < j ==> pairs[k].0 < t
  {
    var rp := ReadPositions(pairs);
    var i := SearchSortedLeft(rp, t);
    var c := if i >= |pairs| then |pairs| - 1 else i;
    assert LiftPosition(pairs, t) == pairs[c].1;
    if exists j :: 0 <= j < |pairs| && pairs[j].0 >= t {
      var j :| 0 <= j < |pairs| && pairs[j].0 >= t;
      assert rp[j] >= t;
      assert i < |pairs|;
    }
  }

  function LiftAll(pairs: seq<(int, int)>, xs: seq<int>): (r: seq<int>)
    requires |pairs| > 0
    ensures |r| == |xs| && forall k :: 0 <= k < |xs| ==> r[k] == LiftPosition(pairs, xs[k])
  {
    seq(|xs|, k requires 0 <= k < |xs| => LiftPosition(pairs, xs[k]))
  }

  /** With matched pairs ascending in both coordinates, lifting keeps order. */
  lemma LiftMonotone(pairs: seq<(int, int)>, x: int, y: int)
    requires |pairs| > 0 && Sorted(RefPositions(pairs))
    requires x <= y
    ensures LiftPosition(pairs, x) <= LiftPosition(pairs, y)
  {
    var rp := ReadPositions(pairs);
    var refs := RefPositions(pairs);
    SearchSortedMonotone(rp, x, y);
    var i := SearchSortedLeft(rp, x);
    var j := SearchSortedLeft(rp, y);
    var ci := if i >= |pairs| then |pairs| - 1 else i;
    var cj := if j >= |pairs| then |pairs| - 1 else j;
    assert LiftPosition(pairs, x) == refs[ci];
    assert LiftPosition(pairs, y) == refs[cj];
    assert ci <= cj;
    if ci < cj {
      assert refs[ci] <= refs[cj];
    }
  }

  /** The indices, from i on, at which the lifted length is positive (`keep_idx`). */
  function KeptIndices(ls: seq<int>, le: seq<int>, i: nat): (idx: seq<int>)
    requires |ls| == |le| && i <= |ls|
    ensures StrictlyIncreasing(idx)
    ensures forall k :: 0 <= k < |idx| ==> i <= idx[k] < |ls| && le[idx[k]] - ls[idx[k]] > 0
    decreases |ls| - i
  {
    if i == |ls| then []
    else
      var rest := KeptIndices(ls, le, i + 1);
      if le[i] - ls[i] > 0 then [i] + rest else rest
  }

  /** No index with a positive lifted length is dropped. */
  lemma {:induction false} KeptIndicesComplete(ls: seq<int>, le: seq<int>, i: nat)
    requires |ls| == |le| && i <= |ls|
    ensures forall j :: i <= j < |ls| && le[j] - ls[j] > 0 ==> j in KeptIndices(ls, le, i)
    decreases |ls| - i
  {
    if i < |ls| {
      KeptIndicesComplete(ls, le, i + 1);
      var rest := KeptIndices(ls, le, i + 1);
      assert KeptIndices(ls, le, i) == if le[i] - ls[i] > 0 then [i] + rest else rest;
    }
  }

  /** The read-side intervals after the optional reverse-strand flip. */
  function Oriented(sts: seq<int>, ens: seq<int>, queryLength: int, isReverse: bool): (r: (seq<int>, seq<int>))
    requires |sts| == |ens|
    ensures |r.0| == |sts| && |r.1| == |sts|
  {
    if isReverse then Mirror(sts, ens, queryLength) else (sts, ens)
  }

  /** What the matched pairs must satisfy for numpy's binary search to be defined. */
  predicate LiftableAlignment(pairs: seq<(int, int)>) {
    |pairs| > 0 && Sorted(ReadPositions(pairs))
  }

  /** `v[idx]`: the elements of v at the indices idx, in order. */
  function Pick(v: seq<int>, idx: seq<int>): (r: seq<int>)
    requires forall k :: 0 <= k < |idx| ==> 0 <= idx[k] < |v|
    ensures |r| == |idx| && forall k :: 0 <= k < |idx| ==> r[k] == v[idx[k]]
  {
    seq(|idx|, k requires 0 <= k < |idx| => v[idx[k]])
  }

  /**
   * liftover_helper: flip on the reverse strand, lift both endpoints of every
   * interval, then keep the intervals whose lifted length is positive. The
   * inputs are values, so they are not modified.
   */
  function LiftoverHelper(pairs: seq<(int, int)>, sts: seq<int>, ens: seq<int>,
                          queryLength: int, isReverse: bool): (r: (seq<int>, seq<int>))
    requires LiftableAlignment(pairs) && |sts| == |ens|
    ensures |r.0| == |r.1| <= |sts|
    ensures forall k :: 0 <= k < |r.0| ==> r.1[k] > r.0[k]
  {
    var o := Oriented(sts, ens, queryLength, isReverse);
    var ls := LiftAll(pairs, o.0);
    var le := LiftAll(pairs, o.1);
    var idx := KeptIndices(ls, le, 0);
    IncreasingWithinBound(idx, |sts|);
    (Pick(ls, idx), Pick(le, idx))
  }

  /**
   * r is the lifted intervals at the indices idx, in their order, and idx holds
   * every index whose lifted length (le[j] - ls[j]) is positive.
   */
  predicate KeptSelection(ls: seq<int>, le: seq<int>, r: (seq<int>, seq<int>), idx: seq<int>)
    requires |ls| == |le|
  {
    && StrictlyIncreasing(idx) && |idx| == |r.0| == |r.1|
    && (forall k :: 0 <= k < |idx| ==> 0 <= idx[k] < |ls| && r.0[k] == ls[idx[k]] && r.1[k] == le[idx[k]])
    && (forall j :: 0 <= j < |ls| && le[j] > ls[j] ==> j in idx)
  }

  /**
   * The intervals liftover_helper keeps are exactly those whose lifted length
   * is positive, lifted, and in their order.
   */
  lemma LiftoverKeepsPositive(pairs: seq<(int, int)>, sts: seq<int>, ens: seq<int>,
                              queryLength: int, isReverse: bool)
    requires LiftableAlignment(pairs) && |sts| == |ens|
    ensures var o := Oriented(sts, ens, queryLength, isReverse);
            exists idx :: KeptSelection(LiftAll(pairs, o.0), LiftAll(pairs, o.1),
                                        LiftoverHelper(pairs, sts, ens, queryLength, isReverse), idx)
  {
    var o := Oriented(sts, ens, queryLength, isReverse);
    var ls := LiftAll(pairs, o.0);
    var le := LiftAll(pairs, o.1);
    var idx := KeptIndices(ls, le, 0);
    KeptIndicesComplete(ls, le, 0);
    var r := LiftoverHelper(pairs, sts, ens, queryLength, isReverse);
    assert r == (Pick(ls, idx), Pick(le, idx));
    assert KeptSelection(ls, le, r, idx);
  }

  /** A strictly increasing sequence of indices below n has at most n elements. */
  lemma {:induction false} IncreasingWithinBound(idx: seq<int>, n: nat)
    requires StrictlyIncreasing(idx)
    requires forall k :: 0 <= k < |idx| ==> 0 <= idx[k] < n
    ensures |idx| <= n
  {
    if |idx| > 0 {
      var last := idx[|idx| - 1];
      var init := idx[..|idx| - 1];
      assert forall k :: 0 <= k < |init| ==> 0 <= init[k] < last;
      IncreasingWithinBound(init, last);
    }
  }

  /** `liftover(rec, sts, ens)`: the record supplies pairs, length and strand. */
  function Liftover(rec: Record, sts: seq<int>, ens: seq<int>): (r: (seq<int>, seq<int>))
    requires LiftableAlignment(rec.alignedPairs) && |sts| == |ens|
    ensures |r.0| == |r.1| <= |sts|
    ensures forall k :: 0 <= k < |r.0| ==> r.1[k] > r.0[k]
  {
    LiftoverHelper(rec.alignedPairs, sts, ens, |rec.querySequence|, rec.isReverse)
  }

  /**
   * Strand symmetry: lifting the mirrored intervals of a reverse-strand read
   * gives what lifting the original intervals on the forward strand gives.
   */
  lemma LiftoverStrandSymmetry(pairs: seq<(int, int)>, sts: seq<int>, ens: seq<int>, n: int)
    requires LiftableAlignment(pairs) && |sts| == |ens|
    ensures var m := Mirror(sts, ens, n);
            LiftoverHelper(pairs, m.0, m.1, n, true) == LiftoverHelper(pairs, sts, ens, n, false)
  {
    MirrorInvolution(sts, ens, n);
  }

  /**
   * With ascending reference positions and well-formed intervals (start not
   * after end), no lifted length is negative: the dropped intervals are exactly
   * the ones lifted to zero length.
   */
  lemma LiftedLengthsNonNegative(pairs: seq<(int, int)>, sts: seq<int>, ens: seq<int>,
                                 n: int, isReverse: bool, j: int)
    requires LiftableAlignment(pairs) && Sorted(RefPositions(pairs)) && |sts| == |ens|
    requires forall k :: 0 <= k < |sts| ==> sts[k] <= ens[k]
    requires 0 <= j < |sts|
    ensures var o := Oriented(sts, ens, n, isReverse);
            LiftPosition(pairs, o.0[j]) <= LiftPosition(pairs, o.1[j])
  {
    var o := Oriented(sts, ens, n, isReverse);
    if isReverse {
      assert o.0[j] == n - ens[|sts| - 1 - j] && o.1[j] == n - sts[|sts| - 1 - j];
    }
    LiftMonotone(pairs, o.0[j], o.1[j]);
  }

  // ---------------------------------------------------------------------------
  // make_bed_blocks

  /** The block starts make_bed_blocks emits: bookend at 0, the blocks, bookend at the end. */
  function BlockStarts(starts: seq<int>, lengths: seq<int>, st: int, en: int): (r: seq<int>)
    requires |starts| > 0 && |lengths| > 0
  {
    var z := if |starts| <= |lengths| then |starts| else |lengths|;
    (if starts[0] != 0 then [0] else [])
    + starts[..z]
    + (if starts[|starts| - 1] + lengths[|lengths| - 1] != en then [en - st - 1] else [])
  }

  /** The matching block sizes: 1 for each bookend. */
  function BlockLengths(starts: seq<int>, lengths: seq<int>, en: int): (r: seq<int>)
    requires |starts| > 0 && |lengths| > 0
  {
    var z := if |starts| <= |lengths| then |starts| else |lengths|;
    (if starts[0] != 0 then [1] else [])
    + lengths[..z]
    + (if starts[|starts| - 1] + lengths[|lengths| - 1] != en then [1] else [])
  }

  /**
   * Both block lists have one field per emitted block; the first block always
   * starts at 0, so the "First block start is not 0" return cannot happen.
   */
  lemma BlocksShape(starts: seq<int>, lengths: seq<int>, st: int, en: int)
    requires |starts| > 0 && |lengths| > 0
    ensures |BlockStarts(starts, lengths, st, en)| == |BlockLengths(starts, lengths, en)|
    ensures BlockStarts(starts, lengths, st, en)[0] == 0
    ensures Join(BlockStarts(starts, lengths, st, en))[0] == '0'
  {
    JoinFirstChar(BlockStarts(starts, lengths, st, en));
  }

  /** One field as make_bed_blocks writes it: `str(x) + ","`. */
  function Field(x: int): string {
    IntToString(x) + ","
  }

  /** The fields of xs, in order, as the loop accumulates them. */
  function Terminated(xs: seq<int>): string {
    if |xs| == 0 then "" else Terminated(xs[..|xs| - 1]) + Field(xs[|xs| - 1])
  }

  lemma {:induction false} JoinSnoc(xs: seq<int>, x: int)
    requires |xs| > 0
    ensures Join(xs + [x]) == Join(xs) + "," + IntToString(x)
  {
    if |xs| == 1 {
      assert (xs + [x])[1..] == [x];
    } else {
      assert (xs + [x])[1..] == xs[1..] + [x];
      JoinSnoc(xs[1..], x);
    }
  }

  /** Dropping the trailing comma of the accumulated string gives the join. */
  lemma {:induction false} TerminatedIsJoin(xs: seq<int>)
    requires |xs| > 0
    ensures Terminated(xs) == Join(xs) + ","
  {
    var init, last := xs[..|xs| - 1], xs[|xs| - 1];
    assert Terminated(xs) == Terminated(init) + Field(last);
    if |xs| == 1 {
      assert init == [];
      AppendAssoc("", IntToString(last), ",");
    } else {
      TerminatedIsJoin(init);
      InitLast(xs);
      JoinSnoc(init, last);
      calc {
        Terminated(xs);
        Terminated(init) + Field(last);
        (Join(init) + ",") + (IntToString(last) + ",");
        { AppendAssoc(Join(init) + ",", IntToString(last), ","); }
        (Join(init) + "," + IntToString(last)) + ",";
        Join(xs) + ",";
      }
    }
  }

  lemma InitLast(xs: seq<int>)
    requires |xs| > 0
    ensures xs == xs[..|xs| - 1] + [xs[|xs| - 1]]
  {
  }

  lemma AppendAssoc(a: string, b: string, c: string)
    ensures a + (b + c) == (a + b) + c
  {
  }

  /** Without its last character, a comma-terminated string is the join. */
  lemma StripComma(xs: seq<int>, s: string)
    requires |xs| > 0 && s == Terminated(xs)
    ensures |s| > 0 && s[..|s| - 1] == Join(xs)
  {
    TerminatedIsJoin(xs);
  }

  lemma TerminatedSnoc(xs: seq<int>, x: int)
    ensures Terminated(xs + [x]) == Terminated(xs) + Field(x)
  {
    assert (xs + [x])[..|xs|] == xs;
  }

  /** Writing one more field extends the list of written fields by it. */
  lemma AppendField(pre: string, fs: seq<int>, x: int, acc: string, gs: seq<int>)
    requires pre == Terminated(fs) && acc == pre + (IntToString(x) + ",") && gs == fs + [x]
    ensures acc == Terminated(gs)
  {
    TerminatedSnoc(fs, x);
  }

  /** One field of the loop: the string and the list of written fields grow together. */
  lemma FieldStep(acc: string, fs: seq<int>, lead: seq<int>, xs: seq<int>, i: nat)
    requires i < |xs| && acc == Terminated(fs) && fs == lead + xs[..i]
    ensures acc + (IntToString(xs[i]) + ",") == Terminated(fs + [xs[i]])
    ensures fs + [xs[i]] == lead + xs[..i + 1]
  {
    AppendField(acc, fs, xs[i], acc + (IntToString(xs[i]) + ","), fs + [xs[i]]);
    SliceSnoc(xs, i);
  }

  /** The bookend fields are written as the literals "0," and "1,", the rendered 0 and 1. */
  lemma LiteralField(pre: string, fs: seq<int>, x: int, lit: string, acc: string, gs: seq<int>)
    requires pre == Terminated(fs) && acc == pre + lit && gs == fs + [x]
    requires (x == 0 && lit == "0,") || (x == 1 && lit == "1,")
    ensures acc == Terminated(gs)
  {
    ZeroOneStrings();
    assert lit == IntToString(x) + ",";
    AppendField(pre, fs, x, acc, gs);
  }

  /** The bookend make_bed_blocks emits first, when the blocks do not start at 0. */
  function Lead(starts: seq<int>, bookend: int): seq<int>
    requires |starts| > 0
  {
    if starts[0] != 0 then [bookend] else []
  }

  /** What is written before the loop is the rendering of the leading bookend. */
  lemma LeadFields(starts: seq<int>, accStarts: string, accLengths: string)
    requires |starts| > 0
    requires accStarts == (if starts[0] != 0 then "" + "0," else "")
    requires accLengths == (if starts[0] != 0 then "" + "1," else "")
    ensures accStarts == Terminated(Lead(starts, 0)) && accLengths == Terminated(Lead(starts, 1))
  {
    if starts[0] != 0 {
      LiteralField("", [], 0, "0,", accStarts, [0]);
      LiteralField("", [], 1, "1,", accLengths, [1]);
    }
  }

  /**
   * After the loop the start fields written are the leading bookend and the
   * block starts; with the trailing bookend (when the last block does not end
   * at en) they are the block starts list.
   */
  lemma StartsWritten(starts: seq<int>, lengths: seq<int>, st: int, en: int, z: nat,
                      preStarts: string, accStarts: string)
    requires |starts| > 0 && |lengths| > 0
    requires z == if |starts| <= |lengths| then |starts| else |lengths|
    requires preStarts == Terminated(Lead(starts, 0) + starts[..z])
    requires accStarts == if starts[|starts| - 1] + lengths[|lengths| - 1] != en
                          then preStarts + (IntToString(en - st - 1) + ",") else preStarts
    ensures accStarts == Terminated(BlockStarts(starts, lengths, st, en))
    ensures |BlockStarts(starts, lengths, st, en)|
            == |Lead(starts, 0)| + z + (if starts[|starts| - 1] + lengths[|lengths| - 1] != en then 1 else 0)
  {
    var fs := Lead(starts, 0) + starts[..z];
    if starts[|starts| - 1] + lengths[|lengths| - 1] != en {
      assert BlockStarts(starts, lengths, st, en) == fs + [en - st - 1];
      AppendField(preStarts, fs, en - st - 1, accStarts, BlockStarts(starts, lengths, st, en));
    } else {
      assert BlockStarts(starts, lengths, st, en) == fs;
    }
  }

  /** The same for the length fields, whose trailing bookend is the literal "1,". */
  lemma LengthsWritten(starts: seq<int>, lengths: seq<int>, en: int, z: nat,
                       preLengths: string, accLengths: string)
    requires |starts| > 0 && |lengths| > 0
    requires z == if |starts| <= |lengths| then |starts| else |lengths|
    requires preLengths == Terminated(Lead(starts, 1) + lengths[..z])
    requires accLengths == if starts[|starts| - 1] + lengths[|lengths| - 1] != en
                           then preLengths + "1," else preLengths
    ensures accLengths == Terminated(BlockLengths(starts, lengths, en))
  {
    var fl := Lead(starts, 1) + lengths[..z];
    if starts[|starts| - 1] + lengths[|lengths| - 1] != en {
      assert BlockLengths(starts, lengths, en) == fl + [1];
      LiteralField(preLengths, fl, 1, "1,", accLengths, BlockLengths(starts, lengths, en));
    } else {
      assert BlockLengths(starts, lengths, en) == fl;
    }
  }

  /** The strings without their last comma are the joins of the block lists. */
  lemma BlocksRendered(starts: seq<int>, lengths: seq<int>, st: int, en: int,
                       accStarts: string, accLengths: string)
    requires |starts| > 0 && |lengths| > 0
    requires accStarts == Terminated(BlockStarts(starts, lengths, st, en))
    requires accLengths == Terminated(BlockLengths(starts, lengths, en))
    ensures |accStarts| > 0 && accStarts[..|accStarts| - 1] == Join(BlockStarts(starts, lengths, st, en))
    ensures |accLengths| > 0 && accLengths[..|accLengths| - 1] == Join(BlockLengths(starts, lengths, en))
    ensures |BlockStarts(starts, lengths, st, en)| == |BlockLengths(starts, lengths, en)|
    ensures |accStarts[..|accStarts| - 1]| > 0 && accStarts[..|accStarts| - 1][0] == '0'
  {
    BlocksShape(starts, lengths, st, en);
    StripComma(BlockStarts(starts, lengths, st, en), accStarts);
    StripComma(BlockLengths(starts, lengths, en), accLengths);
  }

  /**
   * make_bed_blocks: every field is written as `str(x) + ","` and the last comma
   * is cut off, so the two strings are the comma joins of the block lists, and
   * bc counts the blocks.
   */
  method MakeBedBlocks(starts: seq<int>, lengths: seq<int>, st: int, en: int)
    returns (bc: int, oStarts: string, oLengths: string)
    requires |starts| > 0 && |lengths| > 0
    ensures bc == |BlockStarts(starts, lengths, st, en)| == |BlockLengths(starts, lengths, en)|
    ensures oStarts == Join(BlockStarts(starts, lengths, st, en))
    ensures oLengths == Join(BlockLengths(starts, lengths, en))
    ensures |oStarts| > 0 && oStarts[0] == '0'
  {
    var accStarts := "";
    var accLengths := "";
    bc := 0;
    if starts[0] != 0 {
      accStarts := accStarts + "0,";
      accLengths := accLengths + "1,";
      bc := bc + 1;
    }
    LeadFields(starts, accStarts, accLengths);
    ghost var fs, fl := Lead(starts, 0), Lead(starts, 1);
    var z := if |starts| <= |lengths| then |starts| else |lengths|;
    for i := 0 to z
      invariant accStarts == Terminated(fs) && fs == Lead(starts, 0) + starts[..i]
      invariant accLengths == Terminated(fl) && fl == Lead(starts, 1) + lengths[..i]
      invariant bc == |Lead(starts, 0)| + i
    {
      FieldStep(accStarts, fs, Lead(starts, 0), starts, i);
      FieldStep(accLengths, fl, Lead(starts, 1), lengths, i);
      accStarts := accStarts + (IntToString(starts[i]) + ",");
      accLengths := accLengths + (IntToString(lengths[i]) + ",");
      bc := bc + 1;
      fs, fl := fs + [starts[i]], fl + [lengths[i]];
    }
    ghost var preStarts, preLengths := accStarts, accLengths;
    if starts[|starts| - 1] + lengths[|lengths| - 1] != en {
      accStarts := accStarts + (IntToString(en - st - 1) + ",");
      accLengths := accLengths + "1,";
      bc := bc + 1;
    }
    StartsWritten(starts, lengths, st, en, z, preStarts, accStarts);
    LengthsWritten(starts, lengths, en, z, preLengths, accLengths);
    BlocksRendered(starts, lengths, st, en, accStarts, accLengths);
    oStarts := accStarts[..|accStarts| - 1];
    oLengths := accLengths[..|accLengths| - 1];
  }

  // ---------------------------------------------------------------------------
  // write_bed12 (the numeric columns)

  datatype Bed12Out =
    | NotWritten                       // starts is None
    | FirstStartWarning                // "First block start is not 0"
    | Bed12Row(chrom: string, st: int, en: int, name: string, strand: char,
               blockCount: int, blockSizes: string, blockStarts: string)
    | Raised(error: PyError)

  /** The block lengths write_bed12 uses: the given ones, or 1 for every start. */
  function GivenLengths(starts: seq<int>, lengths: Option<seq<int>>): seq<int> {
    if lengths.None? then Repeat(1, |starts|) else lengths.value
  }

  /** `starts + lengths`: the block ends handed to the liftover. */
  function BlockEnds(starts: seq<int>, lens: seq<int>): (r: seq<int>)
    requires |lens| == |starts|
    ensures |r| == |starts| && forall k :: 0 <= k < |starts| ==> r[k] == starts[k] + lens[k]
  {
    seq(|starts|, k requires 0 <= k < |starts| => starts[k] + lens[k])
  }

  /**
   * The blocks handed to make_bed_blocks, relative to the row's start: the
   * starts with their lengths, or, aligned, each lifted interval as its start
   * less the reference start and its lifted length.
   */
  function FinalBlocks(rec: Record, starts: seq<int>, lengths: Option<seq<int>>, aligned: bool): (r: (seq<int>, seq<int>))
    requires lengths.Some? ==> |lengths.value| == |starts|
    requires aligned ==> LiftableAlignment(rec.alignedPairs)
    ensures |r.0| == |r.1|
    ensures !aligned ==> r.0 == starts
    ensures !aligned && lengths.None? ==> r.1 == Repeat(1, |starts|)
    ensures !aligned && lengths.Some? ==> r.1 == lengths.value
    ensures aligned ==>
              var lifted := Liftover(rec, starts, BlockEnds(starts, GivenLengths(starts, lengths)));
              && |r.0| == |lifted.0|
              && forall k :: 0 <= k < |r.0| ==>
                   r.0[k] == lifted.0[k] - rec.referenceStart && r.1[k] == lifted.1[k] - lifted.0[k]
    ensures aligned ==> forall k :: 0 <= k < |r.1| ==> r.1[k] > 0
  {
    var lens := GivenLengths(starts, lengths);
    if aligned then
      var lifted := Liftover(rec, starts, BlockEnds(starts, lens));
      (SubtractFrom(0, SubtractFrom(rec.referenceStart, lifted.0)),
       seq(|lifted.0|, k requires 0 <= k < |lifted.0| => lifted.1[k] - lifted.0[k]))
    else (starts, lens)
  }

  /** The row's span: the read in its own coordinates, or the aligned reference span. */
  function RowSpan(rec: Record, aligned: bool): (string, int, int)
    requires aligned ==> rec.referenceEnd.Some?
  {
    if aligned then (rec.referenceName, rec.referenceStart, rec.referenceEnd.value)
    else (rec.queryName, 0, |rec.querySequence|)
  }

  /**
   * The blocks of one BED12 row: nothing without starts; a KeyError when the
   * record has no ec tag (`get_tag("ec")` comes before anything else); a
   * TypeError when an aligned row is asked of a read without a reference end
   * (`np.int64(None)`); an AssertionError when a block ends past `en`; an IndexError when no block is
   * left (make_bed_blocks reads starts[0]); otherwise the row with the
   * bookended block lists.
   */
  method WriteBed12(rec: Record, starts: Option<seq<int>>, lengths: Option<seq<int>>, aligned: bool)
    returns (out: Bed12Out)
    requires starts.Some? && lengths.Some? ==> |lengths.value| == |starts.value|
    requires aligned ==> LiftableAlignment(rec.alignedPairs)
    ensures starts.None? <==> out == NotWritten
    ensures out != FirstStartWarning
    ensures starts.Some? ==> (out == Raised(KeyError) <==> !HasTag(rec.tags, "ec"))
    ensures out.Raised? ==> out.error in {KeyError, TypeError, AssertionError, IndexError}
    ensures starts.Some? && HasTag(rec.tags, "ec") ==>
              (out == Raised(TypeError) <==> aligned && rec.referenceEnd.None?)
    ensures starts.Some? && HasTag(rec.tags, "ec") && (aligned ==> rec.referenceEnd.Some?) ==>
              var b := FinalBlocks(rec, starts.value, lengths, aligned);
              var span := RowSpan(rec, aligned);
              && (out == Raised(AssertionError) <==> exists k :: 0 <= k < |b.0| && b.0[k] + b.1[k] > span.2)
              && (out == Raised(IndexError) <==> |b.0| == 0)
              && (out.Bed12Row? <==> |b.0| > 0 && forall k :: 0 <= k < |b.0| ==> b.0[k] + b.1[k] <= span.2)
              && (out.Bed12Row? ==>
                    && |b.0| > 0
                    && out.chrom == span.0 && out.st == span.1 && out.en == span.2
                    && out.name == rec.queryName
                    && out.strand == (if rec.isReverse then '-' else '+')
                    && out.blockCount == |BlockStarts(b.0, b.1, span.1, span.2)|
                    && out.blockStarts == Join(BlockStarts(b.0, b.1, span.1, span.2))
                    && out.blockSizes == Join(BlockLengths(b.0, b.1, span.2)))
  {
    if starts.None? {
      return NotWritten;
    }
    var strand := if rec.isReverse then '-' else '+';
    if !HasTag(rec.tags, "ec") {
      return Raised(KeyError);
    }
    if aligned && rec.referenceEnd.None? {
      return Raised(TypeError);
    }
    var (ct, st, en) := RowSpan(rec, aligned);
    var b := FinalBlocks(rec, starts.value, lengths, aligned);
    var bStarts, bLengths := b.0, b.1;
    if exists k :: 0 <= k < |bStarts| && bStarts[k] + bLengths[k] > en {
      return Raised(AssertionError);
    }
    if |bStarts| == 0 {
      return Raised(IndexError);
    }
    var bc, bs, bl := MakeBedBlocks(bStarts, bLengths, st, en);
    if bs[0] != '0' {
      return FirstStartWarning;
    }
    return Bed12Row(ct, st, en, rec.queryName, strand, bc, bl, bs);
  }
}
