/**
 * add_nucleosomes.py, `get_mods_from_rec` (add_nucleosomes.py:15-31): the m6A
 * calls of a read, either as a sorted position array or as a per-base boolean
 * signal, optionally kept only at the A and T bases (the bases m6A can sit on
 * in either strand).
 */
module AddNucleosomes {
  import opened Common
  import opened Records
  import opened ModCalls

  /** The two shapes `get_mods_from_rec` returns. */
  datatype ModArray =
    | PositionArray(positions: seq<int>)  // binary=False: the sorted positions
    | BoolArray(bits: seq<bool>)          // binary=True: one flag per base (or per A/T base)

  predicate IsAT(c: char) {
    c == 'A' || c == 'T'
  }

  /** The number of A and T bases. */
  function CountATBases(s: seq<char>): nat {
    if |s| == 0 then 0 else (if IsAT(s[0]) then 1 else 0) + CountATBases(s[1..])
  }

  /** Index j is hit by one of the first i positions (after numpy's negative-index wrap). */
  predicate Marked(n: nat, ps: seq<int>, i: nat, j: int)
    requires AllValid(n, ps) && i <= |ps|
  {
    exists k :: 0 <= k < i && Wrap(n, ps[k]) == j
  }

  /**
   * `binary = np.zeros(n, dtype=bool); binary[ps] = 1`: a flag per index, set
   * exactly where a position points.
   */
  method Rasterise(n: nat, ps: seq<int>) returns (bits: seq<bool>)
    requires AllValid(n, ps)
    ensures |bits| == n
    ensures forall j :: 0 <= j < n ==> (bits[j] <==> Marked(n, ps, |ps|, j))
  {
    var binary := new bool[n];
    for j := 0 to n
      invariant forall q :: 0 <= q < j ==> !binary[q]
    {
      binary[j] := false;
    }
    for i := 0 to |ps|
      invariant forall j :: 0 <= j < n ==> (binary[j] <==> Marked(n, ps, i, j))
    {
      var w := Wrap(n, ps[i]);
      binary[w] := true;
      forall j | 0 <= j < n
        ensures binary[j] <==> Marked(n, ps, i + 1, j)
      {
        if j == w {
          assert Wrap(n, ps[i]) == j;
        } else if Marked(n, ps, i + 1, j) {
          var k :| 0 <= k < i + 1 && Wrap(n, ps[k]) == j;
          assert k < i;
        }
      }
    }
    bits := binary[..];
  }

  /** `binary[(seq == b"A") | (seq == b"T")]`: the flags at the A and T bases, in order. */
  function MaskAT(s: seq<char>, bits: seq<bool>): (r: seq<bool>)
    requires |bits| == |s|
    ensures |r| == CountATBases(s)
  {
    if |s| == 0 then [] else (if IsAT(s[0]) then [bits[0]] else []) + MaskAT(s[1..], bits[1..])
  }

  /** The flag of the A/T base at j lands at j's rank among the A/T bases. */
  lemma {:induction false} MaskATAt(s: seq<char>, bits: seq<bool>, j: nat)
    requires |bits| == |s| && j < |s| && IsAT(s[j])
    ensures CountATBases(s[..j]) < CountATBases(s)
    ensures MaskAT(s, bits)[CountATBases(s[..j])] == bits[j]
  {
    var head: seq<bool> := if IsAT(s[0]) then [bits[0]] else [];
    assert MaskAT(s, bits) == head + MaskAT(s[1..], bits[1..]);
    if j > 0 {
      var before := s[..j];
      assert before[0] == s[0] && before[1..] == s[1..][..j - 1];
      assert CountATBases(before) == |head| + CountATBases(s[1..][..j - 1]);
      MaskATAt(s[1..], bits[1..], j - 1);
    } else {
      assert s[..j] == [];
    }
  }

  /**
   * `get_mods_from_rec(rec, mods, mask, binary)`. `key in rec.modified_bases`
   * raises TypeError when the read has no modification map, np.concatenate
   * of no array raises ValueError, and a position outside the read raises
   * IndexError in the assignment to `binary`. `calls` is the merged, sorted
   * position array the rest is read from.
   */
  method GetModsFromRec(rec: Record, mods: seq<ModKey>, mask: bool, binary: bool) returns (r: Result<ModArray>)
    requires rec.modifiedBases.Some? ==> CallsNonEmpty(rec.modifiedBases.value)
    ensures r.Err? && r.error == TypeError <==> |mods| > 0 && rec.modifiedBases.None?
    ensures r.Err? && r.error == ValueError <==>
              (|mods| == 0 || rec.modifiedBases.Some?) &&
              (rec.modifiedBases.None? || forall k :: 0 <= k < |mods| ==> mods[k] !in rec.modifiedBases.value)
    ensures r.Err? ==> r.error in {TypeError, ValueError, IndexError}
    ensures r.Ok? ==> rec.modifiedBases.Some?
    ensures r.Ok? ==>
              var calls := Flatten(PresentCalls(rec.modifiedBases.value, mods));
              var n := |rec.querySequence|;
              && |calls| > 0
              && multiset(calls) == KeyCallMultiset(rec.modifiedBases.value, mods)
              && (!binary ==> r.value.PositionArray? && Sorted(r.value.positions) &&
                              multiset(r.value.positions) == multiset(calls))
              && (binary ==> AllValid(n, calls) && r.value.BoolArray? &&
                             var full := seq(n, j requires 0 <= j < n => Marked(n, calls, |calls|, j));
                             r.value.bits == if mask then MaskAT(rec.querySequence, full) else full)
    ensures r.Err? && r.error == IndexError ==>
              binary && !AllValid(|rec.querySequence|, Flatten(PresentCalls(rec.modifiedBases.value, mods)))
  {
    var sequence := rec.querySequence;
    if |mods| > 0 && rec.modifiedBases.None? {
      return Err(TypeError);
    }
    var positions := [];
    if rec.modifiedBases.Some? {
      positions := Gather(rec.modifiedBases.value, mods);
    }
    if |positions| == 0 {
      return Err(ValueError);
    }
    var flat := Flatten(positions);
    var methylatedPositions := SortSeq(flat);
    if !binary {
      return Ok(PositionArray(methylatedPositions));
    }
    if !AllValid(|sequence|, methylatedPositions) {
      SameIndices(|sequence|, flat, methylatedPositions);
      return Err(IndexError);
    }
    SameIndices(|sequence|, flat, methylatedPositions);
    var bits := Rasterise(|sequence|, methylatedPositions);
    SameMarks(|sequence|, flat, methylatedPositions);
    assert bits == seq(|sequence|, j requires 0 <= j < |sequence| => Marked(|sequence|, flat, |flat|, j));
    if mask {
      return Ok(BoolArray(MaskAT(sequence, bits)));
    }
    return Ok(BoolArray(bits));
  }

  /** Sorting does not change which positions are valid indices... */
  lemma SameIndices(n: nat, a: seq<int>, b: seq<int>)
    requires multiset(a) == multiset(b)
    ensures AllValid(n, a) <==> AllValid(n, b)
  {
    if AllValid(n, a) {
      forall i | 0 <= i < |b|
        ensures ValidIndex(n, b[i])
      {
        assert b[i] in multiset(a);
      }
    }
    if AllValid(n, b) {
      forall i | 0 <= i < |a|
        ensures ValidIndex(n, a[i])
      {
        assert a[i] in multiset(b);
      }
    }
  }

  /** ...nor which indices they mark: the flags do not depend on the order of the positions. */
  lemma SameMarks(n: nat, a: seq<int>, b: seq<int>)
    requires multiset(a) == multiset(b) && AllValid(n, a) && AllValid(n, b)
    ensures forall j :: 0 <= j < n ==> (Marked(n, a, |a|, j) <==> Marked(n, b, |b|, j))
  {
    forall j | 0 <= j < n
      ensures Marked(n, a, |a|, j) <==> Marked(n, b, |b|, j)
    {
      if Marked(n, a, |a|, j) {
        var k :| 0 <= k < |a| && Wrap(n, a[k]) == j;
        assert a[k] in multiset(b);
        var q :| 0 <= q < |b| && b[q] == a[k];
      }
      if Marked(n, b, |b|, j) {
        var k :| 0 <= k < |b| && Wrap(n, b[k]) == j;
        assert b[k] in multiset(a);
        var q :| 0 <= q < |a| && a[q] == b[k];
      }
    }
  }

  /** For positions inside the read, a flag is set exactly at a called position. */
  lemma MarkedIsCalled(n: nat, ps: seq<int>, j: int)
    requires InRange(n, ps) && 0 <= j < n
    ensures AllValid(n, ps)
    ensures Marked(n, ps, |ps|, j) <==> j in ps
  {
    if j in ps {
      var k :| 0 <= k < |ps| && ps[k] == j;
      assert Wrap(n, ps[k]) == j;
    }
  }
}
