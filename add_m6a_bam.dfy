/**
 * add_m6A_bam.py: carrying m6A calls stored in an aligned BED file (offsets
 * from the interval start, in its last column) back onto the reads of an
 * aligned BAM as MM/ML tags.
 *
 * The script has its own copy of the MM encoder, which leaves out the leading
 * rank and counts a section without fields as one call; see the two lemmas
 * AddEncoderLosesFirstPosition and AddModCountOvercounts.
 */
module AddM6aBam {
  import opened Common
  import opened Records
  import opened PushM6a

  // ---------------------------------------------------------------------------
  // bed_dict (add_m6A_bam.py:18-29)

  /** One BED interval: its name, the offsets in its last column and its start. */
  datatype BedEntry = BedEntry(name: string, offsets: seq<int>, start: int)

  /** The dictionary the loop leaves: each interval in turn stored under its name. */
  function BedDict(bed: seq<BedEntry>): map<string, (seq<int>, int)> {
    if |bed| == 0 then map[]
    else
      var last := bed[|bed| - 1];
      BedDict(bed[..|bed| - 1])[last.name := (last.offsets, last.start)]
  }

  /** Exactly the names of the intervals are keys. */
  lemma {:induction false} BedDictKeys(bed: seq<BedEntry>, n: string)
    ensures n in BedDict(bed) <==> exists i :: 0 <= i < |bed| && bed[i].name == n
  {
    if |bed| > 0 {
      var init := bed[..|bed| - 1];
      BedDictKeys(init, n);
      if n in BedDict(init) {
        var i :| 0 <= i < |init| && init[i].name == n;
        assert bed[i].name == n;
      }
      if exists i :: 0 <= i < |bed| && bed[i].name == n {
        var i :| 0 <= i < |bed| && bed[i].name == n;
        if i < |bed| - 1 {
          assert init[i].name == n;
        }
      }
    }
  }

  /** A name maps to the last interval that carries it. */
  lemma {:induction false} BedDictLastWins(bed: seq<BedEntry>, i: nat)
    requires i < |bed|
    requires forall j :: i < j < |bed| ==> bed[j].name != bed[i].name
    ensures bed[i].name in BedDict(bed)
    ensures BedDict(bed)[bed[i].name] == (bed[i].offsets, bed[i].start)
  {
    if i < |bed| - 1 {
      var init := bed[..|bed| - 1];
      assert init[i] == bed[i];
      assert bed[|bed| - 1].name != bed[i].name;
      forall j | i < j < |init|
        ensures init[j].name != init[i].name
      {
        assert init[j] == bed[j];
      }
      BedDictLastWins(init, i);
    }
  }

  method BuildBedDict(bed: seq<BedEntry>) returns (bedDict: map<string, (seq<int>, int)>)
    ensures bedDict == BedDict(bed)
  {
    bedDict := map[];
    for i := 0 to |bed|
      invariant bedDict == BedDict(bed[..i])
    {
      var interval := bed[i];
      assert bed[..i + 1][..i] == bed[..i];
      bedDict := bedDict[interval.name := (interval.offsets, interval.start)];
    }
    assert bed[..|bed|] == bed;
  }

  // ---------------------------------------------------------------------------
  // The lookup name (add_m6A_bam.py:58-63)

  /** `name_list[1] + "/" + name_list[0]` of `query_name.split("/")`. */
  function LookupName(queryName: string): (r: Result<string>)
    ensures r.Err? <==> Occurrences(queryName, '/') == 0
    ensures r.Err? ==> r.error == IndexError
  {
    var parts := SplitOn(queryName, '/');
    if |parts| < 2 then Err(IndexError) else Ok(parts[1] + "/" + parts[0])
  }

  /** A name "movie/zmw" is looked up as "zmw/movie". */
  lemma LookupNameSwaps(movie: string, zmw: string)
    requires Occurrences(movie, '/') == 0 && Occurrences(zmw, '/') == 0
    ensures LookupName(movie + "/" + zmw) == Ok(zmw + "/" + movie)
  {
    SplitOnPrefix(movie, '/', zmw);
    SplitOnNoSeparator(zmw, '/');
    assert SplitOn(movie + "/" + zmw, '/') == [movie, zmw];
  }

  /** A name "movie/zmw/rest" is looked up as "zmw/movie" as well. */
  lemma LookupNameSwapsLonger(movie: string, zmw: string, rest: string)
    requires Occurrences(movie, '/') == 0 && Occurrences(zmw, '/') == 0
    ensures LookupName(movie + "/" + zmw + "/" + rest) == Ok(zmw + "/" + movie)
  {
    var tail := zmw + "/" + rest;
    assert movie + "/" + zmw + "/" + rest == movie + "/" + tail;
    SplitOnPrefix(movie, '/', tail);
    SplitOnPrefix(zmw, '/', rest);
    var parts := SplitOn(movie + "/" + tail, '/');
    assert parts == [movie] + ([zmw] + SplitOn(rest, '/'));
    assert parts[0] == movie && parts[1] == zmw;
  }

  // ---------------------------------------------------------------------------
  // The positions to encode (add_m6A_bam.py:67-99)

  /** `methylations[0].astype(int) + methylations[1]`: the calls in reference coordinates. */
  function GenomicTargets(offsets: seq<int>, start: int): (r: seq<int>)
    ensures |r| == |offsets| && forall i :: 0 <= i < |offsets| ==> r[i] == offsets[i] + start
  {
    seq(|offsets|, i requires 0 <= i < |offsets| => offsets[i] + start)
  }

  /** The indices below n of the aligned pairs whose reference position is a target, in increasing order. */
  function MatchIndices(pairs: seq<(int, int)>, targets: seq<int>, n: nat): (idx: seq<int>)
    requires n <= |pairs|
    ensures |idx| <= n
    ensures forall k :: 0 <= k < |idx| ==> 0 <= idx[k] < n && pairs[idx[k]].1 in targets
    ensures StrictlyIncreasing(idx)
    ensures forall i :: 0 <= i < n && pairs[i].1 in targets ==> i in idx
  {
    if n == 0 then []
    else
      var init := MatchIndices(pairs, targets, n - 1);
      init + (if pairs[n - 1].1 in targets then [n - 1] else [])
  }

  /** `ap[0, np.isin(ap[1], targets)]`: query positions whose reference position is a target, in pair order. */
  function MatchedQueryPositions(pairs: seq<(int, int)>, targets: seq<int>): (r: seq<int>)
    ensures var idx := MatchIndices(pairs, targets, |pairs|);
            |r| == |idx| <= |pairs| && forall k :: 0 <= k < |idx| ==> r[k] == pairs[idx[k]].0
  {
    var idx := MatchIndices(pairs, targets, |pairs|);
    seq(|idx|, k requires 0 <= k < |idx| => pairs[idx[k]].0)
  }

  /** p is the query side of an aligned pair whose reference side is a target. */
  predicate QueryOfTarget(pairs: seq<(int, int)>, targets: seq<int>, p: int) {
    exists i :: 0 <= i < |pairs| && pairs[i].0 == p && pairs[i].1 in targets
  }

  /**
   * Every matched position is the query side of a pair whose reference side is
   * a target, and every such pair contributes its query position.
   */
  lemma MatchedMembers(pairs: seq<(int, int)>, targets: seq<int>)
    ensures forall k :: 0 <= k < |MatchedQueryPositions(pairs, targets)| ==>
              QueryOfTarget(pairs, targets, MatchedQueryPositions(pairs, targets)[k])
    ensures forall i :: 0 <= i < |pairs| && pairs[i].1 in targets ==> pairs[i].0 in MatchedQueryPositions(pairs, targets)
  {
    var idx := MatchIndices(pairs, targets, |pairs|);
    var r := MatchedQueryPositions(pairs, targets);
    forall k | 0 <= k < |r|
      ensures QueryOfTarget(pairs, targets, r[k])
    {
      var i := idx[k];
      assert 0 <= i < |pairs| && pairs[i].0 == r[k] && pairs[i].1 in targets;
    }
    forall i | 0 <= i < |pairs| && pairs[i].1 in targets
      ensures pairs[i].0 in r
    {
      var k :| 0 <= k < |idx| && idx[k] == i;
      assert r[k] == pairs[i].0;
    }
  }

  /** Python's `xs[1:-1]`: everything but the first and the last element. */
  function Interior(xs: seq<int>): (r: seq<int>)
    ensures |xs| < 2 ==> r == []
    ensures |xs| >= 2 ==> |r| == |xs| - 2 && forall k :: 0 <= k < |r| ==> r[k] == xs[k + 1]
  {
    if |xs| < 2 then [] else xs[1..|xs| - 1]
  }

  // ---------------------------------------------------------------------------
  // coordinateConversion_MMTag as written here (add_m6A_bam.py:32-49)

  /**
   * `np.diff(np.cumsum(mask)[coords]) - 1`: the gaps between consecutive kept
   * positions only (the cumulative counts are the ranks plus one, and the one
   * cancels in the difference).
   */
  function AddCoordinateConversion(s: seq<char>, base: char, coords: seq<int>): (r: Result<seq<int>>)
    ensures r.Err? <==> !AllValid(|s|, coords)
    ensures r.Err? ==> r.error == IndexError
    ensures r.Ok? ==> var kept := KeptCoords(s, base, Positions(|s|, coords));
                      |r.value| == if |kept| == 0 then 0 else |kept| - 1
  {
    if !AllValid(|s|, coords) then Err(IndexError)
    else
      var kept := KeptCoords(s, base, Positions(|s|, coords));
      var ranks := Ranks(s, base, kept);
      Ok(seq(if |kept| == 0 then 0 else |kept| - 1, k requires 0 <= k < |kept| - 1 => ranks[k + 1] - ranks[k] - 1))
  }

  /** Its fields are those of the push_m6a_to_bam encoder without the first one. */
  lemma AddEncoderIsTail(s: seq<char>, base: char, coords: seq<int>)
    requires AllValid(|s|, coords)
    ensures var fields := CoordinateConversion(s, base, coords).value.0;
            |fields| > 0 ==> AddCoordinateConversion(s, base, coords).value == fields[1..]
  {
    var kept := KeptCoords(s, base, Positions(|s|, coords));
    var fields := CoordinateConversion(s, base, coords).value.0;
    var mine := AddCoordinateConversion(s, base, coords).value;
    if |fields| > 0 {
      var ranks := Ranks(s, base, kept);
      assert fields == Deltas(ranks);
      forall k | 0 <= k < |mine|
        ensures mine[k] == fields[1..][k]
      {
        assert fields[1..][k] == fields[k + 1];
      }
    }
  }

  /**
   * The leading rank is lost: on "AAA" with calls at 0 and 2 the field list is
   * [1], which decodes as the single position 1, while the encoder of
   * push_m6a_to_bam.py gives [0, 1], which decodes back to [0, 2].
   */
  lemma AddEncoderLosesFirstPosition()
    ensures AddCoordinateConversion("AAA", 'A', [0, 2]) == Ok([1])
    ensures DecodeMM("AAA", 'A', [1]) == Some([1])
    ensures CoordinateConversion("AAA", 'A', [0, 2]).value.0 == [0, 1]
    ensures DecodeMM("AAA", 'A', CoordinateConversion("AAA", 'A', [0, 2]).value.0) == Some([0, 2])
  {
    var s := "AAA";
    ThreeAs();
    var ranks := Ranks(s, 'A', [0, 2]);
    assert ranks == [0, 2];
    assert Deltas(ranks) == [0, 1];
    var mine := AddCoordinateConversion(s, 'A', [0, 2]).value;
    assert |mine| == 1 && mine[0] == 1;
    assert mine == [1];
    SecondA();
    ConversionRoundTrip(s, 'A', [0, 2]);
  }

  /** The single field 1 designates the second A of "AAA". */
  lemma SecondA()
    ensures DecodeMM("AAA", 'A', [1]) == Some([1])
  {
    var s := "AAA";
    ThreeAs();
    var ranks := Ranks(s, 'A', [1]);
    assert ranks[0] == Occurrences(s[..1], 'A') == 1;
    assert ranks == [1];
    LocateRanks(s, 'A', [1]);
    assert RunningRanks([1]) == [1];
  }

  /** The facts about "AAA" that the lemma above needs. */
  lemma ThreeAs()
    ensures Positions(3, [0, 2]) == [0, 2]
    ensures KeptCoords("AAA", 'A', [0, 2]) == [0, 2]
    ensures Occurrences("AAA"[..0], 'A') == 0
    ensures Occurrences("AAA"[..1], 'A') == 1
    ensures Occurrences("AAA"[..2], 'A') == 2
  {
    var s := "AAA";
    assert KeptCoords(s, 'A', [2]) == [2];
    assert [0, 2][1..] == [2];
    assert s[..1] == "A" && s[..2] == "AA" && "AA"[1..] == "A";
  }

  /** `s.count(",") + 1` per section: one per field, and one for a section with no field. */
  function SectionCount(fields: seq<int>): nat {
    Occurrences(Join(fields), ',') + 1
  }

  lemma SectionCountIs(fields: seq<int>)
    ensures SectionCount(fields) == if |fields| == 0 then 1 else |fields|
  {
    JoinCommas(fields);
  }

  /**
   * mod_count counts a section without fields as one call: on "AT" with calls
   * at 0 and 1 each section keeps one position and so gets no field, yet the
   * ML array gets two values for an MM with no delta at all.
   */
  lemma AddModCountOvercounts()
    ensures AddCoordinateConversion("AT", 'A', [0, 1]) == Ok([])
    ensures AddCoordinateConversion("AT", 'T', [0, 1]) == Ok([])
    ensures SectionCount([]) + SectionCount([]) == 2
  {
    var p := Positions(2, [0, 1]);
    assert p == [0, 1];
    assert KeptCoords("AT", 'A', p[1..]) == [];
    assert KeptCoords("AT", 'T', p[1..]) == [1];
    SectionCountIs([]);
  }

  // ---------------------------------------------------------------------------
  // One read (add_m6A_bam.py:56-143)

  /** The mods string of add_m6A_bam.py:108: always both sections. */
  function AddModsString(aMods: seq<int>, tMods: seq<int>): string {
    "A+a," + Join(aMods) + ";" + "T-a," + Join(tMods) + ";"
  }

  /** Both sections are always present, even without fields, each closed by its ';'. */
  lemma AddModsSections(aMods: seq<int>, tMods: seq<int>)
    ensures Occurrences(AddModsString(aMods, tMods), ';') == 2
    ensures Occurrences(AddModsString(aMods, tMods), ',') == SectionCount(aMods) + SectionCount(tMods)
  {
    var aSection := "A+a," + Join(aMods) + ";";
    var tSection := "T-a," + Join(tMods) + ";";
    SectionShape("A+a,", aMods);
    SectionShape("T-a,", tMods);
    assert AddModsString(aMods, tMods) == aSection + tSection;
    OccurrencesAppend(aSection, tSection, ';');
    OccurrencesAppend(aSection, tSection, ',');
  }

  /**
   * The tag update: merge into an existing MM/ML, or add only an MM tag (the
   * script appends ("MM:Z:", mods), which pysam stores under the name MM).
   */
  function AddMergeTags(tags: seq<Tag>, mods: string, probs: seq<int>): Result<seq<Tag>>
    requires ModTagsTyped(tags)
  {
    if HasTag(tags, "MM") then MergeTags(tags, mods, probs)
    else Ok(tags + [Tag("MM", Text(mods))])
  }

  /** `mol_m6a`: the query positions aligned to the interval's genomic m6A positions. */
  function Methylations(pairs: seq<(int, int)>, entry: (seq<int>, int)): seq<int> {
    MatchedQueryPositions(pairs, GenomicTargets(entry.0, entry.1))
  }

  /** The A and T field lists of one read, or the IndexError of its first conversion. */
  function AddEncode(s: seq<char>, molM6a: seq<int>): Result<(seq<int>, seq<int>)> {
    var a := AddCoordinateConversion(s, 'A', Interior(molM6a));
    if a.Err? then Err(a.error)
    else Ok((a.value, AddCoordinateConversion(s, 'T', Interior(molM6a)).value))
  }

  /** The tags a read gets from its two field lists. */
  function AddRetag(tags: seq<Tag>, aFields: seq<int>, tFields: seq<int>): Result<seq<Tag>>
    requires ModTagsTyped(tags)
  {
    AddMergeTags(tags, AddModsString(aFields, tFields), Repeat(255, SectionCount(aFields) + SectionCount(tFields)))
  }

  /**
   * What becomes of one read: not written (None) when the bed has no entry for
   * its lookup name, written with new tags, or an exception.
   */
  function AddStep(read: Record, tags: seq<Tag>, bedDict: map<string, (seq<int>, int)>): Result<Option<seq<Tag>>>
    requires ModTagsTyped(tags)
  {
    var newName := LookupName(read.queryName);
    if newName.Err? then Err(newName.error)
    else if newName.value !in bedDict then Ok(None)
    else if |read.alignedPairs| == 0 then Err(ValueError)
    else
      var enc := AddEncode(read.querySequence, Methylations(read.alignedPairs, bedDict[newName.value]));
      if enc.Err? then Err(enc.error)
      else
        var merged := AddRetag(tags, enc.value.0, enc.value.1);
        if merged.Err? then Err(merged.error) else Ok(Some(merged.value))
  }

  /** A read is written exactly when its lookup name is in the bed dictionary and nothing raises. */
  lemma AddStepWrittenIff(read: Record, tags: seq<Tag>, bedDict: map<string, (seq<int>, int)>)
    requires ModTagsTyped(tags)
    requires Occurrences(read.queryName, '/') > 0
    ensures AddStep(read, tags, bedDict).Ok? ==>
              (AddStep(read, tags, bedDict).value.Some? <==> LookupName(read.queryName).value in bedDict)
    ensures AddStep(read, tags, bedDict) == Ok(None) <==> LookupName(read.queryName).value !in bedDict
  {
  }

  /** The exceptions of one read, in the order the script meets them. */
  lemma AddStepErrors(read: Record, tags: seq<Tag>, bedDict: map<string, (seq<int>, int)>)
    requires ModTagsTyped(tags)
    ensures Occurrences(read.queryName, '/') == 0 ==> AddStep(read, tags, bedDict) == Err(IndexError)
    ensures var name := LookupName(read.queryName);
            name.Ok? && name.value in bedDict && |read.alignedPairs| == 0 ==>
              AddStep(read, tags, bedDict) == Err(ValueError)
    ensures var name := LookupName(read.queryName);
            name.Ok? && name.value in bedDict && |read.alignedPairs| > 0 &&
            !AllValid(|read.querySequence|, Interior(Methylations(read.alignedPairs, bedDict[name.value]))) ==>
              AddStep(read, tags, bedDict) == Err(IndexError)
    ensures var name := LookupName(read.queryName);
            name.Ok? && name.value in bedDict && |read.alignedPairs| > 0 &&
            AllValid(|read.querySequence|, Interior(Methylations(read.alignedPairs, bedDict[name.value]))) ==>
              (AddStep(read, tags, bedDict).Err? <==> HasTag(tags, "MM") && !HasTag(tags, "ML"))
  {
  }

  /**
   * The tags `r` of a written read whose sections have fields `a` and `t`: one
   * ML value per field, plus one per section without fields; without an MM tag
   * one new MM tag and no ML.
   */
  predicate Retagged(tags: seq<Tag>, a: seq<int>, t: seq<int>, r: seq<Tag>)
    requires ModTagsTyped(tags)
  {
    && (!HasTag(tags, "MM") ==> r == tags + [Tag("MM", Text(AddModsString(a, t)))])
    && (HasTag(tags, "MM") ==>
          && HasTag(tags, "ML") && |r| >= 2
          && r[0] == Tag("MM", Text(GetTag(tags, "MM").text + AddModsString(a, t)))
          && r[1] == Tag("ML", IntArray(GetTag(tags, "ML").numbers +
                                        Repeat(255, (if |a| == 0 then 1 else |a|) + (if |t| == 0 then 1 else |t|))))
          && r[2..] == OtherTags(tags))
  }

  /** A written read's tags, in terms of the field lists of its molecule. */
  lemma AddStepTags(read: Record, tags: seq<Tag>, bedDict: map<string, (seq<int>, int)>)
    requires ModTagsTyped(tags)
    requires var r := AddStep(read, tags, bedDict); r.Ok? && r.value.Some?
    ensures var molM6a := Methylations(read.alignedPairs, bedDict[LookupName(read.queryName).value]);
            var s := read.querySequence;
            Retagged(tags, AddCoordinateConversion(s, 'A', Interior(molM6a)).value,
                     AddCoordinateConversion(s, 'T', Interior(molM6a)).value,
                     AddStep(read, tags, bedDict).value.value)
  {
    var name := LookupName(read.queryName).value;
    var molM6a := Methylations(read.alignedPairs, bedDict[name]);
    var s := read.querySequence;
    var a := AddCoordinateConversion(s, 'A', Interior(molM6a)).value;
    var t := AddCoordinateConversion(s, 'T', Interior(molM6a)).value;
    assert AddEncode(s, molM6a) == Ok((a, t));
    assert AddStep(read, tags, bedDict) == Ok(Some(AddRetag(tags, a, t).value));
    AddRetagTags(tags, a, t);
  }

  lemma AddRetagTags(tags: seq<Tag>, a: seq<int>, t: seq<int>)
    requires ModTagsTyped(tags) && AddRetag(tags, a, t).Ok?
    ensures Retagged(tags, a, t, AddRetag(tags, a, t).value)
  {
    SectionCountIs(a);
    SectionCountIs(t);
    var mods := AddModsString(a, t);
    var probs := Repeat(255, SectionCount(a) + SectionCount(t));
    assert AddRetag(tags, a, t) == AddMergeTags(tags, mods, probs);
    if HasTag(tags, "MM") {
      var mm, ml := GetTag(tags, "MM"), GetTag(tags, "ML");
      var head := [Tag("MM", Text(mm.text + mods)), Tag("ML", IntArray(ml.numbers + probs))];
      assert AddRetag(tags, a, t).value == head + OtherTags(tags);
      assert (head + OtherTags(tags))[2..] == OtherTags(tags);
    }
  }

  /** Past the lookup, the pairs check and the A conversion, a read's fate is its retagging. */
  lemma AddStepRetags(read: Record, tags: seq<Tag>, bedDict: map<string, (seq<int>, int)>,
                      name: string, aFields: seq<int>, tFields: seq<int>)
    requires ModTagsTyped(tags)
    requires LookupName(read.queryName) == Ok(name) && name in bedDict && |read.alignedPairs| > 0
    requires AddEncode(read.querySequence, Methylations(read.alignedPairs, bedDict[name])) == Ok((aFields, tFields))
    ensures var merged := AddRetag(tags, aFields, tFields);
            AddStep(read, tags, bedDict) == if merged.Err? then Err(merged.error) else Ok(Some(merged.value))
  {
  }

  /**
   * The outcome `step` of a read whose tags were `before` left it with tags
   * `after` and decided whether it is written.
   */
  predicate Outcome(step: Result<Option<seq<Tag>>>, before: seq<Tag>, after: seq<Tag>, isWritten: bool) {
    && step.Ok?
    && (isWritten <==> step.value.Some?)
    && after == Written(before, step.value)
  }

  /**
   * Read `read`, whose tags were `before`, has been handled as AddStep says,
   * and `isWritten` tells whether it went to the output BAM.
   */
  predicate Handled(read: Record, before: seq<Tag>, bedDict: map<string, (seq<int>, int)>, isWritten: bool)
    reads read
  {
    ModTagsTyped(before) && Outcome(AddStep(read, before, bedDict), before, read.tags, isWritten)
  }

  /** AddStep as the loop invariant below names it, so that it stays folded there. */
  function StepOf(read: Record, tags: seq<Tag>, bedDict: map<string, (seq<int>, int)>): Result<Option<seq<Tag>>>
    requires ModTagsTyped(tags)
  {
    AddStep(read, tags, bedDict)
  }

  /** The loop body for one read: the tags it ends with and whether it is written. */
  method TagRead(read: Record, bedDict: map<string, (seq<int>, int)>) returns (outcome: Result<bool>)
    requires ModTagsTyped(read.tags)
    modifies read
    ensures outcome.Err? ==> StepOf(read, old(read.tags), bedDict) == Err(outcome.error) && read.tags == old(read.tags)
    ensures outcome.Ok? ==> Outcome(StepOf(read, old(read.tags), bedDict), old(read.tags), read.tags, outcome.value)
  {
    ghost var before := read.tags;
    var nameList := SplitOn(read.queryName, '/');
    if |nameList| < 2 {
      return Err(IndexError);
    }
    var newName := nameList[1] + "/" + nameList[0];
    assert LookupName(read.queryName) == Ok(newName);
    if newName !in bedDict {
      return Ok(false);
    }
    var methylations := bedDict[newName];
    if |read.alignedPairs| == 0 {
      return Err(ValueError);
    }
    var genomicM6a := GenomicTargets(methylations.0, methylations.1);
    var molM6a := MatchedQueryPositions(read.alignedPairs, genomicM6a);
    var sequence := read.querySequence;
    var a := AddCoordinateConversion(sequence, 'A', Interior(molM6a));
    if a.Err? {
      assert AddEncode(sequence, molM6a) == Err(a.error);
      return Err(a.error);
    }
    var aFields := a.value;
    var tFields := AddCoordinateConversion(sequence, 'T', Interior(molM6a)).value;
    var aMods, tMods := Join(aFields), Join(tFields);
    var modCount := Occurrences(aMods, ',') + 1 + Occurrences(tMods, ',') + 1;
    var mods := "A+a," + aMods + ";" + "T-a," + tMods + ";";
    var newProbabilities := Repeat(255, modCount);
    assert AddEncode(sequence, molM6a) == Ok((aFields, tFields));
    AddStepRetags(read, before, bedDict, newName, aFields, tFields);
    assert mods == AddModsString(aFields, tFields);
    assert modCount == SectionCount(aFields) + SectionCount(tFields);
    assert AddRetag(before, aFields, tFields) == AddMergeTags(before, mods, newProbabilities);
    if HasTag(read.tags, "MM") {
      var error := MergeModTags(read, mods, newProbabilities);
      if error.Some? {
        return Err(error.value);
      }
    } else {
      read.AppendTags([Tag("MM", Text(mods))]);  // ("MM:Z:", mods), stored as MM
    }
    return Ok(true);
  }

  /**
   * The script's main loop: the bed dictionary is built, then each read is
   * retagged as AddStep says, in order, until one raises. `written[i]` tells
   * whether read i went to the output BAM.
   */
  method AddM6aToReads(bamReads: seq<Record>, bed: seq<BedEntry>)
    returns (written: seq<bool>, error: Option<PyError>)
    requires forall i, j :: 0 <= i < j < |bamReads| ==> bamReads[i] != bamReads[j]
    requires forall i :: 0 <= i < |bamReads| ==> ModTagsTyped(bamReads[i].tags)
    modifies set i | 0 <= i < |bamReads| :: bamReads[i]
    ensures |written| <= |bamReads|
    ensures error.None? <==> |written| == |bamReads|
    ensures error.Some? ==>
              && ModTagsTyped(old(bamReads[|written|].tags))
              && AddStep(bamReads[|written|], old(bamReads[|written|].tags), BedDict(bed)) == Err(error.value)
    ensures forall i :: 0 <= i < |written| ==> Handled(bamReads[i], old(bamReads[i].tags), BedDict(bed), written[i])
    ensures forall j :: |written| <= j < |bamReads| ==> bamReads[j].tags == old(bamReads[j].tags)
  {
    var bedDict := BuildBedDict(bed);
    written, error := TagReads(bamReads, bedDict);
  }

  /** The loop over the reads of the input BAM, with the bed dictionary built. */
  method TagReads(bamReads: seq<Record>, bedDict: map<string, (seq<int>, int)>)
    returns (written: seq<bool>, error: Option<PyError>)
    requires forall i, j :: 0 <= i < j < |bamReads| ==> bamReads[i] != bamReads[j]
    requires forall i :: 0 <= i < |bamReads| ==> ModTagsTyped(bamReads[i].tags)
    modifies set i | 0 <= i < |bamReads| :: bamReads[i]
    ensures |written| <= |bamReads|
    ensures error.None? <==> |written| == |bamReads|
    ensures error.Some? ==>
              && ModTagsTyped(old(bamReads[|written|].tags))
              && AddStep(bamReads[|written|], old(bamReads[|written|].tags), bedDict) == Err(error.value)
    ensures forall i :: 0 <= i < |written| ==> Handled(bamReads[i], old(bamReads[i].tags), bedDict, written[i])
    ensures forall j :: |written| <= j < |bamReads| ==> bamReads[j].tags == old(bamReads[j].tags)
  {
    written := [];
    error := None;
    ghost var after: seq<seq<Tag>> := [];
    var i := 0;
    while i < |bamReads|
      invariant 0 <= i <= |bamReads| && |written| == |after| == i
      invariant forall j :: i <= j < |bamReads| ==> bamReads[j].tags == old(bamReads[j].tags)
      invariant forall j :: 0 <= j < i ==> bamReads[j].tags == after[j]
      invariant forall j :: 0 <= j < i ==>
                  ModTagsTyped(old(bamReads[j].tags)) &&
                  Outcome(StepOf(bamReads[j], old(bamReads[j].tags), bedDict), old(bamReads[j].tags), after[j], written[j])
    {
      var read := bamReads[i];
      var outcome := TagRead(read, bedDict);
      if outcome.Err? {
        return written, Some(outcome.error);
      }
      written := written + [outcome.value];
      after := after + [read.tags];
      i := i + 1;
    }
  }
}
