/**
 * push_m6a_to_bam.py: turning the m6A positions a mixture model selected on a
 * read into MM/ML base-modification tags (section 1.7 of the SAMtags
 * specification) and merging them into the read's tag list.
 *
 * A modified position is written as its rank among the occurrences of its
 * base on the read; the ranks are then delta-coded, each field counting the
 * occurrences of the base skipped since the previous modified one.
 */
module PushM6a {
  import opened Common
  import opened Records

  // ---------------------------------------------------------------------------
  // coordinateConversion_MMTag (push_m6a_to_bam.py:17-37)

  /** `coords[sequence[coords] == base]`: the positions that fall on `base`, in order. */
  function KeptCoords(s: seq<char>, base: char, p: seq<int>): (r: seq<int>)
    requires InRange(|s|, p)
    ensures |r| <= |p| && InRange(|s|, r)
    ensures forall k :: 0 <= k < |r| ==> s[r[k]] == base
  {
    if |p| == 0 then []
    else (if s[p[0]] == base then [p[0]] else []) + KeptCoords(s, base, p[1..])
  }

  /** The kept positions are exactly the positions that fall on `base`. */
  lemma {:induction false} KeptCoordsMembers(s: seq<char>, base: char, p: seq<int>)
    requires InRange(|s|, p)
    ensures forall k :: 0 <= k < |KeptCoords(s, base, p)| ==> KeptCoords(s, base, p)[k] in p
    ensures forall i :: 0 <= i < |p| && s[p[i]] == base ==> p[i] in KeptCoords(s, base, p)
  {
    if |p| > 0 {
      var tail := p[1..];
      KeptCoordsMembers(s, base, tail);
      var head: seq<int> := if s[p[0]] == base then [p[0]] else [];
      var rest := KeptCoords(s, base, tail);
      assert KeptCoords(s, base, p) == head + rest;
      forall i | 0 < i < |p|
        ensures p[i] == tail[i - 1]
      {
      }
      forall k | 0 <= k < |rest|
        ensures rest[k] in p
      {
        var j :| 0 <= j < |tail| && tail[j] == rest[k];
        assert p[j + 1] == tail[j];
      }
    }
  }

  /** `np.cumsum(mask)[c] - 1`: one less than the occurrences of `base` up to and including c. */
  function Rank(s: seq<char>, base: char, c: int): (r: int)
    requires 0 <= c < |s|
    ensures s[c] == base ==> r == Occurrences(s[..c], base)
  {
    OccurrencesPrefixStep(s, c, base);
    Occurrences(s[..c + 1], base) - 1
  }

  function Ranks(s: seq<char>, base: char, kept: seq<int>): (r: seq<int>)
    requires InRange(|s|, kept)
    ensures |r| == |kept| && forall k :: 0 <= k < |kept| ==> r[k] == Rank(s, base, kept[k])
  {
    seq(|kept|, k requires 0 <= k < |kept| => Rank(s, base, kept[k]))
  }

  /** `[ranks[0]] + list(np.diff(ranks) - 1)`. */
  function Deltas(ranks: seq<int>): (r: seq<int>)
    ensures |r| == |ranks|
    ensures |r| > 0 ==> r[0] == ranks[0]
    ensures forall k :: 0 < k < |r| ==> r[k] == ranks[k] - ranks[k - 1] - 1
  {
    seq(|ranks|, k requires 0 <= k < |ranks| => if k == 0 then ranks[0] else ranks[k] - ranks[k - 1] - 1)
  }

  /**
   * The pair (fields, count) returned for one base: the MM string is
   * Join(fields), which is "" exactly when count is 0. An index outside the
   * read raises IndexError.
   */
  function CoordinateConversion(s: seq<char>, base: char, coords: seq<int>): (r: Result<(seq<int>, nat)>)
    ensures r.Err? <==> !AllValid(|s|, coords)
    ensures r.Err? ==> r.error == IndexError
    ensures r.Ok? ==> r.value.1 == |KeptCoords(s, base, Positions(|s|, coords))| == |r.value.0|
  {
    if !AllValid(|s|, coords) then Err(IndexError)
    else
      var kept := KeptCoords(s, base, Positions(|s|, coords));
      if |kept| < 1 then Ok(([], 0))
      else Ok((Deltas(Ranks(s, base, kept)), |kept|))
  }

  /** The MM string has exactly `count` comma-separated fields, and is empty for none. */
  lemma ConversionFieldCount(s: seq<char>, base: char, coords: seq<int>)
    requires AllValid(|s|, coords)
    ensures var (fields, count) := CoordinateConversion(s, base, coords).value;
            && (Join(fields) == "" <==> count == 0)
            && Occurrences(Join(fields), ',') == (if count == 0 then 0 else count - 1)
  {
    JoinCommas(CoordinateConversion(s, base, coords).value.0);
  }

  /** The first field counts the occurrences of `base` before the first kept position. */
  lemma ConversionFirstField(s: seq<char>, base: char, coords: seq<int>)
    requires AllValid(|s|, coords)
    requires |KeptCoords(s, base, Positions(|s|, coords))| > 0
    ensures var kept := KeptCoords(s, base, Positions(|s|, coords));
            CoordinateConversion(s, base, coords).value.0[0] == Occurrences(s[..kept[0]], base)
  {
  }

  /**
   * A later field counts the occurrences of `base` strictly between the previous
   * kept position and this one.
   */
  lemma ConversionLaterField(s: seq<char>, base: char, coords: seq<int>, i: nat)
    requires AllValid(|s|, coords)
    requires var kept := KeptCoords(s, base, Positions(|s|, coords));
             0 < i < |kept| && kept[i - 1] < kept[i]
    ensures var kept := KeptCoords(s, base, Positions(|s|, coords));
            CoordinateConversion(s, base, coords).value.0[i] == Occurrences(s[kept[i - 1] + 1..kept[i]], base)
  {
    var kept := KeptCoords(s, base, Positions(|s|, coords));
    var ranks := Ranks(s, base, kept);
    assert CoordinateConversion(s, base, coords).value.0 == Deltas(ranks);
    var a, b := kept[i - 1], kept[i];
    assert s[a] == base && s[b] == base;
    assert ranks[i] == Occurrences(s[..b], base) && ranks[i - 1] == Occurrences(s[..a], base);
    OccurrencesPrefixStep(s, a, base);
    OccurrencesPrefixMonotone(s, a + 1, b, base);
  }

  /** Filtering keeps the order of a strictly increasing sequence. */
  lemma {:induction false} KeptIncreasing(s: seq<char>, base: char, p: seq<int>)
    requires InRange(|s|, p) && StrictlyIncreasing(p)
    ensures StrictlyIncreasing(KeptCoords(s, base, p))
  {
    if |p| > 0 {
      var tail := p[1..];
      assert StrictlyIncreasing(tail);
      KeptIncreasing(s, base, tail);
      var rest := KeptCoords(s, base, tail);
      KeptCoordsMembers(s, base, tail);
      forall k | 0 <= k < |rest|
        ensures p[0] < rest[k]
      {
        assert rest[k] in tail;
        var j :| 0 <= j < |tail| && tail[j] == rest[k];
        assert tail[j] == p[j + 1];
      }
      var head: seq<int> := if s[p[0]] == base then [p[0]] else [];
      assert KeptCoords(s, base, p) == head + rest;
      HeadIncreasing(head, rest);
    }
  }

  lemma HeadIncreasing(head: seq<int>, rest: seq<int>)
    requires |head| <= 1 && StrictlyIncreasing(rest)
    requires forall k :: 0 <= k < |rest| ==> forall h :: 0 <= h < |head| ==> head[h] < rest[k]
    ensures StrictlyIncreasing(head + rest)
  {
  }

  /** For strictly increasing positions every field is a valid (non-negative) skip count. */
  lemma ConversionFieldsNonNegative(s: seq<char>, base: char, coords: seq<int>)
    requires AllValid(|s|, coords) && StrictlyIncreasing(Positions(|s|, coords))
    ensures forall k :: 0 <= k < |CoordinateConversion(s, base, coords).value.0| ==>
              CoordinateConversion(s, base, coords).value.0[k] >= 0
  {
    KeptIncreasing(s, base, Positions(|s|, coords));
    var fields := CoordinateConversion(s, base, coords).value.0;
    forall k | 0 <= k < |fields|
      ensures fields[k] >= 0
    {
      if k > 0 {
        ConversionLaterField(s, base, coords, k);
      }
    }
  }

  // ---------------------------------------------------------------------------
  // Decoding an MM delta list (section 1.7 of SAMtags), the partner of the encoder

  /** The position of the n-th (from 0) occurrence of x, if there is one. */
  function NthOccurrence(s: seq<char>, x: char, n: nat): (r: Option<nat>)
    ensures r.Some? ==> r.value < |s| && s[r.value] == x && Occurrences(s[..r.value], x) == n
  {
    if |s| == 0 then None
    else if s[0] == x && n == 0 then Some(0)
    else
      var rest := NthOccurrence(s[1..], x, if s[0] == x then n - 1 else n);
      if rest.None? then None
      else
        assert s[..rest.value + 1][1..] == s[1..][..rest.value];
        Some(rest.value + 1)
  }

  lemma {:induction false} NthOccurrenceOf(s: seq<char>, x: char, c: nat)
    requires c < |s| && s[c] == x
    ensures NthOccurrence(s, x, Occurrences(s[..c], x)) == Some(c)
  {
    if c > 0 {
      assert s[..c][1..] == s[1..][..c - 1];
      NthOccurrenceOf(s[1..], x, c - 1);
    }
  }

  /** Running sums of (field + 1), minus 1: the rank each field designates. */
  function RunningRanks(fields: seq<int>): (r: seq<int>)
    ensures |r| == |fields|
    ensures |r| > 0 ==> r[0] == fields[0]
    ensures forall j :: 0 < j < |r| ==> r[j] == r[j - 1] + fields[j] + 1
  {
    if |fields| == 0 then []
    else
      var init := RunningRanks(fields[..|fields| - 1]);
      init + [if |init| == 0 then fields[|fields| - 1] else init[|init| - 1] + fields[|fields| - 1] + 1]
  }

  /** The occurrence each rank designates; None when a rank is negative or past the last one. */
  function Locate(s: seq<char>, x: char, ranks: seq<int>): (r: Option<seq<int>>)
    ensures r.Some? ==> |r.value| == |ranks|
    ensures r.Some? ==> forall k :: 0 <= k < |ranks| ==>
              0 <= r.value[k] < |s| && s[r.value[k]] == x && Occurrences(s[..r.value[k]], x) == ranks[k]
  {
    if |ranks| == 0 then Some([])
    else if ranks[0] < 0 then None
    else
      var here := NthOccurrence(s, x, ranks[0]);
      var rest := Locate(s, x, ranks[1..]);
      if here.None? || rest.None? then None
      else Some([here.value] + rest.value)
  }

  /** Reading the positions back from an MM delta list for `base`. */
  function DecodeMM(s: seq<char>, base: char, fields: seq<int>): Option<seq<int>> {
    Locate(s, base, RunningRanks(fields))
  }

  lemma {:induction false} RunningRanksOfDeltas(ranks: seq<int>, j: nat)
    requires j < |ranks|
    ensures RunningRanks(Deltas(ranks))[j] == ranks[j]
  {
    if j > 0 {
      RunningRanksOfDeltas(ranks, j - 1);
    }
  }

  lemma {:induction false} LocateRanks(s: seq<char>, x: char, kept: seq<int>)
    requires InRange(|s|, kept)
    requires forall k :: 0 <= k < |kept| ==> s[kept[k]] == x
    ensures Locate(s, x, Ranks(s, x, kept)) == Some(kept)
  {
    if |kept| > 0 {
      var ranks := Ranks(s, x, kept);
      assert ranks[1..] == Ranks(s, x, kept[1..]);
      LocateRanks(s, x, kept[1..]);
      NthOccurrenceOf(s, x, kept[0]);
      assert kept == [kept[0]] + kept[1..];
    }
  }

  /**
   * Round trip: decoding the fields gives back exactly the positions on `base`,
   * in their order.
   */
  lemma ConversionRoundTrip(s: seq<char>, base: char, coords: seq<int>)
    requires AllValid(|s|, coords)
    ensures DecodeMM(s, base, CoordinateConversion(s, base, coords).value.0) ==
            Some(KeptCoords(s, base, Positions(|s|, coords)))
  {
    var kept := KeptCoords(s, base, Positions(|s|, coords));
    if |kept| > 0 {
      var ranks := Ranks(s, base, kept);
      forall j | 0 <= j < |ranks|
        ensures RunningRanks(Deltas(ranks))[j] == ranks[j]
      {
        RunningRanksOfDeltas(ranks, j);
      }
      assert RunningRanks(Deltas(ranks)) == ranks;
      LocateRanks(s, base, kept);
    }
  }

  // ---------------------------------------------------------------------------
  // The A/T check of apply_gmm (push_m6a_to_bam.py:104-106, 124-126)

  /** `((sequence[p] == b"A") | (sequence[p] == b"T")).sum()`. */
  function CountAT(s: seq<char>, p: seq<int>): (r: nat)
    requires InRange(|s|, p)
    ensures r <= |p|
  {
    if |p| == 0 then 0
    else (if s[p[0]] == 'A' || s[p[0]] == 'T' then 1 else 0) + CountAT(s, p[1..])
  }

  /** The count reaches |p| exactly when every position is an A or a T. */
  lemma {:induction false} CountATAll(s: seq<char>, p: seq<int>)
    requires InRange(|s|, p)
    ensures CountAT(s, p) == |p| <==> forall i :: 0 <= i < |p| ==> s[p[i]] == 'A' || s[p[i]] == 'T'
  {
    if |p| > 0 {
      CountATAll(s, p[1..]);
      assert forall i :: 1 <= i < |p| ==> p[i] == p[1..][i - 1];
    }
  }

  /** Every A or T position is encoded in exactly one of the two sections. */
  lemma {:induction false} CountATSplit(s: seq<char>, p: seq<int>)
    requires InRange(|s|, p)
    ensures |KeptCoords(s, 'A', p)| + |KeptCoords(s, 'T', p)| == CountAT(s, p)
  {
    if |p| > 0 {
      CountATSplit(s, p[1..]);
    }
  }

  // ---------------------------------------------------------------------------
  // The new MM suffix and ML values (push_m6a_to_bam.py:117-122)

  /** One section of the suffix: `head + mods + ";"`, or nothing for a base without calls. */
  function Section(head: string, fields: seq<int>, count: nat): string {
    if count > 0 then head + Join(fields) + ";" else ""
  }

  /** `"A+a," + A_mods + ";"` when A_mod_count > 0, then the same for T. */
  function ModsSuffix(aFields: seq<int>, aCount: nat, tFields: seq<int>, tCount: nat): string {
    Section("A+a,", aFields, aCount) + Section("T-a,", tFields, tCount)
  }

  /** One ';'-terminated section per non-empty base and one comma per encoded position. */
  lemma SuffixShape(aFields: seq<int>, aCount: nat, tFields: seq<int>, tCount: nat)
    requires |aFields| == aCount && |tFields| == tCount
    ensures Occurrences(ModsSuffix(aFields, aCount, tFields, tCount), ',') == aCount + tCount
    ensures Occurrences(ModsSuffix(aFields, aCount, tFields, tCount), ';') ==
            (if aCount > 0 then 1 else 0) + (if tCount > 0 then 1 else 0)
  {
    SectionShape("A+a,", aFields);
    SectionShape("T-a,", tFields);
    var a := Section("A+a,", aFields, aCount);
    var t := Section("T-a,", tFields, tCount);
    OccurrencesAppend(a, t, ',');
    OccurrencesAppend(a, t, ';');
  }

  lemma SectionShape(head: string, fields: seq<int>)
    requires head == "A+a," || head == "T-a,"
    ensures Occurrences(head + Join(fields) + ";", ',') == 1 + Occurrences(Join(fields), ',')
    ensures |fields| > 0 ==> Occurrences(head + Join(fields) + ";", ',') == |fields|
    ensures Occurrences(head + Join(fields) + ";", ';') == 1
  {
    HeadCounts(head);
    JoinCommas(fields);
    JoinNoSeparator(fields, ';');
    OccurrencesAppend(head + Join(fields), ";", ',');
    OccurrencesAppend(head + Join(fields), ";", ';');
    OccurrencesAppend(head, Join(fields), ',');
    OccurrencesAppend(head, Join(fields), ';');
    assert Occurrences(";", ';') == 1 && Occurrences(";", ',') == 0;
  }

  /** The section heads hold one comma and no ';'. */
  lemma HeadCounts(head: string)
    requires head == "A+a," || head == "T-a,"
    ensures Occurrences(head, ',') == 1 && Occurrences(head, ';') == 0
  {
    assert Occurrences(head[3..], ',') == 1 && Occurrences(head[3..], ';') == 0;
    assert Occurrences(head[2..], ',') == 1 && Occurrences(head[2..], ';') == 0;
    assert Occurrences(head[1..], ',') == 1 && Occurrences(head[1..], ';') == 0;
  }

  // ---------------------------------------------------------------------------
  // One record of apply_gmm (push_m6a_to_bam.py:76-150)

  /**
   * The csv rows of one read: how many there are, and the read positions
   * (tpl - 1) the mixture model calls m6A, which the model takes as given.
   */
  datatype Molecule = Molecule(rows: nat, m6a: seq<int>)

  function MoleculeFor(csv: map<string, Molecule>, name: string): Option<Molecule> {
    if name in csv then Some(csv[name]) else None
  }

  /** What becomes of one record: written as read (None), written with new tags, or an exception. */
  function GmmStep(s: seq<char>, tags: seq<Tag>, entry: Option<Molecule>, minCalls: int): Result<Option<seq<Tag>>>
    requires ModTagsTyped(tags)
  {
    if entry.None? || entry.value.rows < minCalls then Ok(None)
    else
      var p := entry.value.m6a;
      if !AllValid(|s|, p) then Err(IndexError)
      else
        var modCount := CountAT(s, Positions(|s|, p));
        if |p| != modCount then Err(AssertionError)
        else if modCount < 1 then Ok(None)
        else
          var a := CoordinateConversion(s, 'A', p).value;
          var t := CoordinateConversion(s, 'T', p).value;
          var merged := MergeTags(tags, ModsSuffix(a.0, a.1, t.0, t.1), Repeat(255, modCount));
          if merged.Err? then Err(merged.error) else Ok(Some(merged.value))
  }

  /**
   * Merging the new MM suffix and ML values into the tags: appended to an
   * existing MM (whose ML must exist, or KeyError) with the tag list rebuilt
   * MM and ML first, or added as two new tags. The script appends the pairs
   * ("MM:Z:", mods) and ("ML:C:", probs); pysam packs only the first two
   * characters of a tag name, so the record gets tags named MM and ML.
   */
  function MergeTags(tags: seq<Tag>, mods: string, probs: seq<int>): Result<seq<Tag>>
    requires ModTagsTyped(tags)
  {
    if HasTag(tags, "MM") then
      if !HasTag(tags, "ML") then Err(KeyError)
      else
        var mm := GetTag(tags, "MM");
        var ml := GetTag(tags, "ML");
        assert mm.Text? && ml.IntArray?;
        Ok([Tag("MM", Text(mm.text + mods)), Tag("ML", IntArray(ml.numbers + probs))] + OtherTags(tags))
    else
      Ok(tags + [Tag("MM", Text(mods)), Tag("ML", IntArray(probs))])
  }

  /** A record that passes the checks gets the merge of its suffix and |p| ML values of 255. */
  lemma GmmStepMerges(s: seq<char>, tags: seq<Tag>, m: Molecule, minCalls: int)
    requires ModTagsTyped(tags) && m.rows >= minCalls && AllValid(|s|, m.m6a)
    requires CountAT(s, Positions(|s|, m.m6a)) == |m.m6a| > 0
    ensures var a := CoordinateConversion(s, 'A', m.m6a).value;
            var t := CoordinateConversion(s, 'T', m.m6a).value;
            var merged := MergeTags(tags, ModsSuffix(a.0, a.1, t.0, t.1), Repeat(255, |m.m6a|));
            GmmStep(s, tags, Some(m), minCalls) == if merged.Err? then Err(merged.error) else Ok(Some(merged.value))
  {
  }

  /** The tags written for a record that did not raise. */
  function Written(tags: seq<Tag>, step: Option<seq<Tag>>): seq<Tag> {
    if step.None? then tags else step.value
  }

  /**
   * A record is written unchanged exactly when it is missing from the csv, has
   * fewer than min_number_of_calls rows, or has no m6A call.
   */
  lemma GmmUnchanged(s: seq<char>, tags: seq<Tag>, entry: Option<Molecule>, minCalls: int)
    requires ModTagsTyped(tags)
    ensures GmmStep(s, tags, entry, minCalls) == Ok(None) <==>
            entry.None? || entry.value.rows < minCalls || |entry.value.m6a| == 0
  {
    if entry.Some? && entry.value.rows >= minCalls && |entry.value.m6a| > 0 {
      var p := entry.value.m6a;
      if AllValid(|s|, p) {
        CountATAll(s, Positions(|s|, p));
      }
    }
  }

  /**
   * Every called position must be an A or a T of the read: otherwise the
   * mod_count assertion fails; an index outside the read raises IndexError.
   */
  lemma GmmEveryCallOnAT(s: seq<char>, tags: seq<Tag>, m: Molecule, minCalls: int)
    requires ModTagsTyped(tags) && m.rows >= minCalls
    ensures GmmStep(s, tags, Some(m), minCalls) == Err(IndexError) <==> !AllValid(|s|, m.m6a)
    ensures AllValid(|s|, m.m6a) ==>
            (GmmStep(s, tags, Some(m), minCalls) == Err(AssertionError) <==>
             exists i :: 0 <= i < |m.m6a| && s[Wrap(|s|, m.m6a[i])] != 'A' && s[Wrap(|s|, m.m6a[i])] != 'T')
  {
    if AllValid(|s|, m.m6a) {
      var p := Positions(|s|, m.m6a);
      CountATAll(s, p);
      if forall i :: 0 <= i < |m.m6a| ==> s[p[i]] == 'A' || s[p[i]] == 'T' {
        assert CountAT(s, p) == |m.m6a|;
      }
    }
  }

  /**
   * A record with calls all on A/T: the two section counts add up to mod_count
   * (the assertion at line 124 cannot fail), the suffix carries one MM field per
   * new ML value, and a missing ML next to an MM raises KeyError. Otherwise
   * an existing MM gets the suffix appended and ML one 255 per call, the two
   * placed before the other tags; without MM the two tags are added last.
   */
  lemma GmmRetagged(s: seq<char>, tags: seq<Tag>, m: Molecule, minCalls: int)
    requires ModTagsTyped(tags) && m.rows >= minCalls && |m.m6a| > 0
    requires AllValid(|s|, m.m6a)
    requires forall i :: 0 <= i < |m.m6a| ==> s[Wrap(|s|, m.m6a[i])] == 'A' || s[Wrap(|s|, m.m6a[i])] == 'T'
    ensures var a := CoordinateConversion(s, 'A', m.m6a).value;
            var t := CoordinateConversion(s, 'T', m.m6a).value;
            a.1 + t.1 == |m.m6a| &&
            Occurrences(ModsSuffix(a.0, a.1, t.0, t.1), ',') == |m.m6a|
    ensures HasTag(tags, "MM") && !HasTag(tags, "ML") ==> GmmStep(s, tags, Some(m), minCalls) == Err(KeyError)
    ensures HasTag(tags, "MM") && HasTag(tags, "ML") ==>
            var a := CoordinateConversion(s, 'A', m.m6a).value;
            var t := CoordinateConversion(s, 'T', m.m6a).value;
            GmmStep(s, tags, Some(m), minCalls) ==
              Ok(Some([Tag("MM", Text(GetTag(tags, "MM").text + ModsSuffix(a.0, a.1, t.0, t.1))),
                       Tag("ML", IntArray(GetTag(tags, "ML").numbers + Repeat(255, |m.m6a|)))]
                      + OtherTags(tags)))
    ensures !HasTag(tags, "MM") ==>
            var a := CoordinateConversion(s, 'A', m.m6a).value;
            var t := CoordinateConversion(s, 'T', m.m6a).value;
            GmmStep(s, tags, Some(m), minCalls) ==
              Ok(Some(tags + [Tag("MM", Text(ModsSuffix(a.0, a.1, t.0, t.1))),
                              Tag("ML", IntArray(Repeat(255, |m.m6a|)))]))
  {
    var p := Positions(|s|, m.m6a);
    CountATAll(s, p);
    CountATSplit(s, p);
    var a := CoordinateConversion(s, 'A', m.m6a).value;
    var t := CoordinateConversion(s, 'T', m.m6a).value;
    SuffixShape(a.0, a.1, t.0, t.1);
  }

  /**
   * The tag update of apply_gmm (push_m6a_to_bam.py:133-149), as MergeTags
   * says: `set_tags` with the rebuilt list, or two appends to `rec.tags`.
   */
  method MergeModTags(rec: Record, mods: string, newProbabilities: seq<int>) returns (error: Option<PyError>)
    requires ModTagsTyped(rec.tags)
    modifies rec
    ensures error.Some? <==> MergeTags(old(rec.tags), mods, newProbabilities).Err?
    ensures error.Some? ==> error.value == MergeTags(old(rec.tags), mods, newProbabilities).error
    ensures error.Some? ==> rec.tags == old(rec.tags)
    ensures error.None? ==> rec.tags == MergeTags(old(rec.tags), mods, newProbabilities).value
  {
    if HasTag(rec.tags, "MM") {
      var originalMods := GetTag(rec.tags, "MM");
      var newMods := originalMods.text + mods;
      if !HasTag(rec.tags, "ML") {
        return Some(KeyError);
      }
      var originalProbs := GetTag(rec.tags, "ML");
      var newProbs := originalProbs.numbers + newProbabilities;
      var newTags := RebuildModTags(rec.tags, newMods, newProbs);
      rec.SetTags(newTags);
    } else {
      // ("MM:Z:", mods) and ("ML:C:", ...): pysam stores them as MM and ML
      rec.AppendTags([Tag("MM", Text(mods))]);
      rec.AppendTags([Tag("ML", IntArray(newProbabilities))]);
    }
    return None;
  }

  /**
   * One pass of the loop body of apply_gmm on `rec`: the tags it ends with and
   * whether it raised, as GmmStep says.
   */
  method PushRecord(rec: Record, entry: Option<Molecule>, minCalls: int) returns (outcome: Result<bool>)
    requires ModTagsTyped(rec.tags)
    modifies rec
    ensures outcome.Err? <==> GmmStep(rec.querySequence, old(rec.tags), entry, minCalls).Err?
    ensures outcome.Err? ==> outcome.error == GmmStep(rec.querySequence, old(rec.tags), entry, minCalls).error
    ensures outcome.Err? ==> rec.tags == old(rec.tags)
    ensures outcome.Ok? ==> outcome.value == GmmStep(rec.querySequence, old(rec.tags), entry, minCalls).value.Some?
    ensures outcome.Ok? ==> rec.tags == Written(old(rec.tags), GmmStep(rec.querySequence, old(rec.tags), entry, minCalls).value)
  {
    var sequence := rec.querySequence;
    if entry.None? {
      return Ok(false);
    }
    var molecule := entry.value;
    if molecule.rows < minCalls {
      return Ok(false);
    }
    var molM6a := molecule.m6a;
    if !AllValid(|sequence|, molM6a) {
      return Err(IndexError);
    }
    var modCount := CountAT(sequence, Positions(|sequence|, molM6a));
    if |molM6a| != modCount {
      return Err(AssertionError);
    }
    if modCount < 1 {
      return Ok(false);
    }
    var (aMods, aModCount) := CoordinateConversion(sequence, 'A', molM6a).value;
    var (tMods, tModCount) := CoordinateConversion(sequence, 'T', molM6a).value;
    ghost var aSection := Section("A+a,", aMods, aModCount);
    ghost var tSection := Section("T-a,", tMods, tModCount);
    var mods := "";
    if aModCount > 0 {
      mods := mods + ("A+a," + Join(aMods) + ";");
    }
    assert mods == aSection by {
      if aModCount > 0 {
        assert "" + aSection == aSection;
      }
    }
    if tModCount > 0 {
      mods := mods + ("T-a," + Join(tMods) + ";");
    }
    assert mods == ModsSuffix(aMods, aModCount, tMods, tModCount) by {
      if tModCount == 0 {
        assert aSection + tSection == aSection;
      }
    }
    var newProbabilities := Repeat(255, modCount);
    CountATSplit(sequence, Positions(|sequence|, molM6a));
    assert aModCount + tModCount == modCount;
    assert |newProbabilities| == modCount;
    GmmStepMerges(sequence, rec.tags, molecule, minCalls);
    var error := MergeModTags(rec, mods, newProbabilities);
    if error.Some? {
      return Err(error.value);
    }
    return Ok(true);
  }

  /** The csv entry and tags GmmStep reads for one record. */
  function StepOf(rec: Record, tags: seq<Tag>, csv: map<string, Molecule>, minCalls: int): Result<Option<seq<Tag>>>
    requires ModTagsTyped(tags)
  {
    GmmStep(rec.querySequence, tags, MoleculeFor(csv, rec.queryName), minCalls)
  }

  /**
   * apply_gmm over the records of the input BAM: each record is written, in
   * order, with the tags GmmStep gives it, until one raises.
   */
  method ApplyGmm(recs: seq<Record>, csv: map<string, Molecule>, minCalls: int)
    returns (written: seq<seq<Tag>>, error: Option<PyError>)
    requires forall i, j :: 0 <= i < j < |recs| ==> recs[i] != recs[j]
    requires forall i :: 0 <= i < |recs| ==> ModTagsTyped(recs[i].tags)
    modifies set i | 0 <= i < |recs| :: recs[i]
    ensures |written| <= |recs|
    ensures error.None? <==> |written| == |recs|
    ensures forall i :: 0 <= i < |written| ==>
              && ModTagsTyped(old(recs[i].tags))
              && StepOf(recs[i], old(recs[i].tags), csv, minCalls).Ok?
              && written[i] == Written(old(recs[i].tags), StepOf(recs[i], old(recs[i].tags), csv, minCalls).value)
              && recs[i].tags == written[i]
    ensures error.Some? ==>
              && ModTagsTyped(old(recs[|written|].tags))
              && StepOf(recs[|written|], old(recs[|written|].tags), csv, minCalls) == Err(error.value)
    ensures forall j :: |written| <= j < |recs| ==> recs[j].tags == old(recs[j].tags)
  {
    written := [];
    error := None;
    var i := 0;
    while i < |recs|
      invariant 0 <= i <= |recs| && |written| == i
      invariant forall j :: i <= j < |recs| ==> recs[j].tags == old(recs[j].tags)
      invariant forall j :: 0 <= j < i ==>
                  && ModTagsTyped(old(recs[j].tags))
                  && StepOf(recs[j], old(recs[j].tags), csv, minCalls).Ok?
                  && written[j] == Written(old(recs[j].tags), StepOf(recs[j], old(recs[j].tags), csv, minCalls).value)
                  && recs[j].tags == written[j]
    {
      var rec := recs[i];
      var outcome := PushRecord(rec, MoleculeFor(csv, rec.queryName), minCalls);
      if outcome.Err? {
        return written, Some(outcome.error);
      }
      written := written + [rec.tags];
      i := i + 1;
    }
  }
}
