/**
 * The alignment record the scripts read and retag (a pysam AlignedSegment),
 * reduced to the attributes the core uses. Everything but the tag list is
 * fixed when the record is read; the scripts only ever replace its tags.
 */
module Records {
  import opened Common

  /** A pysam modification key: (canonical base, strand, modification code). */
  datatype ModKey = ModKey(base: char, strand: nat, code: char)

  /** m6A on A (forward) and on T (reverse), extract_bed_from_bam.py:12. */
  const M6aMods: seq<ModKey> := [ModKey('A', 0, 'a'), ModKey('T', 1, 'a')]
  /** 5mC in CpG context, extract_bed_from_bam.py:11. */
  const CpgMods: seq<ModKey> := [ModKey('C', 0, 'm')]

  /** Tag values of the kinds the scripts read and write (SAM types Z, i and B). */
  datatype TagValue = Text(text: string) | Integer(number: int) | IntArray(numbers: seq<int>)

  datatype Tag = Tag(name: string, value: TagValue)

  /**
   * What pysam promises about the calls of one modification key map: a key is
   * reported only with at least one call, and each call lies on the query.
   */
  predicate CallsWellFormed(calls: map<ModKey, seq<int>>, queryLength: nat) {
    forall k :: k in calls ==>
      |calls[k]| > 0 && forall i :: 0 <= i < |calls[k]| ==> 0 <= calls[k][i] < queryLength
  }

  predicate HasTag(tags: seq<Tag>, name: string) {
    exists k :: 0 <= k < |tags| && tags[k].name == name
  }

  /** pysam's `get_tag`: the value of the first tag with that name. */
  function GetTag(tags: seq<Tag>, name: string): (v: TagValue)
    requires HasTag(tags, name)
    ensures exists k :: 0 <= k < |tags| && tags[k] == Tag(name, v) &&
                        forall j :: 0 <= j < k ==> tags[j].name != name
  {
    if tags[0].name == name then tags[0].value
    else
      assert HasTag(tags[1..], name) by {
        var k :| 0 <= k < |tags| && tags[k].name == name;
        assert tags[1..][k - 1].name == name;
      }
      var v := GetTag(tags[1..], name);
      var k :| 0 <= k < |tags[1..]| && tags[1..][k] == Tag(name, v) &&
               forall j :: 0 <= j < k ==> tags[1..][j].name != name;
      assert tags[k + 1] == Tag(name, v);
      v
  }

  predicate IsModTag(t: Tag) {
    t.name == "MM" || t.name == "ML"
  }

  /**
   * MM is a string tag and ML an integer array, as section 1.7 of the SAMtags
   * specification fixes their types; pysam hands them back as str and array.
   */
  predicate ModTagsTyped(tags: seq<Tag>) {
    forall k :: 0 <= k < |tags| ==>
      (tags[k].name == "MM" ==> tags[k].value.Text?) &&
      (tags[k].name == "ML" ==> tags[k].value.IntArray?)
  }

  /** The tags other than MM and ML, in their original order. */
  function OtherTags(tags: seq<Tag>): (r: seq<Tag>)
    ensures |r| <= |tags|
    ensures forall k :: 0 <= k < |r| ==> !IsModTag(r[k])
  {
    if |tags| == 0 then []
    else if IsModTag(tags[0]) then OtherTags(tags[1..])
    else [tags[0]] + OtherTags(tags[1..])
  }

  /** The tags kept are exactly the tags other than MM and ML. */
  lemma {:induction false} OtherTagsMembers(tags: seq<Tag>)
    ensures forall k :: 0 <= k < |OtherTags(tags)| ==> OtherTags(tags)[k] in tags
    ensures forall k :: 0 <= k < |tags| && !IsModTag(tags[k]) ==> tags[k] in OtherTags(tags)
  {
    if |tags| > 0 {
      var tail := tags[1..];
      OtherTagsMembers(tail);
      forall k | 0 < k < |tags|
        ensures tags[k] == tail[k - 1]
      {
      }
      forall k | 0 <= k < |OtherTags(tail)|
        ensures OtherTags(tail)[k] in tags
      {
        var j :| 0 <= j < |tail| && tail[j] == OtherTags(tail)[k];
        assert tags[j + 1] == tail[j];
      }
    }
  }

  lemma {:induction false} OtherTagsAppend(tags: seq<Tag>, t: Tag)
    ensures OtherTags(tags + [t]) == OtherTags(tags) + (if IsModTag(t) then [] else [t])
  {
    if |tags| == 0 {
      assert tags + [t] == [t];
    } else {
      assert (tags + [t])[1..] == tags[1..] + [t];
      OtherTagsAppend(tags[1..], t);
    }
  }

  /**
   * The list the scripts pass to `set_tags` when MM already exists: the new MM
   * and ML first, then every other tag in order, the old MM and ML left out
   * (push_m6a_to_bam.py:142-146, add_m6A_bam.py:130-137).
   */
  method RebuildModTags(tags: seq<Tag>, mm: string, ml: seq<int>) returns (newTags: seq<Tag>)
    ensures newTags == [Tag("MM", Text(mm)), Tag("ML", IntArray(ml))] + OtherTags(tags)
    ensures forall k :: 2 <= k < |newTags| ==> !IsModTag(newTags[k])
  {
    newTags := [Tag("MM", Text(mm)), Tag("ML", IntArray(ml))];
    var i := 0;
    while i < |tags|
      invariant 0 <= i <= |tags|
      invariant newTags == [Tag("MM", Text(mm)), Tag("ML", IntArray(ml))] + OtherTags(tags[..i])
    {
      var tagSet := tags[i];
      if tagSet.name != "MM" && tagSet.name != "ML" {
        newTags := newTags + [tagSet];
      }
      assert tags[..i + 1] == tags[..i] + [tags[i]];
      OtherTagsAppend(tags[..i], tags[i]);
      i := i + 1;
    }
    assert tags[..|tags|] == tags;
  }

  class Record {
    const queryName: string
    const querySequence: seq<char>
    const isReverse: bool
    const referenceName: string
    const referenceStart: int
    /** `reference_end`: None for a read without an alignment (unmapped, or no CIGAR). */
    const referenceEnd: Option<int>
    /** Read length including hard clips (pysam's `infer_read_length()`), None without a CIGAR. */
    const inferredReadLength: Option<int>
    /** `get_aligned_pairs(matches_only=True)`: (query position, reference position). */
    const alignedPairs: seq<(int, int)>
    /** `modified_bases_forward`: calls in the orientation of the original read. */
    const modifiedBasesForward: Option<map<ModKey, seq<int>>>
    /** `modified_bases`: calls in query (alignment) orientation. */
    const modifiedBases: Option<map<ModKey, seq<int>>>
    var tags: seq<Tag>

    constructor (queryName: string, querySequence: seq<char>, isReverse: bool,
                 referenceName: string, referenceStart: int, referenceEnd: Option<int>,
                 inferredReadLength: Option<int>, alignedPairs: seq<(int, int)>,
                 modifiedBasesForward: Option<map<ModKey, seq<int>>>,
                 modifiedBases: Option<map<ModKey, seq<int>>>, tags: seq<Tag>)
      ensures this.queryName == queryName && this.querySequence == querySequence
      ensures this.isReverse == isReverse && this.referenceName == referenceName
      ensures this.referenceStart == referenceStart && this.referenceEnd == referenceEnd
      ensures this.inferredReadLength == inferredReadLength
      ensures this.alignedPairs == alignedPairs
      ensures this.modifiedBasesForward == modifiedBasesForward
      ensures this.modifiedBases == modifiedBases
      ensures this.tags == tags
    {
      this.queryName := queryName;
      this.querySequence := querySequence;
      this.isReverse := isReverse;
      this.referenceName := referenceName;
      this.referenceStart := referenceStart;
      this.referenceEnd := referenceEnd;
      this.inferredReadLength := inferredReadLength;
      this.alignedPairs := alignedPairs;
      this.modifiedBasesForward := modifiedBasesForward;
      this.modifiedBases := modifiedBases;
      this.tags := tags;
    }

    /** pysam's `set_tags`: replaces the whole tag list. */
    method SetTags(newTags: seq<Tag>)
      modifies this
      ensures tags == newTags
    {
      tags := newTags;
    }

    /** `rec.tags += extra`: appends to the tag list. */
    method AppendTags(extra: seq<Tag>)
      modifies this
      ensures tags == old(tags) + extra
    {
      tags := tags + extra;
    }
  }
}
