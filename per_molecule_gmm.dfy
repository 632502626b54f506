/**
 * per_molecule_train_gmm.v3.py: one BED12 line per molecule with its m6A
 * calls as 1-bp blocks, first in fiber coordinates (trainGMMs) and then, for
 * each aligned read of a molecule, in reference coordinates (the loop of
 * main). The mixture model's verdict on each csv row is taken as given.
 */
module PerMoleculeGmm {
  import opened Common
  import opened Records

  // ---------------------------------------------------------------------------
  // Python's int() on a string of decimal digits

  predicate IsDigit(c: char) {
    '0' <= c <= '9'
  }

  predicate AllDigits(s: string) {
    forall k :: 0 <= k < |s| ==> IsDigit(s[k])
  }

  function DigitValue(c: char): (d: nat)
    requires IsDigit(c)
    ensures d < 10
  {
    (c as int) - ('0' as int)
  }

  /** The value of a digit string, most significant digit first. */
  function DigitsValue(s: string): nat
    requires AllDigits(s)
  {
    if |s| == 0 then 0 else DigitsValue(s[..|s| - 1]) * 10 + DigitValue(s[|s| - 1])
  }

  /** `int(s)`: an optional sign and at least one digit, or ValueError. */
  function ParseInt(s: string): (r: Result<int>)
    ensures r.Err? ==> r.error == ValueError
    ensures r.Ok? ==> |s| > 0
  {
    var signed := |s| > 0 && (s[0] == '-' || s[0] == '+');
    var digits := if signed then s[1..] else s;
    if |digits| == 0 || !AllDigits(digits) then Err(ValueError)
    else if signed && s[0] == '-' then Ok(-(DigitsValue(digits) as int))
    else Ok(DigitsValue(digits))
  }

  lemma DigitCharValue(d: nat)
    requires d < 10
    ensures IsDigit(DigitChar(d)) && DigitValue(DigitChar(d)) == d
  {
    assert "0123456789"[d] as int == '0' as int + d by {
      if d < 5 {
        assert d == 0 || d == 1 || d == 2 || d == 3 || d == 4;
      } else {
        assert d == 5 || d == 6 || d == 7 || d == 8 || d == 9;
      }
    }
  }

  lemma {:induction false} NatToStringValue(n: nat)
    ensures AllDigits(NatToString(n)) && DigitsValue(NatToString(n)) == n
    decreases n
  {
    var s := NatToString(n);
    if n < 10 {
      DigitCharValue(n);
      assert s[..0] == [];
    } else {
      NatToStringValue(n / 10);
      DigitCharValue(n % 10);
      assert s[..|s| - 1] == NatToString(n / 10);
    }
  }

  /** An unsigned numeral parses to its digits' value. */
  lemma ParseDigits(s: string)
    requires |s| > 0 && AllDigits(s)
    ensures ParseInt(s) == Ok(DigitsValue(s))
  {
    assert IsDigit(s[0]);
  }

  /** A numeral after a minus sign parses to the negated value. */
  lemma ParseNegated(s: string)
    requires |s| > 0 && AllDigits(s)
    ensures ParseInt("-" + s) == Ok(-(DigitsValue(s) as int))
  {
    var t := "-" + s;
    assert t[0] == '-' && t[1..] == s;
  }

  /** `int(str(i)) == i`, the round trip the script relies on in `np.ones(int(blockCount))`. */
  lemma ParseIntToString(i: int)
    ensures ParseInt(IntToString(i)) == Ok(i)
  {
    var n: nat := if i < 0 then -i else i;
    NatToStringValue(n);
    NatToStringDigits(n);
    if i < 0 {
      ParseNegated(NatToString(n));
    } else {
      ParseDigits(NatToString(n));
    }
  }

  /** `int()` rejects what is not a numeral: the empty string, a lone sign, a letter. */
  lemma ParseIntRejects(s: string, k: nat)
    requires k < |s| && !IsDigit(s[k]) && (k > 0 || (s[0] != '-' && s[0] != '+'))
    ensures ParseInt(s) == Err(ValueError)
  {
    if |s| > 0 && (s[0] == '-' || s[0] == '+') {
      assert s[1..][k - 1] == s[k];
    }
  }

  // ---------------------------------------------------------------------------
  // trainGMMs (per_molecule_train_gmm.v3.py:25-91)

  /**
   * The base-A csv rows of one molecule (one refName group; main keeps only
   * the rows with base "A" before trainGMMs sees them, so these are the rows
   * the 25-row threshold counts): its name, the tpl of each row and, per
   * row, whether the mixture model calls it methylated.
   */
  datatype FiberGroup = FiberGroup(name: string, tpl: seq<int>, called: seq<bool>)

  /**
   * The numeric columns of one BED12 line: chrom, chromStart, chromEnd, name,
   * blockCount, blockSizes and blockStarts (the score, strand, thick and
   * colour columns are fixed or come from floating point).
   */
  datatype BedRow = BedRow(chrom: string, start: int, stop: int, name: string,
                           blockCount: nat, blockSizes: seq<int>, blockStarts: seq<int>)

  /** Molecules with fewer csv rows than this are skipped. */
  const MinRows: nat := 25

  /** The rows below n that the mixture model calls methylated, in increasing order. */
  function CalledRows(called: seq<bool>, n: nat): (idx: seq<int>)
    requires n <= |called|
    ensures |idx| <= n
    ensures forall k :: 0 <= k < |idx| ==> 0 <= idx[k] < n && called[idx[k]]
    ensures StrictlyIncreasing(idx)
    ensures forall i :: 0 <= i < n && called[i] ==> i in idx
  {
    if n == 0 then []
    else
      var init := CalledRows(called, n - 1);
      init + (if called[n - 1] then [n - 1] else [])
  }

  /** `tpl[predictions >= 0.99999999]`: the positions of the rows called methylated, in row order. */
  function Selected(tpl: seq<int>, called: seq<bool>): (r: seq<int>)
    requires |called| == |tpl|
    ensures var idx := CalledRows(called, |called|);
            |r| == |idx| <= |tpl| && forall k :: 0 <= k < |idx| ==> r[k] == tpl[idx[k]]
  {
    var idx := CalledRows(called, |called|);
    seq(|idx|, k requires 0 <= k < |idx| => tpl[idx[k]])
  }

  /** Position p is selected from a row that is called methylated. */
  predicate FromCalledRow(tpl: seq<int>, called: seq<bool>, p: int)
    requires |called| == |tpl|
  {
    exists i :: 0 <= i < |tpl| && called[i] && tpl[i] == p
  }

  /** The selected positions are exactly the tpl values of the rows called methylated. */
  lemma SelectedMembers(tpl: seq<int>, called: seq<bool>)
    requires |called| == |tpl|
    ensures forall k :: 0 <= k < |Selected(tpl, called)| ==> FromCalledRow(tpl, called, Selected(tpl, called)[k])
    ensures forall i :: 0 <= i < |tpl| && called[i] ==> tpl[i] in Selected(tpl, called)
  {
    var idx := CalledRows(called, |called|);
    var r := Selected(tpl, called);
    forall k | 0 <= k < |r|
      ensures FromCalledRow(tpl, called, r[k])
    {
      assert called[idx[k]] && tpl[idx[k]] == r[k];
    }
    forall i | 0 <= i < |tpl| && called[i]
      ensures tpl[i] in r
    {
      var k :| 0 <= k < |idx| && idx[k] == i;
      assert r[k] == tpl[i];
    }
  }

  function SeqMin(s: seq<int>): (m: int)
    requires |s| > 0
    ensures m in s && forall k :: 0 <= k < |s| ==> m <= s[k]
  {
    if |s| == 1 then s[0]
    else
      var rest := SeqMin(s[1..]);
      assert forall k :: 1 <= k < |s| ==> s[k] == s[1..][k - 1];
      if s[0] <= rest then s[0] else rest
  }

  function SeqMax(s: seq<int>): (m: int)
    requires |s| > 0
    ensures m in s && forall k :: 0 <= k < |s| ==> s[k] <= m
  {
    if |s| == 1 then s[0]
    else
      var rest := SeqMax(s[1..]);
      assert forall k :: 1 <= k < |s| ==> s[k] == s[1..][k - 1];
      if s[0] >= rest then s[0] else rest
  }

  /** `int(molecule_name.split("/")[1])`. */
  function MoleculeKey(name: string): (r: Result<int>)
    ensures r.Err? ==> r.error in {IndexError, ValueError}
    ensures Occurrences(name, '/') == 0 ==> r == Err(IndexError)
  {
    var parts := SplitOn(name, '/');
    if |parts| < 2 then Err(IndexError) else ParseInt(parts[1])
  }

  /** Each element minus one. */
  function Decrement(xs: seq<int>): (r: seq<int>)
    ensures |r| == |xs| && forall k :: 0 <= k < |xs| ==> r[k] == xs[k] - 1
  {
    seq(|xs|, k requires 0 <= k < |xs| => xs[k] - 1)
  }

  /**
   * The unaligned line of a molecule: it spans min(tpl)..max(tpl) and has a
   * 1-bp block at 0, one at every methylated position minus one, and one at
   * its last base.
   */
  function UnalignedRow(g: FiberGroup): BedRow
    requires |g.called| == |g.tpl| > 0
  {
    var m := Selected(g.tpl, g.called);
    var start, stop := SeqMin(g.tpl), SeqMax(g.tpl);
    BedRow(g.name, start, stop, g.name, |m| + 2, Repeat(1, |m| + 2), [0] + Decrement(m) + [(stop - start) - 1])
  }

  predicate GroupsWellFormed(groups: seq<FiberGroup>) {
    forall i :: 0 <= i < |groups| ==> |groups[i].called| == |groups[i].tpl|
  }

  /** One pass of the loop of trainGMMs: a molecule with enough rows adds its key and its line. */
  function TrainNext(g: FiberGroup, acc: (map<int, seq<int>>, seq<BedRow>)): Result<(map<int, seq<int>>, seq<BedRow>)>
    requires |g.called| == |g.tpl|
  {
    if |g.tpl| < MinRows then Ok(acc)
    else
      var key := MoleculeKey(g.name);
      if key.Err? then Err(key.error)
      else Ok((acc.0[key.value := Selected(g.tpl, g.called)], acc.1 + [UnalignedRow(g)]))
  }

  /** The molecule dictionary and the unaligned lines after the given groups, or the exception raised. */
  function TrainSpec(groups: seq<FiberGroup>): Result<(map<int, seq<int>>, seq<BedRow>)>
    requires GroupsWellFormed(groups)
  {
    if |groups| == 0 then Ok((map[], []))
    else
      var prev := TrainSpec(groups[..|groups| - 1]);
      if prev.Err? then prev else TrainNext(groups[|groups| - 1], prev.value)
  }

  /** Once a group has raised, the later groups do not matter. */
  lemma {:induction false} TrainSpecStops(groups: seq<FiberGroup>, i: nat)
    requires GroupsWellFormed(groups) && i <= |groups|
    requires TrainSpec(groups[..i]).Err?
    ensures TrainSpec(groups) == TrainSpec(groups[..i])
    decreases |groups| - i
  {
    if i < |groups| {
      var next := groups[..i + 1];
      assert next[..i] == groups[..i];
      TrainSpecStops(groups, i + 1);
    } else {
      assert groups[..i] == groups;
    }
  }

  /** The groups with at least MinRows rows, in order. */
  function Large(groups: seq<FiberGroup>): (r: seq<FiberGroup>)
    ensures |r| <= |groups|
    ensures forall k :: 0 <= k < |r| ==> |r[k].tpl| >= MinRows
    ensures GroupsWellFormed(groups) ==> GroupsWellFormed(r)
  {
    if |groups| == 0 then []
    else
      var g := groups[|groups| - 1];
      var init := Large(groups[..|groups| - 1]);
      var r := init + (if |g.tpl| >= MinRows then [g] else []);
      assert forall k :: 0 <= k < |r| ==> r[k] == if k < |init| then init[k] else g;
      r
  }

  /** Every name among the groups has an integer second field. */
  predicate AllKeysParse(groups: seq<FiberGroup>) {
    forall k :: 0 <= k < |groups| ==> MoleculeKey(groups[k].name).Ok?
  }

  /** The unaligned line of each group, in order. */
  function UnalignedRows(groups: seq<FiberGroup>): (rows: seq<BedRow>)
    requires GroupsWellFormed(groups)
    requires forall k :: 0 <= k < |groups| ==> |groups[k].tpl| > 0
    ensures |rows| == |groups|
    ensures forall k :: 0 <= k < |groups| ==> rows[k] == UnalignedRow(groups[k])
  {
    seq(|groups|, k requires 0 <= k < |groups| => UnalignedRow(groups[k]))
  }

  /** Nothing is written when a large molecule's name has no integer second field. */
  lemma {:induction false} TrainSucceeds(groups: seq<FiberGroup>)
    requires GroupsWellFormed(groups)
    ensures TrainSpec(groups).Ok? <==> AllKeysParse(Large(groups))
  {
    if |groups| > 0 {
      var init := groups[..|groups| - 1];
      var g := groups[|groups| - 1];
      TrainSucceeds(init);
      var big, bigInit := Large(groups), Large(init);
      if |g.tpl| >= MinRows {
        assert big == bigInit + [g];
        assert big[|big| - 1] == g;
        if !AllKeysParse(bigInit) {
          var k :| 0 <= k < |bigInit| && !MoleculeKey(bigInit[k].name).Ok?;
          assert big[k] == bigInit[k];
        }
        assert AllKeysParse(big) <==> AllKeysParse(bigInit) && MoleculeKey(g.name).Ok?;
        assert TrainSpec(groups).Ok? <==> TrainSpec(init).Ok? && MoleculeKey(g.name).Ok?;
      } else {
        assert big == bigInit;
      }
    }
  }

  /** One unaligned line per molecule with at least MinRows rows, in order, and none for a smaller one. */
  lemma {:induction false} TrainRows(groups: seq<FiberGroup>)
    requires GroupsWellFormed(groups) && TrainSpec(groups).Ok?
    ensures TrainSpec(groups).value.1 == UnalignedRows(Large(groups))
  {
    if |groups| > 0 {
      var init := groups[..|groups| - 1];
      var g := groups[|groups| - 1];
      assert TrainSpec(init).Ok?;
      TrainRows(init);
      var big, bigInit := Large(groups), Large(init);
      if |g.tpl| >= MinRows {
        assert big == bigInit + [g];
        var rows := TrainSpec(groups).value.1;
        assert rows == TrainSpec(init).value.1 + [UnalignedRow(g)];
        assert forall k :: 0 <= k < |bigInit| ==> big[k] == bigInit[k];
      }
    }
  }

  /** `key` is parsed from a large molecule's name after index k. */
  predicate KeyAfter(big: seq<FiberGroup>, key: int, k: int) {
    exists j :: 0 <= j < |big| && k < j && MoleculeKey(big[j].name) == Ok(key)
  }

  /** Only keys parsed from the names of large molecules are present in the dictionary. */
  lemma {:induction false} TrainDictKeys(groups: seq<FiberGroup>, key: int)
    requires GroupsWellFormed(groups) && TrainSpec(groups).Ok?
    ensures key in TrainSpec(groups).value.0 <==> KeyAfter(Large(groups), key, -1)
  {
    if |groups| > 0 {
      var init := groups[..|groups| - 1];
      var g := groups[|groups| - 1];
      assert TrainSpec(init).Ok?;
      TrainDictKeys(init, key);
      var big, bigInit := Large(groups), Large(init);
      var d, dInit := TrainSpec(groups).value.0, TrainSpec(init).value.0;
      if |g.tpl| < MinRows {
        assert big == bigInit && d == dInit;
      } else {
        var gKey := MoleculeKey(g.name).value;
        KeysStep(big, bigInit, g, d, dInit, gKey, key, Selected(g.tpl, g.called));
      }
    }
  }

  /** Adding one large molecule to the dictionary adds its key and keeps the others. */
  lemma KeysStep(big: seq<FiberGroup>, bigInit: seq<FiberGroup>, g: FiberGroup,
                 d: map<int, seq<int>>, dInit: map<int, seq<int>>, gKey: int, key: int, v: seq<int>)
    requires big == bigInit + [g] && MoleculeKey(g.name) == Ok(gKey) && d == dInit[gKey := v]
    requires key in dInit <==> KeyAfter(bigInit, key, -1)
    ensures key in d <==> KeyAfter(big, key, -1)
  {
    if KeyAfter(big, key, -1) && key != gKey {
      var j :| 0 <= j < |big| && MoleculeKey(big[j].name) == Ok(key);
      assert j < |bigInit| && big[j] == bigInit[j];
    }
    if key in dInit {
      var j :| 0 <= j < |bigInit| && MoleculeKey(bigInit[j].name) == Ok(key);
      assert big[j] == bigInit[j];
    }
    if key == gKey {
      assert big[|big| - 1] == g;
    }
  }

  /**
   * A key maps to the selected positions of the last large molecule with that
   * key: later molecules overwrite earlier ones.
   */
  lemma {:induction false} TrainDictLastWins(groups: seq<FiberGroup>, k: nat)
    requires GroupsWellFormed(groups) && TrainSpec(groups).Ok?
    requires k < |Large(groups)| && MoleculeKey(Large(groups)[k].name).Ok?
    requires !KeyAfter(Large(groups), MoleculeKey(Large(groups)[k].name).value, k)
    ensures var key := MoleculeKey(Large(groups)[k].name).value;
            key in TrainSpec(groups).value.0 &&
            TrainSpec(groups).value.0[key] == Selected(Large(groups)[k].tpl, Large(groups)[k].called)
  {
    var init := groups[..|groups| - 1];
    var g := groups[|groups| - 1];
    assert TrainSpec(init).Ok?;
    var big, bigInit := Large(groups), Large(init);
    var key := MoleculeKey(big[k].name).value;
    if |g.tpl| < MinRows {
      assert big == bigInit;
      TrainDictLastWins(init, k);
    } else {
      assert big == bigInit + [g];
      var gKey := MoleculeKey(g.name).value;
      assert TrainSpec(groups).value.0 == TrainSpec(init).value.0[gKey := Selected(g.tpl, g.called)];
      if k < |big| - 1 {
        LaterKeysStep(big, bigInit, g, gKey, key, k);
        TrainDictLastWins(init, k);
      } else {
        assert big[k] == g;
      }
    }
  }

  /** A molecule that is the last with its key stays so once the newly added molecule is dropped. */
  lemma LaterKeysStep(big: seq<FiberGroup>, bigInit: seq<FiberGroup>, g: FiberGroup, gKey: int, key: int, k: nat)
    requires big == bigInit + [g] && MoleculeKey(g.name) == Ok(gKey) && k < |bigInit|
    requires MoleculeKey(big[k].name) == Ok(key) && !KeyAfter(big, key, k)
    ensures key != gKey && MoleculeKey(bigInit[k].name) == Ok(key) && !KeyAfter(bigInit, key, k)
  {
    assert big[|big| - 1] == g;
    assert KeyAfter(big, gKey, k);
    assert forall j :: 0 <= j < |bigInit| ==> big[j] == bigInit[j];
  }

  /**
   * The unaligned blocks: two more than the methylated positions, all of size
   * 1, the first at 0, the last at the molecule's last base, and every
   * methylated position p at p - 1, inside min(tpl)..max(tpl).
   */
  lemma UnalignedRowShape(g: FiberGroup)
    requires |g.called| == |g.tpl| > 0
    ensures var row := UnalignedRow(g);
            var m := Selected(g.tpl, g.called);
            && row.blockCount == |m| + 2 == |row.blockStarts| == |row.blockSizes|
            && (forall k :: 0 <= k < row.blockCount ==> row.blockSizes[k] == 1)
            && row.blockStarts[0] == 0
            && row.blockStarts[row.blockCount - 1] == row.stop - row.start - 1
            && (forall k :: 0 <= k < |m| ==> row.blockStarts[k + 1] == m[k] - 1 &&
                                             row.start <= m[k] <= row.stop)
            && row.start <= row.stop
  {
    var m := Selected(g.tpl, g.called);
    var start, stop := SeqMin(g.tpl), SeqMax(g.tpl);
    var starts := [0] + Decrement(m) + [(stop - start) - 1];
    var row := UnalignedRow(g);
    assert row.start == start && row.stop == stop && row.blockStarts == starts;
    assert start <= g.tpl[0] <= stop;
    var idx := CalledRows(g.called, |g.called|);
    forall k | 0 <= k < |m|
      ensures starts[k + 1] == m[k] - 1 && start <= m[k] <= stop
    {
      assert m[k] == g.tpl[idx[k]];
    }
  }

  /**
   * The unaligned line of one molecule, put together as trainGMMs does (the
   * sizes from `int(blockCount)`): one block of size 1 per methylated
   * position at that position less 1, bookended at 0 and at the molecule's
   * last base.
   */
  method MoleculeRow(molecule: FiberGroup, fiberPositionsWhereMethylated: seq<int>) returns (row: BedRow)
    requires |molecule.called| == |molecule.tpl| > 0
    requires fiberPositionsWhereMethylated == Selected(molecule.tpl, molecule.called)
    ensures row == UnalignedRow(molecule)
    ensures var m := fiberPositionsWhereMethylated;
            && row.blockCount == |m| + 2 == |row.blockStarts| == |row.blockSizes|
            && (forall k :: 0 <= k < row.blockCount ==> row.blockSizes[k] == 1)
            && row.blockStarts[0] == 0
            && row.blockStarts[row.blockCount - 1] == row.stop - row.start - 1
            && (forall k :: 0 <= k < |m| ==> row.blockStarts[k + 1] == m[k] - 1 &&
                                             row.start <= m[k] <= row.stop)
  {
    var tpl := molecule.tpl;
    var start, stop := SeqMin(tpl), SeqMax(tpl);
    var blockCount := IntToString(|fiberPositionsWhereMethylated| + 2);
    var blockStarts := [0] + Decrement(fiberPositionsWhereMethylated) + [(stop - start) - 1];
    ParseIntToString(|fiberPositionsWhereMethylated| + 2);
    var sizeCount := ParseInt(blockCount).value;
    var blockSizes := Repeat(1, sizeCount);
    row := BedRow(molecule.name, start, stop, molecule.name, |fiberPositionsWhereMethylated| + 2, blockSizes, blockStarts);
    UnalignedRowShape(molecule);
  }

  /** The loop of trainGMMs over the molecule groups. */
  method TrainGmms(groups: seq<FiberGroup>) returns (r: Result<(map<int, seq<int>>, seq<BedRow>)>)
    requires GroupsWellFormed(groups)
    ensures r == TrainSpec(groups)
  {
    var intervals: seq<BedRow> := [];
    var moleculeDict: map<int, seq<int>> := map[];
    for i := 0 to |groups|
      invariant TrainSpec(groups[..i]) == Ok((moleculeDict, intervals))
    {
      assert groups[..i + 1][..i] == groups[..i];
      assert TrainSpec(groups[..i + 1]) == TrainNext(groups[i], (moleculeDict, intervals));
      var molecule := groups[i];
      if |molecule.tpl| >= MinRows {
        var fiberPositionsWhereMethylated := Selected(molecule.tpl, molecule.called);
        var nameParts := SplitOn(molecule.name, '/');
        if |nameParts| < 2 {
          TrainSpecStops(groups, i + 1);
          return Err(IndexError);
        }
        var key := ParseInt(nameParts[1]);
        if key.Err? {
          TrainSpecStops(groups, i + 1);
          return Err(key.error);
        }
        moleculeDict := moleculeDict[key.value := fiberPositionsWhereMethylated];
        var row := MoleculeRow(molecule, fiberPositionsWhereMethylated);
        intervals := intervals + [row];
      }
    }
    assert groups[..|groups|] == groups;
    return Ok((moleculeDict, intervals));
  }

  // ---------------------------------------------------------------------------
  // Aligned lines (per_molecule_train_gmm.v3.py:132-191)

  /** `int(interval.get_tag("zm"))`: KeyError without the tag. */
  function ZmwId(tags: seq<Tag>): (r: Result<int>)
    ensures !HasTag(tags, "zm") ==> r == Err(KeyError)
    ensures HasTag(tags, "zm") && GetTag(tags, "zm").Integer? ==> r == Ok(GetTag(tags, "zm").number)
    ensures HasTag(tags, "zm") && GetTag(tags, "zm").Text? ==> r == ParseInt(GetTag(tags, "zm").text)
    ensures HasTag(tags, "zm") && GetTag(tags, "zm").IntArray? ==> r == Err(TypeError)
  {
    if !HasTag(tags, "zm") then Err(KeyError)
    else match GetTag(tags, "zm")
      case Integer(n) => Ok(n)
      case Text(t) => ParseInt(t)
      case IntArray(_) => Err(TypeError)
  }

  function Abs(x: int): nat {
    if x < 0 then -x else x
  }

  /**
   * The csv positions in the read's query coordinates: on a reverse read
   * `np.abs(pos - read_length)`, on a forward read unchanged.
   */
  function QueryPositions(pos: seq<int>, isReverse: bool, readLength: int): (r: seq<int>)
    ensures |r| == |pos|
    ensures forall k :: 0 <= k < |pos| ==> r[k] == if isReverse then Abs(pos[k] - readLength) else pos[k]
  {
    if isReverse then seq(|pos|, k requires 0 <= k < |pos| => Abs(pos[k] - readLength)) else pos
  }

  /** The indices below n of the aligned pairs whose query position is in `pos`, in increasing order. */
  function HitIndices(pairs: seq<(int, int)>, pos: seq<int>, n: nat): (idx: seq<int>)
    requires n <= |pairs|
    ensures |idx| <= n
    ensures forall k :: 0 <= k < |idx| ==> 0 <= idx[k] < n && pairs[idx[k]].0 in pos
    ensures StrictlyIncreasing(idx)
    ensures forall i :: 0 <= i < n && pairs[i].0 in pos ==> i in idx
  {
    if n == 0 then []
    else
      var init := HitIndices(pairs, pos, n - 1);
      init + (if pairs[n - 1].0 in pos then [n - 1] else [])
  }

  /**
   * `aligned_pairs[1][np.isin(aligned_pairs[0], pos)] - offset`: the reference
   * position, less `offset`, of every aligned pair whose query position is in
   * `pos`, in pair order.
   */
  function ReferenceHits(pairs: seq<(int, int)>, pos: seq<int>, offset: int): (r: seq<int>)
    ensures var idx := HitIndices(pairs, pos, |pairs|);
            |r| == |idx| && forall k :: 0 <= k < |idx| ==> r[k] == pairs[idx[k]].1 - offset
  {
    var idx := HitIndices(pairs, pos, |pairs|);
    seq(|idx|, k requires 0 <= k < |idx| => pairs[idx[k]].1 - offset)
  }

  /**
   * `ref_coords`: relative to the reference start, and one less again on a
   * forward read.
   */
  function RefCoords(read: Record, pos: seq<int>): seq<int>
    requires read.isReverse ==> read.inferredReadLength.Some?
  {
    var readLength := if read.isReverse then read.inferredReadLength.value else 0;
    var queryPos := QueryPositions(pos, read.isReverse, readLength);
    ReferenceHits(read.alignedPairs, queryPos,
                  if read.isReverse then read.referenceStart else read.referenceStart + 1)
  }

  /**
   * The aligned line of one read: none when its ZMW is not in the molecule
   * dictionary, or the exception raised. These are, in the order the loop
   * body meets them: the zm tag missing or unparsable; `int(None)` on the
   * reference end of an unaligned read, or on `infer_read_length()` of a
   * reverse read without a CIGAR (TypeError); an empty matched-pair array
   * that numpy cannot index (IndexError); no ec tag (KeyError).
   */
  function AlignedStep(read: Record, dict: map<int, seq<int>>): Result<Option<BedRow>>
    reads read
  {
    var zmwid := ZmwId(read.tags);
    if zmwid.Err? then Err(zmwid.error)
    else if zmwid.value !in dict then Ok(None)
    else if read.referenceEnd.None? then Err(TypeError)
    else if read.isReverse && read.inferredReadLength.None? then Err(TypeError)
    else if |read.alignedPairs| == 0 then Err(IndexError)
    else
      var start, stop := read.referenceStart, read.referenceEnd.value;
      var refCoords := RefCoords(read, dict[zmwid.value]);
      if !HasTag(read.tags, "ec") then Err(KeyError)
      else
        var smrtCell := SplitOn(read.queryName, '/')[0];
        var count := |refCoords| + 2;
        Ok(Some(BedRow(read.referenceName, start, stop, IntToString(zmwid.value) + "/" + smrtCell,
                       count, Repeat(1, count), [0] + refCoords + [(stop - start) - 1])))
  }

  /** The aligned lines of the reads, in order, or the first exception raised. */
  function AlignedSpec(bamReads: seq<Record>, dict: map<int, seq<int>>): Result<seq<BedRow>>
    reads bamReads
  {
    if |bamReads| == 0 then Ok([])
    else
      var prev := AlignedSpec(bamReads[..|bamReads| - 1], dict);
      var step := AlignedStep(bamReads[|bamReads| - 1], dict);
      if prev.Err? then prev
      else if step.Err? then Err(step.error)
      else if step.value.None? then prev
      else Ok(prev.value + [step.value.value])
  }

  lemma {:induction false} AlignedSpecStops(bamReads: seq<Record>, dict: map<int, seq<int>>, i: nat)
    requires i <= |bamReads| && AlignedSpec(bamReads[..i], dict).Err?
    ensures AlignedSpec(bamReads, dict) == AlignedSpec(bamReads[..i], dict)
    decreases |bamReads| - i
  {
    if i < |bamReads| {
      assert bamReads[..i + 1][..i] == bamReads[..i];
      AlignedSpecStops(bamReads, dict, i + 1);
    } else {
      assert bamReads[..i] == bamReads;
    }
  }

  /** A query position is matched exactly when it is a csv position, or |p - read length| for one on a reverse read. */
  lemma QueryPositionsIn(pos: seq<int>, isReverse: bool, readLength: int, q: int)
    ensures q in QueryPositions(pos, isReverse, readLength) <==>
            exists p :: p in pos && q == if isReverse then Abs(p - readLength) else p
  {
    var qp := QueryPositions(pos, isReverse, readLength);
    if q in qp {
      var j :| 0 <= j < |qp| && qp[j] == q;
      assert pos[j] in pos;
    }
    if exists p :: p in pos && q == if isReverse then Abs(p - readLength) else p {
      var p :| p in pos && q == if isReverse then Abs(p - readLength) else p;
      var j :| 0 <= j < |pos| && pos[j] == p;
      assert qp[j] == q;
    }
  }

  /**
   * A read of a known molecule gets blocks at 0, at each of its reference
   * coordinates and at its last reference base, all of size 1, and is named
   * "zmw/movie".
   */
  lemma AlignedRowShape(read: Record, dict: map<int, seq<int>>)
    requires AlignedStep(read, dict).Ok? && AlignedStep(read, dict).value.Some?
    ensures ZmwId(read.tags).Ok? && ZmwId(read.tags).value in dict
    ensures read.referenceEnd.Some? && |read.alignedPairs| > 0
    ensures read.isReverse ==> read.inferredReadLength.Some?
    ensures var row := AlignedStep(read, dict).value.value;
            && row.blockCount == |row.blockStarts| == |row.blockSizes| >= 2
            && (forall k :: 0 <= k < row.blockCount ==> row.blockSizes[k] == 1)
            && row.blockStarts[0] == 0
            && row.blockStarts[row.blockCount - 1] == read.referenceEnd.value - read.referenceStart - 1
            && row.blockStarts[1..row.blockCount - 1] == RefCoords(read, dict[ZmwId(read.tags).value])
            && row.chrom == read.referenceName
            && row.name == IntToString(ZmwId(read.tags).value) + "/" + SplitOn(read.queryName, '/')[0]
  {
    var row := AlignedStep(read, dict).value.value;
    var hits := RefCoords(read, dict[ZmwId(read.tags).value]);
    assert row.blockStarts == [0] + hits + [(read.referenceEnd.value - read.referenceStart) - 1];
    assert row.blockStarts[1..row.blockCount - 1] == hits;
  }

  /**
   * The exceptions of a read of a known molecule, in the order the loop body
   * meets them (per_molecule_train_gmm.v3.py:146, 155, 156-162 and 181).
   */
  lemma AlignedStepErrors(read: Record, dict: map<int, seq<int>>)
    requires ZmwId(read.tags).Ok? && ZmwId(read.tags).value in dict
    ensures read.referenceEnd.None? ==> AlignedStep(read, dict) == Err(TypeError)
    ensures read.referenceEnd.Some? && read.isReverse && read.inferredReadLength.None? ==>
              AlignedStep(read, dict) == Err(TypeError)
    ensures read.referenceEnd.Some? && (read.isReverse ==> read.inferredReadLength.Some?) ==>
              (AlignedStep(read, dict) == Err(IndexError) <==> |read.alignedPairs| == 0)
    ensures read.referenceEnd.Some? && (read.isReverse ==> read.inferredReadLength.Some?) &&
            |read.alignedPairs| > 0 ==>
              (AlignedStep(read, dict).Err? <==> !HasTag(read.tags, "ec")) &&
              (AlignedStep(read, dict).Err? ==> AlignedStep(read, dict).error == KeyError)
  {
  }

  /** A read is written exactly when its zm tag names a molecule of the dictionary (and nothing raises). */
  lemma AlignedWrittenIff(read: Record, dict: map<int, seq<int>>)
    requires AlignedStep(read, dict).Ok?
    ensures ZmwId(read.tags).Ok?
    ensures AlignedStep(read, dict).value.Some? <==> ZmwId(read.tags).value in dict
  {
  }

  /** The loop of main over the reads of the aligned BAM. */
  method AlignedBed(bamReads: seq<Record>, dict: map<int, seq<int>>) returns (r: Result<seq<BedRow>>)
    ensures r == AlignedSpec(bamReads, dict)
  {
    var alignedFile: seq<BedRow> := [];
    for i := 0 to |bamReads|
      invariant AlignedSpec(bamReads[..i], dict) == Ok(alignedFile)
    {
      assert bamReads[..i + 1][..i] == bamReads[..i];
      var interval := bamReads[i];
      var step := AlignedStep(interval, dict);
      if step.Err? {
        AlignedSpecStops(bamReads, dict, i + 1);
        return Err(step.error);
      }
      if step.value.Some? {
        alignedFile := alignedFile + [step.value.value];
      }
    }
    assert bamReads[..|bamReads|] == bamReads;
    return Ok(alignedFile);
  }
}
