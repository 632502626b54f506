/**
 * Shared vocabulary of the model: Python's failure modes, numpy's indexing
 * with negative indices, sorted integer sequences (numpy's sort), counting a
 * base in a sequence (numpy's cumsum of a mask), decimal rendering and comma
 * joining (`",".join(map(str, xs))`) and Python's `str.split` on a single
 * character.
 */
module Common {

  datatype Option<T> = None | Some(value: T)

  /** The Python exceptions that the modelled scripts can raise. */
  datatype PyError =
    | IndexError         // an index past the end of a list or array
    | KeyError           // a missing dictionary key or BAM tag
    | ValueError         // int() of a non-number, np.concatenate of no arrays
    | TypeError          // `key in None`
    | ZeroDivisionError  // divmod(x, 0)
    | AssertionError     // a failed `assert`

  datatype Result<T> = Ok(value: T) | Err(error: PyError)

  // ---------------------------------------------------------------------------
  // numpy fancy indexing: `sequence[coords]` accepts -n <= c < n

  predicate ValidIndex(n: nat, c: int) {
    -(n as int) <= c < n
  }

  predicate AllValid(n: nat, coords: seq<int>) {
    forall i :: 0 <= i < |coords| ==> ValidIndex(n, coords[i])
  }

  predicate InRange(n: nat, p: seq<int>) {
    forall i :: 0 <= i < |p| ==> 0 <= p[i] < n
  }

  /** The element numpy reads for index c: negative indices count from the end. */
  function Wrap(n: nat, c: int): (r: int)
    requires ValidIndex(n, c)
    ensures 0 <= r < n
    ensures c >= 0 ==> r == c
    ensures c < 0 ==> r == c + n
  {
    if c < 0 then c + n else c
  }

  /** The positions that `sequence[coords]` and `cumsum(mask)[coords]` read. */
  function Positions(n: nat, coords: seq<int>): (p: seq<int>)
    requires AllValid(n, coords)
    ensures |p| == |coords| && InRange(n, p)
    ensures forall i :: 0 <= i < |coords| ==> p[i] == Wrap(n, coords[i])
  {
    seq(|coords|, i requires 0 <= i < |coords| => Wrap(n, coords[i]))
  }

  // ---------------------------------------------------------------------------
  // Sorted sequences

  predicate Sorted(s: seq<int>) {
    forall i, j :: 0 <= i < j < |s| ==> s[i] <= s[j]
  }

  predicate StrictlyIncreasing(s: seq<int>) {
    forall i, j :: 0 <= i < j < |s| ==> s[i] < s[j]
  }

  /** Inserts x before the first element that is not smaller than it. */
  function Insert(x: int, s: seq<int>): (r: seq<int>)
    requires Sorted(s)
    ensures Sorted(r)
    ensures multiset(r) == multiset(s) + multiset{x}
    ensures |r| == |s| + 1
  {
    if |s| == 0 then [x]
    else if x <= s[0] then [x] + s
    else
      var tail := Insert(x, s[1..]);
      assert s == [s[0]] + s[1..];
      LowerBoundKept(s[0], tail, s[1..], x);
      [s[0]] + tail
  }

  /** A bound below every element of u and below x stays below every element of u with x added. */
  lemma LowerBoundKept(lo: int, t: seq<int>, u: seq<int>, x: int)
    requires multiset(t) == multiset(u) + multiset{x}
    requires lo <= x && forall k :: 0 <= k < |u| ==> lo <= u[k]
    ensures forall k :: 0 <= k < |t| ==> lo <= t[k]
  {
    forall k | 0 <= k < |t|
      ensures lo <= t[k]
    {
      assert t[k] in multiset(t);
      if t[k] != x {
        assert t[k] in multiset(u);
        var j :| 0 <= j < |u| && u[j] == t[k];
      }
    }
  }

  /**
   * The value numpy's `sort(kind="mergesort")` leaves in an integer array:
   * by SortedPermutationUnique it is the only sorted rearrangement of the input.
   */
  function SortSeq(s: seq<int>): (r: seq<int>)
    ensures Sorted(r)
    ensures multiset(r) == multiset(s)
    ensures |r| == |s|
  {
    if |s| == 0 then []
    else
      assert s == [s[0]] + s[1..];
      Insert(s[0], SortSeq(s[1..]))
  }

  lemma SortedTail(s: seq<int>)
    requires Sorted(s) && |s| > 0
    ensures Sorted(s[1..])
  {
  }

  /** The least element of a sorted sequence is its head. */
  lemma SortedHeadIsMin(s: seq<int>, x: int)
    requires Sorted(s) && |s| > 0 && x in multiset(s)
    ensures s[0] <= x
  {
    var k :| 0 <= k < |s| && s[k] == x;
  }

  /** Two sorted sequences with the same elements are equal. */
  lemma {:induction false} SortedPermutationUnique(a: seq<int>, b: seq<int>)
    requires Sorted(a) && Sorted(b)
    requires multiset(a) == multiset(b)
    ensures a == b
  {
    if |a| == 0 {
      assert |b| == |multiset(b)| == 0;
    } else {
      assert |b| == |multiset(b)| == |multiset(a)| == |a|;
      assert a[0] in multiset(b) by { assert a[0] in multiset(a); }
      assert b[0] in multiset(a) by { assert b[0] in multiset(b); }
      SortedHeadIsMin(b, a[0]);
      SortedHeadIsMin(a, b[0]);
      assert a == [a[0]] + a[1..];
      assert b == [b[0]] + b[1..];
      assert a[0] == b[0];
      assert multiset(a) == multiset{a[0]} + multiset(a[1..]);
      assert multiset(b) == multiset{b[0]} + multiset(b[1..]);
      assert multiset(a[1..]) == multiset(a) - multiset{a[0]};
      assert multiset(b[1..]) == multiset(b) - multiset{b[0]};
      SortedTail(a);
      SortedTail(b);
      SortedPermutationUnique(a[1..], b[1..]);
    }
  }

  /** Taking one more element of a prefix appends that element. */
  lemma SliceSnoc<T>(s: seq<T>, i: nat)
    requires i < |s|
    ensures s[..i + 1] == s[..i] + [s[i]]
  {
  }

  // ---------------------------------------------------------------------------
  // Concatenation (np.concatenate of a list of arrays)

  function Flatten<T>(parts: seq<seq<T>>): seq<T> {
    if |parts| == 0 then [] else parts[0] + Flatten(parts[1..])
  }

  function TotalLength<T>(parts: seq<seq<T>>): nat {
    if |parts| == 0 then 0 else |parts[0]| + TotalLength(parts[1..])
  }

  lemma {:induction false} FlattenLength<T>(parts: seq<seq<T>>)
    ensures |Flatten(parts)| == TotalLength(parts)
  {
    if |parts| > 0 {
      FlattenLength(parts[1..]);
    }
  }

  lemma {:induction false} FlattenAppend<T>(parts: seq<seq<T>>, p: seq<T>)
    ensures Flatten(parts + [p]) == Flatten(parts) + p
  {
    if |parts| == 0 {
      assert parts + [p] == [p];
    } else {
      assert (parts + [p])[1..] == parts[1..] + [p];
      FlattenAppend(parts[1..], p);
    }
  }

  // ---------------------------------------------------------------------------
  // Counting occurrences (np.cumsum over `sequence == base`)

  function Occurrences<T(==)>(s: seq<T>, x: T): nat {
    if |s| == 0 then 0 else (if s[0] == x then 1 else 0) + Occurrences(s[1..], x)
  }

  lemma {:induction false} OccurrencesAppend<T>(a: seq<T>, b: seq<T>, x: T)
    ensures Occurrences(a + b, x) == Occurrences(a, x) + Occurrences(b, x)
  {
    if |a| == 0 {
      assert a + b == b;
    } else {
      assert (a + b)[1..] == a[1..] + b;
      OccurrencesAppend(a[1..], b, x);
    }
  }

  /** Extending a prefix by one element adds one exactly when that element is x. */
  lemma OccurrencesPrefixStep<T>(s: seq<T>, c: nat, x: T)
    requires c < |s|
    ensures Occurrences(s[..c + 1], x) == Occurrences(s[..c], x) + (if s[c] == x then 1 else 0)
  {
    assert s[..c + 1] == s[..c] + [s[c]];
    OccurrencesAppend(s[..c], [s[c]], x);
    assert [s[c]][1..] == [];
  }

  /** Counting up to a later index never gives less. */
  lemma OccurrencesPrefixMonotone<T>(s: seq<T>, i: nat, j: nat, x: T)
    requires i <= j <= |s|
    ensures Occurrences(s[..i], x) + Occurrences(s[i..j], x) == Occurrences(s[..j], x)
  {
    assert s[..j] == s[..i] + s[i..j];
    OccurrencesAppend(s[..i], s[i..j], x);
  }

  // ---------------------------------------------------------------------------
  // Decimal rendering and comma joining

  function DigitChar(d: nat): (c: char)
    requires d < 10
    ensures '0' <= c <= '9'
    ensures c == '0' <==> d == 0
  {
    "0123456789"[d]
  }

  /** str(n) for a non-negative integer: no leading zeros. */
  function NatToString(n: nat): (s: string)
    decreases n
  {
    if n < 10 then [DigitChar(n)] else NatToString(n / 10) + [DigitChar(n % 10)]
  }

  /** str(i) for any integer. */
  function IntToString(i: int): string {
    if i < 0 then "-" + NatToString(-i) else NatToString(i)
  }

  /** The two literals the scripts write directly: str(0) and str(1). */
  lemma ZeroOneStrings()
    ensures IntToString(0) == "0" && IntToString(1) == "1"
  {
    assert DigitChar(0) == '0' && DigitChar(1) == '1';
  }

  /** `",".join(str(x) for x in xs)`. */
  function Join(xs: seq<int>): string {
    if |xs| == 0 then ""
    else if |xs| == 1 then IntToString(xs[0])
    else IntToString(xs[0]) + "," + Join(xs[1..])
  }

  lemma {:induction false} NatToStringDigits(n: nat)
    ensures |NatToString(n)| > 0
    ensures forall k :: 0 <= k < |NatToString(n)| ==> '0' <= NatToString(n)[k] <= '9'
    ensures NatToString(n)[0] == '0' <==> n == 0
    decreases n
  {
    if n >= 10 {
      NatToStringDigits(n / 10);
      assert NatToString(n)[0] == NatToString(n / 10)[0];
    }
  }

  /** A character that never occurs in a decimal rendering. */
  predicate Separator(c: char) {
    !('0' <= c <= '9') && c != '-'
  }

  /** The decimal rendering of an integer is not empty and holds no separator. */
  lemma IntToStringShape(i: int)
    ensures |IntToString(i)| > 0
    ensures Occurrences(IntToString(i), ',') == 0
    ensures IntToString(i)[0] == '0' <==> i == 0
  {
    IntToStringNoSeparator(i, ',');
    if i < 0 {
      NatToStringDigits(-i);
    } else {
      NatToStringDigits(i);
    }
  }

  lemma IntToStringNoSeparator(i: int, c: char)
    requires Separator(c)
    ensures Occurrences(IntToString(i), c) == 0
  {
    if i < 0 {
      NatToStringDigits(-i);
      NoSeparatorInDigits(NatToString(-i), c);
      OccurrencesAppend("-", NatToString(-i), c);
    } else {
      NatToStringDigits(i);
      NoSeparatorInDigits(NatToString(i), c);
    }
  }

  lemma {:induction false} NoSeparatorInDigits(s: string, c: char)
    requires forall k :: 0 <= k < |s| ==> '0' <= s[k] <= '9'
    requires Separator(c)
    ensures Occurrences(s, c) == 0
  {
    if |s| > 0 {
      NoSeparatorInDigits(s[1..], c);
    }
  }

  /** A join holds no separator other than its commas. */
  lemma {:induction false} JoinNoSeparator(xs: seq<int>, c: char)
    requires Separator(c) && c != ','
    ensures Occurrences(Join(xs), c) == 0
  {
    if |xs| == 1 {
      IntToStringNoSeparator(xs[0], c);
    } else if |xs| > 1 {
      IntToStringNoSeparator(xs[0], c);
      JoinNoSeparator(xs[1..], c);
      OccurrencesAppend(IntToString(xs[0]) + ",", Join(xs[1..]), c);
      OccurrencesAppend(IntToString(xs[0]), ",", c);
    }
  }

  /** A join of n >= 1 fields has n - 1 commas; the join of no fields is "". */
  lemma {:induction false} JoinCommas(xs: seq<int>)
    ensures Occurrences(Join(xs), ',') == if |xs| == 0 then 0 else |xs| - 1
    ensures |xs| == 0 <==> Join(xs) == ""
  {
    if |xs| == 1 {
      IntToStringShape(xs[0]);
    } else if |xs| > 1 {
      IntToStringShape(xs[0]);
      JoinCommas(xs[1..]);
      OccurrencesAppend(IntToString(xs[0]) + ",", Join(xs[1..]), ',');
      OccurrencesAppend(IntToString(xs[0]), ",", ',');
    }
  }

  /** The first character of a join is '0' exactly when the first field is 0. */
  lemma JoinFirstChar(xs: seq<int>)
    requires |xs| > 0
    ensures |Join(xs)| > 0
    ensures Join(xs)[0] == '0' <==> xs[0] == 0
  {
    IntToStringShape(xs[0]);
  }

  /** `[v] * n` in Python. */
  function Repeat(v: int, n: nat): (r: seq<int>)
    ensures |r| == n && forall k :: 0 <= k < n ==> r[k] == v
  {
    seq(n, _ => v)
  }

  // ---------------------------------------------------------------------------
  // Python's `s.split(sep)` for a one-character separator

  function SplitOn(s: string, sep: char): (parts: seq<string>)
    ensures |parts| == Occurrences(s, sep) + 1
    ensures forall k :: 0 <= k < |parts| ==> Occurrences(parts[k], sep) == 0
  {
    if |s| == 0 then [""]
    else
      var rest := SplitOn(s[1..], sep);
      if s[0] == sep then [""] + rest
      else
        assert Occurrences([s[0]] + rest[0], sep) == Occurrences(rest[0], sep) by {
          OccurrencesAppend([s[0]], rest[0], sep);
        }
        [[s[0]] + rest[0]] + rest[1..]
  }

  /** A string without the separator is its own only field. */
  lemma {:induction false} SplitOnNoSeparator(s: string, sep: char)
    requires Occurrences(s, sep) == 0
    ensures SplitOn(s, sep) == [s]
  {
    if |s| > 0 {
      SplitOnNoSeparator(s[1..], sep);
      assert s == [s[0]] + s[1..];
    }
  }

  /** Splitting `a + [sep] + b` with no separator in `a` gives `a`, then the fields of `b`. */
  lemma {:induction false} SplitOnPrefix(a: string, sep: char, b: string)
    requires Occurrences(a, sep) == 0
    ensures SplitOn(a + [sep] + b, sep) == [a] + SplitOn(b, sep)
  {
    if |a| == 0 {
      assert a + [sep] + b == [sep] + b;
      assert ([sep] + b)[1..] == b;
    } else {
      assert (a + [sep] + b)[1..] == a[1..] + [sep] + b;
      SplitOnPrefix(a[1..], sep, b);
      assert a == [a[0]] + a[1..];
    }
  }

  /** `sep.join(parts)` for strings. */
  function JoinWith(parts: seq<string>, sep: char): string {
    if |parts| == 0 then ""
    else if |parts| == 1 then parts[0]
    else parts[0] + [sep] + JoinWith(parts[1..], sep)
  }

  /** Splitting and re-joining with the same separator gives the string back. */
  lemma {:induction false} SplitOnJoin(s: string, sep: char)
    ensures JoinWith(SplitOn(s, sep), sep) == s
  {
    if |s| > 0 {
      SplitOnJoin(s[1..], sep);
      var rest := SplitOn(s[1..], sep);
      if s[0] == sep {
        assert s == [sep] + s[1..];
      } else {
        var parts := SplitOn(s, sep);
        assert parts[0] == [s[0]] + rest[0];
        assert parts[1..] == rest[1..];
        if |rest| == 1 {
          assert JoinWith(rest, sep) == rest[0];
        } else {
          assert JoinWith(rest, sep) == rest[0] + [sep] + JoinWith(rest[1..], sep);
        }
        assert s == [s[0]] + s[1..];
      }
    }
  }
}
