/** Extent accounting: the `count_used_bytes` callback that `diff_iterate`
    drives over the byte range `[0, size)` of an image, and the fallback taken
    when the iteration itself raises.
 */
module Extents {

  /** One record delivered by the extent iterator: the byte range
      `[offset, offset + length)` and whether it is backed by data. */
  datatype Extent = Extent(offset: nat, length: nat, present: bool)

  /** What the extent walk delivers: either it completes with the records it
      handed to the callback, or it raises after handing over `partial`. */
  datatype ScanOutcome = Scanned(extents: seq<Extent>) | Failed(partial: seq<Extent>)

  /** Bytes one record adds to the running total. */
  function Contribution(x: Extent): (n: nat) {
    if x.present then x.length else 0
  }

  /** The running total the callback leaves after seeing `es` in order. */
  function UsedBytes(es: seq<Extent>): (used: nat)
    ensures used <= SumLengths(es)
    ensures used == 0 <==> forall i :: 0 <= i < |es| && es[i].present ==> es[i].length == 0
  {
    if |es| == 0 then 0
    else
      var rest := UsedBytes(es[1..]);
      assert rest == 0 <==> forall i :: 1 <= i < |es| && es[i].present ==> es[i].length == 0 by {
        forall i | 1 <= i < |es| ensures es[i] == es[1..][i - 1] { }
        assert forall i :: 0 <= i < |es[1..]| ==> es[1..][i] == es[i + 1];
      }
      Contribution(es[0]) + rest
  }

  /** The allocated records of `es`, in delivery order. */
  function AllocatedRecords(es: seq<Extent>): (a: seq<Extent>)
    ensures |a| <= |es|
    ensures forall i :: 0 <= i < |a| ==> a[i].present
  {
    if |es| == 0 then []
    else if es[0].present then [es[0]] + AllocatedRecords(es[1..])
    else AllocatedRecords(es[1..])
  }

  /** Plain sum of the `length` fields. */
  function SumLengths(es: seq<Extent>): (total: nat) {
    if |es| == 0 then 0 else es[0].length + SumLengths(es[1..])
  }

  /** The callback total is a homomorphism over concatenation: the order in
      which chunks of the walk are delivered does not matter to the total. */
  lemma {:induction false} UsedBytesAppend(a: seq<Extent>, b: seq<Extent>)
    ensures UsedBytes(a + b) == UsedBytes(a) + UsedBytes(b)
  {
    if |a| == 0 {
      assert a + b == b;
    } else {
      assert (a + b)[1..] == a[1..] + b;
      UsedBytesAppend(a[1..], b);
    }
  }

  /** The used size is exactly the sum of `length` over the records whose
      `exists` flag (here `present`) is set; unallocated records contribute nothing. */
  lemma {:induction false} UsedBytesIsAllocatedSum(es: seq<Extent>)
    ensures UsedBytes(es) == SumLengths(AllocatedRecords(es))
  {
    if |es| != 0 {
      UsedBytesIsAllocatedSum(es[1..]);
      if es[0].present {
        var a := [es[0]] + AllocatedRecords(es[1..]);
        assert a[0] == es[0] && a[1..] == AllocatedRecords(es[1..]);
      }
    }
  }

  /** The accumulation as the source performs it: a counter starting at zero
      to which each allocated record's length is added as it is delivered. */
  method CountUsedBytes(es: seq<Extent>) returns (used: nat)
    ensures used == SumLengths(AllocatedRecords(es))
  {
    used := 0;
    var i := 0;
    while i < |es|
      invariant 0 <= i <= |es|
      invariant used == UsedBytes(es[..i])
    {
      UsedBytesAppend(es[..i], [es[i]]);
      assert es[..i + 1] == es[..i] + [es[i]];
      if es[i].present {
        used := used + es[i].length;
      }
      i := i + 1;
    }
    assert es[..i] == es;
    UsedBytesIsAllocatedSum(es);
  }

  // ---------------------------------------------------------------------
  // Bound: disjoint records inside [0, size) cannot add up to more than size.
  // ---------------------------------------------------------------------

  /** The integers in `[lo, hi)`. */
  ghost function Interval(lo: int, hi: int): set<int>
    decreases hi - lo
  {
    if hi <= lo then {} else Interval(lo, hi - 1) + {hi - 1}
  }

  lemma {:induction false} IntervalMembers(lo: int, hi: int, k: int)
    ensures k in Interval(lo, hi) <==> lo <= k < hi
    decreases hi - lo
  {
    if lo < hi {
      IntervalMembers(lo, hi - 1, k);
    }
  }

  /** The byte addresses a record covers. */
  ghost function Span(x: Extent): set<int> {
    Interval(x.offset, x.offset + x.length)
  }

  /** The byte addresses covered by the allocated records of `es`. */
  ghost function Covered(es: seq<Extent>): set<int> {
    if |es| == 0 then {}
    else (if es[0].present then Span(es[0]) else {}) + Covered(es[1..])
  }

  /** Allocated records never share a byte. */
  ghost predicate Disjoint(es: seq<Extent>) {
    forall i, j :: 0 <= i < j < |es| && es[i].present && es[j].present ==>
      Span(es[i]) * Span(es[j]) == {}
  }

  /** Every allocated record ends at or before `size` (offsets are never
      negative), i.e. lies inside the range the walk was asked for. */
  ghost predicate Within(es: seq<Extent>, size: nat) {
    forall i :: 0 <= i < |es| && es[i].present ==> es[i].offset + es[i].length <= size
  }

  lemma {:induction false} IntervalSize(lo: int, hi: int)
    requires lo <= hi
    ensures |Interval(lo, hi)| == hi - lo
    decreases hi - lo
  {
    if lo < hi {
      IntervalSize(lo, hi - 1);
      IntervalMembers(lo, hi - 1, hi - 1);
    }
  }

  /** An address is covered exactly when some allocated record spans it. */
  lemma {:induction false} CoveredMembers(es: seq<Extent>, k: int)
    ensures k in Covered(es) <==> exists i :: 0 <= i < |es| && es[i].present && k in Span(es[i])
  {
    if |es| != 0 {
      CoveredMembers(es[1..], k);
      if k in Covered(es[1..]) {
        var i :| 0 <= i < |es[1..]| && es[1..][i].present && k in Span(es[1..][i]);
        assert es[i + 1] == es[1..][i];
      }
      if exists i :: 0 <= i < |es| && es[i].present && k in Span(es[i]) {
        var i :| 0 <= i < |es| && es[i].present && k in Span(es[i]);
        if i > 0 {
          assert es[1..][i - 1] == es[i];
        }
      }
    }
  }

  /** Dropping the first record keeps the rest disjoint. */
  lemma DisjointTail(es: seq<Extent>)
    requires |es| > 0 && Disjoint(es)
    ensures Disjoint(es[1..])
  {
    var tail := es[1..];
    forall i, j | 0 <= i < j < |tail| && tail[i].present && tail[j].present
      ensures Span(tail[i]) * Span(tail[j]) == {}
    {
      assert tail[i] == es[i + 1] && tail[j] == es[j + 1];
    }
  }

  /** The first allocated record shares no byte with the ones after it. */
  lemma HeadApart(es: seq<Extent>)
    requires |es| > 0 && es[0].present && Disjoint(es)
    ensures Span(es[0]) * Covered(es[1..]) == {}
  {
    var tail := es[1..];
    forall k | k in Span(es[0])
      ensures k !in Covered(tail)
    {
      CoveredMembers(tail, k);
      forall j | 0 <= j < |tail| && tail[j].present
        ensures k !in Span(tail[j])
      {
        assert tail[j] == es[j + 1];
        assert Span(es[0]) * Span(es[j + 1]) == {};
        assert k !in Span(es[0]) * Span(es[j + 1]);
      }
    }
  }

  /** For disjoint records the covered addresses number exactly the used bytes. */
  lemma {:induction false} CoveredSize(es: seq<Extent>)
    requires Disjoint(es)
    ensures |Covered(es)| == UsedBytes(es)
  {
    if |es| != 0 {
      DisjointTail(es);
      CoveredSize(es[1..]);
      if es[0].present {
        IntervalSize(es[0].offset, es[0].offset + es[0].length);
        HeadApart(es);
      }
    }
  }

  /** Records inside `[0, size)` cover only addresses inside `[0, size)`. */
  lemma {:induction false} CoveredWithin(es: seq<Extent>, size: nat)
    requires Within(es, size)
    ensures Covered(es) <= Interval(0, size)
  {
    forall k | k in Covered(es)
      ensures k in Interval(0, size)
    {
      CoveredMembers(es, k);
      var i :| 0 <= i < |es| && es[i].present && k in Span(es[i]);
      IntervalMembers(es[i].offset, es[i].offset + es[i].length, k);
      IntervalMembers(0, size, k);
    }
  }

  /** The normal-path bound: when the delivered records are disjoint and lie
      inside the requested range, the used size never exceeds `size`. */
  lemma UsedBytesBounded(es: seq<Extent>, size: nat)
    ensures Disjoint(es) && Within(es, size) ==> UsedBytes(es) <= size
  {
    if Disjoint(es) && Within(es, size) {
      CoveredSize(es);
      CoveredWithin(es, size);
      IntervalSize(0, size);
      SubsetCardinality(Covered(es), Interval(0, size));
    }
  }

  lemma SubsetCardinality(a: set<int>, b: set<int>)
    requires a <= b
    ensures |a| <= |b|
  {
    assert b == a + (b - a);
  }

  /** `used_size` after the walk: the callback total when the walk completes,
      the full `size` when it raises (whatever had been counted so far is
      discarded). */
  function UsedSize(scan: ScanOutcome, size: nat): (used: nat)
    ensures scan.Failed? ==> used == size
    ensures scan.Scanned? ==> used == SumLengths(AllocatedRecords(scan.extents))
    ensures scan.Scanned? && Disjoint(scan.extents) && Within(scan.extents, size) ==> used <= size
  {
    match scan
    case Scanned(es) =>
      UsedBytesIsAllocatedSum(es);
      UsedBytesBounded(es, size);
      UsedBytes(es)
    case Failed(_) => size
  }

  /** The 10 GiB example: 1 GiB allocated then 9 GiB of holes gives 1 GiB
      used; a walk that raises part-way gives the full 10 GiB. */
  lemma TenGiBImage()
    ensures UsedSize(Scanned([Extent(0, 1073741824, true), Extent(1073741824, 9663676416, false)]), 10737418240)
            == 1073741824
    ensures UsedSize(Failed([Extent(0, 1073741824, true)]), 10737418240) == 10737418240
  {
  }
}
