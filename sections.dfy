/**
 * The records an XmlBuffer keeps for its closed sections, and the facts about
 * how those records tile the one backing byte stream: back to back from byte 0,
 * no gaps, no overlaps, ending at the running cursor.
 */
module Sections {

  /** One byte of the backing stream. */
  newtype byte = b: int | 0 <= b < 0x100

  /**
   * XmlDictionaryReaderQuotas, treated as an opaque value: the buffer stores a
   * copy of it per section and hands that copy to the section's reader, and
   * never looks inside.
   */
  datatype Quotas = Quotas(
    maxDepth: int,
    maxStringContentLength: int,
    maxArrayLength: int,
    maxBytesPerRead: int,
    maxNameTableCharCount: int)

  /** The Section struct: where a section's bytes start, how many there are, and its quotas. */
  datatype Section = Section(offset: int, size: int, quotas: Quotas) {
    /** One past the last byte of the section. */
    function End(): int { offset + size }
  }

  /** Sum of the sizes of `secs`. */
  function TotalSize(secs: seq<Section>): int
  {
    if secs == [] then 0 else TotalSize(secs[..|secs| - 1]) + secs[|secs| - 1].size
  }

  /** The byte strings of `pieces`, one after another. */
  function Flatten(pieces: seq<seq<byte>>): seq<byte>
  {
    if pieces == [] then [] else Flatten(pieces[..|pieces| - 1]) + pieces[|pieces| - 1]
  }

  /**
   * The layout CloseSection builds: section 0 starts at byte 0, every later
   * section starts where the one before it ends, and no size is negative.
   */
  ghost predicate Contiguous(secs: seq<Section>)
  {
    && (|secs| > 0 ==> secs[0].offset == 0)
    && (forall i :: 0 <= i < |secs| ==> secs[i].size >= 0)
    && (forall i :: 0 <= i < |secs| - 1 ==> secs[i + 1].offset == secs[i].End())
  }

  /** `secs` has one section per piece of `pieces`, each as long as its piece. */
  ghost predicate Records(secs: seq<Section>, pieces: seq<seq<byte>>)
  {
    |secs| == |pieces| && forall i :: 0 <= i < |secs| ==> secs[i].size == |pieces[i]|
  }

  /** Byte position `p` lies inside some section of `secs`. */
  ghost predicate Covered(secs: seq<Section>, p: int)
  {
    exists i :: 0 <= i < |secs| && secs[i].offset <= p < secs[i].End()
  }

  lemma ContiguousPrefix(secs: seq<Section>, k: int)
    requires Contiguous(secs) && 0 <= k <= |secs|
    ensures Contiguous(secs[..k])
  {
  }

  lemma RecordsPrefix(secs: seq<Section>, pieces: seq<seq<byte>>, k: int)
    requires Records(secs, pieces) && 0 <= k <= |secs|
    ensures Records(secs[..k], pieces[..k])
  {
  }

  lemma RecordsAppend(secs: seq<Section>, pieces: seq<seq<byte>>, s: Section, piece: seq<byte>)
    requires Records(secs, pieces) && s.size == |piece|
    ensures Records(secs + [s], pieces + [piece])
  {
  }

  lemma FlattenAppend(pieces: seq<seq<byte>>, piece: seq<byte>)
    ensures Flatten(pieces + [piece]) == Flatten(pieces) + piece
  {
  }

  /** A sum of non-negative sizes is non-negative. */
  lemma {:induction false} TotalSizeNonNegative(secs: seq<Section>)
    requires forall i :: 0 <= i < |secs| ==> secs[i].size >= 0
    ensures TotalSize(secs) >= 0
  {
    if secs != [] {
      var n := |secs| - 1;
      forall i | 0 <= i < n ensures secs[..n][i].size >= 0 {
        assert secs[..n][i] == secs[i];
      }
      TotalSizeNonNegative(secs[..n]);
    }
  }

  /** With non-negative sizes, a prefix never totals more than the whole. */
  lemma {:induction false} PrefixTotalAtMost(secs: seq<Section>, k: int)
    requires forall i :: 0 <= i < |secs| ==> secs[i].size >= 0
    requires 0 <= k <= |secs|
    ensures 0 <= TotalSize(secs[..k]) <= TotalSize(secs)
  {
    if k == |secs| {
      assert secs[..k] == secs;
      TotalSizeNonNegative(secs);
    } else {
      var n := |secs| - 1;
      forall i | 0 <= i < n ensures secs[..n][i].size >= 0 {
        assert secs[..n][i] == secs[i];
      }
      PrefixTotalAtMost(secs[..n], k);
      assert secs[..n][..k] == secs[..k];
    }
  }

  /** Every section of a contiguous layout starts at the total size of the sections before it. */
  lemma {:induction false} OffsetIsTotalBefore(secs: seq<Section>, i: int)
    requires Contiguous(secs) && 0 <= i < |secs|
    ensures secs[i].offset == TotalSize(secs[..i])
  {
    if i > 0 {
      OffsetIsTotalBefore(secs, i - 1);
      assert secs[..i][..i - 1] == secs[..i - 1];
      assert secs[..i][i - 1] == secs[i - 1];
    }
  }

  /** The last section of a contiguous layout ends at the total size. */
  lemma TotalIsLastEnd(secs: seq<Section>)
    requires Contiguous(secs) && |secs| > 0
    ensures TotalSize(secs) == secs[|secs| - 1].End()
  {
  }

  /** Every section of a contiguous layout lies inside [0, TotalSize(secs)). */
  lemma SectionWithinTotal(secs: seq<Section>, i: int)
    requires Contiguous(secs) && 0 <= i < |secs|
    ensures 0 <= secs[i].offset <= secs[i].End() <= TotalSize(secs)
  {
    OffsetIsTotalBefore(secs, i);
    PrefixTotalAtMost(secs, i);
    PrefixTotalAtMost(secs, i + 1);
    assert secs[..i + 1][..i] == secs[..i];
  }

  /** Sections of a contiguous layout do not overlap: an earlier one ends before a later one starts. */
  lemma SectionsDisjoint(secs: seq<Section>, i: int, j: int)
    requires Contiguous(secs) && 0 <= i < j < |secs|
    ensures secs[i].End() <= secs[j].offset
  {
    OffsetIsTotalBefore(secs, j);
    ContiguousPrefix(secs, j);
    SectionWithinTotal(secs[..j], i);
    assert secs[..j][i] == secs[i];
  }

  /**
   * Every byte position below the total size belongs to exactly one section:
   * together the sections span [0, TotalSize(secs)) with no gap and no overlap.
   */
  lemma {:induction false} OwningSection(secs: seq<Section>, p: int) returns (i: int)
    requires Contiguous(secs) && 0 <= p < TotalSize(secs)
    ensures 0 <= i < |secs| && secs[i].offset <= p < secs[i].End()
    ensures forall j :: 0 <= j < |secs| && secs[j].offset <= p < secs[j].End() ==> j == i
  {
    var n := |secs| - 1;
    OffsetIsTotalBefore(secs, n);
    if p >= secs[n].offset {
      i := n;
    } else {
      ContiguousPrefix(secs, n);
      i := OwningSection(secs[..n], p);
      assert secs[..n][i] == secs[i];
    }
    forall j | 0 <= j < |secs| && secs[j].offset <= p < secs[j].End() ensures j == i {
      if j < i {
        SectionsDisjoint(secs, j, i);
      } else if i < j {
        SectionsDisjoint(secs, i, j);
      }
    }
  }

  /**
   * What CloseSection relies on: a section that starts at the running total
   * and has a non-negative size extends the layout, and the new total is its end.
   */
  lemma AppendKeepsContiguous(secs: seq<Section>, s: Section)
    requires Contiguous(secs) && s.offset == TotalSize(secs) && s.size >= 0
    ensures Contiguous(secs + [s])
    ensures TotalSize(secs + [s]) == s.End()
  {
    if |secs| > 0 {
      TotalIsLastEnd(secs);
    }
    assert (secs + [s])[..|secs|] == secs;
  }

  /** The sizes recorded for `pieces` add up to the length of their concatenation. */
  lemma {:induction false} TotalIsFlattenLength(secs: seq<Section>, pieces: seq<seq<byte>>)
    requires Records(secs, pieces)
    ensures TotalSize(secs) == |Flatten(pieces)|
  {
    if secs != [] {
      var n := |secs| - 1;
      RecordsPrefix(secs, pieces, n);
      TotalIsFlattenLength(secs[..n], pieces[..n]);
    }
  }

  /**
   * The round trip of a section: when the sections record `pieces` in a
   * contiguous layout, the byte range of section i in the concatenation of
   * all pieces is exactly piece i.
   */
  lemma {:induction false} SliceIsPiece(secs: seq<Section>, pieces: seq<seq<byte>>, i: int)
    requires Contiguous(secs) && Records(secs, pieces) && 0 <= i < |secs|
    ensures 0 <= secs[i].offset <= secs[i].End() <= |Flatten(pieces)|
    ensures Flatten(pieces)[secs[i].offset..secs[i].End()] == pieces[i]
  {
    var n := |secs| - 1;
    RecordsPrefix(secs, pieces, n);
    TotalIsFlattenLength(secs[..n], pieces[..n]);
    TotalIsFlattenLength(secs, pieces);
    SectionWithinTotal(secs, i);
    var front := Flatten(pieces[..n]);
    assert Flatten(pieces) == front + pieces[n];
    if i == n {
      OffsetIsTotalBefore(secs, n);
      assert Flatten(pieces)[|front|..|front| + |pieces[n]|] == pieces[n];
    } else {
      ContiguousPrefix(secs, n);
      SliceIsPiece(secs[..n], pieces[..n], i);
      assert secs[..n][i] == secs[i] && pieces[..n][i] == pieces[i];
      assert Flatten(pieces)[secs[i].offset..secs[i].End()] == front[secs[i].offset..secs[i].End()];
    }
  }
}
