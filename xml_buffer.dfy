/**
 * XmlBuffer: a write-once, read-many buffer that collects several binary-XML
 * sections in one backing stream, seals them into one byte array, and then
 * hands out a reader per section over that section's byte range.
 */
module XmlBuffers {
  import opened Sections

  /** The BufferState enum. */
  datatype BufferState = Created | Writing | Reading

  /** The two exceptions the buffer raises: InvalidOperationException and ArgumentOutOfRangeException. */
  datatype Error = InvalidState | OutOfRange

  /** Outcome of an operation that returns nothing but may throw. */
  datatype Status = Ok | Failed(error: Error)

  /** Outcome of an operation that returns a value but may throw. */
  datatype Result<T> = Success(value: T) | Failure(error: Error)

  datatype Option<T> = None | Some(value: T)

  /**
   * The `writer` field: null until the first OpenSection, the live encoder
   * while a section is open, a closed encoder after CloseSection, and null
   * again once the buffer is sealed.
   */
  datatype WriterSlot = NoWriter | OpenWriter | ClosedWriter

  /** What the binary XML reader of a section is built from: its byte range and its quotas. */
  datatype SectionReader = SectionReader(bytes: seq<byte>, quotas: Quotas)

  /** The external XmlWriter that WriteTo copies a section into, as the readers it has been fed. */
  class TargetWriter {
    var fed: seq<SectionReader>

    constructor ()
      ensures fed == []
    {
      fed := [];
    }

    /** XmlWriter.WriteNode: copy every node of `reader` into this writer. */
    method WriteNode(reader: SectionReader)
      modifies this
      ensures fed == old(fed) + [reader]
    {
      fed := fed + [reader];
    }
  }

  class XmlBuffer {
    var sections: seq<Section>
    var buffer: array?<byte>
    var offset: int
    var stream: Option<seq<byte>>
    var bufferState: BufferState
    var writer: WriterSlot
    var quotas: Option<Quotas>

    /** The bytes written into each closed section, in order. */
    ghost var written: seq<seq<byte>>
    /** The bytes written into the open section so far. */
    ghost var pending: seq<byte>

    /**
     * The object invariant. The sections tile the stream from byte 0 up to the
     * cursor `offset`; each records the bytes written while it was open; the
     * writer is live exactly in the Writing state; before sealing the stream
     * holds everything written, and after sealing the stream is gone and
     * `buffer` holds it instead.
     */
    ghost predicate Valid()
      reads this, buffer
    {
      && Contiguous(sections)
      && offset == TotalSize(sections)
      && Records(sections, written)
      && (bufferState == Writing <==> writer == OpenWriter)
      && (bufferState != Writing ==> pending == [])
      && (bufferState == Writing ==> quotas.Some?)
      && match bufferState
         case Created => stream == Some(Flatten(written)) && buffer == null
         case Writing => stream == Some(Flatten(written) + pending) && buffer == null
         case Reading =>
           stream == None && writer == NoWriter && buffer != null && buffer[..] == Flatten(written)
    }

    /** The state the source's constructor leaves behind once it has accepted `maxBufferSize`. */
    constructor ()
      ensures Valid()
      ensures bufferState == Created && sections == [] && offset == 0 && stream == Some([])
      ensures buffer == null && writer == NoWriter && quotas == None
      ensures written == [] && pending == []
    {
      sections := [];
      buffer := null;
      offset := 0;
      stream := Some([]);
      bufferState := Created;
      writer := NoWriter;
      quotas := None;
      written := [];
      pending := [];
    }

    /**
     * The public constructor XmlBuffer(maxBufferSize): a negative bound is
     * rejected with OutOfRange; any other bound gives an empty buffer in the
     * Created state with no sections and the cursor at 0. The bound is not kept.
     */
    static method Create(maxBufferSize: int) returns (r: Result<XmlBuffer>)
      ensures r.Failure? <==> maxBufferSize < 0
      ensures r.Failure? ==> r.error == OutOfRange
      ensures r.Success? ==> fresh(r.value) && r.value.Valid()
      ensures r.Success? ==>
        && r.value.bufferState == Created && r.value.sections == [] && r.value.offset == 0
        && r.value.stream == Some([]) && r.value.buffer == null && r.value.writer == NoWriter
        && r.value.written == []
    {
      if maxBufferSize < 0 {
        return Failure(OutOfRange);
      }
      var b := new XmlBuffer();
      r := Success(b);
    }

    /** The SectionCount property: the number of sections closed so far. */
    method SectionCount() returns (n: nat)
      requires Valid()
      ensures n == |sections| && n == |written|
    {
      n := |sections|;
    }

    /**
     * Opens a section: legal only in Created (so a second open, or an open after
     * sealing, fails with InvalidState and changes nothing). On success the
     * buffer is Writing with a live writer and holds its own copy of `q`.
     */
    method OpenSection(q: Quotas) returns (status: Status)
      requires Valid()
      modifies this
      ensures Valid()
      ensures status == if old(bufferState) == Created then Ok else Failed(InvalidState)
      ensures status.Failed? ==> unchanged(this)
      ensures status.Ok? ==>
        && bufferState == Writing && writer == OpenWriter && quotas == Some(q)
        && sections == old(sections) && offset == old(offset) && stream == old(stream)
        && buffer == old(buffer) && written == old(written) && pending == []
    {
      if bufferState != Created {
        return Failed(InvalidState);
      }
      assert Flatten(written) + pending == Flatten(written);
      bufferState := Writing;
      quotas := Some(q);
      writer := OpenWriter;
      status := Ok;
    }

    /**
     * Stands in for the encoder OpenSection returns: appends `bs` at the end
     * of the stream. Only the live writer can write; a closed or absent one
     * fails with InvalidState.
     */
    method WriteBytes(bs: seq<byte>) returns (status: Status)
      requires Valid()
      modifies this
      ensures Valid()
      ensures status == if old(writer) == OpenWriter then Ok else Failed(InvalidState)
      ensures status.Failed? ==> unchanged(this)
      ensures status.Ok? ==>
        && old(stream).Some? && stream == Some(old(stream).value + bs)
        && pending == old(pending) + bs
        && bufferState == old(bufferState) && writer == old(writer) && quotas == old(quotas)
        && sections == old(sections) && offset == old(offset) && buffer == old(buffer)
        && written == old(written)
    {
      if writer != OpenWriter {
        return Failed(InvalidState);
      }
      assert stream.value + bs == Flatten(written) + (pending + bs);
      stream := Some(stream.value + bs);
      pending := pending + bs;
      status := Ok;
    }

    /**
     * Closes the open section: legal only in Writing. On success the buffer is
     * back in Created, exactly one section is appended, starting at the old
     * cursor and as long as the bytes written since the open (zero for an
     * empty section), with the quotas copied at open; the cursor moves to the
     * end of the stream.
     */
    method CloseSection() returns (status: Status)
      requires Valid()
      modifies this
      ensures Valid()
      ensures status == if old(bufferState) == Writing then Ok else Failed(InvalidState)
      ensures status.Failed? ==> unchanged(this)
      ensures status.Ok? ==>
        && old(stream).Some? && old(quotas).Some?
        && sections == old(sections) + [Section(old(offset), |old(stream).value| - old(offset), old(quotas).value)]
        && sections[|sections| - 1].size == |old(pending)|
        && offset == |old(stream).value|
        && bufferState == Created && writer == ClosedWriter
        && stream == old(stream) && quotas == old(quotas) && buffer == old(buffer)
        && written == old(written) + [old(pending)] && pending == []
    {
      if bufferState != Writing {
        return Failed(InvalidState);
      }
      var size := |stream.value| - offset;
      var section := Section(offset, size, quotas.value);
      TotalIsFlattenLength(sections, written);
      assert size == |pending|;
      AppendKeepsContiguous(sections, section);
      RecordsAppend(sections, written, section, pending);
      FlattenAppend(written, pending);
      writer := ClosedWriter;
      bufferState := Created;
      sections := sections + [section];
      offset := offset + size;
      written := written + [pending];
      pending := [];
      status := Ok;
    }

    /**
     * Seals the buffer: legal only in Created (so sealing while a section is
     * open, or sealing twice, fails with InvalidState). On success the state
     * is Reading, which no operation leaves; `buffer` is a new array holding
     * the whole stream, as long as the cursor; writer and stream are dropped.
     */
    method Close() returns (status: Status)
      requires Valid()
      modifies this
      ensures Valid()
      ensures status == if old(bufferState) == Created then Ok else Failed(InvalidState)
      ensures status.Failed? ==> unchanged(this)
      ensures status.Ok? ==>
        && old(stream).Some? && buffer != null && fresh(buffer)
        && buffer[..] == old(stream).value && buffer.Length == offset
        && bufferState == Reading && stream == None && writer == NoWriter
        && sections == old(sections) && offset == old(offset) && quotas == old(quotas)
        && written == old(written) && pending == old(pending)
    {
      if bufferState != Created {
        return Failed(InvalidState);
      }
      bufferState := Reading;
      var bytes := stream.value;
      buffer := new byte[|bytes|](i requires 0 <= i < |bytes| => bytes[i]);
      assert buffer[..] == bytes;
      TotalIsFlattenLength(sections, written);
      writer := NoWriter;
      stream := None;
      status := Ok;
    }

    /**
     * The BufferSize property, read once the buffer is sealed: the sealed
     * length, which is the cursor and the end of the last section. The
     * sections lie inside it, do not overlap, and together cover every byte
     * position below it.
     */
    method BufferSize() returns (n: int)
      requires Valid() && bufferState == Reading
      ensures n == buffer.Length && n == offset
      ensures |sections| > 0 ==> n == sections[|sections| - 1].End()
      ensures forall i :: 0 <= i < |sections| ==> 0 <= sections[i].offset <= sections[i].End() <= n
      ensures forall i, j :: 0 <= i < j < |sections| ==> sections[i].End() <= sections[j].offset
      ensures forall p :: 0 <= p < n ==> Covered(sections, p)
    {
      n := buffer.Length;
      TotalIsFlattenLength(sections, written);
      if |sections| > 0 {
        TotalIsLastEnd(sections);
      }
      forall i | 0 <= i < |sections| ensures 0 <= sections[i].offset <= sections[i].End() <= n {
        SectionWithinTotal(sections, i);
      }
      forall i, j | 0 <= i < j < |sections| ensures sections[i].End() <= sections[j].offset {
        SectionsDisjoint(sections, i, j);
      }
      forall p | 0 <= p < n ensures Covered(sections, p) {
        var i := OwningSection(sections, p);
      }
    }

    /**
     * GetReader: fails with InvalidState unless sealed, and with OutOfRange for
     * an index outside [0, SectionCount). Otherwise the reader is given exactly
     * the section's byte range of `buffer` and its stored quotas, and those
     * bytes are exactly the ones written while that section was open.
     */
    method GetReader(sectionIndex: int) returns (r: Result<SectionReader>)
      requires Valid()
      ensures bufferState != Reading ==> r == Failure(InvalidState)
      ensures bufferState == Reading && !(0 <= sectionIndex < |sections|) ==> r == Failure(OutOfRange)
      ensures bufferState == Reading && 0 <= sectionIndex < |sections| ==>
        && buffer != null
        && 0 <= sections[sectionIndex].offset <= sections[sectionIndex].End() <= buffer.Length
        && r == Success(SectionReader(
                  buffer[sections[sectionIndex].offset..sections[sectionIndex].End()],
                  sections[sectionIndex].quotas))
        && r.value.bytes == written[sectionIndex]
    {
      if bufferState != Reading {
        return Failure(InvalidState);
      }
      if !(0 <= sectionIndex < |sections|) {
        return Failure(OutOfRange);
      }
      var section := sections[sectionIndex];
      SliceIsPiece(sections, written, sectionIndex);
      r := Success(SectionReader(buffer[section.offset..section.End()], section.quotas));
    }

    /**
     * WriteTo: the same failures as GetReader, in which case `target` is left
     * alone; otherwise the section's reader is copied into `target`. The
     * buffer itself is never changed.
     */
    method WriteTo(sectionIndex: int, target: TargetWriter) returns (status: Status)
      requires Valid()
      modifies target
      ensures bufferState != Reading ==> status == Failed(InvalidState) && unchanged(target)
      ensures bufferState == Reading && !(0 <= sectionIndex < |sections|) ==>
        status == Failed(OutOfRange) && unchanged(target)
      ensures bufferState == Reading && 0 <= sectionIndex < |sections| ==>
        && status == Ok
        && target.fed == old(target.fed) + [SectionReader(written[sectionIndex], sections[sectionIndex].quotas)]
    {
      if bufferState != Reading {
        return Failed(InvalidState);
      }
      var reader := GetReader(sectionIndex);
      if reader.Failure? {
        return Failed(reader.error);
      }
      target.WriteNode(reader.value);
      status := Ok;
    }
  }

  /** One full write pass: open a section with `q`, write `bs` through its writer, close it. */
  method AppendSection(buf: XmlBuffer, q: Quotas, bs: seq<byte>)
    requires buf.Valid() && buf.bufferState == Created
    modifies buf
    ensures buf.Valid() && buf.bufferState == Created && buf.buffer == old(buf.buffer)
    ensures buf.written == old(buf.written) + [bs]
    ensures buf.sections == old(buf.sections) + [Section(old(buf.offset), |bs|, q)]
  {
    var s := buf.OpenSection(q);
    s := buf.WriteBytes(bs);
    assert buf.pending == bs;
    s := buf.CloseSection();
  }

  /**
   * The two-section scenario: open with q1, write `a`, close; open with q2,
   * write `b`, close; seal. There are two sections, reader 0 sees exactly `a`
   * with q1, reader 1 exactly `b` with q2, reader 2 is out of range, and the
   * sealed size is the two lengths together.
   */
  method TwoSectionScenario(q1: Quotas, q2: Quotas, a: seq<byte>, b: seq<byte>)
    returns (count: nat, size: int, r0: Result<SectionReader>, r1: Result<SectionReader>,
             r2: Result<SectionReader>)
    ensures count == 2 && size == |a| + |b|
    ensures r0 == Success(SectionReader(a, q1))
    ensures r1 == Success(SectionReader(b, q2))
    ensures r2 == Failure(OutOfRange)
  {
    var created := XmlBuffer.Create(1024);
    var buf := created.value;
    AppendSection(buf, q1, a);
    assert buf.written == [a];
    AppendSection(buf, q2, b);
    assert buf.written == [a, b];
    var s := buf.Close();
    count := buf.SectionCount();
    size := buf.BufferSize();
    assert buf.sections[1].End() == |a| + |b|;
    r0 := buf.GetReader(0);
    r1 := buf.GetReader(1);
    r2 := buf.GetReader(2);
  }

  /**
   * Misuse is rejected: a reader before sealing, a second open, sealing while
   * writing, and a close with no open section all fail with InvalidState,
   * and a section closed right after opening is empty yet readable.
   */
  method MisuseScenario(q: Quotas)
    returns (early: Result<SectionReader>, reopen: Status, sealEarly: Status,
             strayClose: Status, empty: Result<SectionReader>, reopenSealed: Status)
    ensures early == Failure(InvalidState)
    ensures reopen == Failed(InvalidState) && sealEarly == Failed(InvalidState)
    ensures strayClose == Failed(InvalidState) && reopenSealed == Failed(InvalidState)
    ensures empty == Success(SectionReader([], q))
  {
    var buf := new XmlBuffer();
    early := buf.GetReader(0);
    var s := buf.OpenSection(q);
    reopen := buf.OpenSection(q);
    sealEarly := buf.Close();
    s := buf.CloseSection();
    strayClose := buf.CloseSection();
    s := buf.Close();
    reopenSealed := buf.OpenSection(q);
    empty := buf.GetReader(0);
  }
}
