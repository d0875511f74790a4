# XmlBuffer, modelled in Dafny

`XmlBuffer` (from the Syndication library of WCF) is a write-once, read-many
buffer. A caller opens a section, writes binary-encoded XML into it through the
writer the buffer hands out, and closes it. This open/write/close cycle can
repeat; every section lands in the same backing stream. The caller then seals
the buffer (`Close`), which copies the stream into one byte array. After that,
any section can be read back by index, through a reader over exactly that
section's byte range with the quotas captured when the section was opened.

The model has two modules:

- `Sections` (`sections.dfy`) holds the `Section` record (offset, size, quotas)
  and the layout facts, all pure. The sections start at byte 0 and sit back to
  back with no gaps and no overlaps. Their sizes add up to the cursor. The byte
  range of section *i* in the concatenated stream is exactly the bytes written
  into section *i*.
- `XmlBuffers` (`xml_buffer.dfy`) holds the `XmlBuffer` class. Its fields are
  `sections`, `buffer` (an array, null until sealed), the `offset` cursor,
  `stream` (the bytes written so far; gone after sealing), `bufferState`,
  `writer` and the current `quotas`. Every state or index check that throws in
  the source returns an `Error` (`InvalidState` or `OutOfRange`) here, as does
  the constructor's check for a negative bound, and on an error nothing
  changes. The failures the code raises from library calls are listed under
  "Left out". The object invariant `Valid()` ties the fields together. Two
  ghost fields, `written` (the bytes of each closed section) and `pending` (the
  bytes of the open section), say which bytes belong to which section. That is
  how `GetReader` can promise the round trip: the reader of section *i*
  receives exactly the bytes written while section *i* was open.

The binary XML encoder stands in as `WriteBytes`, which appends bytes to the
stream and is legal only while the writer handed out by `OpenSection` is live.
The reader is modelled as the `SectionReader` value it would be built from: a
byte slice plus quotas. The external `XmlWriter` of `WriteTo` is modelled as
`TargetWriter`, which records the readers copied into it.

## Model

| member | source | states |
|---|---|---|
| `XmlBuffers.XmlBuffer.Create` | lab/src/Microsoft.ServiceModel.Syndication/src/System/ServiceModel/XmlBuffer.cs:68-79 | fails with OutOfRange exactly when maxBufferSize is negative; otherwise a fresh valid buffer in Created with no sections, cursor 0 and an empty stream |
| `XmlBuffers.XmlBuffer.constructor` | lab/src/Microsoft.ServiceModel.Syndication/src/System/ServiceModel/XmlBuffer.cs:74-78 | the initial state: Created, no sections, cursor 0, empty stream, no writer, no buffer |
| `XmlBuffers.XmlBuffer.SectionCount` | lab/src/Microsoft.ServiceModel.Syndication/src/System/ServiceModel/XmlBuffer.cs:89-92 | the number of sections, which is the number of write passes that were closed |
| `XmlBuffers.XmlBuffer.OpenSection` | lab/src/Microsoft.ServiceModel.Syndication/src/System/ServiceModel/XmlBuffer.cs:94-105 | InvalidState (nothing changed) unless Created, which rules out a double open and an open after sealing; on success Writing, a live writer and the buffer's own copy of the quotas; sections, cursor and stream unchanged; invariant kept |
| `XmlBuffers.XmlBuffer.WriteBytes` | lab/src/Microsoft.ServiceModel.Syndication/src/System/ServiceModel/XmlBuffer.cs:102-104 | writing through the live writer appends to the stream and to the open section's bytes; with no live writer InvalidState and nothing changed |
| `XmlBuffers.XmlBuffer.CloseSection` | lab/src/Microsoft.ServiceModel.Syndication/src/System/ServiceModel/XmlBuffer.cs:107-117 | InvalidState (nothing changed) unless Writing; on success it is Created again and exactly one section is appended, at the old cursor, of size stream length minus old cursor, which equals the bytes written since the open (0 for an empty section), with the quotas copied at open; the cursor becomes the stream length; invariant kept |
| `XmlBuffers.XmlBuffer.Close` | lab/src/Microsoft.ServiceModel.Syndication/src/System/ServiceModel/XmlBuffer.cs:119-134 | InvalidState (nothing changed) unless Created, which rules out sealing mid-write or twice; on success Reading, a fresh array equal to the whole stream and as long as the cursor, stream and writer dropped, sections unchanged |
| `XmlBuffers.XmlBuffer.BufferSize` | lab/src/Microsoft.ServiceModel.Syndication/src/System/ServiceModel/XmlBuffer.cs:81-87 | once sealed, the sealed length equals the cursor and the end of the last section; every section lies inside it, no two sections overlap, and every byte position below it lies in some section, so the sections span [0, BufferSize) exactly |
| `XmlBuffers.XmlBuffer.GetReader` | lab/src/Microsoft.ServiceModel.Syndication/src/System/ServiceModel/XmlBuffer.cs:142-151 | InvalidState unless Reading; OutOfRange for an index outside [0, SectionCount); otherwise the reader gets exactly buffer[Offset, Offset+Size) with the section's stored quotas, and those bytes are exactly the ones written into that section; the buffer is not changed |
| `XmlBuffers.XmlBuffer.WriteTo` | lab/src/Microsoft.ServiceModel.Syndication/src/System/ServiceModel/XmlBuffer.cs:153-166 | the same two failures as GetReader, leaving the target untouched; otherwise the section's reader (its written bytes, its quotas) is copied into the target; the buffer is not changed |
| `XmlBuffers.TargetWriter.WriteNode` | lab/src/Microsoft.ServiceModel.Syndication/src/System/ServiceModel/XmlBuffer.cs:160 | the external writer receives the reader's content, after what it already held |
| `XmlBuffers.AppendSection` | lab/src/Microsoft.ServiceModel.Syndication/src/System/ServiceModel/XmlBuffer.cs:94-117 | one open/write/close pass from Created appends one section holding exactly the written bytes at the old cursor, with the given quotas |
| `XmlBuffers.TwoSectionScenario` | lab/src/Microsoft.ServiceModel.Syndication/src/System/ServiceModel/XmlBuffer.cs:94-151 | two passes then a seal: SectionCount is 2, BufferSize is the two lengths together, reader 0 and reader 1 get exactly their own bytes and quotas whatever the other section holds, reader 2 is OutOfRange |
| `XmlBuffers.MisuseScenario` | lab/src/Microsoft.ServiceModel.Syndication/src/System/ServiceModel/XmlBuffer.cs:94-151 | a reader before sealing, a double open, a seal mid-write, a stray close and an open after sealing all fail with InvalidState; an empty section reads back as empty bytes with its quotas |
| `Sections.OffsetIsTotalBefore` | lab/src/Microsoft.ServiceModel.Syndication/src/System/ServiceModel/XmlBuffer.cs:114-116 | in the layout CloseSection builds, section i starts at the sum of the sizes of sections 0..i-1 |
| `Sections.TotalIsLastEnd` | lab/src/Microsoft.ServiceModel.Syndication/src/System/ServiceModel/XmlBuffer.cs:114-116 | the sum of the sizes, which is the cursor, is the end of the last section |
| `Sections.SectionWithinTotal` | lab/src/Microsoft.ServiceModel.Syndication/src/System/ServiceModel/XmlBuffer.cs:114-116 | every section satisfies 0 <= Offset <= Offset + Size <= the sum of all sizes |
| `Sections.SectionsDisjoint` | lab/src/Microsoft.ServiceModel.Syndication/src/System/ServiceModel/XmlBuffer.cs:114-116 | sections do not overlap: an earlier section ends at or before a later one starts |
| `Sections.OwningSection` | lab/src/Microsoft.ServiceModel.Syndication/src/System/ServiceModel/XmlBuffer.cs:114-116 | every byte position below the total lies in exactly one section, so the sections span [0, total) exactly |
| `Sections.AppendKeepsContiguous` | lab/src/Microsoft.ServiceModel.Syndication/src/System/ServiceModel/XmlBuffer.cs:114-116 | appending a section at the cursor with non-negative size keeps the layout contiguous, and the new total is that section's end |
| `Sections.TotalIsFlattenLength` | lab/src/Microsoft.ServiceModel.Syndication/src/System/ServiceModel/XmlBuffer.cs:114-116 | the recorded sizes add up to the length of all written bytes |
| `Sections.SliceIsPiece` | lab/src/Microsoft.ServiceModel.Syndication/src/System/ServiceModel/XmlBuffer.cs:146-147 | the byte range of section i within the concatenation of all written bytes is exactly the bytes written into section i |

## Left out

- The binary XML codec is not modelled: `CreateBinaryWriter`, `CreateBinaryReader`, `MoveToContent` and the node copying of `WriteNode`. The encoder is an abstract byte append (`WriteBytes`). A reader is the byte slice and quotas it would be built from. No statement is made about the XML nodes.
- `BufferedStream`, `MemoryStream`, flushing, and the `Math.Min(512, maxBufferSize)` initial size are not modelled. The stream is the sequence of bytes written so far. `maxBufferSize` is never enforced against the bytes written, in the code or in the model.
- `XmlBuffers.XmlBuffer.Create`: accepts `maxBufferSize == 0`. The code rejects 0 as well: `Math.Min(512, 0)` is 0, and `new BufferedStream(…, 0)` throws ArgumentOutOfRangeException. That rejection belongs to the stream library, which is not modelled, so the model fails only for a negative bound.
- `XmlBuffers.XmlBuffer.BufferSize`: requires the sealed state instead of modelling the null-reference failure the code has before sealing.
- `XmlDictionaryReaderQuotas` is an opaque value record, and `CopyTo` is value copying. A later change to the caller's object therefore cannot reach a stored section. A null quotas argument (a null-reference failure in `CopyTo`) cannot be expressed.
- The writer's internal buffering is not modelled: bytes reach the stream when written. The code reads the stream length only after `writer.Close()` has flushed, so the recorded sizes are the same.
- The 32-bit `int` cast of `stream.Length` and the 32-bit `offset` are not modelled. A `MemoryStream` cannot grow beyond `Int32.MaxValue` bytes, so no value in the code wraps.
- The `try`/`finally` that closes the reader in `WriteTo` is not modelled. It only releases a codec object. Failures raised by the target writer itself are not modelled either.
- Exception types and messages are reduced to the two error kinds `InvalidState` and `OutOfRange`.
- Concurrency is not modelled. The class has no locking and is single-owner.
