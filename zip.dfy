/**
 * The browser's ZIP reader: `extractCSVFromZip` scans the archive for the first local
 * file header (signature 0x04034b50, section 4.3.7 of the PKWARE ZIP application note),
 * reads its little-endian fields, slices out the file data and dispatches on the
 * compression method (section 4.4.5: 0 stored, 8 deflated); and the loop of
 * `decompressDeflate` that combines the inflater's output chunks into one buffer.
 */
module ZipReader {
  import opened Wrappers

  type Byte = b: int | 0 <= b < 256

  const LocalHeaderSignature: nat := 0x04034b50
  /** The fixed part of a local file header, in bytes. */
  const FixedHeaderSize: nat := 30
  const Stored: nat := 0
  const Deflated: nat := 8

  /** `DataView.getUint16(p, true)`. */
  function U16(z: seq<Byte>, p: nat): (v: nat)
    requires p + 2 <= |z|
    ensures v < 0x1_0000
  {
    z[p] as nat + 0x100 * z[p + 1] as nat
  }

  /** `DataView.getUint32(p, true)`. */
  function U32(z: seq<Byte>, p: nat): (v: nat)
    requires p + 4 <= |z|
    ensures v < 0x1_0000_0000
  {
    U16(z, p) + 0x1_0000 * U16(z, p + 2)
  }

  /** The scan looks at offset `p` only while `p < byteLength - 30`. */
  predicate InScan(z: seq<Byte>, p: nat) {
    p < |z| - FixedHeaderSize
  }

  predicate SignatureAt(z: seq<Byte>, p: nat)
    requires InScan(z, p)
  {
    U32(z, p) == LocalHeaderSignature
  }

  /** The fields of a local file header that the reader uses. */
  datatype LocalHeader = LocalHeader(
    compressMethod: nat, compressedSize: nat, uncompressedSize: nat, fileNameLength: nat, extraFieldLength: nat)

  function HeaderAt(z: seq<Byte>, p: nat): LocalHeader
    requires InScan(z, p)
  {
    LocalHeader(U16(z, p + 8), U32(z, p + 18), U32(z, p + 22), U16(z, p + 26), U16(z, p + 28))
  }

  /** What the reader hands on: the stored bytes, or the deflated bytes for the inflater. */
  datatype Payload = StoredData(bytes: seq<Byte>) | DeflatedData(bytes: seq<Byte>)

  /** The errors `extractCSVFromZip` throws. */
  datatype ZipError =
    | NoValidFile                               // no signature in the scanned range
    | SliceOutOfRange(start: nat, length: nat)  // `new Uint8Array(zipData, start, length)` past the end: RangeError
    | UnsupportedMethod(compressMethod: nat)    // neither 0 nor 8

  /** The first offset from `p` on, within the scan, that holds a signature. */
  function FindHeader(z: seq<Byte>, p: nat): (r: Option<nat>)
    ensures r.Some? ==> p <= r.value && InScan(z, r.value)
    decreases |z| - p
  {
    if !InScan(z, p) then None
    else if SignatureAt(z, p) then Some(p)
    else FindHeader(z, p + 1)
  }

  /** The search finds the first signature at or after `p`, and finds none exactly when there is none. */
  lemma {:induction false} FindHeaderMeaning(z: seq<Byte>, p: nat)
    ensures FindHeader(z, p).None? <==> forall q :: p <= q && InScan(z, q) ==> !SignatureAt(z, q)
    ensures FindHeader(z, p).Some? ==>
      var h := FindHeader(z, p).value;
      && p <= h && InScan(z, h) && SignatureAt(z, h)
      && forall q :: p <= q < h ==> !SignatureAt(z, q)
    decreases |z| - p
  {
    if InScan(z, p) && !SignatureAt(z, p) {
      FindHeaderMeaning(z, p + 1);
    }
  }

  /** The file data of the header at `p` and what is done with it. */
  function EntryAt(z: seq<Byte>, p: nat): Result<Payload, ZipError>
    requires InScan(z, p)
  {
    var h := HeaderAt(z, p);
    var start := p + FixedHeaderSize + h.fileNameLength + h.extraFieldLength;
    if start + h.compressedSize > |z| then Err(SliceOutOfRange(start, h.compressedSize))
    else
      var data := z[start..start + h.compressedSize];
      if h.compressMethod == Stored then Ok(StoredData(data))
      else if h.compressMethod == Deflated then Ok(DeflatedData(data))
      else Err(UnsupportedMethod(h.compressMethod))
  }

  /** What `extractCSVFromZip` yields for an archive, before text decoding. */
  function Extract(z: seq<Byte>): Result<Payload, ZipError> {
    match FindHeader(z, 0)
    case None => Err(NoValidFile)
    case Some(p) => EntryAt(z, p)
  }

  /** The scan of `extractCSVFromZip`, as the source runs it. */
  method ExtractCsvFromZip(z: seq<Byte>) returns (r: Result<Payload, ZipError>)
    ensures r == Extract(z)
  {
    var offset := 0;
    while offset < |z| - FixedHeaderSize
      invariant FindHeader(z, 0) == FindHeader(z, offset)
      decreases |z| - offset
    {
      var signature := U32(z, offset);
      if signature == LocalHeaderSignature {
        var compressMethod := U16(z, offset + 8);
        var compressedSize := U32(z, offset + 18);
        var uncompressedSize := U32(z, offset + 22);
        var fileNameLength := U16(z, offset + 26);
        var extraFieldLength := U16(z, offset + 28);
        var fileDataOffset := offset + FixedHeaderSize + fileNameLength + extraFieldLength;
        if fileDataOffset + compressedSize > |z| {
          return Err(SliceOutOfRange(fileDataOffset, compressedSize));
        }
        var compressedData := z[fileDataOffset..fileDataOffset + compressedSize];
        if compressMethod == Stored {
          return Ok(StoredData(compressedData));
        } else if compressMethod == Deflated {
          return Ok(DeflatedData(compressedData));
        } else {
          return Err(UnsupportedMethod(compressMethod));
        }
      }
      offset := offset + 1;
    }
    r := Err(NoValidFile);
  }

  /**
   * The archive has no valid file exactly when no offset in the scan holds a signature;
   * otherwise the header read is the first one.
   */
  lemma ExtractFinds(z: seq<Byte>)
    ensures Extract(z) == Err(NoValidFile) <==> forall q :: 0 <= q && InScan(z, q) ==> !SignatureAt(z, q)
    ensures forall p: nat :: InScan(z, p) && SignatureAt(z, p) && (forall q :: 0 <= q < p ==> !SignatureAt(z, q)) ==>
              Extract(z) == EntryAt(z, p)
  {
    FindHeaderMeaning(z, 0);
    forall p: nat | InScan(z, p) && SignatureAt(z, p) && (forall q :: 0 <= q < p ==> !SignatureAt(z, q))
      ensures Extract(z) == EntryAt(z, p)
    {
      var h := FindHeader(z, 0).value;
      assert !(h < p) && !(p < h);
    }
  }

  /**
   * At a header, the data is the `compressedSize` bytes after the fixed part, the name
   * and the extra field; it is handed on as stored or deflated by method 0 or 8, any
   * other method is refused, and a slice past the end fails before the method is looked at.
   */
  lemma EntryMeaning(z: seq<Byte>, p: nat)
    requires InScan(z, p)
    ensures var h := HeaderAt(z, p);
            var start := p + 30 + h.fileNameLength + h.extraFieldLength;
            && (EntryAt(z, p).Err? && EntryAt(z, p).error.SliceOutOfRange? <==> start + h.compressedSize > |z|)
            && (start + h.compressedSize <= |z| ==>
                  && |z[start..start + h.compressedSize]| == h.compressedSize
                  && (EntryAt(z, p) == Ok(StoredData(z[start..start + h.compressedSize])) <==> h.compressMethod == 0)
                  && (EntryAt(z, p) == Ok(DeflatedData(z[start..start + h.compressedSize])) <==> h.compressMethod == 8)
                  && (EntryAt(z, p).Err? <==> h.compressMethod != 0 && h.compressMethod != 8))
  {
  }

  // ---------------------------------------------------------------------
  // Combining the inflater's chunks
  // ---------------------------------------------------------------------

  /** `chunks.reduce((sum, chunk) => sum + chunk.length, 0)`. */
  function TotalLength(chunks: seq<seq<Byte>>): nat
    decreases |chunks|
  {
    if |chunks| == 0 then 0 else TotalLength(chunks[..|chunks| - 1]) + |chunks[|chunks| - 1]|
  }

  /** The chunks one after another. */
  function Flatten(chunks: seq<seq<Byte>>): seq<Byte>
    decreases |chunks|
  {
    if |chunks| == 0 then [] else Flatten(chunks[..|chunks| - 1]) + chunks[|chunks| - 1]
  }

  /** The combined length is the length of the chunks laid end to end. */
  lemma {:induction false} FlattenLength(chunks: seq<seq<Byte>>)
    ensures |Flatten(chunks)| == TotalLength(chunks)
    decreases |chunks|
  {
    if |chunks| > 0 {
      FlattenLength(chunks[..|chunks| - 1]);
    }
  }

  /** Chunk `k` sits in the combined buffer right after the chunks before it. */
  lemma {:induction false} FlattenAt(chunks: seq<seq<Byte>>, k: nat)
    requires k < |chunks|
    ensures TotalLength(chunks[..k]) + |chunks[k]| <= |Flatten(chunks)|
    ensures Flatten(chunks)[TotalLength(chunks[..k])..TotalLength(chunks[..k]) + |chunks[k]|] == chunks[k]
    decreases |chunks|
  {
    var n := |chunks| - 1;
    FlattenLength(chunks);
    FlattenLength(chunks[..n]);
    FlattenLength(chunks[..k]);
    if k == n {
      assert chunks[..n] == chunks[..k];
    } else {
      assert chunks[..n][..k] == chunks[..k] && chunks[..n][k] == chunks[k];
      FlattenAt(chunks[..n], k);
      var a := TotalLength(chunks[..k]);
      assert Flatten(chunks)[a..a + |chunks[k]|] == Flatten(chunks[..n])[a..a + |chunks[k]|];
    }
  }

  lemma PrefixStep(chunks: seq<seq<Byte>>, k: nat)
    requires k < |chunks|
    ensures TotalLength(chunks[..k + 1]) == TotalLength(chunks[..k]) + |chunks[k]|
    ensures Flatten(chunks[..k + 1]) == Flatten(chunks[..k]) + chunks[k]
  {
    assert chunks[..k + 1][..k] == chunks[..k];
  }

  /** `result.set(chunk, offset)`: the chunk copied in at `offset`, the elements before and after it kept. */
  method SetAt(result: array<Byte>, chunk: seq<Byte>, offset: nat)
    requires offset + |chunk| <= result.Length
    modifies result
    ensures result[..offset] == old(result[..offset])
    ensures result[offset..offset + |chunk|] == chunk
    ensures result[offset + |chunk|..] == old(result[offset + |chunk|..])
  {
    for j := 0 to |chunk|
      invariant result[..offset] == old(result[..offset])
      invariant result[offset..offset + j] == chunk[..j]
      invariant result[offset + |chunk|..] == old(result[offset + |chunk|..])
    {
      result[offset + j] := chunk[j];
      assert result[offset..offset + j + 1] == result[offset..offset + j] + [chunk[j]];
    }
  }

  /** The combining loop of `decompressDeflate`: each chunk copied in at the running offset. */
  method CombineChunks(chunks: seq<seq<Byte>>) returns (result: array<Byte>)
    ensures fresh(result)
    ensures result.Length == TotalLength(chunks) && result[..] == Flatten(chunks)
  {
    var totalLength := TotalLength(chunks);
    FlattenLength(chunks);
    result := new Byte[totalLength](_ => 0);
    var offset := 0;
    for k := 0 to |chunks|
      invariant offset == TotalLength(chunks[..k]) && |Flatten(chunks[..k])| == offset
      invariant offset <= totalLength
      invariant result[..offset] == Flatten(chunks[..k])
    {
      var chunk := chunks[k];
      PrefixStep(chunks, k);
      FlattenLength(chunks[..k + 1]);
      FlattenAt(chunks, k);
      assert chunks[..|chunks|] == chunks;
      PrefixLengths(chunks, k + 1);
      SetAt(result, chunk, offset);
      assert result[..offset + |chunk|] == result[..offset] + result[offset..offset + |chunk|];
      offset := offset + |chunk|;
    }
    assert chunks[..|chunks|] == chunks;
  }

  /** The running offset never passes the total. */
  lemma {:induction false} PrefixLengths(chunks: seq<seq<Byte>>, k: nat)
    requires k <= |chunks|
    ensures TotalLength(chunks[..k]) <= TotalLength(chunks)
    decreases |chunks|
  {
    if k < |chunks| {
      var n := |chunks| - 1;
      assert chunks[..n][..k] == chunks[..k];
      PrefixLengths(chunks[..n], k);
    } else {
      assert chunks[..k] == chunks;
    }
  }
}
