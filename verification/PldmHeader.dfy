/** The header of a PLDM firmware update package (DSP0267 v1.3.0): finding the IST vectors
    component, checking the header and reading what the transfer needs from it. */
module PldmHeader {
  import opened Wrappers
  import opened MachineWord
  import opened Crc32

  // ----- Little-endian fields -----

  function U8(b: byte): (n: nat)
    ensures n < 0x100
  {
    b as int
  }

  function ReadU16(h: seq<byte>, i: nat): (n: nat)
    requires i + 2 <= |h|
    ensures n < 0x1_0000
  {
    U8(h[i]) + 0x100 * U8(h[i + 1])
  }

  function ReadU32(h: seq<byte>, i: nat): (n: nat)
    requires i + 4 <= |h|
    ensures n < 0x1_0000_0000
  {
    U8(h[i]) + 0x100 * U8(h[i + 1]) + 0x1_0000 * U8(h[i + 2]) + 0x100_0000 * U8(h[i + 3])
  }

  /** The same four bytes as a register value, for the checksums. */
  function ReadWord(h: seq<byte>, i: nat): bv32
    requires i + 4 <= |h|
  {
    (h[i] as bv32) | ((h[i + 1] as bv32) << 8) | ((h[i + 2] as bv32) << 16) | ((h[i + 3] as bv32) << 24)
  }

  /** A field inside the header does not depend on what is buffered behind it. */
  lemma ReadInside(hdr: seq<byte>, n: nat, i: nat)
    requires n <= |hdr|
    ensures i + 2 <= n ==> ReadU16(hdr[..n], i) == ReadU16(hdr, i)
    ensures i + 4 <= n ==> ReadU32(hdr[..n], i) == ReadU32(hdr, i) && ReadWord(hdr[..n], i) == ReadWord(hdr, i)
  {
  }

  // ----- Layout -----

  const MIN_HEADER_SIZE := 36
  const MAX_HEADER_SIZE := 4096
  const HEADER_PREFIX_SIZE := 19
  const REVISION_OFFSET := 16
  const SIZE_OFFSET := 17
  const VERSION_LENGTH_OFFSET := 35
  const TRAILER_SIZE := 8

  const COMPONENT_FIXED_SIZE := 22
  const COMPONENT_LOCATION_OFFSET := 12
  const COMPONENT_SIZE_OFFSET := 16
  const COMPONENT_VERSION_LENGTH_OFFSET := 21
  const COMPONENT_OPAQUE_LENGTH_SIZE := 4

  /** A UUID descriptor (type 2, length 16) holding the IST vectors component UUID. */
  const DESCRIPTOR: seq<byte> := [
    0x02, 0x00, 0x10, 0x00,
    0x8f, 0x1b, 0x9b, 0x0e, 0x3c, 0x6d, 0x4a, 0x8c,
    0x9f, 0x32, 0x12, 0xe7, 0xb4, 0xd9, 0xc5, 0xa1
  ]

  // ----- The component UUID -----

  predicate HasDescriptorAt(h: seq<byte>, i: nat) {
    i + 20 <= |h| && h[i..i + 20] == DESCRIPTOR
  }

  predicate HasDescriptor(h: seq<byte>) {
    exists i: nat :: i < |h| && HasDescriptorAt(h, i)
  }

  method HeaderContainsUuid(hdr: seq<byte>, size: nat) returns (found: bool)
    requires size <= |hdr|
    ensures found <==> size >= MIN_HEADER_SIZE && HasDescriptor(hdr[..size])
  {
    if size < MIN_HEADER_SIZE {
      return false;
    }
    var i := 0;
    while i + 4 + 16 <= size
      invariant forall j: nat :: j < i ==> !HasDescriptorAt(hdr[..size], j)
    {
      assert hdr[..size][i..i + 20] == hdr[i..i + 20];
      assert hdr[i..i + 20] == hdr[i..i + 4] + hdr[i + 4..i + 20];
      assert DESCRIPTOR == DESCRIPTOR[..4] + DESCRIPTOR[4..];
      if hdr[i..i + 4] != DESCRIPTOR[..4] {
        i := i + 1;
        continue;
      }
      if hdr[i + 4..i + 20] == DESCRIPTOR[4..] {
        assert HasDescriptorAt(hdr[..size], i);
        return true;
      }
      i := i + 1;
    }
    return false;
  }

  // ----- The declared package size -----

  /** Past `count` device records from `offset`, or None if the header ends first. */
  function SkipDevices(h: seq<byte>, offset: nat, count: nat): Option<nat>
    decreases count
  {
    if count == 0 then
      Some(offset)
    else if offset + 2 > |h| || ReadU16(h, offset) == 0 then
      None
    else
      SkipDevices(h, offset + ReadU16(h, offset), count - 1)
  }

  /** The largest end of `count` components from `offset` and of `end`, or 0 if the header ends first. */
  function LastEnd(h: seq<byte>, offset: nat, count: nat, end: nat): nat
    decreases count
  {
    if count == 0 then
      end
    else if offset + COMPONENT_FIXED_SIZE > |h| then
      0
    else
      var location := ReadU32(h, offset + COMPONENT_LOCATION_OFFSET);
      var size := ReadU32(h, offset + COMPONENT_SIZE_OFFSET);
      var step := COMPONENT_FIXED_SIZE + U8(h[offset + COMPONENT_VERSION_LENGTH_OFFSET]) + COMPONENT_OPAQUE_LENGTH_SIZE;
      LastEnd(h, offset + step, count - 1, Max(end, location + size))
  }

  function Max(a: nat, b: nat): (m: nat)
    ensures a <= m && b <= m && (m == a || m == b)
  {
    if a < b then b else a
  }

  /** The package size a header declares, or 0 if its tables cannot be walked. */
  function PackageSize(h: seq<byte>): nat
    requires |h| >= MIN_HEADER_SIZE
  {
    var records := MIN_HEADER_SIZE + U8(h[VERSION_LENGTH_OFFSET]);
    if records >= |h| then
      0
    else
      match SkipDevices(h, records + 1, U8(h[records]))
      case None => 0
      case Some(downstream) =>
        if downstream >= |h| || h[downstream] != 0 || downstream + 3 > |h| then
          0
        else
          LastEnd(h, downstream + 3, ReadU16(h, downstream + 1), 0)
  }

  /** The table walk over a buffer that may hold payload bytes behind the header: it reads
      nothing at or past the declared size. */
  method PackageSizeFromHeader(hdr: seq<byte>, headerSize: nat) returns (packageEnd: nat)
    requires MIN_HEADER_SIZE <= headerSize <= |hdr|
    ensures packageEnd == PackageSize(hdr[..headerSize])
  {
    hide ReadU16, ReadU32, U8;
    ghost var h := hdr[..headerSize];
    var offset: nat := MIN_HEADER_SIZE + U8(hdr[VERSION_LENGTH_OFFSET]);
    if offset >= headerSize {
      return 0;
    }
    var deviceRecords := U8(hdr[offset]);
    offset := offset + 1;
    ghost var devices := SkipDevices(h, offset, deviceRecords);
    while deviceRecords > 0
      invariant devices == SkipDevices(h, offset, deviceRecords)
    {
      deviceRecords := deviceRecords - 1;
      if offset + 2 > headerSize {
        return 0;
      }
      ReadInside(hdr, headerSize, offset);
      var recordLength := ReadU16(hdr, offset);
      if recordLength == 0 {
        return 0;
      }
      offset := offset + recordLength;
    }

    if offset >= headerSize || hdr[offset] != 0 {
      return 0;
    }
    offset := offset + 1;
    if offset + 2 > headerSize {
      return 0;
    }
    ReadInside(hdr, headerSize, offset);
    var componentCount := ReadU16(hdr, offset);
    offset := offset + 2;

    packageEnd := 0;
    ghost var result := LastEnd(h, offset, componentCount, 0);
    while componentCount > 0
      invariant result == LastEnd(h, offset, componentCount, packageEnd)
    {
      componentCount := componentCount - 1;
      if offset + COMPONENT_FIXED_SIZE > headerSize {
        return 0;
      }
      ReadInside(hdr, headerSize, offset + COMPONENT_LOCATION_OFFSET);
      ReadInside(hdr, headerSize, offset + COMPONENT_SIZE_OFFSET);
      var location := ReadU32(hdr, offset + COMPONENT_LOCATION_OFFSET);
      var size := ReadU32(hdr, offset + COMPONENT_SIZE_OFFSET);
      packageEnd := Max(packageEnd, location + size);
      offset := offset + COMPONENT_FIXED_SIZE + U8(hdr[offset + COMPONENT_VERSION_LENGTH_OFFSET])
                + COMPONENT_OPAQUE_LENGTH_SIZE;
    }
  }

  // ----- The checks of the peek phase -----

  datatype HeaderCheck = NeedMoreData | InvalidHeader | ComponentUuidMismatch | Matched

  /** What the transfer needs: where the payload starts, its stored CRC, its declared length or 0. */
  datatype ComponentInfo = ComponentInfo(offset: nat, payloadCrc: bv32, payloadSize: nat)

  function HeaderSize(data: seq<byte>): nat
    requires |data| >= HEADER_PREFIX_SIZE
  {
    ReadU16(data, SIZE_OFFSET)
  }

  function CheckHeader(data: seq<byte>): HeaderCheck {
    if |data| < HEADER_PREFIX_SIZE then NeedMoreData
    else if !(MIN_HEADER_SIZE <= HeaderSize(data) <= MAX_HEADER_SIZE) then InvalidHeader
    else if |data| < HeaderSize(data) then NeedMoreData
    else if !HasDescriptor(data[..HeaderSize(data)]) then ComponentUuidMismatch
    else Matched
  }

  method CheckIstComponentUuid(data: seq<byte>) returns (check: HeaderCheck)
    ensures check == CheckHeader(data)
  {
    if |data| < HEADER_PREFIX_SIZE {
      return NeedMoreData;
    }
    var headerSize := ReadU16(data, SIZE_OFFSET);
    if headerSize < MIN_HEADER_SIZE || headerSize > MAX_HEADER_SIZE {
      return InvalidHeader;
    }
    if |data| < headerSize {
      return NeedMoreData;
    }
    var found := HeaderContainsUuid(data, headerSize);
    return if found then Matched else ComponentUuidMismatch;
  }

  /** Validation of a complete header `h`, nothing behind it. */
  function Validated(h: seq<byte>): Option<ComponentInfo>
    requires MIN_HEADER_SIZE <= |h|
  {
    var n := |h|;
    if U8(h[REVISION_OFFSET]) < 4 || n < MIN_HEADER_SIZE + TRAILER_SIZE then
      None
    else if ReadWord(h, n - TRAILER_SIZE) != Checksum(h[..n - TRAILER_SIZE]) then
      None
    else
      Some(ComponentInfo(n, ReadWord(h, n - 4), if PackageSize(h) > n then PackageSize(h) - n else 0))
  }

  method ValidatePldmHeader(hdr: seq<byte>) returns (comp: Option<ComponentInfo>)
    ensures |hdr| < MIN_HEADER_SIZE || |hdr| < HeaderSize(hdr) ==> comp == None
    ensures MIN_HEADER_SIZE <= |hdr| && MIN_HEADER_SIZE <= HeaderSize(hdr) <= |hdr| ==>
      comp == Validated(hdr[..HeaderSize(hdr)])
  {
    hide Checksum, PackageSize, ReadU16, ReadWord, U8;
    if |hdr| < MIN_HEADER_SIZE {
      return None;
    }
    var revision := U8(hdr[REVISION_OFFSET]);
    var headerSize := ReadU16(hdr, SIZE_OFFSET);
    if |hdr| < headerSize {
      return None;
    }
    if revision < 4 {
      return None;
    }
    if headerSize < MIN_HEADER_SIZE + TRAILER_SIZE {
      return None;
    }
    ghost var h := hdr[..headerSize];
    var crcOffset := headerSize - TRAILER_SIZE;
    ReadInside(hdr, headerSize, crcOffset);
    ReadInside(hdr, headerSize, headerSize - 4);
    var storedCrc := ReadWord(hdr, crcOffset);
    var computedCrc := ComputeCrc32(hdr[..crcOffset]);
    assert hdr[..crcOffset] == h[..crcOffset];
    if storedCrc != computedCrc {
      return None;
    }
    var payloadCrc := ReadWord(hdr, headerSize - 4);
    var packageSize := PackageSizeFromHeader(hdr, headerSize);
    var payloadSize := if packageSize > headerSize then packageSize - headerSize else 0;
    comp := Some(ComponentInfo(headerSize, payloadCrc, payloadSize));
  }

  // ----- The verdict of the peek phase on what has arrived -----

  datatype Verdict = NeedMore | Reject | Accept(comp: ComponentInfo)

  function VerdictOn(data: seq<byte>): Verdict {
    match CheckHeader(data)
    case NeedMoreData => NeedMore
    case Matched =>
      (match Validated(data[..HeaderSize(data)])
       case Some(comp) => Accept(comp)
       case None => Reject)
    case _ => Reject
  }

  /** Once there is a verdict, bytes that arrive later do not change it. */
  lemma VerdictIsStable(data: seq<byte>, more: seq<byte>)
    requires VerdictOn(data) != NeedMore
    ensures VerdictOn(data + more) == VerdictOn(data)
  {
    hide HasDescriptor, Validated;
    var n := HeaderSize(data);
    if n <= |data| {
      assert (data + more)[..n] == data[..n];
    }
  }

  lemma AcceptedHeaderIsComplete(data: seq<byte>)
    requires VerdictOn(data).Accept?
    ensures HEADER_PREFIX_SIZE <= |data| && VerdictOn(data).comp.offset == HeaderSize(data) <= |data|
  {
  }
}
