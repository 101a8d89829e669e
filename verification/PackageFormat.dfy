/** Writing a package header as DSP0267 v1.3.0 lays it out, and what reading it back gives. */
module PackageFormat {
  import opened Wrappers
  import opened MachineWord
  import opened Crc32
  import opened PldmHeader

  // ----- Little-endian fields -----

  /** The byte whose value is n. */
  function Byte(n: nat): (b: byte)
    requires n < 0x100
    ensures U8(b) == n
  {
    if n == 0 then
      0
    else
      var b := Byte(n - 1);
      ByteSuccessor(b);
      b + 1
  }

  lemma ByteSuccessor(b: byte)
    requires b as int < 0xFF
    ensures (b + 1) as int == b as int + 1
  {
  }

  function U16Bytes(n: nat): (s: seq<byte>)
    requires n < 0x1_0000
    ensures |s| == 2
  {
    [Byte(n % 0x100), Byte(n / 0x100)]
  }

  function U32Bytes(n: nat): (s: seq<byte>)
    requires n < 0x1_0000_0000
    ensures |s| == 4
  {
    U16Bytes(n % 0x1_0000) + U16Bytes(n / 0x1_0000)
  }

  function WordBytes(w: bv32): (s: seq<byte>)
    ensures |s| == 4
  {
    [(w & 0xFF) as byte, ((w >> 8) & 0xFF) as byte, ((w >> 16) & 0xFF) as byte, (w >> 24) as byte]
  }

  lemma U16RoundTrip(n: nat, h: seq<byte>, i: nat)
    requires n < 0x1_0000 && i + 2 <= |h| && h[i..i + 2] == U16Bytes(n)
    ensures ReadU16(h, i) == n
  {
    hide U8, Byte;
    assert h[i] == h[i..i + 2][0] && h[i + 1] == h[i..i + 2][1];
  }

  lemma U32RoundTrip(n: nat, h: seq<byte>, i: nat)
    requires n < 0x1_0000_0000 && i + 4 <= |h| && h[i..i + 4] == U32Bytes(n)
    ensures ReadU32(h, i) == n
  {
    hide U8, U16Bytes;
    assert h[i..i + 2] == h[i..i + 4][..2] && h[i + 2..i + 4] == h[i..i + 4][2..];
    U16RoundTrip(n % 0x1_0000, h, i);
    U16RoundTrip(n / 0x1_0000, h, i + 2);
  }

  lemma WordRoundTrip(w: bv32, h: seq<byte>, i: nat)
    requires i + 4 <= |h| && h[i..i + 4] == WordBytes(w)
    ensures ReadWord(h, i) == w
  {
    var s := h[i..i + 4];
    assert h[i] == s[0] && h[i + 1] == s[1] && h[i + 2] == s[2] && h[i + 3] == s[3];
    JoinBytes(w, h[i], h[i + 1], h[i + 2], h[i + 3]);
  }

  lemma JoinBytes(w: bv32, b0: byte, b1: byte, b2: byte, b3: byte)
    requires b0 == (w & 0xFF) as byte && b1 == ((w >> 8) & 0xFF) as byte
    requires b2 == ((w >> 16) & 0xFF) as byte && b3 == (w >> 24) as byte
    ensures (b0 as bv32) | ((b1 as bv32) << 8) | ((b2 as bv32) << 16) | ((b3 as bv32) << 24) == w
  {
  }

  // ----- Packages -----

  /** One row of the component image information table (DSP0267 v1.3.0, Table 20). `lead` holds
      its first 12 bytes: classification, identifier, comparison stamp and options. */
  datatype Component = Component(
    lead: seq<byte>, location: nat, size: nat, versionType: byte, version: seq<byte>, opaqueData: seq<byte>)

  datatype Package = Package(
    identifier: seq<byte>, revision: byte, released: seq<byte>, bitmapLength: seq<byte>,
    versionType: byte, version: seq<byte>,
    devices: seq<seq<byte>>, components: seq<Component>, payloadCrc: bv32)

  ghost predicate ValidComponent(c: Component) {
    |c.lead| == 12 && c.location < 0x1_0000_0000 && c.size < 0x1_0000_0000
    && |c.version| < 0x100 && |c.opaqueData| < 0x1_0000_0000
  }

  ghost predicate ValidComponents(cs: seq<Component>) {
    forall i :: 0 <= i < |cs| ==> ValidComponent(cs[i])
  }

  ghost predicate ValidDevices(ds: seq<seq<byte>>) {
    forall i :: 0 <= i < |ds| ==> |ds[i]| + 2 < 0x1_0000
  }

  ghost predicate Valid(p: Package) {
    && |p.identifier| == 16 && |p.released| == 13 && |p.bitmapLength| == 2 && |p.version| < 0x100
    && |p.devices| < 0x100 && ValidDevices(p.devices)
    && |p.components| < 0x1_0000 && ValidComponents(p.components)
  }

  // ----- Writing -----

  /** A device record: its length, which counts itself, and the rest of it. */
  ghost function DeviceBytes(d: seq<byte>): seq<byte>
    requires |d| + 2 < 0x1_0000
  {
    U16Bytes(|d| + 2) + d
  }

  ghost function DevicesBytes(ds: seq<seq<byte>>): seq<byte>
    requires ValidDevices(ds)
  {
    if ds == [] then [] else DeviceBytes(ds[0]) + DevicesBytes(ds[1..])
  }

  ghost function ComponentBytes(c: Component): seq<byte>
    requires ValidComponent(c)
  {
    c.lead + U32Bytes(c.location) + U32Bytes(c.size) + [c.versionType, Byte(|c.version|)]
    + c.version + U32Bytes(|c.opaqueData|) + c.opaqueData
  }

  ghost function ComponentsBytes(cs: seq<Component>): seq<byte>
    requires ValidComponents(cs)
  {
    if cs == [] then [] else ComponentBytes(cs[0]) + ComponentsBytes(cs[1..])
  }

  /** The header information up to the device records, with the header size it declares. */
  ghost function LeadBytes(p: Package, headerSize: nat): (s: seq<byte>)
    requires Valid(p) && headerSize < 0x1_0000
    ensures |s| == MIN_HEADER_SIZE + |p.version|
  {
    p.identifier + [p.revision] + U16Bytes(headerSize) + p.released + p.bitmapLength
    + [p.versionType, Byte(|p.version|)] + p.version
  }

  ghost function TableBytes(p: Package): seq<byte>
    requires Valid(p)
  {
    [Byte(|p.devices|)] + DevicesBytes(p.devices) + [0] + U16Bytes(|p.components|) + ComponentsBytes(p.components)
  }

  ghost function HeaderLength(p: Package): nat
    requires Valid(p)
  {
    MIN_HEADER_SIZE + |p.version| + |TableBytes(p)| + TRAILER_SIZE
  }

  ghost function BodyBytes(p: Package): (s: seq<byte>)
    requires Valid(p) && HeaderLength(p) < 0x1_0000
    ensures |s| == HeaderLength(p) - TRAILER_SIZE
  {
    LeadBytes(p, HeaderLength(p)) + TableBytes(p)
  }

  ghost function HeaderBytes(p: Package): (s: seq<byte>)
    requires Valid(p) && HeaderLength(p) < 0x1_0000
    ensures |s| == HeaderLength(p)
  {
    BodyBytes(p) + WordBytes(Checksum(BodyBytes(p))) + WordBytes(p.payloadCrc)
  }

  // ----- Reading back -----

  ghost function MaxEnd(cs: seq<Component>): nat {
    if cs == [] then 0 else Max(cs[0].location + cs[0].size, MaxEnd(cs[1..]))
  }

  /** No component but the last carries opaque data. */
  ghost predicate OpaqueOnlyLast(cs: seq<Component>) {
    forall i :: 0 <= i < |cs| - 1 ==> cs[i].opaqueData == []
  }

  /** s is what h holds from `offset`. */
  ghost predicate Holds(h: seq<byte>, offset: nat, s: seq<byte>) {
    offset + |s| <= |h| && h[offset..offset + |s|] == s
  }

  lemma HoldsPart(h: seq<byte>, offset: nat, before: seq<byte>, s: seq<byte>, after: seq<byte>)
    requires Holds(h, offset, before + s + after)
    ensures Holds(h, offset + |before|, s)
  {
    var all := before + s + after;
    forall k | 0 <= k < |s|
      ensures h[offset + |before| + k] == s[k]
    {
      assert h[offset..offset + |all|][|before| + k] == all[|before| + k];
    }
  }

  lemma {:induction false} SkipDevicesUndoes(h: seq<byte>, offset: nat, ds: seq<seq<byte>>)
    requires ValidDevices(ds) && Holds(h, offset, DevicesBytes(ds))
    ensures SkipDevices(h, offset, |ds|) == Some(offset + |DevicesBytes(ds)|)
    decreases |ds|
  {
    hide ReadU16, U16Bytes;
    if ds != [] {
      var length, rest := U16Bytes(|ds[0]| + 2), DevicesBytes(ds[1..]);
      assert DevicesBytes(ds) == [] + length + (ds[0] + rest);
      HoldsPart(h, offset, [], length, ds[0] + rest);
      U16RoundTrip(|ds[0]| + 2, h, offset);
      assert DevicesBytes(ds) == DeviceBytes(ds[0]) + rest + [];
      HoldsPart(h, offset, DeviceBytes(ds[0]), rest, []);
      SkipDevicesUndoes(h, offset + |DeviceBytes(ds[0])|, ds[1..]);
    }
  }

  lemma ReadComponent(h: seq<byte>, offset: nat, c: Component)
    requires ValidComponent(c) && Holds(h, offset, ComponentBytes(c))
    ensures |ComponentBytes(c)| == COMPONENT_FIXED_SIZE + |c.version| + COMPONENT_OPAQUE_LENGTH_SIZE + |c.opaqueData|
    ensures ReadU32(h, offset + COMPONENT_LOCATION_OFFSET) == c.location
    ensures ReadU32(h, offset + COMPONENT_SIZE_OFFSET) == c.size
    ensures U8(h[offset + COMPONENT_VERSION_LENGTH_OFFSET]) == |c.version|
  {
    hide ReadU32, U32Bytes, Byte, U8;
    var s, location, size := ComponentBytes(c), U32Bytes(c.location), U32Bytes(c.size);
    assert s == c.lead + location + s[16..];
    HoldsPart(h, offset, c.lead, location, s[16..]);
    U32RoundTrip(c.location, h, offset + 12);
    assert s == (c.lead + location) + size + s[20..];
    HoldsPart(h, offset, c.lead + location, size, s[20..]);
    U32RoundTrip(c.size, h, offset + 16);
    assert h[offset + 21] == h[offset..offset + |s|][21] == s[21];
  }

  lemma {:induction false} LastEndUndoes(h: seq<byte>, offset: nat, cs: seq<Component>, end: nat)
    requires ValidComponents(cs) && OpaqueOnlyLast(cs) && Holds(h, offset, ComponentsBytes(cs))
    ensures LastEnd(h, offset, |cs|, end) == Max(end, MaxEnd(cs))
    decreases |cs|
  {
    hide ReadU32, U8, ComponentBytes, Max;
    if cs != [] {
      var c, first, rest := cs[0], ComponentBytes(cs[0]), ComponentsBytes(cs[1..]);
      FirstOfComponents(cs);
      HoldsPart(h, offset, [], first, rest);
      ReadComponent(h, offset, c);
      if |cs| > 1 {
        HoldsPart(h, offset, first, rest, []);
        LastEndUndoes(h, offset + |first|, cs[1..], Max(end, c.location + c.size));
      }
    }
  }

  lemma ReadLead(p: Package, h: seq<byte>)
    requires Valid(p) && HeaderLength(p) < 0x1_0000
    requires Holds(h, 0, LeadBytes(p, HeaderLength(p)))
    ensures h[REVISION_OFFSET] == p.revision
    ensures HeaderSize(h) == HeaderLength(p)
    ensures U8(h[VERSION_LENGTH_OFFSET]) == |p.version|
  {
    hide U16Bytes, ReadU16, Byte, U8, HeaderLength;
    var s, size := LeadBytes(p, HeaderLength(p)), U16Bytes(HeaderLength(p));
    assert h[16] == h[0..|s|][16] == s[16];
    assert s == (p.identifier + [p.revision]) + size + s[19..];
    HoldsPart(h, 0, p.identifier + [p.revision], size, s[19..]);
    U16RoundTrip(HeaderLength(p), h, 17);
    assert h[35] == h[0..|s|][35] == s[35];
  }

  lemma TableParts(p: Package, h: seq<byte>, at: nat)
    requires Valid(p) && Holds(h, at, TableBytes(p))
    ensures
      var ds, cs := DevicesBytes(p.devices), ComponentsBytes(p.components);
      var downstream := at + 1 + |ds|;
      && Holds(h, at, [Byte(|p.devices|)])
      && Holds(h, at + 1, ds)
      && Holds(h, downstream, [0])
      && Holds(h, downstream + 1, U16Bytes(|p.components|))
      && Holds(h, downstream + 3, cs)
  {
    hide Byte, U16Bytes, DevicesBytes, ComponentsBytes;
    var ds, cs := DevicesBytes(p.devices), ComponentsBytes(p.components);
    var deviceCount, count := [Byte(|p.devices|)], U16Bytes(|p.components|);
    var all := TableBytes(p);
    assert all == [] + deviceCount + (ds + [0] + count + cs);
    HoldsPart(h, at, [], deviceCount, ds + [0] + count + cs);
    assert all == deviceCount + ds + ([0] + count + cs);
    HoldsPart(h, at, deviceCount, ds, [0] + count + cs);
    assert all == (deviceCount + ds) + [0] + (count + cs);
    HoldsPart(h, at, deviceCount + ds, [0], count + cs);
    assert all == (deviceCount + ds + [0]) + count + cs;
    HoldsPart(h, at, deviceCount + ds + [0], count, cs);
    assert all == (deviceCount + ds + [0] + count) + cs + [];
    HoldsPart(h, at, deviceCount + ds + [0] + count, cs, []);
  }

  /** Where the component table of a header starts. */
  ghost function TableStart(p: Package): nat
    requires Valid(p)
  {
    MIN_HEADER_SIZE + |p.version| + 1 + |DevicesBytes(p.devices)| + 3
  }

  lemma ReadTable(p: Package, h: seq<byte>, at: nat)
    requires Valid(p) && Holds(h, at, TableBytes(p)) && at == MIN_HEADER_SIZE + |p.version|
    ensures at < |h| && U8(h[at]) == |p.devices|
    ensures
      var downstream := TableStart(p) - 3;
      && SkipDevices(h, at + 1, |p.devices|) == Some(downstream)
      && downstream + 3 <= |h| && h[downstream] == 0
      && ReadU16(h, downstream + 1) == |p.components|
      && Holds(h, downstream + 3, ComponentsBytes(p.components))
  {
    hide U8, Byte, U16Bytes, ReadU16, DevicesBytes, ComponentsBytes, SkipDevices, TableBytes;
    TableParts(p, h, at);
    assert h[at] == h[at..at + 1][0];
    SkipDevicesUndoes(h, at + 1, p.devices);
    var downstream := at + 1 + |DevicesBytes(p.devices)|;
    assert h[downstream] == h[downstream..downstream + 1][0];
    U16RoundTrip(|p.components|, h, downstream + 1);
  }

  lemma HeaderParts(p: Package)
    requires Valid(p) && HeaderLength(p) < 0x1_0000
    ensures
      var h, lead := HeaderBytes(p), LeadBytes(p, HeaderLength(p));
      && Holds(h, 0, lead) && Holds(h, |lead|, TableBytes(p))
  {
    hide WordBytes, Checksum, LeadBytes, TableBytes;
    var h, lead, table := HeaderBytes(p), LeadBytes(p, HeaderLength(p)), TableBytes(p);
    var trailer := WordBytes(Checksum(BodyBytes(p))) + WordBytes(p.payloadCrc);
    assert h == lead + table + trailer == [] + lead + (table + trailer);
    assert Holds(h, 0, h);
    HoldsPart(h, 0, [], lead, table + trailer);
    HoldsPart(h, 0, lead, table, trailer);
  }

  /** A header that ends neither in its device records nor before its component count. */
  lemma SizeIsLastEnd(h: seq<byte>, records: nat, table: nat)
    requires MIN_HEADER_SIZE <= |h| && records == MIN_HEADER_SIZE + U8(h[VERSION_LENGTH_OFFSET]) < |h|
    requires 3 <= table <= |h| && SkipDevices(h, records + 1, U8(h[records])) == Some(table - 3)
    requires h[table - 3] == 0
    ensures PackageSize(h) == LastEnd(h, table, ReadU16(h, table - 2), 0)
  {
    hide U8, ReadU16, SkipDevices, LastEnd;
  }

  /** The walk over a written header comes down to its component loop. */
  lemma WalkReachesTable(p: Package)
    requires Valid(p) && HeaderLength(p) < 0x1_0000
    ensures
      var h := HeaderBytes(p);
      && Holds(h, MIN_HEADER_SIZE + |p.version|, TableBytes(p))
      && Holds(h, TableStart(p), ComponentsBytes(p.components))
      && PackageSize(h) == LastEnd(h, TableStart(p), |p.components|, 0)
  {
    hide U8, ReadU16, LeadBytes, TableBytes, SkipDevices, LastEnd, HeaderBytes, Holds, PackageSize;
    var h := HeaderBytes(p);
    HeaderParts(p);
    ReadLead(p, h);
    var at := MIN_HEADER_SIZE + |p.version|;
    ReadTable(p, h, at);
    SizeIsLastEnd(h, at, TableStart(p));
  }

  /** The table walk undoes the serialiser: it finds the largest location plus size. */
  lemma WalkUndoesSerialiser(p: Package)
    requires Valid(p) && HeaderLength(p) < 0x1_0000 && OpaqueOnlyLast(p.components)
    ensures PackageSize(HeaderBytes(p)) == MaxEnd(p.components)
  {
    hide HeaderBytes, PackageSize, LastEnd, Holds, TableBytes, ComponentsBytes, MaxEnd, OpaqueOnlyLast;
    WalkReachesTable(p);
    LastEndUndoes(HeaderBytes(p), TableStart(p), p.components, 0);
  }

  lemma ReadTrailer(p: Package)
    requires Valid(p) && HeaderLength(p) < 0x1_0000
    ensures
      var h := HeaderBytes(p);
      && ReadWord(h, |h| - TRAILER_SIZE) == Checksum(h[..|h| - TRAILER_SIZE])
      && ReadWord(h, |h| - 4) == p.payloadCrc
  {
    hide WordBytes, ReadWord, Checksum, BodyBytes;
    var h, body := HeaderBytes(p), BodyBytes(p);
    var check, crc := WordBytes(Checksum(body)), WordBytes(p.payloadCrc);
    assert Holds(h, 0, h);
    assert h == body + check + crc;
    HoldsPart(h, 0, body, check, crc);
    WordRoundTrip(Checksum(body), h, |body|);
    assert h == (body + check) + crc + [];
    HoldsPart(h, 0, body + check, crc, []);
    WordRoundTrip(p.payloadCrc, h, |body| + 4);
    assert h[..|h| - TRAILER_SIZE] == body;
  }

  lemma ReadLeadBefore(p: Package, payload: seq<byte>)
    requires Valid(p) && HeaderLength(p) < 0x1_0000
    ensures
      var h := HeaderBytes(p);
      && HeaderSize(h + payload) == |h| && (h + payload)[..|h|] == h && h[REVISION_OFFSET] == p.revision
  {
    hide LeadBytes, TableBytes, WordBytes, ReadU16, Checksum;
    var h, n := HeaderBytes(p), HeaderLength(p);
    var data, lead := h + payload, LeadBytes(p, n);
    var rest := TableBytes(p) + WordBytes(Checksum(BodyBytes(p))) + WordBytes(p.payloadCrc) + payload;
    assert Holds(data, 0, [] + lead + rest) by {
      assert data == [] + lead + rest;
    }
    HoldsPart(data, 0, [], lead, rest);
    ReadLead(p, data);
  }

  /** The header the serialiser writes is accepted, whatever follows it, exactly when its revision
      has a payload checksum, it is not too long and it names the IST vectors component; and what
      is read from it is where the payload starts, its checksum and the size the walk finds. */
  lemma ReaderAccepts(p: Package, payload: seq<byte>)
    requires Valid(p) && HeaderLength(p) < 0x1_0000
    ensures
      var h := HeaderBytes(p);
      VerdictOn(h + payload)
        == if U8(p.revision) >= 4 && |h| <= MAX_HEADER_SIZE && HasDescriptor(h)
           then Accept(ComponentInfo(|h|, p.payloadCrc, Behind(PackageSize(h), |h|))) else Reject
  {
    hide U8, ReadU16, ReadWord, Checksum, HeaderBytes, PackageSize, HasDescriptor;
    ReadTrailer(p);
    ReadLeadBefore(p, payload);
  }

  /** How much of a package of that size is behind its header. */
  function Behind(size: nat, header: nat): nat {
    if size > header then size - header else 0
  }

  /** Without opaque data before the last component, that size is the largest location plus size. */
  lemma ReaderUndoesSerialiser(p: Package, payload: seq<byte>)
    requires Valid(p) && HeaderLength(p) < 0x1_0000 && OpaqueOnlyLast(p.components)
    ensures
      var h := HeaderBytes(p);
      VerdictOn(h + payload)
        == if U8(p.revision) >= 4 && |h| <= MAX_HEADER_SIZE && HasDescriptor(h)
           then Accept(ComponentInfo(|h|, p.payloadCrc, Behind(MaxEnd(p.components), |h|))) else Reject
  {
    hide VerdictOn, U8, HeaderBytes, PackageSize, HasDescriptor, MaxEnd, OpaqueOnlyLast;
    ReaderAccepts(p, payload);
    WalkUndoesSerialiser(p);
  }

  // ----- What is accepted at all -----

  /** Reading a word and writing it again. */
  lemma WordWritesBack(h: seq<byte>, i: nat)
    requires i + 4 <= |h|
    ensures WordBytes(ReadWord(h, i)) == h[i..i + 4]
  {
    hide WordBytes;
    SplitWord(ReadWord(h, i), h[i], h[i + 1], h[i + 2], h[i + 3]);
    assert h[i..i + 4] == [h[i], h[i + 1], h[i + 2], h[i + 3]];
  }

  lemma SplitWord(w: bv32, b0: byte, b1: byte, b2: byte, b3: byte)
    requires w == (b0 as bv32) | ((b1 as bv32) << 8) | ((b2 as bv32) << 16) | ((b3 as bv32) << 24)
    ensures WordBytes(w) == [b0, b1, b2, b3]
  {
  }

  lemma WordRoundTripAt(w: bv32, h: seq<byte>, i: nat)
    requires i + 4 <= |h|
    ensures ReadWord(h, i) == w <==> h[i..i + 4] == WordBytes(w)
  {
    hide ReadWord, WordBytes;
    WordWritesBack(h, i);
    if h[i..i + 4] == WordBytes(w) {
      WordRoundTrip(w, h, i);
    }
  }

  /** Every buffer that long has a size field. */
  lemma SizeField(data: seq<byte>) returns (n: nat)
    requires 19 <= |data|
    ensures n < 0x1_0000 && data[17..19] == U16Bytes(n)
  {
    hide Byte, U8;
    var low, high := U8(data[17]), U8(data[18]);
    n := low + 0x100 * high;
    assert n % 0x100 == low && n / 0x100 == high;
    SameByte(data[17], Byte(low));
    SameByte(data[18], Byte(high));
  }

  lemma SameByte(a: byte, b: byte)
    requires U8(a) == U8(b)
    ensures a == b
  {
    assert a == (a as int) as byte && b == (b as int) as byte;
  }

  /** A complete header passes exactly if it is long enough for its checksums, its revision is at least 4, and
      the checksum stored in it is that of all before. */
  lemma ValidatedExactly(h: seq<byte>)
    requires 36 <= |h|
    ensures Validated(h).Some? <==>
      && 44 <= |h| && h[16] as int >= 4
      && h[|h| - 8..|h| - 4] == WordBytes(Checksum(h[..|h| - 8]))
    ensures Validated(h).Some? ==>
      Validated(h).value.offset == |h| && WordBytes(Validated(h).value.payloadCrc) == h[|h| - 4..]
  {
    hide ReadWord, WordBytes, Checksum, PackageSize;
    if 44 <= |h| {
      WordRoundTripAt(Checksum(h[..|h| - 8]), h, |h| - 8);
      WordWritesBack(h, |h| - 4);
    }
  }

  lemma DescriptorIn(h: seq<byte>)
    ensures HasDescriptor(h) <==> exists i: nat :: i < |h| && Holds(h, i, DESCRIPTOR)
  {
    assert forall i: nat :: HasDescriptorAt(h, i) <==> Holds(h, i, DESCRIPTOR);
  }

  /** Any buffer, with n as its size field. More is waited for exactly while a header of 36 to 4096 bytes is
      not complete. The header is accepted exactly if it is complete and long enough for its checksums, its
      revision is at least 4, the descriptor of the component is somewhere in it, and the checksum stored in
      it is that of all before. The payload then starts behind it, and its checksum is in its last bytes. */
  lemma AcceptedExactly(data: seq<byte>, n: nat)
    requires 19 <= |data| && n < 0x1_0000 && data[17..19] == U16Bytes(n)
    ensures VerdictOn(data) == NeedMore <==> 36 <= n <= 4096 && |data| < n
    ensures VerdictOn(data).Accept? <==>
      && 44 <= n <= 4096 && n <= |data| && data[16] as int >= 4
      && (exists i: nat :: i < n && Holds(data[..n], i, DESCRIPTOR))
      && data[n - 8..n - 4] == WordBytes(Checksum(data[..n - 8]))
    ensures VerdictOn(data).Accept? ==>
      VerdictOn(data).comp.offset == n && WordBytes(VerdictOn(data).comp.payloadCrc) == data[n - 4..n]
  {
    hide ReadU16, U16Bytes, WordBytes, Checksum, HasDescriptor, Validated, Holds;
    U16RoundTrip(n, data, 17);
    if 36 <= n <= |data| {
      var h := data[..n];
      DescriptorIn(h);
      ValidatedExactly(h);
      if 44 <= n {
        assert h[..n - 8] == data[..n - 8] && h[n - 8..n - 4] == data[n - 8..n - 4] && h[n - 4..] == data[n - 4..n];
      }
    }
  }

  /** A written header that was altered before its checksums inside 4 consecutive bytes, but not in its size
      field, is rejected, whatever follows it. */
  lemma AlteredHeaderIsRejected(p: Package, altered: seq<byte>, k: nat, rest: seq<byte>)
    requires Valid(p) && HeaderLength(p) <= 4096
    requires |altered| == |BodyBytes(p)| && altered != BodyBytes(p) && altered[17..19] == BodyBytes(p)[17..19]
    requires forall i :: 0 <= i < |altered| && !(k <= i < k + 4) ==> altered[i] == BodyBytes(p)[i]
    ensures VerdictOn(altered + WordBytes(Checksum(BodyBytes(p))) + WordBytes(p.payloadCrc) + rest) == Reject
  {
    hide VerdictOn, Checksum, WordBytes, BodyBytes, U16Bytes;
    var body, n := BodyBytes(p), HeaderLength(p);
    var check, crc := WordBytes(Checksum(body)), WordBytes(p.payloadCrc);
    var data := altered + check + crc + rest;
    BodySize(p);
    assert data[17..19] == altered[17..19];
    AcceptedExactly(data, n);
    FourByteCorruptionDetected(body, altered, k);
    assert data[..n - 8] == altered && data[n - 8..n - 4] == check;
    if check == WordBytes(Checksum(altered)) {
      WordRoundTrip(Checksum(body), check, 0);
      WordRoundTrip(Checksum(altered), check, 0);
    }
  }

  /** The size field of a written header is its length. */
  lemma BodySize(p: Package)
    requires Valid(p) && HeaderLength(p) < 0x1_0000
    ensures |BodyBytes(p)| + 8 == HeaderLength(p) && BodyBytes(p)[17..19] == U16Bytes(HeaderLength(p))
  {
    hide U16Bytes, TableBytes;
  }

  // ----- Why opaque data is excluded -----

  /** Where the walk reads `count` components from `offset`. */
  ghost function Visited(h: seq<byte>, offset: nat, count: nat): (at: seq<nat>)
    ensures |at| <= count && forall i :: 0 <= i < |at| ==> at[i] + COMPONENT_FIXED_SIZE <= |h|
    decreases count
  {
    if count == 0 || offset + COMPONENT_FIXED_SIZE > |h| then
      []
    else
      var step := COMPONENT_FIXED_SIZE + U8(h[offset + COMPONENT_VERSION_LENGTH_OFFSET]) + COMPONENT_OPAQUE_LENGTH_SIZE;
      [offset] + Visited(h, offset + step, count - 1)
  }

  /** The largest location plus size of what is read as components there, and of `end`. */
  ghost function LargestEnd(h: seq<byte>, at: seq<nat>, end: nat): nat
    requires forall i :: 0 <= i < |at| ==> at[i] + COMPONENT_FIXED_SIZE <= |h|
  {
    if at == [] then
      end
    else
      var location := ReadU32(h, at[0] + COMPONENT_LOCATION_OFFSET);
      var size := ReadU32(h, at[0] + COMPONENT_SIZE_OFFSET);
      LargestEnd(h, at[1..], Max(end, location + size))
  }

  /** The component loop gives the largest end of what it reads there, or 0 if the header ends first. */
  lemma {:induction false} WalkReadsVisited(h: seq<byte>, offset: nat, count: nat, end: nat)
    ensures
      var at := Visited(h, offset, count);
      LastEnd(h, offset, count, end) == if |at| == count then LargestEnd(h, at, end) else 0
    decreases count
  {
    hide ReadU32, U8;
    if count > 0 && offset + COMPONENT_FIXED_SIZE <= |h| {
      var location := ReadU32(h, offset + COMPONENT_LOCATION_OFFSET);
      var size := ReadU32(h, offset + COMPONENT_SIZE_OFFSET);
      var step := COMPONENT_FIXED_SIZE + U8(h[offset + COMPONENT_VERSION_LENGTH_OFFSET]) + COMPONENT_OPAQUE_LENGTH_SIZE;
      WalkReadsVisited(h, offset + step, count - 1, Max(end, location + size));
      assert Visited(h, offset, count)[1..] == Visited(h, offset + step, count - 1);
    }
  }

  /** Where the components start. */
  ghost function Starts(offset: nat, cs: seq<Component>): seq<nat>
    requires ValidComponents(cs)
    decreases |cs|
  {
    if cs == [] then [] else [offset] + Starts(offset + |ComponentBytes(cs[0])|, cs[1..])
  }

  lemma OpaqueOnlyLastRest(cs: seq<Component>)
    requires cs != []
    ensures OpaqueOnlyLast(cs) <==> OpaqueOnlyLast(cs[1..]) && (|cs| > 1 ==> cs[0].opaqueData == [])
  {
    assert forall i :: 0 <= i < |cs| - 1 ==> cs[1..][i] == cs[i + 1];
  }

  /** The two lists agree if their first elements do and the rest do. */
  lemma FirstAndRest(visited: seq<nat>, starts: seq<nat>)
    requires visited != [] && starts != [] && visited[0] == starts[0]
    ensures visited == starts <==> visited[1..] == starts[1..]
    ensures |visited| > 1 && |starts| > 1 && visited[1] != starts[1] ==> visited != starts
  {
    assert visited == [visited[0]] + visited[1..] && starts == [starts[0]] + starts[1..];
  }

  /** The walk reads the first component, and goes on behind it if it has no opaque data. */
  lemma VisitedStep(h: seq<byte>, offset: nat, cs: seq<Component>)
    requires ValidComponents(cs) && cs != [] && Holds(h, offset, ComponentsBytes(cs))
    ensures
      var first, c := ComponentBytes(cs[0]), cs[0];
      && Holds(h, offset + |first|, ComponentsBytes(cs[1..]))
      && |first| >= |c.opaqueData|
      && Visited(h, offset, |cs|) == [offset] + Visited(h, offset + |first| - |c.opaqueData|, |cs| - 1)
  {
    hide ReadU32, U8, ComponentBytes, ComponentsBytes, Holds;
    var c, first, rest := cs[0], ComponentBytes(cs[0]), ComponentsBytes(cs[1..]);
    FirstOfComponents(cs);
    HoldsPart(h, offset, [], first, rest);
    ReadComponent(h, offset, c);
    HoldsPart(h, offset, first, rest, []);
    Fits(h, offset, first);
  }

  lemma FirstOfComponents(cs: seq<Component>)
    requires ValidComponents(cs) && cs != []
    ensures ComponentsBytes(cs) == [] + ComponentBytes(cs[0]) + ComponentsBytes(cs[1..])
    ensures ComponentsBytes(cs) == ComponentBytes(cs[0]) + ComponentsBytes(cs[1..]) + []
  {
    hide ComponentBytes;
  }

  lemma Fits(h: seq<byte>, offset: nat, s: seq<byte>)
    requires Holds(h, offset, s)
    ensures offset + |s| <= |h|
  {
  }

  /** What the walk visits starts where it starts. */
  lemma VisitedFirst(h: seq<byte>, offset: nat, count: nat)
    ensures Visited(h, offset, count) != [] ==> Visited(h, offset, count)[0] == offset
  {
  }

  /** The walk reads the components where they start exactly if none but the last has opaque data. */
  lemma {:induction false} InStepWithoutOpaqueData(h: seq<byte>, offset: nat, cs: seq<Component>)
    requires ValidComponents(cs) && Holds(h, offset, ComponentsBytes(cs))
    ensures Visited(h, offset, |cs|) == Starts(offset, cs) <==> OpaqueOnlyLast(cs)
    decreases |cs|
  {
    hide ComponentBytes, ComponentsBytes, OpaqueOnlyLast, Holds, Visited;
    if cs == [] {
      NoComponents(cs);
      assert Visited(h, offset, 0) == [];
    } else {
      VisitedStep(h, offset, cs);
      OpaqueOnlyLastRest(cs);
      var next, skipped := offset + |ComponentBytes(cs[0])|, |cs[0].opaqueData|;
      InStepWithoutOpaqueData(h, next, cs[1..]);
      VisitedFirst(h, next - skipped, |cs| - 1);
      FirstAndRest(Visited(h, offset, |cs|), Starts(offset, cs));
    }
  }

  lemma NoComponents(cs: seq<Component>)
    requires cs == []
    ensures OpaqueOnlyLast(cs)
  {
  }

  /** For a written header: its walk reads the components where they start exactly if none but the last
      has opaque data, and what it gives is the largest end of what it reads. */
  lemma WalkInStep(p: Package)
    requires Valid(p) && HeaderLength(p) < 0x1_0000
    ensures
      var h := HeaderBytes(p);
      var at := Visited(h, TableStart(p), |p.components|);
      && (at == Starts(TableStart(p), p.components) <==> OpaqueOnlyLast(p.components))
      && PackageSize(h) == if |at| == |p.components| then LargestEnd(h, at, 0) else 0
  {
    hide HeaderBytes, PackageSize, LastEnd, Holds, TableBytes, ComponentsBytes, OpaqueOnlyLast, Visited, LargestEnd;
    WalkReachesTable(p);
    InStepWithoutOpaqueData(HeaderBytes(p), TableStart(p), p.components);
    WalkReadsVisited(HeaderBytes(p), TableStart(p), |p.components|, 0);
  }

  // ----- A package that is misread -----

  /** A package for the IST vectors component. */
  ghost function Sample(components: seq<Component>, payloadCrc: bv32): Package {
    Package(seq(16, _ => 0), 4, seq(13, _ => 0), seq(2, _ => 0), 0, [], [DESCRIPTOR], components, payloadCrc)
  }

  lemma SampleIsValid(components: seq<Component>, payloadCrc: bv32)
    requires ValidComponents(components) && |components| < 0x1_0000 && |ComponentsBytes(components)| < 4000
    ensures
      var p := Sample(components, payloadCrc);
      Valid(p) && HeaderLength(p) == 70 + |ComponentsBytes(components)| && TableStart(p) == 62
  {
    hide ComponentsBytes, U16Bytes;
    var p := Sample(components, payloadCrc);
    assert p.devices[1..] == [];
    assert DevicesBytes(p.devices) == DeviceBytes(DESCRIPTOR) + [];
  }

  /** A sample package is accepted, whatever follows its header. */
  lemma SampleIsAccepted(components: seq<Component>, payloadCrc: bv32, payload: seq<byte>)
    requires ValidComponents(components) && |components| < 0x1_0000 && |ComponentsBytes(components)| < 4000
    ensures
      var p := Sample(components, payloadCrc);
      && Valid(p) && HeaderLength(p) < 0x1_0000
      && var h := HeaderBytes(p);
         VerdictOn(h + payload) == Accept(ComponentInfo(|h|, payloadCrc, Behind(PackageSize(h), |h|)))
  {
    SampleIsValid(components, payloadCrc);
    var p := Sample(components, payloadCrc);
    hide VerdictOn, HeaderBytes, PackageSize, HasDescriptor, HeaderLength, Sample;
    ReaderAccepts(p, payload);
    SampleNamesComponent(components, payloadCrc);
    assert U8(p.revision) == 4 by {
      SampleRevision(components, payloadCrc);
    }
  }

  lemma SampleRevision(components: seq<Component>, payloadCrc: bv32)
    ensures U8(Sample(components, payloadCrc).revision) == 4
  {
  }

  lemma SampleNamesComponent(components: seq<Component>, payloadCrc: bv32)
    requires ValidComponents(components) && |components| < 0x1_0000 && |ComponentsBytes(components)| < 4000
    ensures
      var p := Sample(components, payloadCrc);
      Valid(p) && HeaderLength(p) < 0x1_0000 && HasDescriptor(HeaderBytes(p))
  {
    SampleIsValid(components, payloadCrc);
    var p := Sample(components, payloadCrc);
    var h, at := HeaderBytes(p), MIN_HEADER_SIZE;
    hide HeaderBytes, HeaderLength, PackageSize, LastEnd, ComponentsBytes, U16Bytes;
    WalkReachesTable(p);
    TableParts(p, h, at);
    assert p.devices[1..] == [];
    assert DevicesBytes(p.devices) == U16Bytes(22) + DESCRIPTOR + [];
    HoldsPart(h, at + 1, U16Bytes(22), DESCRIPTOR, []);
    assert HasDescriptorAt(h, at + 3);
  }

  /** An empty component with one byte of opaque data, and one that ends at 65536. */
  ghost function WithOpaqueData(): Component {
    Component(seq(12, _ => 0), 0, 0, 0, [], [0])
  }

  ghost function Behind65536(): Component {
    Component(seq(12, _ => 0), 0, 0x1_0000, 0, [], [])
  }

  lemma SmallFields()
    ensures Byte(0) == 0 && U32Bytes(0) == [0, 0, 0, 0] && U32Bytes(1) == [1, 0, 0, 0]
    ensures U32Bytes(0x1_0000) == [0, 0, 1, 0]
  {
    assert Byte(1) == 1;
    assert U16Bytes(0) == [0, 0] && U16Bytes(1) == [1, 0];
  }

  lemma OpaqueRow()
    ensures ValidComponent(WithOpaqueData())
    ensures
      var s := ComponentBytes(WithOpaqueData());
      |s| == 27 && s[22] == 1 && forall i :: 0 <= i < 27 && i != 22 ==> s[i] == 0
  {
    SmallFields();
    hide U32Bytes, Byte;
    var c := WithOpaqueData();
    assert ComponentBytes(c) == c.lead + [0, 0, 0, 0, 0, 0, 0, 0, 0, 0, 1, 0, 0, 0, 0];
  }

  lemma PlainRow()
    ensures ValidComponent(Behind65536())
    ensures
      var s := ComponentBytes(Behind65536());
      |s| == 26 && s[18] == 1 && forall i :: 0 <= i < 26 && i != 18 ==> s[i] == 0
  {
    SmallFields();
    hide U32Bytes, Byte;
    var d := Behind65536();
    assert ComponentBytes(d) == d.lead + [0, 0, 0, 0, 0, 0, 1, 0, 0, 0, 0, 0, 0, 0];
  }

  /** The table of the two. */
  lemma TwoRows()
    ensures ValidComponents([WithOpaqueData(), Behind65536()])
    ensures
      var t := ComponentsBytes([WithOpaqueData(), Behind65536()]);
      |t| == 53 && t[22] == 1 && t[45] == 1 && forall i :: 0 <= i < 53 && i != 22 && i != 45 ==> t[i] == 0
  {
    OpaqueRow();
    PlainRow();
    hide ComponentBytes, WithOpaqueData, Behind65536;
    var cs := [WithOpaqueData(), Behind65536()];
    assert cs[1..] == [Behind65536()] && cs[1..][1..] == [];
    assert ComponentsBytes(cs) == ComponentBytes(WithOpaqueData()) + (ComponentBytes(Behind65536()) + []);
  }

  lemma ZeroBytes(h: seq<byte>, i: nat)
    requires i + 4 <= |h| && h[i] == h[i + 1] == h[i + 2] == 0
    ensures h[i + 3] == 0 ==> ReadU32(h, i) == 0
    ensures h[i + 3] == 1 ==> ReadU32(h, i) == 0x100_0000
  {
    assert U8(0) == 0 && U8(1) == 1;
  }

  /** Behind the opaque byte the walk is one byte early, and reads the size 256 times too large. */
  lemma WalkOneByteEarly(h: seq<byte>, at: nat, t: seq<byte>)
    requires |t| == 53 && Holds(h, at, t)
    requires t[45] == 1 && forall i :: 0 <= i < 53 && i != 22 && i != 45 ==> t[i] == 0
    ensures LastEnd(h, at, 2, 0) == 0x100_0000
  {
    var s := h[at..at + 53];
    assert s[12] == s[13] == s[14] == s[15] == s[16] == s[17] == s[38] == s[39] == s[40] == s[41] == 0;
    assert s[18] == s[19] == s[21] == s[42] == s[43] == s[44] == s[47] == 0 && s[45] == 1;
    ZeroBytes(h, at + 12);
    ZeroBytes(h, at + 16);
    ZeroBytes(h, at + 38);
    ZeroBytes(h, at + 42);
    TwoSteps(h, at);
  }

  lemma TwoSteps(h: seq<byte>, at: nat)
    requires at + 53 <= |h| && h[at + 21] == 0 && h[at + 47] == 0
    requires ReadU32(h, at + 12) == 0 && ReadU32(h, at + 16) == 0
    requires ReadU32(h, at + 38) == 0 && ReadU32(h, at + 42) == 0x100_0000
    ensures LastEnd(h, at, 2, 0) == 0x100_0000
  {
    assert U8(0) == 0;
    hide U8, ReadU32;
    assert LastEnd(h, at, 2, 0) == LastEnd(h, at + 26, 1, 0) == LastEnd(h, at + 52, 0, 0x100_0000);
  }

  ghost function Misread(): Package {
    Sample([WithOpaqueData(), Behind65536()], 0)
  }

  lemma MisreadParts()
    ensures
      var cs, p := [WithOpaqueData(), Behind65536()], Misread();
      && ValidComponents(cs) && |ComponentsBytes(cs)| == 53 && p == Sample(cs, 0) && p.components == cs
      && Valid(p) && HeaderLength(p) == 123 && TableStart(p) == 62
  {
    hide ComponentsBytes, WithOpaqueData, Behind65536, HeaderLength, TableStart;
    TwoRows();
    SampleIsValid([WithOpaqueData(), Behind65536()], 0);
  }

  lemma MisreadEnd()
    ensures MaxEnd(Misread().components) == 0x1_0000
  {
    var cs := [WithOpaqueData(), Behind65536()];
    assert cs[1..] == [Behind65536()] && cs[1..][1..] == [];
  }

  lemma MisreadSize()
    requires Valid(Misread()) && HeaderLength(Misread()) < 0x1_0000
    ensures PackageSize(HeaderBytes(Misread())) == 0x100_0000
  {
    hide ComponentsBytes, HeaderBytes, PackageSize, LastEnd, Sample, WithOpaqueData, Behind65536, Misread,
      HeaderLength, TableStart, Holds, TableBytes;
    MisreadParts();
    TwoRows();
    WalkReachesTable(Misread());
    WalkOneByteEarly(HeaderBytes(Misread()), 62, ComponentsBytes([WithOpaqueData(), Behind65536()]));
  }

  /** The walk steps over the length of the opaque data of a component but not over the data: of this
      package, accepted whatever follows its header, it takes the size to be 16 MiB and not 64 KiB. */
  lemma WalkMisreadsOpaqueData(payload: seq<byte>)
    ensures
      var p := Misread();
      && Valid(p) && HeaderLength(p) < 0x1_0000 && MaxEnd(p.components) == 0x1_0000
      && var h := HeaderBytes(p);
         |h| == 123 && VerdictOn(h + payload) == Accept(ComponentInfo(|h|, 0, 0x100_0000 - |h|))
  {
    hide ComponentsBytes, HeaderBytes, PackageSize, Sample, VerdictOn, MaxEnd, WithOpaqueData, Behind65536, Misread,
      HeaderLength, TableStart;
    MisreadParts();
    MisreadEnd();
    MisreadSize();
    SampleIsAccepted([WithOpaqueData(), Behind65536()], 0, payload);
  }
}
