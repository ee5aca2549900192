/** The mount-point reparse buffer written for a category link, and how the file system reads it back. */
module JunctionBuffers {
  import opened Collections

  newtype u8 = x: int | 0 <= x < 0x100
  newtype u16 = x: int | 0 <= x < 0x1_0000
  newtype u32 = x: int | 0 <= x < 0x1_0000_0000

  const IO_REPARSE_TAG_MOUNT_POINT: u32 := 0xA000_0003
  const HEADER_BYTES: nat := 16
  const PATH_INFO_BYTES: u16 := 8
  const WIDE: nat := 2

  // ---------- names ----------

  /** UTF-16 for the Win32 long-path prefix and for the NT namespace prefix. */
  const WIN32_PREFIX: seq<u16> := [0x5C, 0x5C, 0x3F, 0x5C]
  const NT_PREFIX: seq<u16> := [0x5C, 0x3F, 0x3F, 0x5C]

  /** The path without a Win32 long-path prefix. */
  function PlainPath(path: seq<u16>): (r: seq<u16>) {
    if WIN32_PREFIX <= path then path[4..] else path
  }

  /** Prefix a path with the NT namespace, collapsing a Win32 prefix into it. */
  method NtSubstituteName(display: seq<u16>) returns (out: seq<u16>)
    ensures |display| >= 4 && display[..4] == [0x5C, 0x5C, 0x3F, 0x5C] ==> out == [0x5C, 0x3F, 0x3F, 0x5C] + display[4..]
    ensures !(|display| >= 4 && display[..4] == [0x5C, 0x5C, 0x3F, 0x5C]) ==> out == [0x5C, 0x3F, 0x3F, 0x5C] + display
    ensures out == NT_PREFIX + PlainPath(display)
  {
    out := [];
    out := out + NT_PREFIX;
    if WIN32_PREFIX <= display {
      out := out + display[4..];
    } else {
      out := out + display;
    }
  }

  // ---------- reading a buffer, by section 2.1.2.5 of MS-FSCC ----------

  function U16At(buf: seq<u8>, offset: nat): (r: u16)
    requires offset + 2 <= |buf|
  {
    buf[offset] as u16 + 0x100 * buf[offset + 1] as u16
  }

  function U32At(buf: seq<u8>, offset: nat): (r: u32)
    requires offset + 4 <= |buf|
  {
    U16At(buf, offset) as u32 + 0x1_0000 * U16At(buf, offset + 2) as u32
  }

  function UnitsAt(buf: seq<u8>, offset: nat, count: nat): (r: seq<u16>)
    requires offset + 2 * count <= |buf|
    ensures |r| == count
    ensures forall i :: 0 <= i < count ==> r[i] == U16At(buf, offset + 2 * i)
  {
    seq(count, i requires 0 <= i < count => U16At(buf, offset + 2 * i))
  }

  datatype MountPoint = MountPoint(substitute: seq<u16>, display: seq<u16>)

  /** The names of a well-formed mount-point buffer. */
  function Decode(buf: seq<u8>): (r: Option<MountPoint>) {
    if |buf| < HEADER_BYTES then None
    else
      var subOffset, subLength := U16At(buf, 8) as nat, U16At(buf, 10) as nat;
      var printOffset, printLength := U16At(buf, 12) as nat, U16At(buf, 14) as nat;
      if U32At(buf, 0) != IO_REPARSE_TAG_MOUNT_POINT || U16At(buf, 4) as nat + 8 != |buf|
         || subLength % 2 != 0 || printLength % 2 != 0
         || HEADER_BYTES + subOffset + subLength > |buf| || HEADER_BYTES + printOffset + printLength > |buf|
      then None
      else Some(MountPoint(
        UnitsAt(buf, HEADER_BYTES + subOffset, subLength / 2),
        UnitsAt(buf, HEADER_BYTES + printOffset, printLength / 2)))
  }

  // ---------- building it ----------

  function TryU16(n: nat): (r: Option<u16>)
    ensures r.Some? <==> n < 0x1_0000
    ensures r.Some? ==> r.value as nat == n
  {
    if n < 0x1_0000 then Some(n as u16) else None
  }

  function CheckedAdd(a: Option<u16>, b: u16): (r: Option<u16>)
    ensures r.Some? <==> a.Some? && a.value as nat + b as nat < 0x1_0000
    ensures r.Some? ==> r.value as nat == a.value as nat + b as nat
  {
    match a case None => None case Some(v) => TryU16(v as nat + b as nat)
  }

  method WriteU16(buf: array<u8>, offset: nat, value: u16)
    requires offset + 2 <= buf.Length
    modifies buf
    ensures U16At(buf[..], offset) == value
    ensures forall k :: 0 <= k < buf.Length && k != offset && k != offset + 1 ==> buf[k] == old(buf[k])
  {
    buf[offset] := (value % 0x100) as u8;
    buf[offset + 1] := (value / 0x100) as u8;
  }

  method WriteU32(buf: array<u8>, offset: nat, value: u32)
    requires offset + 4 <= buf.Length
    modifies buf
    ensures U32At(buf[..], offset) == value
    ensures forall k :: 0 <= k < buf.Length && !(offset <= k < offset + 4) ==> buf[k] == old(buf[k])
  {
    WriteU16(buf, offset, (value % 0x1_0000) as u16);
    ghost var low := buf[..];
    WriteU16(buf, offset + 2, (value / 0x1_0000) as u16);
    SameUnit(low, buf[..], offset);
  }

  lemma SameUnit(a: seq<u8>, b: seq<u8>, offset: nat)
    requires offset + 2 <= |a| && offset + 2 <= |b| && a[offset] == b[offset] && a[offset + 1] == b[offset + 1]
    ensures U16At(a, offset) == U16At(b, offset)
  {
  }

  /** Write a name unit by unit from `start`. */
  method WriteName(buf: array<u8>, start: nat, name: seq<u16>) returns (cursor: nat)
    requires start + WIDE * |name| <= buf.Length
    modifies buf
    ensures cursor == start + WIDE * |name|
    ensures UnitsAt(buf[..], start, |name|) == name
    ensures forall k :: 0 <= k < buf.Length && !(start <= k < cursor) ==> buf[k] == old(buf[k])
  {
    cursor := start;
    for i := 0 to |name|
      invariant cursor == start + WIDE * i
      invariant forall j :: 0 <= j < i ==> U16At(buf[..], start + WIDE * j) == name[j]
      invariant forall k :: 0 <= k < buf.Length && !(start <= k < cursor) ==> buf[k] == old(buf[k])
    {
      ghost var before := buf[..];
      WriteU16(buf, cursor, name[i]);
      forall j | 0 <= j < i
        ensures U16At(buf[..], start + WIDE * j) == name[j]
      {
        SameUnit(before, buf[..], start + WIDE * j);
      }
      cursor := cursor + WIDE;
    }
  }

  /** The eight fixed fields in front of the names. */
  method WriteHeader(buf: array<u8>, subBytes: u16, printBytes: u16)
    requires buf.Length >= HEADER_BYTES && buf.Length == subBytes as nat + printBytes as nat + 20
    requires buf.Length <= 0x1_0007
    requires forall k :: 0 <= k < buf.Length ==> buf[k] == 0
    modifies buf
    ensures HeaderOk(buf[..], subBytes, printBytes)
    ensures forall k :: HEADER_BYTES <= k < buf.Length ==> buf[k] == 0
  {
    WriteU32(buf, 0, IO_REPARSE_TAG_MOUNT_POINT);
    ghost var b0 := buf[..];
    WriteU16(buf, 4, subBytes + printBytes + 4 + PATH_INFO_BYTES);
    ghost var b1 := buf[..];
    WriteU16(buf, 8, 0);
    WriteU16(buf, 10, subBytes);
    ghost var b2 := buf[..];
    WriteU16(buf, 12, subBytes + 2);
    WriteU16(buf, 14, printBytes);
    SameUnit(b0, buf[..], 0);
    SameUnit(b0, buf[..], 2);
    SameUnit(b1, buf[..], 4);
    SameUnit(b2, buf[..], 10);
  }

  predicate HeaderOk(buf: seq<u8>, subBytes: u16, printBytes: u16)
    requires |buf| >= HEADER_BYTES
  {
    && U32At(buf, 0) == IO_REPARSE_TAG_MOUNT_POINT
    && U16At(buf, 4) as nat + 8 == |buf| == subBytes as nat + printBytes as nat + 20
    && buf[6] == 0 && buf[7] == 0
    && U16At(buf, 8) == 0 && U16At(buf, 10) == subBytes
    && U16At(buf, 12) as nat == subBytes as nat + 2 && U16At(buf, 14) == printBytes
  }

  lemma HeaderSame(a: seq<u8>, b: seq<u8>, subBytes: u16, printBytes: u16)
    requires |a| == |b| >= HEADER_BYTES && a[..HEADER_BYTES] == b[..HEADER_BYTES] && HeaderOk(a, subBytes, printBytes)
    ensures HeaderOk(b, subBytes, printBytes)
  {
  }

  /** The length of the buffer the names need, past the 8 bytes that `ReparseDataLength` does not count. */
  function DataLength(substitute: seq<u16>, display: seq<u16>): (r: nat) {
    WIDE * |substitute| + WIDE * |display| + 2 * WIDE + 8
  }

  /**
    Build the buffer for a pair of names. They are rejected exactly when the data length does not fit its 16-bit
    field; otherwise nothing wraps, every write is in bounds, and decoding gives back both names, each followed by a
    NUL in the buffer.
   */
  method WriteMountPoint(substitute: seq<u16>, display: seq<u16>) returns (r: Option<seq<u8>>)
    ensures r.None? <==> DataLength(substitute, display) >= 0x1_0000
    ensures r.Some? ==> |r.value| == DataLength(substitute, display) + 8
                        && Decode(r.value) == Some(MountPoint(substitute, display))
    ensures r.Some? ==> WireFormat(r.value, substitute, display)
  {
    hide Decode, HeaderOk;
    var subBytes := TryU16(WIDE * |substitute|);
    var printBytes := TryU16(WIDE * |display|);
    if subBytes.None? || printBytes.None? {
      return None;
    }
    var pathBufferBytes := CheckedAdd(CheckedAdd(CheckedAdd(subBytes, 2), printBytes.value), 2);
    if pathBufferBytes.None? {
      return None;
    }
    var dataLength := CheckedAdd(pathBufferBytes, PATH_INFO_BYTES);
    if dataLength.None? {
      return None;
    }
    var total := HEADER_BYTES + pathBufferBytes.value as nat;
    var buf := new u8[total](_ => 0);
    WriteHeader(buf, subBytes.value, printBytes.value);
    ghost var header := buf[..];
    var cursor := WriteName(buf, HEADER_BYTES, substitute);
    ghost var first := buf[..];
    cursor := cursor + WIDE;
    cursor := WriteName(buf, cursor, display);
    NameKept(first, buf[..], HEADER_BYTES, substitute);
    assert header[..HEADER_BYTES] == buf[..][..HEADER_BYTES];
    HeaderSame(header, buf[..], subBytes.value, printBytes.value);
    WireWritten(buf[..], substitute, display, subBytes.value, printBytes.value);
    DecodeWritten(buf[..], substitute, display, subBytes.value, printBytes.value);
    r := Some(buf[..]);
  }

  /**
    The bytes on the wire: tag, data length, four zero bytes (reserved field and first offset), the length of the first
    name, offset and length of the second, then both names, each followed by a NUL; every number has its low byte first.
   */
  predicate WireFormat(buf: seq<u8>, substitute: seq<u16>, display: seq<u16>) {
    var m, n := |substitute|, |display|;
    && |buf| == 16 + 2 * m + 2 + 2 * n + 2
    && buf[..4] == [0x03, 0x00, 0x00, 0xA0]
    && buf[4] as int + 0x100 * buf[5] as int == |buf| - 8
    && buf[6..10] == [0, 0, 0, 0]
    && buf[10] as int + 0x100 * buf[11] as int == 2 * m
    && buf[12] as int + 0x100 * buf[13] as int == 2 * m + 2
    && buf[14] as int + 0x100 * buf[15] as int == 2 * n
    && (forall i :: 0 <= i < m ==>
          buf[16 + 2 * i] as int == substitute[i] as int % 0x100 && buf[17 + 2 * i] as int == substitute[i] as int / 0x100)
    && buf[16 + 2 * m] == buf[17 + 2 * m] == 0
    && (forall i :: 0 <= i < n ==>
          && buf[18 + 2 * m + 2 * i] as int == display[i] as int % 0x100
          && buf[19 + 2 * m + 2 * i] as int == display[i] as int / 0x100)
    && buf[|buf| - 2] == buf[|buf| - 1] == 0
  }

  lemma UnitBytes(buf: seq<u8>, start: nat, name: seq<u16>)
    requires start + 2 * |name| <= |buf| && UnitsAt(buf, start, |name|) == name
    ensures forall i :: 0 <= i < |name| ==>
              buf[start + 2 * i] as int == name[i] as int % 0x100 && buf[start + 1 + 2 * i] as int == name[i] as int / 0x100
  {
    forall i | 0 <= i < |name|
      ensures buf[start + 2 * i] as int == name[i] as int % 0x100 && buf[start + 1 + 2 * i] as int == name[i] as int / 0x100
    {
      assert name[i] == U16At(buf, start + 2 * i);
    }
  }

  lemma WireWritten(buf: seq<u8>, substitute: seq<u16>, display: seq<u16>, subBytes: u16, printBytes: u16)
    requires |buf| >= HEADER_BYTES && HeaderOk(buf, subBytes, printBytes)
    requires subBytes as nat == WIDE * |substitute| && printBytes as nat == WIDE * |display|
    requires UnitsAt(buf, HEADER_BYTES, |substitute|) == substitute
    requires UnitsAt(buf, HEADER_BYTES + subBytes as nat + WIDE, |display|) == display
    requires var end := HEADER_BYTES + WIDE * |substitute|; buf[end] == buf[end + 1] == 0
    requires buf[|buf| - 2] == buf[|buf| - 1] == 0
    ensures WireFormat(buf, substitute, display)
  {
    UnitBytes(buf, 16, substitute);
    UnitBytes(buf, 18 + 2 * |substitute|, display);
  }

  /** A buffer with the right header and the names behind it decodes to them. */
  lemma DecodeWritten(buf: seq<u8>, substitute: seq<u16>, display: seq<u16>, subBytes: u16, printBytes: u16)
    requires |buf| >= HEADER_BYTES && HeaderOk(buf, subBytes, printBytes)
    requires subBytes as nat == WIDE * |substitute| && printBytes as nat == WIDE * |display|
    requires UnitsAt(buf, HEADER_BYTES, |substitute|) == substitute
    requires UnitsAt(buf, HEADER_BYTES + subBytes as nat + WIDE, |display|) == display
    ensures Decode(buf) == Some(MountPoint(substitute, display))
  {
  }

  /** A name survives writes behind it. */
  lemma NameKept(a: seq<u8>, b: seq<u8>, start: nat, name: seq<u16>)
    requires |a| == |b| && start + WIDE * |name| <= |a|
    requires forall k :: start <= k < start + WIDE * |name| ==> a[k] == b[k]
    requires UnitsAt(a, start, |name|) == name
    ensures UnitsAt(b, start, |name|) == name
  {
  }

  /**
    A junction to `target`: the buffer that is written displays `target` and resolves to it in the NT namespace, where a
    Win32 prefix `\\?\` of the target gives way to the NT prefix `\??\`.
   */
  method JunctionBuffer(target: seq<u16>) returns (r: Option<seq<u8>>)
    ensures r.None? <==> 4 * |target| + (if [0x5C, 0x5C, 0x3F, 0x5C] <= target then 12 else 20) >= 0x1_0000
    ensures r.Some? ==> Decode(r.value).Some? && Decode(r.value).value.display == target
    ensures r.Some? && !([0x5C, 0x5C, 0x3F, 0x5C] <= target) ==>
              Decode(r.value).value.substitute == [0x5C, 0x3F, 0x3F, 0x5C] + target
    ensures forall rest: seq<u16> :: r.Some? && target == [0x5C, 0x5C, 0x3F, 0x5C] + rest ==>
              Decode(r.value).value.substitute == [0x5C, 0x3F, 0x3F, 0x5C] + rest
    ensures r.Some? ==> WireFormat(r.value, NT_PREFIX + PlainPath(target), target)
  {
    var substitute := NtSubstituteName(target);
    r := WriteMountPoint(substitute, target);
  }

  /** Two targets share a junction destination exactly when they are the same path up to the Win32 prefix. */
  lemma SameDestination(a: seq<u16>, b: seq<u16>)
    ensures PlainPath(a) == if |a| >= 4 && a[..4] == [0x5C, 0x5C, 0x3F, 0x5C] then a[4..] else a
    ensures NT_PREFIX + PlainPath(a) == NT_PREFIX + PlainPath(b) <==> PlainPath(a) == PlainPath(b)
    ensures PlainPath(WIN32_PREFIX + PlainPath(a)) == PlainPath(a)
  {
    assert (NT_PREFIX + PlainPath(a))[4..] == PlainPath(a);
    assert (NT_PREFIX + PlainPath(b))[4..] == PlainPath(b);
    assert (WIN32_PREFIX + PlainPath(a))[4..] == PlainPath(a);
  }
}
