/**
 * `StorageDataSerializer`: a growable byte buffer with a read position, written out as a hex string
 * (two digits per byte, low nibble first) with a cached copy of that string. Multi-byte integers are
 * little-endian and composed from their halves.
 */
module StorageSerializer {
  import opened Wrappers
  import opened Text
  import opened Errors
  import opened Ints

  // ---------------------------------------------------------------------------------------------
  // The hex form of the storage string

  predicate IsHexDigit(c: char) {
    ('0' <= c <= '9') || ('a' <= c <= 'f') || ('A' <= c <= 'F')
  }

  /** What `ValidateHexString` accepts: an even number of hex digits, in either case. */
  predicate IsHexString(s: string) {
    |s| % 2 == 0 && forall i :: 0 <= i < |s| ==> IsHexDigit(s[i])
  }

  /** `HexCharToByte` on a hex digit. */
  function HexValue(c: char): (r: nat)
    requires IsHexDigit(c)
    ensures r < 16
  {
    if 'A' <= c <= 'F' then c as int - 'A' as int + 10
    else if 'a' <= c <= 'f' then c as int - 'a' as int + 10
    else c as int - '0' as int
  }

  /** `ByteToHexChar`: an upper-case digit for a nibble. */
  function HexDigit(b: nat): (c: char)
    requires b < 16
    ensures IsHexDigit(c) && !('a' <= c <= 'f') && HexValue(c) == b
  {
    if b <= 9 then ('0' as int + b) as char else ('A' as int + (b - 10)) as char
  }

  /** The storage string of `data`: byte `i` becomes digits `2i` (low nibble) and `2i + 1` (high nibble). */
  function HexEncode(data: seq<byte>): (r: string)
    ensures |r| == 2 * |data| && IsHexString(r)
    ensures forall i :: 0 <= i < |r| ==> !('a' <= r[i] <= 'f')
  {
    seq(2 * |data|, j requires 0 <= j < 2 * |data| =>
      if j % 2 == 0 then HexDigit(data[j / 2] % 16) else HexDigit(data[j / 2] / 16))
  }

  /** The bytes of a valid storage string: digit `2i` is the low nibble of byte `i`, digit `2i + 1` the high one. */
  function HexDecode(s: string): (r: seq<byte>)
    requires IsHexString(s)
    ensures |r| == |s| / 2
  {
    seq(|s| / 2, i requires 0 <= i < |s| / 2 => HexValue(s[2 * i]) + 16 * HexValue(s[2 * i + 1]))
  }

  /** Bytes to string and back is the identity. */
  lemma DecodeEncode(data: seq<byte>)
    ensures HexDecode(HexEncode(data)) == data
  {
    forall i | 0 <= i < |data|
      ensures HexDecode(HexEncode(data))[i] == data[i]
    {
      DecodeEncodeAt(data, i);
    }
  }

  lemma DecodeEncodeAt(data: seq<byte>, i: nat)
    requires i < |data|
    ensures HexDecode(HexEncode(data))[i] == data[i]
  {
    var s := HexEncode(data);
    var b := data[i];
    assert (2 * i) / 2 == i && (2 * i) % 2 == 0 && (2 * i + 1) / 2 == i && (2 * i + 1) % 2 == 1;
    assert s[2 * i] == HexDigit(b % 16) && s[2 * i + 1] == HexDigit(b / 16);
    assert HexDecode(s)[i] == b % 16 + 16 * (b / 16);
  }

  /** A valid storage string without lower-case digits is the encoding of its own bytes. */
  lemma EncodeDecode(s: string)
    requires IsHexString(s) && forall i :: 0 <= i < |s| ==> !('a' <= s[i] <= 'f')
    ensures HexEncode(HexDecode(s)) == s
  {
    var d := HexDecode(s);
    forall j | 0 <= j < |s|
      ensures HexEncode(d)[j] == s[j]
    {
      var i := j / 2;
      assert d[i] % 16 == HexValue(s[2 * i]) && d[i] / 16 == HexValue(s[2 * i + 1]);
      DigitOfValue(s[j]);
    }
  }

  lemma DigitOfValue(c: char)
    requires IsHexDigit(c) && !('a' <= c <= 'f')
    ensures HexDigit(HexValue(c)) == c
  {
  }

  /** The storage string "0123456789ABCDEF" holds the bytes 0x10, 0x32, ..., 0xFE. */
  lemma DecodeDigitRun()
    ensures HexDecode("0123456789ABCDEF") == [0x10, 0x32, 0x54, 0x76, 0x98, 0xBA, 0xDC, 0xFE]
  {
    var s := "0123456789ABCDEF";
    assert IsHexString(s);
    var d := HexDecode(s);
    assert d[0] == 0x10 && d[1] == 0x32 && d[2] == 0x54 && d[3] == 0x76;
    assert d[4] == 0x98 && d[5] == 0xBA && d[6] == 0xDC && d[7] == 0xFE;
  }

  // ---------------------------------------------------------------------------------------------
  // Little-endian integers

  /** `WriteUInt16`: the low byte, then the high byte (`x & 0xFF` and `(x & 0xFF00) >> 8`). */
  function LittleEndian16(x: uint16): (r: seq<byte>)
    ensures |r| == 2
  {
    [x % Two8, x / Two8]
  }

  /** `WriteUInt32`: the low half, then the high half. */
  function LittleEndian32(x: uint32): (r: seq<byte>)
    ensures |r| == 4
  {
    LittleEndian16(x % Two16) + LittleEndian16(x / Two16)
  }

  /** `WriteUInt64`: the low half, then the high half. */
  function LittleEndian64(x: uint64): (r: seq<byte>)
    ensures |r| == 8
  {
    LittleEndian32(x % Two32) + LittleEndian32(x / Two32)
  }

  /** `ReadUInt16` on the next two bytes: `low | (high << 8)`. */
  function FromLittleEndian16(b: seq<byte>): uint16
    requires |b| == 2
  {
    b[0] + Two8 * b[1]
  }

  /** `ReadUInt32` on the next four bytes: `low | (high << 16)` of two 16-bit reads. */
  function FromLittleEndian32(b: seq<byte>): uint32
    requires |b| == 4
  {
    FromLittleEndian16(b[..2]) + Two16 * FromLittleEndian16(b[2..])
  }

  /** `ReadUInt64` on the next eight bytes: `low | (high << 32)` of two 32-bit reads. */
  function FromLittleEndian64(b: seq<byte>): uint64
    requires |b| == 8
  {
    FromLittleEndian32(b[..4]) + Two32 * FromLittleEndian32(b[4..])
  }

  /** Reading back what was written gives the written value, and writing what was read gives the bytes. */
  lemma RoundTrip16(x: uint16, b: seq<byte>)
    requires |b| == 2
    ensures FromLittleEndian16(LittleEndian16(x)) == x
    ensures LittleEndian16(FromLittleEndian16(b)) == b
  {
  }

  lemma RoundTrip32(x: uint32, b: seq<byte>)
    requires |b| == 4
    ensures FromLittleEndian32(LittleEndian32(x)) == x
    ensures LittleEndian32(FromLittleEndian32(b)) == b
  {
    var lo, hi := x % Two16, x / Two16;
    RoundTrip16(lo, b[..2]);
    RoundTrip16(hi, b[2..]);
    assert LittleEndian32(x)[..2] == LittleEndian16(lo);
    assert LittleEndian32(x)[2..] == LittleEndian16(hi);
    var y := FromLittleEndian32(b);
    assert y % Two16 == FromLittleEndian16(b[..2]) && y / Two16 == FromLittleEndian16(b[2..]);
    assert b == b[..2] + b[2..];
  }

  lemma RoundTrip64(x: uint64, b: seq<byte>)
    requires |b| == 8
    ensures FromLittleEndian64(LittleEndian64(x)) == x
    ensures LittleEndian64(FromLittleEndian64(b)) == b
  {
    var lo, hi := x % Two32, x / Two32;
    RoundTrip32(lo, b[..4]);
    RoundTrip32(hi, b[4..]);
    assert LittleEndian64(x)[..4] == LittleEndian32(lo);
    assert LittleEndian64(x)[4..] == LittleEndian32(hi);
    var y := FromLittleEndian64(b);
    assert y % Two32 == FromLittleEndian32(b[..4]) && y / Two32 == FromLittleEndian32(b[4..]);
    assert b == b[..4] + b[4..];
  }

  /** The signed reads: `(short)`, `(int)` and `(long)` of the unsigned result. */
  function FromLittleEndianSigned(b: seq<byte>): (r: int)
    requires |b| == 2 || |b| == 4 || |b| == 8
  {
    if |b| == 2 then ToSigned(FromLittleEndian16(b), Two16)
    else if |b| == 4 then ToSigned(FromLittleEndian32(b), Two32)
    else ToSigned(FromLittleEndian64(b), Two64)
  }

  /** A signed value written as its unsigned bits reads back as itself. */
  lemma SignedRoundTrip32(x: int32)
    ensures FromLittleEndianSigned(LittleEndian32(ToUnsigned(x, Two32))) == x
  {
    RoundTrip32(ToUnsigned(x, Two32), LittleEndian32(0));
  }

  lemma SignedRoundTrip16(x: int16)
    ensures FromLittleEndianSigned(LittleEndian16(ToUnsigned(x, Two16))) == x
  {
    RoundTrip16(ToUnsigned(x, Two16), LittleEndian16(0));
  }

  lemma SignedRoundTrip64(x: int64)
    ensures FromLittleEndianSigned(LittleEndian64(ToUnsigned(x, Two64))) == x
  {
    RoundTrip64(ToUnsigned(x, Two64), LittleEndian64(0));
  }

  // ---------------------------------------------------------------------------------------------
  // Argument checks of `ReadBytes(int, byte[])`

  /** The checks of `ReadBytes(length, result)` in their order, given the bytes left after the position
      and the capacity of the result array (`None` for `null`). */
  function ReadBytesCheck(length: int, available: int, capacity: Option<nat>): (r: Outcome<Exception>)
    ensures r.Pass? <==> 0 <= length <= available && capacity.Some? && length <= capacity.value
    ensures length < 0 ==> r == Fail(ArgumentException("Argument is smaller than 0."))
    ensures 0 <= length && available < length ==>
      r == Fail(ArgumentException("Can't read more than " + IntToString(available) + " bytes."))
  {
    if length < 0 then Fail(ArgumentException("Argument is smaller than 0."))
    else if length > available then Fail(ArgumentException("Can't read more than " + IntToString(available) + " bytes."))
    else if capacity.None? then Fail(ArgumentNullException("result"))
    else if capacity.value < length then Fail(ArgumentException("Insufficient capacity of result array"))
    else Pass
  }

  const PositionExceeded := "Position exceeded data size"

  class StorageDataSerializer {
    var data: seq<byte>
    var position: uint32
    /** The cached storage string; `None` once a write has invalidated it. */
    var storageString: Option<string>

    ghost predicate Valid()
      reads this
    {
      position <= |data| < Two32
    }

    /** The cache, when present, is a storage string for the current data. */
    ghost predicate CacheCoherent()
      reads this
    {
      storageString.Some? ==> IsHexString(storageString.value) && HexDecode(storageString.value) == data
    }

    /** `StorageDataSerializer()`. */
    constructor ()
      ensures Valid() && CacheCoherent() && data == [] && position == 0 && storageString == None
    {
      data := [];
      position := 0;
      storageString := None;
    }

    /** `StorageDataSerializer(string)` on a valid storage string: the bytes it denotes, with the string
        itself kept as the cache. The `null` and invalid cases are `FromStorageString`. */
    constructor FromHex(s: string)
      requires IsHexString(s) && |s| / 2 < Two32
      ensures Valid() && CacheCoherent()
      ensures data == HexDecode(s) && position == 0 && storageString == Some(s)
    {
      position := 0;
      storageString := Some(s);
      var bytes: seq<byte> := [];
      var i := 0;
      var len := |s| / 2;
      while i < len
        invariant 0 <= i <= len
        invariant bytes == HexDecode(s)[..i]
      {
        bytes := bytes + [HexValue(s[i * 2]) + 16 * HexValue(s[i * 2 + 1])];
        i := i + 1;
      }
      data := bytes;
    }

    /** `StorageDataSerializer(IEnumerable<byte>)`: a buffer holding `d`. */
    constructor FromBytes(d: seq<byte>)
      requires |d| < Two32
      ensures Valid() && CacheCoherent() && data == d && position == 0 && storageString == None
    {
      data := [];
      position := 0;
      storageString := None;
      new;
      var _ := WriteBytes(Some(d));
    }

    /** `StorageDataSerializer(string)` with its argument checks. */
    static method FromStorageString(s: NullableString) returns (r: Result<StorageDataSerializer, Exception>)
      ensures s.None? ==> r == Err(ArgumentNullException("storageString"))
      ensures s.Some? && !IsHexString(s.value) ==> r == Err(ArgumentException("Storage string is not valid"))
      ensures s.Some? && IsHexString(s.value) && |s.value| / 2 < Two32 ==>
        && r.Ok? && fresh(r.value) && r.value.Valid() && r.value.CacheCoherent()
        && r.value.data == HexDecode(s.value) && r.value.position == 0 && r.value.storageString == s
      ensures s.Some? && IsHexString(s.value) && |s.value| / 2 >= Two32 ==> r == Err(OverflowException)
    {
      if s.None? {
        return Err(ArgumentNullException("storageString"));
      }
      var valid := ValidateHexString(s);
      if !valid.value {
        return Err(ArgumentException("Storage string is not valid"));
      }
      if |s.value| / 2 >= Two32 {
        return Err(OverflowException);
      }
      var x := new StorageDataSerializer.FromHex(s.value);
      return Ok(x);
    }

    /** `ValidateHexString`: a `null` input throws; otherwise the loop stops at the first non-digit. */
    static method ValidateHexString(input: NullableString) returns (r: Result<bool, Exception>)
      ensures input.None? ==> r == Err(ArgumentNullException("input"))
      ensures input.Some? ==> r == Ok(IsHexString(input.value))
    {
      if input.None? {
        return Err(ArgumentNullException("input"));
      }
      var s := input.value;
      var ret := false;
      if |s| % 2 == 0 {
        ret := true;
        var i := 0;
        while i < |s|
          invariant 0 <= i <= |s|
          invariant ret <==> forall k :: 0 <= k < i ==> IsHexDigit(s[k])
          invariant !ret ==> !IsHexString(s)
          decreases |s| - i, ret
        {
          if !IsHexDigit(s[i]) {
            ret := false;
            break;
          }
          i := i + 1;
        }
      }
      return Ok(ret);
    }

    /** The `StorageString` getter: the cache, or else the encoding of the data, which becomes the cache. */
    method StorageString() returns (s: string)
      modifies this`storageString
      ensures old(storageString).Some? ==> s == old(storageString).value && storageString == old(storageString)
      ensures old(storageString).None? ==> s == HexEncode(data) && storageString == Some(s)
      ensures old(CacheCoherent()) ==> CacheCoherent()
    {
      if storageString.None? {
        var chars := new char[|data| * 2];
        var i := 0;
        while i < |data|
          invariant 0 <= i <= |data|
          invariant forall j :: 0 <= j < 2 * i ==> chars[j] == HexEncode(data)[j]
        {
          chars[i * 2] := HexDigit(data[i] % 16);
          chars[i * 2 + 1] := HexDigit(data[i] / 16);
          i := i + 1;
        }
        storageString := Some(chars[..]);
        DecodeEncode(data);
      }
      s := storageString.value;
    }

    /** The `Position` setter: clamped to the end of the data. */
    method SetPosition(value: uint32)
      requires Valid()
      modifies this`position
      ensures Valid()
      ensures position == if value < |data| then value else |data|
    {
      position := if value < |data| then value else |data|;
    }

    /** `ReadBytes(int, byte[])`: after the checks, copies the next `length` bytes into the front of `result`
        and moves past them; a failed check changes nothing. */
    method ReadBytesInto(length: int, result: array?<byte>) returns (r: Outcome<Exception>)
      requires Valid()
      modifies this`position, result
      ensures Valid()
      ensures r == ReadBytesCheck(length, |data| - old(position), if result == null then None else Some(result.Length))
      ensures r.Fail? ==> position == old(position) && (result != null ==> result[..] == old(result[..]))
      ensures r.Pass? ==>
        && position == old(position) + length
        && result[..length] == data[old(position)..position]
        && result[length..] == old(result[length..])
    {
      r := ReadBytesCheck(length, |data| - position, if result == null then None else Some(result.Length));
      if r.Fail? {
        return;
      }
      var i := 0;
      while i < length
        invariant 0 <= i <= length && position == old(position)
        invariant result[..i] == data[position..position + i]
        invariant result[length..] == old(result[length..])
      {
        result[i] := data[position + i];
        i := i + 1;
      }
      position := position + length;
    }

    /** `ReadBytes(int)`: a fresh array of `length` bytes (a negative length overflows its allocation). */
    method ReadBytes(length: int) returns (r: Result<seq<byte>, Exception>)
      requires Valid()
      modifies this`position
      ensures Valid()
      ensures length < 0 ==> r == Err(OverflowException) && position == old(position)
      ensures 0 <= length && |data| - old(position) < length ==>
        r == Err(ArgumentException("Can't read more than " + IntToString(|data| - old(position)) + " bytes."))
        && position == old(position)
      ensures 0 <= length <= |data| - old(position) ==>
        r == Ok(data[old(position)..old(position) + length]) && position == old(position) + length
    {
      if length < 0 {
        return Err(OverflowException);
      }
      var ret := new byte[length];
      var outcome := ReadBytesInto(length, ret);
      if outcome.Fail? {
        return Err(outcome.error);
      }
      assert ret[..] == ret[..length];
      return Ok(ret[..]);
    }

    /** `ReadByte`: the byte at the position, moving past it; at the end of the data it throws. */
    method ReadByte() returns (r: Result<byte, Exception>)
      requires Valid()
      modifies this`position
      ensures Valid()
      ensures old(position) == |data| ==> r == Err(InvalidOperationException(PositionExceeded)) && position == old(position)
      ensures old(position) < |data| ==> r == Ok(data[old(position)]) && position == old(position) + 1
    {
      if position >= |data| {
        return Err(InvalidOperationException(PositionExceeded));
      }
      r := Ok(data[position]);
      position := position + 1;
    }

    method ReadSByte() returns (r: Result<sbyte, Exception>)
      requires Valid()
      modifies this`position
      ensures Valid()
      ensures old(position) == |data| ==> r == Err(InvalidOperationException(PositionExceeded)) && position == old(position)
      ensures old(position) < |data| ==> r == Ok(ToSigned(data[old(position)], Two8)) && position == old(position) + 1
    {
      var b := ReadByte();
      if b.Err? {
        return Err(b.error);
      }
      return Ok(ToSigned(b.value, Two8));
    }

    /** `ReadUInt16`: two byte reads. Too few bytes throws, leaving the position at the end of the data. */
    method ReadUInt16() returns (r: Result<uint16, Exception>)
      requires Valid()
      modifies this`position
      ensures Valid()
      ensures old(position) + 2 <= |data| ==>
        r == Ok(FromLittleEndian16(data[old(position)..old(position) + 2])) && position == old(position) + 2
      ensures old(position) + 2 > |data| ==> r == Err(InvalidOperationException(PositionExceeded)) && position == |data|
    {
      var low := ReadByte();
      if low.Err? {
        return Err(low.error);
      }
      var high := ReadByte();
      if high.Err? {
        return Err(high.error);
      }
      return Ok(low.value + Two8 * high.value);
    }

    method ReadInt16() returns (r: Result<int16, Exception>)
      requires Valid()
      modifies this`position
      ensures Valid()
      ensures old(position) + 2 <= |data| ==>
        r == Ok(FromLittleEndianSigned(data[old(position)..old(position) + 2])) && position == old(position) + 2
      ensures old(position) + 2 > |data| ==> r == Err(InvalidOperationException(PositionExceeded)) && position == |data|
    {
      var u := ReadUInt16();
      if u.Err? {
        return Err(u.error);
      }
      return Ok(ToSigned(u.value, Two16));
    }

    /** `ReadUInt32`: two 16-bit reads. */
    method ReadUInt32() returns (r: Result<uint32, Exception>)
      requires Valid()
      modifies this`position
      ensures Valid()
      ensures old(position) + 4 <= |data| ==>
        r == Ok(FromLittleEndian32(data[old(position)..old(position) + 4])) && position == old(position) + 4
      ensures old(position) + 4 > |data| ==> r == Err(InvalidOperationException(PositionExceeded)) && position == |data|
    {
      ghost var p := position;
      var low := ReadUInt16();
      if low.Err? {
        return Err(low.error);
      }
      var high := ReadUInt16();
      if high.Err? {
        return Err(high.error);
      }
      assert data[p..p + 4][..2] == data[p..p + 2] && data[p..p + 4][2..] == data[p + 2..p + 4];
      return Ok(low.value + Two16 * high.value);
    }

    method ReadInt32() returns (r: Result<int32, Exception>)
      requires Valid()
      modifies this`position
      ensures Valid()
      ensures old(position) + 4 <= |data| ==>
        r == Ok(FromLittleEndianSigned(data[old(position)..old(position) + 4])) && position == old(position) + 4
      ensures old(position) + 4 > |data| ==> r == Err(InvalidOperationException(PositionExceeded)) && position == |data|
    {
      var u := ReadUInt32();
      if u.Err? {
        return Err(u.error);
      }
      return Ok(ToSigned(u.value, Two32));
    }

    /** `ReadUInt64`: two 32-bit reads. */
    method ReadUInt64() returns (r: Result<uint64, Exception>)
      requires Valid()
      modifies this`position
      ensures Valid()
      ensures old(position) + 8 <= |data| ==>
        r == Ok(FromLittleEndian64(data[old(position)..old(position) + 8])) && position == old(position) + 8
      ensures old(position) + 8 > |data| ==> r == Err(InvalidOperationException(PositionExceeded)) && position == |data|
    {
      ghost var p := position;
      var low := ReadUInt32();
      if low.Err? {
        return Err(low.error);
      }
      var high := ReadUInt32();
      if high.Err? {
        return Err(high.error);
      }
      assert data[p..p + 8][..4] == data[p..p + 4] && data[p..p + 8][4..] == data[p + 4..p + 8];
      return Ok(low.value + Two32 * high.value);
    }

    method ReadInt64() returns (r: Result<int64, Exception>)
      requires Valid()
      modifies this`position
      ensures Valid()
      ensures old(position) + 8 <= |data| ==>
        r == Ok(FromLittleEndianSigned(data[old(position)..old(position) + 8])) && position == old(position) + 8
      ensures old(position) + 8 > |data| ==> r == Err(InvalidOperationException(PositionExceeded)) && position == |data|
    {
      var u := ReadUInt64();
      if u.Err? {
        return Err(u.error);
      }
      return Ok(ToSigned(u.value, Two64));
    }

    /** `ReadString` up to the UTF-8 decoding: an `Int32` byte count, then that many bytes. */
    method ReadString() returns (r: Result<seq<byte>, Exception>)
      requires Valid()
      modifies this`position
      ensures Valid()
      ensures old(position) + 4 > |data| ==> r == Err(InvalidOperationException(PositionExceeded)) && position == |data|
      ensures old(position) + 4 <= |data| ==>
        var n := FromLittleEndianSigned(data[old(position)..old(position) + 4]);
        var start := old(position) + 4;
        && (n < 0 ==> r == Err(OverflowException) && position == start)
        && (0 <= n && start + n > |data| ==>
          r == Err(ArgumentException("Can't read more than " + IntToString(|data| - start) + " bytes.")) && position == start)
        && (0 <= n && start + n <= |data| ==> r == Ok(data[start..start + n]) && position == start + n)
    {
      var size := ReadInt32();
      if size.Err? {
        return Err(size.error);
      }
      r := ReadBytes(size.value);
    }

    /** `WriteBytes`: appends and invalidates the cache; `null` throws. */
    method WriteBytes(d: Option<seq<byte>>) returns (r: Outcome<Exception>)
      requires |data| + (if d.Some? then |d.value| else 0) < Two32
      modifies this`data, this`storageString
      ensures d.None? ==> r == Fail(ArgumentNullException("data")) && data == old(data) && storageString == old(storageString)
      ensures d.Some? ==> r == Pass && data == old(data) + d.value && storageString == None
    {
      if d.None? {
        return Fail(ArgumentNullException("data"));
      }
      data := data + d.value;
      storageString := None;
      return Pass;
    }

    method WriteByte(b: byte)
      requires |data| + 1 < Two32
      modifies this`data, this`storageString
      ensures data == old(data) + [b] && storageString == None
    {
      data := data + [b];
      storageString := None;
    }

    method WriteUInt16(x: uint16)
      requires |data| + 2 < Two32
      modifies this`data, this`storageString
      ensures data == old(data) + LittleEndian16(x) && storageString == None
    {
      WriteByte(x % Two8);
      WriteByte(x / Two8);
    }

    method WriteInt16(x: int16)
      requires |data| + 2 < Two32
      modifies this`data, this`storageString
      ensures data == old(data) + LittleEndian16(ToUnsigned(x, Two16)) && storageString == None
    {
      WriteUInt16(ToUnsigned(x, Two16));
    }

    method WriteUInt32(x: uint32)
      requires |data| + 4 < Two32
      modifies this`data, this`storageString
      ensures data == old(data) + LittleEndian32(x) && storageString == None
    {
      WriteUInt16(x % Two16);
      WriteUInt16(x / Two16);
    }

    method WriteInt32(x: int32)
      requires |data| + 4 < Two32
      modifies this`data, this`storageString
      ensures data == old(data) + LittleEndian32(ToUnsigned(x, Two32)) && storageString == None
    {
      WriteUInt32(ToUnsigned(x, Two32));
    }

    method WriteUInt64(x: uint64)
      requires |data| + 8 < Two32
      modifies this`data, this`storageString
      ensures data == old(data) + LittleEndian64(x) && storageString == None
    {
      WriteUInt32(x % Two32);
      WriteUInt32(x / Two32);
    }

    method WriteInt64(x: int64)
      requires |data| + 8 < Two32
      modifies this`data, this`storageString
      ensures data == old(data) + LittleEndian64(ToUnsigned(x, Two64)) && storageString == None
    {
      WriteUInt64(ToUnsigned(x, Two64));
    }

    /** `WriteString` given the UTF-8 bytes of the string (`None` for `null`): the byte count as an `Int32`,
        then the bytes. */
    method WriteString(utf8: Option<seq<byte>>) returns (r: Outcome<Exception>)
      requires utf8.Some? ==> |utf8.value| < Two32 / 2 && |data| + 4 + |utf8.value| < Two32
      modifies this`data, this`storageString
      ensures utf8.None? ==> r == Fail(ArgumentNullException("data")) && data == old(data) && storageString == old(storageString)
      ensures utf8.Some? ==>
        r == Pass && storageString == None && data == old(data) + LittleEndian32(|utf8.value|) + utf8.value
    {
      if utf8.None? {
        return Fail(ArgumentNullException("data"));
      }
      WriteInt32(|utf8.value|);
      r := WriteBytes(utf8);
    }

    /** `Clear`: empties the data and rewinds, but keeps the cached storage string (see `CacheSurvivesClear`). */
    method Clear()
      modifies this`data, this`position
      ensures Valid() && data == [] && position == 0 && storageString == old(storageString)
    {
      data := [];
      position := 0;
    }

    /** `Clear` as evidently intended: it also drops the cache, so the storage string describes the data. */
    method ClearAndInvalidate()
      modifies this`data, this`position, this`storageString
      ensures Valid() && CacheCoherent() && data == [] && position == 0 && storageString == None
    {
      data := [];
      position := 0;
      storageString := None;
    }
  }

  /** After `Clear` a buffer built from "00" holds no bytes, yet its storage string still reads "00";
      with `ClearAndInvalidate` it reads "". */
  method CacheSurvivesClear() returns (asWritten: string, corrected: string, bytes: seq<byte>)
    ensures bytes == [] && asWritten == "00" && HexDecode(asWritten) != bytes
    ensures corrected == "" && HexDecode(corrected) == bytes
  {
    var x := new StorageDataSerializer.FromHex("00");
    x.Clear();
    asWritten := x.StorageString();
    bytes := x.data;
    var y := new StorageDataSerializer.FromHex("00");
    y.ClearAndInvalidate();
    corrected := y.StorageString();
    assert HexEncode([]) == "";
  }

  /** Writing a string and reading it back from where it starts gives the same bytes. */
  method StringRoundTrip(utf8: seq<byte>) returns (r: Result<seq<byte>, Exception>)
    requires |utf8| < Two32 / 2 && 4 + |utf8| < Two32
    ensures r == Ok(utf8)
  {
    var x := new StorageDataSerializer();
    var _ := x.WriteString(Some(utf8));
    assert x.data[0..4] == LittleEndian32(|utf8|) && x.data[4..4 + |utf8|] == utf8;
    SignedRoundTrip32(|utf8|);
    assert FromLittleEndianSigned(x.data[0..4]) == |utf8|;
    r := x.ReadString();
  }

  /** Writing an `Int64` and reading it back from where it starts gives the same value. */
  method Int64RoundTrip(v: int64, prefix: seq<byte>) returns (r: Result<int64, Exception>)
    requires |prefix| + 8 < Two32
    ensures r == Ok(v)
  {
    var x := new StorageDataSerializer.FromBytes(prefix);
    x.WriteInt64(v);
    x.SetPosition(|prefix|);
    assert x.data[|prefix|..|prefix| + 8] == LittleEndian64(ToUnsigned(v, Two64));
    SignedRoundTrip64(v);
    r := x.ReadInt64();
  }
}
