/**
 * The file-system server's storage reader (a byte array with a clamped read cursor), its per-file
 * permission predicates and the flag byte it saves them in.
 */
module FileSystemServers {
  import opened Wrappers
  import opened Errors
  import opened Ints
  import opened Text

  /** `StorageReaderSeekOrigin`. */
  datatype SeekOrigin = Begin | Current | End

  /** The `Position` setter's clamp into `[0, length]`. */
  function Clamp(value: int, length: nat): (r: nat)
    ensures r <= length
    ensures 0 <= value <= length ==> r == value
    ensures value < 0 ==> r == 0
    ensures value > length ==> r == length
  {
    if value < 0 then 0 else if value > length then length else value
  }

  /** `CanRead` as written: a positive length, and `position + Length <= Length` in 32-bit arithmetic. */
  function CanReadAsWritten(position: int32, dataLength: nat, length: int32): bool
    requires dataLength < Two32 / 2
  {
    if length > 0 then Wrap32(position + dataLength) <= dataLength else false
  }

  /** On any array below 2^30 bytes, the check as written holds only at position 0, whatever the
      length: it refuses a one-byte read after the first byte and lets a read past the end through. */
  lemma CanReadAsWrittenOnlyAtStart(position: int32, dataLength: nat, length: int32)
    requires 0 <= position <= dataLength < Two32 / 4
    ensures CanReadAsWritten(position, dataLength, length) <==> length > 0 && position == 0
  {
  }

  /** The discrepancy on concrete inputs: a 4-byte array read one byte at position 1 is refused, and
      ten bytes at position 0 are allowed. */
  lemma CanReadAsWrittenCounterexample()
    ensures !CanReadAsWritten(1, 4, 1) && CanOpen(1, 4, 1)
    ensures CanReadAsWritten(0, 4, 10) && !CanOpen(0, 4, 10)
  {
  }

  /** The evidently intended check: `length` bytes remain after `position`. */
  function CanOpen(position: nat, dataLength: nat, length: int): (r: bool)
    ensures r <==> 0 < length && position + length <= dataLength
  {
    length > 0 && length <= dataLength - position
  }

  /** `StorageReaderArgumentException(position, length)`'s message. */
  function CanNotReadMessage(position: int, length: int): string {
    "Can not read " + IntToString(length) + " bytes from position " + IntToString(position) + "."
  }

  class StorageReader {
    /** `data`: the reader's own bytes, never changed after construction. */
    var data: array<byte>
    /** `position`, the read cursor. */
    var position: int32

    /** The cursor lies within the data, and a .NET array holds fewer than 2^31 bytes. */
    ghost predicate Valid()
      reads this
    {
      data.Length < Two32 / 2 && 0 <= position <= data.Length
    }

    /** `StorageReader()`: no bytes. */
    constructor Empty()
      ensures Valid() && fresh(data) && data[..] == [] && position == 0
    {
      data := new byte[0];
      position := 0;
    }

    /** `StorageReader(byte[])`: a copy of the bytes, or no bytes for `null`. */
    constructor FromBytes(bytes: array?<byte>)
      requires bytes != null ==> bytes.Length < Two32 / 2
      ensures Valid() && fresh(data) && position == 0
      ensures data[..] == if bytes == null then [] else bytes[..]
    {
      if bytes == null {
        data := new byte[0];
      } else {
        var copy := CloneBytes(bytes);
        data := copy;
      }
      position := 0;
    }

    /** `StorageReader(StorageReader)`: a copy of the other reader's bytes, with the cursor at the start. */
    constructor FromReader(other: StorageReader?)
      requires other != null ==> other.Valid()
      ensures Valid() && fresh(data) && position == 0
      ensures data[..] == if other == null then [] else other.data[..]
    {
      if other == null {
        data := new byte[0];
      } else {
        var copy := CloneBytes(other.data);
        data := copy;
      }
      position := 0;
    }

    /** `IsAtEnd`. */
    function IsAtEnd(): (r: bool)
      reads this
      requires Valid()
      ensures r <==> position == data.Length
    {
      position >= data.Length
    }

    /** The `Position` setter. */
    method SetPosition(value: int32)
      requires Valid()
      modifies this`position
      ensures Valid() && position == Clamp(value, data.Length)
    {
      position := if value < 0 then 0 else if value > data.Length then data.Length else value;
    }

    /** `Seek`: from the start, from the cursor or back from the end, in 32-bit arithmetic, then clamped. */
    method Seek(offset: int32, origin: SeekOrigin)
      requires Valid()
      modifies this`position
      ensures Valid()
      ensures origin == Begin ==> position == Clamp(offset, data.Length)
      ensures origin == Current ==> position == Clamp(Wrap32(old(position) + offset), data.Length)
      ensures origin == End ==> position == Clamp(Wrap32(data.Length - offset), data.Length)
    {
      match origin
      case Begin => SetPosition(offset);
      case Current => SetPosition(Wrap32(position + offset));
      case End => SetPosition(Wrap32(data.Length - offset));
    }

    /** `CanRead` as written: a positive length, and the cursor at the start, or so far in that
        `position + Length` wraps round in 32-bit arithmetic. */
    function CanRead(length: int32): (r: bool)
      reads this
      requires Valid()
      ensures r <==> length > 0 && (position == 0 || position + data.Length >= Two32 / 2)
    {
      CanReadAsWritten(position, data.Length, length)
    }

    /** `Validate`: whether the read is possible, or the exception when it is not and throwing is wanted. */
    method Validate(length: int32, throwWhenInvalid: bool) returns (r: Result<bool, Exception>)
      requires Valid()
      ensures r.Ok? ==> r.value == CanRead(length)
      ensures r.Err? <==> throwWhenInvalid && !CanRead(length)
      ensures r.Err? ==> r.error == StorageReaderArgumentException(CanNotReadMessage(position, length))
    {
      var ret := CanRead(length);
      if throwWhenInvalid && !ret {
        return Err(StorageReaderArgumentException(CanNotReadMessage(position, length)));
      }
      r := Ok(ret);
    }

    /** `ReadBytes`: a fresh copy of `length` bytes at the cursor, an empty array when the read is refused
        quietly. A read that `CanRead` lets through but that runs past the end fails in `Array.Copy`. The
        cursor does not move. */
    method ReadBytes(length: int32, throwWhenInvalid: bool) returns (r: Result<array<byte>, Exception>)
      requires Valid()
      ensures !CanRead(length) && throwWhenInvalid ==>
        r == Err(StorageReaderArgumentException(CanNotReadMessage(position, length)))
      ensures !CanRead(length) && !throwWhenInvalid ==> r.Ok? && r.value[..] == []
      ensures CanRead(length) && position + length > data.Length ==> r == Err(ArgumentException(SourceTooShort))
      ensures CanRead(length) && position + length <= data.Length ==>
        r.Ok? && r.value[..] == data[position..position + length]
      ensures r.Ok? ==> fresh(r.value)
    {
      var valid := Validate(length, throwWhenInvalid);
      if valid.Err? {
        return Err(valid.error);
      }
      var ret := new byte[0];
      if valid.value {
        if position + length > data.Length {
          return Err(ArgumentException(SourceTooShort));
        }
        ret := new byte[length];
        var i := 0;
        while i < length
          invariant 0 <= i <= length
          invariant ret[..i] == data[position..position + i]
        {
          ret[i] := data[position + i];
          i := i + 1;
        }
      }
      r := Ok(ret);
    }

    /** `ReadByte`: the byte at the cursor, moving past it. A refused read throws without a default and
        gives the default, not moving, with one; a read `CanRead` lets through at the end of the data fails
        on the array index. */
    method ReadByte(defaultValue: Option<byte>) returns (r: Result<byte, Exception>)
      requires Valid()
      modifies this`position
      ensures Valid()
      ensures var allowed := CanReadAsWritten(old(position), data.Length, 1);
        && (allowed && old(position) < data.Length ==> r == Ok(data[old(position)]) && position == old(position) + 1)
        && (allowed && old(position) == data.Length ==> r == Err(IndexOutOfRangeException) && position == old(position))
        && (!allowed ==> position == old(position) && r == match defaultValue
              case Some(b) => Ok(b)
              case None => Err(StorageReaderArgumentException(CanNotReadMessage(position, 1))))
    {
      var ret: byte := defaultValue.GetOr(0);
      var valid := Validate(1, defaultValue.None?);
      if valid.Err? {
        return Err(valid.error);
      }
      if valid.value {
        if position >= data.Length {
          return Err(IndexOutOfRangeException);
        }
        ret := data[position];
        SetPosition(position + 1);
      }
      r := Ok(ret);
    }
  }

  /** `byte[].Clone()`. */
  method CloneBytes(source: array<byte>) returns (copy: array<byte>)
    ensures fresh(copy) && copy[..] == source[..]
  {
    copy := new byte[source.Length];
    for i := 0 to source.Length
      invariant copy[..i] == source[..i]
    {
      copy[i] := source[i];
    }
  }

  /** `User`: a missing name or password becomes empty. */
  datatype User = User(userName: string, password: string)

  function NewUser(userName: NullableString, password: NullableString): (u: User)
    ensures userName.Some? ==> u.userName == userName.value
    ensures password.Some? ==> u.password == password.value
    ensures userName.None? ==> u.userName == ""
    ensures password.None? ==> u.password == ""
  {
    User(userName.GetOr(""), password.GetOr(""))
  }

  /** `File`: a stored file with its owner and the two everyone-flags. */
  datatype File = File(path: string, owner: string, canEveryoneRead: bool, canEveryoneWrite: bool, data: seq<byte>) {
    /** Listing is open when either flag is set, otherwise reserved to the owner. */
    predicate CanList(user: Option<User>) {
      if canEveryoneRead || canEveryoneWrite then true else user.Some? && user.value.userName == owner
    }

    /** Reading is open when everyone may read, otherwise reserved to the owner. */
    predicate CanRead(user: Option<User>) {
      if canEveryoneRead then true else user.Some? && user.value.userName == owner
    }

    /** Writing is open when everyone may write, otherwise reserved to the owner. */
    predicate CanWrite(user: Option<User>) {
      if canEveryoneWrite then true else user.Some? && user.value.userName == owner
    }
  }

  /** The `File` constructor: a missing path or owner becomes empty; missing data throws in `AddRange`. */
  function NewFile(path: NullableString, owner: NullableString, canEveryoneRead: bool, canEveryoneWrite: bool,
                   data: Option<seq<byte>>): (r: Result<File, Exception>)
    ensures r.Err? <==> data.None?
    ensures r.Err? ==> r.error == ArgumentNullException("collection")
    ensures r.Ok? ==>
      r.value.data == data.value && r.value.path == path.GetOr("") && r.value.owner == owner.GetOr("")
      && r.value.canEveryoneRead == canEveryoneRead && r.value.canEveryoneWrite == canEveryoneWrite
  {
    if data.None? then Err(ArgumentNullException("collection"))
    else Ok(File(path.GetOr(""), owner.GetOr(""), canEveryoneRead, canEveryoneWrite, data.value))
  }

  /** A user may list a file exactly when they may read or write it. */
  lemma ListIffReadOrWrite(file: File, user: Option<User>)
    ensures file.CanList(user) <==> file.CanRead(user) || file.CanWrite(user)
  {
  }

  /** The owner may do everything; anybody else, and nobody signed in, only what the flags open. */
  lemma OwnerAndOthers(file: File, user: Option<User>)
    ensures user.Some? && user.value.userName == file.owner ==>
      file.CanList(user) && file.CanRead(user) && file.CanWrite(user)
    ensures (user.None? || user.value.userName != file.owner) ==>
      (file.CanRead(user) <==> file.canEveryoneRead) && (file.CanWrite(user) <==> file.canEveryoneWrite)
      && (file.CanList(user) <==> file.canEveryoneRead || file.canEveryoneWrite)
  {
  }

  /** `FileFlags`. */
  const CanEveryoneReadFlag: bv8 := 0x1
  const CanEveryoneWriteFlag: bv8 := 0x2

  /** The flag byte `Save` writes for a file. */
  function EncodeFlags(canEveryoneRead: bool, canEveryoneWrite: bool): byte {
    ((if canEveryoneRead then CanEveryoneReadFlag else 0) | (if canEveryoneWrite then CanEveryoneWriteFlag else 0)) as byte
  }

  /** The two flags the loader takes from a byte: each flag bit masked out and compared. */
  function DecodeFlags(b: byte): (bool, bool) {
    ((b as bv8 & CanEveryoneReadFlag) == CanEveryoneReadFlag, (b as bv8 & CanEveryoneWriteFlag) == CanEveryoneWriteFlag)
  }

  /** Loading a saved flag byte gives back both flags, and the byte holds no other bit. */
  lemma FlagsRoundTrip(canEveryoneRead: bool, canEveryoneWrite: bool)
    ensures DecodeFlags(EncodeFlags(canEveryoneRead, canEveryoneWrite)) == (canEveryoneRead, canEveryoneWrite)
    ensures EncodeFlags(canEveryoneRead, canEveryoneWrite) < 4
  {
  }

  /** The loader ignores every bit but the two flag bits. */
  lemma DecodeIgnoresOtherBits(b: byte)
    ensures DecodeFlags(b) == DecodeFlags((b as bv8 & 3) as byte)
  {
  }
}
