// The growable byte buffer with a read cursor that the key code reads
// and writes (struct Buffer of buffer.h; buffer.c is not part of this
// model). Appends go to the end, reads consume from the cursor, and a
// read that fails consumes nothing.
module Buffers {
  import opened Wrappers
  import opened Wire

  class Buffer {
    var data: seq<byte>
    var offset: nat

    ghost predicate Valid()
      reads this
    {
      offset <= |data|
    }

    /** The unread bytes (buffer_ptr .. buffer_ptr + buffer_len). */
    function Contents(): seq<byte>
      reads this
      requires Valid()
    {
      data[offset..]
    }

    constructor ()
      ensures Valid() && Contents() == []
    {
      data := [];
      offset := 0;
    }

    method Append(s: seq<byte>)
      requires Valid()
      modifies this
      ensures Valid() && Contents() == old(Contents()) + s
    {
      data := data[offset..] + s;
      offset := 0;
    }

    method Clear()
      modifies this
      ensures Valid() && Contents() == []
    {
      data := [];
      offset := 0;
    }

    method Len() returns (n: nat)
      requires Valid()
      ensures n == |Contents()|
    {
      n := |data| - offset;
    }

    method PutU32(x: nat)
      requires Valid()
      modifies this
      ensures Valid() && Contents() == old(Contents()) + EncU32(x)
    {
      Append(BEFixed(x, 4));
    }

    method PutU64(x: nat)
      requires Valid()
      modifies this
      ensures Valid() && Contents() == old(Contents()) + EncU64(x)
    {
      Append(BEFixed(x, 8));
    }

    method PutString(s: seq<byte>)
      requires Valid()
      modifies this
      ensures Valid() && Contents() == old(Contents()) + EncString(s)
    {
      PutU32(|s|);
      Append(s);
    }

    method PutCString(s: CStr)
      requires Valid()
      modifies this
      ensures Valid() && Contents() == old(Contents()) + EncCString(s)
    {
      PutString(ToBytes(s));
    }

    method PutMpint(n: nat)
      requires Valid()
      modifies this
      ensures Valid() && Contents() == old(Contents()) + EncMpint(n)
    {
      PutString(MpintBody(n));
    }

    method GetU32() returns (r: Option<nat>)
      requires Valid()
      modifies this
      ensures Valid() && data == old(data)
      ensures r == ValueOf(ReadU32(old(Contents())))
      ensures Contents() == RestAfter(ReadU32(old(Contents())), old(Contents()))
    {
      if |data| - offset < 4 {
        return None;
      }
      assert data[offset..][..4] == data[offset..offset + 4];
      r := Some(FromBE(data[offset..offset + 4]));
      offset := offset + 4;
    }

    method GetU64() returns (r: Option<nat>)
      requires Valid()
      modifies this
      ensures Valid() && data == old(data)
      ensures r == ValueOf(ReadU64(old(Contents())))
      ensures Contents() == RestAfter(ReadU64(old(Contents())), old(Contents()))
    {
      if |data| - offset < 8 {
        return None;
      }
      assert data[offset..][..8] == data[offset..offset + 8];
      r := Some(FromBE(data[offset..offset + 8]));
      offset := offset + 8;
    }

    method GetString() returns (r: Option<seq<byte>>)
      requires Valid()
      modifies this
      ensures Valid() && data == old(data)
      ensures r == ValueOf(ReadString(old(Contents())))
      ensures Contents() == RestAfter(ReadString(old(Contents())), old(Contents()))
    {
      if |data| - offset < 4 {
        return None;
      }
      assert data[offset..][..4] == data[offset..offset + 4];
      var len := FromBE(data[offset..offset + 4]);
      if len > |data| - offset - 4 {
        return None;
      }
      ghost var b := data[offset..];
      assert b[4..][..len] == data[offset + 4..offset + 4 + len];
      assert b[4..][len..] == data[offset + 4 + len..];
      r := Some(data[offset + 4..offset + 4 + len]);
      offset := offset + 4 + len;
    }

    method GetCString() returns (r: Option<CStr>)
      requires Valid()
      modifies this
      ensures Valid() && data == old(data)
      ensures r == ValueOf(ReadCString(old(Contents())))
      ensures Contents() == RestAfter(ReadCString(old(Contents())), old(Contents()))
    {
      var start := offset;
      var s := GetString();
      if s.None? {
        return None;
      }
      if !NoNul(s.value) {
        offset := start;
        return None;
      }
      r := Some(FromBytes(s.value));
    }

    method GetMpint() returns (r: Option<nat>)
      requires Valid()
      modifies this
      ensures Valid() && data == old(data)
      ensures r == ValueOf(ReadMpint(old(Contents())))
      ensures Contents() == RestAfter(ReadMpint(old(Contents())), old(Contents()))
    {
      var start := offset;
      var s := GetString();
      if s.None? {
        return None;
      }
      if s.value != [] && s.value[0] >= 0x80 {
        offset := start;
        return None;
      }
      r := Some(FromBE(s.value));
    }

    method GetEcPoint() returns (r: Option<seq<byte>>)
      requires Valid()
      modifies this
      ensures Valid() && data == old(data)
      ensures r == ValueOf(ReadEcPoint(old(Contents())))
      ensures Contents() == RestAfter(ReadEcPoint(old(Contents())), old(Contents()))
    {
      var start := offset;
      var s := GetString();
      if s.None? {
        return None;
      }
      if !IsUncompressedPoint(s.value) {
        offset := start;
        return None;
      }
      r := s;
    }
  }
}
