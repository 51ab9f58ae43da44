/** The snapshot file as bytes and a cursor, and the string reader and writer on it. */
module RdbFiles {
  import opened Decimal
  import opened Handler
  import opened RdbStrings
  import opened Wrappers

  const EOF: int := -1

  class RdbFile {
    var data: Bytes
    var pos: nat

    predicate Valid()
      reads this
    {
      pos <= |data|
    }

    constructor (data: Bytes)
      ensures Valid() && this.data == data && Rest() == data
    {
      this.data := data;
      pos := 0;
    }

    /** The bytes that are still to be read. */
    function Rest(): Bytes
      reads this
    {
      if pos <= |data| then data[pos..] else []
    }

    /** `fgetc` */
    method GetC() returns (c: int)
      requires Valid()
      modifies this`pos
      ensures Valid()
      ensures old(Rest()) == [] ==> c == EOF && Rest() == []
      ensures old(Rest()) != [] ==> c == old(Rest())[0] && Rest() == old(Rest())[1..] && pos == old(pos) + 1
    {
      if pos == |data| { return EOF; }
      c := data[pos];
      pos := pos + 1;
    }

    /** `ungetc` of the byte just read */
    method UngetC()
      requires 0 < pos <= |data|
      modifies this`pos
      ensures pos == old(pos) - 1 && Rest() == [data[pos]] + old(Rest())
    {
      pos := pos - 1;
    }

    /** `fread` of `n` bytes; a short read leaves the cursor at the end. */
    method Take(n: nat) returns (ok: bool, s: Bytes)
      requires Valid()
      modifies this`pos
      ensures Valid() && (ok <==> n <= |old(Rest())|)
      ensures ok ==> s == old(Rest())[..n] && Rest() == old(Rest())[n..]
      ensures !ok ==> Rest() == []
    {
      if |data| - pos < n {
        pos := |data|;
        return false, [];
      }
      s := data[pos..pos + n];
      pos := pos + n;
      ok := true;
    }

    /** `fputc` */
    method PutC(c: byte)
      modifies this`data
      ensures data == old(data) + [c]
    {
      data := data + [c];
    }

    /** `fwrite` */
    method Put(s: Bytes)
      modifies this`data
      ensures data == old(data) + s
    {
      data := data + s;
    }

    /** The loop that writes the `n` low bytes of `v`, least significant first. */
    method PutLe(v: nat, n: nat)
      modifies this`data
      ensures data == old(data) + Le(v, n)
    {
      var u := v;
      for i := 0 to n
        invariant data + Le(u, n - i) == old(data) + Le(v, n)
      {
        ghost var before := data;
        PutC(u % 256);
        assert data + Le(u / 256, n - i - 1) == before + Le(u, n - i);
        u := u / 256;
      }
    }

    /** `write_rdb_string`: what it reports is the number of bytes it wrote. */
    method WriteString(str: Bytes) returns (n: nat)
      modifies this`data
      ensures data == old(data) + EncodeString(str) && n == |EncodeString(str)|
    {
      var v := Strtol(str);
      if v.end == |str| {
        if -128 <= v.value <= 127 {
          PutInteger(0xC0, v.value, 0x100, 1);
          return 2;
        } else if -32768 <= v.value <= 32767 {
          PutInteger(0xC1, v.value, 0x1_0000, 2);
          return 3;
        } else if INT_MIN <= v.value <= INT_MAX {
          PutInteger(0xC2, v.value, 0x1_0000_0000, 4);
          return 5;
        }
      }
      n := WriteRaw(str);
    }

    method PutInteger(header: byte, v: int, m: nat, n: nat)
      requires m > 0
      modifies this`data
      ensures data == old(data) + ([header] + Le(Unsigned(v, m), n))
    {
      PutC(header);
      PutLe(Unsigned(v, m), n);
    }

    method WriteRaw(str: Bytes) returns (n: nat)
      modifies this`data
      ensures data == old(data) + EncodeRaw(str) && n == |EncodeRaw(str)|
    {
      var header := RawHeader(|str|);
      Put(header);
      Put(str);
      assert old(data) + header + str == old(data) + (header + str);
      return |header| + |str|;
    }

    /** The loop that reads the four length bytes into a `char` and compares it with EOF. */
    method TakeLengthBytes() returns (ok: bool, len: nat)
      requires Valid()
      modifies this`pos
      ensures Valid()
      ensures ok ==> TakeLength(old(Rest()), 4, 0) == TakeString(Rest(), Signed(len, 0x1_0000_0000))
      ensures !ok ==> TakeLength(old(Rest()), 4, 0) == Fail(Rest())
    {
      len := 0;
      ghost var all := TakeLength(Rest(), 4, 0);
      for i := 0 to 4
        invariant Valid()
        invariant all == TakeLength(Rest(), 4 - i, len)
      {
        LengthStep(Rest(), 4 - i, len);
        var c := GetC();
        if c == EOF || c == 255 { return false, len; }
        len := len * 256 + c;
      }
      ok := true;
    }

    /** `read_rdb_string` */
    method ReadString() returns (r: Option<Bytes>)
      requires Valid()
      modifies this`pos
      ensures Valid() && DecodeString(old(Rest())) == Read(r, Rest())
    {
      var first := GetC();
      if first == EOF { return None; }
      var low := first % 64;
      if first / 64 == 0 {
        r := FinishString(low);
      } else if first / 64 == 1 {
        var second := GetC();
        if second == EOF { return None; }
        r := FinishString(low * 256 + second);
      } else if first / 64 == 2 {
        var ok, len := TakeLengthBytes();
        if !ok { return None; }
        r := FinishString(Signed(len, 0x1_0000_0000));
      } else if low == 0 {
        r := FinishInteger(1);
      } else if low == 1 {
        r := FinishInteger(2);
      } else if low == 2 {
        r := FinishInteger(4);
      } else {
        r := None;
      }
    }

    method FinishString(len: int) returns (r: Option<Bytes>)
      requires Valid()
      modifies this`pos
      ensures Valid() && TakeString(old(Rest()), len) == Read(r, Rest())
    {
      if len < 0 { return None; }
      var ok, s := Take(len);
      r := if ok then Some(CStr(s)) else None;
    }

    method FinishInteger(n: nat) returns (r: Option<Bytes>)
      requires Valid()
      modifies this`pos
      ensures Valid() && TakeInteger(old(Rest()), n) == Read(r, Rest())
    {
      var ok, s := Take(n);
      r := if ok then Some(Show(Signed(FromLe(s), Pow256(n)))) else None;
    }
  }
}
