/** Fixed-width integers of the Go source and big-endian byte strings. */
module Bytes {

  import opened Wrappers

  /** Go's `byte` / `uint8`. */
  type Byte = b: int | 0 <= b < 256

  /** Go's `uint32`. */
  type Uint32 = n: int | 0 <= n < 0x1_0000_0000

  /** Go's `int16`. */
  type Int16 = n: int | -0x8000 <= n < 0x8000

  /** The unsigned number a big-endian byte string denotes (the reference reading). */
  function BeValue(s: seq<Byte>): nat
  {
    if s == [] then 0 else BeValue(s[..|s| - 1]) * 256 + s[|s| - 1]
  }

  /** A byte string of n bytes denotes a number below 256^n. */
  lemma {:induction false} BeValueBound(s: seq<Byte>)
    ensures BeValue(s) < Pow256(|s|)
  {
    if s != [] {
      BeValueBound(s[..|s| - 1]);
    }
  }

  function Pow256(n: nat): (r: nat)
    ensures r > 0
  {
    if n == 0 then 1 else 256 * Pow256(n - 1)
  }

  /** A leading zero byte does not change the number. */
  lemma {:induction false} BeValueLeadingZero(s: seq<Byte>)
    ensures BeValue([0] + s) == BeValue(s)
  {
    if s != [] {
      assert ([0] + s)[..|[0] + s| - 1] == [0] + s[..|s| - 1];
      BeValueLeadingZero(s[..|s| - 1]);
    }
  }

  /** `writeUint32`: the four big-endian bytes of a uint32. */
  function WriteUint32(v: Uint32): (r: seq<Byte>)
    ensures |r| == 4 && BeValue(r) == v
  {
    var r := [v / 0x100_0000, (v / 0x1_0000) % 256, (v / 256) % 256, v % 256];
    assert BeValue(r[..1]) == v / 0x100_0000 by {
      assert r[..1][..0] == [];
    }
    assert BeValue(r[..2]) == v / 0x1_0000 by {
      assert r[..2][..1] == r[..1];
    }
    assert BeValue(r[..3]) == v / 256 by {
      assert r[..3][..2] == r[..2];
    }
    assert r[..4][..3] == r[..3];
    r
  }

  /** `readUint32`: the switch on the length of the value; None stands for its "not
      supported" panic on more than four bytes. */
  function ReadUint32(data: seq<Byte>): (r: Option<Uint32>)
    ensures r.Some? <==> |data| <= 4
    ensures r.Some? ==> r.value == BeValue(data)
  {
    assert |data| >= 1 ==> data[..1][..0] == [] && BeValue(data[..1]) == data[0];
    assert |data| >= 2 ==>
      data[..2][..1] == data[..1] && BeValue(data[..2]) == data[0] as int * 256 + data[1] as int;
    assert |data| >= 3 ==>
      data[..3][..2] == data[..2] &&
      BeValue(data[..3]) == data[0] as int * 0x1_0000 + data[1] as int * 256 + data[2] as int;
    assert |data| == 4 ==> data[..3] == data[..|data| - 1];
    if |data| == 0 then Some(0)
    else if |data| == 1 then Some(data[0])
    else if |data| == 2 then Some(data[0] as int * 256 + data[1] as int)
    else if |data| == 3 then Some(data[0] as int * 0x1_0000 + data[1] as int * 256 + data[2] as int)
    else if |data| == 4 then
      Some(data[0] as int * 0x100_0000 + data[1] as int * 0x1_0000 + data[2] as int * 256 + data[3] as int)
    else None
  }

  /** The bytes of s after its leading zero bytes: the minimal big-endian form. */
  function MinimalBytes(s: seq<Byte>): (r: seq<Byte>)
    ensures BeValue(r) == BeValue(s)
    ensures r == [] || r[0] != 0
    ensures |r| <= |s| && r == s[|s| - |r|..]
  {
    if s != [] && s[0] == 0 then
      assert s == [0] + s[1..];
      BeValueLeadingZero(s[1..]);
      MinimalBytes(s[1..])
    else
      s
  }

  /** The zero-stripping loop of the source, which indexes `minData[0]` without a length check:
      None stands for the index-out-of-range panic it reaches on an all-zero input. */
  function MinimalBytesAsWritten(s: seq<Byte>): (r: Option<seq<Byte>>)
    ensures r.Some? ==> r.value != [] && r.value[0] != 0
    ensures r.Some? ==> |r.value| <= |s| && r.value == s[|s| - |r.value|..]
  {
    if s == [] then None
    else if s[0] == 0 then
      var r := MinimalBytesAsWritten(s[1..]);
      assert r.Some? ==> s[1..][|s| - 1 - |r.value|..] == s[|s| - |r.value|..];
      r
    else Some(s)
  }

  /** As written, stripping panics exactly when every byte is zero; otherwise it agrees with
      MinimalBytes. */
  lemma {:induction false} MinimalBytesAsWrittenPanics(s: seq<Byte>)
    ensures MinimalBytesAsWritten(s).None? <==> BeValue(s) == 0
    ensures MinimalBytesAsWritten(s).Some? ==> MinimalBytesAsWritten(s).value == MinimalBytes(s)
  {
    if s != [] {
      assert s == [0] + s[1..] || s[0] != 0;
      if s[0] == 0 {
        BeValueLeadingZero(s[1..]);
        MinimalBytesAsWrittenPanics(s[1..]);
      } else {
        BeValueLeadingNonZero(s);
      }
    }
  }

  /** A byte string whose first byte is non-zero denotes a non-zero number. */
  lemma {:induction false} BeValueLeadingNonZero(s: seq<Byte>)
    requires s != [] && s[0] != 0
    ensures BeValue(s) > 0
  {
    if |s| > 1 {
      assert s[..|s| - 1][0] == s[0];
      BeValueLeadingNonZero(s[..|s| - 1]);
    }
  }

  /** A uint32 value 0 makes the as-written stripping panic; the minimal form is then empty. */
  lemma ZeroValueAsWritten()
    ensures MinimalBytesAsWritten(WriteUint32(0)) == None
    ensures MinimalBytes(WriteUint32(0)) == []
  {
    MinimalBytesAsWrittenPanics(WriteUint32(0));
    assert BeValue(MinimalBytes(WriteUint32(0))) == 0;
    var m := MinimalBytes(WriteUint32(0));
    if m != [] {
      BeValueLeadingNonZero(m);
    }
  }
}
