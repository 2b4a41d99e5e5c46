/**
 * UTF-8, as Rust's `str::as_bytes` produces it and `std::str::from_utf8` /
 * `String::from_utf8` accept it: shortest forms only, no surrogates, nothing above U+10FFFF.
 * Also byte lengths of strings (`str::len`) and byte-index slicing (`&s[i..]`), which
 * panics when `i` is not on a character boundary.
 */
module Utf8 {
  import opened Wrappers

  type Byte = b: int | 0 <= b < 256

  /** The bytes of one character. */
  function EncodeChar(c: char): (r: seq<Byte>)
    ensures 1 <= |r| <= 4
  {
    var cp := c as int;
    if cp < 0x80 then [cp]
    else if cp < 0x800 then [0xC0 + cp / 64, 0x80 + cp % 64]
    else if cp < 0x1_0000 then [0xE0 + cp / 4096, 0x80 + (cp / 64) % 64, 0x80 + cp % 64]
    else [0xF0 + cp / 0x4_0000, 0x80 + (cp / 4096) % 64, 0x80 + (cp / 64) % 64, 0x80 + cp % 64]
  }

  /** The bytes of a string: `str::as_bytes`. */
  function Encode(s: string): seq<Byte> {
    if s == [] then [] else EncodeChar(s[0]) + Encode(s[1..])
  }

  /** `str::len`: the length in bytes. */
  function ByteLen(s: string): nat {
    |Encode(s)|
  }

  predicate IsContinuation(b: Byte) {
    0x80 <= b < 0xC0
  }

  predicate IsScalar(cp: int) {
    (0 <= cp < 0xD800) || (0xE000 <= cp < 0x11_0000)
  }

  /**
   * The first character of `bs` and the number of bytes it takes, or None when `bs`
   * does not start with a well-formed UTF-8 sequence.
   */
  function DecodeChar(bs: seq<Byte>): (r: Option<(char, nat)>)
    ensures r.Some? ==> 1 <= r.value.1 <= |bs| && r.value.1 <= 4
  {
    if bs == [] then None
    else
      var b0: int := bs[0];
      if b0 < 0x80 then Some((b0 as char, 1))
      else if 0xC2 <= b0 < 0xE0 then
        if |bs| < 2 || !IsContinuation(bs[1]) then None
        else Some((((b0 - 0xC0) * 64 + (bs[1] as int - 0x80)) as char, 2))
      else if 0xE0 <= b0 < 0xF0 then
        if |bs| < 3 || !IsContinuation(bs[1]) || !IsContinuation(bs[2]) then None
        else
          var cp := (b0 - 0xE0) * 4096 + (bs[1] as int - 0x80) * 64 + (bs[2] as int - 0x80);
          if cp < 0x800 || !IsScalar(cp) then None else Some((cp as char, 3))
      else if 0xF0 <= b0 < 0xF5 then
        if |bs| < 4 || !IsContinuation(bs[1]) || !IsContinuation(bs[2]) || !IsContinuation(bs[3]) then None
        else
          var cp := (b0 - 0xF0) * 0x4_0000 + (bs[1] as int - 0x80) * 4096
                    + (bs[2] as int - 0x80) * 64 + (bs[3] as int - 0x80);
          if cp < 0x1_0000 || !IsScalar(cp) then None else Some((cp as char, 4))
      else None
  }

  /** `String::from_utf8`: the string the bytes encode, or None when they are not UTF-8. */
  function Decode(bs: seq<Byte>): Option<string>
    decreases |bs|
  {
    if bs == [] then Some([])
    else match DecodeChar(bs)
      case None => None
      case Some((c, n)) =>
        match Decode(bs[n..])
        case None => None
        case Some(rest) => Some([c] + rest)
  }

  lemma DecodeEncodeChar(c: char, rest: seq<Byte>)
    ensures DecodeChar(EncodeChar(c) + rest) == Some((c, |EncodeChar(c)|))
  {
    var cp := c as int;
    if cp < 0x80 {
      assert (EncodeChar(c) + rest)[0] == cp;
    } else if cp < 0x800 {
      DecodeTwoBytes(c, rest);
    } else if cp < 0x1_0000 {
      DecodeThreeBytes(c, rest);
    } else {
      DecodeFourBytes(c, rest);
    }
  }

  lemma DecodeTwoBytes(c: char, rest: seq<Byte>)
    requires 0x80 <= c as int < 0x800
    ensures DecodeChar(EncodeChar(c) + rest) == Some((c, 2))
  {
    var cp := c as int;
    var bs := EncodeChar(c) + rest;
    assert bs[0] == 0xC0 + cp / 64 && bs[1] == 0x80 + cp % 64;
  }

  /** A code point below 0x1_0000 in its three 6-bit-or-less groups. */
  lemma ThreeGroups(cp: int)
    requires 0 <= cp
    ensures cp == (cp / 4096) * 4096 + ((cp / 64) % 64) * 64 + cp % 64
  {
    var q := cp / 64;
    assert cp == q * 64 + cp % 64;
    assert q == (q / 64) * 64 + q % 64;
    assert cp / 4096 == q / 64;
  }

  lemma DecodeThreeBytes(c: char, rest: seq<Byte>)
    requires 0x800 <= c as int < 0x1_0000
    ensures DecodeChar(EncodeChar(c) + rest) == Some((c, 3))
  {
    var cp := c as int;
    var bs := EncodeChar(c) + rest;
    ThreeGroups(cp);
    assert bs[0] == 0xE0 + cp / 4096 && bs[1] == 0x80 + (cp / 64) % 64 && bs[2] == 0x80 + cp % 64;
  }

  /** A code point in its four 6-bit-or-less groups. */
  lemma FourGroups(cp: int)
    requires 0 <= cp
    ensures cp == (cp / 0x4_0000) * 0x4_0000 + ((cp / 4096) % 64) * 4096 + ((cp / 64) % 64) * 64 + cp % 64
  {
    var q := cp / 64;
    var q2 := q / 64;
    assert cp == q * 64 + cp % 64;
    assert q == q2 * 64 + q % 64;
    assert q2 == (q2 / 64) * 64 + q2 % 64;
    assert cp / 4096 == q2;
    assert cp / 0x4_0000 == q2 / 64;
  }

  lemma DecodeFourBytes(c: char, rest: seq<Byte>)
    requires 0x1_0000 <= c as int
    ensures DecodeChar(EncodeChar(c) + rest) == Some((c, 4))
  {
    var cp := c as int;
    var bs := EncodeChar(c) + rest;
    FourGroups(cp);
    assert bs[0] == 0xF0 + cp / 0x4_0000 && bs[1] == 0x80 + (cp / 4096) % 64;
    assert bs[2] == 0x80 + (cp / 64) % 64 && bs[3] == 0x80 + cp % 64;
  }

  /** Decoding what was encoded gives the string back. */
  lemma {:induction false} DecodeEncode(s: string)
    ensures Decode(Encode(s)) == Some(s)
  {
    if s != [] {
      var e := EncodeChar(s[0]);
      var bs := Encode(s);
      assert bs == e + Encode(s[1..]);
      DecodeEncodeChar(s[0], Encode(s[1..]));
      assert bs[|e|..] == Encode(s[1..]);
      DecodeEncode(s[1..]);
      assert s == [s[0]] + s[1..];
    }
  }

  lemma DivMod64(q: int, r: int)
    requires 0 <= q && 0 <= r < 64
    ensures (q * 64 + r) / 64 == q && (q * 64 + r) % 64 == r
  {
  }

  lemma DivMod4096(q: int, r: int)
    requires 0 <= q && 0 <= r < 4096
    ensures (q * 4096 + r) / 4096 == q
  {
  }

  lemma DivMod40000(q: int, r: int)
    requires 0 <= q && 0 <= r < 0x4_0000
    ensures (q * 0x4_0000 + r) / 0x4_0000 == q
  {
  }

  /** The bytes a character is decoded from are that character's encoding. */
  lemma DecodeCharIsEncoding(bs: seq<Byte>, c: char, n: nat)
    requires DecodeChar(bs) == Some((c, n))
    ensures bs[..n] == EncodeChar(c)
  {
    if n == 1 {
      assert bs[..1] == [bs[0]];
    } else if n == 2 {
      DecodeTwoIsEncoding(bs, c);
    } else if n == 3 {
      DecodeThreeIsEncoding(bs, c);
    } else {
      DecodeFourIsEncoding(bs, c);
    }
  }

  lemma DecodeTwoIsEncoding(bs: seq<Byte>, c: char)
    requires DecodeChar(bs) == Some((c, 2))
    ensures bs[..2] == EncodeChar(c)
  {
    var x: int := bs[0] as int - 0xC0;
    var y: int := bs[1] as int - 0x80;
    assert c as int == x * 64 + y;
    DivMod64(x, y);
    assert bs[..2] == [bs[0], bs[1]];
  }

  lemma DecodeThreeIsEncoding(bs: seq<Byte>, c: char)
    requires DecodeChar(bs) == Some((c, 3))
    ensures bs[..3] == EncodeChar(c)
  {
    var x: int := bs[0] as int - 0xE0;
    var y: int := bs[1] as int - 0x80;
    var z: int := bs[2] as int - 0x80;
    assert c as int == (x * 64 + y) * 64 + z;
    DivMod64(x * 64 + y, z);
    DivMod64(x, y);
    DivMod4096(x, y * 64 + z);
    assert bs[..3] == [bs[0], bs[1], bs[2]];
  }

  lemma DecodeFourIsEncoding(bs: seq<Byte>, c: char)
    requires DecodeChar(bs) == Some((c, 4))
    ensures bs[..4] == EncodeChar(c)
  {
    var x: int := bs[0] as int - 0xF0;
    var y: int := bs[1] as int - 0x80;
    var z: int := bs[2] as int - 0x80;
    var w: int := bs[3] as int - 0x80;
    var high := (x * 64 + y) * 64 + z;
    assert c as int == high * 64 + w;
    DivMod64(high, w);
    DivMod64(x * 64 + y, z);
    DivMod64(x, y);
    DivMod4096(x * 64 + y, z * 64 + w);
    DivMod40000(x, (y * 64 + z) * 64 + w);
    assert bs[..4] == [bs[0], bs[1], bs[2], bs[3]];
  }

  /** Bytes that decode are exactly the encoding of the string they decode to. */
  lemma {:induction false} EncodeDecode(bs: seq<Byte>, s: string)
    requires Decode(bs) == Some(s)
    ensures Encode(s) == bs
    decreases |bs|
  {
    if bs != [] {
      DecodeFirst(bs, s);
      var n := DecodeChar(bs).value.1;
      DecodeCharIsEncoding(bs, s[0], n);
      EncodeDecode(bs[n..], s[1..]);
      EncodeFirst(s);
      SplitAt(bs, n);
    }
  }

  /** A decoded string starts with the first decoded character, and the rest decodes to the rest. */
  lemma DecodeFirst(bs: seq<Byte>, s: string)
    requires bs != [] && Decode(bs) == Some(s)
    ensures DecodeChar(bs).Some? && s != [] && s[0] == DecodeChar(bs).value.0
    ensures Decode(bs[DecodeChar(bs).value.1..]) == Some(s[1..])
  {
    var rest := Decode(bs[DecodeChar(bs).value.1..]).value;
    assert s == [DecodeChar(bs).value.0] + rest;
    assert s[1..] == rest;
  }

  lemma SplitAt(bs: seq<Byte>, n: nat)
    requires n <= |bs|
    ensures bs == bs[..n] + bs[n..]
  {
  }

  lemma EncodeFirst(s: string)
    requires s != []
    ensures Encode(s) == EncodeChar(s[0]) + Encode(s[1..])
  {
  }

  lemma {:induction false} EncodeAppend(a: string, b: string)
    ensures Encode(a + b) == Encode(a) + Encode(b)
  {
    if a != [] {
      assert (a + b)[1..] == a[1..] + b;
      EncodeAppend(a[1..], b);
    } else {
      assert a + b == b;
    }
  }

  predicate IsAscii(s: string) {
    forall i :: 0 <= i < |s| ==> s[i] as int < 0x80
  }

  /** An ASCII string takes one byte per character, and its bytes are its code points. */
  lemma {:induction false} EncodeAscii(s: string)
    requires IsAscii(s)
    ensures |Encode(s)| == |s|
    ensures forall i :: 0 <= i < |s| ==> Encode(s)[i] == s[i] as int
  {
    if s != [] {
      EncodeAscii(s[1..]);
    }
  }

  /**
   * The number of characters whose bytes fill exactly the first `n` bytes of `s`, or None
   * when byte `n` falls inside a character (then `&s[n..]` panics in Rust).
   */
  function CharBoundary(s: string, n: nat): (r: Option<nat>)
    ensures r.Some? ==> r.value <= |s| && ByteLen(s[..r.value]) == n
  {
    if n == 0 then assert s[..0] == []; Some(0)
    else if s == [] then None
    else
      var w := |EncodeChar(s[0])|;
      if n < w then None
      else match CharBoundary(s[1..], n - w)
        case None => None
        case Some(k) =>
          assert s[..k + 1] == [s[0]] + s[1..][..k];
          Some(k + 1)
  }

  /** `&s[n..]` as a string, or None when Rust panics because `n` is not a boundary. */
  function SliceFromByte(s: string, n: nat): (r: Option<string>)
    ensures r.Some? ==> ByteLen(r.value) + n == ByteLen(s)
    ensures r.Some? ==> exists k :: 0 <= k <= |s| && r.value == s[k..]
  {
    match CharBoundary(s, n)
    case None => None
    case Some(k) =>
      assert s == s[..k] + s[k..];
      EncodeAppend(s[..k], s[k..]);
      Some(s[k..])
  }

  /** A byte index that lands strictly inside a multi-byte character is not a boundary. */
  lemma {:induction false} InsideCharIsNoBoundary(a: string, c: char, b: string, j: nat)
    requires 0 < j < |EncodeChar(c)|
    ensures CharBoundary(a + [c] + b, ByteLen(a) + j) == None
  {
    var s := a + [c] + b;
    if a == [] {
      assert s[0] == c;
      assert ByteLen(a) == 0;
    } else {
      assert s[1..] == a[1..] + [c] + b;
      assert ByteLen(a) == |EncodeChar(a[0])| + ByteLen(a[1..]);
      InsideCharIsNoBoundary(a[1..], c, b, j);
    }
  }

  /** A character takes at most four bytes. */
  lemma {:induction false} ByteLenBound(s: string)
    ensures ByteLen(s) <= 4 * |s|
  {
    if s != [] {
      ByteLenBound(s[1..]);
    }
  }

  lemma {:induction false} ByteLenAppend(a: string, b: string)
    ensures ByteLen(a + b) == ByteLen(a) + ByteLen(b)
  {
    EncodeAppend(a, b);
  }
}
