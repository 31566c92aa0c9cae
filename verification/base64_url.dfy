/** URL-safe base64 without padding (sections 3.2 and 5 of RFC 4648), trailing bits refused. */
module Base64Url {
  import opened Prelude

  predicate IsByte(b: int) {
    0 <= b < 256
  }

  predicate AreBytes(bytes: seq<int>) {
    forall i :: 0 <= i < |bytes| ==> IsByte(bytes[i])
  }

  /** The character of six bits. */
  function Char(v: int): char
    requires 0 <= v < 64
  {
    if v < 26 then 'A' + v as char
    else if v < 52 then 'a' + (v - 26) as char
    else if v < 62 then '0' + (v - 52) as char
    else if v == 62 then '-'
    else '_'
  }

  /** The six bits of a character, if it is of the alphabet. */
  function Value(c: char): (v: Option<int>)
    ensures v.Some? ==> 0 <= v.value < 64 && Char(v.value) == c
    ensures v.None? ==> forall i :: 0 <= i < 64 ==> Char(i) != c
  {
    if 'A' <= c <= 'Z' then Some((c - 'A') as int)
    else if 'a' <= c <= 'z' then Some((c - 'a') as int + 26)
    else if '0' <= c <= '9' then Some((c - '0') as int + 52)
    else if c == '-' then Some(62)
    else if c == '_' then Some(63)
    else None
  }

  lemma ValueOfChar(v: int)
    requires 0 <= v < 64
    ensures Value(Char(v)) == Some(v)
  {
  }

  predicate AreSextets(v: seq<int>) {
    forall i :: 0 <= i < |v| ==> 0 <= v[i] < 64
  }

  /** Three bytes as four groups of six bits; the last group of a remainder is filled with zeros. */
  function First(a: int): int {
    a / 4
  }

  function Second(a: int, b: int): int {
    a % 4 * 16 + b / 16
  }

  function Third(b: int, c: int): int {
    b % 16 * 4 + c / 64
  }

  function Fourth(c: int): int {
    c % 64
  }

  function Sextets(bytes: seq<int>): (r: seq<int>)
    requires AreBytes(bytes)
    ensures AreSextets(r)
  {
    if |bytes| == 0 then []
    else if |bytes| == 1 then [First(bytes[0]), Second(bytes[0], 0)]
    else if |bytes| == 2 then [First(bytes[0]), Second(bytes[0], bytes[1]), Third(bytes[1], 0)]
    else
      [First(bytes[0]), Second(bytes[0], bytes[1]), Third(bytes[1], bytes[2]), Fourth(bytes[2])] + Sextets(bytes[3..])
  }

  function Encode(bytes: seq<int>): (s: string)
    requires AreBytes(bytes)
    ensures |s| == |Sextets(bytes)|
  {
    var v := Sextets(bytes);
    seq(|v|, i requires 0 <= i < |v| => Char(v[i]))
  }

  /** The values of a text's characters. */
  function Values(s: string): (r: Option<seq<int>>)
    ensures r.Some? ==> |r.value| == |s| && forall i :: 0 <= i < |s| ==> Value(s[i]) == Some(r.value[i])
  {
    if s == "" then Some([])
    else
      match (Value(s[0]), Values(s[1..]))
      case (Some(v), Some(rest)) => Some([v] + rest)
      case _ => None
  }

  function ByteOne(w: int, x: int): int {
    w * 4 + x / 16
  }

  function ByteTwo(x: int, y: int): int {
    x % 16 * 16 + y / 4
  }

  function ByteThree(y: int, z: int): int {
    y % 4 * 64 + z
  }

  /** One character left over, or a bit set past the last byte, is refused. */
  function Packed(v: seq<int>): (r: Option<seq<int>>)
    requires AreSextets(v)
    ensures r.Some? ==> AreBytes(r.value)
  {
    if |v| == 0 then Some([])
    else if |v| == 1 then None
    else if |v| == 2 then if v[1] % 16 == 0 then Some([ByteOne(v[0], v[1])]) else None
    else if |v| == 3 then
      if v[2] % 4 == 0 then Some([ByteOne(v[0], v[1]), ByteTwo(v[1], v[2])]) else None
    else
      match Packed(v[4..])
      case Some(rest) => Some([ByteOne(v[0], v[1]), ByteTwo(v[1], v[2]), ByteThree(v[2], v[3])] + rest)
      case None => None
  }

  function Decode(s: string): (r: Option<seq<int>>)
    ensures r.Some? ==> AreBytes(r.value)
  {
    match Values(s)
    case Some(v) => Packed(v)
    case None => None
  }

  lemma By4(m: int, t: int)
    requires 0 <= t < 4
    ensures (m * 4 + t) / 4 == m && (m * 4 + t) % 4 == t
  {
  }

  lemma By16(m: int, t: int)
    requires 0 <= t < 16
    ensures (m * 16 + t) / 16 == m && (m * 16 + t) % 16 == t
  {
  }

  lemma By64(m: int, t: int)
    requires 0 <= t < 64
    ensures (m * 64 + t) / 64 == m && (m * 64 + t) % 64 == t
  {
  }

  /** Three bytes and back. */
  lemma Unpack(a: int, b: int, c: int)
    requires IsByte(a) && IsByte(b) && IsByte(c)
    ensures var w, x, y, z := First(a), Second(a, b), Third(b, c), Fourth(c);
            ByteOne(w, x) == a && ByteTwo(x, y) == b && ByteThree(y, z) == c
    ensures Second(a, 0) % 16 == 0 && Third(b, 0) % 4 == 0
  {
    By16(a % 4, b / 16);
    By16(a % 4, 0);
    By4(b % 16, c / 64);
    By4(b % 16, 0);
  }

  /** Four sextets and back. */
  lemma Pack(w: int, x: int, y: int, z: int)
    requires 0 <= w < 64 && 0 <= x < 64 && 0 <= y < 64 && 0 <= z < 64
    ensures var a, b, c := ByteOne(w, x), ByteTwo(x, y), ByteThree(y, z);
            First(a) == w && Second(a, b) == x && Third(b, c) == y && Fourth(c) == z
    ensures x % 16 == 0 ==> Second(ByteOne(w, x), 0) == x
    ensures y % 4 == 0 ==> Third(ByteTwo(x, y), 0) == y
  {
    By4(w, x / 16);
    By16(x % 16, y / 4);
    By64(y % 4, z);
  }

  lemma {:induction false} ValuesOf(s: string, v: seq<int>)
    requires |s| == |v| && AreSextets(v)
    requires forall i :: 0 <= i < |v| ==> s[i] == Char(v[i])
    ensures Values(s) == Some(v)
  {
    if s != "" {
      ValueOfChar(v[0]);
      ValuesOf(s[1..], v[1..]);
      assert v == [v[0]] + v[1..];
    }
  }

  lemma {:induction false} PackedSextets(bytes: seq<int>)
    requires AreBytes(bytes)
    ensures Packed(Sextets(bytes)) == Some(bytes)
  {
    hide First, Second, Third, Fourth, ByteOne, ByteTwo, ByteThree;
    if |bytes| == 1 {
      Unpack(bytes[0], 0, 0);
      assert bytes == [bytes[0]];
    } else if |bytes| == 2 {
      Unpack(bytes[0], bytes[1], 0);
      assert bytes == [bytes[0], bytes[1]];
    } else if |bytes| > 2 {
      Unpack(bytes[0], bytes[1], bytes[2]);
      PackedSextets(bytes[3..]);
      assert Sextets(bytes)[4..] == Sextets(bytes[3..]);
      assert bytes == [bytes[0], bytes[1], bytes[2]] + bytes[3..];
    }
  }

  /** What is encoded decodes to itself. */
  lemma DecodeUndoesEncode(bytes: seq<int>)
    requires AreBytes(bytes)
    ensures Decode(Encode(bytes)) == Some(bytes)
  {
    ValuesOf(Encode(bytes), Sextets(bytes));
    PackedSextets(bytes);
  }

  lemma SextetsOfMore(a: int, b: int, c: int, rest: seq<int>)
    requires IsByte(a) && IsByte(b) && IsByte(c) && AreBytes(rest)
    ensures AreBytes([a, b, c] + rest)
    ensures Sextets([a, b, c] + rest) == [First(a), Second(a, b), Third(b, c), Fourth(c)] + Sextets(rest)
  {
    hide First, Second, Third, Fourth;
    assert ([a, b, c] + rest)[3..] == rest;
  }

  lemma SextetsOfFour(w: int, x: int, y: int, z: int, rest: seq<int>)
    requires AreSextets([w, x, y, z]) && AreBytes(rest)
    ensures var bytes := [ByteOne(w, x), ByteTwo(x, y), ByteThree(y, z)] + rest;
            AreBytes(bytes) && Sextets(bytes) == [w, x, y, z] + Sextets(rest)
  {
    var v := [w, x, y, z];
    assert 0 <= v[0] < 64 && 0 <= v[1] < 64 && 0 <= v[2] < 64 && 0 <= v[3] < 64;
    Pack(w, x, y, z);
    SextetsOfMore(ByteOne(w, x), ByteTwo(x, y), ByteThree(y, z), rest);
  }

  lemma ShortSextets(v: seq<int>)
    requires AreSextets(v) && |v| < 4 && Packed(v).Some?
    ensures Sextets(Packed(v).value) == v
  {
    hide First, Second, Third, Fourth, ByteOne, ByteTwo, ByteThree;
    if |v| > 1 {
      Pack(v[0], v[1], if |v| == 3 then v[2] else 0, 0);
      assert |v| == 2 ==> v == [v[0], v[1]];
      assert |v| == 3 ==> v == [v[0], v[1], v[2]];
    }
  }

  lemma {:induction false} SextetsOfPacked(v: seq<int>)
    requires AreSextets(v) && Packed(v).Some?
    ensures Sextets(Packed(v).value) == v
  {
    if |v| < 4 {
      ShortSextets(v);
    } else {
      hide Sextets, ByteOne, ByteTwo, ByteThree;
      SextetsOfPacked(v[4..]);
      SextetsOfFour(v[0], v[1], v[2], v[3], Packed(v[4..]).value);
      assert v == [v[0], v[1], v[2], v[3]] + v[4..];
    }
  }

  /** A text decodes only to the bytes it is the encoding of: no two texts decode alike. */
  lemma EncodeUndoesDecode(s: string)
    requires Decode(s).Some?
    ensures Encode(Decode(s).value) == s
  {
    var v := Values(s).value;
    SextetsOfPacked(v);
    assert forall i :: 0 <= i < |s| ==> Encode(Packed(v).value)[i] == s[i];
  }
}
