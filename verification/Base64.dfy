/** Standard base64 without padding: sections 3.2 and 4 of RFC 4648, as the decoder reads it,
    which skips line breaks and ignores left-over bits. */
module Base64 {
  import opened Wire

  type byte = x: int | 0 <= x < 256

  type sextet = x: int | 0 <= x < 64

  // ----- Bytes as groups of six bits -----

  function Sextet0(a: byte): sextet { a / 4 }

  function Sextet1(a: byte, b: byte): sextet { a % 4 * 16 + b / 16 }

  function Sextet2(b: byte, c: byte): sextet { b % 16 * 4 + c / 64 }

  function Sextet3(c: byte): sextet { c % 64 }

  /** Three bytes make four groups; missing bytes at the end count as zero and their groups are
      left out. */
  function Sextets(s: seq<byte>): seq<sextet> {
    if s == [] then []
    else if |s| == 1 then [Sextet0(s[0]), Sextet1(s[0], 0)]
    else if |s| == 2 then [Sextet0(s[0]), Sextet1(s[0], s[1]), Sextet2(s[1], 0)]
    else [Sextet0(s[0]), Sextet1(s[0], s[1]), Sextet2(s[1], s[2]), Sextet3(s[2])] + Sextets(s[3..])
  }

  function Byte0(w: int, x: int): (r: int)
    ensures 0 <= w < 64 && 0 <= x < 64 ==> 0 <= r < 256
  {
    w * 4 + x / 16
  }

  function Byte1(x: int, y: int): (r: int)
    ensures 0 <= x < 64 && 0 <= y < 64 ==> 0 <= r < 256
  {
    x % 16 * 16 + y / 4
  }

  function Byte2(y: int, z: int): (r: int)
    ensures 0 <= y < 64 && 0 <= z < 64 ==> 0 <= r < 256
  {
    y % 4 * 64 + z
  }

  /** A single left-over group is an error; the unused bits of the last one are not looked at. */
  function Bytes(v: seq<sextet>): Option<seq<byte>> {
    if v == [] then Some([])
    else if |v| == 1 then None
    else if |v| == 2 then Some([Byte0(v[0], v[1])])
    else if |v| == 3 then Some([Byte0(v[0], v[1]), Byte1(v[1], v[2])])
    else match Bytes(v[4..])
      case None => None
      case Some(rest) => Some([Byte0(v[0], v[1]), Byte1(v[1], v[2]), Byte2(v[2], v[3])] + rest)
  }

  lemma ThreeBytes(a: byte, b: byte, c: byte)
    ensures Byte0(Sextet0(a), Sextet1(a, b)) == a
    ensures Byte1(Sextet1(a, b), Sextet2(b, c)) == b
    ensures Byte2(Sextet2(b, c), Sextet3(c)) == c
  {
  }

  lemma FourGroups(w: sextet, x: sextet, y: sextet, z: sextet, v: seq<sextet>)
    requires Bytes(v).Some?
    ensures Bytes([w, x, y, z] + v) == Some([Byte0(w, x), Byte1(x, y), Byte2(y, z)] + Bytes(v).value)
  {
    assert ([w, x, y, z] + v)[4..] == v;
  }

  lemma ThreeMore(a: byte, b: byte, c: byte, rest: seq<byte>)
    requires Bytes(Sextets(rest)) == Some(rest)
    ensures Bytes(Sextets([a, b, c] + rest)) == Some([a, b, c] + rest)
  {
    ThreeBytes(a, b, c);
    assert ([a, b, c] + rest)[3..] == rest;
    FourGroups(Sextet0(a), Sextet1(a, b), Sextet2(b, c), Sextet3(c), Sextets(rest));
  }

  lemma TwoGroups(w: sextet, x: sextet)
    ensures Bytes([w, x]) == Some([Byte0(w, x)])
  {
  }

  lemma ThreeGroups(w: sextet, x: sextet, y: sextet)
    ensures Bytes([w, x, y]) == Some([Byte0(w, x), Byte1(x, y)])
  {
  }

  lemma OneByte(a: byte)
    ensures Bytes(Sextets([a])) == Some([a])
  {
    var w, x := Sextet0(a), Sextet1(a, 0);
    assert Sextets([a]) == [w, x];
    TwoGroups(w, x);
    assert Byte0(w, x) == a by { ThreeBytes(a, 0, 0); }
  }

  lemma TwoBytes(a: byte, b: byte)
    ensures Bytes(Sextets([a, b])) == Some([a, b])
  {
    var w, x, y := Sextet0(a), Sextet1(a, b), Sextet2(b, 0);
    assert Sextets([a, b]) == [w, x, y];
    ThreeGroups(w, x, y);
    assert Byte0(w, x) == a && Byte1(x, y) == b by { ThreeBytes(a, b, 0); }
  }

  /** The bytes of a group followed by the rest, or a short end. */
  lemma Grouped(s: seq<byte>)
    ensures |s| == 1 ==> s == [s[0]]
    ensures |s| == 2 ==> s == [s[0], s[1]]
    ensures |s| >= 3 ==> s == [s[0], s[1], s[2]] + s[3..]
  {
  }

  lemma {:induction false} SextetsRoundTrip(s: seq<byte>)
    ensures Bytes(Sextets(s)) == Some(s)
  {
    Grouped(s);
    if |s| == 1 {
      OneByte(s[0]);
    } else if |s| == 2 {
      TwoBytes(s[0], s[1]);
    } else if |s| >= 3 {
      SextetsRoundTrip(s[3..]);
      ThreeMore(s[0], s[1], s[2], s[3..]);
    }
  }

  // ----- Groups as symbols -----

  function Symbol(v: sextet): char {
    if v < 26 then 'A' + v as char
    else if v < 52 then 'a' + (v - 26) as char
    else if v < 62 then '0' + (v - 52) as char
    else if v == 62 then '+' else '/'
  }

  function Value(c: char): Option<sextet> {
    if 'A' <= c <= 'Z' then Some((c - 'A') as int)
    else if 'a' <= c <= 'z' then Some((c - 'a') as int + 26)
    else if '0' <= c <= '9' then Some((c - '0') as int + 52)
    else if c == '+' then Some(62) else if c == '/' then Some(63) else None
  }

  lemma SymbolValue(v: sextet)
    ensures Value(Symbol(v)) == Some(v) && Symbol(v) !in {'$', '\n', '\r'}
  {
  }

  function Symbols(v: seq<sextet>): string { seq(|v|, i requires 0 <= i < |v| => Symbol(v[i])) }

  /** The values of the symbols, line breaks skipped. */
  function Values(t: string): Option<seq<sextet>> {
    if t == "" then Some([])
    else if t[0] == '\n' || t[0] == '\r' then Values(t[1..])
    else match (Value(t[0]), Values(t[1..]))
      case (Some(v), Some(rest)) => Some([v] + rest)
      case _ => None
  }

  lemma {:induction false} SymbolsRoundTrip(v: seq<sextet>)
    ensures Values(Symbols(v)) == Some(v)
  {
    if v != [] {
      SymbolValue(v[0]);
      SymbolsRoundTrip(v[1..]);
      assert Symbols(v)[1..] == Symbols(v[1..]);
      assert v == [v[0]] + v[1..];
    }
  }

  // ----- The codec -----

  function EncodeBytes(s: seq<byte>): string { Symbols(Sextets(s)) }

  function DecodeBytes(t: string): Option<seq<byte>> {
    match Values(t) case Some(v) => Bytes(v) case None => None
  }

  lemma EncodedPlain(s: seq<byte>)
    ensures '$' !in EncodeBytes(s)
  {
    forall i | 0 <= i < |EncodeBytes(s)| ensures EncodeBytes(s)[i] != '$' {
      SymbolValue(Sextets(s)[i]);
    }
  }

  lemma BytesRoundTrip(s: seq<byte>)
    ensures DecodeBytes(EncodeBytes(s)) == Some(s)
  {
    SextetsRoundTrip(s);
    SymbolsRoundTrip(Sextets(s));
  }

  // ----- What the decoder accepts, and what it makes of it -----

  const CAPITALS := "ABCDEFGHIJKLMNOPQRSTUVWXYZ"
  const SMALLS := "abcdefghijklmnopqrstuvwxyz"
  const DIGITS := "0123456789"

  lemma CapitalsExact(v: nat)
    requires v < 26
    ensures |CAPITALS| == 26 && Symbol(v) == CAPITALS[v]
  {
    if v == 0 {} else if v == 1 {} else if v == 2 {} else if v == 3 {} else if v == 4 {} else if v == 5 {}
    else if v == 6 {} else if v == 7 {} else if v == 8 {} else if v == 9 {} else if v == 10 {}
    else if v == 11 {} else if v == 12 {} else if v == 13 {} else if v == 14 {} else if v == 15 {}
    else if v == 16 {} else if v == 17 {} else if v == 18 {} else if v == 19 {} else if v == 20 {}
    else if v == 21 {} else if v == 22 {} else if v == 23 {} else if v == 24 {} else {}
  }

  lemma SmallsExact(v: nat)
    requires v < 26
    ensures |SMALLS| == 26 && Symbol(v + 26) == SMALLS[v]
  {
    if v == 0 {} else if v == 1 {} else if v == 2 {} else if v == 3 {} else if v == 4 {} else if v == 5 {}
    else if v == 6 {} else if v == 7 {} else if v == 8 {} else if v == 9 {} else if v == 10 {}
    else if v == 11 {} else if v == 12 {} else if v == 13 {} else if v == 14 {} else if v == 15 {}
    else if v == 16 {} else if v == 17 {} else if v == 18 {} else if v == 19 {} else if v == 20 {}
    else if v == 21 {} else if v == 22 {} else if v == 23 {} else if v == 24 {} else {}
  }

  lemma DigitsExact(v: nat)
    requires v < 10
    ensures |DIGITS| == 10 && Symbol(v + 52) == DIGITS[v]
  {
    if v == 0 {} else if v == 1 {} else if v == 2 {} else if v == 3 {} else if v == 4 {} else if v == 5 {}
    else if v == 6 {} else if v == 7 {} else if v == 8 {} else {}
  }

  /** The symbol of a group is its place in the alphabet of RFC 4648, table 1. */
  lemma AlphabetExact(v: sextet)
    ensures |CAPITALS| == 26 == |SMALLS| && |DIGITS| == 10
    ensures Symbol(v) == if v < 26 then CAPITALS[v] else if v < 52 then SMALLS[v - 26]
                         else if v < 62 then DIGITS[v - 52] else if v == 62 then '+' else '/'
  {
    CapitalsExact(if v < 26 then v else 0);
    SmallsExact(if 26 <= v < 52 then v - 26 else 0);
    DigitsExact(if 52 <= v < 62 then v - 52 else 0);
  }

  /** A character has a value only if it is the symbol of it. */
  lemma ValueExact(c: char)
    ensures forall v: sextet :: Value(c) == Some(v) <==> Symbol(v) == c
  {
    forall v: sextet ensures Value(c) == Some(v) <==> Symbol(v) == c {
      SymbolValue(v);
    }
  }

  /** Text without its line breaks. */
  function Unbroken(t: string): string {
    if t == "" then "" else (if t[0] == '\n' || t[0] == '\r' then "" else [t[0]]) + Unbroken(t[1..])
  }

  lemma SymbolsFirst(v: seq<sextet>, c: char, rest: string)
    ensures v != [] ==> Symbols(v) == [Symbol(v[0])] + Symbols(v[1..])
    ensures [c] + rest == Symbols(v) <==> v != [] && c == Symbol(v[0]) && rest == Symbols(v[1..])
  {
    if v != [] {
      assert Symbols(v) == [Symbol(v[0])] + Symbols(v[1..]);
      assert ([c] + rest)[1..] == rest && Symbols(v)[1..] == Symbols(v[1..]);
    } else {
      assert |Symbols(v)| == 0;
    }
  }

  /** The groups that text spells are those whose symbols it shows between line breaks. */
  lemma {:induction false} ValuesExact(t: string, v: seq<sextet>)
    ensures Values(t) == Some(v) <==> Unbroken(t) == Symbols(v)
  {
    if t == "" {
      assert Symbols(v) == "" <==> v == [];
    } else if t[0] == '\n' || t[0] == '\r' {
      ValuesExact(t[1..], v);
      assert Unbroken(t) == Unbroken(t[1..]);
    } else {
      SymbolsFirst(v, t[0], Unbroken(t[1..]));
      if v != [] {
        ValueExact(t[0]);
        ValuesExact(t[1..], v[1..]);
        FirstValue(t, v);
      }
    }
  }

  lemma FirstValue(t: string, v: seq<sextet>)
    requires t != "" && t[0] != '\n' && t[0] != '\r' && v != []
    ensures Values(t) == Some(v) <==> Value(t[0]) == Some(v[0]) && Values(t[1..]) == Some(v[1..])
  {
    assert v == [v[0]] + v[1..];
    if Value(t[0]).Some? && Values(t[1..]).Some? {
      var w := [Value(t[0]).value] + Values(t[1..]).value;
      assert w[1..] == Values(t[1..]).value && w[0] == Value(t[0]).value;
    }
  }

  /** Encoding gives four groups for three bytes and as few as possible for the rest, whose unused
      bits are zero; and no line breaks. */
  lemma {:induction false} EncodedExact(s: seq<byte>)
    ensures var v := Sextets(s);
            && EncodeBytes(s) == Symbols(v) && 4 * |s| <= 3 * |v| <= 4 * |s| + 2
            && (|s| % 3 == 1 ==> v[|v| - 1] % 16 == 0) && (|s| % 3 == 2 ==> v[|v| - 1] % 4 == 0)
  {
    if |s| >= 3 {
      EncodedExact(s[3..]);
      assert |s| == |s[3..]| + 3 && |s| % 3 == |s[3..]| % 3;
      assert Sextets(s)[4..] == Sextets(s[3..]);
    }
  }

  /** The byte at place `i` of the groups: eight bits from two neighbours. */
  function ByteAt(v: seq<sextet>, i: nat): int
    requires i / 3 * 4 + i % 3 + 1 < |v|
  {
    var j := i / 3 * 4 + i % 3;
    var a: int, b: int := v[j], v[j + 1];
    if i % 3 == 0 then a * 4 + b / 16 else if i % 3 == 1 then a % 16 * 16 + b / 4 else a % 4 * 64 + b
  }

  /** Groups decode unless one is left over, each byte from its own bits; what is left of the last
      group does not matter. */
  lemma BytesExact(v: seq<sextet>)
    ensures Bytes(v).Some? <==> |v| % 4 != 1
    ensures Bytes(v).Some? ==> 4 * |Bytes(v).value| <= 3 * |v| < 4 * |Bytes(v).value| + 4
    ensures Bytes(v).Some? ==> forall i: nat :: i < |Bytes(v).value| ==> Bytes(v).value[i] == ByteAt(v, i)
  {
    BytesLength(v);
    if Bytes(v).Some? {
      forall i: nat | i < |Bytes(v).value| ensures Bytes(v).value[i] == ByteAt(v, i) {
        BytesAt(v, i);
      }
    }
  }

  /** Three bytes for four groups, one for two, two for three. */
  lemma {:induction false} BytesLength(v: seq<sextet>)
    ensures Bytes(v).Some? <==> |v| % 4 != 1
    ensures Bytes(v).Some? ==> 4 * |Bytes(v).value| <= 3 * |v| < 4 * |Bytes(v).value| + 4
  {
    if |v| >= 4 {
      BytesLength(v[4..]);
      FourMore(|v[4..]|);
      assert Bytes(v).Some? <==> Bytes(v[4..]).Some?;
    }
  }

  lemma FourMore(n: nat)
    ensures (n + 4) % 4 == n % 4
  {
  }

  lemma {:induction false} BytesAt(v: seq<sextet>, i: nat)
    requires Bytes(v).Some? && i < |Bytes(v).value|
    requires 4 * |Bytes(v).value| <= 3 * |v|
    ensures Bytes(v).value[i] == ByteAt(v, i)
  {
    if |v| >= 4 && i >= 3 {
      BytesLength(v[4..]);
      BytesAt(v[4..], i - 3);
      ByteAtShift(v, i);
    }
  }

  lemma ByteAtShift(v: seq<sextet>, i: nat)
    requires 3 <= i && i / 3 * 4 + i % 3 + 1 < |v|
    ensures (i - 3) / 3 * 4 + (i - 3) % 3 + 1 < |v[4..]| && ByteAt(v, i) == ByteAt(v[4..], i - 3)
  {
    assert i / 3 == (i - 3) / 3 + 1 && i % 3 == (i - 3) % 3;
  }
}
