/** The stored form of an argon2id password hash. */
module Phc {
  import opened Wire
  import opened Sequences
  import opened Numerals
  import opened Base64

  datatype Params = Params(memoryKiB: nat, time: nat, parallelism: nat, saltLength: nat, keyLength: nat)

  datatype Hash = Hash(params: Params, salt: seq<byte>, key: seq<byte>)

  const VERSION := 19
  const TWO_32 := 0x1_0000_0000
  const TWO_8 := 256

  /** The bounds on a stored hash, and section 3.1 of RFC 9106: at least 8 KiB per lane. */
  predicate InLimits(p: Params) {
    && 8 <= p.memoryKiB <= 65536 && 1 <= p.time <= 64 && 1 <= p.parallelism <= 8
    && 8 <= p.saltLength <= 64 && 16 <= p.keyLength <= 64
    && p.memoryKiB >= 8 * p.parallelism
  }

  /** strings.Split: every separator splits. */
  function SplitAt(s: string, sep: char): (parts: seq<string>)
    ensures |parts| >= 1
  {
    if s == "" then [""]
    else
      var rest := SplitAt(s[1..], sep);
      if s[0] == sep then [""] + rest else [[s[0]] + rest[0]] + rest[1..]
  }

  function Labelled(tag: string, n: nat): string { tag + FormatNat(n) }

  /** The number after a two-character tag. */
  function Unlabelled(tag: string, field: string, limit: nat): Option<nat>
    requires |tag| == 2
  {
    if tag <= field then ParseUint(field[2..], limit) else None
  }

  function CostsText(p: Params): string {
    Join([Labelled("m=", p.memoryKiB), Labelled("t=", p.time), Labelled("p=", p.parallelism)], ',')
  }

  /** The five fields of a stored hash, each after a '$'. */
  function Encode(p: Params, salt: seq<byte>, key: seq<byte>): string {
    Join(["", "argon2id", Labelled("v=", VERSION), CostsText(p), EncodeBytes(salt), EncodeBytes(key)], '$')
  }

  /** The builder writes the same text piece by piece. */
  method EncodeText(p: Params, salt: seq<byte>, key: seq<byte>) returns (b: string)
    ensures b == Encode(p, salt, key)
  {
    var m, t, l := FormatNat(p.memoryKiB), FormatNat(p.time), FormatNat(p.parallelism);
    var costs := "m=" + m;
    costs := costs + ",t=" + t;
    costs := costs + ",p=" + l;
    CostsPieces(m, t, l);
    b := "$argon2id$v=" + FormatNat(VERSION);
    b := b + "$" + costs;
    b := b + "$" + EncodeBytes(salt);
    b := b + "$" + EncodeBytes(key);
    HashPieces(FormatNat(VERSION), costs, EncodeBytes(salt), EncodeBytes(key));
  }

  lemma CostsPieces(m: string, t: string, l: string)
    ensures Join(["m=" + m, "t=" + t, "p=" + l], ',') == "m=" + m + ",t=" + t + ",p=" + l
  {
    var x, y, z := "m=" + m, "t=" + t, "p=" + l;
    assert [x, y, z][1..] == [y, z] && [y, z][1..] == [z];
    assert Join([z], ',') == z && Join([y, z], ',') == y + [','] + z;
    assert Join([x, y, z], ',') == x + [','] + (y + [','] + z);
  }

  lemma HashPieces(v: string, c: string, s: string, k: string)
    ensures Join(["", "argon2id", "v=" + v, c, s, k], '$') == "$argon2id$v=" + v + "$" + c + "$" + s + "$" + k
  {
    var x := "v=" + v;
    assert Join([k], '$') == k && Join([s, k], '$') == s + ['$'] + k;
    assert [c, s, k][1..] == [s, k] && [x, c, s, k][1..] == [c, s, k];
    assert Join([c, s, k], '$') == c + ['$'] + (s + ['$'] + k);
    var tail := Join([x, c, s, k], '$');
    assert tail == x + ['$'] + (c + ['$'] + (s + ['$'] + k));
    assert ["argon2id", x, c, s, k][1..] == [x, c, s, k];
    assert ["", "argon2id", x, c, s, k][1..] == ["argon2id", x, c, s, k];
    assert Join(["argon2id", x, c, s, k], '$') == "argon2id" + ['$'] + tail;
    assert Join(["", "argon2id", x, c, s, k], '$') == "" + ['$'] + ("argon2id" + ['$'] + tail);
  }

  datatype Costs = Costs(memory: nat, time: nat, parallelism: nat)

  function ParseCosts(text: string): Option<Costs> {
    var fields := SplitAt(text, ',');
    if |fields| != 3 then None
    else match (Unlabelled("m=", fields[0], TWO_32), Unlabelled("t=", fields[1], TWO_32),
                Unlabelled("p=", fields[2], TWO_8))
      case (Some(m), Some(t), Some(p)) => Some(Costs(m, t, p))
      case _ => None
  }

  function HashOf(c: Costs, salt: seq<byte>, key: seq<byte>): Hash {
    Hash(Params(c.memory, c.time, c.parallelism, |salt|, |key|), salt, key)
  }

  /** What decoding makes of the parts. */
  function DecodeParts(parts: seq<string>): Option<Hash> {
    if |parts| != 6 || parts[0] != "" || parts[1] != "argon2id" || Unlabelled("v=", parts[2], TWO_32) != Some(VERSION)
    then None
    else match (ParseCosts(parts[3]), DecodeBytes(parts[4]), DecodeBytes(parts[5]))
      case (Some(c), Some(salt), Some(key)) =>
        if InLimits(HashOf(c, salt, key).params) then Some(HashOf(c, salt, key)) else None
      case _ => None
  }

  function Decode(encoded: string): Option<Hash> { DecodeParts(SplitAt(encoded, '$')) }

  // ----- Splitting -----

  lemma {:induction false} SplitPlain(a: string, sep: char)
    requires sep !in a
    ensures SplitAt(a, sep) == [a]
  {
    if a != "" {
      SplitPlain(a[1..], sep);
      assert [a[0]] + a[1..] == a;
    }
  }

  lemma {:induction false} SplitFirst(a: string, rest: string, sep: char)
    requires sep !in a
    ensures SplitAt(a + [sep] + rest, sep) == [a] + SplitAt(rest, sep)
  {
    var s := a + [sep] + rest;
    if a == "" {
      assert s[1..] == rest;
    } else {
      assert s[1..] == a[1..] + [sep] + rest;
      SplitFirst(a[1..], rest, sep);
      assert [a[0]] + a[1..] == a;
    }
  }

  lemma LabelledPlain(tag: string, n: nat)
    requires '$' !in tag && ',' !in tag
    ensures '$' !in Labelled(tag, n) && ',' !in Labelled(tag, n)
  {
    NatRoundTrip(n);
  }

  lemma LabelledRoundTrip(tag: string, n: nat, limit: nat)
    requires |tag| == 2
    ensures Unlabelled(tag, Labelled(tag, n), limit) == if n < limit then Some(n) else None
  {
    NatRoundTrip(n);
    assert Labelled(tag, n)[2..] == FormatNat(n);
  }

  /** Joining and splitting are inverse when no part holds the separator. */
  lemma {:induction false} SplitJoined(parts: seq<string>, sep: char)
    requires parts != [] && forall i :: 0 <= i < |parts| ==> sep !in parts[i]
    ensures SplitAt(Join(parts, sep), sep) == parts
  {
    if |parts| == 1 {
      SplitPlain(parts[0], sep);
    } else {
      SplitJoined(parts[1..], sep);
      SplitFirst(parts[0], Join(parts[1..], sep), sep);
    }
  }

  lemma {:induction false} JoinedWithout(parts: seq<string>, sep: char, c: char)
    requires parts != [] && c != sep && forall i :: 0 <= i < |parts| ==> c !in parts[i]
    ensures c !in Join(parts, sep)
  {
    if |parts| > 1 {
      JoinedWithout(parts[1..], sep, c);
    }
  }

  lemma CostsRoundTrip(p: Params)
    ensures ParseCosts(CostsText(p)) ==
            if p.memoryKiB < TWO_32 && p.time < TWO_32 && p.parallelism < TWO_8
            then Some(Costs(p.memoryKiB, p.time, p.parallelism)) else None
    ensures '$' !in CostsText(p)
  {
    var parts := [Labelled("m=", p.memoryKiB), Labelled("t=", p.time), Labelled("p=", p.parallelism)];
    LabelledPlain("m=", p.memoryKiB);
    LabelledPlain("t=", p.time);
    LabelledPlain("p=", p.parallelism);
    SplitJoined(parts, ',');
    JoinedWithout(parts, ',', '$');
    LabelledRoundTrip("m=", p.memoryKiB, TWO_32);
    LabelledRoundTrip("t=", p.time, TWO_32);
    LabelledRoundTrip("p=", p.parallelism, TWO_8);
  }

  lemma FieldsPlain(p: Params, salt: seq<byte>, key: seq<byte>)
    ensures '$' !in Labelled("v=", VERSION) && '$' !in CostsText(p) && '$' !in EncodeBytes(salt)
            && '$' !in EncodeBytes(key)
  {
    LabelledPlain("v=", VERSION);
    CostsRoundTrip(p);
    EncodedPlain(salt);
    EncodedPlain(key);
  }

  lemma PartsRoundTrip(p: Params, salt: seq<byte>, key: seq<byte>, parts: seq<string>)
    requires |parts| == 6 && parts[0] == "" && parts[1] == "argon2id"
             && Unlabelled("v=", parts[2], TWO_32) == Some(VERSION)
    requires parts[3] == CostsText(p) && DecodeBytes(parts[4]) == Some(salt) && DecodeBytes(parts[5]) == Some(key)
    ensures var q := p.(saltLength := |salt|, keyLength := |key|);
            DecodeParts(parts) == if InLimits(q) then Some(Hash(q, salt, key)) else None
  {
    CostsRoundTrip(p);
  }

  /** Decoding an encoded hash gives back parameters, salt and key, exactly when the parameters,
      with the lengths of salt and key, are within the limits. */
  lemma HashRoundTrip(p: Params, salt: seq<byte>, key: seq<byte>)
    ensures var q := p.(saltLength := |salt|, keyLength := |key|);
            Decode(Encode(p, salt, key)) == if InLimits(q) then Some(Hash(q, salt, key)) else None
  {
    var parts := ["", "argon2id", Labelled("v=", VERSION), CostsText(p), EncodeBytes(salt), EncodeBytes(key)];
    FieldsPlain(p, salt, key);
    SplitJoined(parts, '$');
    LabelledRoundTrip("v=", VERSION, TWO_32);
    BytesRoundTrip(salt);
    BytesRoundTrip(key);
    PartsRoundTrip(p, salt, key, parts);
  }

  /** Everything that decodes is within the limits, its lengths are those of salt and key, and
      encoding it again gives a string that decodes to the same. */
  lemma DecodedWithinLimits(encoded: string)
    requires Decode(encoded).Some?
    ensures var h := Decode(encoded).value;
            && InLimits(h.params) && h.params.saltLength == |h.salt| && h.params.keyLength == |h.key|
            && Decode(Encode(h.params, h.salt, h.key)) == Some(h)
  {
    var h := Decode(encoded).value;
    HashRoundTrip(h.params, h.salt, h.key);
  }

  // ----- What decoding accepts -----

  lemma {:induction false} SplitExact(s: string, sep: char)
    ensures Join(SplitAt(s, sep), sep) == s
    ensures forall i :: 0 <= i < |SplitAt(s, sep)| ==> sep !in SplitAt(s, sep)[i]
  {
    if s != "" {
      var rest := SplitAt(s[1..], sep);
      SplitExact(s[1..], sep);
      if s[0] == sep {
        assert ([""] + rest)[1..] == rest;
      } else {
        JoinPrepend(s[0], rest, sep);
      }
      assert s == [s[0]] + s[1..];
    }
  }

  /** Digits of this number. */
  predicate Numeral(text: string, n: nat) { AllDigits(text) && PlaceValue(text) == n }

  /** A stored hash as text: its version, costs, salt and key. */
  function HashText(v: string, m: string, t: string, p: string, salt: string, key: string): string {
    "$argon2id$v=" + v + "$" + ("m=" + m + ",t=" + t + ",p=" + p) + "$" + salt + "$" + key
  }

  /** The text spells the hash: version 19, its costs in digits, its salt and key in base64, all
      within the limits. */
  ghost predicate Spells(encoded: string, h: Hash, v: string, m: string, t: string, p: string, salt: string,
                         key: string) {
    && encoded == HashText(v, m, t, p, salt, key) && Numeral(v, 19)
    && Numeral(m, h.params.memoryKiB) && Numeral(t, h.params.time) && Numeral(p, h.params.parallelism)
    && DecodeBytes(salt) == Some(h.salt) && DecodeBytes(key) == Some(h.key)
    && h.params.saltLength == |h.salt| && h.params.keyLength == |h.key|
    && 8 <= h.params.memoryKiB <= 65536 && 1 <= h.params.time <= 64 && 1 <= h.params.parallelism <= 8
    && 8 <= |h.salt| <= 64 && 16 <= |h.key| <= 64 && 8 * h.params.parallelism <= h.params.memoryKiB
  }

  /** Encoding spells version, costs, salt and key, the numbers without leading zeros. */
  lemma EncodeExact(p: Params, salt: seq<byte>, key: seq<byte>)
    ensures Encode(p, salt, key) == HashText(FormatNat(19), FormatNat(p.memoryKiB), FormatNat(p.time),
                                             FormatNat(p.parallelism), EncodeBytes(salt), EncodeBytes(key))
  {
    CostsPieces(FormatNat(p.memoryKiB), FormatNat(p.time), FormatNat(p.parallelism));
    HashPieces(FormatNat(19), CostsText(p), EncodeBytes(salt), EncodeBytes(key));
  }

  lemma UnlabelledExact(tag: string, field: string, limit: nat, n: nat)
    requires |tag| == 2
    ensures Unlabelled(tag, field, limit) == Some(n) <==>
            |field| >= 2 && field == tag + field[2..] && Numeral(field[2..], n) && n < limit
  {
    if tag <= field {
      assert field == tag + field[2..];
      ParseNatExact(field[2..]);
    }
  }

  lemma TaggedExact(tag: string, text: string, limit: nat, n: nat)
    requires |tag| == 2
    ensures Unlabelled(tag, tag + text, limit) == Some(n) <==> Numeral(text, n) && n < limit
  {
    assert (tag + text)[2..] == text;
    UnlabelledExact(tag, tag + text, limit, n);
  }

  lemma NumeralPlain(text: string, n: nat, c: char)
    requires Numeral(text, n) && (c == '$' || c == ',')
    ensures c !in text
  {
  }

  lemma {:induction false} DecodedPlain(text: string)
    requires Values(text).Some?
    ensures '$' !in text
  {
    if text != "" {
      DecodedPlain(text[1..]);
    }
  }

  lemma CostsExact(text: string, c: Costs)
    ensures ParseCosts(text) == Some(c) ==>
              exists m, t, p :: text == "m=" + m + ",t=" + t + ",p=" + p && CostNumerals(m, t, p, c)
  {
    if ParseCosts(text) == Some(c) {
      var fields := SplitAt(text, ',');
      SplitExact(text, ',');
      UnlabelledExact("m=", fields[0], TWO_32, c.memory);
      UnlabelledExact("t=", fields[1], TWO_32, c.time);
      UnlabelledExact("p=", fields[2], TWO_8, c.parallelism);
      var m, t, p := fields[0][2..], fields[1][2..], fields[2][2..];
      CostsPieces(m, t, p);
      assert fields == ["m=" + m, "t=" + t, "p=" + p];
      assert CostNumerals(m, t, p, c);
    }
  }

  predicate CostNumerals(m: string, t: string, p: string, c: Costs) {
    && Numeral(m, c.memory) && Numeral(t, c.time) && Numeral(p, c.parallelism)
    && c.memory < TWO_32 && c.time < TWO_32 && c.parallelism < TWO_8
  }

  lemma CostsRead(m: string, t: string, p: string, c: Costs)
    requires CostNumerals(m, t, p, c)
    ensures ParseCosts("m=" + m + ",t=" + t + ",p=" + p) == Some(c) && '$' !in "m=" + m + ",t=" + t + ",p=" + p
  {
    NumeralPlain(m, c.memory, ',');
    NumeralPlain(t, c.time, ',');
    NumeralPlain(p, c.parallelism, ',');
    NumeralPlain(m, c.memory, '$');
    NumeralPlain(t, c.time, '$');
    NumeralPlain(p, c.parallelism, '$');
    CostsPieces(m, t, p);
    SplitJoined(["m=" + m, "t=" + t, "p=" + p], ',');
    TaggedExact("m=", m, TWO_32, c.memory);
    TaggedExact("t=", t, TWO_32, c.time);
    TaggedExact("p=", p, TWO_8, c.parallelism);
  }

  lemma SpelledDecodes(encoded: string, h: Hash, v: string, m: string, t: string, p: string, salt: string, key: string)
    requires Spells(encoded, h, v, m, t, p, salt, key)
    ensures Decode(encoded) == Some(h)
  {
    var c := Costs(h.params.memoryKiB, h.params.time, h.params.parallelism);
    var costs := "m=" + m + ",t=" + t + ",p=" + p;
    CostsRead(m, t, p, c);
    HashPieces(v, costs, salt, key);
    NumeralPlain(v, 19, '$');
    DecodedPlain(salt);
    DecodedPlain(key);
    SplitJoined(["", "argon2id", "v=" + v, costs, salt, key], '$');
    TaggedExact("v=", v, TWO_32, 19);
  }

  lemma DecodedSpells(encoded: string, h: Hash)
    requires Decode(encoded) == Some(h)
    ensures exists v, m, t, p, salt, key :: Spells(encoded, h, v, m, t, p, salt, key)
  {
    var parts := SplitAt(encoded, '$');
    SplitExact(encoded, '$');
    UnlabelledExact("v=", parts[2], TWO_32, 19);
    var c := ParseCosts(parts[3]).value;
    CostsExact(parts[3], c);
    var m, t, p :| parts[3] == "m=" + m + ",t=" + t + ",p=" + p && CostNumerals(m, t, p, c);
    HashPieces(parts[2][2..], parts[3], parts[4], parts[5]);
    assert parts == ["", "argon2id", "v=" + parts[2][2..], parts[3], parts[4], parts[5]];
    assert Spells(encoded, h, parts[2][2..], m, t, p, parts[4], parts[5]);
  }

  /** Decoding accepts exactly the texts that spell a hash, as that hash. */
  lemma DecodeExact(encoded: string, h: Hash)
    ensures Decode(encoded) == Some(h) <==> exists v, m, t, p, salt, key :: Spells(encoded, h, v, m, t, p, salt, key)
  {
    if Decode(encoded) == Some(h) {
      DecodedSpells(encoded, h);
    }
    if v, m, t, p, salt, key :| Spells(encoded, h, v, m, t, p, salt, key) {
      SpelledDecodes(encoded, h, v, m, t, p, salt, key);
    }
  }
}
