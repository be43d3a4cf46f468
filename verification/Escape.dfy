/** Backslash escaping of cell sub-values.  A `char` stands for one byte: every result below
    holds for all byte strings. */
module Escape {
  import opened Sequences

  const SUB_VALUE: set<char> := {'\\', '|', ':'}
  const COLUMN_NAME: set<char> := {'\\', '|', ':', '#'}

  /** Put a backslash before every special character. */
  function Escaped(s: string, special: set<char>): string {
    if s == "" then ""
    else (if s[0] in special then ['\\', s[0]] else [s[0]]) + Escaped(s[1..], special)
  }

  /** Drop each backslash and keep the character after it; `pending` says that a backslash has
      just been read.  A trailing backslash stands for itself. */
  function Unescaped(s: string, pending: bool): string {
    if s == "" then if pending then "\\" else ""
    else if pending then [s[0]] + Unescaped(s[1..], false)
    else if s[0] == '\\' then Unescaped(s[1..], true)
    else [s[0]] + Unescaped(s[1..], false)
  }

  /** The pieces of `s` between unescaped separators, still escaped. */
  function Pieces(s: string, sep: char, pending: bool): (r: seq<string>)
    ensures r != []
  {
    if s == "" then [""]
    else if !pending && s[0] == sep && sep != '\\' then [""] + Pieces(s[1..], sep, false)
    else
      var rest := Pieces(s[1..], sep, !pending && s[0] == '\\');
      [[s[0]] + rest[0]] + rest[1..]
  }

  /** An empty cell has no pieces. */
  function Split(s: string, sep: char): seq<string> {
    if s == "" then [] else Pieces(s, sep, false)
  }

  // ----- The byte loops -----

  lemma {:induction false} NothingToEscape(s: string, special: set<char>)
    requires forall i :: 0 <= i < |s| ==> s[i] !in special
    ensures Escaped(s, special) == s
  {
    if s != "" {
      NothingToEscape(s[1..], special);
    }
  }

  lemma {:induction false} NothingToUnescape(s: string)
    requires '\\' !in s
    ensures Unescaped(s, false) == s
  {
    if s != "" {
      NothingToUnescape(s[1..]);
    }
  }

  /** EscapeSubValue and escapeColumnName, which differ in the set of special characters. */
  method EscapeValue(s: string, special: set<char>) returns (r: string)
    ensures r == Escaped(s, special)
  {
    if forall i :: 0 <= i < |s| ==> s[i] !in special {
      NothingToEscape(s, special);
      return s;
    }
    r := "";
    for i := 0 to |s|
      invariant r + Escaped(s[i..], special) == Escaped(s, special)
    {
      assert s[i..][1..] == s[i + 1..];
      if s[i] in special {
        r := r + ['\\'];
      }
      r := r + [s[i]];
    }
  }

  /** One character of an escaped value read. */
  lemma UnescapeStep(s: string, i: nat, pending: bool, r: string)
    requires i < |s| && r + Unescaped(s[i..], pending) == Unescaped(s, false)
    ensures var opens := !pending && s[i] == '\\';
            (if opens then r else r + [s[i]]) + Unescaped(s[i + 1..], opens) == Unescaped(s, false)
  {
    assert s[i..][1..] == s[i + 1..];
  }

  method UnescapeSubValue(s: string) returns (r: string)
    ensures r == Unescaped(s, false)
  {
    if '\\' !in s {
      NothingToUnescape(s);
      return s;
    }
    r := "";
    var pending := false;
    for i := 0 to |s|
      invariant r + Unescaped(s[i..], pending) == Unescaped(s, false)
    {
      UnescapeStep(s, i, pending, r);
      if pending {
        r := r + [s[i]];
        pending := false;
      } else if s[i] == '\\' {
        pending := true;
      } else {
        r := r + [s[i]];
      }
    }
    if pending {
      r := r + ['\\'];
    }
  }

  /** The pieces of `s`, with the first `i` characters read: `out` is closed, the piece that
      starts at `start` is open. */
  ghost predicate SplitSoFar(s: string, sep: char, out: seq<string>, start: nat, i: nat, pending: bool)
    requires start <= i <= |s|
  {
    var rest := Pieces(s[i..], sep, pending);
    out + [s[start..i] + rest[0]] + rest[1..] == Pieces(s, sep, false)
  }

  /** The separator closes the open piece. */
  lemma SplitClose(s: string, sep: char, out: seq<string>, start: nat, i: nat)
    requires start <= i < |s| && SplitSoFar(s, sep, out, start, i, false) && s[i] != '\\' && s[i] == sep
    ensures SplitSoFar(s, sep, out + [s[start..i]], i + 1, i + 1, false)
  {
    assert s[i..][1..] == s[i + 1..];
    var rest, rest' := Pieces(s[i..], sep, false), Pieces(s[i + 1..], sep, false);
    assert rest == [""] + rest';
    assert s[start..i] + rest[0] == s[start..i] && s[i + 1..i + 1] + rest'[0] == rest'[0];
    assert rest[1..] == [rest'[0]] + rest'[1..];
  }

  /** Any other character extends it. */
  lemma SplitExtend(s: string, sep: char, out: seq<string>, start: nat, i: nat, pending: bool)
    requires start <= i < |s| && SplitSoFar(s, sep, out, start, i, pending) && (pending || s[i] == '\\' || s[i] != sep)
    ensures SplitSoFar(s, sep, out, start, i + 1, !pending && s[i] == '\\')
  {
    assert s[i..][1..] == s[i + 1..];
    var rest, rest' := Pieces(s[i..], sep, pending), Pieces(s[i + 1..], sep, !pending && s[i] == '\\');
    assert s[start..i] + rest[0] == s[start..i + 1] + rest'[0];
    assert rest[1..] == rest'[1..];
  }

  method SplitEscaped(s: string, sep: char) returns (out: seq<string>)
    ensures out == Split(s, sep)
  {
    if s == "" {
      return [];
    }
    out := [];
    var start := 0;
    var pending := false;
    assert s[0..] == s && s[0..0] + Pieces(s, sep, false)[0] == Pieces(s, sep, false)[0];
    for i := 0 to |s|
      invariant 0 <= start <= i
      invariant SplitSoFar(s, sep, out, start, i, pending)
    {
      if pending {
        SplitExtend(s, sep, out, start, i, pending);
        pending := false;
      } else if s[i] == '\\' {
        SplitExtend(s, sep, out, start, i, pending);
        pending := true;
      } else if s[i] == sep {
        SplitClose(s, sep, out, start, i);
        out := out + [s[start..i]];
        start := i + 1;
      } else {
        SplitExtend(s, sep, out, start, i, pending);
      }
    }
    assert s[|s|..] == "" && Pieces("", sep, pending) == [""];
    assert s[start..|s|] + "" == s[start..];
    out := out + [s[start..]];
  }

  // ----- Inverses -----

  lemma {:induction false} EscapeRoundTrip(s: string, special: set<char>)
    requires '\\' in special
    ensures Unescaped(Escaped(s, special), false) == s
  {
    if s != "" {
      var e := Escaped(s, special);
      EscapeRoundTrip(s[1..], special);
      if s[0] in special {
        assert e[1..] == [s[0]] + Escaped(s[1..], special);
        assert e[1..][1..] == Escaped(s[1..], special);
      } else {
        assert e[1..] == Escaped(s[1..], special);
      }
    }
  }

  /** No separator of `s` is a split point, and `s` ends with no escape pending. */
  predicate Solid(s: string, sep: char, pending: bool) {
    if s == "" then !pending
    else if pending then Solid(s[1..], sep, false)
    else s[0] != sep && Solid(s[1..], sep, s[0] == '\\')
  }

  /** No separator inside an escaped value is ever a split point. */
  lemma {:induction false} EscapedSolid(s: string, special: set<char>, sep: char)
    requires '\\' in special && sep in special && sep != '\\'
    ensures Solid(Escaped(s, special), sep, false)
  {
    if s != "" {
      var e := Escaped(s, special);
      EscapedSolid(s[1..], special, sep);
      if s[0] in special {
        assert e[1..] == [s[0]] + Escaped(s[1..], special);
        assert e[1..][1..] == Escaped(s[1..], special);
      } else {
        assert e[1..] == Escaped(s[1..], special);
      }
    }
  }

  lemma {:induction false} SolidAppend(a: string, b: string, sep: char, pending: bool)
    requires Solid(a, sep, pending) && Solid(b, sep, false)
    ensures Solid(a + b, sep, pending)
  {
    if a == "" {
      assert a + b == b;
    } else {
      assert (a + b)[1..] == a[1..] + b;
      SolidAppend(a[1..], b, sep, if pending then false else a[0] == '\\');
    }
  }

  lemma {:induction false} PiecesOfSolid(a: string, sep: char, pending: bool)
    requires Solid(a, sep, pending) && sep != '\\'
    ensures Pieces(a, sep, pending) == [a]
  {
    if a != "" {
      PiecesOfSolid(a[1..], sep, !pending && a[0] == '\\');
      assert [a[0]] + a[1..] == a;
    }
  }

  lemma {:induction false} PiecesAfterSolid(a: string, b: string, sep: char, pending: bool)
    requires Solid(a, sep, pending) && sep != '\\'
    ensures Pieces(a + [sep] + b, sep, pending) == [a] + Pieces(b, sep, false)
  {
    var s := a + [sep] + b;
    if a == "" {
      assert s == [sep] + b;
      assert s[1..] == b;
    } else {
      assert s[1..] == a[1..] + [sep] + b;
      PiecesAfterSolid(a[1..], b, sep, !pending && a[0] == '\\');
      var rest := Pieces(s[1..], sep, !pending && a[0] == '\\');
      assert rest == [a[1..]] + Pieces(b, sep, false);
      assert [a[0]] + a[1..] == a;
      assert s[0] == a[0];
    }
  }

  /** Splitting a join of solid parts gives the parts back. */
  lemma {:induction false} SplitJoin(parts: seq<string>, sep: char)
    requires parts != [] && sep != '\\'
    requires forall i :: 0 <= i < |parts| ==> Solid(parts[i], sep, false)
    ensures Pieces(Join(parts, sep), sep, false) == parts
  {
    if |parts| == 1 {
      PiecesOfSolid(parts[0], sep, false);
    } else {
      SplitJoin(parts[1..], sep);
      PiecesAfterSolid(parts[0], Join(parts[1..], sep), sep, false);
    }
  }

  // ----- What the three functions do to any text -----

  /** Escaping goes character by character: the special ones get a backslash, the others stay. */
  lemma {:induction false} EscapedExact(a: string, c: char, b: string, special: set<char>)
    ensures Escaped(a + [c] + b, special) ==
            Escaped(a, special) + (if c in special then ['\\', c] else [c]) + Escaped(b, special)
    ensures Escaped("", special) == ""
  {
    var s := a + [c] + b;
    if a == "" {
      assert s == [c] + b && s[1..] == b;
    } else {
      assert s[1..] == a[1..] + [c] + b;
      EscapedExact(a[1..], c, b, special);
    }
  }

  /** A plain character, a backslash with the character it protects, or a backslash at the end. */
  predicate IsUnit(u: string, c: char, last: bool) {
    (u == [c] && c != '\\') || u == ['\\', c] || (last && u == "\\" && c == '\\')
  }

  /** Any text is a row of such units, and unescaping keeps one character of each. */
  lemma {:induction false} UnescapedExact(s: string) returns (units: seq<string>)
    ensures Concat(units) == s && |units| == |Unescaped(s, false)|
    ensures forall i :: 0 <= i < |units| ==> IsUnit(units[i], Unescaped(s, false)[i], i == |units| - 1)
  {
    if s == "" {
      units := [];
    } else if s == "\\" {
      assert s[1..] == "";
      units := ["\\"];
      assert Concat(units[1..]) == "";
    } else {
      var n := if s[0] == '\\' then 2 else 1;
      var rest := UnescapedExact(s[n..]);
      assert n == 2 ==> s[1..][1..] == s[2..];
      assert Unescaped(s, false) == [s[n - 1]] + Unescaped(s[n..], false);
      units := [s[..n]] + rest;
      assert units[1..] == rest && s == s[..n] + s[n..];
      forall i | 0 <= i < |units| ensures IsUnit(units[i], Unescaped(s, false)[i], i == |units| - 1) {
        assert i > 0 ==> units[i] == rest[i - 1];
      }
    }
  }

  /** No separator of `s` is a split point; a backslash may be pending at the end. */
  predicate Unsplit(s: string, sep: char, pending: bool) {
    s == "" || if pending then Unsplit(s[1..], sep, false) else s[0] != sep && Unsplit(s[1..], sep, s[0] == '\\')
  }

  lemma {:induction false} PiecesJoin(s: string, sep: char, pending: bool)
    ensures Join(Pieces(s, sep, pending), sep) == s
  {
    if s != "" {
      if !pending && s[0] == sep && sep != '\\' {
        PiecesJoin(s[1..], sep, false);
        assert Pieces(s, sep, pending)[1..] == Pieces(s[1..], sep, false);
      } else {
        PiecesJoin(s[1..], sep, !pending && s[0] == '\\');
        JoinPrepend(s[0], Pieces(s[1..], sep, !pending && s[0] == '\\'), sep);
      }
      assert s == [s[0]] + s[1..];
    }
  }

  /** No piece can be split, and all but the last end with no backslash pending. */
  predicate Whole(r: seq<string>, sep: char, pending: bool) {
    && r != []
    && if |r| == 1 then Unsplit(r[0], sep, pending) else Solid(r[0], sep, pending) && Whole(r[1..], sep, false)
  }

  lemma WholeLonger(c: char, r: seq<string>, sep: char, pending: bool)
    requires sep != '\\' && (pending || c != sep) && Whole(r, sep, !pending && c == '\\')
    ensures Whole([[c] + r[0]] + r[1..], sep, pending)
  {
    assert ([c] + r[0])[1..] == r[0];
    assert ([[c] + r[0]] + r[1..])[1..] == r[1..];
  }

  lemma {:induction false} PiecesWhole(s: string, sep: char, pending: bool)
    requires sep != '\\'
    ensures Whole(Pieces(s, sep, pending), sep, pending)
  {
    if s != "" {
      if !pending && s[0] == sep {
        PiecesWhole(s[1..], sep, false);
        assert Pieces(s, sep, pending)[1..] == Pieces(s[1..], sep, false);
      } else {
        PiecesWhole(s[1..], sep, !pending && s[0] == '\\');
        WholeLonger(s[0], Pieces(s[1..], sep, !pending && s[0] == '\\'), sep, pending);
      }
    }
  }

  lemma {:induction false} WholeEach(r: seq<string>, sep: char)
    requires Whole(r, sep, false)
    ensures Unsplit(r[|r| - 1], sep, false) && forall i :: 0 <= i < |r| - 1 ==> Solid(r[i], sep, false)
  {
    if |r| > 1 {
      WholeEach(r[1..], sep);
      forall i | 0 <= i < |r| - 1 ensures Solid(r[i], sep, false) {
        assert i > 0 ==> r[i] == r[1..][i - 1];
      }
    }
  }

  /** The pieces of any text, joined, are the text, and none of them can be split further: so the
      split points are exactly the separators that no backslash protects. */
  lemma PiecesExact(s: string, sep: char)
    requires sep != '\\' && s != ""
    ensures var r := Split(s, sep);
            && Join(r, sep) == s && r != [] && Unsplit(r[|r| - 1], sep, false)
            && forall i :: 0 <= i < |r| - 1 ==> Solid(r[i], sep, false)
  {
    PiecesJoin(s, sep, false);
    PiecesWhole(s, sep, false);
    WholeEach(Pieces(s, sep, false), sep);
  }

  lemma {:induction false} PiecesOfUnsplit(s: string, sep: char, pending: bool)
    requires Unsplit(s, sep, pending) && sep != '\\'
    ensures Pieces(s, sep, pending) == [s]
  {
    if s != "" {
      PiecesOfUnsplit(s[1..], sep, !pending && s[0] == '\\');
      assert [s[0]] + s[1..] == s;
    }
  }

  lemma {:induction false} JoinNonEmpty(parts: seq<string>, sep: char)
    requires parts != [] && parts[0] != ""
    ensures Join(parts, sep) != ""
  {
  }
}
