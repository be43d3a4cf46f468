/** The cells of an export that hold a list or a typed value, and what the import reads back. */
module Cells {
  import opened Wire
  import opened Sequences
  import opened Escape
  import opened Numerals

  datatype Ident = Ident(kind: string, value: string)
  datatype FileRef = FileRef(category: string, filename: string, sha: string)

  const KINDS: set<string> := {"serial", "model", "asset_tag", "barcode", "other"}
  const CATEGORIES: set<string> := {"image", "manual", "warranty", "receipt", "general"}

  // ----- Printing -----

  function EscapeAll(values: seq<string>): seq<string> {
    seq(|values|, i requires 0 <= i < |values| => Escaped(values[i], SUB_VALUE))
  }

  function LabelsCell(names: seq<string>): string { Join(EscapeAll(names), '|') }

  function IdentText(id: Ident): string { Escaped(id.kind, SUB_VALUE) + ":" + Escaped(id.value, SUB_VALUE) }

  function IdentsCell(ids: seq<Ident>): string {
    Join(seq(|ids|, i requires 0 <= i < |ids| => IdentText(ids[i])), '|')
  }

  function FileText(a: FileRef): string {
    Escaped(a.category, SUB_VALUE) + ":" + Escaped(a.filename, SUB_VALUE) + ":" + Escaped(a.sha, SUB_VALUE)
  }

  function FilesCell(files: seq<FileRef>): string {
    Join(seq(|files|, i requires 0 <= i < |files| => FileText(files[i])), '|')
  }

  // ----- Parsing: the accepted entries and the number of rejected ones -----

  datatype Parsed<T> = Parsed(values: seq<T>, errors: nat)

  /** Rejects empty names. */
  function LabelEntry(piece: string): Parsed<string> {
    var name := Unescaped(piece, false);
    if name == "" then Parsed([], 1) else Parsed([name], 0)
  }

  /** Wants kind:value with a known kind and a value; both faults can be reported at once. */
  function IdentEntry(piece: string): Parsed<Ident> {
    var parts := Split(piece, ':');
    if |parts| != 2 then Parsed([], 1)
    else
      var id := Ident(Unescaped(parts[0], false), Unescaped(parts[1], false));
      var errors := (if id.kind in KINDS then 0 else 1) + (if id.value == "" then 1 else 0);
      if errors == 0 then Parsed([id], 0) else Parsed([], errors)
  }

  function FileEntry(piece: string): Parsed<FileRef> {
    var parts := Split(piece, ':');
    if |parts| != 3 then Parsed([], 1)
    else
      var a := FileRef(Unescaped(parts[0], false), Unescaped(parts[1], false), Unescaped(parts[2], false));
      var errors := (if a.category in CATEGORIES then 0 else 1) + (if a.filename == "" then 1 else 0)
                    + (if a.sha == "" then 1 else 0);
      if errors == 0 then Parsed([a], 0) else Parsed([], errors)
  }

  /** Entry by entry, in order. */
  function Collect<T>(pieces: seq<string>, entry: string -> Parsed<T>): Parsed<T> {
    if pieces == [] then Parsed([], 0)
    else
      var n := |pieces| - 1;
      var before, last := Collect(pieces[..n], entry), entry(pieces[n]);
      Parsed(before.values + last.values, before.errors + last.errors)
  }

  method ParseLabels(cell: string) returns (r: Parsed<string>)
    ensures r == Collect(Split(cell, '|'), LabelEntry)
  {
    var raw := SplitEscaped(cell, '|');
    var names, errors := [], 0;
    for i := 0 to |raw|
      invariant Parsed(names, errors) == Collect(raw[..i], LabelEntry)
    {
      assert raw[..i + 1][..i] == raw[..i];
      var name := UnescapeSubValue(raw[i]);
      if name == "" {
        errors := errors + 1;
      } else {
        names := names + [name];
      }
    }
    assert raw[..|raw|] == raw;
    return Parsed(names, errors);
  }

  method ParseIdentifications(cell: string) returns (r: Parsed<Ident>)
    ensures r == Collect(Split(cell, '|'), IdentEntry)
  {
    var raw := SplitEscaped(cell, '|');
    var out, errors := [], 0;
    for i := 0 to |raw|
      invariant Parsed(out, errors) == Collect(raw[..i], IdentEntry)
    {
      assert raw[..i + 1][..i] == raw[..i];
      var parts := SplitEscaped(raw[i], ':');
      if |parts| != 2 {
        errors := errors + 1;
      } else {
        var kind := UnescapeSubValue(parts[0]);
        var value := UnescapeSubValue(parts[1]);
        var valid := true;
        if kind !in KINDS {
          errors := errors + 1;
          valid := false;
        }
        if value == "" {
          errors := errors + 1;
          valid := false;
        }
        if valid {
          out := out + [Ident(kind, value)];
        }
      }
    }
    assert raw[..|raw|] == raw;
    return Parsed(out, errors);
  }

  method ParseAttachments(cell: string) returns (r: Parsed<FileRef>)
    ensures r == Collect(Split(cell, '|'), FileEntry)
  {
    var raw := SplitEscaped(cell, '|');
    var out: seq<FileRef>, errors: nat := [], 0;
    for i := 0 to |raw|
      invariant Parsed(out, errors) == Collect(raw[..i], FileEntry)
    {
      assert raw[..i + 1][..i] == raw[..i];
      var entry := ParseAttachment(raw[i]);
      out := out + entry.values;
      errors := errors + entry.errors;
    }
    assert raw[..|raw|] == raw;
    return Parsed(out, errors);
  }

  /** The body of the loop: every fault is reported. */
  method ParseAttachment(piece: string) returns (r: Parsed<FileRef>)
    ensures r == FileEntry(piece)
  {
    var parts := SplitEscaped(piece, ':');
    if |parts| != 3 {
      return Parsed([], 1);
    }
    var category := UnescapeSubValue(parts[0]);
    var filename := UnescapeSubValue(parts[1]);
    var sha := UnescapeSubValue(parts[2]);
    var errors := 0;
    if category !in CATEGORIES {
      errors := errors + 1;
    }
    if filename == "" {
      errors := errors + 1;
    }
    if sha == "" {
      errors := errors + 1;
    }
    return Parsed(if errors == 0 then [FileRef(category, filename, sha)] else [], errors);
  }

  // ----- The nested codec -----

  /** If every entry parses back, so does the list. */
  lemma {:induction false} CollectAll<T>(pieces: seq<string>, values: seq<T>, entry: string -> Parsed<T>)
    requires |pieces| == |values|
    requires forall i :: 0 <= i < |pieces| ==> entry(pieces[i]) == Parsed([values[i]], 0)
    ensures Collect(pieces, entry) == Parsed(values, 0)
  {
    if pieces != [] {
      var n := |pieces| - 1;
      CollectAll(pieces[..n], values[..n], entry);
      assert values == values[..n] + [values[n]];
    }
  }

  /** Escaped text with further ':' separators in it has no '|' to split at. */
  lemma SolidPair(a: string, b: string)
    requires Solid(a, '|', false) && Solid(b, '|', false)
    ensures Solid(a + ":" + b, '|', false)
  {
    assert Solid(":", '|', false) by { assert ":"[1..] == ""; }
    SolidAppend(a, ":", '|', false);
    SolidAppend(a + ":", b, '|', false);
  }

  lemma LabelsRoundTrip(names: seq<string>)
    requires forall i :: 0 <= i < |names| ==> names[i] != ""
    ensures Collect(Split(LabelsCell(names), '|'), LabelEntry) == Parsed(names, 0)
  {
    var parts := EscapeAll(names);
    if names != [] {
      forall i | 0 <= i < |parts| ensures Solid(parts[i], '|', false) && LabelEntry(parts[i]) == Parsed([names[i]], 0) {
        EscapedSolid(names[i], SUB_VALUE, '|');
        EscapeRoundTrip(names[i], SUB_VALUE);
      }
      JoinNonEmpty(parts, '|');
      SplitJoin(parts, '|');
      CollectAll(parts, names, LabelEntry);
    }
  }

  /** One printed identification splits at its one separator and unescapes to its two values. */
  lemma IdentTextRoundTrip(id: Ident)
    ensures var parts := Split(IdentText(id), ':');
            |parts| == 2 && Unescaped(parts[0], false) == id.kind && Unescaped(parts[1], false) == id.value
    ensures Solid(IdentText(id), '|', false) && IdentText(id) != ""
  {
    var a, b := Escaped(id.kind, SUB_VALUE), Escaped(id.value, SUB_VALUE);
    EscapedSolid(id.kind, SUB_VALUE, ':');
    EscapedSolid(id.value, SUB_VALUE, ':');
    PiecesAfterSolid(a, b, ':', false);
    PiecesOfSolid(b, ':', false);
    assert Split(IdentText(id), ':') == [a, b];
    EscapeRoundTrip(id.kind, SUB_VALUE);
    EscapeRoundTrip(id.value, SUB_VALUE);
    EscapedSolid(id.kind, SUB_VALUE, '|');
    EscapedSolid(id.value, SUB_VALUE, '|');
    SolidPair(a, b);
  }

  /** Any list of pairs, printed and split at both levels, comes back entry by entry. */
  lemma IdentsSplitBack(ids: seq<Ident>)
    ensures Split(IdentsCell(ids), '|') == seq(|ids|, i requires 0 <= i < |ids| => IdentText(ids[i]))
  {
    var parts := seq(|ids|, i requires 0 <= i < |ids| => IdentText(ids[i]));
    if ids != [] {
      forall i | 0 <= i < |parts| ensures Solid(parts[i], '|', false) && parts[i] != "" {
        IdentTextRoundTrip(ids[i]);
      }
      JoinNonEmpty(parts, '|');
      SplitJoin(parts, '|');
    }
  }

  lemma IdentsRoundTrip(ids: seq<Ident>)
    requires forall i :: 0 <= i < |ids| ==> ids[i].kind in KINDS && ids[i].value != ""
    ensures Collect(Split(IdentsCell(ids), '|'), IdentEntry) == Parsed(ids, 0)
  {
    IdentsSplitBack(ids);
    var parts := Split(IdentsCell(ids), '|');
    forall i | 0 <= i < |parts| ensures IdentEntry(parts[i]) == Parsed([ids[i]], 0) {
      IdentTextRoundTrip(ids[i]);
    }
    CollectAll(parts, ids, IdentEntry);
  }

  lemma FileTextRoundTrip(a: FileRef)
    ensures var parts := Split(FileText(a), ':');
            && |parts| == 3 && Unescaped(parts[0], false) == a.category
            && Unescaped(parts[1], false) == a.filename && Unescaped(parts[2], false) == a.sha
    ensures Solid(FileText(a), '|', false) && FileText(a) != ""
  {
    var x, y, z := Escaped(a.category, SUB_VALUE), Escaped(a.filename, SUB_VALUE), Escaped(a.sha, SUB_VALUE);
    EscapedSolid(a.category, SUB_VALUE, ':');
    EscapedSolid(a.filename, SUB_VALUE, ':');
    EscapedSolid(a.sha, SUB_VALUE, ':');
    assert FileText(a) == x + [':'] + (y + [':'] + z);
    PiecesAfterSolid(x, y + [':'] + z, ':', false);
    PiecesAfterSolid(y, z, ':', false);
    PiecesOfSolid(z, ':', false);
    assert Split(FileText(a), ':') == [x, y, z];
    EscapeRoundTrip(a.category, SUB_VALUE);
    EscapeRoundTrip(a.filename, SUB_VALUE);
    EscapeRoundTrip(a.sha, SUB_VALUE);
    EscapedSolid(a.category, SUB_VALUE, '|');
    EscapedSolid(a.filename, SUB_VALUE, '|');
    EscapedSolid(a.sha, SUB_VALUE, '|');
    SolidPair(x, y);
    SolidPair(x + ":" + y, z);
  }

  lemma FilesSplitBack(files: seq<FileRef>)
    ensures Split(FilesCell(files), '|') == seq(|files|, i requires 0 <= i < |files| => FileText(files[i]))
  {
    var parts := seq(|files|, i requires 0 <= i < |files| => FileText(files[i]));
    if files != [] {
      forall i | 0 <= i < |parts| ensures Solid(parts[i], '|', false) && parts[i] != "" {
        FileTextRoundTrip(files[i]);
      }
      JoinNonEmpty(parts, '|');
      SplitJoin(parts, '|');
    }
  }

  lemma FilesRoundTrip(files: seq<FileRef>)
    requires forall i :: 0 <= i < |files| ==>
               files[i].category in CATEGORIES && files[i].filename != "" && files[i].sha != ""
    ensures Collect(Split(FilesCell(files), '|'), FileEntry) == Parsed(files, 0)
  {
    FilesSplitBack(files);
    var parts := Split(FilesCell(files), '|');
    forall i | 0 <= i < |parts| ensures FileEntry(parts[i]) == Parsed([files[i]], 0) {
      FileTextRoundTrip(files[i]);
    }
    CollectAll(parts, files, FileEntry);
  }

  // ----- Dates and booleans -----

  function DaysIn(year: nat, month: nat): nat {
    if month in {4, 6, 9, 11} then 30
    else if month != 2 then 31
    else if year % 4 == 0 && (year % 100 != 0 || year % 400 == 0) then 29 else 28
  }

  /** A zero-padded calendar day YYYY-MM-DD. */
  predicate IsDay(s: string) {
    && |s| == 10 && s[4] == '-' && s[7] == '-'
    && match (ParseNat(s[..4]), ParseNat(s[5..7]), ParseNat(s[8..]))
       case (Some(y), Some(m), Some(d)) => 1 <= m <= 12 && 1 <= d <= DaysIn(y, m)
       case _ => false
  }

  /** Leap years up to and including a year of the Gregorian calendar. */
  function LeapsThrough(year: int): int { year / 4 - year / 100 + year / 400 }

  /** Days before the month, counted from March. */
  function DaysBefore(k: nat): nat { (153 * k + 2) / 5 }

  /** Months are as long as the count of days says, and February has a day more in a leap year. */
  lemma DaysExact(year: nat, month: nat)
    requires 1 <= month <= 12
    ensures var k := (month + 9) % 12;
            DaysIn(year, month) == if month == 2 then 28 + LeapsThrough(year) - LeapsThrough(year - 1)
                                   else DaysBefore(k + 1) - DaysBefore(k)
  {
    if month == 1 {} else if month == 2 { LeapExact(year); } else if month == 3 {} else if month == 4 {}
    else if month == 5 {} else if month == 6 {} else if month == 7 {} else if month == 8 {} else if month == 9 {}
    else if month == 10 {} else if month == 11 {} else {}
  }

  lemma LeapExact(year: nat)
    ensures LeapsThrough(year) - LeapsThrough(year - 1) ==
            if year % 4 == 0 && (year % 100 != 0 || year % 400 == 0) then 1 else 0
  {
    Steps(year, 4);
    Steps(year, 100);
    Steps(year, 400);
    Multiples(year);
  }

  lemma Steps(n: nat, d: nat)
    requires d == 4 || d == 100 || d == 400
    ensures n / d - (n - 1) / d == if n % d == 0 then 1 else 0
  {
  }

  lemma Multiples(n: nat)
    ensures n % 100 == 0 ==> n % 4 == 0
    ensures n % 400 == 0 ==> n % 100 == 0
  {
    if n % 100 == 0 {
      assert n == 4 * (25 * (n / 100));
    }
    if n % 400 == 0 {
      assert n == 100 * (4 * (n / 400));
    }
  }

  /** Four, two and two digits between dashes that name a day of the calendar. */
  predicate SpellsDay(s: string, y: string, m: string, d: string) {
    && s == y + "-" + m + "-" + d && |y| == 4 && |m| == 2 && |d| == 2
    && AllDigits(y) && AllDigits(m) && AllDigits(d)
    && 1 <= PlaceValue(m) <= 12 && 1 <= PlaceValue(d) <= DaysIn(PlaceValue(y), PlaceValue(m))
  }

  lemma DaySpelled(s: string)
    requires IsDay(s)
    ensures SpellsDay(s, s[..4], s[5..7], s[8..])
  {
    ParseNatExact(s[..4]);
    ParseNatExact(s[5..7]);
    ParseNatExact(s[8..]);
    assert s == s[..4] + [s[4]] + s[5..7] + [s[7]] + s[8..];
  }

  lemma SpelledDay(s: string, y: string, m: string, d: string)
    requires SpellsDay(s, y, m, d)
    ensures IsDay(s)
  {
    ParseNatExact(y);
    ParseNatExact(m);
    ParseNatExact(d);
    assert s[..4] == y && s[5..7] == m && s[8..] == d && s[4] == '-' && s[7] == '-';
  }

  lemma DayExact(s: string)
    ensures IsDay(s) <==> exists y, m, d :: SpellsDay(s, y, m, d)
  {
    if IsDay(s) {
      DaySpelled(s);
    }
    if y, m, d :| SpellsDay(s, y, m, d) {
      SpelledDay(s, y, m, d);
    }
  }

  /** parseISODate accepts an empty cell as well. */
  predicate DateAccepted(s: string) { s == "" || IsDay(s) }

  function FormatBool(b: bool): string { if b then "true" else "false" }

  function Lower(c: char): char { if 'A' <= c <= 'Z' then 'a' + (c - 'A') else c }

  function LowerAll(s: string): string { seq(|s|, i requires 0 <= i < |s| => Lower(s[i])) }

  function ParseBool(s: string): Option<bool> {
    if LowerAll(s) == "true" then Some(true)
    else if LowerAll(s) == "false" then Some(false)
    else None
  }

  lemma BoolRoundTrip(b: bool)
    ensures ParseBool(FormatBool(b)) == Some(b) && FormatBool(b) != ""
  {
    assert LowerAll("true") == "true" && LowerAll("false") == "false";
  }
}
