/** What travels over the wire and what sits in a column: entity kinds, field names, JSON
    field values, typed column values, and the decoders between the two. */
module Wire {
  datatype Option<+T> = None | Some(value: T)

  /** The tables this model covers.  `Stock` rows are append-only; the others merge by field. */
  datatype Kind = Item | Identification | CustomField | Location | Label | Stock

  /** Field names.  `Entity` is the pseudo-field "_entity" of a whole-row conflict, `Unknown`
      any name outside the closed set. */
  datatype Field =
    | ItemId | Name | Description | LocationId | Quantity
    | IdKind | IdValue
    | FieldDefId | FieldType | TextValue | NumberValue | BoolValue | DateValue
    | ParentId | Color
    | Delta | Reason | Note | ResultingQuantity
    | Entity | ShortCode | Unknown(name: string)

  /** A JSON value.  `JInt` is a number literal without fraction or exponent. */
  datatype Json = JNull | JString(s: string) | JInt(n: int) | JReal(x: real) | JBool(b: bool) | JComposite

  datatype Val =
    | Str(s: string) | Int(n: int)
    | NullStr(os: Option<string>) | NullReal(ox: Option<real>) | NullBool(ob: Option<bool>)

  datatype ColumnType = TString | TInt64 | TNullString | TNullReal | TNullBool

  const INT64_MIN := -0x8000_0000_0000_0000
  const INT64_MAX := 0x7fff_ffff_ffff_ffff

  predicate IsInt64(n: int) { INT64_MIN <= n <= INT64_MAX }

  /** int64 addition, wrapping around in two's complement. */
  function Add64(a: int, b: int): (r: int)
    requires IsInt64(a) && IsInt64(b)
    ensures IsInt64(r) && (IsInt64(a + b) ==> r == a + b)
  {
    if a + b > INT64_MAX then a + b - 0x1_0000_0000_0000_0000
    else if a + b < INT64_MIN then a + b + 0x1_0000_0000_0000_0000
    else a + b
  }

  /** The stored columns of a table, in the order the source compares them. */
  function Fields(k: Kind): seq<Field> {
    match k
    case Item => [Name, Description, LocationId, Quantity]
    case Identification => [IdKind, IdValue]
    case CustomField => [FieldDefId, Name, FieldType, TextValue, NumberValue, BoolValue, DateValue]
    case Location => [Name, ParentId]
    case Label => [Name, Color]
    case Stock => [Delta, Reason, Note, ResultingQuantity]
  }

  /** The names a mutation may carry, in the byte order `sort.Strings` gives them. */
  function Names(k: Kind): seq<Field> {
    match k
    case Item => [Description, LocationId, Name, Quantity]
    case Identification => [ItemId, IdKind, IdValue]
    case CustomField => [BoolValue, DateValue, FieldDefId, FieldType, ItemId, Name, NumberValue, TextValue]
    case Location => [Name, ParentId]
    case Label => [Color, Name]
    case Stock => [Delta, ItemId, Note, Reason]
  }

  /** Rows that hang off an item and must name it in `item_id`. */
  predicate Satellite(k: Kind) { k.Identification? || k.CustomField? || k.Stock? }

  /** The members of the custom-field value union, which merge as one. */
  const VALUE_UNION: set<Field> := {FieldType, TextValue, NumberValue, BoolValue, DateValue}

  function TypeOf(f: Field): ColumnType {
    match f
    case Quantity => TInt64
    case Delta => TInt64
    case ResultingQuantity => TInt64
    case TextValue => TNullString
    case DateValue => TNullString
    case NumberValue => TNullReal
    case BoolValue => TNullBool
    case _ => TString
  }

  predicate Typed(t: ColumnType, v: Val) {
    match t
    case TString => v.Str?
    case TInt64 => v.Int? && IsInt64(v.n)
    case TNullString => v.NullStr?
    case TNullReal => v.NullReal?
    case TNullBool => v.NullBool?
  }

  /** `json.Unmarshal` into the column's Go type.  Decoding `null` into a plain string or
      int64 succeeds and leaves the zero value. */
  function Decode(t: ColumnType, j: Json): (r: Option<Val>)
    ensures r.Some? ==> Typed(t, r.value)
  {
    match (t, j)
    case (TString, JString(s)) => Some(Str(s))
    case (TString, JNull) => Some(Str(""))
    case (TInt64, JInt(n)) => if IsInt64(n) then Some(Int(n)) else None
    case (TInt64, JNull) => Some(Int(0))
    case (TNullString, JString(s)) => Some(NullStr(Some(s)))
    case (TNullString, JNull) => Some(NullStr(None))
    case (TNullReal, JInt(n)) => Some(NullReal(Some(n as real)))
    case (TNullReal, JReal(x)) => Some(NullReal(Some(x)))
    case (TNullReal, JNull) => Some(NullReal(None))
    case (TNullBool, JBool(b)) => Some(NullBool(Some(b)))
    case (TNullBool, JNull) => Some(NullBool(None))
    case _ => None
  }

  /** The value of a column whose field a creating mutation leaves out. */
  function Zero(t: ColumnType): Val {
    match t
    case TString => Str("")
    case TInt64 => Int(0)
    case TNullString => NullStr(None)
    case TNullReal => NullReal(None)
    case TNullBool => NullBool(None)
  }

  /** `json.Marshal` of a column value, as kept in a conflict's server snapshot. */
  function Snapshot(v: Val): Json {
    match v
    case Str(s) => JString(s)
    case Int(n) => JInt(n)
    case NullStr(Some(s)) => JString(s)
    case NullReal(Some(x)) => JReal(x)
    case NullBool(Some(b)) => JBool(b)
    case _ => JNull
  }

  /** A snapshot loses nothing: decoding it at the column's type gives the server value back. */
  lemma SnapshotDecodes(t: ColumnType, v: Val)
    requires Typed(t, v)
    ensures Decode(t, Snapshot(v)) == Some(v)
  {
  }

  /** The elements of `fs` that are in `s`, in the order of `fs`. */
  function Keep(fs: seq<Field>, s: set<Field>): seq<Field> {
    if fs == [] then []
    else Keep(fs[..|fs| - 1], s) + if fs[|fs| - 1] in s then [fs[|fs| - 1]] else []
  }

  lemma {:induction false} KeepMembers(fs: seq<Field>, s: set<Field>)
    ensures forall f :: f in Keep(fs, s) <==> f in fs && f in s
    ensures |Keep(fs, s)| <= |fs|
  {
    if fs != [] {
      KeepMembers(fs[..|fs| - 1], s);
      assert fs == fs[..|fs| - 1] + [fs[|fs| - 1]];
    }
  }

  lemma {:induction false} KeepNone(fs: seq<Field>)
    ensures Keep(fs, {}) == []
  {
    if fs != [] {
      KeepNone(fs[..|fs| - 1]);
    }
  }
}
