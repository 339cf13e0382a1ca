/** The catalog record codec of crates/catalog/src/codec.rs. */
module Codec {
  import opened Options
  import opened Utf8
  import opened BufferPools
  import opened HeapPage
  import opened Sql

  datatype Metadata = Metadata(name: string, columns: seq<Column>, head: PageId, constraints: seq<Constraint>)

  type Bytes = seq<byte>

  const LIMIT32: nat := 0x1_0000_0000

  /** "CHILICAT", version 1, record kind 1. */
  function TABLE(): (b: Bytes)
    ensures |b| == 10
  {
    [0x43, 0x48, 0x49, 0x4C, 0x49, 0x43, 0x41, 0x54, 1, 1]
  }

  /** "CHILICAT", version 1, record kind 0. */
  function MANIFEST(): (b: Bytes)
    ensures |b| == 10
  {
    [0x43, 0x48, 0x49, 0x4C, 0x49, 0x43, 0x41, 0x54, 1, 0]
  }

  // ---------- validation ----------

  predicate ColumnsOk(columns: seq<Column>) {
    && (forall i | 0 <= i < |columns| :: columns[i].name != "" && !columns[i].dataType.NullType?)
    && forall i, j | 0 <= i < j < |columns| :: columns[i].name != columns[j].name
  }

  /** A constraint names existing columns, each once, and a primary key only non-null ones. */
  predicate ConstraintOk(c: Constraint, columns: seq<Column>) {
    && c.columns != []
    && (forall i | 0 <= i < |c.columns| ::
         c.columns[i] < |columns| && (c.PrimaryKey? ==> !columns[c.columns[i]].nullable))
    && forall i, j | 0 <= i < j < |c.columns| :: c.columns[i] != c.columns[j]
  }

  predicate ConstraintsOk(cs: seq<Constraint>, columns: seq<Column>) {
    && (forall i | 0 <= i < |cs| :: ConstraintOk(cs[i], columns))
    && forall i, j | 0 <= i < j < |cs| :: !(cs[i].PrimaryKey? && cs[j].PrimaryKey?)
  }

  predicate ValidMetadata(m: Metadata) {
    m.name != "" && m.columns != [] && ColumnsOk(m.columns) && ConstraintsOk(m.constraints, m.columns)
  }

  method CheckColumns(columns: seq<Column>) returns (ok: bool)
    ensures ok <==> ColumnsOk(columns)
  {
    var names: set<string> := {};
    for i := 0 to |columns|
      invariant forall k | 0 <= k < i :: columns[k].name != "" && !columns[k].dataType.NullType?
      invariant forall k, l | 0 <= k < l < i :: columns[k].name != columns[l].name
      invariant forall x :: x in names <==> exists k | 0 <= k < i :: columns[k].name == x
    {
      var c := columns[i];
      if c.name == "" { return false; }
      if c.name in names {
        ghost var k :| 0 <= k < i && columns[k].name == c.name;
        return false;
      }
      names := names + {c.name};
      if c.dataType.NullType? { return false; }
    }
    return true;
  }

  method CheckConstraint(c: Constraint, columns: seq<Column>) returns (ok: bool)
    ensures ok <==> ConstraintOk(c, columns)
  {
    if c.columns == [] { return false; }
    var seen: set<nat> := {};
    for i := 0 to |c.columns|
      invariant forall k | 0 <= k < i :: c.columns[k] < |columns| && (c.PrimaryKey? ==> !columns[c.columns[k]].nullable)
      invariant forall k, l | 0 <= k < l < i :: c.columns[k] != c.columns[l]
      invariant forall x :: x in seen <==> exists k | 0 <= k < i :: c.columns[k] == x
    {
      var index := c.columns[i];
      if index >= |columns| { return false; }
      if index in seen {
        ghost var k :| 0 <= k < i && c.columns[k] == index;
        return false;
      }
      seen := seen + {index};
      if c.PrimaryKey? && columns[index].nullable { return false; }
    }
    return true;
  }

  /** `validate`. */
  method Validate(m: Metadata) returns (ok: bool)
    ensures ok <==> ValidMetadata(m)
  {
    if m.name == "" || m.columns == [] { return false; }
    var columns := CheckColumns(m.columns);
    if !columns { return false; }
    var primary := false;
    for i := 0 to |m.constraints|
      invariant ConstraintsOk(m.constraints[..i], m.columns)
      invariant primary <==> exists k | 0 <= k < i :: m.constraints[k].PrimaryKey?
    {
      var c := m.constraints[i];
      if c.PrimaryKey? && primary {
        ghost var k :| 0 <= k < i && m.constraints[k].PrimaryKey?;
        return false;
      }
      primary := primary || c.PrimaryKey?;
      var ok' := CheckConstraint(c, m.columns);
      if !ok' { return false; }
      ConstraintsGrow(m.constraints, m.columns, i);
    }
    assert m.constraints[..|m.constraints|] == m.constraints;
    return true;
  }

  lemma ConstraintsGrow(cs: seq<Constraint>, columns: seq<Column>, i: nat)
    requires i < |cs| && ConstraintsOk(cs[..i], columns) && ConstraintOk(cs[i], columns)
    requires cs[i].PrimaryKey? ==> forall k | 0 <= k < i :: !cs[k].PrimaryKey?
    ensures ConstraintsOk(cs[..i + 1], columns)
  {
    hide ConstraintOk;
    var q := cs[..i + 1];
    forall k | 0 <= k < |q| ensures ConstraintOk(q[k], columns) {
      if k < i { assert ConstraintOk(cs[..i][k], columns); }
    }
    forall k, l | 0 <= k < l < |q| ensures !(q[k].PrimaryKey? && q[l].PrimaryKey?) {
      if l < i { assert !(cs[..i][k].PrimaryKey? && cs[..i][l].PrimaryKey?); }
    }
  }

  // ---------- the record format ----------

  function TypeTag(t: LogicalType): (tag: byte)
    requires !t.NullType?
  {
    match t
    case Boolean => 1
    case Int32 => 2
    case Int64 => 3
    case Uint32 => 4
    case Float32 => 5
    case Float64 => 6
    case Text => 7
    case Varchar(None) => 8
    case Varchar(Some(_)) => 9
  }

  function Text32(s: string): (b: Bytes)
    requires |Encode(s)| < LIMIT32
  {
    Le32(|Encode(s)|) + Encode(s)
  }

  predicate ColumnSmall(c: Column) {
    |Encode(c.name)| < LIMIT32 && !c.dataType.NullType?
  }

  function ColumnBytes(c: Column): (b: Bytes)
    requires ColumnSmall(c)
    ensures |b| >= 6
  {
    Text32(c.name) + [if c.nullable then 1 else 0, TypeTag(c.dataType)]
    + (match c.dataType case Varchar(Some(n)) => Le32(n) case _ => [])
  }

  predicate ConstraintSmall(c: Constraint) {
    |c.columns| < LIMIT32 && forall i | 0 <= i < |c.columns| :: c.columns[i] < LIMIT32
  }

  function NumberBytes(n: nat): (b: Bytes)
    ensures |b| == 4
  {
    if n < LIMIT32 then Le32(n) else Le32(0)
  }

  function ConstraintBytes(c: Constraint): (b: Bytes)
    requires ConstraintSmall(c)
    ensures |b| >= 5
  {
    [if c.PrimaryKey? then 1 else 2] + Le32(|c.columns|) + Many(NumberBytes, c.columns)
  }

  /** A list of encoded items, one after the other. */
  function Many<T>(enc: T -> Bytes, xs: seq<T>): (b: Bytes) {
    if xs == [] then [] else enc(xs[0]) + Many(enc, xs[1..])
  }

  function ColumnOrNothing(c: Column): (b: Bytes) { if ColumnSmall(c) then ColumnBytes(c) else [] }

  function ConstraintOrNothing(c: Constraint): (b: Bytes) { if ConstraintSmall(c) then ConstraintBytes(c) else [] }

  /** Every count and index fits 32 bits. */
  predicate Small(m: Metadata) {
    && |Encode(m.name)| < LIMIT32 && |m.columns| < LIMIT32 && |m.constraints| < LIMIT32
    && (forall i | 0 <= i < |m.columns| :: ColumnSmall(m.columns[i]))
    && forall i | 0 <= i < |m.constraints| :: ConstraintSmall(m.constraints[i])
  }

  function RecordBytes(m: Metadata): (b: Bytes)
    requires Small(m)
  {
    TABLE() + Le32(m.head) + Text32(m.name)
    + Le32(|m.columns|) + Many(ColumnOrNothing, m.columns)
    + Le32(|m.constraints|) + Many(ConstraintOrNothing, m.constraints)
  }

  // ---------- reading ----------

  type Read<T> = Option<(T, Bytes)>

  function ReadNumber(b: Bytes): (r: Read<nat>)
    ensures r.Some? ==> r.value.0 < LIMIT32
  {
    if |b| < 4 then None else Some((FromLe32(b[..4]), b[4..]))
  }

  /** A count never exceeds the bytes that are left. */
  function ReadCount(b: Bytes): (r: Read<nat>)
    ensures r.Some? ==> r.value.0 <= |r.value.1| && r.value.0 < LIMIT32
  {
    match ReadNumber(b)
    case None => None
    case Some((n, rest)) => if n > |rest| then None else Some((n, rest))
  }

  function ReadByte(b: Bytes): (r: Read<byte>) {
    if b == [] then None else Some((b[0], b[1..]))
  }

  function ReadText(b: Bytes): (r: Read<string>) {
    match ReadCount(b)
    case None => None
    case Some((n, rest)) =>
      match Decode(rest[..n])
      case None => None
      case Some(s) => Some((s, rest[n..]))
  }

  function TypeOfTag(tag: byte): (t: Option<LogicalType>) {
    if tag == 1 then Some(Boolean)
    else if tag == 2 then Some(Int32)
    else if tag == 3 then Some(Int64)
    else if tag == 4 then Some(Uint32)
    else if tag == 5 then Some(Float32)
    else if tag == 6 then Some(Float64)
    else if tag == 7 then Some(Text)
    else if tag == 8 then Some(Varchar(None))
    else None
  }

  function ReadType(b: Bytes): (r: Read<LogicalType>) {
    match ReadByte(b)
    case None => None
    case Some((tag, rest)) =>
      if tag == 9 then
        match ReadNumber(rest)
        case None => None
        case Some((n, rest')) => if n == 0 then None else Some((Varchar(Some(n)), rest'))
      else
        match TypeOfTag(tag)
        case None => None
        case Some(t) => Some((t, rest))
  }

  function ReadColumn(b: Bytes): (r: Read<Column>) {
    match ReadText(b)
    case None => None
    case Some((name, b1)) =>
      match ReadByte(b1)
      case None => None
      case Some((flag, b2)) =>
        if flag > 1 then None
        else match ReadType(b2)
          case None => None
          case Some((t, b3)) => Some((Column(name, t, flag == 1), b3))
  }

  function ReadMany<T>(read: Bytes -> Read<T>, b: Bytes, n: nat): (r: Read<seq<T>>)
    decreases n
  {
    if n == 0 then Some(([], b))
    else match read(b)
      case None => None
      case Some((x, b1)) =>
        match ReadMany(read, b1, n - 1)
        case None => None
        case Some((xs, b2)) => Some(([x] + xs, b2))
  }

  function ReadConstraint(b: Bytes): (r: Read<Constraint>) {
    match ReadByte(b)
    case None => None
    case Some((tag, b1)) =>
      match ReadCount(b1)
      case None => None
      case Some((n, b2)) =>
        match ReadMany(ReadNumber, b2, n)
        case None => None
        case Some((columns, b3)) =>
          if tag == 1 then Some((PrimaryKey(columns), b3))
          else if tag == 2 then Some((Unique(columns), b3))
          else None
  }

  function ReadBody(b: Bytes): (r: Read<Metadata>) {
    if |b| < 10 || b[..10] != TABLE() then None
    else match ReadNumber(b[10..])
      case None => None
      case Some((head, b1)) =>
        match ReadText(b1)
        case None => None
        case Some((name, b2)) =>
          match ReadCount(b2)
          case None => None
          case Some((n, b3)) =>
            match ReadMany(ReadColumn, b3, n)
            case None => None
            case Some((columns, b4)) =>
              match ReadCount(b4)
              case None => None
              case Some((k, b5)) =>
                match ReadMany(ReadConstraint, b5, k)
                case None => None
                case Some((constraints, b6)) => Some((Metadata(name, columns, head, constraints), b6))
  }

  /** A record is read to its last byte. */
  function ReadRecord(b: Bytes): (r: Option<Metadata>) {
    match ReadBody(b)
    case Some((m, rest)) => if rest == [] then Some(m) else None
    case None => None
  }

  // ---------- reading back what was written ----------

  lemma NumberBack(n: nat, rest: Bytes)
    requires n < LIMIT32
    ensures ReadNumber(Le32(n) + rest) == Some((n, rest))
  {
    RoundTrip32(n);
    assert (Le32(n) + rest)[..4] == Le32(n);
    assert (Le32(n) + rest)[4..] == rest;
  }

  lemma TextBack(s: string, rest: Bytes)
    requires |Encode(s)| < LIMIT32
    ensures ReadText(Text32(s) + rest) == Some((s, rest))
  {
    hide Encode, Decode, Le32;
    var b := Encode(s);
    assert Text32(s) + rest == Le32(|b|) + (b + rest);
    NumberBack(|b|, b + rest);
    assert (b + rest)[..|b|] == b && (b + rest)[|b|..] == rest;
    DecodeEncode(s);
  }

  lemma TypeBack(t: LogicalType, rest: Bytes)
    requires !t.NullType?
    ensures ReadType([TypeTag(t)] + (match t case Varchar(Some(n)) => Le32(n) case _ => []) + rest) == Some((t, rest))
  {
    hide Le32, ReadNumber;
    var tail := match t case Varchar(Some(n)) => Le32(n) case _ => [];
    var b := [TypeTag(t)] + tail + rest;
    assert b[1..] == tail + rest;
    if t.Varchar? && t.limit.Some? {
      NumberBack(t.limit.value, rest);
    } else {
      assert tail + rest == rest;
    }
  }

  lemma ColumnBack(c: Column, rest: Bytes)
    requires ColumnSmall(c)
    ensures ReadColumn(ColumnBytes(c) + rest) == Some((c, rest))
  {
    hide Text32, ReadText, ReadType, Le32, Encode;
    var flag: byte := if c.nullable then 1 else 0;
    var tail := match c.dataType case Varchar(Some(n)) => Le32(n) case _ => [];
    var b1 := [flag] + ([TypeTag(c.dataType)] + tail + rest);
    assert ColumnBytes(c) + rest == Text32(c.name) + b1;
    TextBack(c.name, b1);
    assert b1[1..] == [TypeTag(c.dataType)] + tail + rest;
    TypeBack(c.dataType, rest);
  }

  /** Lists read back item by item. */
  lemma {:induction false} ManyBack<T(!new)>(enc: T -> Bytes, read: Bytes -> Read<T>, xs: seq<T>, rest: Bytes)
    requires forall i, r | 0 <= i < |xs| :: read(enc(xs[i]) + r) == Some((xs[i], r))
    ensures ReadMany(read, Many(enc, xs) + rest, |xs|) == Some((xs, rest))
  {
    if xs == [] {
      assert Many(enc, xs) + rest == rest;
    } else {
      var tail := Many(enc, xs[1..]) + rest;
      assert Many(enc, xs) + rest == enc(xs[0]) + tail;
      forall i, r | 0 <= i < |xs[1..]| ensures read(enc(xs[1..][i]) + r) == Some((xs[1..][i], r)) {
        assert read(enc(xs[i + 1]) + r) == Some((xs[i + 1], r));
      }
      ManyBack(enc, read, xs[1..], rest);
      assert read(enc(xs[0]) + tail) == Some((xs[0], tail));
      assert [xs[0]] + xs[1..] == xs;
    }
  }

  lemma {:induction false} ManyLength<T>(enc: T -> Bytes, xs: seq<T>)
    requires forall i | 0 <= i < |xs| :: |enc(xs[i])| >= 1
    ensures |Many(enc, xs)| >= |xs|
  {
    if xs != [] { ManyLength(enc, xs[1..]); }
  }

  lemma ConstraintBack(c: Constraint, rest: Bytes)
    requires ConstraintSmall(c)
    ensures ReadConstraint(ConstraintBytes(c) + rest) == Some((c, rest))
  {
    hide Le32, ReadNumber;
    var tag: byte := if c.PrimaryKey? then 1 else 2;
    var body := Many(NumberBytes, c.columns);
    var b1 := Le32(|c.columns|) + (body + rest);
    assert ConstraintBytes(c) + rest == [tag] + b1;
    assert ([tag] + b1)[1..] == b1;
    NumberBack(|c.columns|, body + rest);
    ManyLength(NumberBytes, c.columns);
    forall i, r | 0 <= i < |c.columns| ensures ReadNumber(NumberBytes(c.columns[i]) + r) == Some((c.columns[i], r)) {
      NumberBack(c.columns[i], r);
    }
    ManyBack(NumberBytes, ReadNumber, c.columns, rest);
  }

  lemma CountBack(n: nat, body: Bytes)
    requires n < LIMIT32 && n <= |body|
    ensures ReadCount(Le32(n) + body) == Some((n, body))
  {
    hide Le32, ReadNumber;
    NumberBack(n, body);
  }

  lemma ColumnsBack(cs: seq<Column>, rest: Bytes)
    requires forall i | 0 <= i < |cs| :: ColumnSmall(cs[i])
    ensures ReadMany(ReadColumn, Many(ColumnOrNothing, cs) + rest, |cs|) == Some((cs, rest))
    ensures |Many(ColumnOrNothing, cs)| >= |cs|
  {
    hide ReadColumn, ColumnBytes;
    forall i, r | 0 <= i < |cs| ensures ReadColumn(ColumnOrNothing(cs[i]) + r) == Some((cs[i], r)) {
      ColumnBack(cs[i], r);
    }
    ManyBack(ColumnOrNothing, ReadColumn, cs, rest);
    ManyLength(ColumnOrNothing, cs);
  }

  lemma ConstraintsBack(cs: seq<Constraint>, rest: Bytes)
    requires forall i | 0 <= i < |cs| :: ConstraintSmall(cs[i])
    ensures ReadMany(ReadConstraint, Many(ConstraintOrNothing, cs) + rest, |cs|) == Some((cs, rest))
    ensures |Many(ConstraintOrNothing, cs)| >= |cs|
  {
    hide ReadConstraint, ConstraintBytes, ConstraintSmall;
    forall i, r | 0 <= i < |cs| ensures ReadConstraint(ConstraintOrNothing(cs[i]) + r) == Some((cs[i], r)) {
      ConstraintBack(cs[i], r);
    }
    ManyBack(ConstraintOrNothing, ReadConstraint, cs, rest);
    ManyLength(ConstraintOrNothing, cs);
  }

  /** A written record reads back, and reading stops exactly where the record ends. */
  lemma BodyBack(m: Metadata, rest: Bytes)
    requires Small(m)
    ensures ReadBody(RecordBytes(m) + rest) == Some((m, rest))
  {
    hide Le32, ReadNumber, ReadText, Text32, ReadColumn, ReadConstraint;
    hide Many, ReadMany, ReadCount, Encode, ColumnSmall, ConstraintSmall;
    var cs, ks := Many(ColumnOrNothing, m.columns), Many(ConstraintOrNothing, m.constraints);
    var b5 := ks + rest;
    var b4 := Le32(|m.constraints|) + b5;
    var b3 := cs + b4;
    var b2 := Le32(|m.columns|) + b3;
    var b1 := Text32(m.name) + b2;
    var b0 := Le32(m.head) + b1;
    assert RecordBytes(m) + rest == TABLE() + b0;
    assert (TABLE() + b0)[..10] == TABLE() && (TABLE() + b0)[10..] == b0;
    NumberBack(m.head, b1);
    TextBack(m.name, b2);
    ColumnsBack(m.columns, b4);
    CountBack(|m.columns|, b3);
    ConstraintsBack(m.constraints, rest);
    CountBack(|m.constraints|, b5);
  }

  // ---------- what was read is what was written ----------

  lemma NumberForth(b: Bytes)
    ensures ReadNumber(b).Some? ==> b == Le32(ReadNumber(b).value.0) + ReadNumber(b).value.1
  {
    if |b| >= 4 {
      BytesOf32(b[..4]);
      assert b == b[..4] + b[4..];
    }
  }

  lemma TextForth(b: Bytes)
    requires ReadText(b).Some?
    ensures |Encode(ReadText(b).value.0)| < LIMIT32
    ensures b == Text32(ReadText(b).value.0) + ReadText(b).value.1
  {
    hide Le32, Encode, Decode, ReadNumber;
    NumberForth(b);
    var (n, rest) := ReadCount(b).value;
    EncodeDecode(rest[..n]);
    var s := Decode(rest[..n]).value;
    assert Le32(n) + rest == Le32(n) + rest[..n] + rest[n..];
  }

  lemma TypeForth(b: Bytes)
    requires ReadType(b).Some?
    ensures !ReadType(b).value.0.NullType?
    ensures var (t, rest) := ReadType(b).value;
      b == [TypeTag(t)] + (match t case Varchar(Some(n)) => Le32(n) case _ => []) + rest
  {
    hide Le32, ReadNumber;
    var rest := b[1..];
    assert b == [b[0]] + rest;
    if b[0] == 9 {
      NumberForth(rest);
      var (n, rest') := ReadNumber(rest).value;
      assert [b[0]] + (Le32(n) + rest') == [b[0]] + Le32(n) + rest';
    } else {
      assert [b[0]] + [] + rest == b;
    }
  }

  lemma ColumnForth(b: Bytes)
    requires ReadColumn(b).Some?
    ensures ColumnSmall(ReadColumn(b).value.0)
    ensures b == ColumnBytes(ReadColumn(b).value.0) + ReadColumn(b).value.1
  {
    hide Text32, ReadText, ReadType, Le32, Encode;
    TextForth(b);
    var (name, b1) := ReadText(b).value;
    var b2 := b1[1..];
    TypeForth(b2);
    var (t, b3) := ReadType(b2).value;
    var tail := match t case Varchar(Some(n)) => Le32(n) case _ => [];
    assert b1 == [b1[0]] + b2;
    assert b == Text32(name) + [b1[0], TypeTag(t)] + tail + b3;
  }

  lemma {:induction false} ManyForth<T(!new)>(enc: T -> Bytes, read: Bytes -> Read<T>, ok: T -> bool, b: Bytes, n: nat)
    requires ReadMany(read, b, n).Some?
    requires forall c | read(c).Some? :: ok(read(c).value.0) && c == enc(read(c).value.0) + read(c).value.1
    ensures var (xs, rest) := ReadMany(read, b, n).value;
      |xs| == n && (forall i | 0 <= i < n :: ok(xs[i])) && b == Many(enc, xs) + rest
    decreases n
  {
    if n > 0 {
      var (x, b1) := read(b).value;
      ManyForth(enc, read, ok, b1, n - 1);
      var (xs, rest) := ReadMany(read, b1, n - 1).value;
      assert ([x] + xs)[1..] == xs;
      assert enc(x) + (Many(enc, xs) + rest) == enc(x) + Many(enc, xs) + rest;
    }
  }

  lemma ConstraintForth(b: Bytes)
    requires ReadConstraint(b).Some?
    ensures ConstraintSmall(ReadConstraint(b).value.0)
    ensures b == ConstraintBytes(ReadConstraint(b).value.0) + ReadConstraint(b).value.1
  {
    hide Le32, ReadNumber;
    var b1 := b[1..];
    NumberForth(b1);
    var (n, b2) := ReadCount(b1).value;
    forall c | ReadNumber(c).Some?
      ensures ReadNumber(c).value.0 < LIMIT32 && c == NumberBytes(ReadNumber(c).value.0) + ReadNumber(c).value.1
    {
      NumberForth(c);
    }
    ManyForth(NumberBytes, ReadNumber, (x: nat) => x < LIMIT32, b2, n);
    var (columns, b3) := ReadMany(ReadNumber, b2, n).value;
    assert b == [b[0]] + b1;
    assert b == [b[0]] + Le32(n) + Many(NumberBytes, columns) + b3;
  }

  lemma ColumnsForth(b: Bytes, n: nat)
    requires ReadMany(ReadColumn, b, n).Some?
    ensures var (cs, rest) := ReadMany(ReadColumn, b, n).value;
      |cs| == n && (forall i | 0 <= i < n :: ColumnSmall(cs[i])) && b == Many(ColumnOrNothing, cs) + rest
  {
    hide ReadColumn, ColumnBytes, ColumnSmall;
    forall c | ReadColumn(c).Some?
      ensures ColumnSmall(ReadColumn(c).value.0) && c == ColumnOrNothing(ReadColumn(c).value.0) + ReadColumn(c).value.1
    {
      ColumnForth(c);
    }
    ManyForth(ColumnOrNothing, ReadColumn, ColumnSmall, b, n);
  }

  lemma ConstraintsForth(b: Bytes, n: nat)
    requires ReadMany(ReadConstraint, b, n).Some?
    ensures var (cs, rest) := ReadMany(ReadConstraint, b, n).value;
      |cs| == n && (forall i | 0 <= i < n :: ConstraintSmall(cs[i])) && b == Many(ConstraintOrNothing, cs) + rest
  {
    hide ReadConstraint, ConstraintBytes, ConstraintSmall;
    forall c | ReadConstraint(c).Some?
      ensures ConstraintSmall(ReadConstraint(c).value.0) &&
                c == ConstraintOrNothing(ReadConstraint(c).value.0) + ReadConstraint(c).value.1
    {
      ConstraintForth(c);
    }
    ManyForth(ConstraintOrNothing, ReadConstraint, ConstraintSmall, b, n);
  }

  lemma CountForth(b: Bytes)
    ensures ReadCount(b).Some? ==> b == Le32(ReadCount(b).value.0) + ReadCount(b).value.1
  {
    hide Le32, ReadNumber;
    NumberForth(b);
  }

  /** Bytes that read as a record are that record's encoding: no record has two encodings. */
  lemma BodyForth(b: Bytes)
    requires ReadBody(b).Some?
    ensures Small(ReadBody(b).value.0)
    ensures b == RecordBytes(ReadBody(b).value.0) + ReadBody(b).value.1
  {
    hide Le32, ReadNumber, ReadText, Text32, ReadColumn, ReadConstraint;
    hide Many, ReadMany, ReadCount, Encode, ColumnSmall, ConstraintSmall;
    var b0 := b[10..];
    NumberForth(b0);
    var (head, b1) := ReadNumber(b0).value;
    TextForth(b1);
    var (name, b2) := ReadText(b1).value;
    CountForth(b2);
    var (n, b3) := ReadCount(b2).value;
    ColumnsForth(b3, n);
    var (columns, b4) := ReadMany(ReadColumn, b3, n).value;
    CountForth(b4);
    var (k, b5) := ReadCount(b4).value;
    ConstraintsForth(b5, k);
    var (constraints, b6) := ReadMany(ReadConstraint, b5, k).value;
    assert b == TABLE() + b0;
    assert b == TABLE() + Le32(head) + Text32(name) + Le32(n) + Many(ColumnOrNothing, columns)
                + Le32(k) + Many(ConstraintOrNothing, constraints) + b6;
  }

  /** Reading a record and writing one are inverse, in both directions. */
  lemma RecordRoundTrip(m: Metadata, b: Bytes)
    ensures ReadRecord(b) == Some(m) <==> Small(m) && RecordBytes(m) == b
  {
    hide ReadBody, RecordBytes, Small;
    if Small(m) && RecordBytes(m) == b {
      BodyBack(m, []);
      assert b + [] == b;
    }
    if ReadRecord(b) == Some(m) {
      BodyForth(b);
      assert RecordBytes(m) + [] == RecordBytes(m);
    }
  }

  /** Cutting a record short or adding to it never gives a record. */
  lemma RecordsPrefixFree(m: Metadata, n: Metadata)
    requires Small(m) && Small(n) && RecordBytes(m) <= RecordBytes(n)
    ensures m == n
  {
    hide ReadBody, RecordBytes, Small;
    var b := RecordBytes(n);
    var extra := b[|RecordBytes(m)|..];
    assert RecordBytes(m) + extra == b && b + [] == b;
    BodyBack(m, extra);
    BodyBack(n, []);
  }

  // ---------- the encoder ----------

  lemma {:induction false} ManySnoc<T>(enc: T -> Bytes, xs: seq<T>, x: T)
    ensures Many(enc, xs + [x]) == Many(enc, xs) + enc(x)
  {
    if xs == [] {
      assert xs + [x] == [x];
      assert Many(enc, [x][1..]) == [];
    } else {
      ManySnoc(enc, xs[1..], x);
      assert (xs + [x])[1..] == xs[1..] + [x];
      assert enc(xs[0]) + (Many(enc, xs[1..]) + enc(x)) == enc(xs[0]) + Many(enc, xs[1..]) + enc(x);
    }
  }

  lemma ManyGrows<T>(enc: T -> Bytes, xs: seq<T>, i: nat, before: Bytes, out: Bytes)
    requires i < |xs| && out == before + Many(enc, xs[..i])
    ensures out + enc(xs[i]) == before + Many(enc, xs[..i + 1])
  {
    ManySnoc(enc, xs[..i], xs[i]);
    assert xs[..i + 1] == xs[..i] + [xs[i]];
    assert before + (Many(enc, xs[..i]) + enc(xs[i])) == before + Many(enc, xs[..i]) + enc(xs[i]);
  }

  /** Appends a count; `None` on 32-bit overflow. */
  method PutNumber(out: Bytes, n: nat) returns (r: Option<Bytes>)
    ensures r == if n < LIMIT32 then Some(out + Le32(n)) else None
  {
    if n >= LIMIT32 { return None; }
    return Some(out + Le32(n));
  }

  method PutText(out: Bytes, s: string) returns (r: Option<Bytes>)
    ensures r == if |Encode(s)| < LIMIT32 then Some(out + Text32(s)) else None
  {
    hide Le32, Encode;
    var bytes := Encode(s);
    var head := PutNumber(out, |bytes|);
    if head.None? { return None; }
    assert out + Le32(|bytes|) + bytes == out + (Le32(|bytes|) + bytes);
    return Some(head.value + bytes);
  }

  method PutColumn(out: Bytes, c: Column) returns (r: Option<Bytes>)
    ensures r == if ColumnSmall(c) then Some(out + ColumnBytes(c)) else None
  {
    hide Le32, Encode, Text32;
    var name := PutText(out, c.name);
    if name.None? { return None; }
    var b := name.value + [if c.nullable then 1 else 0];
    if c.dataType.NullType? { return None; }
    b := b + [TypeTag(c.dataType)];
    if c.dataType.Varchar? && c.dataType.limit.Some? {
      b := b + Le32(c.dataType.limit.value);
    }
    assert b == out + ColumnBytes(c);
    return Some(b);
  }

  method PutConstraint(out: Bytes, c: Constraint) returns (r: Option<Bytes>)
    ensures r == if ConstraintSmall(c) then Some(out + ConstraintBytes(c)) else None
  {
    hide Le32, Many;
    var count := PutNumber(out + [if c.PrimaryKey? then 1 else 2], |c.columns|);
    if count.None? { return None; }
    var b := count.value;
    ghost var before := b;
    assert Many(NumberBytes, c.columns[..0]) == [] by { ManyEmpty(NumberBytes); }
    for i := 0 to |c.columns|
      invariant b == before + Many(NumberBytes, c.columns[..i])
      invariant forall k | 0 <= k < i :: c.columns[k] < LIMIT32
    {
      ManyGrows(NumberBytes, c.columns, i, before, b);
      var next := PutNumber(b, c.columns[i]);
      if next.None? { return None; }
      b := next.value;
    }
    assert c.columns[..|c.columns|] == c.columns;
    assert b == out + ConstraintBytes(c);
    return Some(b);
  }

  lemma ManyEmpty<T>(enc: T -> Bytes)
    ensures Many(enc, []) == []
  {
  }

  method PutColumns(out: Bytes, cs: seq<Column>) returns (r: Option<Bytes>)
    ensures r.Some? <==> forall i | 0 <= i < |cs| :: ColumnSmall(cs[i])
    ensures r.Some? ==> r.value == out + Many(ColumnOrNothing, cs)
  {
    hide Many, ColumnSmall, ColumnBytes;
    var b := out;
    ManyEmpty(ColumnOrNothing);
    assert cs[..0] == [];
    for i := 0 to |cs|
      invariant b == out + Many(ColumnOrNothing, cs[..i])
      invariant forall k | 0 <= k < i :: ColumnSmall(cs[k])
    {
      ManyGrows(ColumnOrNothing, cs, i, out, b);
      var next := PutColumn(b, cs[i]);
      if next.None? { return None; }
      b := next.value;
    }
    assert cs[..|cs|] == cs;
    return Some(b);
  }

  method PutConstraints(out: Bytes, cs: seq<Constraint>) returns (r: Option<Bytes>)
    ensures r.Some? <==> forall i | 0 <= i < |cs| :: ConstraintSmall(cs[i])
    ensures r.Some? ==> r.value == out + Many(ConstraintOrNothing, cs)
  {
    hide Many, ConstraintSmall, ConstraintBytes;
    var b := out;
    ManyEmpty(ConstraintOrNothing);
    assert cs[..0] == [];
    for i := 0 to |cs|
      invariant b == out + Many(ConstraintOrNothing, cs[..i])
      invariant forall k | 0 <= k < i :: ConstraintSmall(cs[k])
    {
      ManyGrows(ConstraintOrNothing, cs, i, out, b);
      var next := PutConstraint(b, cs[i]);
      if next.None? { return None; }
      b := next.value;
    }
    assert cs[..|cs|] == cs;
    return Some(b);
  }

  /** What `encode` accepts: valid metadata whose record fits one heap tuple. */
  ghost predicate Storable(m: Metadata) {
    ValidMetadata(m) && Small(m) && |RecordBytes(m)| <= MAX_TUPLE_SIZE
  }

  /** `encode`. */
  method EncodeRecord(m: Metadata) returns (r: Option<Bytes>)
    ensures r.Some? <==> Storable(m)
    ensures r.Some? ==> r.value == RecordBytes(m)
  {
    hide Le32, Encode, Text32, Many, ColumnSmall, ConstraintSmall, ValidMetadata;
    var ok := Validate(m);
    if !ok { return None; }
    var name := PutText(TABLE() + Le32(m.head), m.name);
    if name.None? { return None; }
    var count := PutNumber(name.value, |m.columns|);
    if count.None? { return None; }
    var columns := PutColumns(count.value, m.columns);
    if columns.None? { return None; }
    count := PutNumber(columns.value, |m.constraints|);
    if count.None? { return None; }
    var out := PutConstraints(count.value, m.constraints);
    if out.None? { return None; }
    if |out.value| > MAX_TUPLE_SIZE { return None; }
    return out;
  }

  // ---------- the decoder ----------

  function Prepend<T>(xs: seq<T>, r: Read<seq<T>>): (q: Read<seq<T>>) {
    match r
    case None => None
    case Some((ys, rest)) => Some((xs + ys, rest))
  }

  lemma PrependEnds<T>(xs: seq<T>, r: Read<seq<T>>, b: Bytes)
    ensures Prepend([], r) == r
    ensures Prepend(xs, Some(([], b))) == Some((xs, b))
  {
    assert xs + [] == xs;
    if r.Some? { assert [] + r.value.0 == r.value.0; }
  }

  /** One more item read before the rest. */
  lemma ReadManyStep<T>(read: Bytes -> Read<T>, xs: seq<T>, b: Bytes, n: nat)
    requires n > 0
    ensures read(b).None? ==> ReadMany(read, b, n) == None
    ensures read(b).Some? ==>
      Prepend(xs, ReadMany(read, b, n)) == Prepend(xs + [read(b).value.0], ReadMany(read, read(b).value.1, n - 1))
  {
    if read(b).Some? {
      var (x, b1) := read(b).value;
      var r := ReadMany(read, b1, n - 1);
      if r.Some? {
        assert xs + ([x] + r.value.0) == xs + [x] + r.value.0;
      }
    }
  }

  /** A slice that is consumed from the front. */
  class Reader {
    var rest: Bytes

    constructor (bytes: Bytes)
      ensures rest == bytes
    {
      rest := bytes;
    }

    method Take(n: nat) returns (r: Option<Bytes>)
      modifies this
      ensures r.Some? <==> n <= old(|rest|)
      ensures r.Some? ==> old(rest) == r.value + rest && |r.value| == n
      ensures r.None? ==> rest == old(rest)
    {
      if n > |rest| { return None; }
      r := Some(rest[..n]);
      rest := rest[n..];
    }

    method Byte() returns (r: Option<byte>)
      modifies this
      ensures ReadByte(old(rest)) == if r.Some? then Some((r.value, rest)) else None
    {
      var a := Take(1);
      if a.None? { return None; }
      return Some(a.value[0]);
    }

    method Number() returns (r: Option<nat>)
      modifies this
      ensures ReadNumber(old(rest)) == if r.Some? then Some((r.value, rest)) else None
    {
      hide FromLe32;
      var a := Take(4);
      if a.None? { return None; }
      assert old(rest)[..4] == a.value;
      return Some(FromLe32(a.value));
    }

    method Count() returns (r: Option<nat>)
      modifies this
      ensures ReadCount(old(rest)) == if r.Some? then Some((r.value, rest)) else None
    {
      var n := Number();
      if n.None? || n.value > |rest| { return None; }
      return n;
    }

    method Str() returns (r: Option<string>)
      modifies this
      ensures ReadText(old(rest)) == if r.Some? then Some((r.value, rest)) else None
    {
      hide Decode;
      var n := Count();
      if n.None? { return None; }
      ghost var b := rest;
      var a := Take(n.value);
      assert b[..n.value] == a.value && b[n.value..] == rest;
      return Decode(a.value);
    }

    method Type() returns (r: Option<LogicalType>)
      modifies this
      ensures ReadType(old(rest)) == if r.Some? then Some((r.value, rest)) else None
    {
      hide ReadNumber;
      var tag := Byte();
      if tag.None? { return None; }
      if tag.value == 9 {
        var n := Number();
        if n.None? || n.value == 0 { return None; }
        return Some(Varchar(Some(n.value)));
      }
      return TypeOfTag(tag.value);
    }

    method ColumnOf() returns (r: Option<Column>)
      modifies this
      ensures ReadColumn(old(rest)) == if r.Some? then Some((r.value, rest)) else None
    {
      hide ReadText, ReadType;
      var name := Str();
      if name.None? { return None; }
      var flag := Byte();
      if flag.None? || flag.value > 1 { return None; }
      var t := Type();
      if t.None? { return None; }
      return Some(Column(name.value, t.value, flag.value == 1));
    }

    method Columns(n: nat) returns (r: Option<seq<Column>>)
      modifies this
      ensures ReadMany(ReadColumn, old(rest), n) == if r.Some? then Some((r.value, rest)) else None
    {
      hide ReadColumn;
      var xs: seq<Column> := [];
      ghost var whole := ReadMany(ReadColumn, rest, n);
      PrependEnds(xs, whole, rest);
      for i := 0 to n
        invariant whole == Prepend(xs, ReadMany(ReadColumn, rest, n - i))
      {
        ReadManyStep(ReadColumn, xs, rest, n - i);
        var x := ColumnOf();
        if x.None? { return None; }
        xs := xs + [x.value];
      }
      PrependEnds(xs, whole, rest);
      return Some(xs);
    }

    method Numbers(n: nat) returns (r: Option<seq<nat>>)
      modifies this
      ensures ReadMany(ReadNumber, old(rest), n) == if r.Some? then Some((r.value, rest)) else None
    {
      hide ReadNumber;
      var xs: seq<nat> := [];
      ghost var whole := ReadMany(ReadNumber, rest, n);
      PrependEnds(xs, whole, rest);
      for i := 0 to n
        invariant whole == Prepend(xs, ReadMany(ReadNumber, rest, n - i))
      {
        ReadManyStep(ReadNumber, xs, rest, n - i);
        var x := Number();
        if x.None? { return None; }
        xs := xs + [x.value];
      }
      PrependEnds(xs, whole, rest);
      return Some(xs);
    }

    method ConstraintOf() returns (r: Option<Constraint>)
      modifies this
      ensures ReadConstraint(old(rest)) == if r.Some? then Some((r.value, rest)) else None
    {
      hide ReadNumber, ReadMany, ReadCount;
      var tag := Byte();
      if tag.None? { return None; }
      var n := Count();
      if n.None? { return None; }
      var columns := Numbers(n.value);
      if columns.None? { return None; }
      if tag.value == 1 { return Some(PrimaryKey(columns.value)); }
      if tag.value == 2 { return Some(Unique(columns.value)); }
      return None;
    }

    method Constraints(n: nat) returns (r: Option<seq<Constraint>>)
      modifies this
      ensures ReadMany(ReadConstraint, old(rest), n) == if r.Some? then Some((r.value, rest)) else None
    {
      hide ReadConstraint;
      var xs: seq<Constraint> := [];
      ghost var whole := ReadMany(ReadConstraint, rest, n);
      PrependEnds(xs, whole, rest);
      for i := 0 to n
        invariant whole == Prepend(xs, ReadMany(ReadConstraint, rest, n - i))
      {
        ReadManyStep(ReadConstraint, xs, rest, n - i);
        var x := ConstraintOf();
        if x.None? { return None; }
        xs := xs + [x.value];
      }
      PrependEnds(xs, whole, rest);
      return Some(xs);
    }
  }

  /** `decode`: accepts exactly the encodings of valid metadata, and returns what was encoded. */
  method DecodeRecord(bytes: Bytes) returns (r: Option<Metadata>)
    ensures r.Some? ==> ValidMetadata(r.value) && Small(r.value) && bytes == RecordBytes(r.value)
    ensures r.None? ==> forall m | ValidMetadata(m) && Small(m) :: RecordBytes(m) != bytes
  {
    hide ReadNumber, ReadText, ReadCount, ReadMany, ReadColumn, ReadConstraint, RecordBytes, ValidMetadata, Small;
    forall m
      ensures ReadRecord(bytes) == Some(m) <==> Small(m) && RecordBytes(m) == bytes
    {
      RecordRoundTrip(m, bytes);
    }
    var d := new Reader(bytes);
    var magic := d.Take(10);
    if magic.None? { return None; }
    assert bytes[..10] == magic.value && bytes[10..] == d.rest;
    if magic.value != TABLE() { return None; }
    var head := d.Number();
    if head.None? { return None; }
    var name := d.Str();
    if name.None? { return None; }
    var n := d.Count();
    if n.None? { return None; }
    var columns := d.Columns(n.value);
    if columns.None? { return None; }
    var k := d.Count();
    if k.None? { return None; }
    var constraints := d.Constraints(k.value);
    if constraints.None? { return None; }
    if d.rest != [] { return None; }
    var m := Metadata(name.value, columns.value, head.value, constraints.value);
    var ok := Validate(m);
    if !ok { return None; }
    return Some(m);
  }
}
