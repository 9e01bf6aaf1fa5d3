/** Exasol's SQL types: their limits, their `dataType` JSON, and their SQL spelling. */
module ExasolTypes {
  import opened Common
  import opened Json

  const MAX_VARCHAR_SIZE := 2_000_000
  const MAX_CHAR_SIZE := 2000
  const MAX_DECIMAL_PRECISION := 36
  const MAX_FRACTIONAL_DIGITS := 9
  const MAX_INTERVAL_PRECISION := 9
  const MAX_HASHTYPE_BYTES := 1024
  const BARE_TIMESTAMP_PRECISION := 3
  const MAX_U32 := 0xFFFF_FFFF

  datatype ExasolType =
    | Boolean
    | Decimal(precision: nat, scale: nat)
    | DoublePrecision
    | Date
    | Timestamp(precision: nat)
    | TimestampWithLocalTimeZone(precision: nat)
    | Char(size: nat, ascii: bool)
    | Varchar(size: nat, ascii: bool)
    | IntervalYearToMonth(precision: nat)
    | IntervalDayToSecond(precision: nat, fraction: nat)
    | Geometry(srid: nat)
    | Hashtype(bytes: nat)
  {
    predicate IsCharacter() { Char? || Varchar? }
  }

  /** The declarations Exasol accepts. */
  predicate WithinLimits(t: ExasolType)
  {
    match t
    case Boolean => true
    case Decimal(p, s) => 1 <= p <= 36 && s <= p
    case DoublePrecision => true
    case Date => true
    case Timestamp(p) => p <= 9
    case TimestampWithLocalTimeZone(p) => p <= 9
    case Char(size, _) => 1 <= size <= 2000
    case Varchar(size, _) => 1 <= size <= 2_000_000
    case IntervalYearToMonth(p) => 1 <= p <= 9
    case IntervalDayToSecond(p, f) => 1 <= p <= 9 && f <= 9
    case Geometry(srid) => srid <= 0xFFFF_FFFF
    case Hashtype(bytes) => 1 <= bytes <= 1024
  }

  // ----- dataType JSON

  function ToJson(t: ExasolType): (j: Json)
  {
    match t
    case Boolean => JObj([Field("type", JStr("boolean"))])
    case Decimal(p, s) =>
      JObj([Field("precision", JInt(p)), Field("scale", JInt(s)), Field("type", JStr("decimal"))])
    case DoublePrecision => JObj([Field("type", JStr("double"))])
    case Date => JObj([Field("type", JStr("date"))])
    case Timestamp(p) => TimestampJson(p, false)
    case TimestampWithLocalTimeZone(p) => TimestampJson(p, true)
    case Char(size, ascii) => CharacterJson("char", size, ascii)
    case Varchar(size, ascii) => CharacterJson("varchar", size, ascii)
    case IntervalYearToMonth(p) =>
      JObj([Field("fromTo", JStr("YEAR TO MONTH")), Field("precision", JInt(p)), Field("type", JStr("interval"))])
    case IntervalDayToSecond(p, f) =>
      JObj([Field("fraction", JInt(f)), Field("fromTo", JStr("DAY TO SECONDS")), Field("precision", JInt(p)),
            Field("type", JStr("interval"))])
    case Geometry(srid) => JObj([Field("srid", JInt(srid)), Field("type", JStr("geometry"))])
    case Hashtype(bytes) => JObj([Field("bytesize", JInt(bytes)), Field("type", JStr("hashtype"))])
  }

  function TimestampJson(p: nat, local: bool): (j: Json)
  {
    JObj((if p != BARE_TIMESTAMP_PRECISION then [Field("fractionalSecondsPrecision", JInt(p))] else [])
         + [Field("type", JStr("timestamp"))]
         + (if local then [Field("withLocalTimeZone", JBool(true))] else []))
  }

  function CharacterJson(name: string, size: nat, ascii: bool): (j: Json)
  {
    JObj((if ascii then [Field("characterSet", JStr("ASCII"))] else [])
         + [Field("size", JInt(size)), Field("type", JStr(name))])
  }

  function BoundedField(dt: Json, key: string, min: nat, max: nat): (r: Result<nat>)
    ensures r.Ok? ==> min <= r.value <= max
  {
    match AsU64(Get(dt, key))
    case None => Err
    case Some(v) => if min <= v <= max then Ok(v) else Err
  }

  function FromJson(dt: Json): (r: Result<ExasolType>)
    ensures r.Ok? ==> WithinLimits(r.value)
  {
    match AsStr(Get(dt, "type"))
    case None => Err
    case Some(raw) =>
      var name := Lower(raw);
      if name == "boolean" then Ok(Boolean)
      else if name == "decimal" then DecimalFromJson(dt)
      else if name == "double" then Ok(DoublePrecision)
      else if name == "date" then Ok(Date)
      else if name == "timestamp" then TimestampFromJson(dt)
      else if name == "char" then CharacterFromJson(dt, false)
      else if name == "varchar" then CharacterFromJson(dt, true)
      else if name == "interval" then IntervalFromJson(dt)
      else if name == "geometry" then
        match BoundedField(dt, "srid", 0, MAX_U32)
        case Err => Err
        case Ok(srid) => Ok(Geometry(srid))
      else if name == "hashtype" then
        match BoundedField(dt, "bytesize", 1, MAX_HASHTYPE_BYTES)
        case Err => Err
        case Ok(bytes) => Ok(Hashtype(bytes))
      else Err
  }

  function DecimalFromJson(dt: Json): (r: Result<ExasolType>)
    ensures r.Ok? ==> WithinLimits(r.value)
  {
    match (BoundedField(dt, "precision", 1, MAX_DECIMAL_PRECISION), BoundedField(dt, "scale", 0, MAX_DECIMAL_PRECISION))
    case (Ok(p), Ok(s)) => if s <= p then Ok(Decimal(p, s)) else Err
    case _ => Err
  }

  function TimestampFromJson(dt: Json): (r: Result<ExasolType>)
    ensures r.Ok? ==> WithinLimits(r.value)
  {
    var precision :=
      if Get(dt, "fractionalSecondsPrecision").None? then Ok(BARE_TIMESTAMP_PRECISION)
      else BoundedField(dt, "fractionalSecondsPrecision", 0, MAX_FRACTIONAL_DIGITS);
    match precision
    case Err => Err
    case Ok(p) =>
      match Get(dt, "withLocalTimeZone")
      case None => Ok(Timestamp(p))
      case Some(JBool(local)) => Ok(if local then TimestampWithLocalTimeZone(p) else Timestamp(p))
      case Some(_) => Err
  }

  function CharacterFromJson(dt: Json, varying: bool): (r: Result<ExasolType>)
    ensures r.Ok? ==> WithinLimits(r.value)
  {
    match (BoundedField(dt, "size", 1, if varying then MAX_VARCHAR_SIZE else MAX_CHAR_SIZE), AsciiCharacterSet(dt))
    case (Ok(size), Ok(ascii)) => Ok(if varying then Varchar(size, ascii) else Char(size, ascii))
    case _ => Err
  }

  function IntervalFromJson(dt: Json): (r: Result<ExasolType>)
    ensures r.Ok? ==> WithinLimits(r.value)
  {
    match BoundedField(dt, "precision", 1, MAX_INTERVAL_PRECISION)
    case Err => Err
    case Ok(p) =>
      var fromTo := AsStr(Get(dt, "fromTo"));
      if fromTo == Some("YEAR TO MONTH") then Ok(IntervalYearToMonth(p))
      else if fromTo == Some("DAY TO SECONDS") then
        match BoundedField(dt, "fraction", 0, MAX_FRACTIONAL_DIGITS)
        case Err => Err
        case Ok(f) => Ok(IntervalDayToSecond(p, f))
      else Err
  }

  function AsciiCharacterSet(dt: Json): (r: Result<bool>)
  {
    match Get(dt, "characterSet")
    case None => Ok(false)
    case Some(JStr(s)) =>
      if Upper(s) == "UTF8" then Ok(false) else if Upper(s) == "ASCII" then Ok(true) else Err
    case Some(_) => Err
  }

  // ----- the JSON form reads back

  predicate ReadsBack(t: ExasolType)
  {
    FromJson(ToJson(t)) == if WithinLimits(t) then Ok(t) else Err
  }

  /** The reader finds the type name, so it branches as the writer did. */
  lemma TypeNamed(j: Json, i: nat, name: string)
    requires j.JObj? && i < |j.fields| && j.fields[i] == Field("type", JStr(name)) && Lower(name) == name
    requires forall k :: 0 <= k < i ==> j.fields[k].key != "type"
    ensures AsStr(Get(j, "type")) == Some(name)
  {
    FindAt(j.fields, i, "type");
  }

  lemma DecimalReadsBack(p: nat, s: nat)
    ensures ReadsBack(Decimal(p, s))
  {
    var j := ToJson(Decimal(p, s));
    TypeNamed(j, 2, "decimal");
    FindAt(j.fields, 0, "precision");
    FindAt(j.fields, 1, "scale");
    assert FromJson(j) == DecimalFromJson(j);
  }

  lemma TimestampReadsBack(p: nat, local: bool)
    ensures ReadsBack(if local then TimestampWithLocalTimeZone(p) else Timestamp(p))
  {
    var j := TimestampJson(p, local);
    var i := if p != BARE_TIMESTAMP_PRECISION then 1 else 0;
    TypeNamed(j, i, "timestamp");
    if p != BARE_TIMESTAMP_PRECISION {
      FindAt(j.fields, 0, "fractionalSecondsPrecision");
    } else {
      FindMissing(j.fields, "fractionalSecondsPrecision");
    }
    if local {
      FindAt(j.fields, i + 1, "withLocalTimeZone");
    } else {
      FindMissing(j.fields, "withLocalTimeZone");
    }
    assert FromJson(j) == TimestampFromJson(j);
  }

  lemma CharacterReadsBack(size: nat, ascii: bool, varying: bool)
    ensures ReadsBack(if varying then Varchar(size, ascii) else Char(size, ascii))
  {
    var name := if varying then "varchar" else "char";
    var j := CharacterJson(name, size, ascii);
    var i := if ascii then 1 else 0;
    TypeNamed(j, i + 1, name);
    FindAt(j.fields, i, "size");
    if ascii {
      FindAt(j.fields, 0, "characterSet");
      assert Upper("ASCII") == "ASCII";
    } else {
      FindMissing(j.fields, "characterSet");
    }
    assert FromJson(j) == CharacterFromJson(j, varying);
  }

  lemma IntervalReadsBack(p: nat, f: nat)
    ensures ReadsBack(IntervalYearToMonth(p)) && ReadsBack(IntervalDayToSecond(p, f))
  {
    var j := ToJson(IntervalYearToMonth(p));
    TypeNamed(j, 2, "interval");
    FindAt(j.fields, 0, "fromTo");
    FindAt(j.fields, 1, "precision");
    assert FromJson(j) == IntervalFromJson(j);
    var k := ToJson(IntervalDayToSecond(p, f));
    TypeNamed(k, 3, "interval");
    FindAt(k.fields, 0, "fraction");
    FindAt(k.fields, 1, "fromTo");
    FindAt(k.fields, 2, "precision");
    assert FromJson(k) == IntervalFromJson(k);
  }

  /** A type's JSON reads back as that type if Exasol accepts the type, and is refused otherwise. */
  lemma JsonReadsBack(t: ExasolType)
    ensures FromJson(ToJson(t)) == if WithinLimits(t) then Ok(t) else Err
  {
    var j := ToJson(t);
    match t
    case Boolean => TypeNamed(j, 0, "boolean");
    case Decimal(p, s) => DecimalReadsBack(p, s);
    case DoublePrecision => TypeNamed(j, 0, "double");
    case Date => TypeNamed(j, 0, "date");
    case Timestamp(p) => TimestampReadsBack(p, false);
    case TimestampWithLocalTimeZone(p) => TimestampReadsBack(p, true);
    case Char(size, ascii) => CharacterReadsBack(size, ascii, false);
    case Varchar(size, ascii) => CharacterReadsBack(size, ascii, true);
    case IntervalYearToMonth(p) => IntervalReadsBack(p, 0);
    case IntervalDayToSecond(p, f) => IntervalReadsBack(p, f);
    case Geometry(srid) =>
      TypeNamed(j, 1, "geometry");
      FindAt(j.fields, 0, "srid");
    case Hashtype(bytes) =>
      TypeNamed(j, 1, "hashtype");
      FindAt(j.fields, 0, "bytesize");
  }

  // ----- what any JSON declares

  predicate Named(dt: Json, name: string)
  {
    var t := Get(dt, "type");
    t.Some? && t.value.JStr? && Lower(t.value.s) == name
  }

  predicate Says(dt: Json, key: string, n: nat) { Get(dt, key) == Some(JInt(n)) }

  /** An absent precision means three digits. */
  predicate SaysDigits(dt: Json, p: nat)
  {
    if Get(dt, "fractionalSecondsPrecision").None? then p == 3 else Says(dt, "fractionalSecondsPrecision", p)
  }

  predicate SaysLocal(dt: Json, local: bool)
  {
    var zone := Get(dt, "withLocalTimeZone");
    if zone.None? then !local else zone.value == JBool(local)
  }

  /** An absent character set means UTF8. */
  predicate SaysAscii(dt: Json, ascii: bool)
  {
    var charset := Get(dt, "characterSet");
    if charset.None? then !ascii
    else charset.value.JStr? && Upper(charset.value.s) == if ascii then "ASCII" else "UTF8"
  }

  /** The object declares the type, which lies within Exasol's limits. */
  predicate Declares(dt: Json, t: ExasolType)
  {
    && WithinLimits(t)
    && match t
       case Boolean => Named(dt, "boolean")
       case Decimal(p, s) => Named(dt, "decimal") && Says(dt, "precision", p) && Says(dt, "scale", s)
       case DoublePrecision => Named(dt, "double")
       case Date => Named(dt, "date")
       case Timestamp(p) => Named(dt, "timestamp") && SaysDigits(dt, p) && SaysLocal(dt, false)
       case TimestampWithLocalTimeZone(p) => Named(dt, "timestamp") && SaysDigits(dt, p) && SaysLocal(dt, true)
       case Char(size, ascii) => Named(dt, "char") && Says(dt, "size", size) && SaysAscii(dt, ascii)
       case Varchar(size, ascii) => Named(dt, "varchar") && Says(dt, "size", size) && SaysAscii(dt, ascii)
       case IntervalYearToMonth(p) =>
         Named(dt, "interval") && Get(dt, "fromTo") == Some(JStr("YEAR TO MONTH")) && Says(dt, "precision", p)
       case IntervalDayToSecond(p, f) =>
         && Named(dt, "interval") && Get(dt, "fromTo") == Some(JStr("DAY TO SECONDS"))
         && Says(dt, "precision", p) && Says(dt, "fraction", f)
       case Geometry(srid) => Named(dt, "geometry") && Says(dt, "srid", srid)
       case Hashtype(bytes) => Named(dt, "hashtype") && Says(dt, "bytesize", bytes)
  }

  lemma FieldExactly(dt: Json, key: string, min: nat, max: nat, n: nat)
    requires max < 0x1_0000_0000_0000_0000
    ensures BoundedField(dt, key, min, max) == Ok(n) <==> Says(dt, key, n) && min <= n <= max
  {
  }

  lemma DecimalExactly(dt: Json, t: ExasolType)
    requires Named(dt, "decimal")
    ensures DecimalFromJson(dt) == Ok(t) <==> t.Decimal? && Declares(dt, t)
  {
    hide Get, Named, BoundedField, Says;
    if t.Decimal? {
      FieldExactly(dt, "precision", 1, MAX_DECIMAL_PRECISION, t.precision);
      FieldExactly(dt, "scale", 0, MAX_DECIMAL_PRECISION, t.scale);
    }
  }

  lemma TimestampExactly(dt: Json, t: ExasolType)
    requires Named(dt, "timestamp")
    ensures TimestampFromJson(dt) == Ok(t) <==> (t.Timestamp? || t.TimestampWithLocalTimeZone?) && Declares(dt, t)
  {
    hide Get, Named, BoundedField, Says;
    if t.Timestamp? || t.TimestampWithLocalTimeZone? {
      FieldExactly(dt, "fractionalSecondsPrecision", 0, MAX_FRACTIONAL_DIGITS, t.precision);
    }
  }

  lemma CharacterExactly(dt: Json, varying: bool, t: ExasolType)
    requires Named(dt, if varying then "varchar" else "char")
    ensures CharacterFromJson(dt, varying) == Ok(t) <==> (if varying then t.Varchar? else t.Char?) && Declares(dt, t)
  {
    hide Get, Named, BoundedField, Says, Upper;
    if if varying then t.Varchar? else t.Char? {
      FieldExactly(dt, "size", 1, if varying then MAX_VARCHAR_SIZE else MAX_CHAR_SIZE, t.size);
      AsciiExactly(dt, t.ascii);
    }
  }

  lemma AsciiExactly(dt: Json, ascii: bool)
    ensures AsciiCharacterSet(dt) == Ok(ascii) <==> SaysAscii(dt, ascii)
  {
    hide Get, Upper;
    assert "ASCII"[0] != "UTF8"[0];
  }

  lemma IntervalExactly(dt: Json, t: ExasolType)
    requires Named(dt, "interval")
    ensures IntervalFromJson(dt) == Ok(t) <==> (t.IntervalYearToMonth? || t.IntervalDayToSecond?) && Declares(dt, t)
  {
    hide Get, Named, BoundedField, Says;
    assert "YEAR TO MONTH"[0] != "DAY TO SECONDS"[0];
    if t.IntervalYearToMonth? || t.IntervalDayToSecond? {
      FieldExactly(dt, "precision", 1, MAX_INTERVAL_PRECISION, t.precision);
    }
    if t.IntervalDayToSecond? {
      FieldExactly(dt, "fraction", 0, MAX_FRACTIONAL_DIGITS, t.fraction);
    }
  }

  /** The name under which a type is declared */
  function TypeName(t: ExasolType): (r: string)
  {
    match t
    case Boolean => "boolean"
    case Decimal(_, _) => "decimal"
    case DoublePrecision => "double"
    case Date => "date"
    case Timestamp(_) => "timestamp"
    case TimestampWithLocalTimeZone(_) => "timestamp"
    case Char(_, _) => "char"
    case Varchar(_, _) => "varchar"
    case IntervalYearToMonth(_) => "interval"
    case IntervalDayToSecond(_, _) => "interval"
    case Geometry(_) => "geometry"
    case Hashtype(_) => "hashtype"
  }

  lemma DeclaredName(dt: Json, t: ExasolType)
    requires Declares(dt, t)
    ensures Named(dt, TypeName(t))
  {
    hide Named, Says, SaysDigits, SaysLocal, SaysAscii;
  }

  lemma ReadName(dt: Json)
    requires FromJson(dt).Ok?
    ensures Named(dt, TypeName(FromJson(dt).value))
  {
    hide BoundedField, Get, Lower, DecimalFromJson, TimestampFromJson, CharacterFromJson, IntervalFromJson;
    ReadKinds(dt);
  }

  lemma ReadKinds(dt: Json)
    ensures DecimalFromJson(dt).Ok? ==> DecimalFromJson(dt).value.Decimal?
    ensures TimestampFromJson(dt).Ok? ==> TypeName(TimestampFromJson(dt).value) == "timestamp"
    ensures CharacterFromJson(dt, false).Ok? ==> CharacterFromJson(dt, false).value.Char?
    ensures CharacterFromJson(dt, true).Ok? ==> CharacterFromJson(dt, true).value.Varchar?
    ensures IntervalFromJson(dt).Ok? ==> TypeName(IntervalFromJson(dt).value) == "interval"
  {
    hide BoundedField, Get;
  }

  /** The reader accepts a type exactly if the object declares it. */
  lemma FromJsonExactly(dt: Json, t: ExasolType)
    ensures FromJson(dt) == Ok(t) <==> Declares(dt, t)
  {
    hide FromJson, Declares, Named;
    if FromJson(dt) == Ok(t) {
      ReadName(dt);
    }
    if Declares(dt, t) {
      DeclaredName(dt, t);
    }
    if Named(dt, TypeName(t)) {
      NamedExactly(dt, t);
    }
  }

  lemma NamedExactly(dt: Json, t: ExasolType)
    requires Named(dt, TypeName(t))
    ensures FromJson(dt) == Ok(t) <==> Declares(dt, t)
  {
    hide BoundedField, Says, Get, Lower, DecimalFromJson, TimestampFromJson, CharacterFromJson, IntervalFromJson;
    match t
    case Decimal(_, _) => DecimalExactly(dt, t);
    case Timestamp(_) => TimestampExactly(dt, t);
    case TimestampWithLocalTimeZone(_) => TimestampExactly(dt, t);
    case Char(_, _) => CharacterExactly(dt, false, t);
    case Varchar(_, _) => CharacterExactly(dt, true, t);
    case IntervalYearToMonth(_) => IntervalExactly(dt, t);
    case IntervalDayToSecond(_, _) => IntervalExactly(dt, t);
    case Geometry(n) => FieldExactly(dt, "srid", 0, MAX_U32, n);
    case Hashtype(n) => FieldExactly(dt, "bytesize", 1, MAX_HASHTYPE_BYTES, n);
    case _ =>
  }
}
