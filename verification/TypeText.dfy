/** The SQL spelling of an Exasol type, and a reference reader of it. */
module TypeText {
  import opened Common
  import opened SqlText
  import opened SqlTree
  import opened SqlSpacing
  import opened ExasolTypes

  function Sized(n: nat): (r: seq<Tok>)
  {
    [LP, Num(NatText(n)), RP]
  }

  /** The tokens of a type's spelling. */
  function TypeTokens(t: ExasolType): (r: seq<Tok>)
  {
    match t
    case Boolean => [Word("BOOLEAN")]
    case Decimal(p, s) => [Word("DECIMAL"), LP, Num(NatText(p)), Comma, Num(NatText(s)), RP]
    case DoublePrecision => [Word("DOUBLE"), Word("PRECISION")]
    case Date => [Word("DATE")]
    case Timestamp(p) => [Word("TIMESTAMP")] + PrecisionTokens(p)
    case TimestampWithLocalTimeZone(p) => [Word("TIMESTAMP")] + PrecisionTokens(p) + LocalZone()
    case Char(size, ascii) => [Word("CHAR")] + Sized(size) + CharacterSetTokens(ascii)
    case Varchar(size, ascii) => [Word("VARCHAR")] + Sized(size) + CharacterSetTokens(ascii)
    case IntervalYearToMonth(p) =>
      [Word("INTERVAL"), Word("YEAR")] + Sized(p) + [Word("TO"), Word("MONTH")]
    case IntervalDayToSecond(p, f) =>
      [Word("INTERVAL"), Word("DAY")] + Sized(p) + [Word("TO"), Word("SECOND")] + Sized(f)
    case Geometry(srid) => [Word("GEOMETRY")] + Sized(srid)
    case Hashtype(bytes) => [Word("HASHTYPE"), LP, Num(NatText(bytes)), Word("BYTE"), RP]
  }

  function PrecisionTokens(p: nat): (r: seq<Tok>)
  {
    if p == BARE_TIMESTAMP_PRECISION then [] else Sized(p)
  }

  function LocalZone(): (r: seq<Tok>)
  {
    [Word("WITH"), Word("LOCAL"), Word("TIME"), Word("ZONE")]
  }

  function CharacterSetTokens(ascii: bool): (r: seq<Tok>)
  {
    if ascii then [Word("ASCII")] else []
  }

  /** `Display`: the tokens, with a blank before each word but the first. */
  function Display(t: ExasolType): (r: string)
  {
    Spell(TypeTokens(t)[0]) + Flatten(TypeToks(true, TypeTokens(t)[1..], []))
  }

  // ----- a reference reader

  function Number(ty: seq<Tok>, i: nat): (n: nat)
  {
    if i < |ty| && ty[i].Num? && NatValue(ty[i].n) >= 0 then NatValue(ty[i].n) else 0
  }

  function Digits(n: nat): (t: Tok) { Num(NatText(n)) }

  /** Reads a token list that spells a type, and only such a list. */
  function ReadType(ty: seq<Tok>): (r: Option<ExasolType>)
    ensures r.Some? ==> TypeTokens(r.value) == ty
  {
    if ty == [] then None
    else if ty[0] == Word("INTERVAL") then ReadInterval(ty)
    else if ty[0] == Word("TIMESTAMP") then ReadTimestamp(ty)
    else if ty[0] == Word("CHAR") || ty[0] == Word("VARCHAR") then ReadCharacter(ty)
    else ReadOther(ty)
  }

  function ReadOther(ty: seq<Tok>): (r: Option<ExasolType>)
    ensures r.Some? ==> TypeTokens(r.value) == ty
  {
    if ty == [Word("BOOLEAN")] then Some(Boolean)
    else if ty == [Word("DATE")] then Some(Date)
    else if ty == [Word("DOUBLE"), Word("PRECISION")] then Some(DoublePrecision)
    else ReadSized(ty)
  }

  function ReadSized(ty: seq<Tok>): (r: Option<ExasolType>)
    ensures r.Some? ==> TypeTokens(r.value) == ty
  {
    var n, m := Number(ty, 2), Number(ty, 4);
    if ty == [Word("DECIMAL"), LP, Digits(n), Comma, Digits(m), RP] then Some(Decimal(n, m))
    else if ty == [Word("GEOMETRY"), LP, Digits(n), RP] then Some(Geometry(n))
    else if ty == [Word("HASHTYPE"), LP, Digits(n), Word("BYTE"), RP] then Some(Hashtype(n))
    else None
  }

  /** A bare TIMESTAMP has three fraction digits, and three digits are written bare. */
  function ReadTimestamp(ty: seq<Tok>): (r: Option<ExasolType>)
    ensures r.Some? ==> TypeTokens(r.value) == ty
  {
    var n := Number(ty, 2);
    var zone := [Word("WITH"), Word("LOCAL"), Word("TIME"), Word("ZONE")];
    if ty == [Word("TIMESTAMP")] then Some(Timestamp(3))
    else if ty == [Word("TIMESTAMP")] + zone then Some(TimestampWithLocalTimeZone(3))
    else if n == 3 then None
    else if ty == [Word("TIMESTAMP"), LP, Digits(n), RP] then Some(Timestamp(n))
    else if ty == [Word("TIMESTAMP"), LP, Digits(n), RP] + zone then Some(TimestampWithLocalTimeZone(n))
    else None
  }

  function ReadCharacter(ty: seq<Tok>): (r: Option<ExasolType>)
    ensures r.Some? ==> TypeTokens(r.value) == ty
  {
    var n := Number(ty, 2);
    if ty == [Word("CHAR"), LP, Digits(n), RP] then Some(Char(n, false))
    else if ty == [Word("CHAR"), LP, Digits(n), RP, Word("ASCII")] then Some(Char(n, true))
    else if ty == [Word("VARCHAR"), LP, Digits(n), RP] then Some(Varchar(n, false))
    else if ty == [Word("VARCHAR"), LP, Digits(n), RP, Word("ASCII")] then Some(Varchar(n, true))
    else None
  }

  function ReadInterval(ty: seq<Tok>): (r: Option<ExasolType>)
    ensures r.Some? ==> TypeTokens(r.value) == ty
  {
    if |ty| == 7 then ReadYears(ty) else ReadDays(ty)
  }

  function ReadYears(ty: seq<Tok>): (r: Option<ExasolType>)
    ensures r.Some? ==> TypeTokens(r.value) == ty
  {
    var n := Number(ty, 3);
    if ty == [Word("INTERVAL"), Word("YEAR"), LP, Digits(n), RP, Word("TO"), Word("MONTH")] then
      Some(IntervalYearToMonth(n))
    else None
  }

  function ReadDays(ty: seq<Tok>): (r: Option<ExasolType>)
    ensures r.Some? ==> TypeTokens(r.value) == ty
  {
    var n, m := Number(ty, 3), Number(ty, 8);
    var first, second := [LP, Digits(n), RP], [LP, Digits(m), RP];
    if ty == [Word("INTERVAL"), Word("DAY")] + first + [Word("TO"), Word("SECOND")] + second then
      Some(IntervalDayToSecond(n, m))
    else None
  }

  function ReadDisplay(text: string): (r: Option<ExasolType>)
  {
    match Lex(text)
    case None => None
    case Some(ts) => ReadType(ts)
  }

  lemma Numbers(n: nat)
    ensures NatValue(NatText(n)) == n
  {
    NatTextReadsBack(n);
  }

  predicate IsSizedType(t: ExasolType) { t.Decimal? || t.Geometry? || t.Hashtype? }

  lemma SizedReadsBack(t: ExasolType)
    requires IsSizedType(t)
    ensures ReadSized(TypeTokens(t)) == Some(t)
  {
    match t
    case Decimal(p, s) =>
      Numbers(p);
      Numbers(s);
    case Geometry(n) => Numbers(n);
    case Hashtype(n) => Numbers(n);
  }

  lemma OtherReadsBack(t: ExasolType)
    requires t.Boolean? || t.DoublePrecision? || t.Date? || IsSizedType(t)
    ensures ReadOther(TypeTokens(t)) == Some(t)
  {
    hide ReadSized;
    if IsSizedType(t) {
      SizedReadsBack(t);
      assert |TypeTokens(t)| > 2;
    }
  }

  lemma OtherFirst(t: ExasolType)
    requires t.Boolean? || t.DoublePrecision? || t.Date? || IsSizedType(t)
    ensures TypeTokens(t)[0] != Word("TIMESTAMP") && TypeTokens(t)[0] != Word("INTERVAL")
    ensures TypeTokens(t)[0] != Word("CHAR") && TypeTokens(t)[0] != Word("VARCHAR")
  {
  }

  lemma TimestampReadsBack(p: nat)
    ensures ReadTimestamp(TypeTokens(Timestamp(p))) == Some(Timestamp(p))
    ensures ReadTimestamp(TypeTokens(TimestampWithLocalTimeZone(p))) == Some(TimestampWithLocalTimeZone(p))
  {
    Numbers(p);
  }

  lemma CharacterReadsBack(size: nat, ascii: bool)
    ensures ReadCharacter(TypeTokens(Char(size, ascii))) == Some(Char(size, ascii))
    ensures ReadCharacter(TypeTokens(Varchar(size, ascii))) == Some(Varchar(size, ascii))
  {
    Numbers(size);
  }

  lemma YearsReadBack(p: nat)
    ensures ReadInterval(TypeTokens(IntervalYearToMonth(p))) == Some(IntervalYearToMonth(p))
  {
    Numbers(p);
  }

  lemma DaysReadBack(p: nat, f: nat)
    ensures ReadInterval(TypeTokens(IntervalDayToSecond(p, f))) == Some(IntervalDayToSecond(p, f))
  {
    Numbers(p);
    Numbers(f);
  }

  /** No two types share a token list. */
  lemma TokensReadBack(t: ExasolType)
    ensures ReadType(TypeTokens(t)) == Some(t)
  {
    hide ReadOther, ReadTimestamp, ReadCharacter, ReadInterval;
    match t
    case Timestamp(p) => TimestampReadsBack(p);
    case TimestampWithLocalTimeZone(p) => TimestampReadsBack(p);
    case Char(size, ascii) => CharacterReadsBack(size, ascii);
    case Varchar(size, ascii) => CharacterReadsBack(size, ascii);
    case IntervalYearToMonth(p) => YearsReadBack(p);
    case IntervalDayToSecond(p, f) => DaysReadBack(p, f);
    case _ =>
      OtherReadsBack(t);
      OtherFirst(t);
  }

  // ----- the tokens are well spelled, so the characters read back too

  lemma {:induction false} BalancedConcat(a: seq<Tok>, k: nat, b: seq<Tok>, d: nat)
    requires Balanced(a, k) && Balanced(b, d)
    ensures Balanced(a + b, k + d)
  {
    if a == [] {
      assert a + b == b;
    } else {
      assert (a + b)[1..] == a[1..] + b;
      BalancedConcat(a[1..], if a[0] == LP then k + 1 else if a[0] == RP then k - 1 else k, b, d);
    }
  }

  lemma {:induction false} TypeSpacedConcat(a: seq<Tok>, b: seq<Tok>)
    requires TypeSpaced(a) && TypeSpaced(b) && (b != [] ==> b[0].Word? || IsSep(b[0]))
    ensures TypeSpaced(a + b)
  {
    hide IsName, IsNumeral;
    if a == [] {
      assert a + b == b;
    } else {
      assert (a + b)[1..] == a[1..] + b;
      TypeSpacedConcat(a[1..], b);
    }
  }

  predicate Piece(a: seq<Tok>)
  {
    TypeSpaced(a) && Balanced(a, 0) && (a != [] ==> a[0].Word? || IsSep(a[0]))
  }

  lemma PieceConcat(a: seq<Tok>, b: seq<Tok>)
    requires Piece(a) && Piece(b)
    ensures Piece(a + b)
  {
    TypeSpacedConcat(a, b);
    BalancedConcat(a, 0, b, 0);
    if a == [] {
      assert a + b == b;
    }
  }

  lemma {:induction false} DigitsAreNumeral(n: string)
    requires forall i :: 0 <= i < |n| ==> IsDigit(n[i])
    ensures NumLen(n, false) == |n|
  {
    if n != "" {
      DigitsAreNumeral(n[1..]);
    }
  }

  lemma NumberTok(n: nat)
    ensures ValidTok(Num(NatText(n)))
  {
    DigitsAreNumeral(NatText(n));
  }

  lemma WordPiece(w: string)
    requires IsName(w)
    ensures Piece([Word(w)])
  {
    assert [Word(w)][1..] == [];
  }

  lemma SizedPiece(n: nat)
    ensures Piece(Sized(n))
  {
    NumberTok(n);
    var a := Num(NatText(n));
    assert Sized(n)[1..] == [a, RP] && [a, RP][1..] == [RP] && [RP][1..] == [];
    assert Balanced([RP], 1) && Balanced([a, RP], 1);
    assert TypeSpaced([RP]) && TypeSpaced([a, RP]);
  }

  lemma PairPiece(n: nat, m: nat)
    ensures Piece([LP, Num(NatText(n)), Comma, Num(NatText(m)), RP])
  {
    NumberTok(n);
    NumberTok(m);
    var a, b := Num(NatText(n)), Num(NatText(m));
    var s := [LP, a, Comma, b, RP];
    assert s[1..] == [a, Comma, b, RP] && s[1..][1..] == [Comma, b, RP];
    assert [Comma, b, RP][1..] == [b, RP] && [b, RP][1..] == [RP] && [RP][1..] == [];
    assert Balanced([RP], 1) && Balanced([b, RP], 1) && Balanced([Comma, b, RP], 1) && Balanced(s[1..], 1);
    assert TypeSpaced([RP]) && TypeSpaced([b, RP]) && TypeSpaced([Comma, b, RP]) && TypeSpaced(s[1..]);
  }

  lemma BytesPiece(n: nat)
    ensures Piece([LP, Num(NatText(n)), Word("BYTE"), RP])
  {
    NumberTok(n);
    var a, b := Num(NatText(n)), Word("BYTE");
    var s := [LP, a, b, RP];
    assert s[1..] == [a, b, RP] && s[1..][1..] == [b, RP] && [b, RP][1..] == [RP] && [RP][1..] == [];
    assert Balanced([RP], 1) && Balanced([b, RP], 1) && Balanced(s[1..], 1);
    assert TypeSpaced([RP]) && TypeSpaced([b, RP]) && TypeSpaced(s[1..]);
  }

  lemma WordsPiece(v: string, w: string)
    requires IsName(v) && IsName(w)
    ensures Piece([Word(v), Word(w)])
  {
    WordPiece(v);
    WordPiece(w);
    PieceConcat([Word(v)], [Word(w)]);
    assert [Word(v)] + [Word(w)] == [Word(v), Word(w)];
  }

  lemma ZoneNames()
    ensures IsName("WITH") && IsName("LOCAL")
  {
  }

  lemma MoreZoneNames()
    ensures IsName("TIME") && IsName("ZONE")
  {
  }

  lemma PlainNames()
    ensures IsName("BOOLEAN") && IsName("DECIMAL") && IsName("DATE")
  {
  }

  lemma DoubleNames()
    ensures IsName("DOUBLE") && IsName("PRECISION")
  {
  }

  lemma OtherNames()
    ensures IsName("CHAR") && IsName("VARCHAR") && IsName("GEOMETRY") && IsName("HASHTYPE")
  {
  }

  lemma IntervalNames()
    ensures IsName("YEAR") && IsName("MONTH") && IsName("DAY") && IsName("SECOND")
  {
  }

  lemma LocalZonePiece()
    ensures Piece(LocalZone())
  {
    ZoneNames();
    MoreZoneNames();
    WordsPiece("WITH", "LOCAL");
    WordsPiece("TIME", "ZONE");
    PieceConcat([Word("WITH"), Word("LOCAL")], [Word("TIME"), Word("ZONE")]);
    assert LocalZone() == [Word("WITH"), Word("LOCAL")] + [Word("TIME"), Word("ZONE")];
  }

  lemma NamedPiece(w: string, rest: seq<Tok>)
    requires IsName(w) && Piece(rest)
    ensures IsType([Word(w)] + rest)
  {
    WordPiece(w);
    PieceConcat([Word(w)], rest);
  }

  lemma TimestampIsType(p: nat, rest: seq<Tok>)
    requires Piece(rest)
    ensures IsType([Word("TIMESTAMP")] + PrecisionTokens(p) + rest)
  {
    SizedPiece(p);
    assert Piece([]);
    PieceConcat(PrecisionTokens(p), rest);
    assert IsName("TIMESTAMP");
    NamedPiece("TIMESTAMP", PrecisionTokens(p) + rest);
    assert [Word("TIMESTAMP")] + PrecisionTokens(p) + rest == [Word("TIMESTAMP")] + (PrecisionTokens(p) + rest);
  }

  lemma CharacterIsType(w: string, size: nat, ascii: bool)
    requires IsName(w)
    ensures IsType([Word(w)] + Sized(size) + CharacterSetTokens(ascii))
  {
    SizedPiece(size);
    WordPiece("ASCII");
    assert Piece([]);
    PieceConcat(Sized(size), CharacterSetTokens(ascii));
    NamedPiece(w, Sized(size) + CharacterSetTokens(ascii));
    assert [Word(w)] + Sized(size) + CharacterSetTokens(ascii) == [Word(w)] + (Sized(size) + CharacterSetTokens(ascii));
  }

  lemma IntervalIsType(w: string, p: nat, v: string, rest: seq<Tok>)
    requires IsName(w) && IsName(v) && Piece(rest)
    ensures IsType([Word("INTERVAL"), Word(w)] + Sized(p) + [Word("TO"), Word(v)] + rest)
  {
    WordsPiece("INTERVAL", w);
    SizedPiece(p);
    WordsPiece("TO", v);
    PieceConcat([Word("INTERVAL"), Word(w)], Sized(p));
    PieceConcat([Word("INTERVAL"), Word(w)] + Sized(p), [Word("TO"), Word(v)]);
    PieceConcat([Word("INTERVAL"), Word(w)] + Sized(p) + [Word("TO"), Word(v)], rest);
  }

  lemma PlainIsType(t: ExasolType)
    requires t.Boolean? || t.DoublePrecision? || t.Date? || t.Decimal?
    ensures IsType(TypeTokens(t))
  {
    PlainNames();
    DoubleNames();
    match t
    case Boolean => WordPiece("BOOLEAN");
    case DoublePrecision => WordsPiece("DOUBLE", "PRECISION");
    case Date => WordPiece("DATE");
    case Decimal(p, s) =>
      var rest := [LP, Num(NatText(p)), Comma, Num(NatText(s)), RP];
      PairPiece(p, s);
      NamedPiece("DECIMAL", rest);
      assert TypeTokens(t) == [Word("DECIMAL")] + rest;
  }

  lemma GeometryIsType(n: nat)
    ensures IsType(TypeTokens(Geometry(n)))
  {
    OtherNames();
    SizedPiece(n);
    NamedPiece("GEOMETRY", Sized(n));
  }

  lemma HashtypeIsType(n: nat)
    ensures IsType(TypeTokens(Hashtype(n)))
  {
    OtherNames();
    var rest := [LP, Num(NatText(n)), Word("BYTE"), RP];
    BytesPiece(n);
    NamedPiece("HASHTYPE", rest);
    assert TypeTokens(Hashtype(n)) == [Word("HASHTYPE")] + rest;
  }

  lemma TokensAreType(t: ExasolType)
    ensures IsType(TypeTokens(t))
  {
    match t
    case Timestamp(p) =>
      assert Piece([]);
      TimestampIsType(p, []);
      assert TypeTokens(t) == [Word("TIMESTAMP")] + PrecisionTokens(p) + [];
    case TimestampWithLocalTimeZone(p) =>
      LocalZonePiece();
      TimestampIsType(p, LocalZone());
    case Char(size, ascii) =>
      OtherNames();
      CharacterIsType("CHAR", size, ascii);
    case Varchar(size, ascii) =>
      OtherNames();
      CharacterIsType("VARCHAR", size, ascii);
    case IntervalYearToMonth(p) =>
      assert Piece([]);
      IntervalNames();
      IntervalIsType("YEAR", p, "MONTH", []);
      assert TypeTokens(t) == [Word("INTERVAL"), Word("YEAR")] + Sized(p) + [Word("TO"), Word("MONTH")] + [];
    case IntervalDayToSecond(p, f) =>
      SizedPiece(f);
      IntervalNames();
      IntervalIsType("DAY", p, "SECOND", Sized(f));
    case Geometry(srid) => GeometryIsType(srid);
    case Hashtype(bytes) => HashtypeIsType(bytes);
    case _ => PlainIsType(t);
  }

  lemma {:induction false} TypeBones(ty: seq<Tok>)
    ensures TypeToks(false, ty, []) == ty
  {
    if ty != [] {
      TypeBones(ty[1..]);
      assert [ty[0]] + ty[1..] == ty;
    }
  }

  /** The spelling of every type reads back as that type, so distinct types never print alike. */
  lemma DisplayReadsBack(t: ExasolType)
    ensures ReadDisplay(Display(t)) == Some(t)
  {
    var ty := TypeTokens(t);
    TokensAreType(t);
    LaysType(ty, [], [], true);
    LexFlatten(TypeToks(true, ty, []));
    TypeBones(ty);
    LexSpace(Display(t));
    var rest := TypeToks(true, ty[1..], []);
    var all := [Sp] + ([ty[0]] + rest);
    assert all[1..] == [ty[0]] + rest && ([ty[0]] + rest)[1..] == rest;
    assert Flatten(all) == " " + (Spell(ty[0]) + Flatten(rest));
    TokensReadBack(t);
  }
}
