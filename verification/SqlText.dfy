/**
 The characters of a rendered SQL fragment: its tokens, how each is spelled, and a reference lexer.

 The renderer writes a fragment as a list of tokens, the spaces it writes included. The lexer reads
 the characters with no knowledge of that list. `LexFlatten` says that it finds the same tokens.
 */
module SqlText {
  import opened Common

  datatype Symbol =
    | EqSym | NeSym | LtSym | LeSym | GtSym | GeSym
    | PlusSym | MinusSym | StarSym | SlashSym | PercentSym | BarsSym

  /** The words the grammar reserves. */
  datatype Keyword =
    | KNull | KTrue | KFalse | KNot | KAnd | KOr | KIs | KIn | KBetween | KLike | KEscape
    | KCase | KWhen | KThen | KElse | KEnd | KCast | KExtract | KAs | KFrom

  datatype Tok =
    | Sp
    | LP
    | RP
    | Comma
    | Dot
    | Sym(sym: Symbol)
    | Kw(kw: Keyword)
    | Word(w: string)
    | Num(n: string)
    | Str(s: string)
    | Ident(id: string)
    | Raw(s: string)

  // ----- quoting

  /** Every quote character doubled, as `sql_escape` and `quote_ident` write it. */
  function Escaped(s: string, q: char): (r: string)
  {
    if s == "" then ""
    else if s[0] == q then [q, q] + Escaped(s[1..], q)
    else [s[0]] + Escaped(s[1..], q)
  }

  /**
   Reads quoted text from just after its opening quote: the text meant, and the number of
   characters read, the closing quote included. A doubled quote stands for one.
   */
  function ReadQuoted(s: string, q: char): (r: Option<(string, nat)>)
    ensures r.Some? ==> 1 <= r.value.1 <= |s|
  {
    if s == "" then None
    else if s[0] == q && (|s| == 1 || s[1] != q) then Some(("", 1))
    else
      var k := if s[0] == q then 2 else 1;
      match ReadQuoted(s[k..], q)
      case None => None
      case Some((body, n)) => Some(([s[0]] + body, n + k))
  }

  /** Quoting is undone exactly if the text that follows does not itself open with the quote. */
  lemma {:induction false} QuotingReadsBack(s: string, q: char, rest: string)
    ensures ReadQuoted(Escaped(s, q) + [q] + rest, q) == Some((s, |Escaped(s, q)| + 1))
       <==> rest == "" || rest[0] != q
  {
    var text := Escaped(s, q) + [q] + rest;
    if s == "" {
      assert text == [q] + rest;
    } else {
      var k := if s[0] == q then 2 else 1;
      assert text[k..] == Escaped(s[1..], q) + [q] + rest;
      QuotingReadsBack(s[1..], q, rest);
      var tail := ReadQuoted(text[k..], q);
      assert [s[0]] + s[1..] == s;
      if tail.Some? {
        assert ([s[0]] + tail.value.0)[1..] == tail.value.0;
      }
    }
  }

  /** What is read between quotes was written with its quotes doubled. */
  lemma {:induction false} ReadQuotedSpells(s: string, q: char)
    requires ReadQuoted(s, q).Some?
    ensures var (body, n) := ReadQuoted(s, q).value; s[..n] == Escaped(body, q) + [q]
  {
    if !(s[0] == q && (|s| == 1 || s[1] != q)) {
      var k := if s[0] == q then 2 else 1;
      ReadQuotedSpells(s[k..], q);
      var (tail, n) := ReadQuoted(s[k..], q).value;
      assert ([s[0]] + tail)[1..] == tail;
      assert s[..n + k] == s[..k] + s[k..][..n];
    }
  }

  function Count(s: string, q: char): (n: nat)
    ensures n <= |s|
    ensures n > 0 <==> q in s
  {
    if s == "" then 0 else (if s[0] == q then 1 else 0) + Count(s[1..], q)
  }

  lemma {:induction false} CountConcat(a: string, b: string, q: char)
    ensures Count(a + b, q) == Count(a, q) + Count(b, q)
  {
    if a == "" {
      assert a + b == b;
    } else {
      assert (a + b)[1..] == a[1..] + b;
      CountConcat(a[1..], b, q);
    }
  }

  lemma {:induction false} CountEscaped(s: string, q: char)
    ensures Count(Escaped(s, q), q) == 2 * Count(s, q) && |Escaped(s, q)| == |s| + Count(s, q)
  {
    if s != "" {
      CountEscaped(s[1..], q);
      CountConcat(if s[0] == q then [q, q] else [s[0]], Escaped(s[1..], q), q);
      assert [q, q][1..] == [q] && [q][1..] == "" && [s[0]][1..] == "";
    }
  }

  /** Text between quotes with a quote of its own, not doubled, is never read as that text. */
  lemma RawNeverReads(s: string, q: char, rest: string)
    requires q in s && (rest == "" || rest[0] != q)
    ensures var r := ReadQuoted(s + [q] + rest, q); r.None? || r.value.0 != s
  {
    hide ReadQuoted, Escaped, Count;
    var text := s + [q] + rest;
    var r := ReadQuoted(text, q);
    if r.Some? && r.value.0 == s {
      ReadQuotedSpells(text, q);
      CountEscaped(s, q);
      var c := Count(s, q);
      assert text[..|s| + c + 1] == s + [q] + rest[..c];
      CountConcat(Escaped(s, q), [q], q);
      CountConcat(s + [q], rest[..c], q);
      CountConcat(s, [q], q);
      FewerQuotes(rest[..c], q);
    }
  }

  lemma FewerQuotes(s: string, q: char)
    requires s != "" && s[0] != q
    ensures Count(s, q) < |s|
  {
  }

  // ----- spelling

  function SymText(y: Symbol): (r: string)
  {
    match y
    case EqSym => "="
    case NeSym => "<>"
    case LtSym => "<"
    case LeSym => "<="
    case GtSym => ">"
    case GeSym => ">="
    case PlusSym => "+"
    case MinusSym => "-"
    case StarSym => "*"
    case SlashSym => "/"
    case PercentSym => "%"
    case BarsSym => "||"
  }

  function KwText(k: Keyword): (r: string)
  {
    match k
    case KNull => "NULL"
    case KTrue => "TRUE"
    case KFalse => "FALSE"
    case KNot => "NOT"
    case KAnd => "AND"
    case KOr => "OR"
    case KIs => "IS"
    case KIn => "IN"
    case KBetween => "BETWEEN"
    case KLike => "LIKE"
    case KEscape => "ESCAPE"
    case KCase => "CASE"
    case KWhen => "WHEN"
    case KThen => "THEN"
    case KElse => "ELSE"
    case KEnd => "END"
    case KCast => "CAST"
    case KExtract => "EXTRACT"
    case KAs => "AS"
    case KFrom => "FROM"
  }

  function KeywordOf(w: string): (r: Option<Keyword>)
  {
    if w == "NULL" then Some(KNull)
    else if w == "TRUE" then Some(KTrue)
    else if w == "FALSE" then Some(KFalse)
    else if w == "NOT" then Some(KNot)
    else if w == "AND" then Some(KAnd)
    else if w == "OR" then Some(KOr)
    else if w == "IS" then Some(KIs)
    else if w == "IN" then Some(KIn)
    else if w == "BETWEEN" then Some(KBetween)
    else if w == "LIKE" then Some(KLike)
    else if w == "ESCAPE" then Some(KEscape)
    else if w == "CASE" then Some(KCase)
    else if w == "WHEN" then Some(KWhen)
    else if w == "THEN" then Some(KThen)
    else if w == "ELSE" then Some(KElse)
    else if w == "END" then Some(KEnd)
    else if w == "CAST" then Some(KCast)
    else if w == "EXTRACT" then Some(KExtract)
    else if w == "AS" then Some(KAs)
    else if w == "FROM" then Some(KFrom)
    else None
  }

  lemma KeywordReadsBack(k: Keyword)
    ensures KeywordOf(KwText(k)) == Some(k)
  {
  }

  function Spell(t: Tok): (r: string)
  {
    match t
    case Sp => " "
    case LP => "("
    case RP => ")"
    case Comma => ","
    case Dot => "."
    case Sym(y) => SymText(y)
    case Kw(k) => KwText(k)
    case Word(w) => w
    case Num(n) => n
    case Str(s) => "'" + Escaped(s, '\'') + "'"
    case Ident(s) => "\"" + Escaped(s, '\"') + "\""
    // Text that holds its quote as it stands, not doubled.
    case Raw(s) => "'" + s + "'"
  }

  function Flatten(ts: seq<Tok>): (r: string)
  {
    if ts == [] then "" else Spell(ts[0]) + Flatten(ts[1..])
  }

  function NoSp(ts: seq<Tok>): (r: seq<Tok>)
  {
    if ts == [] then []
    else if ts[0] == Sp then NoSp(ts[1..])
    else [ts[0]] + NoSp(ts[1..])
  }

  // ----- the reference lexer

  predicate IsWordStart(c: char) { IsUpper(c) || IsLower(c) || c == '_' }

  predicate IsWordChar(c: char) { IsWordStart(c) || IsDigit(c) }

  predicate IsWord(w: string)
  {
    w != "" && IsWordStart(w[0]) && forall i :: 0 <= i < |w| ==> IsWordChar(w[i])
  }

  /** A word the grammar does not reserve. */
  predicate IsName(w: string)
  {
    IsWord(w) && KeywordOf(w).None?
  }

  /** Whether `c` goes on a numeral; a sign does so only straight after the exponent's `e`. */
  predicate GoesOnNumeral(c: char, afterE: bool)
  {
    IsWordChar(c) || c == '.' || (afterE && (c == '+' || c == '-'))
  }

  function NumLen(s: string, afterE: bool): (n: nat)
    ensures n <= |s|
  {
    if s == "" || !GoesOnNumeral(s[0], afterE) then 0
    else 1 + NumLen(s[1..], s[0] == 'e' || s[0] == 'E')
  }

  /** An unsigned numeral: the lexer reads all of it as one token. */
  predicate IsNumeral(n: string)
  {
    n != "" && IsDigit(n[0]) && NumLen(n, false) == |n|
  }

  function WordTok(w: string): (t: Tok)
  {
    match KeywordOf(w)
    case Some(k) => Kw(k)
    case None => Word(w)
  }

  function WordLen(s: string): (n: nat)
    ensures n <= |s|
  {
    if s == "" || !IsWordChar(s[0]) then 0 else 1 + WordLen(s[1..])
  }

  function LexSymbol(s: string): (r: Option<(Tok, nat)>)
    requires s != ""
    ensures r.Some? ==> 1 <= r.value.1 <= |s|
  {
    var next := if |s| > 1 then s[1] else ' ';
    if s[0] == '<' then
      if next == '>' then Some((Sym(NeSym), 2))
      else if next == '=' then Some((Sym(LeSym), 2))
      else Some((Sym(LtSym), 1))
    else if s[0] == '>' then
      if next == '=' then Some((Sym(GeSym), 2)) else Some((Sym(GtSym), 1))
    else if s[0] == '|' then
      if next == '|' then Some((Sym(BarsSym), 2)) else None
    else if s[0] == '-' then
      // Two dashes open a comment that swallows the rest of the line.
      if next == '-' then None else Some((Sym(MinusSym), 1))
    else if s[0] == '/' then
      if next == '*' then None else Some((Sym(SlashSym), 1))
    else if s[0] == '=' then Some((Sym(EqSym), 1))
    else if s[0] == '+' then Some((Sym(PlusSym), 1))
    else if s[0] == '*' then Some((Sym(StarSym), 1))
    else if s[0] == '%' then Some((Sym(PercentSym), 1))
    else None
  }

  /** The token at the head of the text, and how many characters it takes. */
  function NextTok(s: string): (r: Option<(Tok, nat)>)
    requires s != ""
    ensures r.Some? ==> 1 <= r.value.1 <= |s|
  {
    var c := s[0];
    if IsWordStart(c) then Some((WordTok(s[..WordLen(s)]), WordLen(s)))
    else if IsDigit(c) then Some((Num(s[..NumLen(s, false)]), NumLen(s, false)))
    else if c == '\'' || c == '\"' then
      match ReadQuoted(s[1..], c)
      case None => None
      case Some((body, n)) => Some((if c == '\'' then Str(body) else Ident(body), 1 + n))
    else if c == '(' then Some((LP, 1))
    else if c == ')' then Some((RP, 1))
    else if c == ',' then Some((Comma, 1))
    else if c == '.' then Some((Dot, 1))
    else LexSymbol(s)
  }

  function Lex(s: string): (r: Option<seq<Tok>>)
  {
    if s == "" then Some([])
    else if s[0] == ' ' then Lex(s[1..])
    else
      match NextTok(s)
      case None => None
      case Some((t, k)) =>
        match Lex(s[k..])
        case None => None
        case Some(ts) => Some([t] + ts)
  }

  // ----- which token lists the lexer recovers

  predicate IsSepChar(c: char) { c == ' ' || c == '(' || c == ')' || c == ',' }

  predicate IsSep(t: Tok) { t == Sp || t == LP || t == RP || t == Comma }

  /** No lexer rule joins `u` to `t` when it is written right behind it. */
  predicate Apart(t: Tok, u: Tok)
  {
    || IsSep(t)
    || IsSep(u)
    || (t.Ident? && u.Dot?)
    || (t.Dot? && u.Ident?)
    || (t == Sym(MinusSym) && u != Sym(MinusSym))
  }

  predicate ValidTok(t: Tok)
  {
    (t.Word? ==> IsName(t.w)) && (t.Num? ==> IsNumeral(t.n)) && !t.Raw?
  }

  /** Every token is well spelled and keeps apart from the next. */
  predicate Spaced(ts: seq<Tok>)
  {
    ts != [] ==> ValidTok(ts[0]) && (|ts| > 1 ==> Apart(ts[0], ts[1])) && Spaced(ts[1..])
  }

  lemma {:induction false} WordLenPrefix(w: string, rest: string)
    requires forall i :: 0 <= i < |w| ==> IsWordChar(w[i])
    requires rest == "" || !IsWordChar(rest[0])
    ensures WordLen(w + rest) == |w|
  {
    if w == "" {
      assert w + rest == rest;
    } else {
      assert (w + rest)[1..] == w[1..] + rest;
      WordLenPrefix(w[1..], rest);
    }
  }

  lemma {:induction false} NumLenPrefix(n: string, afterE: bool, rest: string)
    requires NumLen(n, afterE) == |n|
    requires rest == "" || IsSepChar(rest[0])
    ensures NumLen(n + rest, afterE) == |n|
  {
    if n == "" {
      assert n + rest == rest;
    } else {
      assert (n + rest)[1..] == n[1..] + rest;
      NumLenPrefix(n[1..], n[0] == 'e' || n[0] == 'E', rest);
    }
  }

  lemma SymbolSpelled(y: Symbol, rest: string)
    requires rest == "" || IsSepChar(rest[0]) || (y == MinusSym && rest[0] != '-')
    ensures SymText(y) != "" && NextTok(SymText(y) + rest) == Some((Sym(y), |SymText(y)|))
  {
    var s := SymText(y) + rest;
    if |SymText(y)| == 1 && rest != "" {
      assert s[1] == rest[0];
    }
  }

  lemma WordSpelled(w: string, rest: string)
    requires IsWord(w)
    requires rest == "" || IsSepChar(rest[0])
    ensures NextTok(w + rest) == Some((WordTok(w), |w|))
  {
    WordLenPrefix(w, rest);
    assert (w + rest)[..|w|] == w;
  }

  lemma KeywordSpelled(k: Keyword, rest: string)
    requires rest == "" || IsSepChar(rest[0])
    ensures NextTok(KwText(k) + rest) == Some((Kw(k), |KwText(k)|))
  {
    KeywordIsWord(k);
    WordSpelled(KwText(k), rest);
    KeywordReadsBack(k);
  }

  lemma KeywordIsWord(k: Keyword)
    ensures IsWord(KwText(k))
  {
  }

  lemma NumeralSpelled(n: string, rest: string)
    requires IsNumeral(n)
    requires rest == "" || IsSepChar(rest[0])
    ensures NextTok(n + rest) == Some((Num(n), |n|))
  {
    NumLenPrefix(n, false, rest);
    assert (n + rest)[..|n|] == n;
  }

  lemma QuotedSpelled(body: string, q: char, rest: string)
    requires q == '\'' || q == '\"'
    requires rest == "" || rest[0] != q
    ensures NextTok([q] + Escaped(body, q) + [q] + rest)
            == Some((if q == '\'' then Str(body) else Ident(body), |Escaped(body, q)| + 2))
  {
    hide Escaped, ReadQuoted, WordTok, LexSymbol;
    var s := [q] + Escaped(body, q) + [q] + rest;
    QuotingReadsBack(body, q, rest);
    assert s[1..] == Escaped(body, q) + [q] + rest;
  }

  /** What may be written right behind a token: nothing, a separator, or what joins to nothing. */
  predicate MayFollow(t: Tok, rest: string)
  {
    || rest == ""
    || IsSepChar(rest[0])
    || (t.Ident? && rest[0] == '.')
    || IsSep(t)
    || t.Dot?
    || (t == Sym(MinusSym) && rest[0] != '-')
  }

  /** The lexer takes one token off the head of any text that keeps apart from it. */
  lemma NextTokSpelled(t: Tok, rest: string)
    requires ValidTok(t) && t != Sp && MayFollow(t, rest)
    ensures NextTok(Spell(t) + rest) == Some((t, |Spell(t)|))
  {
    hide NextTok, Escaped, SymText, KwText, IsName, IsNumeral;
    match t
    case Word(w) =>
      NameIsWord(w);
      WordSpelled(w, rest);
    case Kw(k) => KeywordSpelled(k, rest);
    case Num(n) => NumeralSpelled(n, rest);
    case Str(body) => QuotedSpelled(body, '\'', rest);
    case Ident(body) => QuotedSpelled(body, '\"', rest);
    case Sym(y) => SymbolSpelled(y, rest);
    case LP => MarkSpelled(t, rest);
    case RP => MarkSpelled(t, rest);
    case Comma => MarkSpelled(t, rest);
    case Dot => MarkSpelled(t, rest);
  }

  lemma NameIsWord(w: string)
    requires IsName(w)
    ensures IsWord(w) && WordTok(w) == Word(w)
  {
  }

  lemma MarkSpelled(t: Tok, rest: string)
    requires t.LP? || t.RP? || t.Comma? || t.Dot?
    ensures NextTok(Spell(t) + rest) == Some((t, |Spell(t)|))
  {
  }

  lemma SpellHead(t: Tok)
    requires ValidTok(t)
    ensures Spell(t) != ""
    ensures IsSep(t) ==> IsSepChar(Spell(t)[0])
    ensures t.Dot? ==> Spell(t)[0] == '.'
    ensures !IsSep(t) ==> Spell(t)[0] != ' '
    ensures t != Sym(MinusSym) ==> Spell(t)[0] != '-'
  {
    if t.Kw? {
      KeywordIsWord(t.kw);
    }
  }

  /** Two minus signs written next to each other open a comment. */
  predicate Dashes(t: Tok, u: Tok)
  {
    t == Sym(MinusSym) && u == Sym(MinusSym)
  }

  /** Like `Spaced`, but two minus signs may touch. */
  predicate Loose(ts: seq<Tok>)
  {
    ts != [] ==>
      && ValidTok(ts[0])
      && (|ts| > 1 ==> Apart(ts[0], ts[1]) || Dashes(ts[0], ts[1]))
      && Loose(ts[1..])
  }

  /**
   The characters of a token list are read back as exactly its tokens when no two minus signs
   touch, and are not read at all when two do.
   */
  lemma {:induction false} LexFlatten(ts: seq<Tok>)
    requires Loose(ts)
    ensures Lex(Flatten(ts)) == if Spaced(ts) then Some(NoSp(ts)) else None
  {
    if ts != [] {
      LexFlatten(ts[1..]);
      if ts[0] == Sp {
        LexSpace(Flatten(ts[1..]));
      } else if |ts| > 1 && !Apart(ts[0], ts[1]) {
        LexTouching(ts[1..]);
      } else {
        LexApart(ts[0], ts[1..]);
      }
    }
  }

  lemma ApartMayFollow(t: Tok, u: Tok, rest: string)
    requires ValidTok(u) && Apart(t, u)
    ensures MayFollow(t, Spell(u) + rest)
  {
    SpellHead(u);
  }

  lemma LexTouching(tail: seq<Tok>)
    requires tail != [] && tail[0] == Sym(MinusSym)
    ensures Lex(Spell(Sym(MinusSym)) + Flatten(tail)) == None
  {
    LexDashes(Flatten(tail[1..]));
    assert Spell(Sym(MinusSym)) + Flatten(tail) == "--" + Flatten(tail[1..]);
  }

  lemma LexSpace(rest: string)
    ensures Lex(" " + rest) == Lex(rest)
  {
    assert (" " + rest)[1..] == rest;
  }

  lemma LexDashes(rest: string)
    ensures Lex("--" + rest) == None
  {
  }

  lemma LexApart(t: Tok, tail: seq<Tok>)
    requires ValidTok(t) && t != Sp && Loose(tail)
    requires tail != [] ==> Apart(t, tail[0])
    ensures Lex(Spell(t) + Flatten(tail)) ==
            match Lex(Flatten(tail)) case None => None case Some(ts) => Some([t] + ts)
  {
    var rest := Flatten(tail);
    var s := Spell(t) + rest;
    if tail != [] {
      ApartMayFollow(t, tail[0], Flatten(tail[1..]));
    }
    SpellHead(t);
    NextTokSpelled(t, rest);
    assert s[|Spell(t)|..] == rest;
    LexStep(s, t, |Spell(t)|);
  }

  lemma LexStep(s: string, t: Tok, k: nat)
    requires s != "" && s[0] != ' ' && NextTok(s) == Some((t, k))
    ensures Lex(s) == match Lex(s[k..]) case None => None case Some(ts) => Some([t] + ts)
  {
  }

  // ----- the lexer yields well-spelled tokens only

  predicate AllValid(ts: seq<Tok>) { forall i :: 0 <= i < |ts| ==> ValidTok(ts[i]) }

  lemma {:induction false} WordLenWord(s: string)
    ensures forall i :: 0 <= i < WordLen(s) ==> IsWordChar(s[i])
  {
    if s != "" && IsWordChar(s[0]) {
      WordLenWord(s[1..]);
      forall i | 0 < i < WordLen(s) ensures IsWordChar(s[i]) {
        assert s[i] == s[1..][i - 1];
      }
    }
  }

  lemma {:induction false} NumLenNumeral(s: string, afterE: bool)
    ensures NumLen(s[..NumLen(s, afterE)], afterE) == NumLen(s, afterE)
  {
    var n := NumLen(s, afterE);
    if n > 0 {
      NumLenNumeral(s[1..], s[0] == 'e' || s[0] == 'E');
      assert s[..n][1..] == s[1..][..n - 1];
    }
  }

  lemma NextTokValid(s: string)
    requires s != "" && NextTok(s).Some?
    ensures ValidTok(NextTok(s).value.0)
  {
    hide ReadQuoted, LexSymbol, KeywordOf;
    if IsWordStart(s[0]) {
      WordLenWord(s);
    } else if IsDigit(s[0]) {
      NumLenNumeral(s, false);
    } else if LexSymbol(s).Some? {
      SymbolIsValid(s);
    }
  }

  lemma SymbolIsValid(s: string)
    requires s != "" && LexSymbol(s).Some?
    ensures ValidTok(LexSymbol(s).value.0)
  {
  }

  lemma {:induction false} LexValid(s: string)
    requires Lex(s).Some?
    ensures AllValid(Lex(s).value)
  {
    hide NextTok, ValidTok;
    if s != "" {
      if s[0] == ' ' {
        LexValid(s[1..]);
      } else {
        NextTokValid(s);
        LexValid(s[NextTok(s).value.1..]);
      }
    }
  }
}
