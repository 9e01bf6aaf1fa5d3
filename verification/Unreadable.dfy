/** The shapes whose text does not read back as the tree that was written, each with a concrete node. */
module Unreadable {
  import opened Common
  import opened SqlTree
  import opened SqlText
  import opened Wire
  import opened Renderer
  import opened RenderReads
  import Names
  import SqlUnique

  /** The node renders, and its text does not read back. */
  predicate Misread(d: Dialect, n: Node)
  {
    && Render(d, n).Ok? && Render(d, n).value.Some?
    && var e := Render(d, n).value.value; Read(Show(e)) != Some(e)
  }

  lemma UncleanIsMisread(d: Dialect, n: Node)
    requires Render(d, n).Ok? && Render(d, n).value.Some? && !Clean(d, n)
    ensures Misread(d, n)
  {
    hide Render, Clean, Read, Show;
    RenderingReadsBack(d, n);
  }

  /** A date literal without a value goes out as `DATE NULL`. */
  lemma NullDateIsMisread(d: Dialect)
    ensures Misread(d, LitDate(NoValue))
  {
    hide Misread;
    UncleanIsMisread(d, LitDate(NoValue));
  }

  /** A CASE with an ELSE alone goes out without a WHEN. */
  lemma BareCaseIsMisread(d: Dialect)
    ensures Misread(d, CaseNode(Absent, [], [LitNull]))
  {
    hide Misread;
    var n := CaseNode(Absent, [], [LitNull]);
    assert Need(d, LitNull) == Ok(SqlNull);
    assert [LitNull][1..] == [];
    assert NeedAll(d, [LitNull]) == Ok([SqlNull] + []);
    UncleanIsMisread(d, n);
  }

  /** The negation of minus five goes out as `(--5)`, and the rest is a comment. */
  lemma DoubledMinusIsMisread(d: Dialect)
    ensures Misread(d, Wire.Scalar(NegFn, [LitExact(Number("-5"))]))
  {
    hide Misread, Apply, ApplyDf;
    var m := LitExact(Number("-5"));
    assert Need(d, m) == Ok(Neg(SqlNum("-5"[1..])));
    NegRenders(d, m);
    UncleanIsMisread(d, Wire.Scalar(NegFn, [m]));
  }

  lemma NegRenders(d: Dialect, m: Node)
    requires Need(d, m).Ok? && StartsWithMinus(d, m)
    ensures var n := Wire.Scalar(NegFn, [m]); Render(d, n) == Ok(Some(Paren(Neg(Need(d, m).value)))) && !Clean(d, n)
  {
    hide Need, ApplyDf, StartsWithMinus;
    var e := Need(d, m).value;
    assert [m][1..] == [] && Taken([m], Used(d, NegFn, 1)) == [m];
    assert NeedAll(d, []) == Ok([]);
    assert NeedAll(d, [m]) == Ok([e] + []);
    CleanArguments(d, NegFn, [m]);
  }

  /** A number's text is written as it stands, so one that is no numeral is not read as a number. */
  lemma RawNumberIsMisread(d: Dialect)
    ensures Misread(d, LitExact(Text("1 2")))
  {
    hide Misread, NumLen;
    assert !IsNumeral("1 2") by { OneIsRead("1 2"); }
    UncleanIsMisread(d, LitExact(Text("1 2")));
  }

  lemma OneIsRead(s: string)
    requires |s| > 1 && s[0] == '1' && s[1] == ' '
    ensures NumLen(s, false) == 1
  {
    assert s[1..][0] == ' ';
  }

  /** In the Exasol dialect a field that is no name goes out as it stands. */
  lemma RawFieldIsMisread(arg: Node)
    requires Need(Exasol, arg).Ok?
    ensures Misread(Exasol, ExtractNode("a b", [arg]))
  {
    hide Misread, Need, Clean;
    assert Upper("a b")[1] == ' ';
    FieldUnclean(Exasol, "a b", arg);
    UncleanIsMisread(Exasol, ExtractNode("a b", [arg]));
  }

  lemma FieldUnclean(d: Dialect, field: string, arg: Node)
    requires if d.Exasol? then !IsName(Upper(field)) else '\'' in field
    ensures !Clean(d, ExtractNode(field, [arg]))
  {
  }

  // ----- a quote in a DataFusion field

  /** A field between quotes goes out as it stands, whatever it holds. */
  lemma UnescapedText(s: string)
    ensures Show(Unescaped(s)) == "'" + s + "'"
  {
    var t := if '\'' in s then Raw(s) else Str(s);
    assert Toks(true, Unescaped(s), []) == [t] + [];
    FlattenCons(t, []);
    if '\'' !in s {
      EscapedAlone(s, '\'');
    }
  }

  lemma {:induction false} EscapedAlone(s: string, q: char)
    requires q !in s
    ensures Escaped(s, q) == s
  {
    if s != "" {
      EscapedAlone(s[1..], q);
      assert s == [s[0]] + s[1..];
    }
  }

  /**
   In the DataFusion dialect no field with a quote reads back: neither as the tree that was
   written nor as the call that was meant.
   */
  lemma QuotedFieldIsMisread(field: string, arg: Node)
    requires '\'' in field && Need(DataFusion, arg).Ok?
    ensures var n, x := ExtractNode(field, [arg]), Need(DataFusion, arg).value;
      && Render(DataFusion, n) == Ok(Some(Call("date_part", [RawStr(Upper(field)), x])))
      && Misread(DataFusion, n)
      && Read(Show(Call("date_part", [RawStr(Upper(field)), x])))
         != Some(Call("date_part", [SqlStr(Upper(field)), x]))
  {
    hide Misread, Need, Clean, Read, Show;
    var n, x := ExtractNode(field, [arg]), Need(DataFusion, arg).value;
    QuotesInUpper(field);
    FieldUnclean(DataFusion, field, arg);
    UncleanIsMisread(DataFusion, n);
    RawCallNeverReads(Upper(field), x);
  }

  lemma RawCallNeverReads(s: string, x: Sql)
    requires '\'' in s
    ensures Read(Show(Call("date_part", [RawStr(s), x]))) != Some(Call("date_part", [SqlStr(s), x]))
  {
    hide Read, Lex, Toks, ListToks;
    var meant := Call("date_part", [SqlStr(s), x]);
    var text := Show(Call("date_part", [RawStr(s), x]));
    if Read(text) == Some(meant) {
      SqlUnique.ReadSpells(text);
      MeantToks(s, x);
      WrittenText(s, x);
      WrittenLex(s, Flatten([Comma] + ([Sp] + Toks(true, x, [RP]))));
    }
  }

  lemma CallToks(sp: bool, a: Sql, x: Sql)
    ensures Toks(sp, Call("date_part", [a, x]), [])
         == [Word("date_part"), LP] + Toks(sp, a, [Comma] + Gapped(sp, Toks(sp, x, [RP])))
  {
    TwoToks(sp, a, x, [RP]);
    assert [RP] + [] == [RP];
  }

  lemma TwoToks(sp: bool, a: Sql, x: Sql, rest: seq<Tok>)
    ensures ListToks(sp, [a, x], rest) == Toks(sp, a, [Comma] + Gapped(sp, Toks(sp, x, rest)))
  {
    hide Toks;
    assert [a, x][1..] == [x];
    assert ListToks(sp, [x], rest) == Toks(sp, x, rest);
  }

  lemma MeantToks(s: string, x: Sql)
    ensures var ts := Toks(false, Call("date_part", [SqlStr(s), x]), []); |ts| > 2 && ts[2] == Str(s)
  {
    CallToks(false, SqlStr(s), x);
  }

  lemma WrittenText(s: string, x: Sql)
    ensures Show(Call("date_part", [RawStr(s), x]))
         == "date_part(" + ("'" + s + "'" + Flatten([Comma] + ([Sp] + Toks(true, x, [RP]))))
  {
    var more := [Comma] + ([Sp] + Toks(true, x, [RP]));
    CallToks(true, RawStr(s), x);
    RawToks(s, more);
    hide Toks;
    FlattenCons(Word("date_part"), [LP] + ([Raw(s)] + more));
    FlattenCons(LP, [Raw(s)] + more);
    FlattenCons(Raw(s), more);
    assert [Word("date_part"), LP] + ([Raw(s)] + more) == [Word("date_part")] + ([LP] + ([Raw(s)] + more));
  }

  lemma RawToks(s: string, rest: seq<Tok>)
    ensures Toks(true, RawStr(s), rest) == [Raw(s)] + rest
  {
  }

  lemma FlattenCons(t: Tok, ts: seq<Tok>)
    ensures Flatten([t] + ts) == Spell(t) + Flatten(ts)
  {
    assert ([t] + ts)[1..] == ts;
  }

  /** The third token is not the field. */
  lemma WrittenLex(s: string, rest: string)
    requires '\'' in s && rest != "" && rest[0] != '\''
    ensures var r := Lex("date_part(" + ("'" + s + "'" + rest)); r.Some? ==> |r.value| > 2 && r.value[2] != Str(s)
  {
    hide Lex;
    HeadLex("'" + s + "'" + rest);
    QuotedLex(s, rest);
  }

  lemma QuotedLex(s: string, rest: string)
    requires '\'' in s && rest != "" && rest[0] != '\''
    ensures var r := Lex("'" + s + "'" + rest); r.Some? ==> r.value != [] && r.value[0] != Str(s)
  {
    var quoted := "'" + s + "'" + rest;
    assert quoted[1..] == s + ['\''] + rest;
    RawNeverReads(s, '\'', rest);
  }

  /**
   A field with one quote and a word behind it leaves a quote open at the end, so where the operand's
   text holds no quote nothing is read at all.
   */
  lemma StrayQuoteReadsNothing(u: string, w: string, x: Sql)
    requires '\'' !in u && IsWord(w) && '\'' !in Flatten([Comma] + ([Sp] + Toks(true, x, [RP])))
    ensures Read(Show(Call("date_part", [RawStr(u + "'" + w), x]))) == None
  {
    hide Lex, Toks, IsWord;
    var rest := Flatten([Comma] + ([Sp] + Toks(true, x, [RP])));
    var s := u + "'" + w;
    WrittenText(s, x);
    HeadLex("'" + s + "'" + rest);
    assert "'" + s + "'" + rest == "'" + u + "'" + (w + ("'" + rest));
    StrayLex(u, w, rest);
  }

  /** The field `a'b` of a column reads as nothing. */
  lemma OneQuoteIsMisread()
    ensures var n := ExtractNode("a'b", [Column(Some("x"), None)]);
      Misread(DataFusion, n) && Read(Show(Render(DataFusion, n).value.value)) == None
  {
    hide Misread, Read, Show;
    var c := Column(Some("x"), None);
    assert Upper("x") == "X" && Need(DataFusion, c) == Ok(Col(None, Upper("x")));
    assert "a'b"[1] == '\'' && Upper("a'b") == "A" + "'" + "B";
    QuotedFieldIsMisread("a'b", c);
    ColumnText("X");
    StrayQuoteReadsNothing("A", "B", Col(None, "X"));
  }

  lemma ColumnText(name: string)
    requires '\'' !in name
    ensures '\'' !in Flatten([Comma] + ([Sp] + Toks(true, Col(None, name), [RP])))
  {
    FlattenCons(Comma, [Sp] + ([Ident(name)] + [RP]));
    FlattenCons(Sp, [Ident(name)] + [RP]);
    FlattenCons(Ident(name), [RP]);
    FlattenCons(RP, []);
    assert [RP] + [] == [RP];
    EscapedHolds(name, '\"', '\'');
  }

  lemma {:induction false} EscapedHolds(s: string, q: char, c: char)
    requires c !in s && c != q
    ensures c !in Escaped(s, q)
  {
    if s != "" {
      EscapedHolds(s[1..], q, c);
    }
  }

  lemma HeadLex(quoted: string)
    ensures Lex(quoted) == None ==> Lex("date_part(" + quoted) == None
    ensures Lex(quoted).Some? ==>
      Lex("date_part(" + quoted) == Some([Word("date_part"), LP] + Lex(quoted).value)
  {
    hide Lex, NextTok;
    var inner, text := "(" + quoted, "date_part(" + quoted;
    assert text == "date_part" + inner && inner[0] == '(';
    Names.DfWord("date_part");
    NextTokSpelled(Word("date_part"), inner);
    LexStep(text, Word("date_part"), 9);
    assert text[9..] == inner;
    NextTokSpelled(LP, quoted);
    LexStep(inner, LP, 1);
    assert inner[1..] == quoted;
    if Lex(quoted).Some? {
      assert [Word("date_part")] + ([LP] + Lex(quoted).value) == [Word("date_part"), LP] + Lex(quoted).value;
    }
  }

  lemma StrayLex(u: string, w: string, rest: string)
    requires '\'' !in u && IsWord(w) && '\'' !in rest
    ensures Lex("'" + u + "'" + (w + ("'" + rest))) == None
  {
    hide Lex, NextTok, IsWordChar;
    var end := "'" + rest;
    var text := "'" + u + "'" + (w + end);
    EscapedAlone(u, '\'');
    QuotedSpelled(u, '\'', w + end);
    assert text == ['\''] + Escaped(u, '\'') + ['\''] + (w + end);
    LexStep(text, Str(u), |u| + 2);
    assert text[|u| + 2..] == w + end;
    OpenQuote(rest);
    WordNext(w, end);
  }

  lemma WordNext(w: string, end: string)
    requires IsWord(w) && end != "" && end[0] == '\'' && Lex(end) == None
    ensures Lex(w + end) == None
  {
    WordLenPrefix(w, end);
    assert (w + end)[..|w|] == w && (w + end)[|w|..] == end;
  }

  lemma OpenQuote(s: string)
    requires '\'' !in s
    ensures Lex("'" + s) == None
  {
    NeverCloses(s);
    assert ("'" + s)[1..] == s;
  }

  lemma {:induction false} NeverCloses(s: string)
    requires '\'' !in s
    ensures ReadQuoted(s, '\'') == None
  {
    if s != "" {
      NeverCloses(s[1..]);
    }
  }
}
