/**
 The parser invents nothing: a text that reads as a tree has exactly the tree's tokens. So a text
 reads as a readable tree exactly if it differs from the tree's own text in spaces at most.
 */
module SqlUnique {
  import opened Common
  import opened SqlText
  import opened SqlTree
  import opened SqlRead

  /** The tokens read are those of the tree that was read. */
  predicate Spells(ts: seq<Tok>, r: Parsed<Sql>)
  {
    r.Got? ==> ts == Toks(false, r.value, r.rest)
  }

  lemma OpSpelled(t: Tok)
    requires OpOf(t).Some?
    ensures OpTok(OpOf(t).value) == t
  {
  }

  lemma {:induction false} LevelSpells(k: nat, ts: seq<Tok>)
    requires 1 <= k <= 7
    ensures Spells(ts, Level(k, ts))
    decreases |ts|, 8 - k
  {
    hide Primary, Suffix, Tail, Grammatical;
    if k == 7 {
      if ts != [] && ts[0] == Sym(MinusSym) {
        LevelSpells(7, ts[1..]);
        assert ts == [ts[0]] + ts[1..];
      } else {
        PrimarySpells(ts);
      }
    } else if k == 3 && ts != [] && ts[0] == Kw(KNot) {
      LevelSpells(3, ts[1..]);
      assert ts == [ts[0]] + ts[1..];
    } else {
      LevelSpells(k + 1, ts);
      var r := Level(k + 1, ts);
      if r.Got? {
        if k == 4 {
          SuffixSpells(r.value, r.rest);
        } else if k != 3 {
          TailSpells(k, r.value, r.rest);
        }
      }
    }
  }

  lemma {:induction false} TailSpells(k: nat, acc: Sql, ts: seq<Tok>)
    requires k in {1, 2, 5, 6}
    ensures Spells(Toks(false, acc, ts), Tail(k, acc, ts))
    decreases |ts|, 0
  {
    hide Level, Grammatical, Toks, OpTok, OpOf;
    if ts != [] && IsOpAt(k, ts[0]) {
      LevelSpells(k + 1, ts[1..]);
      var r := Level(k + 1, ts[1..]);
      if r.Got? {
        OpSpelled(ts[0]);
        CompareToks(OpOf(ts[0]).value, acc, r.value, r.rest);
        assert ts == [ts[0]] + ts[1..];
        TailSpells(k, Bin(OpOf(ts[0]).value, acc, r.value), r.rest);
      }
    }
  }

  // ----- the tokens of one layer

  lemma CompareToks(op: BinOp, e: Sql, x: Sql, rest: seq<Tok>)
    ensures Toks(false, Bin(op, e, x), rest) == Toks(false, e, [OpTok(op)] + Toks(false, x, rest))
  {
    hide OpTok;
  }

  lemma NullTestToks(e: Sql, rest: seq<Tok>)
    ensures Toks(false, IsNull(e), rest) == Toks(false, e, [Kw(KIs)] + ([Kw(KNull)] + rest))
  {
  }

  lemma NotNullToks(e: Sql, rest: seq<Tok>)
    ensures Toks(false, IsNotNull(e), rest) == Toks(false, e, [Kw(KIs)] + ([Kw(KNot)] + ([Kw(KNull)] + rest)))
  {
  }

  lemma InToks(e: Sql, list: seq<Sql>, rest: seq<Tok>)
    ensures Toks(false, In(e, list), rest)
         == Toks(false, e, [Kw(KIn)] + ([LP] + ListToks(false, list, [RP] + rest)))
  {
  }

  lemma BetweenToks(e: Sql, lo: Sql, hi: Sql, rest: seq<Tok>)
    ensures Toks(false, Between(e, lo, hi), rest)
         == Toks(false, e, [Kw(KBetween)] + Toks(false, lo, [Kw(KAnd)] + Toks(false, hi, rest)))
  {
  }

  lemma LikeToks(e: Sql, pat: Sql, esc: Option<string>, rest: seq<Tok>)
    ensures Toks(false, Like(e, pat, esc), rest)
         == Toks(false, e, [Kw(KLike)] + Toks(false, pat, EscapeToks(false, esc, rest)))
  {
  }

  lemma CaseToks(basis: Option<Sql>, branches: seq<Branch>, els: Option<Sql>, rest: seq<Tok>)
    ensures Toks(false, Case(basis, branches, els), rest)
         == [Kw(KCase)] + BasisToks(false, basis, BranchToks(false, branches,
              ElseToks(false, els, [Kw(KEnd)] + rest)))
  {
  }

  // ----- the parser's other functions

  lemma {:induction false} SuffixSpells(e: Sql, ts: seq<Tok>)
    ensures Spells(Toks(false, e, ts), Suffix(e, ts))
    decreases |ts|, 1
  {
    hide Level, Items, Grammatical, Toks;
    if ts != [] {
      assert ts == [ts[0]] + ts[1..];
      if IsOpAt(4, ts[0]) {
        LevelSpells(5, ts[1..]);
        OpSpelled(ts[0]);
        var r := Level(5, ts[1..]);
        if r.Got? {
          CompareToks(OpOf(ts[0]).value, e, r.value, r.rest);
        }
      } else if ts[0] == Kw(KIs) {
        if |ts| > 1 && ts[1] == Kw(KNull) {
          NullTestToks(e, ts[2..]);
          assert ts == [ts[0]] + ([ts[1]] + ts[2..]);
        } else if |ts| > 2 && ts[1] == Kw(KNot) && ts[2] == Kw(KNull) {
          NotNullToks(e, ts[3..]);
          assert ts == [ts[0]] + ([ts[1]] + ([ts[2]] + ts[3..]));
        }
      } else if ts[0] == Kw(KIn) {
        InSpells(e, ts);
      } else if ts[0] == Kw(KBetween) {
        BetweenSpells(e, ts);
      } else if ts[0] == Kw(KLike) {
        LikeSpells(e, ts);
      }
    }
  }

  lemma {:induction false} InSpells(e: Sql, ts: seq<Tok>)
    requires ts != [] && ts[0] == Kw(KIn)
    ensures Spells(Toks(false, e, ts), Suffix(e, ts))
    decreases |ts|, 0
  {
    hide Level, Items, Grammatical, Toks;
    if |ts| > 1 && ts[1] == LP {
      ItemsSpell(ts[2..]);
      assert ts == [ts[0]] + ([ts[1]] + ts[2..]);
      var r := Items(ts[2..]);
      if r.Got? && r.rest != [] && r.rest[0] == RP {
        assert r.rest == [RP] + r.rest[1..];
        InToks(e, r.value, r.rest[1..]);
      }
    }
  }

  lemma {:induction false} BetweenSpells(e: Sql, ts: seq<Tok>)
    requires ts != [] && ts[0] == Kw(KBetween)
    ensures Spells(Toks(false, e, ts), Suffix(e, ts))
    decreases |ts|, 0
  {
    hide Level, Items, Grammatical, Toks;
    LevelSpells(5, ts[1..]);
    assert ts == [ts[0]] + ts[1..];
    var r := Level(5, ts[1..]);
    if r.Got? && r.rest != [] && r.rest[0] == Kw(KAnd) {
      assert r.rest == [r.rest[0]] + r.rest[1..];
      LevelSpells(5, r.rest[1..]);
      var h := Level(5, r.rest[1..]);
      if h.Got? {
        BetweenToks(e, r.value, h.value, h.rest);
      }
    }
  }

  lemma {:induction false} LikeSpells(e: Sql, ts: seq<Tok>)
    requires ts != [] && ts[0] == Kw(KLike)
    ensures Spells(Toks(false, e, ts), Suffix(e, ts))
    decreases |ts|, 0
  {
    hide Level, Items, Grammatical, Toks;
    LevelSpells(5, ts[1..]);
    assert ts == [ts[0]] + ts[1..];
    var r := Level(5, ts[1..]);
    if r.Got? {
      LikeToks(e, r.value, None, r.rest);
      if |r.rest| > 1 && r.rest[0] == Kw(KEscape) && r.rest[1].Str? {
        LikeToks(e, r.value, Some(r.rest[1].s), r.rest[2..]);
        assert r.rest == [r.rest[0]] + ([r.rest[1]] + r.rest[2..]);
      }
    }
  }

  lemma {:induction false} ItemsSpell(ts: seq<Tok>)
    ensures var r := Items(ts); r.Got? ==> r.value != [] && ts == ListToks(false, r.value, r.rest)
    decreases |ts|, 8
  {
    hide Level, Toks, Grammatical;
    LevelSpells(1, ts);
    var r := Level(1, ts);
    if r.Got? && r.rest != [] && r.rest[0] == Comma {
      ItemsSpell(r.rest[1..]);
      var more := Items(r.rest[1..]);
      if more.Got? {
        assert ([r.value] + more.value)[1..] == more.value;
        assert r.rest == [Comma] + r.rest[1..];
      }
    }
  }

  lemma {:induction false} ArgumentsSpell(ts: seq<Tok>)
    ensures var r := Arguments(ts); r.Got? ==> ts == ListToks(false, r.value, [RP] + r.rest)
    decreases |ts|, 9
  {
    hide Items, Toks, Grammatical;
    if ts != [] && ts[0] == RP {
      assert ts == [RP] + ts[1..];
    } else {
      ItemsSpell(ts);
      var r := Items(ts);
      if r.Got? && r.rest != [] && r.rest[0] == RP {
        assert r.rest == [RP] + r.rest[1..];
      }
    }
  }

  lemma {:induction false} TypeSpells(ts: seq<Tok>, depth: nat)
    ensures var r := TypeOf(ts, depth);
      r.Got? ==> ts == TypeToks(false, r.value, r.rest) && (r.rest != [] ==> r.rest[0] == RP)
    decreases |ts|
  {
    if ts != [] && !(ts[0] == RP && depth == 0) {
      var inner := if ts[0] == LP then depth + 1 else if ts[0] == RP then depth - 1 else depth;
      TypeSpells(ts[1..], inner);
      var r := TypeOf(ts[1..], inner);
      if r.Got? {
        assert ([ts[0]] + r.value)[1..] == r.value;
        assert ts == [ts[0]] + ts[1..];
      }
    }
  }

  lemma {:induction false} CaseBodySpells(ts: seq<Tok>)
    ensures Spells([Kw(KCase)] + ts, CaseBody(ts))
    decreases |ts|, 9
  {
    hide Level, CaseBranches, Toks, Grammatical;
    if ts != [] && ts[0] == Kw(KWhen) {
      CaseBranchesSpell(None, ts);
    } else {
      LevelSpells(1, ts);
      var r := Level(1, ts);
      if r.Got? {
        CaseBranchesSpell(Some(r.value), r.rest);
      }
    }
  }

  lemma {:induction false} CaseBranchesSpell(basis: Option<Sql>, ts: seq<Tok>)
    ensures Spells([Kw(KCase)] + BasisToks(false, basis, ts), CaseBranches(basis, ts))
    decreases |ts|, 8
  {
    hide Level, Branches, Grammatical, BranchToks, BasisToks, Toks;
    BranchesSpell(ts);
    var r := Branches(ts);
    if r.Got? && r.rest != [] {
      assert r.rest == [r.rest[0]] + r.rest[1..];
      CaseToks(basis, r.value, None, r.rest[1..]);
      if r.rest[0] == Kw(KElse) {
        LevelSpells(1, r.rest[1..]);
        var els := Level(1, r.rest[1..]);
        if els.Got? && els.rest != [] && els.rest[0] == Kw(KEnd) {
          assert els.rest == [Kw(KEnd)] + els.rest[1..];
          CaseToks(basis, r.value, Some(els.value), els.rest[1..]);
        }
      }
    }
  }

  lemma {:induction false} BranchesSpell(ts: seq<Tok>)
    ensures var r := Branches(ts); r.Got? ==> ts == BranchToks(false, r.value, r.rest)
    decreases |ts|, 0
  {
    hide Level, Toks, Grammatical;
    if ts != [] && ts[0] == Kw(KWhen) {
      LevelSpells(1, ts[1..]);
      assert ts == [ts[0]] + ts[1..];
      var r := Level(1, ts[1..]);
      if r.Got? && r.rest != [] && r.rest[0] == Kw(KThen) {
        assert r.rest == [r.rest[0]] + r.rest[1..];
        LevelSpells(1, r.rest[1..]);
        var r2 := Level(1, r.rest[1..]);
        if r2.Got? {
          BranchesSpell(r2.rest);
          var more := Branches(r2.rest);
          if more.Got? {
            assert ([Branch(r.value, r2.value)] + more.value)[1..] == more.value;
          }
        }
      }
    }
  }

  lemma {:induction false} PrimarySpells(ts: seq<Tok>)
    ensures Spells(ts, Primary(ts))
    decreases |ts|, 0
  {
    hide Level, KwPrimary, WordPrimary, Grammatical;
    if ts != [] {
      assert ts == [ts[0]] + ts[1..];
      match ts[0]
      case LP =>
        LevelSpells(1, ts[1..]);
        var r := Level(1, ts[1..]);
        if r.Got? && r.rest != [] && r.rest[0] == RP {
          assert r.rest == [RP] + r.rest[1..];
        }
      case Ident(_) =>
        if |ts| > 2 && ts[1] == Dot && ts[2].Ident? {
          assert ts == [ts[0], Dot, ts[2]] + ts[3..];
        }
      case Kw(k) => KwPrimarySpells(k, ts[1..]);
      case Word(w) => WordPrimarySpells(w, ts[1..]);
      case _ =>
    }
  }

  lemma {:induction false} KwPrimarySpells(k: Keyword, ts: seq<Tok>)
    ensures Spells([Kw(k)] + ts, KwPrimary(k, ts))
    decreases |ts|, 10
  {
    hide Level, CaseBody, CastBody, Grammatical;
    if k == KCase {
      CaseBodySpells(ts);
    } else if k == KCast && ts != [] && ts[0] == LP {
      CastBodySpells(ts[1..]);
      assert [Kw(k)] + ts == [Kw(KCast), LP] + ts[1..];
    } else if k == KExtract && |ts| > 2 && ts[0] == LP && ts[1].Word? && ts[2] == Kw(KFrom) {
      LevelSpells(1, ts[3..]);
      assert [Kw(k)] + ts == [Kw(KExtract), LP, ts[1]] + ([Kw(KFrom)] + ts[3..]);
      var r := Level(1, ts[3..]);
      if r.Got? && r.rest != [] && r.rest[0] == RP {
        assert r.rest == [RP] + r.rest[1..];
      }
    }
  }

  lemma {:induction false} WordPrimarySpells(w: string, ts: seq<Tok>)
    ensures Spells([Word(w)] + ts, WordPrimary(w, ts))
    decreases |ts|, 10
  {
    hide Arguments, Grammatical, ListToks;
    if ts != [] && ts[0] == LP {
      ArgumentsSpell(ts[1..]);
      assert [Word(w)] + ts == [Word(w), LP] + ts[1..];
    } else if ts != [] && ts[0].Str? {
      assert ts == [ts[0]] + ts[1..];
    }
  }

  lemma {:induction false} CastBodySpells(ts: seq<Tok>)
    ensures Spells([Kw(KCast), LP] + ts, CastBody(ts))
    decreases |ts|, 9
  {
    hide Level, TypeOf, TypeToks, Grammatical;
    LevelSpells(1, ts);
    var r := Level(1, ts);
    if r.Got? && r.rest != [] && r.rest[0] == Kw(KAs) {
      assert r.rest == [Kw(KAs)] + r.rest[1..];
      TypeSpells(r.rest[1..], 0);
      var t := TypeOf(r.rest[1..], 0);
      if t.Got? && t.rest != [] {
        assert t.rest == [RP] + t.rest[1..];
      }
    }
  }

  /** A text that reads as a tree has the tree's tokens. */
  lemma ReadSpells(text: string)
    requires Read(text).Some?
    ensures Lex(text) == Some(Toks(false, Read(text).value, []))
  {
    hide Level, Lex, Toks;
    LevelSpells(1, Lex(text).value);
  }

  /** A text reads as a readable tree exactly if its tokens are the tree's. */
  lemma ReadsExactly(text: string, e: Sql)
    requires Readable(e)
    ensures Read(text) == Some(e) <==> Lex(text) == Some(Toks(false, e, []))
  {
    hide Level, Lex, Toks, Readable;
    if Read(text) == Some(e) {
      ReadSpells(text);
    }
    Reads(1, e, []);
  }
}
