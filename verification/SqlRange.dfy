/**
 The other direction of readability: whatever the parser yields is printable. So a text reads back
 as the tree it was written from exactly if that tree is readable, for all trees.
 */
module SqlRange {
  import opened Common
  import opened SqlText
  import opened SqlTree
  import opened SqlRead
  import opened SqlSpacing

  /** A parsed tree binds at least as tight as `k`, and nothing ill-spelled is left behind it. */
  predicate Sound(k: nat, r: Parsed<Sql>)
  {
    r.Got? ==> Printable(r.value) && Rank(r.value) >= k && AllValid(r.rest)
  }

  predicate SoundList(r: Parsed<seq<Sql>>)
  {
    r.Got? ==> AllValid(r.rest) && forall y | y in r.value :: Printable(y)
  }

  predicate SoundBranches(r: Parsed<seq<Branch>>)
  {
    r.Got? ==> AllValid(r.rest) && forall b | b in r.value :: PrintableBranch(b)
  }

  lemma {:induction false} LevelSound(k: nat, ts: seq<Tok>)
    requires 1 <= k <= 7 && AllValid(ts)
    ensures Sound(k, Level(k, ts))
    decreases |ts|, 8 - k
  {
    hide Primary, Suffix, Tail, Grammatical, IsName, IsNumeral, IsType;
    if k == 7 {
      if ts != [] && ts[0] == Sym(MinusSym) {
        LevelSound(7, ts[1..]);
      } else {
        PrimarySound(ts);
      }
    } else if k == 3 && ts != [] && ts[0] == Kw(KNot) {
      LevelSound(3, ts[1..]);
    } else {
      LevelSound(k + 1, ts);
      var r := Level(k + 1, ts);
      if r.Got? {
        if k == 4 {
          SuffixSound(r.value, r.rest);
        } else if k != 3 {
          TailSound(k, r.value, r.rest);
        }
      }
    }
  }

  lemma {:induction false} TailSound(k: nat, acc: Sql, ts: seq<Tok>)
    requires k in {1, 2, 5, 6} && AllValid(ts) && Printable(acc) && Rank(acc) >= k
    ensures Sound(k, Tail(k, acc, ts))
    decreases |ts|, 0
  {
    hide Level, Grammatical, IsName, IsNumeral, IsType;
    if ts != [] && IsOpAt(k, ts[0]) {
      LevelSound(k + 1, ts[1..]);
      var r := Level(k + 1, ts[1..]);
      if r.Got? {
        TailSound(k, Bin(OpOf(ts[0]).value, acc, r.value), r.rest);
      }
    }
  }

  lemma Dropped(ts: seq<Tok>, k: nat)
    requires AllValid(ts) && k <= |ts|
    ensures AllValid(ts[k..])
  {
  }

  lemma BetweenPrintable(e: Sql, x: Sql, y: Sql)
    requires Printable(e) && Rank(e) >= 5 && Printable(x) && Rank(x) >= 5 && Printable(y) && Rank(y) >= 5
    ensures Printable(Between(e, x, y)) && Rank(Between(e, x, y)) == 4
  {
    hide IsName, IsNumeral, IsType;
  }

  lemma LikePrintable(e: Sql, x: Sql, esc: Option<string>)
    requires Printable(e) && Rank(e) >= 5 && Printable(x) && Rank(x) >= 5
    ensures Printable(Like(e, x, esc)) && Rank(Like(e, x, esc)) == 4
  {
    hide IsName, IsNumeral, IsType;
  }

  lemma NullTestPrintable(e: Sql)
    requires Printable(e) && Rank(e) >= 5
    ensures Printable(IsNull(e)) && Rank(IsNull(e)) == 4 && Printable(IsNotNull(e)) && Rank(IsNotNull(e)) == 4
  {
    hide IsName, IsNumeral, IsType;
  }

  lemma ComparePrintable(op: BinOp, e: Sql, x: Sql)
    requires OpLevel(op) == 4 && Printable(e) && Rank(e) >= 5 && Printable(x) && Rank(x) >= 5
    ensures Printable(Bin(op, e, x)) && Rank(Bin(op, e, x)) == 4
  {
    hide IsName, IsNumeral, IsType;
  }

  lemma InPrintable(e: Sql, list: seq<Sql>)
    requires Printable(e) && Rank(e) >= 5 && list != [] && forall y | y in list :: Printable(y)
    ensures Printable(In(e, list)) && Rank(In(e, list)) == 4
  {
    hide IsName, IsNumeral, IsType;
  }

  lemma {:induction false} SuffixSound(e: Sql, ts: seq<Tok>)
    requires AllValid(ts) && Printable(e) && Rank(e) >= 5
    ensures Sound(4, Suffix(e, ts))
    decreases |ts|, 1
  {
    hide Level, Items, Printable, Rank, AllValid;
    if ts != [] {
      Dropped(ts, 1);
      if IsOpAt(4, ts[0]) {
        LevelSound(5, ts[1..]);
        var r := Level(5, ts[1..]);
        if r.Got? {
          ComparePrintable(OpOf(ts[0]).value, e, r.value);
        }
      } else if ts[0] == Kw(KIs) {
        NullTestPrintable(e);
        if |ts| > 1 {
          Dropped(ts, 2);
        }
        if |ts| > 2 {
          Dropped(ts, 3);
        }
      } else if ts[0] == Kw(KIn) {
        InSound(e, ts);
      } else if ts[0] == Kw(KBetween) {
        BetweenSound(e, ts);
      } else if ts[0] == Kw(KLike) {
        LikeSound(e, ts);
      }
    }
  }

  lemma {:induction false} InSound(e: Sql, ts: seq<Tok>)
    requires ts != [] && ts[0] == Kw(KIn) && AllValid(ts) && Printable(e) && Rank(e) >= 5
    ensures Sound(4, Suffix(e, ts))
    decreases |ts|, 0
  {
    hide Level, Items, Printable, Rank, AllValid;
    if |ts| > 1 && ts[1] == LP {
      Dropped(ts, 2);
      ItemsSound(ts[2..]);
      var r := Items(ts[2..]);
      if r.Got? {
        InPrintable(e, r.value);
        if r.rest != [] {
          Dropped(r.rest, 1);
        }
      }
    }
  }

  lemma {:induction false} BetweenSound(e: Sql, ts: seq<Tok>)
    requires ts != [] && ts[0] == Kw(KBetween) && AllValid(ts) && Printable(e) && Rank(e) >= 5
    ensures Sound(4, Suffix(e, ts))
    decreases |ts|, 0
  {
    hide Level, Items, Printable, Rank, AllValid;
    Dropped(ts, 1);
    LevelSound(5, ts[1..]);
    var r := Level(5, ts[1..]);
    if r.Got? && r.rest != [] {
      Dropped(r.rest, 1);
      LevelSound(5, r.rest[1..]);
      var h := Level(5, r.rest[1..]);
      if h.Got? {
        BetweenPrintable(e, r.value, h.value);
      }
    }
  }

  lemma {:induction false} LikeSound(e: Sql, ts: seq<Tok>)
    requires ts != [] && ts[0] == Kw(KLike) && AllValid(ts) && Printable(e) && Rank(e) >= 5
    ensures Sound(4, Suffix(e, ts))
    decreases |ts|, 0
  {
    hide Level, Items, Printable, Rank, AllValid;
    Dropped(ts, 1);
    LevelSound(5, ts[1..]);
    var r := Level(5, ts[1..]);
    if r.Got? {
      LikePrintable(e, r.value, None);
      if |r.rest| > 1 && r.rest[1].Str? {
        LikePrintable(e, r.value, Some(r.rest[1].s));
        Dropped(r.rest, 2);
      }
    }
  }

  lemma {:induction false} ItemsSound(ts: seq<Tok>)
    requires AllValid(ts)
    ensures SoundList(Items(ts)) && (Items(ts).Got? ==> Items(ts).value != [])
    decreases |ts|, 8
  {
    hide Level, Printable;
    LevelSound(1, ts);
    var r := Level(1, ts);
    if r.Got? && r.rest != [] && r.rest[0] == Comma {
      ItemsSound(r.rest[1..]);
    }
  }

  lemma {:induction false} ArgumentsSound(ts: seq<Tok>)
    requires AllValid(ts)
    ensures SoundList(Arguments(ts))
    decreases |ts|, 9
  {
    hide Items, Printable;
    if ts == [] || ts[0] != RP {
      ItemsSound(ts);
    }
  }

  lemma {:induction false} TypeOfSound(ts: seq<Tok>, depth: nat)
    requires AllValid(ts)
    ensures TypeOf(ts, depth).Got? ==> AllValid(TypeOf(ts, depth).rest)
    decreases |ts|
  {
    if ts != [] && !(ts[0] == RP && depth == 0) {
      TypeOfSound(ts[1..], if ts[0] == LP then depth + 1 else if ts[0] == RP then depth - 1 else depth);
    }
  }

  lemma {:induction false} CaseBodySound(ts: seq<Tok>)
    requires AllValid(ts)
    ensures Sound(7, CaseBody(ts))
    decreases |ts|, 9
  {
    hide Level, CaseBranches, Printable;
    if ts != [] && ts[0] == Kw(KWhen) {
      CaseBranchesSound(None, ts);
    } else {
      LevelSound(1, ts);
      var r := Level(1, ts);
      if r.Got? {
        CaseBranchesSound(Some(r.value), r.rest);
      }
    }
  }

  lemma {:induction false} CaseBranchesSound(basis: Option<Sql>, ts: seq<Tok>)
    requires AllValid(ts) && (basis.Some? ==> Printable(basis.value))
    ensures Sound(7, CaseBranches(basis, ts))
    decreases |ts|, 8
  {
    hide Level, Branches, Grammatical, IsName, IsNumeral, IsType;
    BranchesSound(ts);
    var r := Branches(ts);
    if r.Got? && r.rest != [] && r.rest[0] == Kw(KElse) {
      LevelSound(1, r.rest[1..]);
    }
  }

  lemma {:induction false} BranchesSound(ts: seq<Tok>)
    requires AllValid(ts)
    ensures SoundBranches(Branches(ts))
    decreases |ts|, 0
  {
    hide Level, Printable;
    if ts != [] && ts[0] == Kw(KWhen) {
      LevelSound(1, ts[1..]);
      var r := Level(1, ts[1..]);
      if r.Got? && r.rest != [] && r.rest[0] == Kw(KThen) {
        LevelSound(1, r.rest[1..]);
        var r2 := Level(1, r.rest[1..]);
        if r2.Got? {
          BranchesSound(r2.rest);
        }
      }
    }
  }

  lemma {:induction false} PrimarySound(ts: seq<Tok>)
    requires AllValid(ts)
    ensures Sound(7, Primary(ts))
    decreases |ts|, 0
  {
    hide Level, KwPrimary, WordPrimary, Grammatical, IsName, IsNumeral, IsType;
    if ts != [] {
      assert ValidTok(ts[0]);
      match ts[0]
      case LP => LevelSound(1, ts[1..]);
      case Kw(k) => KwPrimarySound(k, ts[1..]);
      case Word(w) => WordPrimarySound(w, ts[1..]);
      case _ =>
    }
  }

  lemma {:induction false} KwPrimarySound(k: Keyword, ts: seq<Tok>)
    requires AllValid(ts)
    ensures Sound(7, KwPrimary(k, ts))
    decreases |ts|, 10
  {
    hide Level, CaseBody, CastBody, Grammatical, IsName, IsNumeral, IsType;
    if k == KCase {
      CaseBodySound(ts);
    } else if k == KCast && ts != [] && ts[0] == LP {
      CastBodySound(ts[1..]);
    } else if k == KExtract && |ts| > 2 && ts[1].Word? {
      assert ValidTok(ts[1]);
      LevelSound(1, ts[3..]);
    }
  }

  lemma {:induction false} WordPrimarySound(w: string, ts: seq<Tok>)
    requires AllValid(ts) && IsName(w)
    ensures Sound(7, WordPrimary(w, ts))
    decreases |ts|, 10
  {
    hide Arguments, IsName, IsNumeral, IsType;
    if ts != [] && ts[0] == LP {
      ArgumentsSound(ts[1..]);
    }
  }

  lemma {:induction false} CastBodySound(ts: seq<Tok>)
    requires AllValid(ts)
    ensures Sound(7, CastBody(ts))
    decreases |ts|, 9
  {
    hide Level, TypeOf, Grammatical, IsName, IsNumeral, IsType;
    LevelSound(1, ts);
    var r := Level(1, ts);
    if r.Got? && r.rest != [] {
      TypeOfSound(r.rest[1..], 0);
    }
  }

  /** Every tree that is read from a text is printable. */
  lemma ReadIsPrintable(text: string)
    requires Read(text).Some?
    ensures Printable(Read(text).value)
  {
    hide Level, Lex, Printable;
    LexValid(text);
    LevelSound(1, Lex(text).value);
  }

  lemma {:induction false} ReadableIsPrintable(e: Sql)
    requires Readable(e)
    ensures Printable(e)
    decreases e
  {
    match e
    case Case(basis, branches, els) =>
      if basis.Some? {
        ReadableIsPrintable(basis.value);
      }
      forall b | b in branches ensures PrintableBranch(b) {
        ReadableIsPrintable(b.cond);
        ReadableIsPrintable(b.result);
      }
      if els.Some? {
        ReadableIsPrintable(els.value);
      }
    case In(x, list) =>
      ReadableIsPrintable(x);
      forall y | y in list ensures Printable(y) { ReadableIsPrintable(y); }
    case Call(_, args) =>
      forall y | y in args ensures Printable(y) { ReadableIsPrintable(y); }
    case Paren(x) => ReadableIsPrintable(x);
    case Bin(_, l, x) =>
      ReadableIsPrintable(l);
      ReadableIsPrintable(x);
    case Not(x) => ReadableIsPrintable(x);
    case Neg(x) => ReadableIsPrintable(x);
    case IsNull(x) => ReadableIsPrintable(x);
    case IsNotNull(x) => ReadableIsPrintable(x);
    case Between(x, lo, hi) =>
      ReadableIsPrintable(x);
      ReadableIsPrintable(lo);
      ReadableIsPrintable(hi);
    case Like(x, p, _) =>
      ReadableIsPrintable(x);
      ReadableIsPrintable(p);
    case Cast(x, _) => ReadableIsPrintable(x);
    case Extract(_, x) => ReadableIsPrintable(x);
    case _ =>
  }

  /** Unique readability of all trees: the text reads back as the tree exactly if the tree is readable. */
  lemma ReadsBackExactly(e: Sql)
    ensures Read(Show(e)) == Some(e) <==> Readable(e)
  {
    hide Read, Show, Readable, Printable;
    if Readable(e) {
      ReadableIsPrintable(e);
    } else if Read(Show(e)) == Some(e) {
      ReadIsPrintable(Show(e));
    }
    if Printable(e) {
      ReadShow(e);
    }
  }
}
