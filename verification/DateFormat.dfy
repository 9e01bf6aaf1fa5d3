/**
 Translation of an Exasol date/time format model to a strftime pattern.

 The source scans the text with one regular expression whose alternatives are tried in order. The
 reference is order-free: a text is a format if it can be cut into parts at all.
 */
module DateFormat {
  import opened Common

  datatype FormatTarget = DateTarget | TimestampTarget

  datatype Width = W3 | W6 | W9

  datatype Part =
    | Fraction(dot: bool, width: Width)
    | Hour | Year | Month | Minute | Day | Second
    | Separator(c: char)

  predicate IsSeparator(c: char)
  {
    c == '-' || c == '/' || c == '.' || c == ',' || c == ';' || c == ':' || c == '_' || c == ' '
  }

  predicate ValidPart(p: Part)
  {
    p.Separator? ==> IsSeparator(p.c)
  }

  function WidthChar(w: Width): (c: char)
  {
    match w
    case W3 => '3'
    case W6 => '6'
    case W9 => '9'
  }

  /** A part as the format model spells it, in upper case. */
  function PartText(p: Part): (r: string)
    ensures r != ""
  {
    match p
    case Fraction(dot, w) => (if dot then "." else "") + ['F', 'F', WidthChar(w)]
    case Hour => "HH24"
    case Year => "YYYY"
    case Month => "MM"
    case Minute => "MI"
    case Day => "DD"
    case Second => "SS"
    case Separator(c) => [c]
  }

  /** A part as strftime spells it. */
  function PartPattern(p: Part): (r: string)
  {
    match p
    case Fraction(dot, w) => (if dot then "%." else "%") + [WidthChar(w), 'f']
    case Hour => "%H"
    case Year => "%Y"
    case Month => "%m"
    case Minute => "%M"
    case Day => "%d"
    case Second => "%S"
    case Separator(c) => [c]
  }

  function Join(ps: seq<Part>): (r: string)
  {
    if ps == [] then "" else PartText(ps[0]) + Join(ps[1..])
  }

  function Patterns(ps: seq<Part>): (r: string)
  {
    if ps == [] then "" else PartPattern(ps[0]) + Patterns(ps[1..])
  }

  // ----- counting

  datatype PartCounts = PartCounts(year: nat, month: nat, day: nat, hour: nat, minute: nat, second: nat, fraction: nat)
  {
    function Add(p: Part): (r: PartCounts)
    {
      match p
      case Fraction(_, _) => this.(fraction := fraction + 1)
      case Hour => this.(hour := hour + 1)
      case Year => this.(year := year + 1)
      case Month => this.(month := month + 1)
      case Minute => this.(minute := minute + 1)
      case Day => this.(day := day + 1)
      case Second => this.(second := second + 1)
      case Separator(_) => this
    }

    predicate IsSupported(target: FormatTarget)
    {
      && year == 1 && month == 1 && day == 1
      && match target
         case DateTarget => hour == 0 && minute == 0 && second == 0 && fraction == 0
         case TimestampTarget =>
           || (hour == 0 && minute == 0 && second == 0 && fraction == 0)
           || (hour == 1 && minute == 1 && second == 0 && fraction == 0)
           || (hour == 1 && minute == 1 && second == 1 && fraction <= 1)
    }
  }

  function Tally(ps: seq<Part>, start: PartCounts): (r: PartCounts)
  {
    if ps == [] then start else Tally(ps[1..], start.Add(ps[0]))
  }

  const ZERO := PartCounts(0, 0, 0, 0, 0, 0, 0)

  // ----- the scan

  /** The part the expression matches at the head of upper-cased text, its alternatives in order. */
  function MatchHere(s: string): (r: Option<Part>)
    ensures r.Some? ==>
      ValidPart(r.value) && |PartText(r.value)| <= |s| && s[..|PartText(r.value)|] == PartText(r.value)
  {
    if s == "" then None
    else if s[0] == '.' && FractionAt(s[1..]).Some? then
      assert s[..4] == ['.'] + s[1..][..3];
      Some(Fraction(true, FractionAt(s[1..]).value))
    else if FractionAt(s).Some? then Some(Fraction(false, FractionAt(s).value))
    else if |s| >= 4 && s[0] == 'H' && s[1] == 'H' && s[2] == '2' && s[3] == '4' then Some(Hour)
    else if |s| >= 4 && s[0] == 'Y' && s[1] == 'Y' && s[2] == 'Y' && s[3] == 'Y' then Some(Year)
    else if Pair(s, 'M', 'M') then Some(Month)
    else if Pair(s, 'M', 'I') then Some(Minute)
    else if Pair(s, 'D', 'D') then Some(Day)
    else if Pair(s, 'S', 'S') then Some(Second)
    else if IsSeparator(s[0]) then Some(Separator(s[0]))
    else None
  }

  predicate Pair(s: string, c: char, d: char)
  {
    |s| >= 2 && s[0] == c && s[1] == d
  }

  function FractionAt(s: string): (r: Option<Width>)
    ensures r.Some? ==> |s| >= 3 && s[..3] == ['F', 'F', WidthChar(r.value)]
  {
    if |s| < 3 || s[0] != 'F' || s[1] != 'F' then None
    else if s[2] == '3' then Some(W3)
    else if s[2] == '6' then Some(W6)
    else if s[2] == '9' then Some(W9)
    else None
  }

  /** Whether the expression matches anywhere from `at` on, and where first. */
  function FindFrom(s: string, at: nat): (r: Option<nat>)
    requires at <= |s|
    ensures r.Some? ==> at <= r.value < |s| && MatchHere(s[r.value..]).Some?
    ensures r.None? || r.value > at ==> MatchHere(s[at..]).None?
    decreases |s| - at
  {
    if MatchHere(s[at..]).Some? then Some(at)
    else if at == |s| then None
    else FindFrom(s, at + 1)
  }

  /** The cut of a text into parts that the scan makes, or `None` where a piece fits no part. */
  function Scan(s: string): (r: Option<seq<Part>>)
  {
    if s == "" then Some([])
    else
      match MatchHere(s)
      case None => None
      case Some(p) =>
        match Scan(s[|PartText(p)|..])
        case None => None
        case Some(ps) => Some([p] + ps)
  }

  /** What the scan answers for a format model. */
  function Translation(format: string, target: FormatTarget): (r: Option<string>)
  {
    match Scan(Upper(format))
    case None => None
    case Some(ps) => if Tally(ps, ZERO).IsSupported(target) then Some(Patterns(ps)) else None
  }

  lemma {:induction false} PatternsConcat(a: seq<Part>, p: Part)
    ensures Patterns(a + [p]) == Patterns(a) + PartPattern(p)
  {
    if a == [] {
      assert a + [p] == [p];
    } else {
      assert (a + [p])[1..] == a[1..] + [p];
      PatternsConcat(a[1..], p);
    }
  }

  lemma {:induction false} TallyConcat(a: seq<Part>, p: Part, start: PartCounts)
    ensures Tally(a + [p], start) == Tally(a, start).Add(p)
  {
    if a == [] {
      assert a + [p] == [p];
    } else {
      assert (a + [p])[1..] == a[1..] + [p];
      TallyConcat(a[1..], p, start.Add(a[0]));
    }
  }

  function Prepend(done: seq<Part>, rest: Option<seq<Part>>): (r: Option<seq<Part>>)
  {
    match rest
    case None => None
    case Some(ps) => Some(done + ps)
  }

  lemma ScanMoves(done: seq<Part>, s: string)
    requires s != "" && MatchHere(s).Some?
    ensures var p := MatchHere(s).value;
            Prepend(done, Scan(s)) == Prepend(done + [p], Scan(s[|PartText(p)|..]))
  {
    var p := MatchHere(s).value;
    var rest := Scan(s[|PartText(p)|..]);
    if rest.Some? {
      assert done + ([p] + rest.value) == done + [p] + rest.value;
    }
  }

  lemma ScanStops(done: seq<Part>, s: string)
    ensures Scan([]) == Some([]) && Prepend([], Scan(s)) == Scan(s)
    ensures MatchHere(s).None? ==> Prepend(done, Scan(s)) == if s == "" then Some(done) else None
  {
    assert done + [] == done;
    if Scan(s).Some? {
      assert [] + Scan(s).value == Scan(s).value;
    }
  }

  /** `done` has been cut off the text before `end`, and the pattern and the counts are its own. */
  ghost predicate Cut(text: string, end: nat, done: seq<Part>, pattern: string, counts: PartCounts)
  {
    && end <= |text|
    && Scan(text) == Prepend(done, Scan(text[end..]))
    && counts == Tally(done, ZERO)
    && pattern == Patterns(done)
  }

  lemma CutStarts(text: string)
    ensures Cut(text, 0, [], "", ZERO)
  {
    assert text[0..] == text;
    ScanStops([], text);
  }

  lemma CutMoves(text: string, end: nat, done: seq<Part>, pattern: string, counts: PartCounts, p: Part)
    requires Cut(text, end, done, pattern, counts) && MatchHere(text[end..]) == Some(p)
    ensures Cut(text, end + |PartText(p)|, done + [p], pattern + PartPattern(p), counts.Add(p))
  {
    ScanMoves(done, text[end..]);
    PatternsConcat(done, p);
    TallyConcat(done, p, ZERO);
    assert text[end..][|PartText(p)|..] == text[end + |PartText(p)|..];
  }

  lemma CutEnds(text: string, end: nat, done: seq<Part>, pattern: string, counts: PartCounts)
    requires Cut(text, end, done, pattern, counts) && MatchHere(text[end..]).None?
    ensures Scan(text) == if end == |text| then Some(done) else None
  {
    ScanStops(done, text[end..]);
  }

  /** The scan as the source runs it: one match after another, a gap or a rest declines. */
  method StrftimePattern(format: string, target: FormatTarget) returns (r: Option<string>)
    ensures r == Translation(format, target)
  {
    hide Scan, Tally, Patterns, Prepend, MatchHere, FindFrom, PartText, PartPattern;
    var text := Upper(format);
    var pattern, end, counts := "", 0, ZERO;
    ghost var done: seq<Part> := [];
    CutStarts(text);
    var found := FindFrom(text, end);
    while found.Some?
      invariant Cut(text, end, done, pattern, counts)
      invariant found == FindFrom(text, end)
      decreases |text| - end
    {
      if found.value != end {
        CutEnds(text, end, done, pattern, counts);
        return None;
      }
      var p := MatchHere(text[end..]).value;
      CutMoves(text, end, done, pattern, counts, p);
      end, pattern, counts, done := end + |PartText(p)|, pattern + PartPattern(p), counts.Add(p), done + [p];
      found := FindFrom(text, end);
    }
    CutEnds(text, end, done, pattern, counts);
    r := if end == |text| && counts.IsSupported(target) then Some(pattern) else None;
  }

  // ----- any cut into parts agrees with the scan's

  /** A point followed by a fraction is the fraction's own point. */
  function Merged(ps: seq<Part>): (r: seq<Part>)
  {
    if |ps| < 2 then ps
    else if ps[0] == Separator('.') && ps[1].Fraction? && !ps[1].dot then
      [Fraction(true, ps[1].width)] + Merged(ps[2..])
    else [ps[0]] + Merged(ps[1..])
  }

  lemma {:induction false} MergedTally(ps: seq<Part>, start: PartCounts)
    ensures Tally(Merged(ps), start) == Tally(ps, start)
  {
    if |ps| >= 2 {
      if ps[0] == Separator('.') && ps[1].Fraction? && !ps[1].dot {
        MergedTally(ps[2..], start.Add(ps[1]));
        assert ps[1..][1..] == ps[2..];
      } else {
        MergedTally(ps[1..], start.Add(ps[0]));
      }
    }
  }

  predicate AllValid(ps: seq<Part>)
  {
    forall i :: 0 <= i < |ps| ==> ValidPart(ps[i])
  }

  lemma MatchesHead(p: Part, rest: string)
    requires ValidPart(p)
    requires p == Separator('.') ==> FractionAt(rest).None?
    ensures MatchHere(PartText(p) + rest) == Some(p)
  {
    var s := PartText(p) + rest;
    match p
    case Fraction(dot, w) =>
      if dot {
        assert s[1..] == ['F', 'F', WidthChar(w)] + rest;
      }
    case Separator(c) =>
      assert s[0] == c && s[1..] == rest;
    case _ =>
  }

  lemma PointThenFraction(ps: seq<Part>)
    requires AllValid(ps) && FractionAt(Join(ps)).Some?
    ensures ps != [] && ps[0] == Fraction(false, FractionAt(Join(ps)).value)
  {
    if ps != [] {
      var s := Join(ps);
      assert s[0] == PartText(ps[0])[0];
    }
  }

  lemma ScanStep(p: Part, rest: string, ps: seq<Part>)
    requires MatchHere(PartText(p) + rest) == Some(p) && Scan(rest) == Some(ps)
    ensures Scan(PartText(p) + rest) == Some([p] + ps)
  {
    assert (PartText(p) + rest)[|PartText(p)|..] == rest;
  }

  /** However a text is cut into parts, the scan finds the same cut, up to a fraction's own point. */
  lemma {:induction false} ScanFindsCut(ps: seq<Part>)
    requires AllValid(ps)
    ensures Scan(Join(ps)) == Some(Merged(ps))
    decreases |ps|
  {
    hide Scan, FractionAt, PartText, WidthChar;
    if ps == [] {
      ScanStops([], "");
    } else {
      var p, rest := ps[0], ps[1..];
      if p == Separator('.') && FractionAt(Join(rest)).Some? {
        PointThenFraction(rest);
        ScanFindsCut(ps[2..]);
        MatchesHead(Fraction(true, rest[0].width), Join(ps[2..]));
        ScanStep(Fraction(true, rest[0].width), Join(ps[2..]), Merged(ps[2..]));
        assert rest[1..] == ps[2..];
        PointJoins(rest[0].width, Join(ps[2..]));
      } else {
        ScanFindsCut(rest);
        MatchesHead(p, Join(rest));
        ScanStep(p, Join(rest), Merged(rest));
        NoFractionNext(rest);
        assert [p] + rest == ps;
        assert |ps| > 1 ==> rest[0] == ps[1];
      }
    }
  }

  lemma PointJoins(width: Width, tail: string)
    ensures PartText(Separator('.')) + (PartText(Fraction(false, width)) + tail)
         == PartText(Fraction(true, width)) + tail
  {
  }

  lemma NoFractionNext(ps: seq<Part>)
    ensures ps != [] && ps[0].Fraction? && !ps[0].dot ==> FractionAt(Join(ps)).Some?
  {
    if ps != [] && ps[0].Fraction? && !ps[0].dot {
      assert Join(ps)[..3] == ['F', 'F', WidthChar(ps[0].width)];
    }
  }

  lemma {:induction false} ScanJoins(s: string)
    requires Scan(s).Some?
    ensures AllValid(Scan(s).value) && Join(Scan(s).value) == s
    decreases |s|
  {
    if s != "" {
      var p := MatchHere(s).value;
      ScanJoins(s[|PartText(p)|..]);
      var ps := Scan(s[|PartText(p)|..]).value;
      assert ([p] + ps)[1..] == ps;
    }
  }

  // ----- the profile of a format, read off its parts

  predicate Once(ps: seq<Part>, p: Part) { multiset(ps)[p] == 1 }

  predicate NoFraction(ps: seq<Part>) { forall i :: 0 <= i < |ps| ==> !ps[i].Fraction? }

  predicate OneFractionAtMost(ps: seq<Part>)
  {
    forall i, j :: 0 <= i < j < |ps| ==> !ps[i].Fraction? || !ps[j].Fraction?
  }

  /** Year, month and day once; for a timestamp perhaps hours and minutes, and then perhaps seconds and a fraction. */
  predicate HasProfile(ps: seq<Part>, target: FormatTarget)
  {
    && Once(ps, Year) && Once(ps, Month) && Once(ps, Day)
    && if Hour !in ps && Minute !in ps then Second !in ps && NoFraction(ps)
       else
         && target.TimestampTarget? && Once(ps, Hour) && Once(ps, Minute)
         && if Second in ps then Once(ps, Second) && OneFractionAtMost(ps) else NoFraction(ps)
  }

  function FractionCount(ps: seq<Part>): (n: nat)
    ensures n == 0 <==> NoFraction(ps)
  {
    if ps == [] then 0 else (if ps[0].Fraction? then 1 else 0) + FractionCount(ps[1..])
  }

  lemma {:induction false} FractionsAtMostOne(ps: seq<Part>)
    ensures FractionCount(ps) <= 1 <==> OneFractionAtMost(ps)
  {
    if ps != [] {
      FractionsAtMostOne(ps[1..]);
      assert forall i :: 0 < i < |ps| ==> ps[i] == ps[1..][i - 1];
      if ps[0].Fraction? {
        assert OneFractionAtMost(ps) <==> NoFraction(ps[1..]) by {
          if OneFractionAtMost(ps) {
            forall i | 0 <= i < |ps[1..]| ensures !ps[1..][i].Fraction? {
              assert ps[1..][i] == ps[i + 1];
            }
          }
        }
      } else if OneFractionAtMost(ps) {
        forall i, j | 0 <= i < j < |ps[1..]| ensures !ps[1..][i].Fraction? || !ps[1..][j].Fraction? {
          assert ps[1..][i] == ps[i + 1] && ps[1..][j] == ps[j + 1];
        }
      }
    }
  }

  lemma {:induction false} TallyCounts(ps: seq<Part>, start: PartCounts)
    ensures var t, m := Tally(ps, start), multiset(ps);
      && t.year == start.year + m[Year] && t.month == start.month + m[Month] && t.day == start.day + m[Day]
      && t.hour == start.hour + m[Hour] && t.minute == start.minute + m[Minute]
      && t.second == start.second + m[Second] && t.fraction == start.fraction + FractionCount(ps)
  {
    if ps != [] {
      TallyCounts(ps[1..], start.Add(ps[0]));
      assert ps == [ps[0]] + ps[1..];
    }
  }

  lemma ProfileExactly(ps: seq<Part>, target: FormatTarget)
    ensures Tally(ps, ZERO).IsSupported(target) <==> HasProfile(ps, target)
  {
    hide Tally, FractionCount, NoFraction, OneFractionAtMost;
    TallyCounts(ps, ZERO);
    FractionsAtMostOne(ps);
    assert forall p :: p in ps <==> multiset(ps)[p] > 0;
  }

  /** `ps` cuts the format, letter case aside, into parts and the eight separators, with the target's profile. */
  predicate Cuts(ps: seq<Part>, format: string, target: FormatTarget)
  {
    && (forall p | p in ps && p.Separator? :: p.c in "-/.,;:_ ")
    && Join(ps) == Upper(format) && HasProfile(ps, target)
  }

  lemma SeparatorsExactly(ps: seq<Part>)
    ensures AllValid(ps) <==> forall p | p in ps && p.Separator? :: p.c in "-/.,;:_ "
  {
    if AllValid(ps) {
      forall p | p in ps && p.Separator? ensures p.c in "-/.,;:_ " {
        var i :| 0 <= i < |ps| && ps[i] == p;
        SeparatorListed(p.c);
      }
    } else {
      var i :| 0 <= i < |ps| && !ValidPart(ps[i]);
      SeparatorListed(ps[i].c);
      assert ps[i] in ps;
    }
  }

  lemma SeparatorListed(c: char)
    ensures IsSeparator(c) <==> c in "-/.,;:_ "
  {
  }

  /** The greedy scan accepts exactly the formats that can be cut into supported parts at all. */
  lemma AcceptsExactlyTheFormats(format: string, target: FormatTarget)
    ensures Translation(format, target).Some? <==> exists ps :: Cuts(ps, format, target)
  {
    hide HasProfile, Scan, Join, Tally, AllValid;
    if Translation(format, target).Some? {
      ScanJoins(Upper(format));
      var ps := Scan(Upper(format)).value;
      SeparatorsExactly(ps);
      ProfileExactly(ps, target);
      assert Cuts(ps, format, target);
    }
    if ps :| Cuts(ps, format, target) {
      SeparatorsExactly(ps);
      ScanFindsCut(ps);
      MergedTally(ps, ZERO);
      ProfileExactly(ps, target);
    }
  }

  // ----- the pattern decodes

  function Decode(s: string): (r: Option<seq<Part>>)
    decreases |s|
  {
    if s == "" then Some([])
    else
      match DecodeHere(s)
      case None => None
      case Some(p) =>
        match Decode(s[|PartPattern(p)|..])
        case None => None
        case Some(ps) => Some([p] + ps)
  }

  function WidthAt(s: string, i: nat): (r: Option<Width>)
  {
    if |s| < i + 2 || s[i + 1] != 'f' then None
    else if s[i] == '3' then Some(W3)
    else if s[i] == '6' then Some(W6)
    else if s[i] == '9' then Some(W9)
    else None
  }

  function DecodeHere(s: string): (r: Option<Part>)
    requires s != ""
    ensures r.Some? ==> 0 < |PartPattern(r.value)| <= |s|
  {
    if s[0] != '%' then if IsSeparator(s[0]) then Some(Separator(s[0])) else None
    else if |s| < 2 then None
    else if s[1] == '.' then
      match WidthAt(s, 2)
      case None => None
      case Some(w) => Some(Fraction(true, w))
    else if WidthAt(s, 1).Some? then Some(Fraction(false, WidthAt(s, 1).value))
    else if s[1] == 'H' then Some(Hour)
    else if s[1] == 'Y' then Some(Year)
    else if s[1] == 'm' then Some(Month)
    else if s[1] == 'M' then Some(Minute)
    else if s[1] == 'd' then Some(Day)
    else if s[1] == 'S' then Some(Second)
    else None
  }

  lemma DecodesHead(p: Part, rest: string)
    requires ValidPart(p)
    ensures DecodeHere(PartPattern(p) + rest) == Some(p)
  {
  }

  lemma {:induction false} DecodesBack(ps: seq<Part>)
    requires AllValid(ps)
    ensures Decode(Patterns(ps)) == Some(ps)
  {
    if ps != [] {
      hide DecodeHere, PartPattern;
      DecodesBack(ps[1..]);
      var s := Patterns(ps);
      DecodesHead(ps[0], Patterns(ps[1..]));
      assert s[|PartPattern(ps[0])|..] == Patterns(ps[1..]);
      assert [ps[0]] + ps[1..] == ps;
    }
  }

  /** A pattern decodes to the parts of the format it came from, letter case aside. */
  lemma TranslationDecodes(format: string, target: FormatTarget)
    requires Translation(format, target).Some?
    ensures var ps := Decode(Translation(format, target).value);
            ps.Some? && Join(ps.value) == Upper(format)
  {
    ScanJoins(Upper(format));
    DecodesBack(Scan(Upper(format)).value);
  }

  /** Two formats with one pattern differ in letter case only. */
  lemma TranslationInjective(f: string, ft: FormatTarget, g: string, gt: FormatTarget)
    requires Translation(f, ft).Some? && Translation(f, ft) == Translation(g, gt)
    ensures Upper(f) == Upper(g)
  {
    TranslationDecodes(f, ft);
    TranslationDecodes(g, gt);
  }
}
