/** Table identifiers as a virtual table records them, and how they are read back. */
module Identifiers {
  import opened Common

  datatype CatalogTableIdent = CatalogTableIdent(namespace: seq<string>, name: string)

  predicate DotFree(s: string) { '.' !in s }

  /** `parts.join(".")` */
  function Join(parts: seq<string>): (r: string)
    requires parts != []
  {
    if |parts| == 1 then parts[0] else parts[0] + "." + Join(parts[1..])
  }

  function FirstDot(s: string): (i: nat)
    requires !DotFree(s)
    ensures i < |s| && s[i] == '.' && DotFree(s[..i])
  {
    if s[0] == '.' then 0
    else
      assert s == [s[0]] + s[1..];
      var i := FirstDot(s[1..]);
      assert s[..i + 1] == [s[0]] + s[1..][..i];
      i + 1
  }

  /** `s.split('.')` */
  function Split(s: string): (parts: seq<string>)
    ensures parts != [] && forall k :: 0 <= k < |parts| ==> DotFree(parts[k])
    decreases |s|
  {
    if DotFree(s) then [s] else [s[..FirstDot(s)]] + Split(s[FirstDot(s) + 1..])
  }

  lemma FirstDotOfJoin(head: string, tail: string)
    requires DotFree(head)
    ensures var s := head + "." + tail;
      !DotFree(s) && FirstDot(s) == |head| && s[..|head|] == head && s[|head| + 1..] == tail
  {
    var s := head + "." + tail;
    assert s[|head|] == '.';
    assert forall k :: 0 <= k < |head| ==> s[k] == head[k];
    assert '.' !in s[..FirstDot(s)];
  }

  lemma {:induction false} SplitJoin(parts: seq<string>)
    requires parts != [] && forall k :: 0 <= k < |parts| ==> DotFree(parts[k])
    ensures Split(Join(parts)) == parts
  {
    if |parts| > 1 {
      FirstDotOfJoin(parts[0], Join(parts[1..]));
      SplitJoin(parts[1..]);
    }
  }

  // ----- REST catalogs

  /** `catalog_identifier_string` */
  function IdentifierString(ident: CatalogTableIdent): (r: string)
  {
    Join(ident.namespace + [ident.name])
  }

  /** `parse_table_ident` */
  function ParseTableIdent(qualified: string): (r: Result<CatalogTableIdent>)
  {
    var parts := Split(qualified);
    if |parts| < 2 then Err else Ok(CatalogTableIdent(parts[..|parts| - 1], parts[|parts| - 1]))
  }

  predicate AllDotFree(parts: seq<string>) { forall k :: 0 <= k < |parts| ==> DotFree(parts[k]) }

  /** A recorded identifier reads back as itself exactly if it has a namespace and no part holds a dot. */
  lemma RestIdentReadsBack(ident: CatalogTableIdent)
    ensures ParseTableIdent(IdentifierString(ident)) == Ok(ident)
       <==> ident.namespace != [] && DotFree(ident.name) && AllDotFree(ident.namespace)
  {
    hide Split, Join;
    var parts := ident.namespace + [ident.name];
    var split := Split(Join(parts));
    assert parts[..|parts| - 1] == ident.namespace && parts[|parts| - 1] == ident.name;
    if ident.namespace != [] && DotFree(ident.name) && AllDotFree(ident.namespace) {
      SplitJoin(parts);
    }
  }

  // ----- Glue

  /** Unicode white space, as `trim` removes it */
  predicate IsSpace(c: char)
  {
    || '\U{9}' <= c <= '\U{D}' || c == ' ' || c == '\U{85}' || c == '\U{A0}' || c == '\U{1680}'
    || '\U{2000}' <= c <= '\U{200A}' || c == '\U{2028}' || c == '\U{2029}' || c == '\U{202F}'
    || c == '\U{205F}' || c == '\U{3000}'
  }

  /** `s.trim().is_empty()` */
  predicate Blank(s: string) { forall k :: 0 <= k < |s| ==> IsSpace(s[k]) }

  /** `parse_glue_table_ident` */
  function ParseGlueTableIdent(s: string): (r: Result<CatalogTableIdent>)
  {
    if DotFree(s) then Err
    else
      var dot := FirstDot(s);
      if !Blank(s[..dot]) && !Blank(s[dot + 1..]) then Ok(CatalogTableIdent([s[..dot]], s[dot + 1..])) else Err
  }

  lemma JoinTwo(a: string, b: string)
    ensures Join([a, b]) == a + "." + b
  {
    assert [a, b][1..] == [b];
  }

  /**
   A recorded Glue identifier reads back as itself exactly if its namespace is one non-blank,
   dot-free database and its name is not blank; the name may hold dots.
   */
  lemma GlueIdentReadsBack(ident: CatalogTableIdent)
    ensures ParseGlueTableIdent(IdentifierString(ident)) == Ok(ident)
       <==> |ident.namespace| == 1 && DotFree(ident.namespace[0]) && !Blank(ident.namespace[0]) && !Blank(ident.name)
  {
    hide Blank, FirstDot;
    if |ident.namespace| == 1 {
      var database := ident.namespace[0];
      assert ident.namespace == [database] && ident.namespace + [ident.name] == [database, ident.name];
      JoinTwo(database, ident.name);
      if DotFree(database) {
        FirstDotOfJoin(database, ident.name);
      }
    }
  }
}
