/** The batch check of table read permissions: which answers count, and whose answer each table gets. */
module Decisions {
  import opened Common

  const READ_CHECK_ID := "read-data"

  datatype CheckResult = CheckResult(id: string, allowed: bool)

  datatype Decision = Decision(table: string, allowed: bool)

  // ----- distinct tables

  predicate NoRepeat<T(==)>(s: seq<T>) { forall i, j :: 0 <= i < j < |s| ==> s[i] != s[j] }

  /** Among the first `n` tables `a` is seen before `b` is. */
  ghost predicate SeenFirst(tables: seq<string>, n: nat, a: string, b: string)
  {
    exists k :: 0 <= k < n && k < |tables| && tables[k] == a && b !in tables[..k + 1]
  }

  /** `distinct_in_first_seen_order`: each table once, placed by where it was first seen. */
  method DistinctInFirstSeenOrder(tables: seq<string>) returns (r: seq<string>)
    ensures NoRepeat(r) && forall t :: t in r <==> t in tables
    ensures forall i, j :: 0 <= i < j < |r| ==> SeenFirst(tables, |tables|, r[i], r[j])
  {
    var seen: set<string> := {};
    r := [];
    for n := 0 to |tables|
      invariant NoRepeat(r) && (forall t :: t in r <==> t in tables[..n]) && (forall t :: t in seen <==> t in r)
      invariant forall i, j :: 0 <= i < j < |r| ==> SeenFirst(tables, n, r[i], r[j])
    {
      assert tables[..n + 1] == tables[..n] + [tables[n]];
      if tables[n] !in seen {
        forall i | 0 <= i < |r| ensures SeenFirst(tables, n, r[i], tables[n]) {
          assert r[i] in tables[..n];
          var k :| 0 <= k < n && tables[..n][k] == r[i];
          assert tables[..k + 1] == tables[..n][..k + 1];
        }
        seen := seen + {tables[n]};
        r := r + [tables[n]];
      }
    }
    assert tables[..|tables|] == tables;
  }

  // ----- check ids

  /** `check_id` */
  function CheckId(index: nat): (r: string)
  {
    if index == 0 then READ_CHECK_ID else READ_CHECK_ID + "-" + NatText(index)
  }

  lemma CheckIdInjective(i: nat, j: nat)
    requires CheckId(i) == CheckId(j)
    ensures i == j
  {
    hide NatText, NatValue;
    if i != 0 && j != 0 {
      assert CheckId(i)[10..] == NatText(i) && CheckId(j)[10..] == NatText(j);
      NatTextReadsBack(i);
      NatTextReadsBack(j);
    }
  }

  function Issued(n: nat): (r: set<string>)
  {
    set i | 0 <= i < n :: CheckId(i)
  }

  lemma {:induction false} IssuedCount(n: nat)
    ensures |Issued(n)| == n
  {
    if n > 0 {
      IssuedCount(n - 1);
      assert Issued(n) == Issued(n - 1) + {CheckId(n - 1)};
      if CheckId(n - 1) in Issued(n - 1) {
        var i :| 0 <= i < n - 1 && CheckId(i) == CheckId(n - 1);
        CheckIdInjective(i, n - 1);
      }
    }
  }

  // ----- reading the answer

  function Ids(results: seq<CheckResult>): (r: seq<string>)
    ensures |r| == |results| && forall k :: 0 <= k < |r| ==> r[k] == results[k].id
  {
    Map((c: CheckResult) => c.id, results)
  }

  /** Exactly one result for each issued id, and none besides */
  predicate Complete(results: seq<CheckResult>, n: nat)
  {
    NoRepeat(Ids(results)) && (set id | id in Ids(results)) == Issued(n)
  }

  /** The answer under an id */
  function Allowed(results: seq<CheckResult>, id: string): (r: bool)
  {
    exists k :: 0 <= k < |results| && results[k] == CheckResult(id, true)
  }

  function Answer(distinct: seq<string>, results: seq<CheckResult>): (r: Option<seq<Decision>>)
  {
    if !Complete(results, |distinct|) then None
    else Some(seq(|distinct|, i requires 0 <= i < |distinct| => Decision(distinct[i], Allowed(results, CheckId(i)))))
  }

  /** What the code's map holds after the results so far */
  ghost predicate Holds(results: seq<CheckResult>, m: map<string, bool>)
  {
    && NoRepeat(Ids(results)) && m.Keys == (set id | id in Ids(results))
    && forall k :: 0 <= k < |results| ==> results[k].id in m && m[results[k].id] == results[k].allowed
  }

  lemma HoldsNext(results: seq<CheckResult>, m: map<string, bool>, c: CheckResult)
    requires Holds(results, m)
    ensures c.id in m <==> !NoRepeat(Ids(results + [c]))
    ensures c.id !in m ==> Holds(results + [c], m[c.id := c.allowed])
  {
    var next := results + [c];
    assert Ids(next) == Ids(results) + [c.id];
    if c.id in m {
      var k :| 0 <= k < |results| && Ids(results)[k] == c.id;
      assert Ids(next)[k] == Ids(next)[|results|];
    } else {
      assert forall k :: 0 <= k < |results| ==> Ids(results)[k] in m;
      assert Holds(next, m[c.id := c.allowed]);
    }
  }

  lemma RepeatStays(results: seq<CheckResult>, k: nat)
    requires k <= |results| && !NoRepeat(Ids(results[..k]))
    ensures !NoRepeat(Ids(results))
  {
    var i, j :| 0 <= i < j < k && Ids(results[..k])[i] == Ids(results[..k])[j];
    assert Ids(results)[i] == Ids(results)[j];
  }

  lemma HoldsAllowed(results: seq<CheckResult>, m: map<string, bool>, id: string)
    requires Holds(results, m) && id in m
    ensures m[id] == Allowed(results, id)
  {
    var k :| 0 <= k < |results| && Ids(results)[k] == id;
    assert results[k] == CheckResult(id, m[id]);
  }

  /** A map of the right size that holds every issued id holds exactly those. */
  lemma CountDecides(keys: set<string>, n: nat)
    requires |keys| == n && forall i :: 0 <= i < n ==> CheckId(i) in keys
    ensures keys == Issued(n)
  {
    IssuedCount(n);
    var issued := Issued(n);
    assert issued <= keys;
    var rest := keys - issued;
    assert keys == issued + rest;
    assert |keys| == |issued| + |rest|;
  }

  /** `read_decisions`, from the parsed results */
  method ReadDecisions(distinct: seq<string>, results: seq<CheckResult>) returns (r: Option<seq<Decision>>)
    ensures r == Answer(distinct, results)
  {
    hide CheckId, NoRepeat, Ids;
    var allowedById: map<string, bool> := map[];
    assert Holds([], map[]) by { HoldsNone(); }
    for k := 0 to |results|
      invariant Holds(results[..k], allowedById)
    {
      HoldsNext(results[..k], allowedById, results[k]);
      assert results[..k] + [results[k]] == results[..k + 1];
      if results[k].id in allowedById {
        RepeatStays(results, k + 1);
        return None;
      }
      allowedById := allowedById[results[k].id := results[k].allowed];
    }
    assert results[..|results|] == results;
    IssuedCount(|distinct|);
    if |allowedById| != |distinct| {
      assert |allowedById| == |allowedById.Keys|;
      return None;
    }
    var decisions: seq<Decision> := [];
    for i := 0 to |distinct|
      invariant |decisions| == i
      invariant forall j :: 0 <= j < i ==>
        CheckId(j) in allowedById && decisions[j] == Decision(distinct[j], Allowed(results, CheckId(j)))
    {
      if CheckId(i) !in allowedById {
        assert CheckId(i) in Issued(|distinct|);
        return None;
      }
      HoldsAllowed(results, allowedById, CheckId(i));
      decisions := decisions + [Decision(distinct[i], allowedById[CheckId(i)])];
    }
    assert |allowedById.Keys| == |allowedById|;
    CountDecides(allowedById.Keys, |distinct|);
    assert decisions
        == seq(|distinct|, i requires 0 <= i < |distinct| => Decision(distinct[i], Allowed(results, CheckId(i))));
    return Some(decisions);
  }

  lemma HoldsNone()
    ensures Holds([], map[])
  {
  }

  // ----- what an answer means

  lemma SameId(results: seq<CheckResult>, a: CheckResult, b: CheckResult)
    requires NoRepeat(Ids(results)) && a in results && b in results && a.id == b.id
    ensures a == b
  {
    var i :| 0 <= i < |results| && results[i] == a;
    var j :| 0 <= j < |results| && results[j] == b;
    assert Ids(results)[i] == Ids(results)[j];
  }

  /** Each table gets the boolean of its own id, in the order of the tables; all or nothing is answered. */
  lemma AnswerIsOwn(distinct: seq<string>, results: seq<CheckResult>)
    ensures Answer(distinct, results).Some? <==> Complete(results, |distinct|)
    ensures Answer(distinct, results).Some? ==>
      var decisions := Answer(distinct, results).value;
      && |decisions| == |distinct|
      && forall i :: 0 <= i < |distinct| ==>
           decisions[i].table == distinct[i] && CheckResult(CheckId(i), decisions[i].allowed) in results
  {
    hide CheckId, NoRepeat;
    if Complete(results, |distinct|) {
      var decisions := Answer(distinct, results).value;
      forall i | 0 <= i < |distinct| ensures CheckResult(CheckId(i), decisions[i].allowed) in results {
        assert CheckId(i) in Issued(|distinct|);
        var k :| 0 <= k < |results| && Ids(results)[k] == CheckId(i);
        assert results[k] == CheckResult(CheckId(i), true) || results[k] == CheckResult(CheckId(i), false);
      }
    }
  }

  lemma {:induction false} RepeatCounts<T>(s: seq<T>, i: nat, j: nat)
    requires i < j < |s| && s[i] == s[j]
    ensures multiset(s)[s[i]] >= 2
  {
    assert s == s[..j] + s[j..];
    assert s[i] in s[..j] && s[j] in s[j..];
    assert multiset(s) == multiset(s[..j]) + multiset(s[j..]);
  }

  lemma {:induction false} CountsRepeat<T>(s: seq<T>, x: T) returns (i: nat, j: nat)
    requires multiset(s)[x] >= 2
    ensures i < j < |s| && s[i] == s[j] == x
    decreases |s|
  {
    assert s == [s[0]] + s[1..];
    if s[0] == x {
      assert x in multiset(s[1..]);
      var k :| 0 <= k < |s[1..]| && s[1..][k] == x;
      i, j := 0, k + 1;
    } else {
      i, j := CountsRepeat(s[1..], x);
      i, j := i + 1, j + 1;
    }
  }

  lemma DistinctIdsPermute(a: seq<CheckResult>, b: seq<CheckResult>)
    requires multiset(a) == multiset(b) && NoRepeat(Ids(a))
    ensures NoRepeat(Ids(b))
  {
    if !NoRepeat(Ids(b)) {
      var i, j :| 0 <= i < j < |b| && Ids(b)[i] == Ids(b)[j];
      assert b[i] in multiset(a) && b[j] in multiset(a);
      SameId(a, b[i], b[j]);
      RepeatCounts(b, i, j);
      var k, l := CountsRepeat(a, b[i]);
    }
  }

  lemma IdsPermute(a: seq<CheckResult>, b: seq<CheckResult>, id: string)
    requires multiset(a) == multiset(b) && id in Ids(a)
    ensures id in Ids(b)
  {
    var k :| 0 <= k < |a| && Ids(a)[k] == id;
    assert a[k] in multiset(b);
    var l :| 0 <= l < |b| && b[l] == a[k];
    assert Ids(b)[l] == id;
  }

  /** The order of the results plays no part. */
  lemma AnswerIgnoresOrder(distinct: seq<string>, a: seq<CheckResult>, b: seq<CheckResult>)
    requires multiset(a) == multiset(b)
    ensures Answer(distinct, a) == Answer(distinct, b)
  {
    hide NoRepeat, CheckId, Ids;
    assert NoRepeat(Ids(a)) <==> NoRepeat(Ids(b)) by {
      if NoRepeat(Ids(a)) {
        DistinctIdsPermute(a, b);
      }
      if NoRepeat(Ids(b)) {
        DistinctIdsPermute(b, a);
      }
    }
    assert (set id | id in Ids(a)) == (set id | id in Ids(b)) by {
      forall id | id in Ids(a) ensures id in Ids(b) { IdsPermute(a, b, id); }
      forall id | id in Ids(b) ensures id in Ids(a) { IdsPermute(b, a, id); }
    }
    forall id ensures Allowed(a, id) == Allowed(b, id) {
      AllowedPermutes(a, b, id);
    }
    if Complete(a, |distinct|) {
      assert Answer(distinct, a).value == Answer(distinct, b).value;
    }
  }

  lemma AllowedPermutes(a: seq<CheckResult>, b: seq<CheckResult>, id: string)
    requires multiset(a) == multiset(b)
    ensures Allowed(a, id) == Allowed(b, id)
  {
    var c := CheckResult(id, true);
    assert Allowed(a, id) <==> c in multiset(a);
    assert Allowed(b, id) <==> c in multiset(b);
  }
}
