/** No label of the code lies inside an earlier one: a later label is longer, or has what the earlier lacks. */
module LabelOrder {
  import opened Common
  import opened Redaction

  /** No label lies inside an earlier one. */
  ghost predicate Ordered(labels: seq<string>)
  {
    forall k, m, i :: 0 <= k < m < |labels| ==> !Occurs(labels[k], i, labels[m])
  }

  /** Label number `m` does not lie inside label number `k`. */
  ghost predicate NotIn(k: nat, m: nat)
    requires k < |LABELS| && m < |LABELS|
  {
    forall i :: !Occurs(LABELS[k], i, LABELS[m])
  }

  lemma Shorter(k: nat, m: nat)
    requires k < 23 && m < 23 && |LABELS[k]| < |LABELS[m]|
    ensures NotIn(k, m)
  {
  }

  lemma CharOf(q: string, i: int, p: string, a: nat)
    requires Occurs(q, i, p) && a < |p|
    ensures 0 <= i && i + a < |q| && LowerChar(q[i + a]) == LowerChar(p[a]) && q[i + a] in q
  {
  }

  lemma LacksChar(q: string, p: string, a: nat)
    requires a < |p| && LowerChar(p[a]) !in q && UpperChar(LowerChar(p[a])) !in q
    ensures forall i :: !Occurs(q, i, p)
  {
    forall i ensures !Occurs(q, i, p) {
      if Occurs(q, i, p) {
        CharOf(q, i, p, a);
      }
    }
  }

  lemma ByChar(k: nat, m: nat, a: nat)
    requires k < 23 && m < 23 && a < |LABELS[m]|
    requires var c := LowerChar(LABELS[m][a]); c !in LABELS[k] && UpperChar(c) !in LABELS[k]
    ensures NotIn(k, m)
  {
    LacksChar(LABELS[k], LABELS[m], a);
  }

  /** The two characters of `p` at `a` are not next to each other in `q`. */
  predicate LacksPair(q: string, p: string, a: nat)
    requires a + 1 < |p|
  {
    forall i, j :: 0 <= i < |q| - 1 && j == i + 1 ==>
      LowerChar(q[i]) != LowerChar(p[a]) || LowerChar(q[j]) != LowerChar(p[a + 1])
  }

  lemma LacksBoth(q: string, p: string, a: nat)
    requires a + 1 < |p| && LacksPair(q, p, a)
    ensures forall i :: !Occurs(q, i, p)
  {
    hide Occurs;
    forall i ensures !Occurs(q, i, p) {
      if Occurs(q, i, p) {
        CharOf(q, i, p, a);
        CharOf(q, i, p, a + 1);
      }
    }
  }

  lemma ByPair(k: nat, m: nat, a: nat)
    requires k < 23 && m < 23 && a + 1 < |LABELS[m]| && LacksPair(LABELS[k], LABELS[m], a)
    ensures NotIn(k, m)
  {
    hide LacksPair;
    LacksBoth(LABELS[k], LABELS[m], a);
  }

  lemma Apart1(k: nat)
    requires k < 1
    ensures NotIn(k, 1)
  {
    hide NotIn, LacksPair;
    ByChar(k, 1, 3);
  }

  lemma Apart3(k: nat)
    requires k < 3
    ensures NotIn(k, 3)
  {
    hide NotIn, LacksPair;
    if k == 2 {
      ByChar(k, 3, 1);
    } else {
      Shorter(k, 3);
    }
  }

  lemma Apart4(k: nat)
    requires k < 4
    ensures NotIn(k, 4)
  {
    hide NotIn, LacksPair;
    if k == 2 {
      ByChar(k, 4, 0);
    } else {
      Shorter(k, 4);
    }
  }

  lemma Apart7(k: nat)
    requires k < 7
    ensures NotIn(k, 7)
  {
    hide NotIn, LacksPair;
    if k in {5, 6} {
      ByChar(k, 7, 9);
    } else {
      Shorter(k, 7);
    }
  }

  lemma Apart8(k: nat)
    requires k < 8
    ensures NotIn(k, 8)
  {
    hide NotIn, LacksPair;
    if k in {2, 4, 5, 6, 7} {
      ByChar(k, 8, 3);
    } else {
      Shorter(k, 8);
    }
  }

  lemma Apart9(k: nat)
    requires k < 9
    ensures NotIn(k, 9)
  {
    hide NotIn, LacksPair;
    ByChar(k, 9, 6);
  }

  lemma Apart10(k: nat)
    requires k < 10
    ensures NotIn(k, 10)
  {
    hide NotIn, LacksPair;
    if k == 6 {
      ByChar(k, 10, 11);
    } else {
      Shorter(k, 10);
    }
  }

  lemma Apart11(k: nat)
    requires k < 11
    ensures NotIn(k, 11)
  {
    hide NotIn, LacksPair;
    if k in {5, 6, 7, 10} {
      ByChar(k, 11, 15);
    } else {
      Shorter(k, 11);
    }
  }

  lemma Apart12(k: nat)
    requires k < 12
    ensures NotIn(k, 12)
  {
    hide NotIn, LacksPair;
    if k in {6, 10} {
      ByChar(k, 12, 3);
    } else {
      Shorter(k, 12);
    }
  }

  lemma Apart14(k: nat)
    requires k < 14
    ensures NotIn(k, 14)
  {
    hide NotIn, LacksPair;
    if k in {6, 10} {
      ByChar(k, 14, 3);
    } else if k in {12, 13} {
      ByChar(k, 14, 10);
    } else {
      Shorter(k, 14);
    }
  }

  lemma Apart15From0(k: nat)
    requires k < 8
    ensures NotIn(k, 15)
  {
    hide NotIn, LacksPair;
    if 5 <= k < 8 {
      ByChar(k, 15, 7);
    } else if k == 4 {
      ByChar(k, 15, 3);
    } else if k in {2, 3} {
      ByChar(k, 15, 1);
    } else {
      Shorter(k, 15);
    }
  }

  lemma Apart15From8(k: nat)
    requires 8 <= k < 15
    ensures NotIn(k, 15)
  {
    hide NotIn, LacksPair;
    if k in {8, 10, 11} {
      ByChar(k, 15, 7);
    } else if k in {12, 13} {
      ByChar(k, 15, 3);
    } else if k == 14 {
      ByChar(k, 15, 1);
    } else {
      Shorter(k, 15);
    }
  }

  lemma Apart16From0(k: nat)
    requires k < 8
    ensures NotIn(k, 16)
  {
    hide NotIn, LacksPair;
    if 5 <= k < 8 {
      ByChar(k, 16, 3);
    } else if k in {0, 1, 4} {
      ByChar(k, 16, 5);
    } else if k == 3 {
      ByChar(k, 16, 0);
    } else {
      PairOf2In16();
      ByPair(k, 16, 0);
    }
  }

  lemma Apart16From8(k: nat)
    requires 8 <= k < 16
    ensures NotIn(k, 16)
  {
    hide NotIn, LacksPair;
    if k in {8, 10, 11} {
      ByChar(k, 16, 3);
    } else if k in {12, 13} {
      ByChar(k, 16, 5);
    } else if k == 15 {
      ByChar(k, 16, 0);
    } else if k == 14 {
      PairOf14In16();
      ByPair(k, 16, 0);
    } else {
      Shorter(k, 16);
    }
  }

  lemma Apart17From0(k: nat)
    requires k < 8
    ensures NotIn(k, 17)
  {
    hide NotIn, LacksPair;
    if 5 <= k < 8 {
      ByChar(k, 17, 2);
    } else {
      Shorter(k, 17);
    }
  }

  lemma Apart17From8(k: nat)
    requires 8 <= k < 17
    ensures NotIn(k, 17)
  {
    hide NotIn, LacksPair;
    if 10 <= k < 15 {
      ByChar(k, 17, 4);
    } else {
      Shorter(k, 17);
    }
  }

  lemma Apart18From0(k: nat)
    requires k < 8
    ensures NotIn(k, 18)
  {
    hide NotIn, LacksPair;
    if 5 <= k < 8 {
      ByChar(k, 18, 2);
    } else {
      Shorter(k, 18);
    }
  }

  lemma Apart18From8(k: nat)
    requires 8 <= k < 18
    ensures NotIn(k, 18)
  {
    hide NotIn, LacksPair;
    if 10 <= k < 15 {
      ByChar(k, 18, 4);
    } else if k == 17 {
      PairOf17In18();
      ByPair(k, 18, 5);
    } else {
      Shorter(k, 18);
    }
  }

  lemma Apart20(k: nat)
    requires k < 20
    ensures NotIn(k, 20)
  {
    hide NotIn, LacksPair;
    if k == 13 {
      ByChar(k, 20, 11);
    } else if k == 19 {
      PairOf19In20();
      ByPair(k, 20, 14);
    } else {
      Shorter(k, 20);
    }
  }

  lemma Apart21From0(k: nat)
    requires k < 8
    ensures NotIn(k, 21)
  {
    hide NotIn, LacksPair;
    ByChar(k, 21, 3);
  }

  lemma Apart21From8(k: nat)
    requires 8 <= k < 16
    ensures NotIn(k, 21)
  {
    hide NotIn, LacksPair;
    ByChar(k, 21, 3);
  }

  lemma Apart21From16(k: nat)
    requires 16 <= k < 21
    ensures NotIn(k, 21)
  {
    hide NotIn, LacksPair;
    ByChar(k, 21, 3);
  }

  lemma Apart22From0(k: nat)
    requires k < 8
    ensures NotIn(k, 22)
  {
    hide NotIn, LacksPair;
    ByChar(k, 22, 0);
  }

  lemma Apart22From8(k: nat)
    requires 8 <= k < 16
    ensures NotIn(k, 22)
  {
    hide NotIn, LacksPair;
    ByChar(k, 22, 0);
  }

  lemma Apart22From16(k: nat)
    requires 16 <= k < 22
    ensures NotIn(k, 22)
  {
    hide NotIn, LacksPair;
    ByChar(k, 22, 0);
  }

  lemma PairOf2In16()
    ensures LacksPair(LABELS[2], LABELS[16], 0)
  {
  }

  lemma PairOf14In16()
    ensures LacksPair(LABELS[14], LABELS[16], 0)
  {
  }

  lemma PairOf17In18()
    ensures LacksPair(LABELS[17], LABELS[18], 5)
  {
  }

  lemma PairOf19In20()
    ensures LacksPair(LABELS[19], LABELS[20], 14)
  {
  }

  lemma ShorterApart(k: nat, m: nat)
    requires k < m && m in {2, 5, 6, 13, 19}
    ensures NotIn(k, m)
  {
    hide NotIn;
    Shorter(k, m);
  }

  lemma EarlyApart(k: nat, m: nat)
    requires k < m && 1 <= m < 12
    ensures NotIn(k, m)
  {
    hide NotIn;
    if m in {2, 5, 6, 13, 19} {
      ShorterApart(k, m);
    } else if m == 1 {
      Apart1(k);
    } else if m == 3 {
      Apart3(k);
    } else if m == 4 {
      Apart4(k);
    } else if m == 7 {
      Apart7(k);
    } else if m == 8 {
      Apart8(k);
    } else if m == 9 {
      Apart9(k);
    } else if m == 10 {
      Apart10(k);
    } else {
      Apart11(k);
    }
  }

  lemma LateApart(k: nat, m: nat)
    requires k < m && 12 <= m < 23
    ensures NotIn(k, m)
  {
    hide NotIn;
    if m in {2, 5, 6, 13, 19} {
      ShorterApart(k, m);
    } else if m == 12 {
      Apart12(k);
    } else if m == 14 {
      Apart14(k);
    } else if m == 15 {
      if k < 8 { Apart15From0(k); } else { Apart15From8(k); }
    } else if m == 16 {
      if k < 8 { Apart16From0(k); } else { Apart16From8(k); }
    } else if m == 17 {
      if k < 8 { Apart17From0(k); } else { Apart17From8(k); }
    } else if m == 18 {
      if k < 8 { Apart18From0(k); } else { Apart18From8(k); }
    } else if m == 20 {
      Apart20(k);
    } else if m == 21 {
      if k < 8 { Apart21From0(k); } else if k < 16 { Apart21From8(k); } else { Apart21From16(k); }
    } else {
      if k < 8 { Apart22From0(k); } else if k < 16 { Apart22From8(k); } else { Apart22From16(k); }
    }
  }

  lemma LabelsAreOrdered()
    ensures Ordered(LABELS)
  {
    forall k, m, i | 0 <= k < m < |LABELS| ensures !Occurs(LABELS[k], i, LABELS[m]) {
      if m < 12 {
        EarlyApart(k, m);
      } else {
        LateApart(k, m);
      }
    }
  }
}
