/** The status vocabulary and the two comparison rules applied to a matched
    pair: the weight tolerance and the cargo-name rule with its keyword scan. */
module Rules {
  import opened Text

  /** The status labels written into the three status columns. */
  datatype Status =
    | Normal         // 🟢正常
    | WeightDiffers  // 🟡不符
    | Anomaly        // 🔴异常
    | FuzzyMatch     // 🟢模糊匹配
    | NameDiffers    // 🔴不符

  /** The exact text of each label. */
  function Label(s: Status): string {
    match s
    case Normal => "🟢正常"
    case WeightDiffers => "🟡不符"
    case Anomaly => "🔴异常"
    case FuzzyMatch => "🟢模糊匹配"
    case NameDiffers => "🔴不符"
  }

  /** Different statuses are written as different texts (the two "不符" differ in their mark). */
  lemma LabelsDistinct(s: Status, t: Status)
    requires s != t
    ensures Label(s) != Label(t)
  {
    match s
    case Normal => assert Label(s)[1] == '正';
    case WeightDiffers => assert Label(s)[0] == '🟡';
    case Anomaly => assert Label(s)[1] == '异';
    case FuzzyMatch => assert |Label(s)| == 5;
    case NameDiffers => assert Label(s)[0..2] == "🔴不";
  }

  /** The weight tolerance, 0.02 in hundredths. */
  const Tolerance := 2

  /** The weight rule: the two net weights agree when they differ by at most
      the tolerance, the tolerance itself included. */
  predicate WeightsAgree(weigh: int, gate: int) {
    -Tolerance <= weigh - gate <= Tolerance
  }

  /** The weight status of a matched pair. */
  function WeightStatus(weigh: int, gate: int): (r: Status)
    ensures r == Normal || r == WeightDiffers
    ensures r == Normal <==> gate - Tolerance <= weigh <= gate + Tolerance
  {
    if WeightsAgree(weigh, gate) then Normal else WeightDiffers
  }

  /** The material keywords of the fuzzy name rule, in scan order. */
  const Keywords: seq<string> := ["焦", "煤", "油", "酸", "碱", "盐", "苯"]

  /** Some keyword occurs in both names. */
  predicate SharesKeyword(m: string, p: string) {
    exists k | 0 <= k < |Keywords| :: Contains(m, Keywords[k]) && Contains(p, Keywords[k])
  }

  /** The exact part of the name rule: equal, or one name occurs inside the other. */
  predicate NamesOverlap(m: string, p: string) {
    m == p || Contains(p, m) || Contains(m, p)
  }

  /** The name status of a matched pair, gate name `m` against effective name `p`. */
  function NameStatus(m: string, p: string): (r: Status)
    ensures r == Normal || r == FuzzyMatch || r == NameDiffers
    ensures r == Normal <==> NamesOverlap(m, p)
    ensures r == FuzzyMatch <==> !NamesOverlap(m, p) && SharesKeyword(m, p)
    ensures r == NameDiffers <==> !NamesOverlap(m, p) && !SharesKeyword(m, p)
  {
    if NamesOverlap(m, p) then Normal
    else if SharesKeyword(m, p) then FuzzyMatch
    else NameDiffers
  }

  /** The keyword scan: stops at the first keyword found in both names. */
  method ScanKeywords(m: string, p: string) returns (isFuzzy: bool)
    ensures isFuzzy <==> SharesKeyword(m, p)
  {
    isFuzzy := false;
    var i := 0;
    while i < |Keywords|
      invariant 0 <= i <= |Keywords|
      invariant forall k :: 0 <= k < i ==> !(Contains(m, Keywords[k]) && Contains(p, Keywords[k]))
    {
      var kw := Keywords[i];
      if Contains(m, kw) && Contains(p, kw) {
        isFuzzy := true;
        break;
      }
      i := i + 1;
    }
  }

  /** The name rule does not depend on which name is the gate's. */
  lemma NameStatusSymmetric(m: string, p: string)
    ensures NameStatus(m, p) == NameStatus(p, m)
  {
    assert NamesOverlap(m, p) == NamesOverlap(p, m);
    assert SharesKeyword(m, p) == SharesKeyword(p, m);
  }

  /** An empty name occurs in every name, so it always passes the name rule. */
  lemma EmptyNamePasses(m: string)
    ensures NameStatus(m, "") == Normal
    ensures NameStatus("", m) == Normal
  {
    ContainsTrivial(m);
  }

  /** Two names sharing a keyword but neither inside the other are a fuzzy match. */
  lemma KeywordMakesFuzzy(m: string, p: string, k: nat)
    requires k < |Keywords| && Contains(m, Keywords[k]) && Contains(p, Keywords[k])
    requires !NamesOverlap(m, p)
    ensures NameStatus(m, p) == FuzzyMatch
  {
  }

  /** "焦炭粉" contains "焦炭": the names pass exactly. */
  lemma SubstringNamesPass()
    ensures NameStatus("焦炭粉", "焦炭") == Normal
  {
    assert OccursAt("焦炭粉", "焦炭", 0);
  }

  /** "冶金焦" and "焦炭" share only the keyword 焦: a fuzzy match. */
  lemma SharedKeywordIsFuzzy()
    ensures NameStatus("冶金焦", "焦炭") == FuzzyMatch
  {
    assert Keywords[0] == "焦";
    assert OccursAt("冶金焦", Keywords[0], 2);
    assert OccursAt("焦炭", Keywords[0], 0);
    assert SharesKeyword("冶金焦", "焦炭");
    assert !Contains("冶金焦", "焦炭") by {
      forall i | 0 <= i <= 1 ensures !OccursAt("冶金焦", "焦炭", i) {
        assert "冶金焦"[i + 1] != '炭';
      }
    }
    assert !Contains("焦炭", "冶金焦");
  }

  /** "铁矿石" and "焦炭" share no keyword and neither contains the other: a mismatch. */
  lemma UnrelatedNamesDiffer()
    ensures NameStatus("焦炭", "铁矿石") == NameDiffers
  {
    assert !Contains("焦炭", "铁矿石");
    assert !Contains("铁矿石", "焦炭") by {
      forall i | 0 <= i <= 1 ensures !OccursAt("铁矿石", "焦炭", i) {
        assert "铁矿石"[i] != '焦';
      }
    }
    forall k | 0 <= k < |Keywords| ensures !Contains("铁矿石", Keywords[k]) {
      ContainsChar("铁矿石", Keywords[k][0]);
      assert Keywords[k] == [Keywords[k][0]];
    }
  }
}
