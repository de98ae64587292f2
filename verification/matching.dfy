/** Matching one weighbridge row against the gate log and grading the pair:
    the candidate search, the nearest-later-exit choice, the 48-hour window and
    the three status columns with the remark. */
module Matching {
  import opened Wrappers
  import opened Text
  import opened Normalize
  import opened Rules

  /** 48 hours, in seconds: a pair is kept only when the exit comes less than this after the weighing. */
  const Window := 2880 * 60

  const NotFound := "未找到"
  const InvalidTimeRemark := "磅单时间无效"
  const NoLaterExitRemark := "无后续出厂记录"
  const GapTooLongRemark := "时间间隔过长(>48h)"

  /** The gate fields and statuses added to a weighbridge row. `gateWeight` is
      `None` while the cell holds its initial empty text. */
  datatype Verdict = Verdict(gatePlate: string, gateExitTime: string, gateWeight: Option<int>,
                             gateCargo: string, plateStatus: Status, weightStatus: Status,
                             nameStatus: Status, remark: string)

  /** The initial verdict: nothing found, every status anomalous, no remark. */
  const Unmatched := Verdict(NotFound, "", None, "", Anomaly, Anomaly, Anomaly, "")

  /** A gate row with the same join plate. */
  predicate SamePlate(g: GateRow, plate: string) {
    JoinPlate(g.plate) == plate
  }

  /** Some gate row has the same join plate. */
  predicate AnySamePlate(gates: seq<GateRow>, plate: string) {
    exists j | 0 <= j < |gates| :: SamePlate(gates[j], plate)
  }

  /** A candidate: same join plate, and a valid exit time not before the weigh time `t`
      (a NaT exit time compares false and is never a candidate). */
  predicate Eligible(g: GateRow, plate: string, t: int) {
    SamePlate(g, plate) && g.exitTime.Some? && g.exitTime.value >= t
  }

  /** Seconds from the weighing to the gate exit. */
  function Gap(g: GateRow, t: int): int
    requires g.exitTime.Some?
  {
    g.exitTime.value - t
  }

  /** The candidate with the smallest gap: its index, or `None` when there is
      no candidate. Among equal gaps this picks the earliest row. */
  function Best(gates: seq<GateRow>, plate: string, t: int): (r: Option<nat>)
    ensures r.None? <==> forall j :: 0 <= j < |gates| ==> !Eligible(gates[j], plate, t)
    ensures r.Some? ==> r.value < |gates| && Eligible(gates[r.value], plate, t)
    ensures r.Some? ==> forall j :: 0 <= j < |gates| && Eligible(gates[j], plate, t)
                          ==> Gap(gates[r.value], t) <= Gap(gates[j], t)
  {
    if gates == [] then None
    else
      var last := |gates| - 1;
      var before := Best(gates[..last], plate, t);
      assert forall j :: 0 <= j < last ==> gates[..last][j] == gates[j];
      if !Eligible(gates[last], plate, t) then before
      else if before.None? || Gap(gates[last], t) < Gap(gates[before.value], t) then Some(last)
      else before
  }

  /** The verdict once a gate row `g` has been accepted. */
  function Accepted(w: WeighRow, g: GateRow): Verdict {
    Verdict(g.plate, g.exitText, Some(GateWeight(g)), g.cargo, Normal,
            WeightStatus(WeighWeight(w), GateWeight(g)),
            NameStatus(g.cargo, RealName(w.columns)), "")
  }

  /** The verdict for one weighbridge row: invalid time, no same-plate row, no
      later exit, a gap of 48 hours or more, or the graded nearest later exit. */
  function RowVerdict(w: WeighRow, gates: seq<GateRow>): Verdict
    requires HasRequiredColumns(w)
  {
    match w.weighTime
    case None => Unmatched.(remark := InvalidTimeRemark)
    case Some(t) =>
      var plate := WeighPlate(w);
      if !AnySamePlate(gates, plate) then Unmatched
      else match Best(gates, plate, t)
        case None => Unmatched.(remark := NoLaterExitRemark)
        case Some(b) =>
          if Gap(gates[b], t) < Window then Accepted(w, gates[b])
          else Unmatched.(remark := GapTooLongRemark)
  }

  /** One pass of the row loop: start from the unmatched verdict and fill it
      in field by field, as the branches allow. */
  method VerifyRow(w: WeighRow, gates: seq<GateRow>) returns (res: Verdict)
    requires HasRequiredColumns(w)
    ensures res == RowVerdict(w, gates)
  {
    var plate := WeighPlate(w);
    res := Unmatched;
    if w.weighTime.None? {
      res := res.(remark := InvalidTimeRemark);
    } else {
      var t := w.weighTime.value;
      if AnySamePlate(gates, plate) {
        var best := Best(gates, plate, t);
        if best.Some? {
          var g := gates[best.value];
          if Gap(g, t) < Window {
            res := res.(gatePlate := g.plate, gateExitTime := g.exitText,
                        gateWeight := Some(GateWeight(g)), gateCargo := g.cargo);
            res := res.(plateStatus := Normal);
            if WeightsAgree(WeighWeight(w), GateWeight(g)) {
              res := res.(weightStatus := Normal);
            } else {
              res := res.(weightStatus := WeightDiffers);
            }
            var m, p := g.cargo, RealName(w.columns);
            if NamesOverlap(m, p) {
              res := res.(nameStatus := Normal);
            } else {
              var isFuzzy := ScanKeywords(m, p);
              res := res.(nameStatus := if isFuzzy then FuzzyMatch else NameDiffers);
            }
          } else {
            res := res.(remark := GapTooLongRemark);
          }
        } else {
          res := res.(remark := NoLaterExitRemark);
        }
      }
    }
  }

  /** The pair is accepted: the plate status is normal and the gate fields are filled. */
  predicate IsAccepted(v: Verdict) {
    v.plateStatus == Normal
  }

  /** An invalid weigh time gives the unmatched verdict with its remark, whatever the gate log holds. */
  lemma InvalidTimeIgnoresGates(w: WeighRow, gates: seq<GateRow>, others: seq<GateRow>)
    requires HasRequiredColumns(w) && w.weighTime.None?
    ensures RowVerdict(w, gates) == RowVerdict(w, others)
    ensures var v := RowVerdict(w, gates);
      v.remark == InvalidTimeRemark && v.gatePlate == NotFound
      && v.plateStatus == v.weightStatus == v.nameStatus == Anomaly
  {
  }

  /** No gate row with the same join plate: the verdict stays unmatched and the
      remark stays empty; only the gate plate "未找到" tells. */
  lemma NoSamePlateLeavesRemarkEmpty(w: WeighRow, gates: seq<GateRow>)
    requires HasRequiredColumns(w) && w.weighTime.Some?
    requires forall j :: 0 <= j < |gates| ==> JoinPlate(gates[j].plate) != WeighPlate(w)
    ensures RowVerdict(w, gates) == Unmatched
    ensures RowVerdict(w, gates).remark == ""
  {
  }

  /** Same-plate rows exist but none exits at or after the weighing. */
  lemma NoLaterExit(w: WeighRow, gates: seq<GateRow>, j: nat)
    requires HasRequiredColumns(w) && w.weighTime.Some?
    requires j < |gates| && JoinPlate(gates[j].plate) == WeighPlate(w)
    requires forall k :: 0 <= k < |gates| && JoinPlate(gates[k].plate) == WeighPlate(w)
               ==> gates[k].exitTime.None? || gates[k].exitTime.value < w.weighTime.value
    ensures RowVerdict(w, gates) == Unmatched.(remark := NoLaterExitRemark)
  {
    assert SamePlate(gates[j], WeighPlate(w));
  }

  /** The pair is accepted exactly when some candidate exits less than 48
      hours after the weighing; otherwise the verdict is unmatched. */
  lemma AcceptedIffWithinWindow(w: WeighRow, gates: seq<GateRow>)
    requires HasRequiredColumns(w)
    ensures var v := RowVerdict(w, gates);
      IsAccepted(v) <==>
        w.weighTime.Some? &&
        exists j :: 0 <= j < |gates| && Eligible(gates[j], WeighPlate(w), w.weighTime.value)
                    && Gap(gates[j], w.weighTime.value) < Window
  {
    if w.weighTime.Some? {
      var t, plate := w.weighTime.value, WeighPlate(w);
      if j :| 0 <= j < |gates| && Eligible(gates[j], plate, t) && Gap(gates[j], t) < Window {
        assert SamePlate(gates[j], plate);
      }
    }
  }

  /** Candidates exist but the nearest one exits 48 hours or more after the
      weighing: the match is dropped and the remark says the gap is too long. */
  lemma GapTooLongDropsMatch(w: WeighRow, gates: seq<GateRow>, j: nat)
    requires HasRequiredColumns(w) && w.weighTime.Some?
    requires j < |gates| && Eligible(gates[j], WeighPlate(w), w.weighTime.value)
    requires forall k :: 0 <= k < |gates| && Eligible(gates[k], WeighPlate(w), w.weighTime.value)
               ==> Gap(gates[k], w.weighTime.value) >= Window
    ensures RowVerdict(w, gates) == Unmatched.(remark := GapTooLongRemark)
  {
    assert SamePlate(gates[j], WeighPlate(w));
  }

  /** An accepted verdict copies the fields of a candidate with the smallest
      gap, less than 48 hours, and grades that candidate's weight and name. */
  lemma AcceptedIsNearestCandidate(w: WeighRow, gates: seq<GateRow>)
    requires HasRequiredColumns(w)
    requires IsAccepted(RowVerdict(w, gates))
    ensures w.weighTime.Some?
    ensures var v, t, plate := RowVerdict(w, gates), w.weighTime.value, WeighPlate(w);
      exists j :: 0 <= j < |gates| && Eligible(gates[j], plate, t)
        && Gap(gates[j], t) < Window
        && (forall k :: 0 <= k < |gates| && Eligible(gates[k], plate, t) ==> Gap(gates[j], t) <= Gap(gates[k], t))
        && v == Accepted(w, gates[j])
  {
    var t, plate := w.weighTime.value, WeighPlate(w);
    var b := Best(gates, plate, t).value;
    assert Eligible(gates[b], plate, t);
  }

  /** The three statuses move together: all anomalous when the pair is not
      accepted, none anomalous when it is. An unaccepted verdict keeps every
      gate cell at its default and differs from the initial one at most in
      its remark; the remark is empty for an accepted pair. */
  lemma StatusesAgree(w: WeighRow, gates: seq<GateRow>)
    requires HasRequiredColumns(w)
    ensures var v := RowVerdict(w, gates);
      (v.plateStatus == Anomaly <==> v.weightStatus == Anomaly)
      && (v.plateStatus == Anomaly <==> v.nameStatus == Anomaly)
      && (v.plateStatus == Anomaly <==> v.gatePlate == NotFound && v.gateWeight.None?)
      && (v.plateStatus == Anomaly ==> v == Unmatched.(remark := v.remark))
      && (IsAccepted(v) ==> v.remark == "")
      && (v.plateStatus == Normal || v.plateStatus == Anomaly)
  {
  }

  /** An accepted verdict carries the gate weight, and its weight and name
      statuses follow the two rules: weight normal exactly within the
      tolerance, otherwise "不符"; name normal on equality or containment,
      "模糊匹配" on a shared keyword, otherwise "不符". */
  lemma AcceptedRules(w: WeighRow, gates: seq<GateRow>)
    requires HasRequiredColumns(w)
    requires IsAccepted(RowVerdict(w, gates))
    ensures var v, p := RowVerdict(w, gates), RealName(w.columns);
      v.gateWeight.Some? && v.remark == ""
      && (v.weightStatus == Normal <==> -Tolerance <= WeighWeight(w) - v.gateWeight.value <= Tolerance)
      && (v.weightStatus != Normal ==> v.weightStatus == WeightDiffers)
      && (v.nameStatus == Normal <==> NamesOverlap(v.gateCargo, p))
      && (v.nameStatus == FuzzyMatch <==> !NamesOverlap(v.gateCargo, p) && SharesKeyword(v.gateCargo, p))
      && (v.nameStatus == NameDiffers <==> !NamesOverlap(v.gateCargo, p) && !SharesKeyword(v.gateCargo, p))
  {
    AcceptedIsNearestCandidate(w, gates);
  }

  /** An unparseable weight counts as zero in the weight rule. */
  lemma UnparseableWeightIsZero(w: WeighRow, g: GateRow)
    requires w.netWeight.None?
    ensures Accepted(w, g).weightStatus == Normal <==> -Tolerance <= GateWeight(g) <= Tolerance
  {
  }

  /** The join key of "京A123 " (trailing space) and of "京A123" is "京A123". */
  lemma ExamplePlates()
    ensures JoinPlate("京A123 ") == JoinPlate("京A123") == "京A123"
  {
    assert Stripped("京A123");
    assert RemoveAll("京A123 ", ' ') == "京A123" by {
      assert "京A123 " == "京A123" + " ";
      RemoveAllAppend("京A123", " ", ' ');
      RemoveAllAbsent("京A123", ' ');
    }
    RemoveAllAbsent("京A123", ' ');
    StripStripped("京A123");
  }

  /** A name cell "焦炭" is a real name and is kept. */
  lemma ExampleName(cols: map<string, string>)
    requires NameColumn in cols && cols[NameColumn] == "焦炭"
    ensures RealName(cols) == "焦炭"
  {
    assert Stripped("焦炭");
    StripStripped("焦炭");
    RemoveAllAbsent("焦炭", '.');
    assert !IsDigitChar("焦炭"[0]);
    assert !IsPlaceholderName("焦炭");
  }

  /** A worked example: plate "京A123 " weighed at 08:00 with 30.00 of "焦炭",
      and gate row "京A123" leaving at 10:00 with 30.01 of "焦炭粉" (times in
      seconds since midnight of the same day, since only the gap between the
      two times enters the verdict; weights in hundredths). */
  const ExampleWeigh := WeighRow(map[PlateColumn := "京A123 ", NameColumn := "焦炭",
                                     TimeColumn := "2024-01-01 08:00", WeightColumn := "30.00"],
                                 Some(28800), Some(3000))
  const ExampleGate := GateRow("京A123", "2024-01-01 10:00", Some(36000), Some(3001), "焦炭粉")

  /** The example's gate row is the only candidate and lies two hours after the weighing. */
  lemma ExampleIsAccepted()
    ensures RowVerdict(ExampleWeigh, [ExampleGate]) == Accepted(ExampleWeigh, ExampleGate)
  {
    ExamplePlates();
    assert [ExampleGate][0] == ExampleGate;
    assert SamePlate(ExampleGate, WeighPlate(ExampleWeigh));
    assert AnySamePlate([ExampleGate], WeighPlate(ExampleWeigh));
    assert Eligible(ExampleGate, WeighPlate(ExampleWeigh), 28800);
    assert Best([ExampleGate], WeighPlate(ExampleWeigh), 28800) == Some(0);
    assert Gap(ExampleGate, 28800) < Window;
  }

  /** The example is accepted with normal weight (0.01 apart) and normal name ("焦炭" is inside "焦炭粉"). */
  lemma WorkedExample()
    ensures RowVerdict(ExampleWeigh, [ExampleGate])
         == Verdict("京A123", "2024-01-01 10:00", Some(3001), "焦炭粉", Normal, Normal, Normal, "")
  {
    ExampleIsAccepted();
    ExampleName(ExampleWeigh.columns);
    SubstringNamesPass();
  }
}
