/** The row loop of the reconciliation: for each weighbridge row, in order,
    its verdict is computed, the row's temporary columns are dropped, the
    verdict's columns are merged in, and the row is appended to the results. */
module Reconcile {
  import opened Wrappers
  import opened Normalize
  import opened Rules
  import opened Matching

  /** A cell of an output row: text, a weight in hundredths, or a parsed time. */
  datatype Cell = Text(text: string) | Number(hundredths: int) | Stamp(seconds: Option<int>)

  // The columns the conversion step adds to the ledger and the loop removes again.
  const TimeDtColumn := "过磅时间_dt"
  const WeightNumColumn := "净重_num"
  const JoinPlateColumn := "join_plate"
  const RealNameColumn := "有效货名"

  /** The temporary columns, in the order the loop deletes them. */
  const TemporaryColumns: seq<string> := [TimeDtColumn, WeightNumColumn, JoinPlateColumn, RealNameColumn]
  const TemporarySet: set<string> := {TimeDtColumn, WeightNumColumn, JoinPlateColumn, RealNameColumn}

  // The verdict's columns.
  const GatePlateColumn := "门禁车牌"
  const GateTimeColumn := "门禁出厂时间"
  const GateWeightColumn := "门禁净重"
  const GateNameColumn := "门禁货名"
  const PlateStatusColumn := "状态_车牌"
  const WeightStatusColumn := "状态_净重"
  const NameStatusColumn := "状态_货名"
  const RemarkColumn := "备注"

  const VerdictSet: set<string> := {GatePlateColumn, GateTimeColumn, GateWeightColumn, GateNameColumn,
                                    PlateStatusColumn, WeightStatusColumn, NameStatusColumn, RemarkColumn}

  /** The verdict as the eight cells merged into the row; the gate weight is
      empty text until a pair is accepted. */
  function VerdictCells(v: Verdict): (cells: map<string, Cell>)
    ensures cells.Keys == VerdictSet
  {
    map[GatePlateColumn := Text(v.gatePlate),
        GateTimeColumn := Text(v.gateExitTime),
        GateWeightColumn := (match v.gateWeight case None => Text("") case Some(x) => Number(x)),
        GateNameColumn := Text(v.gateCargo),
        PlateStatusColumn := Text(Label(v.plateStatus)),
        WeightStatusColumn := Text(Label(v.weightStatus)),
        NameStatusColumn := Text(Label(v.nameStatus)),
        RemarkColumn := Text(v.remark)]
  }

  /** `row.to_dict()`: the row's own cells with the four temporary columns the
      conversion step added (each overriding a same-named cell). */
  function RowDict(w: WeighRow): map<string, Cell>
    requires HasRequiredColumns(w)
  {
    (map k | k in w.columns :: Text(w.columns[k]))
    + map[TimeDtColumn := Stamp(w.weighTime),
          WeightNumColumn := Number(WeighWeight(w)),
          JoinPlateColumn := Text(WeighPlate(w)),
          RealNameColumn := Text(RealName(w.columns))]
  }

  /** The result row of one weighbridge row: its dictionary without the
      temporary columns, updated with the verdict's cells. */
  function ResultRow(w: WeighRow, gates: seq<GateRow>): map<string, Cell>
    requires HasRequiredColumns(w)
  {
    (RowDict(w) - TemporarySet) + VerdictCells(RowVerdict(w, gates))
  }

  /** A result row has exactly the row's own columns except the temporary
      ones, plus the verdict's columns; every own column the verdict does not
      overwrite keeps its cell. */
  lemma ResultRowShape(w: WeighRow, gates: seq<GateRow>)
    requires HasRequiredColumns(w)
    ensures var row := ResultRow(w, gates);
      row.Keys == (w.columns.Keys - TemporarySet) + VerdictSet
      && forall k :: k in w.columns && k !in TemporarySet && k !in VerdictSet ==> row[k] == Text(w.columns[k])
  {
    var cells := VerdictCells(RowVerdict(w, gates));
    assert RowDict(w).Keys == w.columns.Keys + TemporarySet;
  }

  /** The deletion loop: each temporary column present in the row is removed. */
  method DropTemporaries(rowData: map<string, Cell>) returns (r: map<string, Cell>)
    ensures r == rowData - TemporarySet
  {
    r := rowData;
    var i := 0;
    while i < |TemporaryColumns|
      invariant 0 <= i <= |TemporaryColumns|
      invariant r == rowData - (set j | 0 <= j < i :: TemporaryColumns[j])
    {
      var k := TemporaryColumns[i];
      if k in r {
        r := r - {k};
      }
      assert (set j | 0 <= j < i + 1 :: TemporaryColumns[j]) == (set j | 0 <= j < i :: TemporaryColumns[j]) + {k};
      i := i + 1;
    }
    assert TemporaryColumns[0] == TimeDtColumn && TemporaryColumns[1] == WeightNumColumn;
    assert TemporaryColumns[2] == JoinPlateColumn && TemporaryColumns[3] == RealNameColumn;
    assert (set j | 0 <= j < |TemporaryColumns| :: TemporaryColumns[j]) == TemporarySet;
  }

  /** Every weighbridge row is present with the columns the conversion step reads. */
  predicate AllHaveRequiredColumns(ledger: seq<WeighRow>) {
    forall i :: 0 <= i < |ledger| ==> HasRequiredColumns(ledger[i])
  }

  /** One iteration of the row loop: grade the row, take its dictionary,
      delete the temporary columns and merge in the verdict. */
  method ProcessRow(w: WeighRow, gates: seq<GateRow>) returns (rowData: map<string, Cell>)
    requires HasRequiredColumns(w)
    ensures rowData == ResultRow(w, gates)
  {
    var res := VerifyRow(w, gates);
    rowData := RowDict(w);
    rowData := DropTemporaries(rowData);
    rowData := rowData + VerdictCells(res);
  }

  /** The reconciliation: one result row per weighbridge row, in input order. */
  method Reconcile(ledger: seq<WeighRow>, gates: seq<GateRow>) returns (results: seq<map<string, Cell>>)
    requires AllHaveRequiredColumns(ledger)
    ensures |results| == |ledger|
    ensures forall i :: 0 <= i < |ledger| ==> results[i] == ResultRow(ledger[i], gates)
  {
    results := [];
    var i := 0;
    while i < |ledger|
      invariant 0 <= i <= |ledger|
      invariant |results| == i
      invariant forall j :: 0 <= j < i ==> results[j] == ResultRow(ledger[j], gates)
    {
      var rowData := ProcessRow(ledger[i], gates);
      results := results + [rowData];
      i := i + 1;
    }
  }

  /** The three status cells of a result row are the labels of its verdict: all
      "🔴异常" unless the pair was accepted. */
  lemma ResultStatuses(w: WeighRow, gates: seq<GateRow>)
    requires HasRequiredColumns(w)
    ensures var row, v := ResultRow(w, gates), RowVerdict(w, gates);
      row[PlateStatusColumn] == Text(Label(v.plateStatus))
      && row[WeightStatusColumn] == Text(Label(v.weightStatus))
      && row[NameStatusColumn] == Text(Label(v.nameStatus))
      && (!IsAccepted(v) ==> row[PlateStatusColumn] == row[WeightStatusColumn] == row[NameStatusColumn]
                             == Text("🔴异常"))
  {
    StatusesAgree(w, gates);
    ResultRowShape(w, gates);
  }
}
