/** The per-row normalisation done before matching: parsed times and weights,
    the join plate and the effective cargo name of a weighbridge row. */
module Normalize {
  import opened Wrappers
  import opened Text

  // Weighbridge ledger columns.
  const PlateColumn := "车号"
  const NameColumn := "存货名称"
  const SpecColumn := "规格型号"
  const WeightColumn := "净重"
  const TimeColumn := "毛重过磅时间"

  /** One weighbridge row. `columns` holds every cell of the row as its text
      (a missing cell reads "nan"); `weighTime` is the time column as parsed
      (seconds, `None` for NaT) and `netWeight` the weight column as parsed
      (hundredths, `None` when it is not a number). */
  datatype WeighRow = WeighRow(columns: map<string, string>, weighTime: Option<int>, netWeight: Option<int>)

  /** One gate-log row: the plate, exit-time and cargo cells as text, the exit
      time as parsed (`None` for NaT) and the net weight as parsed (hundredths). */
  datatype GateRow = GateRow(plate: string, exitText: string, exitTime: Option<int>,
                             netWeight: Option<int>, cargo: string)

  /** The ledger columns the conversion step reads by subscript; a row without
      them stops the program with a KeyError before any row is matched. */
  predicate HasRequiredColumns(w: WeighRow) {
    PlateColumn in w.columns && TimeColumn in w.columns && WeightColumn in w.columns
  }

  /** The join key of a plate cell: ASCII spaces deleted, then white space
      stripped from both ends. Case is kept. */
  function JoinPlate(cell: string): string {
    Strip(RemoveAll(cell, ' '))
  }

  /** A join key holds no ASCII space and no white space at either end. */
  lemma JoinPlateShape(cell: string)
    ensures ' ' !in JoinPlate(cell)
    ensures Stripped(JoinPlate(cell))
  {
    RemoveAllMembers(cell, ' ');
    StripAddsNothing(RemoveAll(cell, ' '), ' ');
    StripSpec(RemoveAll(cell, ' '));
  }

  /** Normalising a join key again changes nothing. */
  lemma JoinPlateIdempotent(cell: string)
    ensures JoinPlate(JoinPlate(cell)) == JoinPlate(cell)
  {
    var r := JoinPlate(cell);
    JoinPlateShape(cell);
    RemoveAllAbsent(r, ' ');
    StripStripped(r);
  }

  /** An ASCII space anywhere in the plate cell does not change its join key. */
  lemma JoinPlateIgnoresSpace(a: string, b: string)
    ensures JoinPlate(a + " " + b) == JoinPlate(a + b)
  {
    var ra, rb := RemoveAll(a, ' '), RemoveAll(b, ' ');
    assert RemoveAll(" ", ' ') == [];
    calc {
      RemoveAll(a + " " + b, ' ');
      { RemoveAllAppend(a + " ", b, ' '); }
      RemoveAll(a + " ", ' ') + rb;
      { RemoveAllAppend(a, " ", ' '); }
      ra + rb;
      { RemoveAllAppend(a, b, ' '); }
      RemoveAll(a + b, ' ');
    }
  }

  /** A cell with no ASCII space and no white space at its ends is its own join key. */
  lemma JoinPlateFixes(cell: string)
    requires ' ' !in cell && Stripped(cell)
    ensures JoinPlate(cell) == cell
  {
    RemoveAllAbsent(cell, ' ');
    StripStripped(cell);
  }

  /** Two different cells that are already in join-key form never join: in
      particular plates that differ only in letter case stay apart. */
  lemma JoinPlatesDistinct(a: string, b: string)
    requires ' ' !in a && Stripped(a) && ' ' !in b && Stripped(b)
    requires a != b
    ensures JoinPlate(a) != JoinPlate(b)
  {
    JoinPlateFixes(a);
    JoinPlateFixes(b);
  }

  /** An instance: "京a123" and "京A123" have different join keys. */
  lemma JoinPlateKeepsCase()
    ensures JoinPlate("京a123") != JoinPlate("京A123")
  {
    JoinPlatesDistinct("京a123", "京A123");
  }

  /** `str(row.get(key, ''))`: the cell's text, or the empty string when the row has no such column. */
  function CellOr(columns: map<string, string>, key: string): string {
    if key in columns then columns[key] else ""
  }

  /** The name column is unusable as a cargo name: empty, "nan" in any case,
      or a number once its dots are removed. */
  predicate IsPlaceholderName(d: string) {
    d == [] || LowersToNan(d) || IsDigits(RemoveAll(d, '.'))
  }

  /** `get_real_name`: the stripped name cell, or the stripped spec cell when
      the name cell is unusable. */
  function RealName(columns: map<string, string>): string {
    var d := Strip(CellOr(columns, NameColumn));
    if IsPlaceholderName(d) then Strip(CellOr(columns, SpecColumn)) else d
  }

  /** The effective name is always a stripped string, taken from the name cell or the spec cell. */
  lemma RealNameShape(columns: map<string, string>)
    ensures var r := RealName(columns);
      Stripped(r)
      && (r == Strip(CellOr(columns, NameColumn)) || r == Strip(CellOr(columns, SpecColumn)))
  {
    StripSpec(CellOr(columns, NameColumn));
    StripSpec(CellOr(columns, SpecColumn));
  }

  /** The name cell is replaced by the spec cell exactly when, after stripping,
      it is empty, reads "nan" in any letter case, or is made of digits and dots
      with at least one digit; a row without a name column uses the spec cell. */
  lemma RealNameChoice(columns: map<string, string>)
    ensures var d := Strip(CellOr(columns, NameColumn));
      var usesSpec := d == [] || LowersToNan(d)
        || ((exists i :: 0 <= i < |d| && IsDigitChar(d[i]))
            && (forall i :: 0 <= i < |d| ==> IsDigitChar(d[i]) || d[i] == '.'));
      RealName(columns) == (if usesSpec then Strip(CellOr(columns, SpecColumn)) else d)
    ensures NameColumn !in columns ==> RealName(columns) == Strip(CellOr(columns, SpecColumn))
  {
    DigitsIgnoringDots(Strip(CellOr(columns, NameColumn)));
  }

  /** The weigh weight after `fillna(0)`. */
  function WeighWeight(w: WeighRow): int {
    w.netWeight.GetOr(0)
  }

  /** The gate weight after `fillna(0)`. */
  function GateWeight(g: GateRow): int {
    g.netWeight.GetOr(0)
  }

  /** The join key of a weighbridge row. */
  function WeighPlate(w: WeighRow): string
    requires HasRequiredColumns(w)
  {
    JoinPlate(w.columns[PlateColumn])
  }
}
