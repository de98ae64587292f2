# Weighbridge / gate-log reconciliation, modelled in Dafny

The program reconciles a weighbridge ledger (磅单列表: one row per weighing,
with plate 车号, cargo name 存货名称, spec 规格型号, net weight 净重 and time
毛重过磅时间) with a gate log (门禁数据: one row per truck leaving, with plate
车牌号, cargo 运输货物名称, net weight 运输货物净重 and exit time 出厂时间).
For every ledger row, in order, it looks for gate rows with the same join
plate that exit at or after the weighing, takes the one with the smallest
gap, keeps it only when the gap is under 48 hours, and grades the pair:
plate status, weight status (0.02 tolerance, inclusive) and name status
(exact or containment, else a shared material keyword 焦 煤 油 酸 碱 盐 苯 gives
"模糊匹配", else "不符"). Each ledger row comes out with its temporary columns
removed and eight verdict columns (门禁车牌, 门禁出厂时间, 门禁净重, 门禁货名,
状态_车牌, 状态_净重, 状态_货名, 备注) merged in.

Files:

- `wrappers.dfy` — `Option`, used for values that fail to parse (NaT, NaN).
- `text.dfy` — the Python string operations the program uses: `strip()`
  with Python's white-space set, `replace(c, '')`, `isdigit()`,
  `lower() == 'nan'` and the substring test `in`.
- `normalize.dfy` — rows of both tables, the join plate and `get_real_name`.
- `rules.dfy` — the status labels, the weight rule and the name rule with its
  keyword scan (a loop that stops at the first shared keyword).
- `matching.dfy` — candidate selection, the verdict of one row as a function
  (`RowVerdict`) and as the branch-by-branch method of the loop body
  (`VerifyRow`), and the lemmas about every outcome.
- `reconcile.dfy` — the output row as a dictionary, the deletion loop over the
  temporary columns, and the main loop `Reconcile`.

Units: times are whole seconds (`None` for NaT), so the 48-hour window is a
gap below `2880 * 60` seconds; weights are hundredths (`None` when not a
number, read as 0 like `fillna(0)`), so the tolerance is 2.

The model follows the code as written; in particular:

- the join plate deletes only ASCII spaces and then strips the ends; it does
  not upper-case (`JoinPlatesDistinct`) and does not remove inner full-width or
  non-breaking spaces;
- a gap of 48 hours or more drops the match: all statuses stay "🔴异常" and the
  remark is "时间间隔过长(>48h)"; there is no separate "stale" status, and a gap
  of exactly 48 hours is dropped too (`< 2880` minutes);
- when no gate row has the same plate, the remark stays empty; only the gate
  plate "未找到" signals it;
- a name mismatch adds nothing to the remark, and no dwell time is stored;
- ties between equal gaps: the code sorts with a non-stable sort and takes the
  first row, so it promises only *a* nearest candidate. `Best` picks the
  earliest such row, but no lemma here relies on that choice: every statement
  about the chosen row says only that its gap is minimal.

## Model

| member | source | states |
|---|---|---|
| `Text.StripSpec` | main.py:70-71 | `strip()` returns a piece of its argument with only white space (Python's set) around it and none at its ends |
| `Text.StripIdempotent` | main.py:70-71 | stripping twice is stripping once |
| `Text.RemoveAllMembers` | main.py:65-66 | `replace(c, '')` keeps every other character and drops every `c` |
| `Text.DigitsIgnoringDots` | main.py:72 | `d.replace('.','').isdigit()` holds iff `d` is made of digits and dots with at least one digit |
| `Normalize.JoinPlateShape` | main.py:65-66 | a join plate has no ASCII space and no white space at its ends |
| `Normalize.JoinPlateIdempotent` | main.py:65-66 | normalising a join plate again changes nothing |
| `Normalize.JoinPlateIgnoresSpace` | main.py:65-66 | an ASCII space anywhere in the plate cell does not change the join plate |
| `Normalize.JoinPlateFixes` | main.py:65-66 | a cell with no ASCII space and no white space at its ends is its own join key |
| `Normalize.JoinPlatesDistinct` | main.py:65-66 | two different cells already in join-key form never join, so plates differing only in letter case stay apart (no upper-casing) |
| `Normalize.JoinPlateKeepsCase` | main.py:65-66 | an instance: "京a123" and "京A123" have different join keys |
| `Normalize.RealNameShape` | main.py:69-74 | the effective name is always a stripped string, and it is either the stripped name cell or the stripped spec cell |
| `Normalize.RealNameChoice` | main.py:69-74 | the spec cell is used exactly when the stripped name is empty, "nan" in any case, or digits and dots with a digit; a missing name column reads as empty |
| `Rules.LabelsDistinct` | main.py:89-135 | the five status labels are five different texts |
| `Rules.WeightStatus` | main.py:117-120 | weight status is "🟢正常" iff the weights differ by at most 0.02 (inclusive), else "🟡不符" |
| `Rules.NameStatus` | main.py:123-135 | name status is "🟢正常" iff the names are equal or one contains the other, "🟢模糊匹配" iff they do not but share a keyword, "🔴不符" iff neither |
| `Rules.ScanKeywords` | main.py:129-134 | the scan with early exit returns true iff some keyword occurs in both names |
| `Rules.NameStatusSymmetric` | main.py:125-135 | the name rule gives the same status with the two names swapped |
| `Rules.EmptyNamePasses` | main.py:125-126 | an empty name occurs in every name, so it always passes as "🟢正常" |
| `Rules.KeywordMakesFuzzy` | main.py:129-135 | a shared keyword without containment gives "🟢模糊匹配" |
| `Rules.SubstringNamesPass` | main.py:125-126 | "焦炭" inside "焦炭粉" passes as "🟢正常" |
| `Rules.SharedKeywordIsFuzzy` | main.py:129-135 | "冶金焦" against "焦炭" is a fuzzy match |
| `Rules.UnrelatedNamesDiffer` | main.py:123-135 | "焦炭" against "铁矿石" is "🔴不符" |
| `Matching.Best` | main.py:99-105 | no choice iff no gate row has the same join plate and a valid exit time at or after the weighing; otherwise the choice is such a row with a gap no larger than any other's |
| `Matching.VerifyRow` | main.py:80-139 | the loop body, filling the result field by field, yields exactly `RowVerdict` |
| `Matching.InvalidTimeIgnoresGates` | main.py:84-96 | an invalid weigh time gives remark "磅单时间无效", gate plate "未找到" and three "🔴异常", whatever the gate log holds |
| `Matching.NoSamePlateLeavesRemarkEmpty` | main.py:84-100 | with no same-plate gate row the result stays the initial one, remark empty |
| `Matching.NoLaterExit` | main.py:100-139 | same-plate rows exist but none exits at or after the weighing: remark "无后续出厂记录", statuses "🔴异常" |
| `Matching.AcceptedIffWithinWindow` | main.py:102-114 | the pair is accepted (plate "🟢正常") iff some candidate exits less than 48 hours after the weighing |
| `Matching.GapTooLongDropsMatch` | main.py:107-137 | candidates exist but all are 48 hours or more away: remark "时间间隔过长(>48h)", nothing recorded, statuses "🔴异常" |
| `Matching.AcceptedIsNearestCandidate` | main.py:99-114 | an accepted result copies plate, exit time, weight and cargo of a candidate with minimal gap, under 48 hours |
| `Matching.AcceptedRules` | main.py:114-135 | for an accepted pair: weight status by the inclusive tolerance, name status by overlap, then shared keyword, else "🔴不符"; remark empty |
| `Matching.StatusesAgree` | main.py:84-137 | the three statuses are all "🔴异常" or none is; they are "🔴异常" exactly when gate plate is "未找到" and gate weight empty, and then all four gate cells keep their defaults (only the remark may change) |
| `Matching.UnparseableWeightIsZero` | main.py:61-62 | an unparseable weigh weight is compared as 0 |
| `Matching.WorkedExample` | main.py:95-126 | "京A123 " at 08:00, 30.00 "焦炭" against "京A123" at 10:00, 30.01 "焦炭粉": accepted, weight and name "🟢正常" |
| `Reconcile.VerdictCells` | main.py:84-93 | the verdict contributes exactly the eight result columns |
| `Reconcile.ResultRowShape` | main.py:141-145 | a result row has the ledger row's own columns minus the four temporary ones, plus the eight verdict columns; other cells are unchanged |
| `Reconcile.DropTemporaries` | main.py:143-144 | the deletion loop removes exactly the four temporary columns |
| `Reconcile.ProcessRow` | main.py:80-146 | one loop iteration yields exactly `ResultRow` of its ledger row: the verdict, the row without its temporary columns, the verdict merged in |
| `Reconcile.Reconcile` | main.py:77-146 | exactly one result row per ledger row, in input order, each the `ResultRow` of that row |
| `Reconcile.ResultStatuses` | main.py:84-145 | the three status cells of a result row are its verdict's plate, weight and name labels, all "🔴异常" unless the pair was accepted |

## Left out

- Reading the two CSV files with the encoding retries, the missing-file
  message, writing the result as GBK CSV, console output, `sys.stdout`
  rewrapping, `time.sleep` and the `input()` pauses: I/O and user interface.
- Column-header stripping: header cleanup on the DataFrame; rows here are
  keyed by the already-clean column names.
- `pd.to_datetime` and `pd.to_numeric`: a foreign library. Their results enter
  the model as the rows' parsed fields (`Option<int>` seconds and hundredths),
  so column-wide format inference and sub-second precision are not modelled.
- `Rules.WeightStatus`: weights are exact hundredths, so floating-point
  rounding is not captured; with floats, `abs(30.01 - 29.99)` comes out
  slightly above 0.02, so the program writes "🟡不符" where the model's exact
  hundredths give "🟢正常". Weights with more than two decimals are outside
  the model.
- `Text.DigitsIgnoringDots`: `isdigit` is modelled for ASCII and full-width
  digits only; other Unicode digits Python accepts (superscripts, circled
  digits, digits of other scripts) count as non-digits here.
- `astype(str)` and `str()` of non-text cells: every cell is taken as its
  text, with a missing cell reading "nan"; number formatting such as "30.0"
  is part of that text.
- Column order of the output rows: rows are maps, so the order pandas writes
  columns in is not modelled.
- A ledger row lacking the plate, time or weight column stops the program
  with a KeyError before matching; the model requires those columns instead.
- Missing gate-log columns: the program reads 车牌号, 出厂时间 and 运输货物净重
  by subscript before any matching (main.py:60, 62, 66), and 运输货物名称 only
  when a pair is accepted (main.py:112), so a gate log without that column
  stops the program at the first accepted pair and no result file is written.
  `GateRow` always carries all four fields, so these aborts are not modelled.
