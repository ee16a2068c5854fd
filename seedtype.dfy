/** `model::SeedType`: a read-only list model over (name, code) rows. */
module SeedTypeModel {
  import opened Common
  import opened Ordering

  /** Qt item-data roles the model answers. */
  const DisplayRole: int := 0x0000
  const UserRole: int := 0x0100

  /** What `data()` hands back: an empty variant, a display string or the code. */
  datatype Variant = Empty | Text(text: string) | Code(code: int)

  /** A view's index into the model: invalid, or a row (column ignored). */
  datatype ModelIndex = Invalid | At(row: int)

  /** The list rows and the value the constructor folds into `max_`. */
  datatype SeedType = SeedType(rows: seq<Entry>, max: int)

  /** The `std::accumulate` fold: the names' UTF-8 byte lengths added up. */
  function NameLengthSum(rows: seq<Entry>): (n: int) {
    if rows == [] then 0 else Utf8Length(rows[0].0) + NameLengthSum(rows[1..])
  }

  /** The constructor, which keeps the rows and computes `max_`. */
  function NewSeedType(rows: seq<Entry>): (st: SeedType) {
    SeedType(rows, NameLengthSum(rows))
  }

  /** `max_` is the sum of all name lengths, so no name is longer than it,
      and with two non-empty names it exceeds every single one of them. */
  lemma {:induction false} MaxBoundsEveryName(rows: seq<Entry>, i: int)
    requires 0 <= i < |rows|
    ensures Utf8Length(rows[i].0) <= NewSeedType(rows).max
    ensures (exists j :: 0 <= j < |rows| && j != i && Utf8Length(rows[j].0) > 0) ==> Utf8Length(rows[i].0) < NewSeedType(rows).max
  {
    SumDominates(rows, i);
  }

  lemma {:induction false} SumDominates(rows: seq<Entry>, i: int)
    requires 0 <= i < |rows|
    ensures NameLengthSum(rows) >= Utf8Length(rows[i].0)
    ensures forall j :: 0 <= j < |rows| && j != i ==> NameLengthSum(rows) >= Utf8Length(rows[i].0) + Utf8Length(rows[j].0)
  {
    SumNonNegative(rows[1..]);
    if i > 0 {
      SumDominates(rows[1..], i - 1);
      assert forall j :: 1 <= j < |rows| && j != i ==> rows[1..][j - 1] == rows[j];
    } else {
      forall j | 0 < j < |rows|
        ensures NameLengthSum(rows[1..]) >= Utf8Length(rows[j].0)
      {
        SumDominates(rows[1..], j - 1);
      }
    }
  }

  lemma {:induction false} SumNonNegative(rows: seq<Entry>)
    ensures NameLengthSum(rows) >= 0
  {
    if rows != [] { SumNonNegative(rows[1..]); }
  }

  /** `SeedType::rowCount`: the number of rows. */
  function RowCount(st: SeedType): (n: int) {
    |st.rows|
  }

  /** `SeedType::data`: an invalid index, a row outside the rows (what
      `at()` throws for) or any role but display and user give `Empty`. */
  function Data(st: SeedType, index: ModelIndex, role: int): (v: Variant)
    ensures v != Empty <==> index.At? && 0 <= index.row < |st.rows| && (role == DisplayRole || role == UserRole)
    ensures v.Text? ==> role == DisplayRole && v.text == st.rows[index.row].0
    ensures v.Code? ==> role == UserRole && v.code == st.rows[index.row].1
  {
    if index.Invalid? then Empty
    else if role == DisplayRole then
      if 0 <= index.row < |st.rows| then Text(st.rows[index.row].0) else Empty
    else if role == UserRole then
      if 0 <= index.row < |st.rows| then Code(st.rows[index.row].1) else Empty
    else Empty
  }

  /** `rowCount` is the number of rows, and the rows a view may ask for
      are exactly those below it. */
  lemma RowCountBoundsData(st: SeedType, row: int)
    ensures RowCount(st) == |st.rows|
    ensures 0 <= row < RowCount(st) <==> Data(st, At(row), DisplayRole) != Empty
    ensures 0 <= row < RowCount(st) <==> Data(st, At(row), UserRole) != Empty
  {
  }
}
