/**
 * The append-only log: one Record per submitted movement, the Table as the
 * ordered sequence of records, loading with an empty default, and appending.
 */
module Log {
  import opened Wrappers

  /**
   * The Photo cell of a row. A submitted row holds the base64 text of the
   * JPEG (empty when no picture was taken); a row read back from the CSV file
   * may hold no string at all (pandas' NaN for an empty cell).
   */
  datatype Photo = Encoded(text: string) | Missing

  /** One row of the log, with the twelve columns in file order. */
  datatype Record = Record(
    timestamp: string,
    vehicle: string,
    driver: string,
    authorizedBy: string,
    startKm: nat,
    endKm: nat,
    distance: int,
    fuelLtrs: real,
    purpose: string,
    location: string,
    items: string,
    photo: Photo)

  /** The whole log, oldest submission first. */
  type Table = seq<Record>

  /** The column list `load_data` gives the empty table, one name per field of Record, in order. */
  const Columns: seq<string> := [
    "Timestamp", "Vehicle", "Driver", "Authorized_By",
    "Start_KM", "End_KM", "Distance", "Fuel_Ltrs",
    "Purpose", "Location", "Items", "Photo"]

  /**
   * `load_data`: the table held by the local file, or the empty table when
   * there is no file.
   */
  function Load(file: Option<Table>): (t: Table)
    ensures file.None? ==> |t| == 0
    ensures file.Some? ==> t == file.value
  {
    match file
    case None => []
    case Some(rows) => rows
  }

  /** The column list has twelve distinct names, one per Record field. */
  lemma ColumnsShape()
    ensures |Columns| == 12
    ensures forall i, j :: 0 <= i < j < |Columns| ==> Columns[i] != Columns[j]
  {
  }

  /**
   * `pd.concat([df, new_log], ignore_index=True)`: a new table one row longer
   * whose earlier rows are the old table, in order, and whose last row is `r`.
   */
  function Append(t: Table, r: Record): (t': Table)
    ensures |t'| == |t| + 1
    ensures t'[..|t|] == t
    ensures t'[|t|] == r
  {
    t + [r]
  }

  /** Appending never removes or reorders a row: the old table is a prefix of the new. */
  lemma AppendKeepsPrefix(t: Table, r: Record)
    ensures t <= Append(t, r)
    ensures multiset(Append(t, r)) == multiset(t) + multiset{r}
  {
    assert Append(t, r) == t + [r];
  }

  /** The ledger's photo test: the cell is a string of more than 50 characters. */
  predicate HasPhoto(p: Photo)
  {
    p.Encoded? && |p.text| > 50
  }

  /** Neither an empty photo string nor a missing cell is taken for a photo. */
  lemma EmptyPhotoIsNotFlagged()
    ensures !HasPhoto(Encoded(""))
    ensures !HasPhoto(Missing)
    ensures forall s: string :: HasPhoto(Encoded(s)) <==> |s| > 50
  {
  }
}
