/**
 * The "Recent Movement History" view: the table sorted by Timestamp, newest
 * first, cut to its first 15 rows, and turned into ledger rows with a photo flag.
 */
module History {
  import opened Text
  import opened Timestamp
  import opened Wrappers
  import opened Log
  import Intake

  /** The number of rows the history view keeps. */
  const HistoryLimit: nat := 15

  function Min(a: nat, b: nat): nat
  {
    if a <= b then a else b
  }

  /** Row `y` is not newer than row `x` (Python order on the Timestamp strings). */
  predicate NotNewer(y: Record, x: Record)
  {
    AtMost(y.timestamp, x.timestamp)
  }

  /** Timestamps never increase from one row to any later one. */
  predicate NewestFirst(s: Table)
  {
    forall i, j :: 0 <= i < j < |s| ==> NotNewer(s[j], s[i])
  }

  /** Places `r` into a newest-first table, ahead of every row that is not newer than it. */
  function Insert(r: Record, s: Table): (u: Table)
    ensures multiset(u) == multiset(s) + multiset{r}
    ensures |u| == |s| + 1
  {
    if s == [] then [r]
    else if NotNewer(s[0], r) then [r] + s
    else
      assert s == [s[0]] + s[1..];
      [s[0]] + Insert(r, s[1..])
  }

  lemma {:induction false} InsertNewestFirst(r: Record, s: Table)
    requires NewestFirst(s)
    ensures NewestFirst(Insert(r, s))
  {
    var u := Insert(r, s);
    if s == [] {
    } else if NotNewer(s[0], r) {
      forall j | 0 < j < |u|
        ensures NotNewer(u[j], u[0])
      {
        if j > 1 {
          AtMostTransitive(s[j - 1].timestamp, s[0].timestamp, r.timestamp);
        }
      }
    } else {
      AtMostTotal(s[0].timestamp, r.timestamp);
      InsertNewestFirst(r, s[1..]);
      var tail := Insert(r, s[1..]);
      assert u == [s[0]] + tail;
      forall j | 0 < j < |u|
        ensures NotNewer(u[j], u[0])
      {
        assert u[j] in multiset(s[1..]) + multiset{r} by {
          assert u[j] == tail[j - 1];
          assert u[j] in multiset(tail);
        }
        if u[j] != r {
          assert u[j] in s[1..];
        }
      }
    }
  }

  /** `sort_values(by="Timestamp", ascending=False)`, ties kept in table order. */
  function SortNewestFirst(t: Table): (s: Table)
    ensures multiset(s) == multiset(t)
    ensures |s| == |t|
  {
    if t == [] then []
    else
      assert t == [t[0]] + t[1..];
      Insert(t[0], SortNewestFirst(t[1..]))
  }

  lemma {:induction false} SortIsNewestFirst(t: Table)
    ensures NewestFirst(SortNewestFirst(t))
  {
    if t != [] {
      SortIsNewestFirst(t[1..]);
      InsertNewestFirst(t[0], SortNewestFirst(t[1..]));
    }
  }

  /**
   * `.head(15)` of the sorted table: min(15, n) rows, newest first, each a row
   * of the table (no row taken more often than the table holds it).
   */
  function Recent(t: Table): (v: Table)
    ensures |v| == Min(HistoryLimit, |t|)
    ensures NewestFirst(v)
    ensures multiset(v) <= multiset(t)
    ensures forall r :: r in v ==> r in t
  {
    var s := SortNewestFirst(t);
    var k := Min(HistoryLimit, |t|);
    SortIsNewestFirst(t);
    assert s == s[..k] + s[k..];
    assert multiset(s) == multiset(s[..k]) + multiset(s[k..]);
    assert forall r :: r in s[..k] ==> r in multiset(s[..k]);
    s[..k]
  }

  /** The rows the history view leaves out. */
  function Older(t: Table): Table
  {
    SortNewestFirst(t)[Min(HistoryLimit, |t|)..]
  }

  /**
   * The view is the newest rows: together with the rows left out it is the
   * whole table, and no row left out is newer than any row shown.
   */
  lemma RecentAreNewest(t: Table)
    ensures multiset(Recent(t)) + multiset(Older(t)) == multiset(t)
    ensures forall x, y :: x in Recent(t) && y in Older(t) ==> NotNewer(y, x)
    ensures |t| <= HistoryLimit ==> Older(t) == [] && multiset(Recent(t)) == multiset(t)
  {
    var s := SortNewestFirst(t);
    var k := Min(HistoryLimit, |t|);
    SortIsNewestFirst(t);
    assert s == s[..k] + s[k..];
    assert multiset(s) == multiset(s[..k]) + multiset(s[k..]);
    forall x, y | x in Recent(t) && y in Older(t)
      ensures NotNewer(y, x)
    {
      var i :| 0 <= i < k && s[..k][i] == x;
      var j :| 0 <= j < |s| - k && s[k..][j] == y;
      assert s[i] == x && s[k + j] == y;
    }
  }

  /** Every row carries a timestamp in the handler's format. */
  predicate WellStamped(t: Table)
  {
    forall i :: 0 <= i < |t| ==> IsTimestamp(t[i].timestamp)
  }

  /** Dates and times never increase from one row to any later one. */
  predicate LatestFirst(s: Table)
    requires WellStamped(s)
  {
    forall i, j :: 0 <= i < j < |s| ==> NotLater(s[j].timestamp, s[i].timestamp)
  }

  /**
   * When every row carries a timestamp in the handler's format, the history
   * view is in date-and-time order, latest first.
   */
  lemma RecentIsLatestFirst(t: Table)
    requires WellStamped(t)
    ensures WellStamped(Recent(t)) && LatestFirst(Recent(t))
  {
    var v := Recent(t);
    forall i | 0 <= i < |v|
      ensures IsTimestamp(v[i].timestamp)
    {
      assert v[i] in t;
    }
    forall i, j | 0 <= i < j < |v|
      ensures NotLater(v[j].timestamp, v[i].timestamp)
    {
      TextOrderIsTimeOrder(v[j].timestamp, v[i].timestamp);
    }
  }

  /** A log built by the handler alone is well stamped, so its history view is latest first. */
  lemma SoundLogHistoryIsLatestFirst(t: Table)
    requires Intake.SoundLog(t)
    ensures WellStamped(Recent(t)) && LatestFirst(Recent(t))
  {
    RecentIsLatestFirst(t);
  }

  /** One line of the ledger grid: the shown columns and the photo flag. */
  datatype LedgerRow = LedgerRow(
    timestamp: string,
    vehicle: string,
    purpose: string,
    location: string,
    distance: int,
    items: string,
    hasPhoto: bool)

  /** The history section: a notice when there are no logs, otherwise the grid. */
  datatype Ledger = NoLogs | Grid(rows: seq<LedgerRow>)

  function RowOf(r: Record): LedgerRow
  {
    LedgerRow(r.timestamp, r.vehicle, r.purpose, r.location, r.distance, r.items, HasPhoto(r.photo))
  }

  /**
   * The history section: shown only for a non-empty table, with one grid line
   * per recent row, newest first, flagged "Yes" exactly when that row's photo
   * cell is a string longer than 50 characters.
   */
  function LedgerOf(t: Table): (l: Ledger)
    ensures l.NoLogs? <==> |t| == 0
    ensures l.Grid? ==> |l.rows| == Min(HistoryLimit, |t|)
    ensures l.Grid? ==> forall i, j :: 0 <= i < j < |l.rows| ==>
      AtMost(l.rows[j].timestamp, l.rows[i].timestamp)
    ensures l.Grid? ==> forall i :: 0 <= i < |l.rows| ==>
      && l.rows[i].timestamp == Recent(t)[i].timestamp
      && l.rows[i].vehicle == Recent(t)[i].vehicle
      && l.rows[i].purpose == Recent(t)[i].purpose
      && l.rows[i].location == Recent(t)[i].location
      && l.rows[i].distance == Recent(t)[i].distance
      && l.rows[i].items == Recent(t)[i].items
    ensures l.Grid? ==> forall i :: 0 <= i < |l.rows| ==>
      (l.rows[i].hasPhoto <==> Recent(t)[i].photo.Encoded? && |Recent(t)[i].photo.text| > 50)
  {
    if t == [] then NoLogs
    else
      var v := Recent(t);
      Grid(seq(|v|, i requires 0 <= i < |v| => RowOf(v[i])))
  }

  /** With no log file, the history section is the "no logs yet" notice. */
  lemma NoFileShowsNoLogs()
    ensures LedgerOf(Load(None)) == NoLogs
  {
  }
}
