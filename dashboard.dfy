/**
 The dashboard page: the per-status capacity totals, the layout of the
 cell cards in rows of four, the temperature icon and the capacity
 progress bar. The page only reads the session state.
 */
module Dashboard {
  import opened Cells

  /** Cards per row. */
  const ColsPerRow: int := 4

  /** Every key of `keys` has an entry in both dictionaries. */
  predicate Covered(keys: seq<Key>, data: map<Key, Reading>, status: map<Key, Status>)
  {
    forall k :: k in keys ==> k in data && k in status
  }

  /** What one cell adds to the total of status `s`. */
  function Contribution(r: Reading, st: Status, s: Status): int
  {
    if st == s then r.capacity else 0
  }

  /** The sum of capacity over the first `n` cells of `keys` whose status
      is `s`. */
  function StatusTotal(keys: seq<Key>, data: map<Key, Reading>, status: map<Key, Status>, s: Status, n: nat): (total: int)
    requires Covered(keys, data, status) && n <= |keys|
    ensures (forall i :: 0 <= i < n ==> status[keys[i]] != s) ==> total == 0
  {
    if n == 0 then 0
    else StatusTotal(keys, data, status, s, n - 1) + Contribution(data[keys[n - 1]], status[keys[n - 1]], s)
  }

  /** The sum of capacity over the first `n` cells of `keys`. */
  function CapacityTotal(keys: seq<Key>, data: map<Key, Reading>, n: nat): int
    requires (forall k :: k in keys ==> k in data) && n <= |keys|
  {
    if n == 0 then 0
    else CapacityTotal(keys, data, n - 1) + data[keys[n - 1]].capacity
  }

  /** When no capacity is negative, no total is negative. */
  lemma {:induction false} StatusTotalNonNegative(keys: seq<Key>, data: map<Key, Reading>, status: map<Key, Status>,
                                                  s: Status, n: nat)
    requires Covered(keys, data, status) && n <= |keys|
    requires forall k :: k in keys ==> data[k].capacity >= 0
    ensures StatusTotal(keys, data, status, s, n) >= 0
  {
    if n > 0 {
      StatusTotalNonNegative(keys, data, status, s, n - 1);
    }
  }

  /** Over a consistent session state idle cells add nothing: the charging
      and the discharging totals together are the capacity of all cells,
      and the idle total is zero. */
  lemma {:induction false} TotalsPartitionCapacity(keys: seq<Key>, data: map<Key, Reading>, status: map<Key, Status>,
                                                   n: nat)
    requires Covered(keys, data, status) && n <= |keys|
    requires forall k :: k in data ==> WellFormed(k.chem, data[k])
    requires forall k :: k in data && k in status ==> status[k] == StatusOf(data[k].current)
    ensures StatusTotal(keys, data, status, Charging, n) + StatusTotal(keys, data, status, Discharging, n)
         == CapacityTotal(keys, data, n)
    ensures StatusTotal(keys, data, status, Idle, n) == 0
  {
    if n > 0 {
      var k := keys[n - 1];
      TotalsPartitionCapacity(keys, data, status, n - 1);
      IdleIffNoCapacity(k.chem, data[k]);
    }
  }

  /** The number of cards in row `r` when `n` cards are laid out. */
  function RowLength(n: nat, r: nat): int
  {
    if n - ColsPerRow * r < ColsPerRow then n - ColsPerRow * r else ColsPerRow
  }

  /** Row `r` of a layout of `n` cards holds the cells 4r, 4r+1, ... */
  predicate IsRow(row: seq<nat>, n: nat, r: nat)
  {
    && |row| == RowLength(n, r)
    && forall c :: 0 <= c < |row| ==> row[c] == ColsPerRow * r + c
  }

  /** The cards laid out in rows: row `r` holds the cells 4r, 4r+1, ...,
      every row but the last holds four, and no row is empty. */
  predicate IsRowLayout(rows: seq<seq<nat>>, n: nat)
  {
    && |rows| == (n + ColsPerRow - 1) / ColsPerRow
    && forall r :: 0 <= r < |rows| ==> IsRow(rows[r], n, r)
  }

  /** The row layout shows every cell exactly once: cell i sits in row
      i / 4, column i % 4, and every position holds a cell below n there. */
  lemma LayoutShowsEachCellOnce(rows: seq<seq<nat>>, n: nat)
    requires IsRowLayout(rows, n)
    ensures forall r :: 0 <= r < |rows| ==> 1 <= |rows[r]| <= ColsPerRow
    ensures forall i :: 0 <= i < n ==>
              i / ColsPerRow < |rows| && i % ColsPerRow < |rows[i / ColsPerRow]|
              && rows[i / ColsPerRow][i % ColsPerRow] == i
    ensures forall r, c :: 0 <= r < |rows| && 0 <= c < |rows[r]| ==>
              rows[r][c] < n && rows[r][c] / ColsPerRow == r && rows[r][c] % ColsPerRow == c
  {
  }

  /** The totals gathered over the first `done` cells. */
  predicate Gathered(keys: seq<Key>, data: map<Key, Reading>, status: map<Key, Status>,
                     done: nat, charging: int, discharging: int)
    requires Covered(keys, data, status) && done <= |keys|
  {
    && charging == StatusTotal(keys, data, status, Charging, done)
    && discharging == StatusTotal(keys, data, status, Discharging, done)
  }

  /** The dashboard's pass over the cells: rows of four cards, each card
      adding its capacity to the charging or the discharging total. Gives
      the two totals and the cell positions shown in each row. */
  method Render(keys: seq<Key>, data: map<Key, Reading>, status: map<Key, Status>)
    returns (totalCharging: int, totalDischarging: int, rows: seq<seq<nat>>)
    requires Covered(keys, data, status)
    ensures totalCharging == StatusTotal(keys, data, status, Charging, |keys|)
    ensures totalDischarging == StatusTotal(keys, data, status, Discharging, |keys|)
    ensures IsRowLayout(rows, |keys|)
  {
    totalCharging, totalDischarging := 0, 0;
    rows := [];
    var numCells := |keys|;
    var rowStart := 0;
    while rowStart < numCells
      invariant rowStart == ColsPerRow * |rows|
      invariant rowStart < numCells + ColsPerRow
      invariant rowStart < numCells ==> |rows| < (numCells + ColsPerRow - 1) / ColsPerRow
      invariant rowStart >= numCells ==> |rows| == (numCells + ColsPerRow - 1) / ColsPerRow
      invariant forall r :: 0 <= r < |rows| ==> IsRow(rows[r], numCells, r)
      invariant Gathered(keys, data, status, if rowStart < numCells then rowStart else numCells,
                         totalCharging, totalDischarging)
    {
      var row: seq<nat> := [];
      var i := 0;
      while i < ColsPerRow
        invariant 0 <= i <= ColsPerRow
        invariant |row| == (if rowStart + i < numCells then i else numCells - rowStart)
        invariant forall c :: 0 <= c < |row| ==> row[c] == rowStart + c
        invariant Gathered(keys, data, status, if rowStart + i < numCells then rowStart + i else numCells,
                           totalCharging, totalDischarging)
      {
        if rowStart + i < numCells {
          var key := keys[rowStart + i];
          if status[key] == Charging {
            totalCharging := totalCharging + data[key].capacity;
          } else if status[key] == Discharging {
            totalDischarging := totalDischarging + data[key].capacity;
          }
          row := row + [rowStart + i];
        }
        i := i + 1;
      }
      assert IsRow(row, numCells, |rows|);
      rows := rows + [row];
      rowStart := rowStart + ColsPerRow;
    }
  }

  /** The dashboard totals are never negative, and together they are the
      capacity of all cells. */
  lemma DashboardTotals(keys: seq<Key>, data: map<Key, Reading>, status: map<Key, Status>)
    requires Consistent(keys, data, status)
    ensures Covered(keys, data, status)
    ensures StatusTotal(keys, data, status, Charging, |keys|) >= 0
    ensures StatusTotal(keys, data, status, Discharging, |keys|) >= 0
    ensures StatusTotal(keys, data, status, Charging, |keys|) + StatusTotal(keys, data, status, Discharging, |keys|)
         == CapacityTotal(keys, data, |keys|)
  {
    assert Covered(keys, data, status);
    forall k | k in keys ensures data[k].capacity >= 0 {
      IdleIffNoCapacity(k.chem, data[k]);
    }
    StatusTotalNonNegative(keys, data, status, Charging, |keys|);
    StatusTotalNonNegative(keys, data, status, Discharging, |keys|);
    TotalsPartitionCapacity(keys, data, status, |keys|);
  }

  /** The temperature icon of a card. */
  datatype TempIcon = Snowflake | Thermometer | Flame

  /** The icon for a temperature given in tenths of a degree: a flame above
      37 degrees, a thermometer above 32, a snowflake otherwise. */
  function TempIconOf(t: int): (icon: TempIcon)
    ensures icon == Flame <==> Tenths(t) > 37.0
    ensures icon == Thermometer <==> 32.0 < Tenths(t) <= 37.0
    ensures icon == Snowflake <==> Tenths(t) <= 32.0
  {
    if t > 370 then Flame else if t > 320 then Thermometer else Snowflake
  }

  function IconLevel(icon: TempIcon): nat
  {
    match icon
    case Snowflake => 0
    case Thermometer => 1
    case Flame => 2
  }

  /** A hotter cell never shows a colder icon. */
  lemma TempIconMonotone(t1: int, t2: int)
    requires t1 <= t2
    ensures IconLevel(TempIconOf(t1)) <= IconLevel(TempIconOf(t2))
  {
  }

  /** The progress bar of a card for a capacity in centi-watt-hours: the
      capacity over 40 Wh, clamped at 1. */
  function Progress(capacity: int): (p: real)
    ensures p == (if Hundredths(capacity) / 40.0 <= 1.0 then Hundredths(capacity) / 40.0 else 1.0)
    ensures capacity >= 0 ==> 0.0 <= p <= 1.0
    ensures p == 1.0 <==> capacity >= 4000
  {
    if capacity >= 4000 then 1.0 else capacity as real / 4000.0
  }

  /** No well-formed reading reaches the clamp: the most a cell can hold is
      3.6 V * 10 A = 36 Wh, so the bar never passes nine tenths. */
  lemma ProgressBelowClamp(c: Chem, r: Reading)
    requires WellFormed(c, r)
    ensures Progress(r.capacity) == Hundredths(r.capacity) / 40.0
    ensures 0.0 <= Progress(r.capacity) <= 0.9
  {
  }
}
