/**
 The values a cell of the testing bench carries: its chemistry, its status,
 its reading, and the pure classifiers the workbench applies to them.

 Every quantity the workbench keeps as a one- or two-decimal float is kept
 here as an integer in a fixed-point unit, so that arithmetic is exact:
   - voltage in decivolts (3.2 V is 32),
   - current in deciamps (the slider's step is 0.1 A; -10 A..10 A is -100..100),
   - capacity in centi-watt-hours (3.2 V * 5.0 A = 16.00 Wh is 1600),
   - temperature in tenths of a degree Celsius (25.0..40.0 is 250..400).
 */
module Cells {

  /** Cell chemistry; the setup page offers exactly these two. */
  datatype Chem = LFP | NMC

  /** The status the control panel derives from the sign of the current. */
  datatype Status = Idle | Charging | Discharging

  /** The identity of a cell: its 1-based position and its chemistry
      (the dictionary key `cell_<idx>_<chem>`, see KeyName). */
  datatype Key = Key(idx: nat, chem: Chem)

  /** Nominal voltage and its bounds for one chemistry, in decivolts. */
  datatype VoltageSpec = VoltageSpec(nominal: int, low: int, high: int)

  /** One entry of the readings dictionary. */
  datatype Reading = Reading(
    voltage: int,
    current: int,
    temp: int,
    capacity: int,
    minVoltage: int,
    maxVoltage: int)

  datatype Option<T> = None | Some(value: T)

  /** Slider bounds for the current, in deciamps. */
  const MinCurrent: int := -100
  const MaxCurrent: int := 100

  /** Range of the random temperature draw, in tenths of a degree. */
  const MinTemp: int := 250
  const MaxTemp: int := 400

  function Abs(x: int): nat
  {
    if x < 0 then -x else x
  }

  /** The value, in the source's own unit, of a number kept in tenths. */
  function Tenths(n: int): real
  {
    n as real / 10.0
  }

  /** The value, in the source's own unit, of a number kept in hundredths. */
  function Hundredths(n: int): real
  {
    n as real / 100.0
  }

  /** A temperature the random draw can produce: a one-decimal value in [25.0, 40.0]. */
  predicate TempInRange(t: int)
  {
    MinTemp <= t <= MaxTemp
  }

  /** The temperature range in degrees: 25.0 to 40.0. */
  lemma TempRangeInDegrees(t: int)
    ensures TempInRange(t) <==> 25.0 <= Tenths(t) <= 40.0
  {
  }

  /** A current the control slider can produce. */
  predicate CurrentInRange(c: int)
  {
    MinCurrent <= c <= MaxCurrent
  }

  /** The chemistry table: LFP is 3.2 V in [2.8, 3.6], anything else 3.6 V in [3.2, 4.0]. */
  function Nominal(c: Chem): (v: VoltageSpec)
    ensures 28 <= v.low <= v.nominal <= v.high <= 40
    ensures v.high - v.low == 8
  {
    if c == LFP then VoltageSpec(32, 28, 36) else VoltageSpec(36, 32, 40)
  }

  /** The status of a cell carrying current `cur`. */
  function StatusOf(cur: int): (s: Status)
    ensures s == Charging <==> cur > 0
    ensures s == Discharging <==> cur < 0
    ensures s == Idle <==> cur == 0
  {
    if cur > 0 then Charging
    else if cur < 0 then Discharging
    else Idle
  }

  /** Rounding to two decimals, giving the result in hundredths. Half-way
      values round up here, where Python's `round` rounds them to even; the
      two agree on every value that already has at most two decimals, which
      is the only kind the capacity formula rounds (RoundOfTenthsProduct). */
  function RoundCenti(x: real): (n: int)
    ensures n as real - 0.5 <= x * 100.0 < n as real + 0.5
  {
    (x * 100.0 + 0.5).Floor
  }

  /** The capacity of a cell, voltage times the magnitude of the current,
      in centi-watt-hours. */
  function Capacity(voltage: int, current: int): (cap: int)
    ensures voltage >= 0 ==> cap >= 0
    ensures cap == 0 <==> voltage == 0 || current == 0
  {
    voltage * Abs(current)
  }

  /** Multiplying two one-decimal values leaves at most two decimals, so
      rounding the product to two decimals changes nothing. */
  lemma RoundOfTenthsProduct(a: int, b: int)
    ensures RoundCenti(Tenths(a) * Tenths(b)) == a * b
  {
  }

  /** The capacity is what the workbench computes, `round(voltage *
      abs(current), 2)` on values with one decimal. */
  lemma CapacityIsRoundedProduct(voltage: int, current: int)
    ensures Capacity(voltage, current) == RoundCenti(Tenths(voltage) * Tenths(Abs(current)))
  {
    RoundOfTenthsProduct(voltage, Abs(current));
  }

  /** A reading the workbench can hold for a cell of chemistry `c`: the
      voltage and bounds from the chemistry table, a current the slider
      allows, a temperature the random draw allows, and the capacity
      derived from voltage and current. */
  predicate WellFormed(c: Chem, r: Reading)
  {
    && r.voltage == Nominal(c).nominal
    && r.minVoltage == Nominal(c).low
    && r.maxVoltage == Nominal(c).high
    && CurrentInRange(r.current)
    && TempInRange(r.temp)
    && r.capacity == Capacity(r.voltage, r.current)
  }

  /** The reading a cell starts with when the bench is initialized. */
  function FreshReading(c: Chem, temp: int): (r: Reading)
    requires TempInRange(temp)
    ensures WellFormed(c, r)
    ensures r.current == 0 && r.capacity == 0 && r.temp == temp
    ensures StatusOf(r.current) == Idle
  {
    var v := Nominal(c);
    Reading(v.nominal, 0, temp, Capacity(v.nominal, 0), v.low, v.high)
  }

  /** The reading after the control panel sets the current to `cur` and
      draws the new temperature `temp`. */
  function ApplyCurrent(r: Reading, cur: int, temp: int): (r': Reading)
    ensures r'.voltage == r.voltage && r'.minVoltage == r.minVoltage && r'.maxVoltage == r.maxVoltage
    ensures r'.current == cur && r'.temp == temp
    ensures r'.capacity == r.voltage * Abs(cur)
    ensures r.voltage >= 0 ==> r'.capacity >= 0
  {
    r.(current := cur, capacity := Capacity(r.voltage, cur), temp := temp)
  }

  /** Setting a current keeps a reading well formed for its chemistry. */
  lemma ApplyCurrentKeepsWellFormed(c: Chem, r: Reading, cur: int, temp: int)
    requires WellFormed(c, r) && CurrentInRange(cur) && TempInRange(temp)
    ensures WellFormed(c, ApplyCurrent(r, cur, temp))
  {
  }

  /** A well-formed reading is idle exactly when its capacity is zero. */
  lemma IdleIffNoCapacity(c: Chem, r: Reading)
    requires WellFormed(c, r)
    ensures StatusOf(r.current) == Idle <==> r.capacity == 0
    ensures r.capacity >= 0
  {
  }

  /** The card colour of a status. */
  function CellColor(s: Status): (style: string)
    ensures style == "background-color:#38ef7d" <==> s == Charging
    ensures style == "background-color:#f7971e" <==> s == Discharging
    ensures style == "background-color:#5fa1f5" <==> s == Idle
  {
    // the three styles differ right after the '#'
    assert "background-color:#38ef7d"[18] != "background-color:#f7971e"[18];
    assert "background-color:#5fa1f5"[18] !in {"background-color:#38ef7d"[18], "background-color:#f7971e"[18]};
    match s
    case Charging => "background-color:#38ef7d"
    case Discharging => "background-color:#f7971e"
    case Idle => "background-color:#5fa1f5"
  }

  /** The text of a chemistry as it appears in a key. */
  function ChemName(c: Chem): string
  {
    if c == LFP then "LFP" else "NMC"
  }

  function DigitChar(d: nat): (ch: char)
    requires d < 10
    ensures '0' <= ch <= '9'
  {
    "0123456789"[d]
  }

  function DigitValue(ch: char): nat
  {
    if '0' <= ch <= '9' then (ch - '0') as nat else 0
  }

  /** The decimal text of a natural number, as Python's `str` writes it. */
  function Decimal(n: nat): (s: string)
    ensures |s| >= 1 && AllDigits(s)
    decreases n
  {
    if n < 10 then [DigitChar(n)] else Decimal(n / 10) + [DigitChar(n % 10)]
  }

  /** The number a string of decimal digits denotes. */
  function DecimalValue(s: string): nat
  {
    if s == [] then 0 else 10 * DecimalValue(s[..|s| - 1]) + DigitValue(s[|s| - 1])
  }

  /** Reading back the decimal text of a number gives that number. */
  lemma {:induction false} DecimalRoundTrip(n: nat)
    ensures DecimalValue(Decimal(n)) == n
    decreases n
  {
    var s := Decimal(n);
    if n < 10 {
      assert s[..0] == [];
      assert DigitValue(DigitChar(n)) == n;
    } else {
      DecimalRoundTrip(n / 10);
      assert s[..|s| - 1] == Decimal(n / 10);
      assert DigitValue(DigitChar(n % 10)) == n % 10;
    }
  }

  predicate AllDigits(s: string)
  {
    forall i :: 0 <= i < |s| ==> '0' <= s[i] <= '9'
  }

  /** The length of the run of decimal digits `s` starts with. */
  function DigitRun(s: string): (n: nat)
    ensures n <= |s|
  {
    if s == [] || !('0' <= s[0] <= '9') then 0 else 1 + DigitRun(s[1..])
  }

  /** The digit run of `<digits>_<text>` ends at the underscore. */
  lemma {:induction false} DigitRunBeforeUnderscore(digits: string, text: string)
    requires AllDigits(digits)
    ensures DigitRun(digits + "_" + text) == |digits|
  {
    if digits == [] {
      assert digits + "_" + text == "_" + text;
    } else {
      assert (digits + "_" + text)[1..] == digits[1..] + "_" + text;
      DigitRunBeforeUnderscore(digits[1..], text);
    }
  }

  /** The chemistry a key names, if any. */
  function ParseChem(s: string): Option<Chem>
  {
    if s == "LFP" then Some(LFP) else if s == "NMC" then Some(NMC) else None
  }

  /** Reads a dictionary key back: `cell_`, a run of digits, an underscore
      and a chemistry name, the parts the dashboard's `key.split('_')` takes
      apart. Anything else is not a key. */
  function ParseKey(s: string): Option<Key>
  {
    if |s| < 5 || s[..5] != "cell_" then None
    else
      var rest := s[5..];
      var n := DigitRun(rest);
      if n == 0 || n == |rest| || rest[n] != '_' then None
      else
        match ParseChem(rest[n + 1..])
        case None => None
        case Some(c) => Some(Key(DecimalValue(rest[..n]), c))
  }

  /** The dictionary key of a cell: `cell_<idx>_<chem>`, which reads back
      to the cell it was written for. */
  function KeyName(k: Key): (name: string)
    ensures ParseKey(name) == Some(k)
  {
    var digits, chem := Decimal(k.idx), ChemName(k.chem);
    var name := "cell_" + digits + "_" + chem;
    assert name[..5] == "cell_" && name[5..] == digits + "_" + chem;
    DigitRunBeforeUnderscore(digits, chem);
    assert name[5..][..|digits|] == digits && name[5..][|digits| + 1..] == chem;
    DecimalRoundTrip(k.idx);
    name
  }

  /** Two cells with the same key text are the same cell, so the
      dictionaries never merge two cells into one entry. */
  lemma KeyNameInjective(k1: Key, k2: Key)
    requires KeyName(k1) == KeyName(k2)
    ensures k1 == k2
  {
  }

  /** The keys of the first `n` cells, in order, for the chemistry list
      `types`: the i-th cell has the 1-based number i + 1. */
  function CellKeys(types: seq<Chem>, n: nat): (ks: seq<Key>)
    requires n <= |types|
    ensures |ks| == n
    ensures forall i :: 0 <= i < n ==> ks[i] == Key(i + 1, types[i])
  {
    if n == 0 then [] else CellKeys(types, n - 1) + [Key(n, types[n - 1])]
  }

  /** Different cells of one bench have different key texts. */
  lemma DistinctKeyNames(types: seq<Chem>, i: nat, j: nat)
    requires i < |types| && j < |types| && i != j
    ensures KeyName(CellKeys(types, |types|)[i]) != KeyName(CellKeys(types, |types|)[j])
  {
  }

  /** The session state the workbench keeps consistent: keys in order with
      1-based positions, both dictionaries over exactly those keys, every
      reading well formed for its cell's chemistry, and every status the
      one the sign of the cell's current gives. */
  ghost predicate Consistent(keys: seq<Key>, data: map<Key, Reading>, status: map<Key, Status>)
  {
    && (forall i :: 0 <= i < |keys| ==> keys[i].idx == i + 1)
    && (forall k :: k in data <==> k in keys)
    && (forall k :: k in status <==> k in keys)
    && (forall k :: k in data ==> WellFormed(k.chem, data[k]))
    && (forall k :: k in data && k in status ==> status[k] == StatusOf(data[k].current))
  }

  /** Appending a new cell, with the next position, a well-formed reading
      and the status its current gives, keeps the session consistent. */
  lemma ConsistentAppend(keys: seq<Key>, data: map<Key, Reading>, status: map<Key, Status>, k: Key, r: Reading, s: Status)
    requires Consistent(keys, data, status)
    requires k.idx == |keys| + 1 && WellFormed(k.chem, r) && s == StatusOf(r.current)
    ensures k !in keys
    ensures Consistent(keys + [k], data[k := r], status[k := s])
  {
  }

  /** Replacing the entries of one cell by a reading well formed for its
      chemistry and the status that reading's current gives keeps the
      session consistent. */
  lemma ConsistentUpdate(keys: seq<Key>, data: map<Key, Reading>, status: map<Key, Status>,
                         k: Key, r: Reading, s: Status)
    requires Consistent(keys, data, status) && k in data
    requires WellFormed(k.chem, r) && s == StatusOf(r.current)
    ensures Consistent(keys, data[k := r], status[k := s])
  {
  }
}
