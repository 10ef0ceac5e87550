/**
 The session state of the workbench and the three interactions that change
 it: the setup page (resizing and choosing the chemistry list, and the
 Initialize button) and the control panel (setting each cell's current).

 The Python dictionaries `cells_data` and `cell_status` are the maps `data`
 and `status`; `keys` is their common insertion order, which is the order in
 which the dashboard and the control panel visit the cells.
 */
module Workbench {
  import opened Cells

  /** The most cells the setup slider offers. */
  const MaxCells: int := 8

  /** The chemistry list cut or padded to `n` entries: the first entries
      are kept, new ones are LFP. */
  function Resized(types: seq<Chem>, n: nat): (r: seq<Chem>)
    ensures |r| == n
    ensures forall i :: 0 <= i < n && i < |types| ==> r[i] == types[i]
    ensures forall i :: |types| <= i < n ==> r[i] == LFP
  {
    var kept := if n < |types| then types[..n] else types;
    kept + seq(if n > |types| then n - |types| else 0, _ => LFP)
  }

  /** A list that already has `n` entries is left as it is, which is why
      the setup page resizes only when the length differs. */
  lemma ResizedSameLength(types: seq<Chem>)
    ensures Resized(types, |types|) == types
  {
  }

  /** Every temperature of `temps` is one the random draw can produce,
      one per chemistry of `types`. */
  predicate TempsFor(types: seq<Chem>, temps: seq<int>)
  {
    |temps| == |types| && forall i :: 0 <= i < |temps| ==> TempInRange(temps[i])
  }

  /** The readings dictionary the Initialize button has built after its
      first `n` cells. */
  function InitialData(types: seq<Chem>, temps: seq<int>, n: nat): (d: map<Key, Reading>)
    requires TempsFor(types, temps) && n <= |types|
    ensures d.Keys == InitialStatus(types, n).Keys
  {
    if n == 0 then map[]
    else InitialData(types, temps, n - 1)[Key(n, types[n - 1]) := FreshReading(types[n - 1], temps[n - 1])]
  }

  /** The status dictionary the Initialize button has built after its
      first `n` cells. */
  function InitialStatus(types: seq<Chem>, n: nat): (st: map<Key, Status>)
    requires n <= |types|
    ensures st.Values <= {Idle}
  {
    if n == 0 then map[]
    else InitialStatus(types, n - 1)[Key(n, types[n - 1]) := Idle]
  }

  /** What Initialize builds is a consistent session. */
  lemma {:induction false} InitialStateConsistent(types: seq<Chem>, temps: seq<int>, n: nat)
    requires TempsFor(types, temps) && n <= |types|
    ensures Consistent(CellKeys(types, n), InitialData(types, temps, n), InitialStatus(types, n))
  {
    if n > 0 {
      InitialStateConsistent(types, temps, n - 1);
      var k := Key(n, types[n - 1]);
      ConsistentAppend(CellKeys(types, n - 1), InitialData(types, temps, n - 1), InitialStatus(types, n - 1), k,
                       FreshReading(types[n - 1], temps[n - 1]), Idle);
    }
  }

  /** Every cell Initialize builds is fresh and idle. */
  lemma {:induction false} InitialCellsFresh(types: seq<Chem>, temps: seq<int>, n: nat, i: nat)
    requires TempsFor(types, temps) && i < n <= |types|
    ensures Key(i + 1, types[i]) in InitialData(types, temps, n)
    ensures InitialData(types, temps, n)[Key(i + 1, types[i])] == FreshReading(types[i], temps[i])
    ensures Key(i + 1, types[i]) in InitialStatus(types, n) && InitialStatus(types, n)[Key(i + 1, types[i])] == Idle
  {
    if i < n - 1 {
      InitialCellsFresh(types, temps, n - 1, i);
    }
  }

  /** No cell occurs twice in `keys`. */
  predicate Distinct(keys: seq<Key>)
  {
    forall i, j :: 0 <= i < j < |keys| ==> keys[i] != keys[j]
  }

  /** The sliders of the control panel: one current and one temperature
      draw per cell of `keys`, each within its widget's range. */
  predicate PanelInputs(keys: seq<Key>, currents: seq<int>, temps: seq<int>)
  {
    && |currents| == |keys| && |temps| == |keys|
    && forall i :: 0 <= i < |keys| ==> CurrentInRange(currents[i]) && TempInRange(temps[i])
  }

  /** The readings after the control panel has applied its first `n`
      sliders to the cells of `keys`, in order. Each slider starts from the
      cell's entry in `data`, which is the entry the dictionary still holds
      when the slider's turn comes (see PanelStep). */
  function PanelData(keys: seq<Key>, data: map<Key, Reading>, currents: seq<int>, temps: seq<int>, n: nat): (d: map<Key, Reading>)
    requires n <= |keys| && |currents| == |keys| && |temps| == |keys|
    requires forall k :: k in keys ==> k in data
    ensures d.Keys == data.Keys
  {
    if n == 0 then data
    else PanelData(keys, data, currents, temps, n - 1)[keys[n - 1] := ApplyCurrent(data[keys[n - 1]], currents[n - 1], temps[n - 1])]
  }

  /** The statuses after the control panel has applied its first `n`
      sliders to the cells of `keys`, in order. */
  function PanelStatus(keys: seq<Key>, status: map<Key, Status>, currents: seq<int>, n: nat): (st: map<Key, Status>)
    requires n <= |keys| && |currents| == |keys|
    requires forall k :: k in keys ==> k in status
    ensures st.Keys == status.Keys
  {
    if n == 0 then status
    else PanelStatus(keys, status, currents, n - 1)[keys[n - 1] := StatusOf(currents[n - 1])]
  }

  /** After `n` sliders, a visited cell holds its old reading with the
      slider's current and the new temperature, and a cell not yet visited
      holds its old reading. */
  lemma {:induction false} PanelDataAt(keys: seq<Key>, data: map<Key, Reading>, currents: seq<int>, temps: seq<int>,
                                       n: nat, j: nat)
    requires n <= |keys| && j < |keys| && |currents| == |keys| && |temps| == |keys| && Distinct(keys)
    requires forall k :: k in keys ==> k in data
    ensures keys[j] in PanelData(keys, data, currents, temps, n)
    ensures PanelData(keys, data, currents, temps, n)[keys[j]]
         == if j < n then ApplyCurrent(data[keys[j]], currents[j], temps[j]) else data[keys[j]]
  {
    if n > 0 {
      PanelDataAt(keys, data, currents, temps, n - 1, j);
    }
  }

  /** After `n` sliders, a visited cell has the status its slider's sign
      gives, and a cell not yet visited keeps its status. */
  lemma {:induction false} PanelStatusAt(keys: seq<Key>, status: map<Key, Status>, currents: seq<int>, n: nat, j: nat)
    requires n <= |keys| && j < |keys| && |currents| == |keys| && Distinct(keys)
    requires forall k :: k in keys ==> k in status
    ensures keys[j] in PanelStatus(keys, status, currents, n)
    ensures PanelStatus(keys, status, currents, n)[keys[j]]
         == if j < n then StatusOf(currents[j]) else status[keys[j]]
  {
    if n > 0 {
      PanelStatusAt(keys, status, currents, n - 1, j);
    }
  }

  /** One more slider of the control panel updates one more cell. */
  lemma PanelStep(keys: seq<Key>, data: map<Key, Reading>, status: map<Key, Status>,
                  currents: seq<int>, temps: seq<int>, n: nat)
    requires n < |keys| && |currents| == |keys| && |temps| == |keys| && Distinct(keys)
    requires forall k :: k in keys ==> k in data && k in status
    ensures var pd := PanelData(keys, data, currents, temps, n);
            keys[n] in pd && pd[keys[n] := ApplyCurrent(pd[keys[n]], currents[n], temps[n])]
                             == PanelData(keys, data, currents, temps, n + 1)
    ensures PanelStatus(keys, status, currents, n)[keys[n] := StatusOf(currents[n])]
         == PanelStatus(keys, status, currents, n + 1)
  {
    PanelDataAt(keys, data, currents, temps, n, n);
  }

  /** A second pass of the control panel with the same slider values
      leaves every status as the first pass set it. */
  lemma {:induction false} PanelStatusRepeat(keys: seq<Key>, status: map<Key, Status>, currents: seq<int>, n: nat)
    requires n <= |keys| && |currents| == |keys| && Distinct(keys)
    requires forall k :: k in keys ==> k in status
    ensures var once := PanelStatus(keys, status, currents, |keys|);
            PanelStatus(keys, once, currents, n) == once
  {
    var once := PanelStatus(keys, status, currents, |keys|);
    if n > 0 {
      PanelStatusRepeat(keys, status, currents, n - 1);
      PanelStatusAt(keys, status, currents, |keys|, n - 1);
      assert once[keys[n - 1] := StatusOf(currents[n - 1])] == once;
    }
  }

  /** Running the control panel a second time with the same slider values
      changes nothing but the temperatures, which it draws afresh: every
      cell keeps its current and its capacity, and every status stays. */
  lemma PanelRepeat(keys: seq<Key>, data: map<Key, Reading>, status: map<Key, Status>,
                    currents: seq<int>, temps: seq<int>, temps2: seq<int>)
    requires |currents| == |keys| && |temps| == |keys| && |temps2| == |keys| && Distinct(keys)
    requires forall k :: k in keys ==> k in data && k in status
    ensures var once := PanelData(keys, data, currents, temps, |keys|);
            forall j :: 0 <= j < |keys| ==>
              && keys[j] in once && keys[j] in PanelData(keys, once, currents, temps2, |keys|)
              && PanelData(keys, once, currents, temps2, |keys|)[keys[j]] == once[keys[j]].(temp := temps2[j])
    ensures var once := PanelStatus(keys, status, currents, |keys|);
            PanelStatus(keys, once, currents, |keys|) == once
  {
    var once := PanelData(keys, data, currents, temps, |keys|);
    forall j | 0 <= j < |keys|
      ensures && keys[j] in once && keys[j] in PanelData(keys, once, currents, temps2, |keys|)
              && PanelData(keys, once, currents, temps2, |keys|)[keys[j]] == once[keys[j]].(temp := temps2[j])
    {
      PanelDataAt(keys, data, currents, temps, |keys|, j);
      PanelDataAt(keys, once, currents, temps2, |keys|, j);
    }
    PanelStatusRepeat(keys, status, currents, |keys|);
  }

  /** What the whole control panel does to a consistent session: every
      cell gets its slider's current and a new temperature, and the status
      its slider's sign gives. */
  lemma PanelEffect(keys: seq<Key>, data: map<Key, Reading>, status: map<Key, Status>,
                    currents: seq<int>, temps: seq<int>)
    requires Consistent(keys, data, status) && PanelInputs(keys, currents, temps)
    ensures forall j :: 0 <= j < |keys| ==>
              && keys[j] in PanelData(keys, data, currents, temps, |keys|)
              && PanelData(keys, data, currents, temps, |keys|)[keys[j]]
                 == ApplyCurrent(data[keys[j]], currents[j], temps[j])
              && keys[j] in PanelStatus(keys, status, currents, |keys|)
              && PanelStatus(keys, status, currents, |keys|)[keys[j]] == StatusOf(currents[j])
  {
    assert Distinct(keys);
    forall j | 0 <= j < |keys|
      ensures && keys[j] in PanelData(keys, data, currents, temps, |keys|)
              && PanelData(keys, data, currents, temps, |keys|)[keys[j]]
                 == ApplyCurrent(data[keys[j]], currents[j], temps[j])
              && keys[j] in PanelStatus(keys, status, currents, |keys|)
              && PanelStatus(keys, status, currents, |keys|)[keys[j]] == StatusOf(currents[j])
    {
      PanelDataAt(keys, data, currents, temps, |keys|, j);
      PanelStatusAt(keys, status, currents, |keys|, j);
    }
  }

  /** The control panel keeps the session consistent, slider after slider:
      a visited cell holds a well-formed update and its slider's status, an
      unvisited one its old entries. */
  lemma PanelKeepsConsistent(keys: seq<Key>, data: map<Key, Reading>, status: map<Key, Status>,
                             currents: seq<int>, temps: seq<int>, n: nat)
    requires Consistent(keys, data, status) && PanelInputs(keys, currents, temps) && n <= |keys|
    ensures Consistent(keys, PanelData(keys, data, currents, temps, n), PanelStatus(keys, status, currents, n))
  {
    assert Distinct(keys);
    var pd, ps := PanelData(keys, data, currents, temps, n), PanelStatus(keys, status, currents, n);
    forall k | k in pd
      ensures k in ps && WellFormed(k.chem, pd[k]) && ps[k] == StatusOf(pd[k].current)
    {
      var j :| 0 <= j < |keys| && keys[j] == k;
      PanelDataAt(keys, data, currents, temps, n, j);
      PanelStatusAt(keys, status, currents, n, j);
      if j < n {
        ApplyCurrentKeepsWellFormed(k.chem, data[k], currents[j], temps[j]);
      }
    }
  }

  /** After the control panel every cell shows the status its slider's
      sign gives and the capacity its chemistry's voltage times the
      slider's magnitude gives. */
  lemma PanelCapacities(keys: seq<Key>, data: map<Key, Reading>, status: map<Key, Status>,
                        currents: seq<int>, temps: seq<int>)
    requires Consistent(keys, data, status) && PanelInputs(keys, currents, temps)
    ensures forall j :: 0 <= j < |keys| ==>
              Shows(PanelData(keys, data, currents, temps, |keys|), PanelStatus(keys, status, currents, |keys|),
                    keys[j], StatusOf(currents[j]), Nominal(keys[j].chem).nominal * Abs(currents[j]))
  {
    PanelEffect(keys, data, status, currents, temps);
  }

  /** The loop of the Initialize button: one key, one fresh reading and
      one idle status per entry of the chemistry list, in order. */
  method BuildCells(types: seq<Chem>, temps: seq<int>)
    returns (ks: seq<Key>, d: map<Key, Reading>, st: map<Key, Status>)
    requires TempsFor(types, temps)
    ensures ks == CellKeys(types, |types|)
    ensures d == InitialData(types, temps, |types|)
    ensures st == InitialStatus(types, |types|)
  {
    d, st, ks := map[], map[], [];
    var idx := 0;
    while idx < |types|
      invariant 0 <= idx <= |types|
      invariant ks == CellKeys(types, idx)
      invariant d == InitialData(types, temps, idx)
      invariant st == InitialStatus(types, idx)
    {
      var key := Key(idx + 1, types[idx]);
      d := d[key := FreshReading(types[idx], temps[idx])];
      st := st[key := Idle];
      ks := ks + [key];
      idx := idx + 1;
    }
  }

  /** The loop of the control panel: for each cell in key order, the
      status follows the sign of the slider's current, and the reading
      takes the current, the capacity it gives and a new temperature. */
  method RunPanel(keys: seq<Key>, data: map<Key, Reading>, status: map<Key, Status>,
                  currents: seq<int>, temps: seq<int>)
    returns (d: map<Key, Reading>, st: map<Key, Status>)
    requires Distinct(keys) && |currents| == |keys| && |temps| == |keys|
    requires forall k :: k in keys ==> k in data && k in status
    ensures d == PanelData(keys, data, currents, temps, |keys|)
    ensures st == PanelStatus(keys, status, currents, |keys|)
  {
    d, st := data, status;
    var i := 0;
    while i < |keys|
      invariant 0 <= i <= |keys|
      invariant d == PanelData(keys, data, currents, temps, i)
      invariant st == PanelStatus(keys, status, currents, i)
    {
      var k := keys[i];
      PanelStep(keys, data, status, currents, temps, i);
      st := st[k := StatusOf(currents[i])];
      d := d[k := ApplyCurrent(d[k], currents[i], temps[i])];
      i := i + 1;
    }
  }

  class Bench {
    var nCells: int
    var cellTypes: seq<Chem>
    var keys: seq<Key>
    var data: map<Key, Reading>
    var status: map<Key, Status>
    var initialized: bool

    /** The invariant the session keeps: a cell count the slider allows, a
        chemistry list of that length, consistent dictionaries, and no cells
        before the first initialization. */
    ghost predicate Valid()
      reads this
    {
      && 1 <= nCells <= MaxCells
      && |cellTypes| == nCells
      && Consistent(keys, data, status)
      && (!initialized ==> keys == [])
    }

    /** The state of a fresh session: eight LFP cells configured, none
        initialized. */
    constructor ()
      ensures Valid()
      ensures nCells == MaxCells && cellTypes == seq(MaxCells, _ => LFP)
      ensures keys == [] && data == map[] && status == map[] && !initialized
    {
      nCells := MaxCells;
      cellTypes := seq(MaxCells, _ => LFP);
      keys := [];
      data := map[];
      status := map[];
      initialized := false;
    }

    /** The setup slider sets the cell count to `n`; the chemistry list is
        cut or padded to match. */
    method Resize(n: int)
      requires Valid() && 1 <= n <= MaxCells
      modifies this
      ensures Valid()
      ensures nCells == n && cellTypes == Resized(old(cellTypes), n)
      ensures keys == old(keys) && data == old(data) && status == old(status)
      ensures initialized == old(initialized)
    {
      nCells := n;
      if |cellTypes| != n {
        cellTypes := Resized(cellTypes, n);
      } else {
        ResizedSameLength(cellTypes);
      }
    }

    /** The per-cell chemistry selectors write their choices into the list,
        one entry at a time. */
    method SelectTypes(picks: seq<Chem>)
      requires Valid() && |picks| == nCells
      modifies this
      ensures Valid()
      ensures cellTypes == picks
      ensures nCells == old(nCells) && keys == old(keys) && data == old(data) && status == old(status)
      ensures initialized == old(initialized)
    {
      var i := 0;
      while i < nCells
        invariant 0 <= i <= nCells
        invariant Valid()
        invariant nCells == old(nCells) && keys == old(keys) && data == old(data) && status == old(status)
        invariant initialized == old(initialized)
        invariant cellTypes[..i] == picks[..i]
      {
        cellTypes := cellTypes[i := picks[i]];
        i := i + 1;
      }
      assert cellTypes == cellTypes[..nCells];
    }

    /** The Initialize button: builds both dictionaries from the
        chemistry list, `temps` being the random temperature draws, one per
        cell, and marks the session initialized. */
    method Initialize(temps: seq<int>)
      requires Valid()
      requires TempsFor(cellTypes, temps)
      modifies this
      ensures Valid() && initialized
      ensures nCells == old(nCells) && cellTypes == old(cellTypes)
      ensures keys == CellKeys(cellTypes, |cellTypes|)
      ensures data == InitialData(cellTypes, temps, |cellTypes|)
      ensures status == InitialStatus(cellTypes, |cellTypes|)
    {
      var ks, d, st := BuildCells(cellTypes, temps);
      InitialStateConsistent(cellTypes, temps, |cellTypes|);
      keys, data, status, initialized := ks, d, st, true;
    }

    /** The control panel page: one slider per cell, visited in key
        order; `currents` are the slider values and `temps` the random
        temperature draws. */
    method ControlPanel(currents: seq<int>, temps: seq<int>)
      requires Valid() && PanelInputs(keys, currents, temps)
      modifies this
      ensures Valid()
      ensures nCells == old(nCells) && cellTypes == old(cellTypes) && keys == old(keys)
      ensures initialized == old(initialized)
      ensures data == PanelData(keys, old(data), currents, temps, |keys|)
      ensures status == PanelStatus(keys, old(status), currents, |keys|)
    {
      var d, st := RunPanel(keys, data, status, currents, temps);
      PanelKeepsConsistent(keys, data, status, currents, temps, |keys|);
      data, status := d, st;
    }
  }

  /** Cell `k` is in both dictionaries at voltage `v`, with no current,
      no capacity and the status idle. */
  predicate IdleAt(data: map<Key, Reading>, status: map<Key, Status>, k: Key, v: int)
  {
    && k in data && k in status && status[k] == Idle
    && data[k].voltage == v && data[k].current == 0 && data[k].capacity == 0
  }

  /** The setup page of a short session: three cells, the third one NMC,
      initialized with 3.2 V, 3.2 V and 3.6 V, no current and no capacity,
      all idle. */
  method SetupSession() returns (b: Bench)
    ensures fresh(b) && b.Valid() && b.initialized
    ensures b.keys == [Key(1, LFP), Key(2, LFP), Key(3, NMC)]
    ensures IdleAt(b.data, b.status, Key(1, LFP), 32)
    ensures IdleAt(b.data, b.status, Key(2, LFP), 32)
    ensures IdleAt(b.data, b.status, Key(3, NMC), 36)
  {
    b := new Bench();
    b.Resize(3);
    var types, temps := [LFP, LFP, NMC], [250, 300, 350];
    b.SelectTypes(types);
    InitialCellsFresh(types, temps, 3, 0);
    InitialCellsFresh(types, temps, 3, 1);
    InitialCellsFresh(types, temps, 3, 2);
    assert CellKeys(types, 3) == [Key(1, LFP), Key(2, LFP), Key(3, NMC)];
    b.Initialize(temps);
  }

  /** Cell `k` is in both dictionaries, with status `s` and capacity `cap`. */
  predicate Shows(data: map<Key, Reading>, status: map<Key, Status>, k: Key, s: Status, cap: int)
  {
    k in data && k in status && status[k] == s && data[k].capacity == cap
  }

  /** The control panel of a short session: the first cell is charged at
      5.0 A, the second left idle and the third discharged at 2.0 A. */
  method PanelSession(b: Bench)
    requires b.Valid() && b.keys == [Key(1, LFP), Key(2, LFP), Key(3, NMC)]
    modifies b
    ensures b.Valid() && b.keys == old(b.keys)
    ensures Shows(b.data, b.status, Key(1, LFP), Charging, 1600)
    ensures Shows(b.data, b.status, Key(2, LFP), Idle, 0)
    ensures Shows(b.data, b.status, Key(3, NMC), Discharging, 720)
  {
    var currents, temps := [50, 0, -20], [300, 310, 320];
    assert b.keys[0] == Key(1, LFP) && b.keys[1] == Key(2, LFP) && b.keys[2] == Key(3, NMC);
    PanelCapacities(b.keys, b.data, b.status, currents, temps);
    b.ControlPanel(currents, temps);
  }

  /** The control panel once more: the first cell's slider moves to
      -2.0 A, and the other sliders stay where the cells' currents put them.
      The first cell now discharges at 6.40 Wh. */
  method TurnAroundSession(b: Bench)
    requires b.Valid() && b.keys == [Key(1, LFP), Key(2, LFP), Key(3, NMC)]
    requires b.data[Key(2, LFP)].current == 0 && b.data[Key(3, NMC)].current == -20
    modifies b
    ensures b.Valid() && b.keys == old(b.keys)
    ensures Shows(b.data, b.status, Key(1, LFP), Discharging, 640)
    ensures Shows(b.data, b.status, Key(2, LFP), Idle, 0)
    ensures Shows(b.data, b.status, Key(3, NMC), Discharging, 720)
  {
    var currents, temps := [-20, b.data[Key(2, LFP)].current, b.data[Key(3, NMC)].current], [330, 340, 350];
    assert b.keys[0] == Key(1, LFP) && b.keys[1] == Key(2, LFP) && b.keys[2] == Key(3, NMC);
    PanelCapacities(b.keys, b.data, b.status, currents, temps);
    b.ControlPanel(currents, temps);
  }
}
