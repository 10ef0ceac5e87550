# Cell Testing Workbench — a verified model of the bench state

The Cell Testing Workbench is a single Streamlit page. It configures a bench
of up to eight battery cells. Each cell is LFP or NMC. The page initializes
one reading and one status per cell. A control panel sets each cell's
current, and a dashboard sums the capacity of the charging cells and of the
discharging cells.

This project models that state logic in Dafny and proves what the page
promises about it. It has three modules.

- `Cells` (`cells.dfy`) holds the values: chemistry, status, cell key and
  reading. It also holds the chemistry voltage table, the sign-to-status rule,
  the capacity formula, the card colour and the key text `cell_<idx>_<chem>`.
- `Dashboard` (`dashboard.dfy`) holds the dashboard pass. That is the two
  capacity totals, the layout of the cards in rows of four, the temperature
  icon and the progress bar.
- `Workbench` (`workbench.dfy`) holds the session state as a class `Bench`.
  Its fields are `nCells`, `cellTypes`, `keys`, `data`, `status` and
  `initialized`. Its methods are the setup slider (`Resize`), the chemistry
  selectors (`SelectTypes`), the Initialize button (`Initialize`) and the
  control panel (`ControlPanel`).

The two Python dictionaries `cells_data` and `cell_status` are the maps
`data` and `status`. `keys` is their common insertion order. Python
dictionaries iterate in insertion order, so `keys` is the order in which the
dashboard and the control panel visit the cells. The invariant `Bench.Valid`
says the session is consistent (`Cells.Consistent`):

- both maps have exactly the cells of `keys` as their keys;
- the cells are numbered 1, 2, … in order;
- every reading has its chemistry's voltages, a current the slider allows, a
  temperature the random draw allows, and the capacity its current gives;
- every status is the one the sign of the cell's current gives.

Every method of `Bench` keeps that invariant.

Floats are replaced by exact fixed-point integers:

- voltage in decivolts (3.2 V is 32);
- current in deciamps (the slider has step 0.1 A, so -10..10 A is -100..100);
- capacity in centi-watt-hours;
- temperature in tenths of a degree (25.0..40.0 °C is 250..400).

A product of two one-decimal numbers has at most two decimals. So the
source's `round(voltage * abs(current), 2)` is exactly `voltage_dV * |current_dA|`,
and `Cells.CapacityIsRoundedProduct` proves it.

The random temperature draw (`generate_random_temp`) and the slider values
are inputs. A temperature is any value in 250..400 and a current any value
in -100..100.

## Model

| member | source | states |
|---|---|---|
| Cells.TempRangeInDegrees | Cell_Testing_Workbench.py:18-19 | a temperature the model allows is exactly a one-decimal value from 25.0 to 40.0 degrees |
| Cells.Nominal | Cell_Testing_Workbench.py:89-91 | the chemistry table keeps min ≤ nominal ≤ max for both chemistries, inside 2.8..4.0 V, with a 0.8 V band |
| Cells.StatusOf | Cell_Testing_Workbench.py:200-205 | charging iff current > 0, discharging iff current < 0, idle iff current = 0 |
| Cells.Capacity | Cell_Testing_Workbench.py:209 | for a non-negative voltage the capacity is never negative, and it is zero exactly when voltage or current is zero |
| Cells.RoundCenti | Cell_Testing_Workbench.py:209 | rounding to two decimals gives the nearest number of hundredths, within half a hundredth of the value |
| Cells.RoundOfTenthsProduct | Cell_Testing_Workbench.py:209 | rounding a product of two one-decimal values to two decimals gives that product exactly |
| Cells.CapacityIsRoundedProduct | Cell_Testing_Workbench.py:209 | the integer capacity equals `round(voltage * abs(current), 2)` computed over the decimal values |
| Cells.FreshReading | Cell_Testing_Workbench.py:89-104 | a freshly initialized reading is well formed for its chemistry, with current 0, capacity 0, the drawn temperature, and the status idle |
| Cells.ApplyCurrent | Cell_Testing_Workbench.py:207-210 | setting a current keeps voltage and both voltage bounds, sets current and temperature, and sets capacity to voltage × abs(current) ≥ 0 |
| Cells.ApplyCurrentKeepsWellFormed | Cell_Testing_Workbench.py:207-210 | a control-panel update of a well-formed reading with slider-range inputs is still well formed |
| Cells.IdleIffNoCapacity | Cell_Testing_Workbench.py:200-209 | a well-formed reading has capacity ≥ 0, and it is idle exactly when its capacity is zero |
| Cells.CellColor | Cell_Testing_Workbench.py:10-16 | the source's three style strings: the green one exactly for charging, the orange one exactly for discharging, the blue one exactly for idle |
| Cells.DecimalRoundTrip | Cell_Testing_Workbench.py:95 | the decimal text of a cell number reads back to that number |
| Cells.DigitRunBeforeUnderscore | Cell_Testing_Workbench.py:95 | in `<digits>_<text>` the run of digits ends exactly at the underscore |
| Cells.KeyName | Cell_Testing_Workbench.py:95 | the key text `cell_<idx>_<chem>` reads back, through `ParseKey` (strip `cell_`, read the digits up to the underscore, name the chemistry), to the cell it was written for |
| Cells.KeyNameInjective | Cell_Testing_Workbench.py:95 | two cells with the same key text have the same number and chemistry |
| Cells.CellKeys | Cell_Testing_Workbench.py:88-95 | one key per configured cell, in order: key i carries number i+1 and the i-th chemistry |
| Cells.DistinctKeyNames | Cell_Testing_Workbench.py:88-97 | different cells of one bench get different key texts, so no dictionary entry overwrites another |
| Cells.ConsistentAppend | Cell_Testing_Workbench.py:97-105 | adding a new cell with the next number, a well-formed reading and the status its current gives keeps both dictionaries consistent, and the cell is new |
| Cells.ConsistentUpdate | Cell_Testing_Workbench.py:200-210 | replacing one cell's reading and status by a well-formed reading and the matching status keeps the dictionaries consistent |
| Dashboard.StatusTotalNonNegative | Cell_Testing_Workbench.py:167-170 | a status total over cells with non-negative capacities is non-negative |
| Dashboard.TotalsPartitionCapacity | Cell_Testing_Workbench.py:167-170 | on a consistent session the idle total is 0, and the charging and discharging totals add up to the capacity of all cells |
| Dashboard.LayoutShowsEachCellOnce | Cell_Testing_Workbench.py:157-161 | every row holds 1 to 4 cards, cell i is at row i / 4 and column i % 4, and every card shown is a cell below the cell count |
| Dashboard.Render | Cell_Testing_Workbench.py:113-170 | the dashboard loop's totals are the capacity sums over the charging and over the discharging cells, and its rows form the row-of-four layout |
| Dashboard.DashboardTotals | Cell_Testing_Workbench.py:113-170 | on a consistent session both dashboard totals are ≥ 0 and together equal the capacity of all cells |
| Dashboard.StatusTotal | Cell_Testing_Workbench.py:167-170 | the capacity summed over the cells of one status; it is zero when no cell has that status |
| Dashboard.TempIconOf | Cell_Testing_Workbench.py:126 | flame iff above 37 °C, thermometer iff above 32 °C and at most 37 °C, snowflake iff at most 32 °C |
| Dashboard.TempIconMonotone | Cell_Testing_Workbench.py:126 | a hotter cell never shows a colder icon |
| Dashboard.Progress | Cell_Testing_Workbench.py:179 | the bar is min(capacity / 40 Wh, 1), lies in [0, 1] for a non-negative capacity, and is full exactly from 40 Wh on |
| Dashboard.ProgressBelowClamp | Cell_Testing_Workbench.py:179 | for a well-formed reading the clamp never applies, and the bar stays in [0, 0.9] |
| Workbench.Resized | Cell_Testing_Workbench.py:75-76 | the resized list has n entries, keeps the first min(old length, n) entries, and every new entry is LFP |
| Workbench.ResizedSameLength | Cell_Testing_Workbench.py:75-76 | resizing to the current length changes nothing, so skipping the resize at equal length is the same as doing it |
| Workbench.InitialData | Cell_Testing_Workbench.py:86-104 | the readings dictionary Initialize builds has exactly the key set of the status dictionary it builds |
| Workbench.InitialStatus | Cell_Testing_Workbench.py:87-105 | every status Initialize records is idle |
| Workbench.InitialStateConsistent | Cell_Testing_Workbench.py:85-106 | the dictionaries Initialize builds are consistent with its keys: the same key set in both, numbered 1..n, well formed and idle |
| Workbench.InitialCellsFresh | Cell_Testing_Workbench.py:86-105 | after Initialize every configured cell is in both dictionaries, with a fresh reading (current 0, capacity 0) and status idle |
| Workbench.PanelData | Cell_Testing_Workbench.py:207-210 | the readings after the control panel's sliders, which has the same key set as before |
| Workbench.PanelStatus | Cell_Testing_Workbench.py:200-205 | the statuses after the control panel's sliders, which has the same key set as before |
| Workbench.PanelDataAt | Cell_Testing_Workbench.py:207-210 | partway through the control panel, a visited cell holds its old reading updated by its slider, and a cell not yet visited holds its old reading |
| Workbench.PanelStatusAt | Cell_Testing_Workbench.py:200-205 | partway through the control panel, a visited cell has the status of its slider's sign, and a cell not yet visited keeps its status |
| Workbench.PanelStep | Cell_Testing_Workbench.py:207-210 | updating the entry the dictionary holds at a cell's turn is the same as updating the pre-panel entry, because each cell is visited once |
| Workbench.PanelRepeat | Cell_Testing_Workbench.py:197-210 | a second control-panel pass with the same slider values and fresh temperature draws changes only the temperatures: each cell keeps its current and capacity, the new temperature is the new draw, and every status stays |
| Workbench.PanelStatusRepeat | Cell_Testing_Workbench.py:200-205 | any prefix of a second pass with the same slider values leaves the statuses of the first pass unchanged |
| Workbench.PanelEffect | Cell_Testing_Workbench.py:197-210 | after the control panel, every cell holds its old reading updated by its own slider, and has the status of that slider's sign |
| Workbench.PanelKeepsConsistent | Cell_Testing_Workbench.py:197-210 | after any number of the control panel's sliders the session is still consistent |
| Workbench.PanelCapacities | Cell_Testing_Workbench.py:200-209 | after the control panel every cell has its slider's sign status and the capacity its chemistry's voltage times the slider's magnitude gives |
| Workbench.BuildCells | Cell_Testing_Workbench.py:85-106 | the Initialize loop builds, from empty dictionaries, exactly one key, one fresh reading and one idle status per entry of the chemistry list |
| Workbench.RunPanel | Cell_Testing_Workbench.py:197-210 | the control-panel loop, which updates the dictionaries in place key by key, produces the readings and statuses of the panel specification |
| Workbench.Bench.constructor | Cell_Testing_Workbench.py:22-27 | a new session has eight LFP cells configured, empty dictionaries, and is not initialized |
| Workbench.Bench.Resize | Cell_Testing_Workbench.py:72-76 | the slider sets the cell count, resizes the chemistry list to match, and leaves the dictionaries alone |
| Workbench.Bench.SelectTypes | Cell_Testing_Workbench.py:78-83 | the selectors write the choices into the chemistry list element by element, and the list becomes exactly the choices |
| Workbench.Bench.Initialize | Cell_Testing_Workbench.py:85-106 | the dictionaries are rebuilt from empty, so earlier readings are discarded; the result is one key per configured cell with a fresh reading and an idle status; the session is initialized and stays consistent |
| Workbench.Bench.ControlPanel | Cell_Testing_Workbench.py:195-210 | the cells and chemistry list are unchanged, every cell's reading and status are those of the panel specification, and the session stays consistent |
| Workbench.SetupSession | Cell_Testing_Workbench.py:72-106 | a three-cell setup with chemistries LFP, LFP, NMC, once initialized, has the keys cell_1_LFP, cell_2_LFP and cell_3_NMC, at 3.2, 3.2 and 3.6 V, each with current 0 and capacity 0, and idle |
| Workbench.PanelSession | Cell_Testing_Workbench.py:197-210 | on that bench, 5.0 A on cell 1 makes it charging at 16.00 Wh, cell 2 at 0 A stays idle with no capacity, and -2.0 A on cell 3 makes it discharging at 7.20 Wh |
| Workbench.TurnAroundSession | Cell_Testing_Workbench.py:197-210 | moving cell 1's slider to -2.0 A, with the other sliders left at the cells' currents, makes cell 1 discharging at 6.40 Wh and leaves cells 2 and 3 as they were |

## Left out

- Streamlit widgets, the sidebar navigation, the HTML/CSS cards, `status_emojis`, the card title text and the success/info/warning messages (lines 29-38, 111, 120-124, 128-155, 164, 172-192, 246-247) are left out. They are display only.
- The auto-refresh block (lines 40-62) is left out. It depends on the wall clock, URL query parameters and re-running the page.
- The Graph & Analysis page (lines 215-243) is left out. It covers the DataFrame, the matplotlib charts and the CSV export, which are library calls with no state logic.
- Random sampling is not modelled. `generate_random_temp` and the slider values are parameters of `Initialize` and `ControlPanel`, constrained to the draw's and the slider's ranges. The distribution of `random.uniform` is not modelled.
- The bench name, group number and overall chemistry inputs (lines 68-70) are left out. The page never uses them.
- IEEE-754 floats are replaced by exact fixed-point integers. So the temperature's `round(…, 1)` and the capacity's `round(…, 2)` are exact, and the float comparisons `t > 37` and `t > 32` become exact integer comparisons.
- The slider's default value (line 199, the cell's current reading) is left out. It only sets the slider's starting position, and the value read back is a parameter.
- The dictionaries are keyed by the `Key` value, not by its text. `Cells.KeyNameInjective` and `Cells.DistinctKeyNames` show that the text `cell_<idx>_<chem>` identifies the cell, so the two keyings agree.
- Cells.RoundCenti: rounds half-way values up, where Python's `round` rounds half to even on the float. The two differ only on values with a third decimal, and the capacity formula never rounds one (Cells.RoundOfTenthsProduct).
- Workbench.Bench.ControlPanel: the in-place update of each inner reading dictionary is modelled as replacing the reading in `data`. The inner dictionaries are never shared, so this is indistinguishable.
- Workbench.RunPanel: the loop builds the two maps locally and `ControlPanel` assigns them once. Nothing else reads the session during the loop.
- The `initialized` guards of the Dashboard and Control Panel pages (lines 110, 195) are not separate branches. Before the first initialization `Bench.Valid` gives `keys == []`, so both loops do nothing.
- The chemistry selector's `['LFP','NMC'].index(…)` (line 82) cannot fail in the model. `Chem` has only the two values.
- The table's "anything else" branch (lines 89-91) is the NMC case for the same reason.
