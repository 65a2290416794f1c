# V2G parking-bay controller

This project models the vehicle-to-grid controller of the ESP32 test panel
(`ESP32_OLED_testpanel/src/main.cpp`). The controller manages three parking bays
whose parked cars can discharge their batteries into the grid or be charged from
it. Its state is five global arrays of four entries each: occupancy, parked-time
counters, battery charges (in Wh), charging flags and discharging flags. Index 0
of every array is a "fail safe" slot that is never occupied: nothing sets
`buttonVariables[0]`. Its charging and discharging flags start set, and every
allocation writes its charge back unchanged and clears its discharging flag. The
bays are 1, 2 and 3.

Each control cycle takes a grid demand sample in 0..15000 and runs three steps:

1. `timeParked` counts cycles for occupied bays and zeroes free ones.
2. `update_battery_status` is a greedy allocator. It drops the bays below the
   10-unit reserve (36000 Wh). Then, while demand is left, it draws
   min(5000, need) from the fullest available bay and retires that bay for the
   rest of the call.
3. `update_battery_charging` runs only when the demand is exactly 0. It adds 5000
   to every occupied bay below 360000.

The presence buttons toggle occupancy between cycles and give the bay a new
charge.

The model has three modules:

- `Scans` (`scans.dfy`) holds the read-only scans: counting occupied bays,
  testing for a set flag, and picking the fullest available battery. Each scan
  is a method with its loop, proved against a recursive specification function.
- `Allocation` (`allocation.dfy`) states the allocator as values:
  - `Start` is the state after the copy and the reserve filter.
  - `Step` is one turn of the loop.
  - `Discharge` is the loop.
  - `Allocate` is the whole call.

  The lemmas there state what one call guarantees: conservation of the demand,
  the eligibility floor, at most one draw per bay, the exact amount taken from
  each bay, and the fullest-first order with ties going to the lower index.
- `Panel` (`panel.dfy`) holds the class `ParkingBays`. Its fields are the five
  arrays, and its methods update them in place as the source does. The method
  for `update_battery_status` is proved to end in exactly the state `Allocate`
  gives. Its loop body and its final write-back are split into two methods,
  `DrawFromFullest` and `StoreCharges`, which keeps each proof small. The
  statements are those of the source. A whole control cycle ends in exactly the
  state the function `Cycle` gives from the old arrays, and the lemma
  `CycleGuarantees` states what such a cycle promises.

The operations whose proofs rely on the fail-safe slot require `!occupied[0]`
through `Valid()`, because nothing in the controller ever sets
`buttonVariables[0]`. Under that condition `find_max_index` never returns the
sentinel 0 inside the loop. So the guard at lines 446-450 never fires, although
the model keeps it, together with the draw that follows it regardless.

Where the code and its written description differ, the model follows the code:

- A free bay's charging flag is cleared only when the demand is 0. With any
  other demand, a flag set earlier stays set. The flags are not recomputed every
  cycle.
- Charging adds the full 5000 to any occupied bay below 360000 with no clamp. A
  bay can therefore reach up to 364999 (359000 becomes 364000).
- `buttonState` replaces the bay's charge on every press, departures included.
- The grid capacity `MAX_GRID` is passed to `update_battery_status` and never
  read there. `battery_grid_need` is never called.

## Model

| member | source | states |
|---|---|---|
| Scans.BoolFromArrayToInt | ESP32_OLED_testpanel/src/main.cpp:285-295 | The result is 0 or 1, and it is 1 exactly when the entry is set. |
| Scans.CountParkedIsCardinality | ESP32_OLED_testpanel/src/main.cpp:314-322 | The running count over indices 1..size-1 equals the number of set entries there. Index 0 is never counted. |
| Scans.CountParkedPositive | ESP32_OLED_testpanel/src/main.cpp:433-439 | The count is positive exactly when some real bay is set. This is the condition under which `avalible_cars` starts true. |
| Scans.CountParkedClear | ESP32_OLED_testpanel/src/main.cpp:470-471 | Retiring one available real bay lowers the count by exactly one. |
| Scans.CountParked | ESP32_OLED_testpanel/src/main.cpp:314-322 | The count over indices 1..size-1 is 0 when size is at most 1, and otherwise at most size-1. |
| Scans.Scan | ESP32_OLED_testpanel/src/main.cpp:383-399 | The element found is never negative, and the index found is 0 or below the scanned length. |
| Scans.ParkingStatusArray | ESP32_OLED_testpanel/src/main.cpp:314-322 | The loop returns the number of set entries at indices 1..size-1. That number lies in [0, size-1]. |
| Scans.ArrayContainsTrue | ESP32_OLED_testpanel/src/main.cpp:528-539 | The result is true exactly when one of the first `size` entries is set. |
| Scans.ScanFindsFirstMaximum | ESP32_OLED_testpanel/src/main.cpp:383-399 | The scan returns (0, 0) when no entry is available and positive. Otherwise it returns an available positive entry that is at least every available entry and strictly above every available entry at a lower index. |
| Scans.FindMaxIndex | ESP32_OLED_testpanel/src/main.cpp:383-399 | The loop returns 0 or an index below `size`. When some candidate exists, that index is available and positive, its element is at least every available element, and it is the lowest such index. With no candidate it returns 0. |
| Allocation.BatteryGridNeed | ESP32_OLED_testpanel/src/main.cpp:369-377 | The result is load + 100000 - capacity when that is positive, and 0 otherwise. |
| Allocation.Eligibility | ESP32_OLED_testpanel/src/main.cpp:420-430 | A bay is available to the allocator exactly when it is occupied and its charge is at least 36000. |
| Allocation.Start | ESP32_OLED_testpanel/src/main.cpp:409-439 | The working state holds the old charges and charging flags, all four arrays have four entries, and the need left plus the power given is the demand. |
| Allocation.Step | ESP32_OLED_testpanel/src/main.cpp:443-471 | One turn draws one new bay k, appended to the drawn list. That bay leaves the available set, is flagged discharging and not charging, and no other bay's charge or charging flag changes. The count drops by one and need plus given is conserved. |
| Allocation.Discharge | ESP32_OLED_testpanel/src/main.cpp:441-472 | The loop ends in a state where it does not continue. Need plus given is conserved, and the earlier draws are a prefix of the final ones. |
| Allocation.Allocate | ESP32_OLED_testpanel/src/main.cpp:402-495 | The call ends with the loop finished, and the need left plus the power given is the demand. |
| Allocation.AllocationConservesDemand | ESP32_OLED_testpanel/src/main.cpp:406-472 | The power given plus the need left equals the demand, and both are non-negative. The need left is max(0, demand - 5000·n), where n is the number of eligible bays, so it is 0 exactly when n draws of 5000 cover the demand. At most 15000 is given. The charge removed from the bays equals the power given. |
| Allocation.AllocationDrawsEligibleBaysOnce | ESP32_OLED_testpanel/src/main.cpp:412-472 | The discharging flags are exactly the drawn bays. Every drawn bay is an occupied real bay at or above the reserve. No bay is drawn twice, and at most 3 draws occur. Slot 0 is never flagged. The index-0 guard never clears the flag. With zero demand nothing is drawn. When need is left over, every eligible bay was drawn. |
| Allocation.AllocationChargeChanges | ESP32_OLED_testpanel/src/main.cpp:453-467 | An undrawn bay keeps its charge and its charging flag. The j-th drawn bay loses exactly min(5000, the need after j full draws), so its charge stays at or above 31000. Its charging flag is cleared. |
| Allocation.AllocationKeepsRange | ESP32_OLED_testpanel/src/main.cpp:453-494 | When every charge lies in [0, 365000), every charge written back by the allocator does too. |
| Allocation.AllocationDrawsFullestFirst | ESP32_OLED_testpanel/src/main.cpp:441-471 | Bays are drawn in non-increasing order of charge, and ties go to the lower index. Every eligible bay left undrawn comes after all the drawn ones in that order. |
| Allocation.TwoBaysShareDemand | ESP32_OLED_testpanel/src/main.cpp:402-495 | With bays at 180000 and 108000 and a demand of 8000, the first bay gives 5000 and the second gives 3000. Both bays end discharging and not charging, and no need is left. |
| Allocation.ReserveBlocksDischarge | ESP32_OLED_testpanel/src/main.cpp:420-472 | A single occupied bay at 32400, below the reserve, is not drawn from. The demand of 5000 is left entirely unmet. |
| Panel.Tick | ESP32_OLED_testpanel/src/main.cpp:298-312 | Index 0 is kept. An occupied real bay's counter goes up by one. A real bay with a non-negative counter is positive afterwards exactly when it is occupied. |
| Panel.ChargeBay | ESP32_OLED_testpanel/src/main.cpp:507-523 | The charge either stays or rises by exactly 5000, and it rises exactly when the bay is occupied and below 360000, in which case the flag is set. A free bay's flag is cleared. An occupied full bay keeps its charge and flag. |
| Panel.Recharge | ESP32_OLED_testpanel/src/main.cpp:498-526 | With nonzero demand nothing changes. With zero demand every real bay goes through `ChargeBay` and index 0 is kept. |
| Panel.Cycle | ESP32_OLED_testpanel/src/main.cpp:567-569 | Need left plus power given is the demand. With zero demand, index 0 is kept and every real bay's charge and flag are those `ChargeBay` gives from the old ones. |
| Panel.CycleGuarantees | ESP32_OLED_testpanel/src/main.cpp:567-569 | Need and power given are non-negative and at most the demand is given. The charge and counter bounds are kept. Only occupied real bays that were at or above the reserve discharge, and they do not charge. A free bay reads 0 parked cycles and is not discharging, and with zero demand it is not charging. With zero demand nothing discharges and no charge falls. With any other demand no charge rises. |
| Panel.TicksCount | ESP32_OLED_testpanel/src/main.cpp:298-312 | After k cycles with unchanged occupancy, an occupied bay's counter has risen by k. A free bay's counter reads 0 from the first cycle on, so repeating the cycle keeps it at 0. Index 0 never moves. |
| Panel.ChargeBayOverfills | ESP32_OLED_testpanel/src/main.cpp:504-524 | One charging turn keeps a charge below 365000 and never lowers it. A bay at 359000 reaches 364000, which is above full. A free bay's flag is cleared and its charge is kept. |
| Panel.ParkingBays.constructor | ESP32_OLED_testpanel/src/main.cpp:80-109 | No bay is occupied, the counters and charges are 0, and every charging and discharging flag is set. |
| Panel.ParkingBays.ButtonState | ESP32_OLED_testpanel/src/main.cpp:342-367 | Each bay whose button fired flips its occupancy and takes the supplied arrival charge. Every other bay and index 0 are unchanged. With arrival charges of the form random(20,80)·3600, the charge bounds are kept. |
| Panel.ParkingBays.TimeParked | ESP32_OLED_testpanel/src/main.cpp:298-312 | Each occupied real bay's counter goes up by one and each free bay's counter becomes 0. Index 0 is untouched. |
| Panel.ParkingBays.CopyForAllocation | ESP32_OLED_testpanel/src/main.cpp:409-430 | The working copies hold the charges and the eligibility, and every discharging flag is cleared. |
| Panel.ParkingBays.DrawFromFullest | ESP32_OLED_testpanel/src/main.cpp:443-471 | One turn of the loop leaves the arrays and counters in exactly the state `Step` gives from the old ones. |
| Panel.ParkingBays.StoreCharges | ESP32_OLED_testpanel/src/main.cpp:490-494 | Afterwards, battery_satus holds the working charges. |
| Panel.ParkingBays.UpdateBatteryStatus | ESP32_OLED_testpanel/src/main.cpp:402-495 | The new charges, charging and discharging flags, need left and power given are exactly those of `Allocate` on the old state and the demand. The capacity argument is not used. |
| Panel.ParkingBays.UpdateBatteryCharging | ESP32_OLED_testpanel/src/main.cpp:498-526 | With grid 0, every real bay below `size` goes through one charging turn. Otherwise, and for the other bays, nothing changes. The charge bounds are kept. |
| Panel.ParkingBays.ControlCycle | ESP32_OLED_testpanel/src/main.cpp:555-569 | The new counters, charges, flags, need left and power given are exactly `Cycle` of the old arrays and the demand. Step by step: the counters are `Tick` of the old ones; need, power given and discharging flags are those of `Allocate`; with nonzero demand the charges and charging flags are those of `Allocate`; with zero demand each real bay's charge and flag are `ChargeBay` of the old ones and index 0 is kept. The charge bounds are kept. |

## Left out

- MQTT and WiFi (`setup_wifi`, `reconnect`, `callback`, `printMQTT`, `printMQTT_parking`) are network I/O and are not modelled. This includes the publish loops inside `update_battery_status` (474-488) and `update_battery_charging`. The published values, the need left and the power given, are returned by `UpdateBatteryStatus`.
- The OLED display, deep sleep, LED PWM and the telemetry after the cycle (571-585, including the division of charges by 3600) are hardware output and are not modelled.
- `ezButton` debouncing, `analogRead`, `map` and `random` are library calls whose source is not part of this model. The demand sample and the arrival charges are parameters. The demand is limited to 0..15000, the range `map` gives at line 556.
- The `millis()` gate in `loop` (563) is wall-clock scheduling. One cycle is one call of `ControlCycle`. The button handling that runs outside the gate is the separate method `ButtonState`.
- `bme280/src/main.cpp` and `ESP32_OLED_testpanel_ubidots/src/main.cpp` are not part of this model. They contain only sensor reads, a toggle and publishing.
- TimeParked: does not model the 32-bit wrap-around of `timeParked_cars`. The counter is an unbounded integer, which reaches a different value only after 2^31 cycles of one car.
- ButtonState: keeps the charge bounds only for arrival charges in the range `random(20,80)*3600` gives. Other arrival values are accepted but carry no bound.
