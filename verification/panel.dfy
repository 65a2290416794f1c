/**
 * The parking-bay controller of the ESP32 test panel: five per-bay arrays that
 * the presence buttons, the parked-time counter, the discharge allocator and
 * the charging scheduler update in place once per control cycle.
 */
module Panel {
  import opened Scans
  import opened Allocation

  /** A charge give_random_battery_status can return: random(20, 80) units of 3600 Wh. */
  predicate IsArrivalCharge(x: int) {
    20 * Wh <= x < 80 * Wh && x % Wh == 0
  }

  /** The parked-time counters after one timeParked call. */
  function Tick(t: seq<int>, occupied: seq<bool>): (r: seq<int>)
    requires |t| == Size && |occupied| == Size
    ensures |r| == Size && r[0] == t[0]
    ensures forall i {:trigger r[i]} :: 1 <= i < Size && t[i] >= 0 ==> r[i] >= 0 && (r[i] > 0 <==> occupied[i])
    ensures forall i {:trigger r[i]} :: 1 <= i < Size && occupied[i] ==> r[i] == t[i] + 1
  {
    seq(Size, i requires 0 <= i < Size => if i == 0 then t[0] else if occupied[i] then t[i] + 1 else 0)
  }

  /** The parked-time counters after k timeParked calls with unchanged occupancy. */
  function Ticks(t: seq<int>, occupied: seq<bool>, k: nat): (r: seq<int>)
    requires |t| == Size && |occupied| == Size
    ensures |r| == Size
  {
    if k == 0 then t else Tick(Ticks(t, occupied, k - 1), occupied)
  }

  /**
   * A bay that stays occupied for k cycles has its counter raised by k; a bay
   * that stays free reads 0 after the first cycle and keeps reading 0; the
   * fail-safe counter at index 0 never moves.
   */
  lemma {:induction false} TicksCount(t: seq<int>, occupied: seq<bool>, k: nat, i: int)
    requires |t| == Size && |occupied| == Size && 0 <= i < Size
    ensures Ticks(t, occupied, k)[i] ==
      if i == 0 || k == 0 then t[i] else if occupied[i] then t[i] + k else 0
  {
    if k > 0 {
      TicksCount(t, occupied, k - 1, i);
    }
  }

  /**
   * What one update_battery_charging turn does to one real bay: an occupied bay
   * below full gains one charge quantum and is marked charging; a free bay is
   * marked not charging; an occupied full bay is left as it is.
   */
  function ChargeBay(charge: int, occupied: bool, charging: bool): (r: (int, bool))
    ensures r.0 == charge || (r.0 == charge + ChargeQuantum && occupied && charge < Full && r.1)
    ensures r.0 > charge <==> occupied && charge < Full
    ensures !occupied ==> !r.1
    ensures occupied && charge >= Full ==> r == (charge, charging)
  {
    if occupied && charge < Full then (charge + ChargeQuantum, true)
    else if !occupied then (charge, false)
    else (charge, charging)
  }

  /**
   * A charged bay stays below 365000 but can end above the 360000 it treats as
   * full, since the quantum is not clamped: a bay at 359000 reaches 364000.
   */
  lemma ChargeBayOverfills(charge: int, occupied: bool, charging: bool)
    ensures 0 <= charge < Full + ChargeQuantum ==> 0 <= ChargeBay(charge, occupied, charging).0 < Full + ChargeQuantum
    ensures ChargeBay(charge, occupied, charging).0 >= charge
    ensures ChargeBay(359000, true, false) == (364000, true) && 364000 > Full
    ensures ChargeBay(180000, true, false) == (185000, true) && ChargeBay(180000, false, true) == (180000, false)
  {
  }

  /**
   * The charges and charging flags after update_battery_charging(grid, 4): with
   * grid 0 every real bay goes through `ChargeBay`, otherwise nothing changes.
   */
  function Recharge(charge: seq<int>, occupied: seq<bool>, charging: seq<bool>, grid: int): (r: (seq<int>, seq<bool>))
    requires Sized(charge, occupied, charging)
    ensures |r.0| == Size && |r.1| == Size && r.0[0] == charge[0] && r.1[0] == charging[0]
    ensures grid != 0 ==> r == (charge, charging)
    ensures grid == 0 ==> forall i :: 1 <= i < Size ==> (r.0[i], r.1[i]) == ChargeBay(charge[i], occupied[i], charging[i])
  {
    if grid != 0 then (charge, charging)
    else
      (seq(Size, i requires 0 <= i < Size => if i == 0 then charge[0] else ChargeBay(charge[i], occupied[i], charging[i]).0),
       seq(Size, i requires 0 <= i < Size => if i == 0 then charging[0] else ChargeBay(charge[i], occupied[i], charging[i]).1))
  }

  /** The arrays a control cycle rewrites, and the two values update_battery_status publishes. */
  datatype Bays = Bays(timeParked: seq<int>, battery: seq<int>, charging: seq<bool>, discharging: seq<bool>,
                       need: int, given: int)

  /**
   * One control cycle as values: timeParked, then update_battery_status with the
   * demand, then update_battery_charging with the same demand.  With no demand
   * nothing is drawn, so each real bay takes one charging turn from its old
   * charge and flag.
   */
  function Cycle(t: seq<int>, occupied: seq<bool>, charge: seq<int>, charging: seq<bool>, demand: int): (c: Bays)
    requires |t| == Size && Sized(charge, occupied, charging)
    ensures |c.timeParked| == Size && |c.battery| == Size && |c.charging| == Size && |c.discharging| == Size
    ensures c.need + c.given == demand
    ensures demand == 0 ==>
      && c.battery[0] == charge[0] && c.charging[0] == charging[0]
      && forall i :: 1 <= i < Size ==> (c.battery[i], c.charging[i]) == ChargeBay(charge[i], occupied[i], charging[i])
  {
    var r := Allocate(charge, occupied, charging, demand);
    var charged := Recharge(r.cars, occupied, r.charging, demand);
    Bays(Tick(t, occupied), charged.0, charged.1, r.discharging, r.need, r.given)
  }

  /** Every charge lies in [0, 365000) and every counter is non-negative. */
  predicate InRange(charge: seq<int>, t: seq<int>) {
    && (forall i :: 0 <= i < |charge| ==> 0 <= charge[i] < Full + ChargeQuantum)
    && (forall i :: 0 <= i < |t| ==> t[i] >= 0)
  }

  /**
   * What one control cycle guarantees: the demand is split into need left and
   * power given; the bounds are kept; only occupied bays at or above the reserve
   * discharge, and they do not charge; a free bay reads 0 parked cycles and is
   * not discharging; with zero demand nothing is drawn and no charge falls;
   * with any other demand no charge rises.
   */
  lemma CycleGuarantees(t: seq<int>, occupied: seq<bool>, charge: seq<int>, charging: seq<bool>, demand: int)
    requires |t| == Size && Sized(charge, occupied, charging) && !occupied[0] && 0 <= demand
    ensures var c := Cycle(t, occupied, charge, charging, demand);
      && 0 <= c.need && 0 <= c.given <= demand
      && (InRange(charge, t) ==> InRange(c.battery, c.timeParked))
      && (forall i :: 0 <= i < Size && c.discharging[i] ==>
            1 <= i && occupied[i] && charge[i] >= Reserve && !c.charging[i])
      && (forall i :: 1 <= i < Size && !occupied[i] ==>
            c.timeParked[i] == 0 && !c.discharging[i] && (demand == 0 ==> !c.charging[i]))
      && (demand == 0 ==> c.given == 0 && forall i :: 0 <= i < Size ==> !c.discharging[i] && c.battery[i] >= charge[i])
      && (demand != 0 ==> forall i :: 0 <= i < Size ==> c.battery[i] <= charge[i])
  {
    AllocationConservesDemand(charge, occupied, charging, demand);
    AllocationDrawsEligibleBaysOnce(charge, occupied, charging, demand);
    AllocationChargeChanges(charge, occupied, charging, demand);
  }

  /** A sequence that differs from another only at k is that one updated at k. */
  lemma SeqUpdate<T>(a: seq<T>, b: seq<T>, k: int, v: T)
    requires |a| == |b| && 0 <= k < |a| && b[k] == v
    requires forall j :: 0 <= j < |a| && j != k ==> b[j] == a[j]
    ensures b == a[k := v]
  {
  }

  /** A state built from the parts one turn of the loop produces is that turn's result. */
  lemma StepTaken(before: Alloc, k: int, cars: seq<int>, available: seq<bool>, discharging: seq<bool>,
                  charging: seq<bool>, need: int, given: int, count: int, anyAvailable: bool, drawn: seq<int>)
    requires WellSized(before) && k == Scan(before.cars, before.available, |before.cars|).index
    requires cars == before.cars[k := before.cars[k] - Draw(before.need)]
    requires available == before.available[k := false]
    requires discharging == before.discharging[k := true]
    requires charging == before.charging[k := false]
    requires need == before.need - Draw(before.need) && given == before.given + Draw(before.need)
    requires count == before.count - 1 && drawn == before.drawn + [k]
    requires anyAvailable == if k == 0 then false else before.anyAvailable
    ensures Alloc(cars, available, discharging, charging, need, given, count, anyAvailable, drawn) == Step(before)
  {
  }

  /**
   * The controller state.  Every array has one entry per bay 1..3 and a
   * fail-safe entry at index 0.  Nothing ever occupies index 0, but its charge
   * is written back and its discharge flag cleared by every allocation.
   */
  class ParkingBays {
    /** buttonVariables: whether a car is parked in the bay. */
    const occupied: array<bool>
    /** timeParked_cars: control cycles the current car has been parked. */
    const timeParked: array<int>
    /** battery_satus: the car's charge, in watt-hours. */
    const battery: array<int>
    /**
     * charging_status: starts set; set when a zero-demand cycle charges the bay,
     * cleared when the bay is drawn from or when a zero-demand cycle finds it
     * free, and otherwise left as it was.
     */
    const charging: array<bool>
    /** decharging_status: the bay was drawn from in the last allocation. */
    const discharging: array<bool>

    ghost predicate Valid()
      reads occupied
    {
      && occupied.Length == Size && timeParked.Length == Size && battery.Length == Size
      && charging.Length == Size && discharging.Length == Size
      && occupied != charging && occupied != discharging && charging != discharging
      && timeParked != battery
      && !occupied[0]
    }

    /** Every charge lies in [0, 365000) and every counter is non-negative. */
    ghost predicate Bounded()
      reads battery, timeParked
    {
      && (forall i :: 0 <= i < battery.Length ==> 0 <= battery[i] < Full + ChargeQuantum)
      && (forall i :: 0 <= i < timeParked.Length ==> timeParked[i] >= 0)
    }

    /** The arrays as the controller starts: no car, no charge, every flag set. */
    constructor ()
      ensures Valid() && Bounded()
      ensures fresh(occupied) && fresh(timeParked) && fresh(battery) && fresh(charging) && fresh(discharging)
      ensures forall i :: 0 <= i < Size ==>
        !occupied[i] && timeParked[i] == 0 && battery[i] == 0 && charging[i] && discharging[i]
    {
      occupied := new bool[Size](_ => false);
      timeParked := new int[Size](_ => 0);
      battery := new int[Size](_ => 0);
      charging := new bool[Size](_ => true);
      discharging := new bool[Size](_ => true);
    }

    /**
     * buttonState: each bay whose button fired flips its occupancy and takes the
     * arrival charge supplied for it, on arrival and on departure alike; every
     * other bay is left as it is.  pressed[0] and arrival[0] are not read.
     */
    method ButtonState(pressed: seq<bool>, arrival: seq<int>)
      requires Valid() && |pressed| == Size && |arrival| == Size
      modifies occupied, battery
      ensures Valid()
      ensures occupied[0] == old(occupied[0]) && battery[0] == old(battery[0])
      ensures forall i :: 1 <= i < Size ==>
        && occupied[i] == (old(occupied[i]) != pressed[i])
        && battery[i] == (if pressed[i] then arrival[i] else old(battery[i]))
      ensures old(Bounded()) && (forall i :: 1 <= i < Size && pressed[i] ==> IsArrivalCharge(arrival[i])) ==> Bounded()
    {
      if pressed[1] {
        occupied[1] := !occupied[1];
        battery[1] := arrival[1];
      }
      if pressed[2] {
        occupied[2] := !occupied[2];
        battery[2] := arrival[2];
      }
      if pressed[3] {
        occupied[3] := !occupied[3];
        battery[3] := arrival[3];
      }
    }

    /**
     * timeParked: the counter of each occupied bay goes up by one, that of each
     * free bay goes back to 0; index 0 is not touched.
     */
    method TimeParked()
      requires Valid()
      modifies timeParked
      ensures Valid()
      ensures timeParked[..] == Tick(old(timeParked[..]), occupied[..])
      ensures old(Bounded()) ==> Bounded()
    {
      for i := 1 to Size
        invariant timeParked[0] == old(timeParked[0])
        invariant forall j :: 1 <= j < i ==> timeParked[j] == if occupied[j] then old(timeParked[j]) + 1 else 0
        invariant forall j :: i <= j < Size ==> timeParked[j] == old(timeParked[j])
      {
        if occupied[i] == true {
          timeParked[i] := timeParked[i] + 1;
        } else {
          timeParked[i] := 0;
        }
      }
    }

    /**
     * The first half of update_battery_status: copy the charges and the occupancy
     * into fresh local arrays, clear every discharge flag, and make the bays
     * below the reserve unavailable.
     */
    method CopyForAllocation() returns (batteryCars: array<int>, carAvailable: array<bool>)
      requires Valid()
      modifies discharging
      ensures Valid() && fresh(batteryCars) && fresh(carAvailable)
      ensures batteryCars[..] == battery[..]
      ensures carAvailable[..] == Eligibility(battery[..], occupied[..])
      ensures discharging[..] == seq(Size, _ => false)
    {
      var size := Size;
      batteryCars := new int[size];
      carAvailable := new bool[size];
      for i := 0 to size
        invariant forall j :: 0 <= j < i ==>
          batteryCars[j] == battery[j] && carAvailable[j] == occupied[j] && !discharging[j]
      {
        batteryCars[i] := battery[i];
        carAvailable[i] := occupied[i];
        // set discharge to false, it becomes true when the bay is drawn from
        discharging[i] := false;
      }

      // bays below the reserve are not available
      for i := 0 to size
        invariant forall j :: 0 <= j < size ==>
          carAvailable[j] == if j < i then occupied[j] && !(batteryCars[j] < Reserve) else occupied[j]
        invariant forall j :: 0 <= j < size ==> batteryCars[j] == battery[j] && !discharging[j]
      {
        if carAvailable[i] {
          if batteryCars[i] < 10 * Wh {
            carAvailable[i] := false;
          }
        }
      }
    }

    /**
     * One turn of the discharge loop of update_battery_status: pick the fullest
     * available bay (the sentinel 0 when there is none, which clears the flag but
     * is still drawn from), draw the whole need when it is below 5000 and 5000
     * otherwise, mark the bay discharging and not charging, and retire it.  The
     * new state is `Step` of the old one.
     */
    method DrawFromFullest(batteryCars: array<int>, carAvailable: array<bool>, need: int, given: int,
                           count: int, anyAvailable: bool, ghost drawn: seq<int>)
      returns (batteryNeed: int, powerGiven: int, numberOfCars: int, avalibleCars: bool, ghost drawnAfter: seq<int>)
      requires Valid() && batteryCars.Length == Size && carAvailable.Length == Size
      requires carAvailable != charging && carAvailable != discharging
      modifies batteryCars, carAvailable, charging, discharging
      ensures Valid()
      ensures Alloc(batteryCars[..], carAvailable[..], discharging[..], charging[..],
          batteryNeed, powerGiven, numberOfCars, avalibleCars, drawnAfter)
        == Step(old(Alloc(batteryCars[..], carAvailable[..], discharging[..], charging[..],
          need, given, count, anyAvailable, drawn)))
    {
      ghost var before := Alloc(batteryCars[..], carAvailable[..], discharging[..], charging[..],
        need, given, count, anyAvailable, drawn);
      batteryNeed, powerGiven, numberOfCars, avalibleCars := need, given, count, anyAvailable;
      var biggestBatteryIndex := FindMaxIndex(batteryCars, carAvailable, Size);
      ghost var k := biggestBatteryIndex;
      ghost var d := Draw(batteryNeed);

      if biggestBatteryIndex == 0 {
        // the sentinel: no real bay was found (the draw below still happens)
        avalibleCars := false;
      }
      if batteryNeed < 5000 {
        batteryCars[biggestBatteryIndex] := batteryCars[biggestBatteryIndex] - batteryNeed;
        powerGiven := powerGiven + batteryNeed;
        batteryNeed := 0;
      }
      if batteryNeed >= 5000 {
        batteryCars[biggestBatteryIndex] := batteryCars[biggestBatteryIndex] - 5000;
        powerGiven := powerGiven + 5000;
        batteryNeed := batteryNeed - 5000;
      }

      discharging[biggestBatteryIndex] := true;
      charging[biggestBatteryIndex] := false;

      // the bay has been used for this cycle
      carAvailable[biggestBatteryIndex] := false;
      numberOfCars := numberOfCars - 1;
      drawnAfter := drawn + [biggestBatteryIndex];

      SeqUpdate(before.cars, batteryCars[..], k, before.cars[k] - d);
      SeqUpdate(before.available, carAvailable[..], k, false);
      SeqUpdate(before.discharging, discharging[..], k, true);
      SeqUpdate(before.charging, charging[..], k, false);
      StepTaken(before, k, batteryCars[..], carAvailable[..], discharging[..], charging[..],
        batteryNeed, powerGiven, numberOfCars, avalibleCars, drawnAfter);
    }

    /**
     * update_battery_status: one greedy discharge allocation.  The new charges and
     * flags, the need left and the power given are those of `Allocate` on the old
     * charges, the occupancy and the old charging flags; maxGridStatus is unused.
     */
    method UpdateBatteryStatus(actualGridStatus: int, maxGridStatus: int) returns (batteryNeed: int, powerGiven: int)
      requires Valid()
      modifies battery, charging, discharging
      ensures Valid()
      ensures var r := Allocate(old(battery[..]), occupied[..], old(charging[..]), actualGridStatus);
        && battery[..] == r.cars && charging[..] == r.charging && discharging[..] == r.discharging
        && batteryNeed == r.need && powerGiven == r.given
    {
      var size := Size;
      powerGiven := 0;
      batteryNeed := actualGridStatus;
      var batteryCars, carAvailable := CopyForAllocation();

      var numberOfCars := ParkingStatusArray(carAvailable, size);
      var avalibleCars := false;
      if numberOfCars > 0 {
        avalibleCars := true;
      }

      ghost var drawn: seq<int> := [];
      ghost var final := Allocate(old(battery[..]), occupied[..], old(charging[..]), actualGridStatus);
      while batteryNeed > 0 && numberOfCars > 0 && avalibleCars
        invariant Discharge(Alloc(batteryCars[..], carAvailable[..], discharging[..], charging[..],
          batteryNeed, powerGiven, numberOfCars, avalibleCars, drawn)) == final
        decreases numberOfCars
      {
        batteryNeed, powerGiven, numberOfCars, avalibleCars, drawn :=
          DrawFromFullest(batteryCars, carAvailable, batteryNeed, powerGiven, numberOfCars, avalibleCars, drawn);
      }
      StoreCharges(batteryCars);
    }

    /** The end of update_battery_status: the working charges are written back to battery_satus. */
    method StoreCharges(batteryCars: array<int>)
      requires Valid() && batteryCars.Length == Size
      modifies battery
      ensures Valid() && battery[..] == old(batteryCars[..])
    {
      for i := 0 to 4
        invariant forall j :: 0 <= j < i ==> battery[j] == old(batteryCars[j])
        invariant forall j :: i <= j < Size ==> batteryCars[j] == old(batteryCars[j])
      {
        battery[i] := batteryCars[i];
      }
    }

    /**
     * update_battery_charging: only when grid is exactly 0, each real bay below
     * `size` goes through `ChargeBay`; otherwise nothing changes.
     */
    method UpdateBatteryCharging(grid: int, size: int)
      requires Valid() && size <= Size
      modifies battery, charging
      ensures Valid()
      ensures forall i :: 0 <= i < Size ==>
        if grid == 0 && 1 <= i < size then (battery[i], charging[i]) == ChargeBay(old(battery[i]), occupied[i], old(charging[i]))
        else battery[i] == old(battery[i]) && charging[i] == old(charging[i])
      ensures size == Size ==> (battery[..], charging[..]) == Recharge(old(battery[..]), occupied[..], old(charging[..]), grid)
      ensures old(Bounded()) ==> Bounded()
    {
      if grid == 0 {
        var i := 1;
        while i < size
          invariant 1 <= i <= (if size >= 1 then size else 1)
          invariant forall j :: 0 <= j < Size ==>
            if 1 <= j < i then (battery[j], charging[j]) == ChargeBay(old(battery[j]), occupied[j], old(charging[j]))
            else battery[j] == old(battery[j]) && charging[j] == old(charging[j])
        {
          if occupied[i] == true {
            if battery[i] < 100 * Wh {
              charging[i] := true;
              battery[i] := battery[i] + 5000;
            }
          }
          if occupied[i] == false {
            charging[i] := false;
          }
          i := i + 1;
        }
      }
      if size == Size {
        ghost var r := Recharge(old(battery[..]), occupied[..], old(charging[..]), grid);
        assert battery[..] == r.0;
        assert charging[..] == r.1;
      }
    }

    /**
     * One control cycle on a demand sample in 0..15000: timeParked, then
     * update_battery_status, then update_battery_charging.  The new arrays and
     * the published need and power are `Cycle` of the old arrays, step by step:
     * the counters tick, the allocation is that of `Allocate`, and at zero demand
     * each real bay then takes one charging turn.  The bounds on charges and
     * counters are kept; `CycleGuarantees` states what else a cycle promises.
     */
    method ControlCycle(demand: int) returns (batteryNeed: int, powerGiven: int)
      requires Valid() && 0 <= demand <= 15000
      modifies timeParked, battery, charging, discharging
      ensures Valid()
      ensures old(Bounded()) ==> Bounded()
      ensures Bays(timeParked[..], battery[..], charging[..], discharging[..], batteryNeed, powerGiven)
        == Cycle(old(timeParked[..]), occupied[..], old(battery[..]), old(charging[..]), demand)
      ensures var r := Allocate(old(battery[..]), occupied[..], old(charging[..]), demand);
        && timeParked[..] == Tick(old(timeParked[..]), occupied[..])
        && batteryNeed == r.need && powerGiven == r.given && discharging[..] == r.discharging
        && (demand != 0 ==> battery[..] == r.cars && charging[..] == r.charging)
      ensures demand == 0 ==>
        && battery[0] == old(battery[0]) && charging[0] == old(charging[0])
        && forall i :: 1 <= i < Size ==> (battery[i], charging[i]) == ChargeBay(old(battery[i]), occupied[i], old(charging[i]))
    {
      ghost var occ := occupied[..];
      ghost var t := timeParked[..];
      ghost var charge := battery[..];
      ghost var chargingBefore := charging[..];
      TimeParked();
      batteryNeed, powerGiven := UpdateBatteryStatus(demand, MaxGrid);
      if old(Bounded()) {
        AllocationKeepsRange(charge, occ, chargingBefore, demand);
      }
      UpdateBatteryCharging(demand, Size);
    }
  }
}
