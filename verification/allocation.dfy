/**
 * The greedy discharge allocator of update_battery_status, as values.
 *
 * One call copies the bay charges and occupancy, drops the bays below the 10%
 * reserve, and then, while grid demand remains and an available bay is left,
 * draws at most one discharge quantum from the fullest available bay and
 * retires that bay for the rest of the call.  `Start` is the state after the
 * copy and the reserve filter, `Step` one turn of the loop, and `Discharge`
 * the loop itself; `Allocate` is the whole call.  The lemmas at the end state
 * what the call guarantees.
 */
module Allocation {
  import opened Scans

  /** Every per-bay array has four entries; index 0 is the fail-safe slot. */
  const Size := 4
  /** One battery unit in watt-hours. */
  const Wh := 3600
  /** A bay below 10 units is not drawn from. */
  const Reserve := 10 * Wh
  /** The most drawn from one bay in one call (5 kW). */
  const DischargeQuantum := 5000
  /** What one charging step adds to a bay. */
  const ChargeQuantum := 5000
  /** A bay at or above 100 units is full and is not charged. */
  const Full := 100 * Wh
  /** MAX_GRID: the grid capacity passed to update_battery_status and never used there. */
  const MaxGrid := 100 * 1000

  /**
   * battery_grid_need: how much of the grid load, plus a fixed 100 kW, lies above
   * the grid capacity, and 0 when none does.  Nothing in the controller calls it.
   */
  function BatteryGridNeed(actualGrid: int, maxGrid: int): (need: int)
    ensures need >= 0 && need >= actualGrid + 100000 - maxGrid
    ensures need == 0 || need == actualGrid + 100000 - maxGrid
  {
    if actualGrid + 100000 > maxGrid then actualGrid + 100000 - maxGrid else 0
  }

  /**
   * The state of one update_battery_status call: its local copies of the charges
   * (battery_cars) and of the availability (car_available), the discharge and
   * charge flags, the remaining need, the power given so far, the number of
   * available bays, the flag the index-0 guard clears, and, for the proofs, the
   * bays drawn so far in order.
   */
  datatype Alloc = Alloc(
    cars: seq<int>,
    available: seq<bool>,
    discharging: seq<bool>,
    charging: seq<bool>,
    need: int,
    given: int,
    count: int,
    anyAvailable: bool,
    drawn: seq<int>)

  predicate WellSized(s: Alloc) {
    |s.cars| == Size && |s.available| == Size && |s.discharging| == Size && |s.charging| == Size
  }

  predicate Sized(charge: seq<int>, occupied: seq<bool>, charging: seq<bool>) {
    |charge| == Size && |occupied| == Size && |charging| == Size
  }

  /** The bays an allocation may draw from: occupied and at or above the reserve. */
  function Eligibility(charge: seq<int>, occupied: seq<bool>): (e: seq<bool>)
    requires |charge| == Size && |occupied| == Size
    ensures |e| == Size
    ensures forall i :: 0 <= i < Size ==> (e[i] <==> occupied[i] && charge[i] >= Reserve)
  {
    seq(Size, i requires 0 <= i < Size => occupied[i] && !(charge[i] < Reserve))
  }

  /**
   * The state before the loop: charges copied, every discharge flag cleared, the
   * bays below the reserve made unavailable, and the available real bays counted.
   */
  function Start(charge: seq<int>, occupied: seq<bool>, charging: seq<bool>, demand: int): (s: Alloc)
    requires Sized(charge, occupied, charging)
    ensures WellSized(s) && s.cars == charge && s.charging == charging && s.need + s.given == demand
  {
    var available := Eligibility(charge, occupied);
    var count := CountParked(available, |available|);
    Alloc(charge, available, seq(Size, _ => false), charging, demand, 0, count, count > 0, [])
  }

  /** What one turn draws: the whole need when it is below the quantum, else the quantum. */
  function Draw(need: int): int {
    if need < DischargeQuantum then need else DischargeQuantum
  }

  /**
   * One turn of the loop: pick the fullest available bay; when the pick is the
   * sentinel 0, clear the flag (the draw below still happens); draw from the
   * pick, mark it discharging and not charging, and retire it.
   */
  function Step(s: Alloc): (t: Alloc)
    requires WellSized(s)
    ensures WellSized(t) && t.count == s.count - 1
    ensures t.need + t.given == s.need + s.given && |t.drawn| == |s.drawn| + 1 && t.drawn[..|s.drawn|] == s.drawn
    ensures var k := t.drawn[|s.drawn|];
      && 0 <= k < Size && !t.available[k] && t.discharging[k] && !t.charging[k]
      && (forall i :: 0 <= i < Size && i != k ==> t.cars[i] == s.cars[i] && t.charging[i] == s.charging[i])
  {
    var k := Scan(s.cars, s.available, |s.cars|).index;
    var d := Draw(s.need);
    Alloc(
      s.cars[k := s.cars[k] - d],
      s.available[k := false],
      s.discharging[k := true],
      s.charging[k := false],
      s.need - d,
      s.given + d,
      s.count - 1,
      if k == 0 then false else s.anyAvailable,
      s.drawn + [k])
  }

  /** The loop guard. */
  predicate Continues(s: Alloc) {
    s.need > 0 && s.count > 0 && s.anyAvailable
  }

  /** The loop: turn while the guard holds. */
  function Discharge(s: Alloc): (t: Alloc)
    requires WellSized(s)
    ensures WellSized(t) && !Continues(t)
    ensures t.need + t.given == s.need + s.given && s.drawn <= t.drawn
    decreases if s.count > 0 then s.count else 0
  {
    if Continues(s) then Discharge(Step(s)) else s
  }

  /** One whole update_battery_status call on the given charges, occupancy and charging flags. */
  function Allocate(charge: seq<int>, occupied: seq<bool>, charging: seq<bool>, demand: int): (r: Alloc)
    requires Sized(charge, occupied, charging)
    ensures WellSized(r) && !Continues(r) && r.need + r.given == demand
  {
    Discharge(Start(charge, occupied, charging, demand))
  }

  /** The need left after m full-quantum draws from a demand. */
  function Residual(demand: int, m: int): int {
    if demand > DischargeQuantum * m then demand - DischargeQuantum * m else 0
  }

  /** The sum of a sequence of charges. */
  function Sum(xs: seq<int>): int {
    if xs == [] then 0 else xs[0] + Sum(xs[1..])
  }

  /** Changing one entry changes the sum by the difference. */
  lemma {:induction false} SumUpdate(xs: seq<int>, k: int, v: int)
    requires 0 <= k < |xs|
    ensures Sum(xs[k := v]) == Sum(xs) - xs[k] + v
  {
    if k > 0 {
      SumUpdate(xs[1..], k - 1, v);
      assert xs[k := v][1..] == xs[1..][k - 1 := v];
    }
  }

  /** Bay d comes before bay i in the greedy order: more charge, or equal charge and a lower index. */
  predicate Precedes(charge: seq<int>, d: int, i: int)
    requires 0 <= d < |charge| && 0 <= i < |charge|
  {
    charge[d] > charge[i] || (charge[d] == charge[i] && d < i)
  }

  /**
   * The drawn bays: the available bays are the eligible ones not yet drawn, the
   * discharge flags are exactly the drawn bays, and each drawn bay is a real,
   * eligible bay drawn once.
   */
  ghost predicate DrawnOnce(e: seq<bool>, s: Alloc)
    requires |e| == Size && WellSized(s)
  {
    && (forall i :: 0 <= i < Size ==> (s.available[i] <==> e[i] && i !in s.drawn))
    && (forall i :: 0 <= i < Size ==> (s.discharging[i] <==> i in s.drawn))
    && (forall j :: 0 <= j < |s.drawn| ==> 1 <= s.drawn[j] < Size && e[s.drawn[j]])
    && (forall j, j' :: 0 <= j < j' < |s.drawn| ==> s.drawn[j] != s.drawn[j'])
  }

  /**
   * The charges: undrawn bays keep their charge and charging flag; the j-th draw
   * happened with need left and took the quantum or that need, and cleared the
   * charging flag.
   */
  ghost predicate DrawnCharges(charge: seq<int>, charging: seq<bool>, demand: int, s: Alloc)
    requires |charge| == Size && |charging| == Size && WellSized(s)
  {
    && (forall i :: 0 <= i < Size && i !in s.drawn ==> s.cars[i] == charge[i] && s.charging[i] == charging[i])
    && (forall j :: 0 <= j < |s.drawn| ==>
          && 0 <= s.drawn[j] < Size && !s.charging[s.drawn[j]]
          && demand - DischargeQuantum * j > 0
          && s.cars[s.drawn[j]] == charge[s.drawn[j]] - Draw(demand - DischargeQuantum * j))
  }

  /** The running totals follow the number of draws. */
  ghost predicate Totals(charge: seq<int>, e: seq<bool>, demand: int, s: Alloc)
    requires |e| == Size && WellSized(s)
  {
    && s.need == Residual(demand, |s.drawn|)
    && s.given == demand - s.need
    && Sum(charge) - Sum(s.cars) == s.given
    && s.count == CountParked(s.available, Size)
    && s.count == CountParked(e, Size) - |s.drawn|
    && s.anyAvailable == (CountParked(e, Size) > 0)
  }

  /** The draws follow the greedy order, and every available bay comes after them. */
  ghost predicate GreedyOrder(charge: seq<int>, s: Alloc)
    requires |charge| == Size && WellSized(s)
  {
    && (forall j :: 0 <= j < |s.drawn| ==> 0 <= s.drawn[j] < Size)
    && (forall j :: 0 <= j < |s.drawn| - 1 ==> Precedes(charge, s.drawn[j], s.drawn[j + 1]))
    && (forall j, i :: 0 <= j < |s.drawn| && 0 <= i < Size && s.available[i] ==> Precedes(charge, s.drawn[j], i))
  }

  /** What holds at every turn of the loop of a call on (charge, occupied, charging, demand). */
  ghost predicate Inv(charge: seq<int>, occupied: seq<bool>, charging: seq<bool>, demand: int, s: Alloc)
    requires Sized(charge, occupied, charging)
  {
    var e := Eligibility(charge, occupied);
    && WellSized(s)
    && DrawnOnce(e, s)
    && DrawnCharges(charge, charging, demand, s)
    && Totals(charge, e, demand, s)
    && GreedyOrder(charge, s)
  }

  lemma StartInv(charge: seq<int>, occupied: seq<bool>, charging: seq<bool>, demand: int)
    requires Sized(charge, occupied, charging) && !occupied[0] && demand >= 0
    ensures Inv(charge, occupied, charging, demand, Start(charge, occupied, charging, demand))
  {
  }

  /**
   * Under the guard the scan picks a real, available bay that precedes every
   * other available bay: never the sentinel 0.
   */
  lemma PickIsFullest(charge: seq<int>, occupied: seq<bool>, charging: seq<bool>, demand: int, s: Alloc)
    requires Sized(charge, occupied, charging) && !occupied[0]
    requires Inv(charge, occupied, charging, demand, s) && Continues(s)
    ensures var k := Scan(s.cars, s.available, |s.cars|).index;
      && 1 <= k < Size && s.available[k] && k !in s.drawn && Eligibility(charge, occupied)[k]
      && forall i :: 0 <= i < Size && s.available[i] && i != k ==> Precedes(charge, k, i)
  {
    var e := Eligibility(charge, occupied);
    CountParkedPositive(s.available, Size);
    var i0 :| 1 <= i0 < Size && s.available[i0];
    assert Candidate(s.cars, s.available, i0);
    ScanFindsFirstMaximum(s.cars, s.available, Size);
  }

  lemma StepDrawnOnce(e: seq<bool>, s: Alloc, k: int)
    requires |e| == Size && WellSized(s) && DrawnOnce(e, s)
    requires k == Scan(s.cars, s.available, |s.cars|).index
    requires 1 <= k < Size && s.available[k]
    ensures DrawnOnce(e, Step(s))
  {
    var t := Step(s);
    assert t.drawn == s.drawn + [k];
    assert forall i :: 0 <= i < Size ==> (i in t.drawn <==> i in s.drawn || i == k);
  }

  lemma StepDrawnCharges(charge: seq<int>, charging: seq<bool>, demand: int, s: Alloc, k: int)
    requires |charge| == Size && |charging| == Size && WellSized(s)
    requires DrawnCharges(charge, charging, demand, s)
    requires s.need == Residual(demand, |s.drawn|) && s.need > 0
    requires k == Scan(s.cars, s.available, |s.cars|).index
    requires 1 <= k < Size && k !in s.drawn
    ensures DrawnCharges(charge, charging, demand, Step(s))
  {
    var t := Step(s);
    assert t.drawn == s.drawn + [k];
    assert forall i :: 0 <= i < Size ==> (i in t.drawn <==> i in s.drawn || i == k);
    assert t.cars[k] == charge[k] - Draw(demand - DischargeQuantum * |s.drawn|);
  }

  lemma StepTotals(charge: seq<int>, e: seq<bool>, demand: int, s: Alloc, k: int)
    requires |e| == Size && WellSized(s) && Totals(charge, e, demand, s) && Continues(s)
    requires k == Scan(s.cars, s.available, |s.cars|).index
    requires 1 <= k < Size && s.available[k]
    ensures Totals(charge, e, demand, Step(s))
  {
    CountParkedClear(s.available, Size, k);
    SumUpdate(s.cars, k, s.cars[k] - Draw(s.need));
  }

  lemma StepGreedyOrder(charge: seq<int>, s: Alloc, k: int)
    requires |charge| == Size && WellSized(s) && GreedyOrder(charge, s)
    requires k == Scan(s.cars, s.available, |s.cars|).index
    requires 1 <= k < Size && s.available[k]
    requires forall i :: 0 <= i < Size && s.available[i] && i != k ==> Precedes(charge, k, i)
    ensures GreedyOrder(charge, Step(s))
  {
    var t := Step(s);
    assert t.drawn == s.drawn + [k];
  }

  /** A turn taken under the guard keeps the invariant; its pick is never the sentinel 0. */
  lemma StepInv(charge: seq<int>, occupied: seq<bool>, charging: seq<bool>, demand: int, s: Alloc)
    requires Sized(charge, occupied, charging) && !occupied[0] && demand >= 0
    requires Inv(charge, occupied, charging, demand, s) && Continues(s)
    ensures Scan(s.cars, s.available, |s.cars|).index != 0
    ensures Inv(charge, occupied, charging, demand, Step(s))
  {
    var e := Eligibility(charge, occupied);
    PickIsFullest(charge, occupied, charging, demand, s);
    var k := Scan(s.cars, s.available, |s.cars|).index;
    StepDrawnOnce(e, s, k);
    StepDrawnCharges(charge, charging, demand, s, k);
    StepTotals(charge, e, demand, s, k);
    StepGreedyOrder(charge, s, k);
  }

  /** The loop keeps the invariant and ends with the guard false. */
  lemma {:induction false} DischargeInv(charge: seq<int>, occupied: seq<bool>, charging: seq<bool>, demand: int, s: Alloc)
    requires Sized(charge, occupied, charging) && !occupied[0] && demand >= 0
    requires Inv(charge, occupied, charging, demand, s)
    ensures Inv(charge, occupied, charging, demand, Discharge(s))
    decreases if s.count > 0 then s.count else 0
  {
    if Continues(s) {
      StepInv(charge, occupied, charging, demand, s);
      DischargeInv(charge, occupied, charging, demand, Step(s));
    }
  }

  lemma AllocateInv(charge: seq<int>, occupied: seq<bool>, charging: seq<bool>, demand: int)
    requires Sized(charge, occupied, charging) && !occupied[0] && demand >= 0
    ensures Inv(charge, occupied, charging, demand, Allocate(charge, occupied, charging, demand))
  {
    StartInv(charge, occupied, charging, demand);
    DischargeInv(charge, occupied, charging, demand, Start(charge, occupied, charging, demand));
  }

  /**
   * Conservation: the power given plus the need left is the demand; the need
   * left is what n full draws cannot cover, where n is the number of eligible
   * bays, so it is 0 exactly when n draws of 5000 cover the demand; at most
   * 5000 per eligible bay, and so at most 15000, is given; and the charge taken
   * out of the bays is the power given.
   */
  lemma AllocationConservesDemand(charge: seq<int>, occupied: seq<bool>, charging: seq<bool>, demand: int)
    requires Sized(charge, occupied, charging) && !occupied[0] && demand >= 0
    ensures var r := Allocate(charge, occupied, charging, demand);
      var n := CountParked(Eligibility(charge, occupied), Size);
      && r.given + r.need == demand
      && 0 <= r.need && 0 <= r.given <= demand
      && r.given <= DischargeQuantum * n <= DischargeQuantum * (Size - 1)
      && r.need == (if demand > DischargeQuantum * n then demand - DischargeQuantum * n else 0)
      && (r.need == 0 <==> demand <= DischargeQuantum * n)
      && Sum(charge) - Sum(r.cars) == r.given
  {
    AllocateInv(charge, occupied, charging, demand);
  }

  /**
   * Only occupied real bays at or above the reserve are drawn from, each at most
   * once; the discharge flags are exactly the drawn bays; the index-0 guard
   * never fires; with zero demand nothing is drawn, and with need left over
   * every eligible bay was drawn.
   */
  lemma AllocationDrawsEligibleBaysOnce(charge: seq<int>, occupied: seq<bool>, charging: seq<bool>, demand: int)
    requires Sized(charge, occupied, charging) && !occupied[0] && demand >= 0
    ensures var r := Allocate(charge, occupied, charging, demand);
      && (forall i :: 0 <= i < Size ==> (r.discharging[i] <==> i in r.drawn))
      && (forall i :: 0 <= i < Size && r.discharging[i] ==> 1 <= i && occupied[i] && charge[i] >= Reserve)
      && (forall j, j' :: 0 <= j < j' < |r.drawn| ==> r.drawn[j] != r.drawn[j'])
      && |r.drawn| <= Size - 1
      && !r.discharging[0]
      && r.anyAvailable == (CountParked(Eligibility(charge, occupied), Size) > 0)
      && (demand == 0 ==> forall i :: 0 <= i < Size ==> !r.discharging[i])
      && (r.need > 0 ==> forall i :: 0 <= i < Size && occupied[i] && charge[i] >= Reserve ==> r.discharging[i])
  {
    AllocateInv(charge, occupied, charging, demand);
    var r := Allocate(charge, occupied, charging, demand);
    var e := Eligibility(charge, occupied);
    assert CountParked(r.available, Size) >= 0;
    if r.need > 0 {
      assert r.count == 0;
      CountParkedPositive(r.available, Size);
    }
  }

  /**
   * What each bay's charge and charging flag become: an undrawn bay keeps both;
   * the j-th drawn bay loses exactly min(5000, the need left after j full
   * draws), so it stays at or above 31000, and its charging flag is cleared.
   */
  lemma AllocationChargeChanges(charge: seq<int>, occupied: seq<bool>, charging: seq<bool>, demand: int)
    requires Sized(charge, occupied, charging) && !occupied[0] && demand >= 0
    ensures var r := Allocate(charge, occupied, charging, demand);
      && (forall i :: 0 <= i < Size && !r.discharging[i] ==> r.cars[i] == charge[i] && r.charging[i] == charging[i])
      && (forall i :: 0 <= i < Size && r.discharging[i] ==>
            && charge[i] - DischargeQuantum <= r.cars[i] < charge[i]
            && r.cars[i] >= Reserve - DischargeQuantum
            && !r.charging[i])
      && (forall j :: 0 <= j < |r.drawn| ==>
            0 <= r.drawn[j] < Size &&
            r.cars[r.drawn[j]] == charge[r.drawn[j]] - Draw(demand - DischargeQuantum * j))
  {
    AllocateInv(charge, occupied, charging, demand);
  }

  /** Charges in [0, 365000) stay there: a drawn bay keeps at least 31000 and only loses charge. */
  lemma AllocationKeepsRange(charge: seq<int>, occupied: seq<bool>, charging: seq<bool>, demand: int)
    requires Sized(charge, occupied, charging) && !occupied[0] && demand >= 0
    requires forall i :: 0 <= i < Size ==> 0 <= charge[i] < Full + ChargeQuantum
    ensures var r := Allocate(charge, occupied, charging, demand);
      forall i :: 0 <= i < Size ==> 0 <= r.cars[i] < Full + ChargeQuantum
  {
    AllocationChargeChanges(charge, occupied, charging, demand);
  }

  /**
   * The bays are drawn fullest first, ties going to the lower index, and every
   * eligible bay left undrawn comes after all the drawn ones in that order.
   */
  lemma AllocationDrawsFullestFirst(charge: seq<int>, occupied: seq<bool>, charging: seq<bool>, demand: int)
    requires Sized(charge, occupied, charging) && !occupied[0] && demand >= 0
    ensures var r := Allocate(charge, occupied, charging, demand);
      && (forall j :: 0 <= j < |r.drawn| ==> 0 <= r.drawn[j] < Size)
      && (forall j :: 0 <= j < |r.drawn| - 1 ==> Precedes(charge, r.drawn[j], r.drawn[j + 1]))
      && (forall j :: 0 <= j < |r.drawn| - 1 ==> charge[r.drawn[j]] >= charge[r.drawn[j + 1]])
      && (forall j, i :: 0 <= j < |r.drawn| && 0 <= i < Size && occupied[i] && charge[i] >= Reserve && !r.discharging[i] ==>
            Precedes(charge, r.drawn[j], i))
  {
    AllocateInv(charge, occupied, charging, demand);
  }

  /**
   * Two bays of 180000 and 108000 and a demand of 8000: the fuller bay gives
   * 5000, the other the 3000 left, and both are marked discharging.
   */
  lemma TwoBaysShareDemand()
    ensures var r := Allocate([0, 180000, 108000, 0], [false, true, true, false], [true, true, true, true], 8000);
      && r.cars == [0, 175000, 105000, 0] && r.need == 0 && r.given == 8000
      && r.discharging == [false, true, true, false] && r.charging == [true, false, false, true]
  {
    var s0 := Alloc([0, 180000, 108000, 0], [false, true, true, false], [false, false, false, false],
                    [true, true, true, true], 8000, 0, 2, true, []);
    var s1 := Alloc([0, 175000, 108000, 0], [false, false, true, false], [false, true, false, false],
                    [true, false, true, true], 3000, 5000, 1, true, [1]);
    var s2 := Alloc([0, 175000, 105000, 0], [false, false, false, false], [false, true, true, false],
                    [true, false, false, true], 0, 8000, 0, true, [1, 2]);
    assert Start([0, 180000, 108000, 0], [false, true, true, false], [true, true, true, true], 8000) == s0;
    assert Scan(s0.cars, s0.available, 4).index == 1;
    assert Step(s0) == s1;
    assert Scan(s1.cars, s1.available, 4).index == 2;
    assert Step(s1) == s2;
    assert Discharge(s1) == s2;
  }

  /** A single bay below the reserve cannot be drawn: the whole demand is left. */
  lemma ReserveBlocksDischarge()
    ensures var r := Allocate([0, 32400, 0, 0], [false, true, false, false], [false, false, false, false], 5000);
      && r.cars == [0, 32400, 0, 0] && r.need == 5000 && r.given == 0
      && r.discharging == [false, false, false, false] && r.charging == [false, false, false, false]
  {
  }
}
