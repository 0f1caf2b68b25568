/** One frame of the aquarium (src/main.rs): the nearest-target scan, the three population
    passes, the screen pan, and the tick counter that paces plant growth. */
module Aquariums {
  import opened Vectors
  import opened Bodies
  import opened Fishes

  datatype Option<T> = None | Some(value: T)

  /** `ArrowStates`: which arrow keys are held. */
  datatype ArrowStates = ArrowStates(up: bool, down: bool, right: bool, left: bool)

  newtype u32 = x: int | 0 <= x < 0x1_0000_0000

  /** What `check_proximity` reports of a target: its position and velocity. */
  datatype Target = Target(pos: Vector2, vel: Vector2)

  /** `f64::MAX`, exactly: (2 - 2^-52) * 2^1023. */
  const F64Max: real := 179769313486231570814527423731704356798070567525844996598917476803157260780028538760589558632766878171540458953514382464234321326889464182768467546703537516986049910576551282076245490090389328944075868508455133942304583236903222948165808559332123348274797826204144723168738177180919299881250404026184124858368.0

  /** Frames per second of the main loop. */
  const Fps: int := 60
  /** How far one held arrow key pans the view per frame. */
  const PanSpeed: real := 6.0

  // ---------------------------------------------------------------------------
  // check_proximity

  /** The `in_sight` value of every target, in population order. */
  function Distances<O>(inSight: (O, Vector2) -> real, origin: O, population: seq<Target>): seq<real>
  {
    seq(|population|, k requires 0 <= k < |population| => inSight(origin, population[k].pos))
  }

  /** A value the scan may pick: strictly positive and below the initial minimum. */
  predicate Candidate(d: real)
  {
    0.0 < d < F64Max
  }

  /** The minimum the scan holds after choosing `w`: the chosen value, or `f64::MAX`. */
  function MinSoFar(ds: seq<real>, w: Option<nat>): real
    requires w.Some? ==> w.value < |ds|
  {
    if w.Some? then ds[w.value] else F64Max
  }

  /** The index the scan of `check_proximity` ends on: each value that is positive and
      strictly below the minimum so far replaces the choice. */
  function Winner(ds: seq<real>): (r: Option<nat>)
    ensures r.Some? ==> r.value < |ds| && Candidate(ds[r.value])
  {
    if |ds| == 0 then None
    else
      var w := Winner(ds[..|ds| - 1]);
      var d := ds[|ds| - 1];
      if 0.0 < d && d < MinSoFar(ds, w) then Some(|ds| - 1) else w
  }

  /** `k` holds the smallest candidate value, and no earlier index holds one as small. */
  ghost predicate FirstMinimum(ds: seq<real>, k: int)
  {
    0 <= k < |ds| && Candidate(ds[k]) &&
    (forall i :: 0 <= i < |ds| && Candidate(ds[i]) ==> ds[k] <= ds[i]) &&
    (forall i :: 0 <= i < k && Candidate(ds[i]) ==> ds[k] < ds[i])
  }

  /** The scan finds nothing exactly when there is no candidate, and otherwise finds the
      first index of the least candidate. */
  lemma {:induction false} WinnerIsFirstMinimum(ds: seq<real>)
    ensures Winner(ds).None? <==> forall i :: 0 <= i < |ds| ==> !Candidate(ds[i])
    ensures Winner(ds).Some? ==> FirstMinimum(ds, Winner(ds).value)
  {
    if |ds| != 0 {
      var n := |ds| - 1;
      var p := ds[..n];
      WinnerIsFirstMinimum(p);
      assert forall i :: 0 <= i < n ==> p[i] == ds[i];
    }
  }

  /** At most one index is the first least candidate. */
  lemma FirstMinimumUnique(ds: seq<real>, j: int, k: int)
    requires FirstMinimum(ds, j) && FirstMinimum(ds, k)
    ensures j == k
  {
  }

  /** The scan's result, characterised without reference to the scan. */
  lemma WinnerCharacterized(ds: seq<real>, k: int)
    ensures Winner(ds) == Some(k) <==> FirstMinimum(ds, k)
  {
    WinnerIsFirstMinimum(ds);
    if FirstMinimum(ds, k) {
      assert Winner(ds).Some?;
      FirstMinimumUnique(ds, Winner(ds).value, k);
    }
  }

  /** The target `check_proximity` returns: a member of the population that is in sight. */
  function Closest<O>(inSight: (O, Vector2) -> real, origin: O, population: seq<Target>): (r: Option<Target>)
    ensures r.Some? ==> r.value in population && Candidate(inSight(origin, r.value.pos))
  {
    match Winner(Distances(inSight, origin, population))
    case None => None
    case Some(k) => Some(population[k])
  }

  /** `Aquarium::check_proximity`: one forward pass keeping the least positive `in_sight`
      value seen so far (starting from `f64::MAX`) and the target that had it. */
  method CheckProximity<O>(inSight: (O, Vector2) -> real, origin: O, population: seq<Target>)
    returns (closest: Option<Target>)
    ensures closest == Closest(inSight, origin, population)
  {
    ghost var ds := Distances(inSight, origin, population);
    ghost var winner: Option<nat> := None;
    closest := None;
    var minDist := F64Max;
    for n := 0 to |population|
      invariant winner == Winner(ds[..n])
      invariant winner.Some? ==> winner.value < n
      invariant minDist == MinSoFar(ds, winner)
      invariant closest == (if winner.Some? then Some(population[winner.value]) else None)
    {
      assert ds[..n + 1][..n] == ds[..n];
      var tgt := population[n];
      var tgtDistSqr := inSight(origin, tgt.pos);
      if tgtDistSqr > 0.0 && tgtDistSqr < minDist {
        minDist := tgtDistSqr;
        closest := Some(Target(tgt.pos, tgt.vel));
        winner := Some(n);
      }
    }
    assert ds[..|population|] == ds;
  }

  /** No target of the population is a candidate. */
  ghost predicate NoneInSight<O>(inSight: (O, Vector2) -> real, origin: O, population: seq<Target>)
  {
    forall i :: 0 <= i < |population| ==> !Candidate(inSight(origin, population[i].pos))
  }

  /** `check_proximity` returns None exactly when no target is a candidate, and otherwise
      the earliest target with the least positive value. */
  lemma ClosestSpec<O>(inSight: (O, Vector2) -> real, origin: O, population: seq<Target>)
    ensures Closest(inSight, origin, population).None? <==> NoneInSight(inSight, origin, population)
    ensures forall k :: FirstMinimum(Distances(inSight, origin, population), k) ==>
      Closest(inSight, origin, population) == Some(population[k])
  {
    var ds := Distances(inSight, origin, population);
    WinnerIsFirstMinimum(ds);
    forall k | FirstMinimum(ds, k)
      ensures Closest(inSight, origin, population) == Some(population[k])
    {
      WinnerCharacterized(ds, k);
    }
  }

  // ---------------------------------------------------------------------------
  // The per-fish decisions of process_preys and process_predators

  predicate PreyStepDefined(sqrt: real -> real, sight: (FishState, Vector2) -> real, s: FishState,
                            plants: seq<Target>, predators: seq<Target>, jitter: Vector2)
    requires IsSqrt(sqrt)
  {
    match Closest(sight, s, predators)
    case Some(p) => EvadeDefined(sqrt, s, p.pos, p.vel)
    case None =>
      match Closest(sight, s, plants)
      case Some(p) => ArriveDefined(sqrt, s, p.pos)
      case None => WanderDefined(sqrt, s, jitter)
  }

  /** One prey's turn: evade the nearest visible predator; failing that, arrive at the
      nearest visible plant; failing that, wander. */
  function PreyStep(sqrt: real -> real, sight: (FishState, Vector2) -> real, s: FishState,
                    plants: seq<Target>, predators: seq<Target>, jitter: Vector2): (r: FishState)
    requires IsSqrt(sqrt) && PreyStepDefined(sqrt, sight, s, plants, predators, jitter)
    ensures r.behaviour == Fleeing <==> Closest(sight, s, predators).Some?
    ensures r.behaviour == Arriving <==> Closest(sight, s, predators).None? && Closest(sight, s, plants).Some?
    ensures r.behaviour == Wandering <==> Closest(sight, s, predators).None? && Closest(sight, s, plants).None?
  {
    match Closest(sight, s, predators)
    case Some(p) => Evaded(sqrt, s, p.pos, p.vel)
    case None =>
      match Closest(sight, s, plants)
      case Some(p) => Arrived(sqrt, s, p.pos)
      case None => Wandered(sqrt, s, jitter)
  }

  /** A prey with a predator in sight evades the first nearest one. */
  lemma PreyEvadesNearest(sqrt: real -> real, sight: (FishState, Vector2) -> real, s: FishState,
                          plants: seq<Target>, predators: seq<Target>, jitter: Vector2, k: int)
    requires IsSqrt(sqrt) && PreyStepDefined(sqrt, sight, s, plants, predators, jitter)
    requires FirstMinimum(Distances(sight, s, predators), k)
    ensures EvadeDefined(sqrt, s, predators[k].pos, predators[k].vel)
    ensures PreyStep(sqrt, sight, s, plants, predators, jitter) == Evaded(sqrt, s, predators[k].pos, predators[k].vel)
    ensures PreyStep(sqrt, sight, s, plants, predators, jitter).behaviour == Fleeing
  {
    ClosestSpec(sight, s, predators);
  }

  /** With no predator in sight, a prey with a plant in sight arrives at the first nearest one. */
  lemma PreyArrivesNearest(sqrt: real -> real, sight: (FishState, Vector2) -> real, s: FishState,
                           plants: seq<Target>, predators: seq<Target>, jitter: Vector2, k: int)
    requires IsSqrt(sqrt) && PreyStepDefined(sqrt, sight, s, plants, predators, jitter)
    requires NoneInSight(sight, s, predators) && FirstMinimum(Distances(sight, s, plants), k)
    ensures ArriveDefined(sqrt, s, plants[k].pos)
    ensures PreyStep(sqrt, sight, s, plants, predators, jitter) == Arrived(sqrt, s, plants[k].pos)
    ensures PreyStep(sqrt, sight, s, plants, predators, jitter).behaviour == Arriving
  {
    ClosestSpec(sight, s, predators);
    ClosestSpec(sight, s, plants);
  }

  /** A prey wanders exactly when neither a predator nor a plant is in sight. */
  lemma PreyWandersIff(sqrt: real -> real, sight: (FishState, Vector2) -> real, s: FishState,
                       plants: seq<Target>, predators: seq<Target>, jitter: Vector2)
    requires IsSqrt(sqrt) && PreyStepDefined(sqrt, sight, s, plants, predators, jitter)
    ensures PreyStep(sqrt, sight, s, plants, predators, jitter).behaviour == Wandering
      <==> NoneInSight(sight, s, predators) && NoneInSight(sight, s, plants)
    ensures NoneInSight(sight, s, predators) && NoneInSight(sight, s, plants) ==>
      WanderDefined(sqrt, s, jitter) && PreyStep(sqrt, sight, s, plants, predators, jitter) == Wandered(sqrt, s, jitter)
  {
    ClosestSpec(sight, s, predators);
    ClosestSpec(sight, s, plants);
  }

  predicate PredatorStepDefined(sqrt: real -> real, sight: (FishState, Vector2) -> real, s: FishState,
                                preys: seq<Target>, jitter: Vector2)
    requires IsSqrt(sqrt)
  {
    match Closest(sight, s, preys)
    case Some(p) => PursuitDefined(sqrt, s, p.pos, p.vel)
    case None => WanderDefined(sqrt, s, jitter)
  }

  /** One predator's turn: pursue the nearest visible prey, or wander. */
  function PredatorStep(sqrt: real -> real, sight: (FishState, Vector2) -> real, s: FishState,
                        preys: seq<Target>, jitter: Vector2): (r: FishState)
    requires IsSqrt(sqrt) && PredatorStepDefined(sqrt, sight, s, preys, jitter)
    ensures r.behaviour == Seeking <==> Closest(sight, s, preys).Some?
    ensures r.behaviour == Wandering <==> Closest(sight, s, preys).None?
  {
    match Closest(sight, s, preys)
    case Some(p) => Pursued(sqrt, s, p.pos, p.vel)
    case None => Wandered(sqrt, s, jitter)
  }

  /** A predator with a prey in sight pursues the first nearest one. */
  lemma PredatorPursuesNearest(sqrt: real -> real, sight: (FishState, Vector2) -> real, s: FishState,
                               preys: seq<Target>, jitter: Vector2, k: int)
    requires IsSqrt(sqrt) && PredatorStepDefined(sqrt, sight, s, preys, jitter)
    requires FirstMinimum(Distances(sight, s, preys), k)
    ensures PursuitDefined(sqrt, s, preys[k].pos, preys[k].vel)
    ensures PredatorStep(sqrt, sight, s, preys, jitter) == Pursued(sqrt, s, preys[k].pos, preys[k].vel)
    ensures PredatorStep(sqrt, sight, s, preys, jitter).behaviour == Seeking
  {
    ClosestSpec(sight, s, preys);
  }

  /** A predator wanders exactly when no prey is in sight. */
  lemma PredatorWandersIff(sqrt: real -> real, sight: (FishState, Vector2) -> real, s: FishState,
                           preys: seq<Target>, jitter: Vector2)
    requires IsSqrt(sqrt) && PredatorStepDefined(sqrt, sight, s, preys, jitter)
    ensures PredatorStep(sqrt, sight, s, preys, jitter).behaviour == Wandering <==> NoneInSight(sight, s, preys)
    ensures NoneInSight(sight, s, preys) ==>
      WanderDefined(sqrt, s, jitter) && PredatorStep(sqrt, sight, s, preys, jitter) == Wandered(sqrt, s, jitter)
  {
    ClosestSpec(sight, s, preys);
  }

  // ---------------------------------------------------------------------------
  // Populations as targets

  function TargetOf(b: Body): Target
    reads b
  {
    Target(b.position, b.velocity)
  }

  /** The targets a population of bodies presents, in order. */
  function Targets(bodies: seq<Body>): (r: seq<Target>)
    reads set b | b in bodies
    ensures |r| == |bodies| && forall k :: 0 <= k < |bodies| ==> r[k] == TargetOf(bodies[k])
  {
    if |bodies| == 0 then [] else [TargetOf(bodies[0])] + Targets(bodies[1..])
  }

  function FishBodies(fishes: seq<Fish>): seq<Body>
  {
    seq(|fishes|, k requires 0 <= k < |fishes| => fishes[k].body)
  }

  function PlantBodies(plants: seq<Plant>): seq<Body>
  {
    seq(|plants|, k requires 0 <= k < |plants| => plants[k].body)
  }

  /** Distinct fish with distinct bodies. */
  ghost predicate Apart(fishes: seq<Fish>)
  {
    forall i, j :: 0 <= i < j < |fishes| ==> fishes[i] != fishes[j] && fishes[i].body != fishes[j].body
  }

  /** No plant of `ps` shares its body with a fish of `fishes`. */
  ghost predicate Unshared(ps: seq<Plant>, fishes: seq<Fish>)
  {
    forall i, j :: 0 <= i < |ps| && 0 <= j < |fishes| ==> ps[i].body != fishes[j].body
  }

  /** Appending plants that share no body with the fish keeps the plants apart from them. */
  lemma UnsharedAppend(a: seq<Plant>, b: seq<Plant>, fishes: seq<Fish>)
    requires Unshared(a, fishes) && Unshared(b, fishes)
    ensures Unshared(a + b, fishes)
  {
    forall i, j | 0 <= i < |a + b| && 0 <= j < |fishes|
      ensures (a + b)[i].body != fishes[j].body
    {
      if i >= |a| {
        assert (a + b)[i] == b[i - |a|];
      }
    }
  }

  // ---------------------------------------------------------------------------
  // Plant growth

  /** What one call of the plant's growth contributes: nothing, or two rootlings. */
  function Offspring(grown: Option<(Plant, Plant)>): seq<Plant>
  {
    match grown
    case None => []
    case Some(pair) => [pair.0, pair.1]
  }

  /** The rootlings appended when the plants are visited from the last to the first. */
  function Rootlings(grow: Plant -> Option<(Plant, Plant)>, ps: seq<Plant>): seq<Plant>
  {
    if |ps| == 0 then [] else Rootlings(grow, ps[1..]) + Offspring(grow(ps[0]))
  }

  /** Visiting the plant at index `i` before those above it appends its rootlings last. */
  lemma RootlingsStep(grow: Plant -> Option<(Plant, Plant)>, ps: seq<Plant>, i: nat)
    requires i < |ps|
    ensures Rootlings(grow, ps[i..]) == Rootlings(grow, ps[i + 1..]) + Offspring(grow(ps[i]))
  {
    assert ps[i..][1..] == ps[i + 1..];
  }

  /** How many of the plants grow. */
  function GrownCount(grow: Plant -> Option<(Plant, Plant)>, ps: seq<Plant>): nat
  {
    if |ps| == 0 then 0 else GrownCount(grow, ps[1..]) + (if grow(ps[0]).Some? then 1 else 0)
  }

  /** Every plant that grows adds exactly two rootlings. */
  lemma {:induction false} RootlingsCount(grow: Plant -> Option<(Plant, Plant)>, ps: seq<Plant>)
    ensures |Rootlings(grow, ps)| == 2 * GrownCount(grow, ps)
  {
    if |ps| != 0 {
      RootlingsCount(grow, ps[1..]);
    }
  }

  // ---------------------------------------------------------------------------
  // Screen sliding and the tick counter

  /** `Vector2::offset`, called but not defined in this revision: a translation. */
  function Offset(v: Vector2, dx: real, dy: real): (r: Vector2)
    ensures Sub(r, v) == Vector2(dx, dy)
  {
    Vector2(v.x + dx, v.y + dy)
  }

  function Flag(b: bool): real
  {
    if b then 1.0 else 0.0
  }

  /** The pan of one frame: left pushes the view right, up pushes it down, 6 per key. Each
      axis moves exactly when one of its two arrows is held, by at most 6. */
  function Pan(arrows: ArrowStates): (r: Vector2)
    ensures r.x == 0.0 <==> arrows.left == arrows.right
    ensures r.y == 0.0 <==> arrows.up == arrows.down
    ensures Abs(r.x) <= PanSpeed && Abs(r.y) <= PanSpeed
  {
    Vector2(PanSpeed * (Flag(arrows.left) - Flag(arrows.right)),
            PanSpeed * (Flag(arrows.up) - Flag(arrows.down)))
  }

  /** Opposite arrows held together cancel out; with none held the view stays. */
  lemma OppositeArrowsCancel(arrows: ArrowStates)
    requires arrows.up == arrows.down && arrows.left == arrows.right
    ensures Pan(arrows) == Zero
  {
  }

  /** Whether growth is active on frame `k` (counting from 0) of the main loop. */
  predicate GrowthTick(k: nat)
  {
    (k + 1) % (2 * Fps + 1) == 0
  }

  /** The tick counter of `main`: incremented every frame, growth is active when it exceeds
      `2 * fps`, and it is then reset. Returns the growth flag of each of `frames` frames:
      growth happens on exactly one frame in every 121. */
  method GrowthCadence(frames: nat) returns (active: seq<bool>)
    ensures |active| == frames
    ensures forall k :: 0 <= k < frames ==> (active[k] <==> GrowthTick(k))
  {
    var ticks := 0;
    active := [];
    while |active| < frames
      invariant |active| <= frames
      invariant ticks == |active| % (2 * Fps + 1)
      invariant forall k :: 0 <= k < |active| ==> (active[k] <==> GrowthTick(k))
    {
      ticks := ticks + 1;
      var timeAct := ticks > 2 * Fps;
      active := active + [timeAct];
      if timeAct {
        ticks := 0;
      }
    }
  }

  /** The body of one iteration of `process_preys`: two proximity scans from the prey,
      then evade, arrive or wander. */
  method PreyTurn(sqrt: real -> real, sight: (FishState, Vector2) -> real, fish: Fish,
                  plants: seq<Target>, predators: seq<Target>, jitter: Vector2)
    requires IsSqrt(sqrt) && PreyStepDefined(sqrt, sight, fish.State(), plants, predators, jitter)
    modifies fish, fish.body
    ensures fish.State() == PreyStep(sqrt, sight, old(fish.State()), plants, predators, jitter)
  {
    var closestPlant := CheckProximity(sight, fish.State(), plants);
    var closestPredator := CheckProximity(sight, fish.State(), predators);
    match closestPredator {
      case Some(p) => fish.Evade(sqrt, p.pos, p.vel);
      case None =>
        match closestPlant {
          case Some(p) => fish.Arrive(sqrt, p.pos);
          case None => fish.Wander(sqrt, jitter);
        }
    }
  }

  /** The body of one iteration of `process_predators`: one proximity scan from the
      predator, then pursue or wander. */
  method PredatorTurn(sqrt: real -> real, sight: (FishState, Vector2) -> real, fish: Fish,
                      preys: seq<Target>, jitter: Vector2)
    requires IsSqrt(sqrt) && PredatorStepDefined(sqrt, sight, fish.State(), preys, jitter)
    modifies fish, fish.body
    ensures fish.State() == PredatorStep(sqrt, sight, old(fish.State()), preys, jitter)
  {
    var closestPrey := CheckProximity(sight, fish.State(), preys);
    match closestPrey {
      case Some(p) => fish.Pursuit(sqrt, p.pos, p.vel);
      case None => fish.Wander(sqrt, jitter);
    }
  }

  // ---------------------------------------------------------------------------
  // The aquarium

  class Aquarium {
    const plantStartAmount: u32
    const preyStartAmount: u32
    const predStartAmount: u32
    var offsetWindow: Vector2
    var offsetZoom: real
    var plants: seq<Plant>
    var preys: seq<Fish>
    var predators: seq<Fish>

    /** `Aquarium::create`: empty populations, no pan, no zoom. */
    constructor Create(plantStartAmount: u32, preyStartAmount: u32, predStartAmount: u32)
      ensures this.plantStartAmount == plantStartAmount && this.preyStartAmount == preyStartAmount
      ensures this.predStartAmount == predStartAmount
      ensures offsetWindow == Zero && offsetZoom == 0.0
      ensures plants == [] && preys == [] && predators == []
      ensures Valid()
    {
      this.plantStartAmount := plantStartAmount;
      this.preyStartAmount := preyStartAmount;
      this.predStartAmount := predStartAmount;
      offsetWindow := Zero;
      offsetZoom := 0.0;
      plants := [];
      preys := [];
      predators := [];
    }

    /** No two fish are the same object or share a body, and no plant shares a body with
        a fish: moving one fish moves nothing else. */
    ghost predicate Valid()
      reads this
    {
      Apart(preys) && Apart(predators) &&
      (forall i, j :: 0 <= i < |preys| && 0 <= j < |predators| ==>
         preys[i] != predators[j] && preys[i].body != predators[j].body) &&
      Unshared(plants, preys) && Unshared(plants, predators)
    }

    function PlantTargets(): seq<Target>
      reads this, set p | p in plants :: p.body
    {
      Targets(PlantBodies(plants))
    }

    function PreyTargets(): seq<Target>
      reads this, set f | f in preys :: f.body
    {
      Targets(FishBodies(preys))
    }

    function PredatorTargets(): seq<Target>
      reads this, set f | f in predators :: f.body
    {
      Targets(FishBodies(predators))
    }

    /** `process_plants`: visits every plant present on entry once, from the last to the
        first, and when `do_grow` holds appends the rootlings of each growing plant;
        rootlings are never visited in the same pass, and no plant is removed or moved.
        The growth builds new plants, so their bodies are not bodies of fish. */
    method ProcessPlants(doGrow: bool, grow: Plant -> Option<(Plant, Plant)>) returns (ghost visited: seq<Plant>)
      requires Valid()
      requires doGrow ==> Unshared(Rootlings(grow, plants), preys) && Unshared(Rootlings(grow, plants), predators)
      modifies this
      ensures Valid()
      ensures plants == old(plants) + (if doGrow then Rootlings(grow, old(plants)) else [])
      ensures |visited| == |old(plants)|
      ensures forall k :: 0 <= k < |visited| ==> visited[k] == old(plants)[|old(plants)| - 1 - k]
      ensures preys == old(preys) && predators == old(predators)
      ensures offsetWindow == old(offsetWindow) && offsetZoom == old(offsetZoom)
    {
      ghost var start := plants;
      visited := [];
      var i := |plants|;
      while i != 0
        invariant 0 <= i <= |start|
        invariant doGrow ==> plants == start + Rootlings(grow, start[i..])
        invariant !doGrow ==> plants == start
        invariant |visited| == |start| - i
        invariant forall k :: 0 <= k < |visited| ==> visited[k] == start[|start| - 1 - k]
        invariant preys == old(preys) && predators == old(predators)
        invariant offsetWindow == old(offsetWindow) && offsetZoom == old(offsetZoom)
      {
        i := i - 1;
        assert plants[i] == start[i];
        visited := visited + [plants[i]];
        if doGrow {
          ghost var before := plants;
          var rootlings := grow(plants[i]);
          match rootlings {
            case None =>
            case Some(pair) =>
              plants := plants + [pair.0];
              plants := plants + [pair.1];
          }
          assert plants == before + Offspring(rootlings);
          RootlingsStep(grow, start, i);
        }
      }
      if doGrow {
        UnsharedAppend(start, Rootlings(grow, start), preys);
        UnsharedAppend(start, Rootlings(grow, start), predators);
      }
    }

    /** One turn of the prey at index `k`, as `process_preys` takes it. */
    method ProcessPrey(sqrt: real -> real, sight: (FishState, Vector2) -> real, k: nat, jitter: Vector2)
      requires IsSqrt(sqrt) && Valid() && k < |preys|
      requires PreyStepDefined(sqrt, sight, preys[k].State(), PlantTargets(), PredatorTargets(), jitter)
      modifies preys[k], preys[k].body
      ensures preys[k].State()
        == PreyStep(sqrt, sight, old(preys[k].State()), old(PlantTargets()), old(PredatorTargets()), jitter)
      ensures PlantTargets() == old(PlantTargets()) && PredatorTargets() == old(PredatorTargets())
      ensures forall j :: 0 <= j < |preys| && j != k ==> preys[j].State() == old(preys[j].State())
    {
      var fish := preys[k];
      assert fish.body !in set p | p in plants :: p.body;
      assert fish.body !in set f | f in predators :: f.body;
      PreyTurn(sqrt, sight, fish, PlantTargets(), PredatorTargets(), jitter);
    }

    /** `process_preys`: every prey takes its turn once, from the last to the first; each
        decides on the plants and predators as they were at the start, which no prey's
        move changes; the populations keep their members and order. */
    method ProcessPreys(sqrt: real -> real, sight: (FishState, Vector2) -> real, jitters: seq<Vector2>)
      requires IsSqrt(sqrt) && Valid() && |jitters| == |preys|
      requires forall k :: 0 <= k < |preys| ==>
        PreyStepDefined(sqrt, sight, preys[k].State(), PlantTargets(), PredatorTargets(), jitters[k])
      modifies (set f | f in preys), (set f | f in preys :: f.body)
      ensures forall k :: 0 <= k < |preys| ==>
        preys[k].State() == PreyStep(sqrt, sight, old(preys[k].State()), old(PlantTargets()),
                                     old(PredatorTargets()), jitters[k])
      ensures PlantTargets() == old(PlantTargets()) && PredatorTargets() == old(PredatorTargets())
      ensures Valid()
    {
      var i := |preys|;
      while i != 0
        invariant 0 <= i <= |preys|
        invariant PlantTargets() == old(PlantTargets()) && PredatorTargets() == old(PredatorTargets())
        invariant forall k :: i <= k < |preys| ==>
          preys[k].State() == PreyStep(sqrt, sight, old(preys[k].State()), old(PlantTargets()),
                                       old(PredatorTargets()), jitters[k])
        invariant forall k :: 0 <= k < i ==> preys[k].State() == old(preys[k].State())
      {
        i := i - 1;
        ProcessPrey(sqrt, sight, i, jitters[i]);
      }
    }

    /** One turn of the predator at index `k`, as `process_predators` takes it. */
    method ProcessPredator(sqrt: real -> real, sight: (FishState, Vector2) -> real, k: nat, jitter: Vector2)
      requires IsSqrt(sqrt) && Valid() && k < |predators|
      requires PredatorStepDefined(sqrt, sight, predators[k].State(), PreyTargets(), jitter)
      modifies predators[k], predators[k].body
      ensures predators[k].State()
        == PredatorStep(sqrt, sight, old(predators[k].State()), old(PreyTargets()), jitter)
      ensures PreyTargets() == old(PreyTargets())
      ensures forall j :: 0 <= j < |predators| && j != k ==> predators[j].State() == old(predators[j].State())
    {
      var fish := predators[k];
      assert fish.body !in set f | f in preys :: f.body;
      PredatorTurn(sqrt, sight, fish, PreyTargets(), jitter);
    }

    /** `process_predators`: every predator takes its turn once, from the last to the
        first, on the preys as they were at the start; nobody is removed. */
    method ProcessPredators(sqrt: real -> real, sight: (FishState, Vector2) -> real, jitters: seq<Vector2>)
      requires IsSqrt(sqrt) && Valid() && |jitters| == |predators|
      requires forall k :: 0 <= k < |predators| ==>
        PredatorStepDefined(sqrt, sight, predators[k].State(), PreyTargets(), jitters[k])
      modifies (set f | f in predators), (set f | f in predators :: f.body)
      ensures forall k :: 0 <= k < |predators| ==>
        predators[k].State() == PredatorStep(sqrt, sight, old(predators[k].State()), old(PreyTargets()), jitters[k])
      ensures PreyTargets() == old(PreyTargets())
      ensures Valid()
    {
      var i := |predators|;
      while i != 0
        invariant 0 <= i <= |predators|
        invariant PreyTargets() == old(PreyTargets())
        invariant forall k :: i <= k < |predators| ==>
          predators[k].State() == PredatorStep(sqrt, sight, old(predators[k].State()), old(PreyTargets()), jitters[k])
        invariant forall k :: 0 <= k < i ==> predators[k].State() == old(predators[k].State())
      {
        i := i - 1;
        ProcessPredator(sqrt, sight, i, jitters[i]);
      }
    }

    /** `process_screen_sliding`: each held arrow moves the view by 6 along its axis. */
    method ProcessScreenSliding(arrows: ArrowStates)
      requires Valid()
      modifies this
      ensures Valid()
      ensures offsetWindow == Add(old(offsetWindow), Pan(arrows))
      ensures offsetZoom == old(offsetZoom)
      ensures plants == old(plants) && preys == old(preys) && predators == old(predators)
    {
      var speed := PanSpeed;
      if arrows.up {
        offsetWindow := Offset(offsetWindow, 0.0, speed);
      }
      if arrows.down {
        offsetWindow := Offset(offsetWindow, 0.0, -speed);
      }
      if arrows.right {
        offsetWindow := Offset(offsetWindow, -speed, 0.0);
      }
      if arrows.left {
        offsetWindow := Offset(offsetWindow, speed, 0.0);
      }
    }
  }
}
