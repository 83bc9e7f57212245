/** The simulation proper: the entities (`Entity`) and the grid of lands
    with its construction and its tick (`Life`). The two classes refer to
    each other, so they share this module. */
module Simulation {
  import opened Wrappers
  import opened Randomness
  import opened Text
  import opened Genetics
  import opened Geometry
  import opened Lifecycle
  import opened Census
  import opened Monitor

  /** What a land can hold. Only entities are ever added to a land, but both
      consumption and the tick check the kind of what they find there. */
  datatype Component = EntityComponent(entity: Entity) | OtherComponent

  /** The entities among a land's components. */
  function EntitiesIn(cell: seq<Component>): set<Entity>
  {
    set c | c in cell && c.EntityComponent? :: c.entity
  }

  /** A component as prey: an entity's colour, or None for anything else. */
  function PreyOf(c: Component): Option<Color>
    reads if c.EntityComponent? then {c.entity} else {}
  {
    if c.EntityComponent? then Some(c.entity.color) else None
  }

  /** A land's components as prey, first component first. */
  function Prey(cell: seq<Component>): (prey: seq<Option<Color>>)
    reads EntitiesIn(cell)
    ensures |prey| == |cell|
    decreases |cell|
  {
    if cell == [] then []
    else
      assert EntitiesIn(cell[1..]) <= EntitiesIn(cell);
      [PreyOf(cell[0])] + Prey(cell[1..])
  }

  /** The step a visit records for an entity's course. */
  function StepOf(course: Course): Step
  {
    match course
    case Halt(_) => Still
    case Move(t) => MovedTo(t)
    case Split(t) => SplitTo(t)
  }

  /** A land's components without entity `e`: what adding `e` to another
      land leaves behind, as a Swing component has one parent at a time. */
  function Without(cell: seq<Component>, e: Entity): (rest: seq<Component>)
    ensures forall k :: 0 <= k < |rest| ==> rest[k] in cell && rest[k] != EntityComponent(e)
    ensures forall k :: 0 <= k < |cell| && cell[k] != EntityComponent(e) ==> cell[k] in rest
    ensures |rest| <= |cell|
    decreases |cell|
  {
    if cell == [] then []
    else if cell[0] == EntityComponent(e) then Without(cell[1..], e)
    else [cell[0]] + Without(cell[1..], e)
  }

  /** A newborn entity at `at` with colour `c` that has not eaten yet. */
  ghost predicate Newborn(e: Entity, at: Point, c: Color)
    reads e
  {
    e.age == 0 && !e.dead && e.food == 0 && e.location == at && e.color == c && e.splitColor == c
  }

  /** Land (x, y) after its spawn roll at draw k: one newborn entity with
      its colour drawn right after the roll if the roll was below
      SpawnChance, and nothing otherwise. */
  ghost predicate Seeded(cell: seq<Component>, x: nat, y: nat, stream: nat -> nat, k: nat)
    requires InGrid(Point(x, y))
    reads if cell != [] && cell[0].EntityComponent? then {cell[0].entity} else {}
  {
    if Spawns(stream, k) then
      |cell| == 1 && cell[0].EntityComponent? &&
      Newborn(cell[0].entity, Point(x, y), InitialColor(x, y, stream, k + 1))
    else cell == []
  }

  /** The entities standing first on a land of the grid. */
  ghost function Occupants(grid: array2<seq<Component>>): set<Entity>
    reads grid
  {
    set a, b | 0 <= a < grid.Length0 && 0 <= b < grid.Length1 && grid[a, b] != [] && grid[a, b][0].EntityComponent? ::
      grid[a, b][0].entity
  }

  /** A fully seeded grid has at most one component per land, each entity
      at its own land's coordinates. */
  lemma SeededGridValid(grid: array2<seq<Component>>, stream: nat -> nat, rolls: seq<nat>)
    requires grid.Length0 == Size && grid.Length1 == Size && |rolls| == Size * Size
    requires forall x, y :: 0 <= x < Size && 0 <= y < Size ==> Seeded(grid[x, y], x, y, stream, rolls[ScanIndex(Point(x, y))])
    ensures forall e :: e in Occupants(grid) ==> InGrid(e.location) && InRange(e.color) && InRange(e.splitColor)
    ensures forall x, y :: 0 <= x < Size && 0 <= y < Size ==>
              |grid[x, y]| <= 1 &&
              forall k :: 0 <= k < |grid[x, y]| && grid[x, y][k].EntityComponent? ==>
                grid[x, y][k].entity in Occupants(grid) && grid[x, y][k].entity.location == Point(x, y)
  {
  }

  /** One land of the construction scan, (x, y), after the lands before it
      in scan order were seeded from the rolls `rolls`: the spawn roll and,
      below SpawnChance, a new entity added to the land. */
  method SeedLand(grid: array2<seq<Component>>, x: nat, y: nat, rng: Random, ghost rolls: seq<nat>) returns (spawned: bool)
    requires grid.Length0 == Size && grid.Length1 == Size && InGrid(Point(x, y)) && grid[x, y] == []
    requires |rolls| == x * Size + y
    requires forall a, b :: 0 <= a < Size && 0 <= b < Size && (a < x || (a == x && b < y)) ==>
               Seeded(grid[a, b], a, b, rng.stream, rolls[a * Size + b])
    modifies grid, rng`drawn
    ensures spawned == Spawns(rng.stream, old(rng.drawn))
    ensures var rolls' := rolls + [old(rng.drawn)];
            forall a, b :: 0 <= a < Size && 0 <= b < Size && (a < x || (a == x && b <= y)) ==>
              Seeded(grid[a, b], a, b, rng.stream, rolls'[a * Size + b])
    ensures rng.drawn == NextRoll(rng.stream, old(rng.drawn))
    ensures forall a, b :: 0 <= a < Size && 0 <= b < Size && !(a == x && b == y) ==> grid[a, b] == old(grid[a, b])
  {
    ghost var rolls' := rolls + [rng.drawn];
    var chance := rng.NextInt(SpawnRollBound);
    spawned := chance < SpawnChance;
    if spawned {
      var entity := new Entity(x, y, rng);
      grid[x, y] := grid[x, y] + [EntityComponent(entity)];
    }
    forall a, b | 0 <= a < Size && 0 <= b < Size && (a < x || (a == x && b <= y))
      ensures Seeded(grid[a, b], a, b, rng.stream, rolls'[a * Size + b])
    {
      if a != x || b != y {
        assert grid[a, b] == old(grid[a, b]) && rolls'[a * Size + b] == rolls[a * Size + b];
      }
    }
  }

  /** Column x of the construction scan, y from 0 up, after the columns
      before it made the rolls `rolls0` with `spawned0` spawns. */
  method SeedColumn(grid: array2<seq<Component>>, x: nat, rng: Random, spawned0: nat, ghost p: nat, ghost rolls0: seq<nat>)
      returns (spawned: nat, ghost rolls: seq<nat>)
    requires grid.Length0 == Size && grid.Length1 == Size && x < Size
    requires |rolls0| == x * Size && IsRollChain(rng.stream, p, rolls0)
    requires rng.drawn == AfterRolls(rng.stream, p, rolls0) && spawned0 == SpawnsIn(rng.stream, rolls0)
    requires forall a, b :: 0 <= a < x && 0 <= b < Size ==> Seeded(grid[a, b], a, b, rng.stream, rolls0[a * Size + b])
    requires forall b :: 0 <= b < Size ==> grid[x, b] == []
    modifies grid, rng`drawn
    ensures |rolls| == (x + 1) * Size && rolls[..|rolls0|] == rolls0 && IsRollChain(rng.stream, p, rolls)
    ensures rng.drawn == AfterRolls(rng.stream, p, rolls) && spawned == SpawnsIn(rng.stream, rolls)
    ensures forall a, b :: 0 <= a <= x && 0 <= b < Size ==> Seeded(grid[a, b], a, b, rng.stream, rolls[a * Size + b])
    ensures forall a, b :: 0 <= a < Size && 0 <= b < Size && a > x ==> grid[a, b] == old(grid[a, b])
  {
    spawned, rolls := spawned0, rolls0;
    var y := 0;
    while y < Size
      invariant 0 <= y <= Size && |rolls| == x * Size + y && rolls[..|rolls0|] == rolls0
      invariant IsRollChain(rng.stream, p, rolls)
      invariant rng.drawn == AfterRolls(rng.stream, p, rolls) && spawned == SpawnsIn(rng.stream, rolls)
      invariant forall a, b :: 0 <= a < Size && 0 <= b < Size && (a < x || (a == x && b < y)) ==>
                  Seeded(grid[a, b], a, b, rng.stream, rolls[a * Size + b])
      invariant forall b :: y <= b < Size ==> grid[x, b] == []
      invariant forall a, b :: 0 <= a < Size && 0 <= b < Size && a > x ==> grid[a, b] == old(grid[a, b])
    {
      ExtendRolls(rng.stream, p, rolls);
      ghost var roll := rng.drawn;
      assert (rolls + [roll])[..|rolls0|] == rolls0;
      var born := SeedLand(grid, x, y, rng, rolls);
      if born {
        spawned := spawned + 1;
      }
      rolls := rolls + [roll];
      y := y + 1;
    }
  }

  /** The construction scan over the whole grid, x outer and y inner:
      `spawned` of its lands get a new entity; `rolls` are the draws of
      its spawn rolls, in scan order. */
  method SeedGrid(rng: Random) returns (grid: array2<seq<Component>>, spawned: nat, ghost rolls: seq<nat>)
    modifies rng`drawn
    ensures fresh(grid) && grid.Length0 == Size && grid.Length1 == Size
    ensures |rolls| == Size * Size && IsRollChain(rng.stream, old(rng.drawn), rolls)
    ensures rng.drawn == AfterRolls(rng.stream, old(rng.drawn), rolls) && spawned == SpawnsIn(rng.stream, rolls)
    ensures forall x, y :: 0 <= x < Size && 0 <= y < Size ==> Seeded(grid[x, y], x, y, rng.stream, rolls[ScanIndex(Point(x, y))])
  {
    grid := new seq<Component>[Size, Size]((i, j) => []);
    ghost var p := rng.drawn;
    spawned, rolls := 0, [];
    var x := 0;
    while x < Size
      modifies grid, rng`drawn
      invariant 0 <= x <= Size && |rolls| == x * Size && IsRollChain(rng.stream, p, rolls)
      invariant rng.drawn == AfterRolls(rng.stream, p, rolls) && spawned == SpawnsIn(rng.stream, rolls)
      invariant forall a, b :: 0 <= a < x && 0 <= b < Size ==> Seeded(grid[a, b], a, b, rng.stream, rolls[a * Size + b])
      invariant forall a, b :: x <= a < Size && 0 <= b < Size ==> grid[a, b] == []
    {
      spawned, rolls := SeedColumn(grid, x, rng, spawned, p, rolls);
      x := x + 1;
    }
  }

  /** What a visit of a land finds as its first component; for a living
      entity, its age before it steps. */
  function SightingOf(cell: seq<Component>): Sighting
    reads if cell != [] && cell[0].EntityComponent? then {cell[0].entity} else {}
  {
    if cell == [] then Vacant
    else if !cell[0].EntityComponent? then NotEntity
    else if cell[0].entity.dead then Corpse
    else Living(cell[0].entity.age)
  }

  /** The catch blocks of `moveEntity` and the tick's scan stay quiet for
      failures whose message contains this. */
  const NoLandExists := "No land exists"

  class Entity {
    /** Declared per instance in `Entity`, so it is 1 in every entity. */
    var lastIdentifier: int
    const identifier: int
    var age: int
    var dead: bool
    var food: int
    var location: Point
    var color: Color
    var splitColor: Color

    /** A new entity at (x, y): newborn, with a colour drawn from its coordinates. */
    constructor (x: int, y: int, rng: Random)
      requires InGrid(Point(x, y))
      modifies rng`drawn
      ensures lastIdentifier == 1 && identifier == 1
      ensures age == 0 && !dead && food == 0 && location == Point(x, y)
      ensures color == InitialColor(x, y, rng.stream, old(rng.drawn)) && splitColor == color
      ensures rng.drawn == old(rng.drawn) + DrawsPerBirth
    {
      lastIdentifier := 0 + 1;
      identifier := 1;
      location := Point(x, y);
      var red := rng.NextInt(x + y + 1);
      var green := rng.NextInt(x + 1);
      var blue := rng.NextInt(y + 1);
      var initial := Color(80 + red, 80 + green, 80 + blue);
      color, splitColor := initial, initial;
      age, dead, food := 0, false, 0;
    }

    function IsDead(): bool
      reads this
    {
      dead
    }

    function GetAge(): int
      reads this
    {
      age
    }

    method SetEntityColor(newColor: Color)
      modifies this`color, this`splitColor
      ensures color == newColor && splitColor == newColor
    {
      splitColor := newColor;
      color := newColor;
    }

    /** Eats `consumed` if it is an entity: FoodPerMeal more food, and its
        colour blended into the split colour channel by channel. */
    method ConsumeEntity(consumed: Component, rng: Random)
      modifies this`food, this`splitColor, rng`drawn
      ensures Meal(food, splitColor, rng.drawn) ==
              Eat(Meal(old(food), old(splitColor), old(rng.drawn)), old(PreyOf(consumed)), rng.stream)
    {
      if consumed.EntityComponent? {
        var victim := consumed.entity.color;
        var split := splitColor;
        ghost var k := rng.drawn;
        food := food + FoodPerMeal;
        var newRed := VaryChannel(split.red, victim.red, VariationRangeMinimum, rng);
        var newGreen := VaryChannel(split.green, victim.green, VariationRangeMinimum, rng);
        // `consumeEntity` adds the range minimum to the red spread a second time
        // here instead of to the blue spread, so blue varies with no minimum.
        var newBlue := VaryChannel(split.blue, victim.blue, 0, rng);
        assert Color(newRed, newGreen, newBlue) == Blend(split, victim, rng.stream, k);
        splitColor := Color(newRed, newGreen, newBlue);
      }
    }

    /** One channel of a blend: a random sign, then a random magnitude below
        the spread between `own` and `other` plus `minimum` (at least 1),
        added to `own` and clamped to [ChannelFloor, ChannelCeiling]. */
    static method VaryChannel(own: Channel, other: Channel, minimum: nat, rng: Random) returns (v: Channel)
      modifies rng`drawn
      ensures v == Vary(own, other, minimum, rng.stream, old(rng.drawn))
      ensures rng.drawn == old(rng.drawn) + 2
    {
      var neg := rng.NextBoolean();
      var delta := other - own;
      if delta < 0 {
        delta := delta * -1;
      }
      delta := delta + minimum;
      if delta == 0 { delta := 1; }
      var magnitude := rng.NextInt(delta);
      var shifted := own + magnitude * (if neg then -1 else 1);
      if shifted > ChannelCeiling { shifted := ChannelCeiling; }
      else if shifted < ChannelFloor { shifted := ChannelFloor; }
      v := shifted;
    }

    /** Consumes and removes the components of land `t` one at a time, first
        component first, until the land is empty. */
    method ConsumeOccupants(life: Life, t: Point, rng: Random)
      requires life.lands.Length0 == Size && life.lands.Length1 == Size && InGrid(t)
      requires EntityComponent(this) !in life.lands[t.x, t.y]
      modifies this`food, this`splitColor, life.lands, rng`drawn
      ensures life.lands[t.x, t.y] == []
      ensures forall i, j :: 0 <= i < Size && 0 <= j < Size && !(i == t.x && j == t.y) ==>
                life.lands[i, j] == old(life.lands[i, j])
      ensures Meal(food, splitColor, rng.drawn) ==
              Feast(Meal(old(food), old(splitColor), old(rng.drawn)), old(Prey(life.lands[t.x, t.y])), rng.stream)
    {
      while |life.lands[t.x, t.y]| > 0
        invariant forall i, j :: 0 <= i < Size && 0 <= j < Size && !(i == t.x && j == t.y) ==>
                    life.lands[i, j] == old(life.lands[i, j])
        invariant EntityComponent(this) !in life.lands[t.x, t.y]
        invariant Feast(Meal(food, splitColor, rng.drawn), Prey(life.lands[t.x, t.y]), rng.stream) ==
                  Feast(Meal(old(food), old(splitColor), old(rng.drawn)), old(Prey(life.lands[t.x, t.y])), rng.stream)
        decreases |life.lands[t.x, t.y]|
      {
        var cell := life.lands[t.x, t.y];
        ghost var meal := Meal(food, splitColor, rng.drawn);
        ghost var rest := Prey(cell[1..]);
        assert Prey(cell) == [PreyOf(cell[0])] + rest;
        assert this !in EntitiesIn(cell[1..]);
        ConsumeEntity(cell[0], rng);
        assert Meal(food, splitColor, rng.drawn) == Eat(meal, PreyOf(cell[0]), rng.stream);
        life.lands[t.x, t.y] := cell[1..];
        assert Prey(cell[1..]) == rest;
      }
    }

    /** One step of this entity (`moveEntity`). A dead entity does nothing.
        A live one ages one year (the Java program's guard against acting twice in
        a tick is an empty statement), sets aside FoodForMitosis food when it
        has that much, rolls for death, and, unless the roll kills it outside
        mitosis, picks an action: during mitosis a direction for the child,
        otherwise stay or a direction to move. A target off the grid abandons
        the action; the food set aside for mitosis stays spent. */
    method MoveEntity(life: Life, rng: Random) returns (moved: bool)
      requires life.Valid() && this in life.Repr
      modifies this`age, this`dead, this`food, this`location, this`color, this`splitColor, life`Repr, life.lands, rng`drawn
      ensures life.Valid() && fresh(life.Repr - old(life.Repr))
      ensures forall i, j :: 0 <= i < Size && 0 <= j < Size && !Near(Point(i, j), old(location)) ==>
                life.lands[i, j] == old(life.lands[i, j])
      // Nothing is done by dead entities.
      ensures old(dead) ==> !moved && unchanged(this) && unchanged(life.lands) &&
                            life.Repr == old(life.Repr) && rng.drawn == old(rng.drawn)
      ensures !old(dead) ==> age == old(age) + 1 &&
                             dead == Dies(age, IntAt(rng.stream, old(rng.drawn), DeathRollBound))
      ensures !old(dead) ==>
        var course := CourseOf(old(age), old(food), old(location), rng.stream, old(rng.drawn));
        var spent := if old(food) >= FoodForMitosis then FoodForMitosis else 0;
        (moved <==> !course.Halt?) &&
        (course.Halt? ==>
          food == old(food) - spent && location == old(location) &&
          color == old(color) && splitColor == old(splitColor) &&
          unchanged(life.lands) && life.Repr == old(life.Repr) && rng.drawn == course.drawn) &&
        (course.Move? ==>
          var t := course.target;
          location == t && color == old(color) &&
          Meal(food, splitColor, rng.drawn) ==
            Feast(Meal(old(food) + FoodPerMove, old(splitColor), old(rng.drawn) + 2),
                  old(Prey(life.lands[t.x, t.y])), rng.stream) &&
          life.lands[t.x, t.y] == [EntityComponent(this)] &&
          life.lands[old(location).x, old(location).y] == Without(old(life.lands[location.x, location.y]), this) &&
          life.Repr == old(life.Repr) &&
          forall i, j :: 0 <= i < Size && 0 <= j < Size && !(i == t.x && j == t.y) && !(i == old(location).x && j == old(location).y) ==>
            life.lands[i, j] == old(life.lands[i, j])) &&
        (course.Split? ==>
          var t := course.target;
          food == old(food) - FoodForMitosis && location == old(location) &&
          color == old(splitColor) && splitColor == old(splitColor) &&
          |life.lands[t.x, t.y]| == 1 && life.lands[t.x, t.y][0].EntityComponent? &&
          var child := life.lands[t.x, t.y][0].entity;
          fresh(child) && life.Repr == old(life.Repr) + {child} &&
          child.location == t && child.age == 0 && !child.dead && child.color == old(splitColor) &&
          Meal(child.food, child.splitColor, rng.drawn) ==
            Feast(Meal(0, old(splitColor), old(rng.drawn) + 2 + DrawsPerBirth),
                  old(Prey(life.lands[t.x, t.y])), rng.stream) &&
          forall i, j :: 0 <= i < Size && 0 <= j < Size && !(i == t.x && j == t.y) ==>
            life.lands[i, j] == old(life.lands[i, j]))
    {
      if IsDead() {
        return false;
      }
      moved := Live(life, rng);
    }

    /** The step of a live entity. */
    method Live(life: Life, rng: Random) returns (moved: bool)
      requires life.Valid() && this in life.Repr && !dead
      modifies this`age, this`dead, this`food, this`location, this`color, this`splitColor, life`Repr, life.lands, rng`drawn
      ensures life.Valid() && fresh(life.Repr - old(life.Repr))
      ensures age == old(age) + 1 && dead == Dies(age, IntAt(rng.stream, old(rng.drawn), DeathRollBound))
      ensures
        var course := CourseOf(old(age), old(food), old(location), rng.stream, old(rng.drawn));
        var spent := if old(food) >= FoodForMitosis then FoodForMitosis else 0;
        (moved <==> !course.Halt?) &&
        (course.Halt? ==>
          food == old(food) - spent && location == old(location) &&
          color == old(color) && splitColor == old(splitColor) &&
          unchanged(life.lands) && life.Repr == old(life.Repr) && rng.drawn == course.drawn) &&
        (course.Move? ==>
          var t := course.target;
          location == t && color == old(color) &&
          Meal(food, splitColor, rng.drawn) ==
            Feast(Meal(old(food) + FoodPerMove, old(splitColor), old(rng.drawn) + 2),
                  old(Prey(life.lands[t.x, t.y])), rng.stream) &&
          life.lands[t.x, t.y] == [EntityComponent(this)] &&
          life.lands[old(location).x, old(location).y] == Without(old(life.lands[location.x, location.y]), this) &&
          life.Repr == old(life.Repr) &&
          forall i, j :: 0 <= i < Size && 0 <= j < Size && !(i == t.x && j == t.y) && !(i == old(location).x && j == old(location).y) ==>
            life.lands[i, j] == old(life.lands[i, j])) &&
        (course.Split? ==>
          var t := course.target;
          food == old(food) - FoodForMitosis && location == old(location) &&
          color == old(splitColor) && splitColor == old(splitColor) &&
          |life.lands[t.x, t.y]| == 1 && life.lands[t.x, t.y][0].EntityComponent? &&
          var child := life.lands[t.x, t.y][0].entity;
          fresh(child) && life.Repr == old(life.Repr) + {child} &&
          child.location == t && child.age == 0 && !child.dead && child.color == old(splitColor) &&
          Meal(child.food, child.splitColor, rng.drawn) ==
            Feast(Meal(0, old(splitColor), old(rng.drawn) + 2 + DrawsPerBirth),
                  old(Prey(life.lands[t.x, t.y])), rng.stream) &&
          forall i, j :: 0 <= i < Size && 0 <= j < Size && !(i == t.x && j == t.y) ==>
            life.lands[i, j] == old(life.lands[i, j]))
    {
      // `moveEntity` tests "already moved ahead in time" here, but the test
      // ends in an empty statement, so the age goes up regardless.
      if age >= life.age { }
      ghost var course := CourseOf(age, food, location, rng.stream, rng.drawn);
      if !course.Halt? {
        assert this !in EntitiesIn(life.lands[course.target.x, course.target.y]);
      }
      label Before:
      var mitosis, halted, choice := Mature(rng);
      life.ValidKept@Before();
      if !course.Halt? {
        ghost var cell := life.lands[course.target.x, course.target.y];
        assert Prey(cell) == old@Before(Prey(cell));
      }
      if halted {
        return false;
      }
      assert course == Heading(mitosis, location, choice, rng.drawn);
      moved := Act(life, rng, mitosis, choice);
    }

    /** The draws of a step: a year older, FoodForMitosis food set aside
        when there is that much, the death roll and, unless it kills this
        entity outside mitosis (`halted`), the direction. */
    method Mature(rng: Random) returns (mitosis: bool, halted: bool, choice: int)
      modifies this`age, this`food, this`dead, rng`drawn
      ensures age == old(age) + 1
      ensures mitosis <==> old(food) >= FoodForMitosis
      ensures food == old(food) - (if mitosis then FoodForMitosis else 0)
      ensures var dies := Dies(age, IntAt(rng.stream, old(rng.drawn), DeathRollBound));
              dead == (old(dead) || dies) && (halted <==> dies && !mitosis)
      ensures halted ==> rng.drawn == old(rng.drawn) + 1
      ensures !halted ==> rng.drawn == old(rng.drawn) + 2 &&
                          choice == Choice(mitosis, rng.stream, old(rng.drawn) + 1)
    {
      age := age + 1;
      mitosis := false;
      if food >= FoodForMitosis {
        food := food - FoodForMitosis;
        mitosis := true;
      }
      var roll := rng.NextInt(DeathRollBound);
      if Dies(age, roll) {
        dead := true;
        // No movement unless dying during mitosis.
        if !mitosis {
          halted, choice := true, 0;
          return;
        }
      }
      halted := false;
      if mitosis {
        choice := rng.NextInt(4);
        choice := choice + 1;
      } else {
        choice := rng.NextInt(5);
      }
    }

    /** The action of a step once its direction is drawn: the split or the
        move towards it; a target off the grid abandons the action. */
    method Act(life: Life, rng: Random, mitosis: bool, choice: int) returns (moved: bool)
      requires life.Valid() && this in life.Repr && 0 <= choice <= 4
      modifies this`food, this`color, this`splitColor, this`location, life`Repr, life.lands, rng`drawn
      ensures life.Valid() && fresh(life.Repr - old(life.Repr))
      ensures
        var action := Heading(mitosis, old(location), choice, old(rng.drawn));
        (moved <==> !action.Halt?) &&
        (action.Halt? ==>
          food == old(food) && location == old(location) &&
          color == old(color) && splitColor == old(splitColor) &&
          unchanged(life.lands) && life.Repr == old(life.Repr) && rng.drawn == old(rng.drawn)) &&
        (action.Move? ==>
          var t := action.target;
          location == t && color == old(color) &&
          Meal(food, splitColor, rng.drawn) ==
            Feast(Meal(old(food) + FoodPerMove, old(splitColor), old(rng.drawn)),
                  old(Prey(life.lands[t.x, t.y])), rng.stream) &&
          life.lands[t.x, t.y] == [EntityComponent(this)] &&
          life.lands[old(location).x, old(location).y] == Without(old(life.lands[location.x, location.y]), this) &&
          life.Repr == old(life.Repr) &&
          forall i, j :: 0 <= i < Size && 0 <= j < Size && !(i == t.x && j == t.y) && !(i == old(location).x && j == old(location).y) ==>
            life.lands[i, j] == old(life.lands[i, j])) &&
        (action.Split? ==>
          var t := action.target;
          food == old(food) && location == old(location) &&
          color == old(splitColor) && splitColor == old(splitColor) &&
          |life.lands[t.x, t.y]| == 1 && life.lands[t.x, t.y][0].EntityComponent? &&
          var child := life.lands[t.x, t.y][0].entity;
          fresh(child) && life.Repr == old(life.Repr) + {child} &&
          child.location == t && child.age == 0 && !child.dead && child.color == old(splitColor) &&
          Meal(child.food, child.splitColor, rng.drawn) ==
            Feast(Meal(0, old(splitColor), old(rng.drawn) + DrawsPerBirth),
                  old(Prey(life.lands[t.x, t.y])), rng.stream) &&
          forall i, j :: 0 <= i < Size && 0 <= j < Size && !(i == t.x && j == t.y) ==>
            life.lands[i, j] == old(life.lands[i, j]))
    {
      if choice > 0 {
        var target := Neighbour(location, choice);
        var origin := life.GetLand(location.x, location.y);
        var expedition := life.GetLand(target.x, target.y);
        if origin.Failure? || expedition.Failure? {
          // The out-of-bounds failure is caught and the action abandoned.
          return false;
        }
        if mitosis {
          var child := Divide(life, target, rng);
        } else {
          Relocate(life, target, rng);
        }
        return true;
      }
      return false;
    }

    /** The mitosis branch of a step: a child is born on land `target` with
        this entity's split colour, this entity takes its split colour as
        its own colour, and the child consumes and replaces whatever was on
        the target land. */
    method Divide(life: Life, target: Point, rng: Random) returns (ghost child: Entity)
      requires life.Valid() && this in life.Repr && InGrid(target) && target != location
      modifies this`color, this`splitColor, life`Repr, life.lands, rng`drawn
      ensures life.Valid() && life.Repr == old(life.Repr) + {child} && fresh(child)
      ensures color == old(splitColor) && splitColor == old(splitColor)
      ensures child.location == target && child.age == 0 && !child.dead && child.color == old(splitColor)
      ensures Meal(child.food, child.splitColor, rng.drawn) ==
              Feast(Meal(0, old(splitColor), old(rng.drawn) + DrawsPerBirth), old(Prey(life.lands[target.x, target.y])), rng.stream)
      ensures life.lands[target.x, target.y] == [EntityComponent(child)]
      ensures forall i, j :: 0 <= i < Size && 0 <= j < Size && !(i == target.x && j == target.y) ==>
                life.lands[i, j] == old(life.lands[i, j])
    {
      ghost var prey := Prey(life.lands[target.x, target.y]);
      assert this !in EntitiesIn(life.lands[target.x, target.y]);
      var newEntity := new Entity(target.x, target.y, rng);
      newEntity.SetEntityColor(splitColor);
      SetEntityColor(splitColor);
      assert Prey(life.lands[target.x, target.y]) == prey;
      ghost var start := Meal(0, splitColor, rng.drawn);
      newEntity.ConsumeOccupants(life, target, rng);
      FeastColor(start, prey, rng.stream);
      life.lands[target.x, target.y] := life.lands[target.x, target.y] + [EntityComponent(newEntity)];
      life.Repr := life.Repr + {newEntity};
      child := newEntity;
      life.BornKept(target, child);
    }

    /** The plain branch of a step onto a land: a unit of food for the new
        land, its components consumed and removed, then this entity moves
        there and leaves its old land. */
    method Relocate(life: Life, target: Point, rng: Random)
      requires life.Valid() && this in life.Repr && InGrid(target) && target != location
      modifies this`food, this`splitColor, this`location, life.lands, rng`drawn
      ensures life.Valid()
      ensures location == target
      ensures Meal(food, splitColor, rng.drawn) ==
              Feast(Meal(old(food) + FoodPerMove, old(splitColor), old(rng.drawn)), old(Prey(life.lands[target.x, target.y])), rng.stream)
      ensures life.lands[target.x, target.y] == [EntityComponent(this)]
      ensures var origin := old(location); life.lands[origin.x, origin.y] == Without(old(life.lands[origin.x, origin.y]), this)
      ensures forall i, j :: 0 <= i < Size && 0 <= j < Size && !(i == target.x && j == target.y) && !(i == old(location).x && j == old(location).y) ==>
                life.lands[i, j] == old(life.lands[i, j])
    {
      food := food + FoodPerMove;
      ConsumeOccupants(life, target, rng);
      // Adding this entity to the target land takes it off its old land.
      var origin := location;
      life.lands[origin.x, origin.y] := Without(life.lands[origin.x, origin.y], this);
      life.lands[target.x, target.y] := life.lands[target.x, target.y] + [EntityComponent(this)];
      location := target;
      FeastColor(Meal(old(food) + FoodPerMove, old(splitColor), old(rng.drawn)), old(Prey(life.lands[target.x, target.y])), rng.stream);
      life.MoveKept(this);
    }
  }

  class Life {
    /** The tick counter. */
    var age: int
    /** The lands; a land is represented by the components it holds. */
    const lands: array2<seq<Component>>
    /** Every entity this life has created. */
    ghost var Repr: set<Entity>
    /** The draws at which the construction scan rolled each land's spawn
        chance, in scan order. */
    ghost const Rolls: seq<nat>

    /** A new life (`Life()`): every land of the 60 by 60 grid, x outer and
        y inner, rolls below SpawnChance out of SpawnRollBound to get a new
        entity; the monitor, if there is one, is told how many spawned.
        `Rolls` records the draws of the spawn rolls in scan order. */
    constructor (rng: Random, monitor: LifeMonitor?)
      modifies rng`drawn, monitor
      ensures Valid() && fresh(lands) && age == 0
      ensures |Rolls| == Size * Size && IsRollChain(rng.stream, old(rng.drawn), Rolls)
      ensures forall x, y :: 0 <= x < Size && 0 <= y < Size ==>
                Seeded(lands[x, y], x, y, rng.stream, Rolls[ScanIndex(Point(x, y))])
      ensures rng.drawn == AfterRolls(rng.stream, old(rng.drawn), Rolls)
      ensures monitor != null ==>
                monitor.entityLivingPopulation == LivingText(SpawnsIn(rng.stream, Rolls)) &&
                monitor.entityDeadPopulation == DeadText(0) &&
                monitor.oldestLivingEntity == old(monitor.oldestLivingEntity) &&
                monitor.recordedOldestEntity == old(monitor.recordedOldestEntity) &&
                monitor.oldestEntityEver == old(monitor.oldestEntityEver)
    {
      var grid, spawned, rolls := SeedGrid(rng);
      SeededGridValid(grid, rng.stream, rolls);
      lands := grid;
      Rolls := rolls;
      Repr := Occupants(grid);
      age := 0;
      new;
      assert Valid();
      if monitor != null {
        monitor.ReportEntityPopulation(spawned, 0);
      }
    }

    /** One visit of the tick's scan: land (x, y) is looked up, and if its
        first component is a living entity that entity steps once; a dead
        entity or any other component is left alone. */
    method VisitLand(x: int, y: int, rng: Random, ghost before: Scene)
        returns (seen: Sighting, ghost step: Step, ghost after: Scene)
      requires Valid() && InGrid(Point(x, y)) && Shows(before)
      modifies this`Repr, lands, Repr, rng`drawn
      ensures Valid() && fresh(Repr - old(Repr))
      ensures seen == old(SightingOf(lands[x, y]))
      ensures Shows(after) && VisitStep(before, after, Visit(Point(x, y), seen, step))
      ensures !seen.Living? ==> unchanged(lands) && unchanged(old(Repr)) && Repr == old(Repr) && rng.drawn == old(rng.drawn)
      ensures seen.Living? ==>
        var e := old(lands[x, y][0].entity);
        e.age == seen.age + 1 && rng.drawn > old(rng.drawn) &&
        step == StepOf(CourseOf(seen.age, old(e.food), Point(x, y), rng.stream, old(rng.drawn)))
    {
      seen, step, after := Vacant, Still, before;
      var land := GetLand(x, y);
      if land.Success? {
        var cell := lands[x, y];
        if |cell| > 0 {
          var c := cell[0];
          if c.EntityComponent? {
            var entity := c.entity;
            if entity.IsDead() {
              seen := Corpse;
            } else {
              seen := Living(entity.GetAge());
              assert cell == [c];
              step, after := StepScene(entity, rng, before);
            }
          } else {
            seen := NotEntity;
          }
        }
      }
    }

    /** A living entity alone on its land steps once, and the scene changes
        as Stepped says for the step CourseOf decides. */
    method StepScene(e: Entity, rng: Random, ghost before: Scene) returns (ghost step: Step, ghost after: Scene)
      requires Valid() && e in Repr && !e.dead && Shows(before)
      requires lands[e.location.x, e.location.y] == [EntityComponent(e)]
      modifies this`Repr, lands, Repr, rng`drawn
      ensures Valid() && fresh(Repr - old(Repr))
      ensures e.age == old(e.age) + 1 && rng.drawn > old(rng.drawn)
      ensures step == StepOf(CourseOf(old(e.age), old(e.food), old(e.location), rng.stream, old(rng.drawn)))
      ensures Shows(after) && Stepped(before, after, old(e.location), old(e.age), step)
    {
      step := StepEntity(e, rng);
      SightingsKept(e);
      after := Look();
    }

    /** A living entity alone on its land steps once, as CourseOf decides: it
        ends a year older, having taken draws, and no other entity changes.
        - Staying, the lands are as they were.
        - Moving onto t, it leaves its land empty and is alone on t.
        - Splitting onto t, its newborn child is alone on t.
        No land but its own and the target changes. */
    method StepEntity(e: Entity, rng: Random) returns (ghost step: Step)
      requires Valid() && e in Repr && !e.dead
      requires lands[e.location.x, e.location.y] == [EntityComponent(e)]
      modifies this`Repr, lands, Repr, rng`drawn
      ensures Valid() && fresh(Repr - old(Repr))
      ensures e.age == old(e.age) + 1 && rng.drawn > old(rng.drawn)
      ensures forall d :: d in old(Repr) && d != e ==> unchanged(d)
      ensures forall d :: d in old(Repr) && d != e ==> d.age == old(d.age) && d.dead == old(d.dead)
      ensures var p, course := old(e.location), CourseOf(old(e.age), old(e.food), old(e.location), rng.stream, old(rng.drawn));
        step == StepOf(course) &&
        match course
        case Halt(_) => unchanged(lands)
        case Move(t) =>
          lands[p.x, p.y] == [] && lands[t.x, t.y] == [EntityComponent(e)] && !e.dead &&
          forall i, j :: 0 <= i < Size && 0 <= j < Size && Point(i, j) != p && Point(i, j) != t ==>
            lands[i, j] == old(lands[i, j])
        case Split(t) =>
          |lands[t.x, t.y]| == 1 && lands[t.x, t.y][0].EntityComponent? &&
          lands[t.x, t.y][0].entity.age == 0 && !lands[t.x, t.y][0].entity.dead &&
          forall i, j :: 0 <= i < Size && 0 <= j < Size && Point(i, j) != t ==> lands[i, j] == old(lands[i, j])
    {
      ghost var p, food0, split0, k := e.location, e.food, e.splitColor, rng.drawn;
      ghost var course := CourseOf(e.age, food0, p, rng.stream, k);
      ghost var prey := if course.Halt? then [] else Prey(lands[course.target.x, course.target.y]);
      if course.Move? {
        MoverSurvives(e.age, food0, p, rng.stream, k);
      }
      var _ := e.MoveEntity(this, rng);
      // Moving or splitting ends in a feast, which takes the draws after the first two.
      if course.Move? {
        FeastFood(Meal(food0 + FoodPerMove, split0, k + 2), prey, rng.stream);
        assert lands[p.x, p.y] == Without([EntityComponent(e)], e) == [];
      } else if course.Split? {
        FeastFood(Meal(0, split0, k + 2 + DrawsPerBirth), prey, rng.stream);
      }
      step := StepOf(course);
    }

    /** Column x of a tick's scan, y from 0 up, continuing the counters, the
        visit log and the scenes of the columns before it. */
    method ScanColumn(x: int, rng: Random, living0: nat, dead0: nat, oldest0: int,
                      ghost log0: seq<Visit>, ghost scenes0: seq<Scene>)
        returns (living: nat, dead: nat, oldest: int, ghost log: seq<Visit>, ghost scenes: seq<Scene>,
                 ghost column: seq<Visit>)
      requires Valid() && 0 <= x < Size && |log0| == x * Size
      requires ScanRecord(scenes0, log0) && Shows(scenes0[|log0|])
      requires living0 == LivingCount(log0) && dead0 == DeadCount(log0) && oldest0 == Oldest(log0)
      modifies this`Repr, lands, Repr, rng`drawn
      ensures Valid() && fresh(Repr - old(Repr))
      ensures |log| == (x + 1) * Size && log == log0 + column
      ensures ScanRecord(scenes, log) && scenes[0] == scenes0[0] && Shows(scenes[|log|])
      ensures living == LivingCount(log) && dead == DeadCount(log) && oldest == Oldest(log)
    {
      living, dead, oldest, log, scenes, column := living0, dead0, oldest0, log0, scenes0, [];
      var y := 0;
      while y < Size
        invariant Valid() && fresh(Repr - old(Repr))
        invariant 0 <= y <= Size && |log| == x * Size + y
        invariant log == log0 + column
        invariant ScanRecord(scenes, log) && scenes[0] == scenes0[0] && Shows(scenes[|log|])
        invariant living == LivingCount(log) && dead == DeadCount(log) && oldest == Oldest(log)
      {
        ghost var visit;
        living, dead, oldest, log, scenes, visit := ScanVisit(x, y, rng, living, dead, oldest, log, scenes);
        assert log0 + (column + [visit]) == log0 + column + [visit];
        column := column + [visit];
        y := y + 1;
      }
    }

    /** One visit of the scan with the counting around it: the visit log
        and the scenes grow by this visit, and the counters follow them. */
    method ScanVisit(x: int, y: int, rng: Random, living0: nat, dead0: nat, oldest0: int,
                     ghost log0: seq<Visit>, ghost scenes0: seq<Scene>)
        returns (living: nat, dead: nat, oldest: int, ghost log: seq<Visit>, ghost scenes: seq<Scene>, ghost visit: Visit)
      requires Valid() && InGrid(Point(x, y)) && |log0| == x * Size + y
      requires ScanRecord(scenes0, log0) && Shows(scenes0[|log0|])
      requires living0 == LivingCount(log0) && dead0 == DeadCount(log0) && oldest0 == Oldest(log0)
      modifies this`Repr, lands, Repr, rng`drawn
      ensures Valid() && fresh(Repr - old(Repr))
      ensures log == log0 + [visit] && visit.at == Point(x, y)
      ensures ScanRecord(scenes, log) && scenes[0] == scenes0[0] && Shows(scenes[|log|])
      ensures living == LivingCount(log) && dead == DeadCount(log) && oldest == Oldest(log)
    {
      ScanIsBijective(Point(x, y));
      assert scenes0[|log0|][Point(x, y)] == SightingOf(lands[x, y]);
      var seen, step, after := VisitLand(x, y, rng, scenes0[|log0|]);
      // The counters as the tick's scan updates them before the step; `seen`
      // holds the age read before the step.
      living, dead, oldest := living0, dead0, oldest0;
      match seen {
        case Corpse => dead := dead + 1;
        case Living(entityAge) =>
          living := living + 1;
          if entityAge > oldest {
            oldest := entityAge;
          }
        case _ =>
      }
      visit := Visit(Point(x, y), seen, step);
      ExtendScan(scenes0, log0, after, visit);
      log, scenes := log0 + [visit], scenes0 + [after];
    }

    /** One tick of the simulation thread: the age goes up, then the scan
        runs and the monitor, if there is one, gets its counts. */
    method Tick(rng: Random, monitor: LifeMonitor?)
        returns (living: nat, dead: nat, oldest: int, ghost log: seq<Visit>, ghost scenes: seq<Scene>)
      requires Valid()
      modifies this`age, this`Repr, lands, Repr, rng`drawn, monitor
      ensures Valid() && fresh(Repr - old(Repr)) && age == old(age) + 1
      ensures ScanOutcome(scenes, log, living, dead, oldest) && old(Shows(scenes[0])) && Shows(scenes[|log|])
      ensures monitor != null ==>
                monitor.entityLivingPopulation == LivingText(living) &&
                monitor.entityDeadPopulation == DeadText(dead) &&
                monitor.recordedOldestEntity == Max(old(monitor.recordedOldestEntity), oldest) &&
                monitor.oldestLivingEntity == OldestLivingText(oldest) &&
                monitor.oldestEntityEver == OldestEverText(monitor.recordedOldestEntity)
    {
      ghost var start := Look();
      age := age + 1;
      assert Shows(start);
      living, dead, oldest, log, scenes := Sweep(rng, monitor, start);
    }

    /** The part of a tick that runs on the event thread: the scan of the
        grid, then the report to the monitor, if there is one. */
    method Sweep(rng: Random, monitor: LifeMonitor?, ghost start: Scene)
        returns (living: nat, dead: nat, oldest: int, ghost log: seq<Visit>, ghost scenes: seq<Scene>)
      requires Valid() && Shows(start)
      modifies this`Repr, lands, Repr, rng`drawn, monitor
      ensures Valid() && fresh(Repr - old(Repr))
      ensures ScanOutcome(scenes, log, living, dead, oldest) && scenes[0] == start && Shows(scenes[|log|])
      ensures monitor != null ==>
                monitor.entityLivingPopulation == LivingText(living) &&
                monitor.entityDeadPopulation == DeadText(dead) &&
                monitor.recordedOldestEntity == Max(old(monitor.recordedOldestEntity), oldest) &&
                monitor.oldestLivingEntity == OldestLivingText(oldest) &&
                monitor.oldestEntityEver == OldestEverText(monitor.recordedOldestEntity)
    {
      living, dead, oldest, log, scenes := Scan(rng, start);
      label Scanned:
      if monitor != null {
        monitor.ReportEntityPopulation(living, dead);
        monitor.RecordOldestLivingEntity(oldest);
      }
      ShowsKept@Scanned(scenes[|log|]);
    }

    /** The scan of a tick: every land is visited once, x outer and y
        inner, counting the dead and the living entities met and the oldest
        living age, and stepping each living entity met. */
    method Scan(rng: Random, ghost start: Scene)
        returns (living: nat, dead: nat, oldest: int, ghost log: seq<Visit>, ghost scenes: seq<Scene>)
      requires Valid() && Shows(start)
      modifies this`Repr, lands, Repr, rng`drawn
      ensures Valid() && fresh(Repr - old(Repr))
      ensures ScanOutcome(scenes, log, living, dead, oldest) && scenes[0] == start && Shows(scenes[|log|])
    {
      living, dead, oldest, log, scenes := 0, 0, 0, [], [start];
      var x := 0;
      while x < Size
        invariant Valid() && fresh(Repr - old(Repr))
        invariant 0 <= x <= Size && |log| == x * Size
        invariant ScanRecord(scenes, log) && scenes[0] == start && Shows(scenes[|log|])
        invariant living == LivingCount(log) && dead == DeadCount(log) && oldest == Oldest(log)
      {
        ghost var column;
        living, dead, oldest, log, scenes, column := ScanColumn(x, rng, living, dead, oldest, log, scenes);
        x := x + 1;
      }
      forall a, b | 0 <= a < Size && 0 <= b < Size
        ensures log[ScanIndex(Point(a, b))].at == Point(a, b)
      {
        ScanIsBijective(Point(a, b));
        RecordAt(scenes, log, |log|, ScanIndex(Point(a, b)));
      }
      forall k | 0 <= k < Size * Size && Untouched(log, 0, k, ScanPoint(k))
        ensures log[k].seen == scenes[0][ScanPoint(k)]
      {
        FirstSighting(scenes, log, k);
      }
    }

    /** At most one component per land, and an entity on a land is located
        at that land; every entity's location is on the grid, and its colour
        and split colour lie in the blend's clamp range. */
    ghost predicate Valid()
      reads this`Repr, lands, Repr
    {
      lands.Length0 == Size && lands.Length1 == Size &&
      (forall e :: e in Repr ==> InGrid(e.location) && InRange(e.color) && InRange(e.splitColor)) &&
      forall x, y :: 0 <= x < Size && 0 <= y < Size ==>
        |lands[x, y]| <= 1 &&
        forall k :: 0 <= k < |lands[x, y]| && lands[x, y][k].EntityComponent? ==>
          lands[x, y][k].entity in Repr && lands[x, y][k].entity.location == Point(x, y)
    }

    /** A step by `e`, which changes no other entity, changes the sighting
        of no land but its own whose components it left as they were. */
    twostate lemma SightingsKept(e: Entity)
      requires old(Valid()) && Valid() && e in old(Repr)
      requires forall d :: d in old(Repr) && d != e ==> d.age == old(d.age) && d.dead == old(d.dead)
      ensures forall p :: InGrid(p) && p != old(e.location) && lands[p.x, p.y] == old(lands[p.x, p.y]) ==>
                SightingOf(lands[p.x, p.y]) == old(SightingOf(lands[p.x, p.y]))
    {
      forall p | InGrid(p) && p != old(e.location) && lands[p.x, p.y] == old(lands[p.x, p.y])
        ensures SightingOf(lands[p.x, p.y]) == old(SightingOf(lands[p.x, p.y]))
      {
        if old(lands[p.x, p.y]) != [] && old(lands[p.x, p.y])[0].EntityComponent? {
          assert old(lands[p.x, p.y])[0].entity != e;
        }
      }
    }

    /** Scene `s` holds what a visit of each land would find now. */
    ghost predicate Shows(s: Scene)
      requires Valid()
      reads this`Repr, lands, Repr
    {
      IsScene(s) && forall p {:trigger s[p]} :: InGrid(p) ==> s[p] == SightingOf(lands[p.x, p.y])
    }

    /** The scene of the lands as they are now. */
    ghost function Look(): (s: Scene)
      requires Valid()
      reads this`Repr, lands, Repr
      ensures Shows(s)
    {
      imap p | InGrid(p) :: SightingOf(lands[p.x, p.y])
    }

    /** A change that leaves this life, its lands and its entities alone
        keeps it valid and keeps what a scene shows. */
    twostate lemma ShowsKept(s: Scene)
      requires old(Valid()) && old(Shows(s))
      requires unchanged(this) && unchanged(lands) && unchanged(old(Repr))
      ensures Valid() && Shows(s)
    {
    }

    /** Valid depends on the entities only through their locations and colours. */
    twostate lemma ValidKept()
      requires old(Valid()) && unchanged(this) && unchanged(lands)
      requires forall e :: e in old(Repr) ==>
                 e.location == old(e.location) && e.color == old(e.color) && e.splitColor == old(e.splitColor)
      ensures Valid()
    {
    }

    /** Valid survives placing a newly created entity `e` as the only
        component of land `t` when nothing else changes, except that an
        entity may take its split colour as its colour. */
    twostate lemma BornKept(t: Point, new e: Entity)
      requires old(Valid()) && InGrid(t) && e !in old(Repr) && Repr == old(Repr) + {e}
      requires forall d :: d in old(Repr) ==>
                 d.location == old(d.location) && d.splitColor == old(d.splitColor) &&
                 (d.color == old(d.color) || d.color == old(d.splitColor))
      requires e.location == t && lands[t.x, t.y] == [EntityComponent(e)] && InRange(e.color) && InRange(e.splitColor)
      requires forall i, j :: 0 <= i < Size && 0 <= j < Size && !(i == t.x && j == t.y) ==>
                 lands[i, j] == old(lands[i, j])
      ensures Valid()
    {
    }

    /** Valid survives moving entity `e` from its old land to be the only
        component of the land at its new location when nothing else changes. */
    twostate lemma MoveKept(e: Entity)
      requires old(Valid()) && InGrid(e.location) && e in old(Repr) && Repr == old(Repr)
      requires forall d :: d in old(Repr) && d != e ==> d.location == old(d.location)
      requires forall d :: d in old(Repr) ==> InRange(d.color) && InRange(d.splitColor)
      requires var t := e.location; lands[t.x, t.y] == [EntityComponent(e)]
      requires var o := old(e.location); lands[o.x, o.y] == Without(old(lands[o.x, o.y]), e)
      requires forall i, j ::
                 0 <= i < Size && 0 <= j < Size && !(i == e.location.x && j == e.location.y) &&
                 !(i == old(e.location).x && j == old(e.location).y) ==>
                 lands[i, j] == old(lands[i, j])
      ensures Valid()
    {
    }

    /** The land at (x, y), or the out-of-bounds failure. */
    function GetLand(x: int, y: int): (r: Result<Point, string>)
      ensures r.Success? <==> 0 <= x < lands.Length0 && 0 <= y < lands.Length1
      ensures r.Success? ==> r.value == Point(x, y)
      ensures r.Failure? ==> NoLandExists <= r.error
    {
      if x >= lands.Length0 || x < 0 then
        Failure(NoLandExists + " at " + IntToString(x) + ", " + IntToString(y) + "! X-coordinate out of bounds.")
      else if y >= lands.Length1 || y < 0 then
        Failure(NoLandExists + " at " + IntToString(x) + ", " + IntToString(y) + "! Y-coordinate out of bounds.")
      else
        Success(Point(x, y))
    }
  }
}
