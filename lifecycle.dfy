/** The decisions of one entity step (`Entity.moveEntity`) that depend only
    on numbers: when mitosis fires, when the entity dies, where it heads. */
module Lifecycle {
  import opened Randomness
  import opened Geometry

  /** Food needed to split into two entities. */
  const FoodForMitosis := 10
  /** Age up to which the chance of death stays at its base value. */
  const PeriodOfGrowth := 3
  /** Base chance of death, in thousandths (0.01). */
  const ChanceOfDeath := 10
  /** The death roll is `nextInt(1001)`, read as thousandths in [0, 1]. */
  const DeathRollBound := 1001
  /** Food gained by moving onto a new land. */
  const FoodPerMove := 1

  /** The chance of death at `age`, in thousandths: the base chance plus one
      thousandth per year beyond the period of growth. */
  function DeathThreshold(age: int): (t: int)
    ensures t >= ChanceOfDeath
  {
    ChanceOfDeath + (if age > PeriodOfGrowth then age - PeriodOfGrowth else 0)
  }

  /** A roll of `roll` thousandths kills an entity of age `age`. */
  predicate Dies(age: int, roll: int) {
    roll <= DeathThreshold(age)
  }

  /** The older an entity, the more rolls kill it. */
  lemma DeathGrowsWithAge(younger: int, older: int, roll: int)
    requires younger <= older && Dies(younger, roll)
    ensures Dies(older, roll)
  {
  }

  /** From age 993 on every roll kills. */
  lemma CertainDeath(age: int, stream: nat -> nat, k: nat)
    requires age >= DeathRollBound - 1 - ChanceOfDeath + PeriodOfGrowth
    ensures Dies(age, IntAt(stream, k, DeathRollBound))
  {
  }

  /** Below age 993 some roll spares the entity. */
  lemma SurvivalPossible(age: int, k: nat)
    requires age < DeathRollBound - 1 - ChanceOfDeath + PeriodOfGrowth
    ensures exists stream: nat -> nat :: !Dies(age, IntAt(stream, k, DeathRollBound))
  {
    AnyDrawPossible(k, DeathRollBound, DeathRollBound - 1);
    var highest: nat -> nat :| IntAt(highest, k, DeathRollBound) == DeathRollBound - 1;
    assert !Dies(age, IntAt(highest, k, DeathRollBound));
  }

  /** The action drawn at the k-th draw: during mitosis one of the four
      directions (`nextInt(4) + 1`), otherwise stay (0) or a direction
      (`nextInt(5)`). */
  function Choice(mitosis: bool, stream: nat -> nat, k: nat): (c: int)
    ensures mitosis ==> 1 <= c <= 4
    ensures !mitosis ==> 0 <= c <= 4
  {
    if mitosis then IntAt(stream, k, 4) + 1 else IntAt(stream, k, 5)
  }

  /** Every action in the range is drawn by some stream: staying put is
      possible except during mitosis. */
  lemma EveryChoicePossible(mitosis: bool, k: nat, c: int)
    requires if mitosis then 1 <= c <= 4 else 0 <= c <= 4
    ensures exists stream: nat -> nat :: Choice(mitosis, stream, k) == c
  {
    var bound := if mitosis then 4 else 5;
    AnyDrawPossible(k, bound, if mitosis then c - 1 else c);
    var chosen: nat -> nat :| IntAt(chosen, k, bound) == (if mitosis then c - 1 else c);
    assert Choice(mitosis, chosen, k) == c;
  }

  /** Young entities die exactly on the base chance; older ones on one more
      thousandth per year past the period of growth. */
  lemma DeathChanceByAge(age: int, roll: int)
    ensures age <= PeriodOfGrowth ==> (Dies(age, roll) <==> roll <= ChanceOfDeath)
    ensures age > PeriodOfGrowth ==> (Dies(age, roll) <==> roll <= ChanceOfDeath + age - PeriodOfGrowth)
  {
  }

  /** How a live entity's step ends, decided from its age, food and location
      at the start of the step and the draws from the k-th on:
      Halt after `drawn` draws with no move (death outside mitosis, staying
      put, or a target off the grid), or a move or a split onto `target`,
      both after the death roll and the choice. */
  datatype Course = Halt(drawn: nat) | Move(target: Point) | Split(target: Point)

  function CourseOf(age: int, food: int, location: Point, stream: nat -> nat, k: nat): (c: Course)
    ensures c.Halt? ==> k < c.drawn <= k + 2
    ensures c.Move? || c.Split? ==> InGrid(c.target) && Abs(c.target.x - location.x) + Abs(c.target.y - location.y) == 1
    ensures c.Split? <==> food >= FoodForMitosis && !c.Halt?
  {
    var mitosis := food >= FoodForMitosis;
    if Dies(age + 1, IntAt(stream, k, DeathRollBound)) && !mitosis then Halt(k + 1)
    else Heading(mitosis, location, Choice(mitosis, stream, k + 1), k + 2)
  }

  /** The part of a step after the draws: the land `choice` points to, if
      there is a direction and it is on the grid; `drawn` is the draw
      count to report when the step halts. */
  function Heading(mitosis: bool, location: Point, choice: int, drawn: nat): (c: Course)
    requires 0 <= choice <= 4
    ensures c.Halt? <==> choice == 0 || !InGrid(Neighbour(location, choice))
    ensures c.Halt? ==> c.drawn == drawn
    ensures !c.Halt? ==> c.target == Neighbour(location, choice) && InGrid(c.target)
    ensures c.Split? <==> mitosis && !c.Halt?
  {
    if choice == 0 then Halt(drawn)
    else
      var target := Neighbour(location, choice);
      if !InGrid(target) then Halt(drawn)
      else if mitosis then Split(target)
      else Move(target)
  }

  /** Death ends a step at once only outside mitosis: an entity that has the
      food to split still splits, or heads off the grid, in the step that
      kills it. */
  lemma DeathStopsOnlyWithoutMitosis(age: int, food: int, location: Point, stream: nat -> nat, k: nat)
    requires Dies(age + 1, IntAt(stream, k, DeathRollBound))
    ensures food < FoodForMitosis <==> CourseOf(age, food, location, stream, k) == Halt(k + 1)
  {
  }

  /** An entity that moves has survived its death roll: a fatal roll ends
      the step outside mitosis, and in mitosis the step splits instead. */
  lemma MoverSurvives(age: int, food: int, location: Point, stream: nat -> nat, k: nat)
    requires CourseOf(age, food, location, stream, k).Move?
    ensures !Dies(age + 1, IntAt(stream, k, DeathRollBound))
  {
  }

  /** An entity able to split never stays put: its step either splits or
      aims off the grid. */
  lemma MitosisNeverStays(age: int, food: int, location: Point, stream: nat -> nat, k: nat)
    requires food >= FoodForMitosis
    ensures var c := CourseOf(age, food, location, stream, k);
      c.Split? || (c == Halt(k + 2) && !InGrid(Neighbour(location, Choice(true, stream, k + 1))))
  {
  }

  /** An entity on the west edge that draws "west" halts after the choice,
      with no move and no error. */
  lemma WestEdgeHalts(age: int, food: int, y: int, stream: nat -> nat, k: nat)
    requires !Dies(age + 1, IntAt(stream, k, DeathRollBound)) || food >= FoodForMitosis
    requires Choice(food >= FoodForMitosis, stream, k + 1) == West
    ensures CourseOf(age, food, Point(0, y), stream, k) == Halt(k + 2)
  {
  }
}
