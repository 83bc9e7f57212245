/** Colour genetics of an entity: its initial colour, and how consuming
    another entity blends the victim's colour into the consumer's split
    colour (`Entity.consumeEntity`). */
module Genetics {
  import opened Wrappers
  import opened Randomness
  import opened Geometry

  /** Smallest spread of the random colour variation (VARIATION_RANGE_MINIMUM). */
  const VariationRangeMinimum := 1
  /** A blended channel is kept within [ChannelFloor, ChannelCeiling]. */
  const ChannelFloor := 10
  const ChannelCeiling := 245
  /** Food gained by consuming an entity. */
  const FoodPerMeal := 3
  /** Draws taken by one consumption: a sign and a magnitude per channel. */
  const DrawsPerMeal := 6

  /** One channel of a java.awt.Color, which rejects values outside [0, 255]. */
  type Channel = c: int | 0 <= c <= 255

  datatype Color = Color(red: Channel, green: Channel, blue: Channel)

  /** Every channel lies in the blend's clamp range. */
  predicate InRange(c: Color) {
    ChannelFloor <= c.red <= ChannelCeiling &&
    ChannelFloor <= c.green <= ChannelCeiling &&
    ChannelFloor <= c.blue <= ChannelCeiling
  }

  /** The colour a new entity at (x, y) starts with: 80 plus draws below
      x + y + 1, x + 1 and y + 1, in that order. */
  function InitialColor(x: nat, y: nat, stream: nat -> nat, p: nat): (c: Color)
    requires x + y <= 175
    ensures 80 <= c.red <= 80 + x + y
    ensures 80 <= c.green <= 80 + x
    ensures 80 <= c.blue <= 80 + y
  {
    Color(80 + IntAt(stream, p, x + y + 1),
          80 + IntAt(stream, p + 1, x + 1),
          80 + IntAt(stream, p + 2, y + 1))
  }

  /** The exclusive bound of a channel's random offset: the distance between
      the two channel values plus `minimum`, and 1 if that is 0. */
  function Spread(own: Channel, other: Channel, minimum: nat): (d: int)
    ensures d >= 1
  {
    var delta := Abs(other - own) + minimum;
    if delta == 0 then 1 else delta
  }

  /** Above 245 becomes 245, otherwise below 10 becomes 10. */
  function Clamp(v: int): (c: Channel)
    ensures ChannelFloor <= c <= ChannelCeiling
    ensures ChannelFloor <= v <= ChannelCeiling ==> c == v
    ensures v > ChannelCeiling ==> c == ChannelCeiling
    ensures v < ChannelFloor ==> c == ChannelFloor
  {
    if v > ChannelCeiling then ChannelCeiling
    else if v < ChannelFloor then ChannelFloor
    else v
  }

  /** A channel moved by a magnitude with a sign, then clamped. */
  function Shift(own: Channel, negative: bool, magnitude: int): Channel {
    Clamp(own + magnitude * (if negative then -1 else 1))
  }

  /** One channel of a blend with draws k and k + 1: a random sign, then a
      random magnitude below the spread between `own` and `other`. */
  function Vary(own: Channel, other: Channel, minimum: nat, stream: nat -> nat, k: nat): (v: Channel)
    ensures ChannelFloor <= v <= ChannelCeiling
  {
    Shift(own, BoolAt(stream, k), IntAt(stream, k + 1, Spread(own, other, minimum)))
  }

  /** A channel in the clamp range moves by less than the spread. */
  lemma VaryOffset(own: Channel, other: Channel, minimum: nat, stream: nat -> nat, k: nat)
    requires ChannelFloor <= own <= ChannelCeiling
    ensures Abs(Vary(own, other, minimum, stream, k) - own) < Spread(own, other, minimum)
  {
  }

  /** The consumer's split colour after blending in `victim`, with draws
      k .. k + 5: sign and magnitude for red, then green, then blue.
      The blue spread has no minimum: `consumeEntity` adds the minimum to the red
      spread a second time where the blue spread was meant. */
  function Blend(split: Color, victim: Color, stream: nat -> nat, k: nat): (c: Color)
    ensures InRange(c)
  {
    Color(Vary(split.red, victim.red, VariationRangeMinimum, stream, k),
          Vary(split.green, victim.green, VariationRangeMinimum, stream, k + 2),
          Vary(split.blue, victim.blue, 0, stream, k + 4))
  }

  /** Red and green move by at most the distance to the victim's channel,
      blue by at most one less (and not at all when the two blues agree). */
  lemma BlendOffsets(split: Color, victim: Color, stream: nat -> nat, k: nat)
    requires InRange(split)
    ensures var c := Blend(split, victim, stream, k);
      Abs(c.red - split.red) <= Abs(victim.red - split.red) &&
      Abs(c.green - split.green) <= Abs(victim.green - split.green) &&
      (victim.blue != split.blue ==> Abs(c.blue - split.blue) < Abs(victim.blue - split.blue)) &&
      (victim.blue == split.blue ==> c.blue == split.blue)
  {
    VaryOffset(split.red, victim.red, VariationRangeMinimum, stream, k);
    VaryOffset(split.green, victim.green, VariationRangeMinimum, stream, k + 2);
    VaryOffset(split.blue, victim.blue, 0, stream, k + 4);
  }

  /** Because of the blue spread, a consumer's blue never takes the
      victim's blue when the two differ, whereas red can (lemma below). */
  lemma BlueNeverCopiesVictim(split: Color, victim: Color, stream: nat -> nat, k: nat)
    requires InRange(split) && victim.blue != split.blue
    ensures Blend(split, victim, stream, k).blue != victim.blue
  {
    BlendOffsets(split, victim, stream, k);
  }

  /** Draws that move `own` straight onto `other`: at draw k the sign
      towards it, then the distance as the magnitude. */
  function Towards(own: Channel, other: Channel, k: nat): nat -> nat
  {
    var distance := Abs(other - own);
    i => if i == k then (if other < own then 1 else 0) else distance
  }

  /** With a spread minimum of at least one, a channel can land exactly on
      the other channel when that is in the clamp range. */
  lemma VaryReaches(own: Channel, other: Channel, minimum: nat, k: nat)
    requires ChannelFloor <= other <= ChannelCeiling && minimum == VariationRangeMinimum
    ensures Vary(own, other, minimum, Towards(own, other, k), k) == other
  {
    var stream := Towards(own, other, k);
    var distance := Abs(other - own);
    assert Spread(own, other, minimum) == distance + 1;
    assert BoolAt(stream, k) == (other < own);
    DrawInRange(stream, k + 1, distance + 1);
  }

  /** Some draws give the consumer's red exactly the victim's red. */
  lemma RedCanCopyVictim(split: Color, victim: Color, k: nat)
    requires ChannelFloor <= victim.red <= ChannelCeiling
    ensures exists stream: nat -> nat :: Blend(split, victim, stream, k).red == victim.red
  {
    var stream := Towards(split.red, victim.red, k);
    VaryReaches(split.red, victim.red, VariationRangeMinimum, k);
    assert Blend(split, victim, stream, k).red == victim.red;
  }

  /** What a consumer carries through a sequence of meals: its food, its
      split colour and the number of draws taken so far. */
  datatype Meal = Meal(food: int, split: Color, drawn: nat)

  /** One consumption: an entity (Some colour) adds FoodPerMeal and is
      blended in; anything that is not an entity (None) changes nothing. */
  function Eat(m: Meal, prey: Option<Color>, stream: nat -> nat): (r: Meal)
    ensures prey.None? ==> r == m
    ensures prey.Some? ==> r.food == m.food + FoodPerMeal && r.drawn == m.drawn + DrawsPerMeal && InRange(r.split)
  {
    match prey
    case None => m
    case Some(victim) => Meal(m.food + FoodPerMeal, Blend(m.split, victim, stream, m.drawn), m.drawn + DrawsPerMeal)
  }

  /** Consuming a land's occupants one after the other, first one first. */
  function Feast(m: Meal, prey: seq<Option<Color>>, stream: nat -> nat): Meal
    decreases |prey|
  {
    if prey == [] then m else Feast(Eat(m, prey[0], stream), prey[1..], stream)
  }

  /** The number of entities among a land's occupants. */
  function EntityCount(prey: seq<Option<Color>>): nat
    decreases |prey|
  {
    if prey == [] then 0 else (if prey[0].Some? then 1 else 0) + EntityCount(prey[1..])
  }

  /** A feast adds FoodPerMeal per entity eaten and takes six draws per entity. */
  lemma {:induction false} FeastFood(m: Meal, prey: seq<Option<Color>>, stream: nat -> nat)
    ensures Feast(m, prey, stream).food == m.food + FoodPerMeal * EntityCount(prey)
    ensures Feast(m, prey, stream).drawn == m.drawn + DrawsPerMeal * EntityCount(prey)
    decreases |prey|
  {
    if prey != [] {
      FeastFood(Eat(m, prey[0], stream), prey[1..], stream);
    }
  }

  /** After eating at least one entity the split colour is within the clamp
      range; eating no entity leaves it as it was. */
  lemma {:induction false} FeastColor(m: Meal, prey: seq<Option<Color>>, stream: nat -> nat)
    ensures EntityCount(prey) > 0 ==> InRange(Feast(m, prey, stream).split)
    ensures EntityCount(prey) == 0 ==> Feast(m, prey, stream).split == m.split
    ensures InRange(m.split) ==> InRange(Feast(m, prey, stream).split)
    decreases |prey|
  {
    if prey != [] {
      FeastColor(Eat(m, prey[0], stream), prey[1..], stream);
    }
  }
}
