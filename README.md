# Life simulation core in Dafny

A model of the per-tick agent lifecycle of a small grid life simulation
written in Java. The pieces are:

- **The grid** (`Life`). A 60 by 60 array of lands. Each land holds the components added to it.
- **Creation.** When the grid is built, every land rolls for a new entity.
- **The tick.** The tick counter goes up. Then a scan with x outer and y inner visits every land. Each living entity met is stepped, and the scan counts the living and the dead entities and the oldest living age.
- **The entities** (`Entity`). Each has an age, food, a dead flag, a location, a colour and a split colour. One step of an entity (`moveEntity`) runs in this order:
  - it ages by one year;
  - it sets aside food for mitosis when it has enough;
  - it rolls for death;
  - it picks a direction;
  - it either moves to the neighbouring land or puts a child there. In both cases the newcomer first eats whatever was on that land. Eating (`consumeEntity`) adds food and blends the victim's colour into the eater's split colour.
- **The monitor** (`LifeMonitor`). It shows the population counts and keeps the all-time oldest age it has been told about.

The modules follow the program:

- **Wrappers** holds `Option` and `Result`.
- **Randomness** holds the random source. `Random` is an oracle stream plus a count of the draws taken, so every sequence of in-range draws is possible, and no distribution is modelled.
- **Text** holds the decimal rendering of integers used in labels and messages.
- **Genetics** holds colours, the blend and a sequence of meals.
- **Geometry** holds the grid, the compass moves and the scan order.
- **Lifecycle** holds the numeric decisions of a step:
  - the death threshold, in integer thousandths;
  - the direction choice;
  - the `CourseOf` a step as a function of the entity's state and the draws.
- **Census** holds the tick's counters over a log of visits, and the chain of spawn rolls of construction.
- **Monitor** holds the class `LifeMonitor`.
- **Simulation** holds the classes `Entity` and `Life`, which refer to each other.

How the state is modelled:

- A land is the sequence of its components. A component is an entity or something else.
- `Life.Valid()` is the invariant every operation keeps:
  - at most one component per land;
  - an entity on a land is located at that land;
  - every entity's location is on the grid;
  - every entity's colour and split colour lie in the blend's clamp range [10, 245].
- A **scene** maps every land to what a visit would find there: a living entity of some age, a corpse, another component, or nothing. `Simulation.Life.Shows` ties a scene to the lands as they are. During a scan the model keeps one scene per visit:
  - visiting a corpse, another component or an empty land keeps the scene;
  - visiting a living entity of age a steps it, and the visit records the step: it stayed, moved onto a neighbour t, or split onto t;
  - staying, its land shows it at age a+1 or its corpse;
  - moving, its land shows nothing and t shows it at age a+1;
  - splitting, its land shows it at age a+1 or its corpse, and t shows the newborn child at age 0;
  - in each of these cases every other land shows what it showed before;
  - each visit finds what the scene before it shows.
- Adding an entity to a land takes it off its old land. This is how a Swing component behaves, since it has one parent at a time. `Without` models it.

Three places where the model follows the code as written:

- **The age guard.** The code's guard against an entity acting twice in one tick ends in an empty statement. A step therefore always ages a live entity by one year. Nothing stops the scan from visiting an entity again after it has moved east or south into a land the scan has not reached yet. The model proves the two facts this rests on:
  - `Geometry.MoveAndScanOrder`: exactly the east and south moves land later in the scan;
  - `Simulation.Life.VisitLand`: after a move, the target land shows the mover, a year older, and after a split it shows the newborn child.
  `Census.MetAgain` puts the two together. A move or split east or south at one visit is followed later by the visit of its target. Unless a living entity on or next to that target steps in between, the later visit finds the mover a year older, or the child.
- **The blue spread.** The blend of the blue channel adds the variation minimum to the red spread a second time, rather than to the blue spread. Blue therefore varies with no minimum, so a blended blue never takes a different victim blue exactly. `Genetics.BlueNeverCopiesVictim` and `Genetics.RedCanCopyVictim` state the contrast.
- **Identifiers.** `lastIdentifier` is an instance field, so every entity's identifier is 1.

## Model

| member | source | states |
|---|---|---|
| Genetics.InitialColor | src/life/Entity.java:92-96 | a new entity's channels are 80 plus a draw below x+y+1, x+1 and y+1, so each lies in [80, 80+x+y], [80, 80+x] and [80, 80+y] |
| Genetics.Spread | src/life/Entity.java:141-147 | the bound of a channel's random offset is never below 1 |
| Genetics.Clamp | src/life/Entity.java:150-151 | a value above 245 becomes 245 and one below 10 becomes 10; in-range values are kept, and the result is always in [10, 245] |
| Genetics.Vary | src/life/Entity.java:140-151 | a blended channel is always in [10, 245] |
| Genetics.VaryOffset | src/life/Entity.java:140-151 | a channel already in [10, 245] moves by less than the spread |
| Genetics.Blend | src/life/Entity.java:139-184 | every channel of a blended split colour is in [10, 245] |
| Genetics.BlendOffsets | src/life/Entity.java:139-179 | red and green move by at most the distance to the victim's channel; blue moves by strictly less than that distance, and not at all when the two blues agree |
| Genetics.BlueNeverCopiesVictim | src/life/Entity.java:168-179 | a blended blue never equals a victim blue that differs from the eater's |
| Genetics.VaryReaches | src/life/Entity.java:140-151 | with the minimum of 1, some draws move a channel exactly onto any in-range target |
| Genetics.RedCanCopyVictim | src/life/Entity.java:139-151 | some draws give the eater's red exactly the victim's red |
| Genetics.Eat | src/life/Entity.java:129-186 | eating an entity adds 3 food and six draws and leaves the split colour in range; eating anything else changes nothing |
| Genetics.FeastFood | src/life/Entity.java:248-252 | draining a land adds 3 food and six draws per entity on it |
| Genetics.FeastColor | src/life/Entity.java:261-265 | after eating at least one entity the split colour is in [10, 245]; eating none leaves it unchanged; a colour in range stays in range |
| Geometry.Neighbour | src/life/Entity.java:227-233 | north is y-1, east x+1, south y+1 and west x-1; the target is one step away from the origin |
| Geometry.ScanPoint | src/life/Life.java:172-174 | position k of the scan is a land of the grid whose scan index is k |
| Geometry.ScanIsBijective | src/life/Life.java:172-174 | every land has a scan position below 3600, and that position's land is that land |
| Geometry.ScanPointInjective | src/life/Life.java:172-174 | no two scan positions visit the same land |
| Geometry.MoveAndScanOrder | src/life/Entity.java:230-233 | a move lands later in the scan if and only if it goes east or south |
| Lifecycle.DeathThreshold | src/life/Entity.java:212-213 | the chance of death in thousandths is never below the base chance of 10 |
| Lifecycle.DeathChanceByAge | src/life/Entity.java:212-214 | an entity dies if and only if roll <= 10 up to age 3, and if and only if roll <= 10 + age - 3 after that |
| Lifecycle.DeathGrowsWithAge | src/life/Entity.java:213-214 | a roll that kills an entity also kills any older one |
| Lifecycle.CertainDeath | src/life/Entity.java:213-214 | from age 993 every roll below 1001 kills |
| Lifecycle.SurvivalPossible | src/life/Entity.java:213-214 | below age 993 some roll spares the entity |
| Lifecycle.Choice | src/life/Entity.java:224 | during mitosis the choice is a direction 1..4; otherwise it is 0..4 |
| Lifecycle.EveryChoicePossible | src/life/Entity.java:224 | every choice in the range can be drawn; staying put cannot be drawn during mitosis |
| Lifecycle.CourseOf | src/life/Entity.java:197-239 | a step halts after one or two draws, or moves or splits onto an in-grid neighbour; it splits if and only if food >= 10 and it does not halt |
| Lifecycle.Heading | src/life/Entity.java:224-239 | after the choice, the step halts if and only if the choice is 0 or its target is off the grid; otherwise it heads to that neighbour, splitting if and only if in mitosis |
| Lifecycle.DeathStopsOnlyWithoutMitosis | src/life/Entity.java:214-220 | a fatal roll ends the step at once if and only if the entity is not in mitosis |
| Lifecycle.MitosisNeverStays | src/life/Entity.java:204-209 | an entity that can split never stays put: it splits or aims off the grid |
| Lifecycle.MoverSurvives | src/life/Entity.java:212-239 | an entity whose step moves it has survived its death roll |
| Lifecycle.WestEdgeHalts | src/life/Entity.java:233-239 | an entity on the west edge that draws west halts after the choice, with no move |
| Census.SceneKept | src/life/Life.java:172-195 | between two points of a scan, a land shows the same in both scenes when no living entity on it or next to it was stepped in between |
| Census.StepChangesLand | src/life/Life.java:189-193 | a visit that meets a living entity changes what its land shows: the entity is a year older, dead or gone |
| Census.FarKept | src/life/Life.java:178-193 | a visit changes no land beyond one step from the visited land |
| Census.MetAgain | src/life/Life.java:172-195 | an entity that moves or splits east or south is met again by the same scan at its target, at a later visit; unless a living entity on or next to the target steps in between, that visit finds the mover a year older, or the newborn child |
| Census.FirstSighting | src/life/Life.java:172-195 | a visit finds its land as it was when the scan started, unless an earlier visit stepped a living entity on or next to that land |
| Census.RecordAt | src/life/Life.java:172-195 | every visit of a scene record is at its scan position, follows a step from the scene before it, and finds what that scene shows |
| Census.ExtendScan | src/life/Life.java:174-195 | a visit at the next scan position that steps from the last scene and finds what it shows extends the record by one |
| Census.CountsCoverOccupied | src/life/Life.java:179-195 | living + dead is the number of visits whose first component was an entity |
| Census.OldestIsMaximum | src/life/Life.java:170-192 | `oldest` is at least 0 and at least every living age met, and it is 0 or one of those ages |
| Census.OldestWithoutLiving | src/life/Life.java:170 | with no living entity met, `oldest` stays 0 |
| Census.NextRoll | src/life/Life.java:82-86 | a land's roll takes one draw, plus three for a new entity's colour when it spawns |
| Census.SpawnsIn | src/life/Life.java:86 | the spawn count never exceeds the number of lands rolled |
| Census.ExtendRolls | src/life/Life.java:75-87 | one more land extends the roll chain by the next draw and counts one more spawn exactly when that roll is below 10 |
| Census.RollChainUnique | src/life/Life.java:75-87 | the draws of construction are determined by the stream and the first draw |
| Census.AfterRollsTotal | src/life/Life.java:75-87 | construction takes one draw per land and three more per spawned entity |
| Monitor.RecordIsRunningMaximum | src/life/LifeMonitor.java:101-104 | repeated recording never lowers the record; the record is at least every reported age and is its start or one of them |
| Monitor.LifeMonitor.constructor | src/life/LifeMonitor.java:35 | the recorded oldest age starts at 0, with blank labels |
| Monitor.LifeMonitor.ReportEntityPopulation | src/life/LifeMonitor.java:89-93 | sets the living label to "Estimated living\n" and the count, and the dead label likewise; nothing else may change |
| Monitor.LifeMonitor.RecordOldestLivingEntity | src/life/LifeMonitor.java:99-107 | the record becomes max(old record, argument) and never decreases; the oldest-living label shows the argument, the oldest-ever label the record |
| Text.NatToString | src/life/LifeMonitor.java:91-92 | a rendered count is a non-empty string of decimal digits with no leading zero |
| Text.IntToStringRoundTrip | src/life/LifeMonitor.java:91-92 | reading a rendered integer back gives the integer |
| Simulation.Without | src/life/Entity.java:267 | what adding an entity elsewhere leaves on its old land: every other component, and not the entity |
| Simulation.SeededGridValid | src/life/Life.java:74-91 | a grid seeded land by land satisfies the grid invariant |
| Simulation.SeedLand | src/life/Life.java:79-87 | a land gets a newborn entity at its own coordinates if and only if its roll below 500 is below 10; no other land changes |
| Simulation.SeedColumn | src/life/Life.java:77-90 | a column of lands is seeded roll by roll, extending the roll chain, the draw count and the spawn count |
| Simulation.SeedGrid | src/life/Life.java:74-91 | every land is seeded from its roll in scan order; `spawned` is the number of rolls below 10, and the draws taken are those of the roll chain |
| Simulation.Entity.constructor | src/life/Entity.java:83-97 | the entity is newborn at (x, y) with identifier 1, and its colour and split colour are the drawn initial colour |
| Simulation.Entity.SetEntityColor | src/life/Entity.java:119-123 | sets both the colour and the split colour |
| Simulation.Entity.VaryChannel | src/life/Entity.java:140-151 | one channel's sign and magnitude draws give exactly Vary's value, taking two draws |
| Simulation.Entity.ConsumeEntity | src/life/Entity.java:129-186 | the eater's food, split colour and draws are exactly one Eat of the consumed component |
| Simulation.Entity.ConsumeOccupants | src/life/Entity.java:248-252 | draining a land, first component first, empties it, leaves every other land alone, and eats exactly the Feast of its old components |
| Simulation.Entity.MoveEntity | src/life/Entity.java:192-291 | a dead entity returns false and nothing changes; otherwise CourseOf of the old state and draws decides the whole new state. A live entity ages by one and dies on the death roll; halting keeps the position, the lands and the colours, with the mitosis food spent; a move goes to the target, eats its old occupants, gains 1 food and leaves the old land; a split leaves a fresh child on the target with the split colour, which has eaten the target's old occupants; it returns true exactly when it moved or split |
| Simulation.Entity.Live | src/life/Entity.java:199-291 | the step of a live entity, with the same outcome by CourseOf as MoveEntity |
| Simulation.Entity.Mature | src/life/Entity.java:200-224 | it ages by one year and sets aside 10 food exactly when it has that much; it dies on the death roll, halts exactly when it dies outside mitosis, and otherwise draws the Choice |
| Simulation.Entity.Act | src/life/Entity.java:225-283 | Heading decides the outcome: halt with nothing changed, a move or a split; it returns true exactly when it moved or split |
| Simulation.Entity.Divide | src/life/Entity.java:243-255 | a fresh child at the target with the parent's old split colour, which eats the Feast of the target's old occupants and becomes the target's only component; the parent's colour becomes its split colour |
| Simulation.Entity.Relocate | src/life/Entity.java:258-269 | the entity gains 1 food, eats the Feast of the target's old occupants, becomes the target's only component, and is removed from its old land |
| Simulation.Life.constructor | src/life/Life.java:74-96 | every land is seeded from its roll: a newborn at its own coordinates if and only if the roll is below 10; the monitor is told the number of spawns and 0 dead |
| Simulation.Life.GetLand | src/life/Life.java:116-126 | succeeds with the land at (x, y) if and only if both coordinates are within the grid; otherwise the message contains "No land exists" |
| Simulation.Life.StepEntity | src/life/Life.java:191-193 | a living entity steps once by CourseOf: it ages by one year, takes draws, and no other entity changes. Staying leaves the lands as they were. Moving onto t empties its land and leaves it, alive, alone on t. Splitting leaves a live newborn at age 0 alone on t. No land but its own and t changes |
| Simulation.Life.StepScene | src/life/Life.java:191-193 | the same step seen in scenes: the new scene follows from the old one as Stepped says for the step CourseOf decides |
| Simulation.Life.VisitLand | src/life/Life.java:176-197 | the visit finds the land's first component as the scene before shows it. A dead entity, another component or an empty land leaves the lands, the entities, the draws and the scene unchanged. A living entity steps once, as in StepScene, and the visit records that step |
| Simulation.Life.ScanVisit | src/life/Life.java:178-195 | one visit at (x, y) extends the visit log and the scene record by that visit; the counters are the extended log's |
| Simulation.Life.ScanColumn | src/life/Life.java:174-203 | column x is visited y from 0 up, extending the visit log and the scene record; the counters are the log's living count, dead count and oldest age |
| Simulation.Life.Scan | src/life/Life.java:168-203 | ScanOutcome: every land is visited once, at its scan position, and every living entity met is stepped, with the scene record following each step; the record starts at the lands before the scan and ends at the lands after it; each visit finds its land as at the start unless a living entity on or next to it stepped earlier; the counters are those of the visit log |
| Simulation.Life.Sweep | src/life/Life.java:166-210 | the scan of Scan, followed by the monitor's report of its living and dead counts and the oldest living age |
| Simulation.Life.Tick | src/life/Life.java:161-210 | the tick counter goes up by one; everything Sweep states holds, with the scene record starting at the lands as they were before the tick |

## Left out

- Swing and AWT layout and painting are not modelled: window and panel setup, sizes, `setBackground` on death and when copying a land's background, and `repaint`. A land is modelled only by the components it holds, so `Land.java` is not part of this model.
- Threading is not modelled: `Thread.sleep`, `SwingUtilities.invokeAndWait` and the self-recursive `run()`. `Simulation.Life.Tick` is one iteration, and `Simulation.Life.Sweep` is the body run through `invokeAndWait`. The global `Life.current()` and `currentMonitor` are passed in as parameters.
- `java.util.Random` is replaced by an oracle stream. Draws are the stream's values reduced below the bound, and no distribution is modelled.
- The death test's floating point is read as integer thousandths. Rounding at exact equality is not modelled.
- `System.err` logging and `printStackTrace` are not modelled. The out-of-bounds exception of `getLand` is a `Failure` result that abandons the action.
- The "Land is null" failure of `getLand` and the `default` branch of the direction switch are not modelled. Both branches are unreachable: every land is created at construction, and the choice drawn is always 0 to 4.
- `Entity.equals` is not modelled. Every identifier is 1, so identity comparison by it is meaningless.
- `isDead` and `getAge` are modelled as `IsDead` and `GetAge`, which only read the fields. They carry no contract of their own.
- Java's 32-bit `int` wrap-around of age, food and the counters is not modelled. Integers are unbounded.
- Simulation.Entity.constructor: it requires coordinates on the grid. The Java program only creates entities there, and for negative coordinates `nextInt` would throw.
- Simulation.Life.constructor: the number of spawns is stated as the number of spawning rolls in the chain `Rolls`, not as the size of the set of occupied lands. The two agree, because each land is seeded from its own roll. The constructor does not state that the entities it creates are fresh.
- Simulation.Life.VisitLand: of a stepped entity it states its new age, the draws taken and the scene change of its step. Food and colours are left to the contract of `Simulation.Entity.MoveEntity`, of which this is one call.
- Simulation.Life.StepEntity: it requires the entity to be alone on its land. The scan only steps the first component of a land, and the grid invariant allows at most one.
- Simulation.Life.Scan: a scene records only what a visit would find on each land, not the food or colours of the entities there. The lands after the scan are stated as the last scene, not as a function of the lands before it, because each step depends on every earlier step of the same scan.
