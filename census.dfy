/** What a tick's scan and the initial spawning count: the number of living
    and dead entities met, the oldest living age, and the entities spawned.
    A tick's scan is recorded as a log of visits, one per land in scan order. */
module Census {
  import opened Randomness
  import opened Geometry

  /** What a visit found as the land's first component. */
  datatype Sighting = Vacant | NotEntity | Corpse | Living(age: int)

  /** What a visit did with the living entity it met: the entity stayed on
      its land, moved onto the neighbouring land `target`, or put a child
      there. A visit that met anything else is `Still`. */
  datatype Step = Still | MovedTo(target: Point) | SplitTo(target: Point)

  datatype Visit = Visit(at: Point, seen: Sighting, step: Step)

  /** Living entities met: the scan's `living` counter. */
  function LivingCount(log: seq<Visit>): nat
  {
    if log == [] then 0
    else LivingCount(log[..|log| - 1]) + (if log[|log| - 1].seen.Living? then 1 else 0)
  }

  /** Dead entities met: the scan's `dead` counter. */
  function DeadCount(log: seq<Visit>): nat
  {
    if log == [] then 0
    else DeadCount(log[..|log| - 1]) + (if log[|log| - 1].seen.Corpse? then 1 else 0)
  }

  /** The scan's `oldest`: 0 to start with, raised by every older living entity met. */
  function Oldest(log: seq<Visit>): int
  {
    if log == [] then 0
    else
      var before := Oldest(log[..|log| - 1]);
      var last := log[|log| - 1].seen;
      if last.Living? && last.age > before then last.age else before
  }

  /** Visits that found an entity, living or dead, as first component. */
  function Occupied(log: seq<Visit>): nat
  {
    |set k | 0 <= k < |log| && (log[k].seen.Living? || log[k].seen.Corpse?)|
  }

  lemma {:induction false} OccupiedSnoc(log: seq<Visit>, v: Visit)
    ensures Occupied(log + [v]) == Occupied(log) + (if v.seen.Living? || v.seen.Corpse? then 1 else 0)
  {
    var full := log + [v];
    var inner := set k | 0 <= k < |log| && (log[k].seen.Living? || log[k].seen.Corpse?);
    var outer := set k | 0 <= k < |full| && (full[k].seen.Living? || full[k].seen.Corpse?);
    assert outer == inner + (if v.seen.Living? || v.seen.Corpse? then {|log|} else {});
  }

  /** Every entity met is counted once, as living or as dead. */
  lemma {:induction false} CountsCoverOccupied(log: seq<Visit>)
    ensures LivingCount(log) + DeadCount(log) == Occupied(log)
    decreases |log|
  {
    if log != [] {
      var front := log[..|log| - 1];
      CountsCoverOccupied(front);
      OccupiedSnoc(front, log[|log| - 1]);
      assert front + [log[|log| - 1]] == log;
    }
  }

  /** `oldest` is at least every living age met and at least 0, and it is 0
      or the age of some living entity met. */
  lemma {:induction false} OldestIsMaximum(log: seq<Visit>)
    ensures Oldest(log) >= 0
    ensures forall k :: 0 <= k < |log| && log[k].seen.Living? ==> log[k].seen.age <= Oldest(log)
    ensures Oldest(log) == 0 || exists k :: 0 <= k < |log| && log[k].seen.Living? && log[k].seen.age == Oldest(log)
    decreases |log|
  {
    if log != [] {
      var front := log[..|log| - 1];
      OldestIsMaximum(front);
      assert forall k :: 0 <= k < |front| ==> front[k] == log[k];
      if Oldest(log) != Oldest(front) {
        assert log[|log| - 1].seen.Living? && log[|log| - 1].seen.age == Oldest(log);
      }
    }
  }

  /** With no living entity met, `oldest` stays 0. */
  lemma {:induction false} OldestWithoutLiving(log: seq<Visit>)
    requires LivingCount(log) == 0
    ensures Oldest(log) == 0
    decreases |log|
  {
    if log != [] {
      OldestWithoutLiving(log[..|log| - 1]);
    }
  }

  /** What a visit of each land would find at one moment. */
  type Scene = imap<Point, Sighting>

  ghost predicate IsScene(s: Scene) {
    forall p :: InGrid(p) ==> p in s
  }

  /** Two different lands one step apart. */
  predicate Adjacent(p: Point, t: Point) {
    Near(p, t) && p != t
  }

  /** Every land but `p` and `t` shows in `after` what it showed in `before`. */
  ghost predicate KeptBut(before: Scene, after: Scene, p: Point, t: Point)
    requires IsScene(before) && IsScene(after)
  {
    forall q {:trigger after[q]} :: InGrid(q) && q != p && q != t ==> after[q] == before[q]
  }

  /** The scene after the living entity of age `a` on land `p` takes `step`:
      - staying, `p` shows it a year older, or its corpse;
      - moving onto the neighbour `t`, `p` is empty and `t` shows it a year older;
      - splitting onto the neighbour `t`, `p` shows it a year older or its
        corpse, and `t` shows the newborn child;
      and every other land shows what it showed before. */
  ghost predicate Stepped(before: Scene, after: Scene, p: Point, a: int, step: Step)
    requires IsScene(before) && IsScene(after) && InGrid(p)
  {
    match step
    case Still =>
      (after[p] == Living(a + 1) || after[p] == Corpse) && KeptBut(before, after, p, p)
    case MovedTo(t) =>
      InGrid(t) && Adjacent(p, t) && after[p] == Vacant && after[t] == Living(a + 1) &&
      KeptBut(before, after, p, t)
    case SplitTo(t) =>
      InGrid(t) && Adjacent(p, t) && (after[p] == Living(a + 1) || after[p] == Corpse) &&
      after[t] == Living(0) && KeptBut(before, after, p, t)
  }

  /** What one visit does to the scene: a visit that meets a living entity
      steps it, as Stepped says; any other visit changes nothing. */
  ghost predicate VisitStep(before: Scene, after: Scene, v: Visit) {
    IsScene(before) && IsScene(after) && InGrid(v.at) &&
    if v.seen.Living? then Stepped(before, after, v.at, v.seen.age, v.step)
    else v.step == Still && after == before
  }

  /** A visit changes no land beyond the reach of a step from the visited land. */
  lemma FarKept(before: Scene, after: Scene, v: Visit, q: Point)
    requires VisitStep(before, after, v) && InGrid(q) && !(v.seen.Living? && Near(q, v.at))
    ensures after[q] == before[q]
  {
    if v.seen.Living? && !v.step.Still? {
      var t := v.step.target;
      assert Near(t, v.at);
    }
  }

  /** A visit that meets a living entity changes what its land shows: the
      entity is a year older, dead, or gone. */
  lemma StepChangesLand(before: Scene, after: Scene, v: Visit)
    requires VisitStep(before, after, v) && v.seen.Living? && v.seen == before[v.at]
    ensures after[v.at] != before[v.at]
  {
  }

  /** `scenes` are the scenes before each visit of `log` and after the
      last one; visit k is of the k-th land of the scan and finds what the
      scene before it shows there. */
  ghost predicate ScanRecord(scenes: seq<Scene>, log: seq<Visit>) {
    |scenes| == |log| + 1 && |log| <= Size * Size && IsScene(scenes[0]) && Recorded(scenes, log, |log|)
  }

  /** The first n visits of `log` are as ScanRecord says. */
  ghost predicate Recorded(scenes: seq<Scene>, log: seq<Visit>, n: nat)
    requires n <= |log| && |scenes| == |log| + 1
  {
    n == 0 ||
    (Recorded(scenes, log, n - 1) && Logged(scenes, log, n - 1))
  }

  /** Visit k of `log` is of the k-th land of the scan, changes what
      VisitStep allows, and finds what the scene before it shows. */
  ghost predicate Logged(scenes: seq<Scene>, log: seq<Visit>, k: nat)
    requires k < |log| && |scenes| == |log| + 1
  {
    k < Size * Size && log[k].at == ScanPoint(k) && VisitStep(scenes[k], scenes[k + 1], log[k]) &&
    log[k].seen == scenes[k][log[k].at]
  }

  /** What the record says of its k-th visit. */
  lemma {:induction false} RecordAt(scenes: seq<Scene>, log: seq<Visit>, n: nat, k: nat)
    requires n <= |log| && |scenes| == |log| + 1 && Recorded(scenes, log, n) && k < n
    ensures Logged(scenes, log, k)
  {
    if k < n - 1 {
      RecordAt(scenes, log, n - 1, k);
    }
  }

  /** Appending to the log and the scenes keeps the record of what was
      there. */
  lemma {:induction false} RecordedKept(scenes: seq<Scene>, log: seq<Visit>, after: Scene, v: Visit, n: nat)
    requires n <= |log| && |scenes| == |log| + 1 && Recorded(scenes, log, n)
    ensures Recorded(scenes + [after], log + [v], n)
  {
    if n > 0 {
      RecordedKept(scenes, log, after, v, n - 1);
      var scenes', log' := scenes + [after], log + [v];
      assert scenes'[n - 1] == scenes[n - 1] && scenes'[n] == scenes[n] && log'[n - 1] == log[n - 1];
    }
  }

  /** One more visit, of the next land, extends the record. */
  lemma ExtendScan(scenes: seq<Scene>, log: seq<Visit>, after: Scene, v: Visit)
    requires ScanRecord(scenes, log) && |log| < Size * Size
    requires v.at == ScanPoint(|log|) && VisitStep(scenes[|log|], after, v) && v.seen == scenes[|log|][v.at]
    ensures ScanRecord(scenes + [after], log + [v])
  {
    RecordedKept(scenes, log, after, v, |log|);
    assert Logged(scenes + [after], log + [v], |log|);
  }

  /** No visit from i up to j met a living entity on or next to land q. */
  ghost predicate Untouched(log: seq<Visit>, i: int, j: int, q: Point)
    requires 0 <= i <= j <= |log|
  {
    forall m :: i <= m < j ==> !(log[m].seen.Living? && Near(q, log[m].at))
  }

  /** Land q looks the same in every scene of a stretch of visits that met
      no living entity on or next to it. */
  lemma {:induction false} SceneKept(scenes: seq<Scene>, log: seq<Visit>, i: int, j: int, q: Point)
    requires ScanRecord(scenes, log) && 0 <= i <= j <= |log| && InGrid(q) && Untouched(log, i, j, q)
    ensures IsScene(scenes[i]) && IsScene(scenes[j]) && scenes[j][q] == scenes[i][q]
    decreases j - i
  {
    if i < j {
      RecordAt(scenes, log, |log|, i);
      FarKept(scenes[i], scenes[i + 1], log[i], q);
      SceneKept(scenes, log, i + 1, j, q);
    } else if i > 0 {
      RecordAt(scenes, log, |log|, i - 1);
    }
  }

  /** A land no earlier visit touched is found as it was when the scan
      started. */
  lemma FirstSighting(scenes: seq<Scene>, log: seq<Visit>, k: nat)
    requires ScanRecord(scenes, log) && k < |log| && Untouched(log, 0, k, ScanPoint(k))
    ensures log[k].seen == scenes[0][ScanPoint(k)]
  {
    RecordAt(scenes, log, |log|, k);
    SceneKept(scenes, log, 0, k, ScanPoint(k));
  }

  /** What a whole scan records: a visit of every land in scan order, each
      scene following from the one before as VisitStep says, every land
      found as it was at the start unless a living entity on or next to it
      stepped earlier, and the counters taken over those visits. */
  ghost predicate ScanOutcome(scenes: seq<Scene>, log: seq<Visit>, living: nat, dead: nat, oldest: int)
  {
    && |log| == Size * Size
    && (forall a, b :: 0 <= a < Size && 0 <= b < Size ==> log[ScanIndex(Point(a, b))].at == Point(a, b))
    && ScanRecord(scenes, log)
    && (forall k {:trigger log[k]} :: 0 <= k < Size * Size && Untouched(log, 0, k, ScanPoint(k)) ==>
          log[k].seen == scenes[0][ScanPoint(k)])
    && living == LivingCount(log) && dead == DeadCount(log) && oldest == Oldest(log)
  }

  /** An entity that moves or splits east or south at visit j is met again
      by the same scan: its target's visit comes later, and unless a living
      entity on or next to the target steps in between, that visit finds
      the mover a year older, or the newborn child. */
  lemma MetAgain(scenes: seq<Scene>, log: seq<Visit>, j: nat, direction: int)
    requires ScanRecord(scenes, log) && |log| == Size * Size && j < |log| && log[j].seen.Living?
    requires direction == East || direction == South
    requires log[j].step == MovedTo(Neighbour(log[j].at, direction)) ||
             log[j].step == SplitTo(Neighbour(log[j].at, direction))
    ensures var k := ScanIndex(Neighbour(log[j].at, direction));
            j < k < |log| &&
            (Untouched(log, j + 1, k, ScanPoint(k)) ==>
               log[k].seen == if log[j].step.MovedTo? then Living(log[j].seen.age + 1) else Living(0))
  {
    RecordAt(scenes, log, |log|, j);
    var t := Neighbour(log[j].at, direction);
    var k := ScanIndex(t);
    MoveAndScanOrder(log[j].at, direction);
    ScanIsBijective(t);
    if Untouched(log, j + 1, k, ScanPoint(k)) {
      RecordAt(scenes, log, |log|, k);
      SceneKept(scenes, log, j + 1, k, t);
    }
  }

  /** A land gets an entity at start when its roll, below SpawnRollBound,
      comes out below SpawnChance. */
  const SpawnRollBound := 500
  const SpawnChance := 10
  /** Draws a new entity takes for its initial colour. */
  const DrawsPerBirth := 3

  predicate Spawns(stream: nat -> nat, k: nat) {
    IntAt(stream, k, SpawnRollBound) < SpawnChance
  }

  /** The draw after a land's spawn roll at draw k: one for the roll, and
      DrawsPerBirth more for the colour of a new entity if it spawned. */
  function NextRoll(stream: nat -> nat, k: nat): (n: nat)
    ensures Spawns(stream, k) ==> n == k + 1 + DrawsPerBirth
    ensures !Spawns(stream, k) ==> n == k + 1
  {
    k + 1 + (if Spawns(stream, k) then DrawsPerBirth else 0)
  }

  /** `rolls` are the draws of the spawn rolls of consecutive lands of the
      construction scan, the first at draw k. */
  predicate IsRollChain(stream: nat -> nat, k: nat, rolls: seq<nat>)
  {
    (|rolls| > 0 ==> rolls[0] == k) &&
    forall b :: 0 < b < |rolls| ==> rolls[b] == NextRoll(stream, rolls[b - 1])
  }

  /** The draw after the spawn rolls `rolls` that started at draw k. */
  function AfterRolls(stream: nat -> nat, k: nat, rolls: seq<nat>): nat
  {
    if rolls == [] then k else NextRoll(stream, rolls[|rolls| - 1])
  }

  /** How many of the spawn rolls `rolls` spawn. */
  function SpawnsIn(stream: nat -> nat, rolls: seq<nat>): (n: nat)
    ensures n <= |rolls|
  {
    if rolls == [] then 0
    else SpawnsIn(stream, rolls[..|rolls| - 1]) + (if Spawns(stream, rolls[|rolls| - 1]) then 1 else 0)
  }

  /** One more land of the construction scan extends the chain by the draw
      after it and counts one more spawn if that roll spawns. */
  lemma ExtendRolls(stream: nat -> nat, k: nat, rolls: seq<nat>)
    requires IsRollChain(stream, k, rolls)
    ensures var d := AfterRolls(stream, k, rolls);
            IsRollChain(stream, k, rolls + [d]) && AfterRolls(stream, k, rolls + [d]) == NextRoll(stream, d) &&
            SpawnsIn(stream, rolls + [d]) == SpawnsIn(stream, rolls) + (if Spawns(stream, d) then 1 else 0)
  {
    var d := AfterRolls(stream, k, rolls);
    assert (rolls + [d])[..|rolls|] == rolls;
  }

  /** The draws of the construction scan are determined by the stream and
      the draw it starts at. */
  lemma {:induction false} RollChainUnique(stream: nat -> nat, k: nat, r1: seq<nat>, r2: seq<nat>)
    requires IsRollChain(stream, k, r1) && IsRollChain(stream, k, r2) && |r1| == |r2|
    ensures r1 == r2
  {
    if r1 != [] {
      var n := |r1| - 1;
      assert IsRollChain(stream, k, r1[..n]) && IsRollChain(stream, k, r2[..n]);
      RollChainUnique(stream, k, r1[..n], r2[..n]);
      if n > 0 {
        assert r1[n - 1] == r1[..n][n - 1] && r2[n - 1] == r2[..n][n - 1];
      }
      assert r1 == r1[..n] + [r1[n]] && r2 == r2[..n] + [r2[n]];
    }
  }

  /** The construction scan takes one draw per land and three more per
      spawn. */
  lemma {:induction false} AfterRollsTotal(stream: nat -> nat, k: nat, rolls: seq<nat>)
    requires IsRollChain(stream, k, rolls)
    ensures AfterRolls(stream, k, rolls) == k + |rolls| + DrawsPerBirth * SpawnsIn(stream, rolls)
  {
    if rolls != [] {
      var n := |rolls| - 1;
      var init := rolls[..n];
      assert IsRollChain(stream, k, init);
      AfterRollsTotal(stream, k, init);
      if n > 0 {
        assert rolls[n] == NextRoll(stream, init[n - 1]);
      }
    }
  }
}
