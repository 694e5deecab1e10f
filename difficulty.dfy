/**
 * The difficulty manager: on every score change it tests the score against
 * four thresholds, independently, and for each test that passes it asks a
 * collaborator for one effect. The collaborators (the train controller and
 * the objects spawner) are reduced to the counters those effects change; a
 * collaborator the scene lookup did not find is `None`.
 */
module Difficulty {
  import opened Wrappers
  import opened Numerics

  /** The inspector settings: four thresholds and the speed step. */
  datatype Config = Config(
    speedIncreaseThreshold: int32,
    spawnRateIncreaseThreshold: int32,
    spawnAmountIncreaseThreshold: int32,
    enemySpawnThreshold: int32,
    speedIncreaseAmount: int32)
  {
    /** A zero threshold makes C#'s `%` throw, so every threshold is nonzero. */
    predicate Valid() {
      && speedIncreaseThreshold != 0
      && spawnRateIncreaseThreshold != 0
      && spawnAmountIncreaseThreshold != 0
      && enemySpawnThreshold != 0
    }
  }

  const DEFAULTS: Config := Config(75, 50, 25, 150, 5)

  /** What the difficulty manager does to the train controller: the amounts passed to `IncreaseSpeed`, in call order. */
  datatype TrainCounters = TrainCounters(speedIncreases: seq<int32>)

  /**
   * What it does to the objects spawner: the number of `DecreaseSpawnTime`
   * calls, the `objectsToSpawn` field, and the number of `SpawnEnemy` calls.
   */
  datatype SpawnerCounters = SpawnerCounters(spawnTimeDecreases: nat, objectsToSpawn: int32, enemiesSpawned: nat)

  datatype Collaborators = Collaborators(train: Option<TrainCounters>, spawner: Option<SpawnerCounters>)

  predicate ShouldIncreaseSpeed(c: Config, score: int32)
    requires c.Valid()
  {
    Remainder(score, c.speedIncreaseThreshold) == 0
  }

  predicate ShouldIncreaseSpawnRate(c: Config, score: int32)
    requires c.Valid()
  {
    Remainder(score, c.spawnRateIncreaseThreshold) == 0
  }

  predicate ShouldIncreaseSpawnAmount(c: Config, score: int32)
    requires c.Valid()
  {
    Remainder(score, c.spawnAmountIncreaseThreshold) == 0
  }

  predicate ShouldSpawnEnemy(c: Config, score: int32)
    requires c.Valid()
  {
    Remainder(score, c.enemySpawnThreshold) == 0
  }

  /** `IncreaseTrainSpeed`: one `IncreaseSpeed(speedIncreaseAmount)` call, if there is a train controller. */
  function SpeedIncreased(c: Config, w: Collaborators): Collaborators {
    match w.train
    case None => w
    case Some(t) => w.(train := Some(t.(speedIncreases := t.speedIncreases + [c.speedIncreaseAmount])))
  }

  /** `IncreaseObstacleSpawnRate`: one `DecreaseSpawnTime` call, if there is a spawner. */
  function SpawnRateIncreased(w: Collaborators): Collaborators {
    match w.spawner
    case None => w
    case Some(s) => w.(spawner := Some(s.(spawnTimeDecreases := s.spawnTimeDecreases + 1)))
  }

  /** `IncreaseObstacleSpawnAmount`: `objectsToSpawn++` (unchecked), if there is a spawner. */
  function SpawnAmountIncreased(w: Collaborators): Collaborators {
    match w.spawner
    case None => w
    case Some(s) => w.(spawner := Some(s.(objectsToSpawn := Add(s.objectsToSpawn, 1))))
  }

  /** `SpawnNewEnemy`: one `SpawnEnemy` call, if there is a spawner. */
  function EnemySpawned(w: Collaborators): Collaborators {
    match w.spawner
    case None => w
    case Some(s) => w.(spawner := Some(s.(enemiesSpawned := s.enemiesSpawned + 1)))
  }

  /** `IncreaseDifficulty(score)`: the four tests, in source order, each applying its effect when it passes. */
  function Escalated(c: Config, w: Collaborators, score: int32): Collaborators
    requires c.Valid()
  {
    var w1 := if ShouldIncreaseSpeed(c, score) then SpeedIncreased(c, w) else w;
    var w2 := if ShouldIncreaseSpawnRate(c, score) then SpawnRateIncreased(w1) else w1;
    var w3 := if ShouldIncreaseSpawnAmount(c, score) then SpawnAmountIncreased(w2) else w2;
    if ShouldSpawnEnemy(c, score) then EnemySpawned(w3) else w3
  }

  /** The train's speed is raised, once and by `speedIncreaseAmount`, exactly when the speed threshold divides the score. */
  lemma SpeedIffMultiple(c: Config, w: Collaborators, score: int32)
    requires c.Valid() && w.train.Some?
    ensures Escalated(c, w, score).train.Some?
    ensures var after := Escalated(c, w, score).train.value.speedIncreases;
            var before := w.train.value.speedIncreases;
            if score % c.speedIncreaseThreshold == 0 then after == before + [c.speedIncreaseAmount] else after == before
  {
  }

  /** One spawn-time decrease exactly when the spawn-rate threshold divides the score. */
  lemma SpawnRateIffMultiple(c: Config, w: Collaborators, score: int32)
    requires c.Valid() && w.spawner.Some?
    ensures Escalated(c, w, score).spawner.Some?
    ensures Escalated(c, w, score).spawner.value.spawnTimeDecreases
         == w.spawner.value.spawnTimeDecreases + if score % c.spawnRateIncreaseThreshold == 0 then 1 else 0
  {
  }

  /**
   * `objectsToSpawn` goes up by exactly one when the spawn-amount threshold
   * divides the score, and is otherwise unchanged (away from the 32-bit limit).
   */
  lemma SpawnAmountIffMultiple(c: Config, w: Collaborators, score: int32)
    requires c.Valid() && w.spawner.Some? && w.spawner.value.objectsToSpawn < MAX_INT32
    ensures Escalated(c, w, score).spawner.Some?
    ensures Escalated(c, w, score).spawner.value.objectsToSpawn
         == w.spawner.value.objectsToSpawn + if score % c.spawnAmountIncreaseThreshold == 0 then 1 else 0
  {
  }

  /** One enemy is spawned exactly when the enemy threshold divides the score. */
  lemma EnemyIffMultiple(c: Config, w: Collaborators, score: int32)
    requires c.Valid() && w.spawner.Some?
    ensures Escalated(c, w, score).spawner.Some?
    ensures Escalated(c, w, score).spawner.value.enemiesSpawned
         == w.spawner.value.enemiesSpawned + if score % c.enemySpawnThreshold == 0 then 1 else 0
  {
  }

  /** A missing collaborator stays missing, and nothing is recorded for it. */
  lemma MissingCollaboratorsUntouched(c: Config, w: Collaborators, score: int32)
    requires c.Valid()
    ensures w.train.None? ==> Escalated(c, w, score).train.None?
    ensures w.spawner.None? ==> Escalated(c, w, score).spawner.None?
    ensures w.train.None? && w.spawner.None? ==> Escalated(c, w, score) == w
  {
  }

  lemma {:induction false} MultipleOfMultiple(score: int, big: int, small: int)
    requires 0 < small && 0 < big && big % small == 0 && score % big == 0
    ensures score % small == 0
  {
    var k, f := score / big, big / small;
    assert score == small * (f * k) by {
      assert score == big * k;
      assert big == small * f;
    }
    EuclidUnique(score, small, f * k, 0);
  }

  /**
   * With the default thresholds 75/50/25/150, every score that raises the
   * speed, the spawn rate or spawns an enemy also raises the spawn amount,
   * and a multiple of 150 triggers all four effects.
   */
  lemma {:induction false} DefaultThresholdsNest(score: int32)
    ensures ShouldIncreaseSpeed(DEFAULTS, score) ==> ShouldIncreaseSpawnAmount(DEFAULTS, score)
    ensures ShouldIncreaseSpawnRate(DEFAULTS, score) ==> ShouldIncreaseSpawnAmount(DEFAULTS, score)
    ensures ShouldSpawnEnemy(DEFAULTS, score) ==> ShouldIncreaseSpawnAmount(DEFAULTS, score)
    ensures ShouldSpawnEnemy(DEFAULTS, score) ==>
              ShouldIncreaseSpeed(DEFAULTS, score) && ShouldIncreaseSpawnRate(DEFAULTS, score)
  {
    if score % 75 == 0 { MultipleOfMultiple(score, 75, 25); }
    if score % 50 == 0 { MultipleOfMultiple(score, 50, 25); }
    if score % 150 == 0 {
      MultipleOfMultiple(score, 150, 25);
      MultipleOfMultiple(score, 150, 50);
      MultipleOfMultiple(score, 150, 75);
    }
  }

  /**
   * The difficulty manager. `trainController` and `objectsSpawner` are the
   * collaborators found when the component woke up.
   */
  class DifficultyManager {
    const config: Config
    var trainController: Option<TrainCounters>
    var objectsSpawner: Option<SpawnerCounters>

    ghost predicate Valid()
      reads this
    {
      config.Valid()
    }

    function World(): Collaborators
      reads this
    {
      Collaborators(trainController, objectsSpawner)
    }

    /** `Awake`: remembers whatever collaborators the scene holds. */
    constructor (config: Config, trainController: Option<TrainCounters>, objectsSpawner: Option<SpawnerCounters>)
      requires config.Valid()
      ensures Valid()
      ensures this.config == config
      ensures World() == Collaborators(trainController, objectsSpawner)
    {
      this.config := config;
      this.trainController := trainController;
      this.objectsSpawner := objectsSpawner;
    }

    method IncreaseTrainSpeed()
      modifies this
      ensures World() == SpeedIncreased(config, old(World()))
    {
      if trainController.Some? {
        var t := trainController.value;
        trainController := Some(t.(speedIncreases := t.speedIncreases + [config.speedIncreaseAmount]));
      }
    }

    method IncreaseObstacleSpawnRate()
      modifies this
      ensures World() == SpawnRateIncreased(old(World()))
    {
      if objectsSpawner.Some? {
        var s := objectsSpawner.value;
        objectsSpawner := Some(s.(spawnTimeDecreases := s.spawnTimeDecreases + 1));
      }
    }

    method IncreaseObstacleSpawnAmount()
      modifies this
      ensures World() == SpawnAmountIncreased(old(World()))
    {
      if objectsSpawner.Some? {
        var s := objectsSpawner.value;
        objectsSpawner := Some(s.(objectsToSpawn := Add(s.objectsToSpawn, 1)));
      }
    }

    method SpawnNewEnemy()
      modifies this
      ensures World() == EnemySpawned(old(World()))
    {
      if objectsSpawner.Some? {
        var s := objectsSpawner.value;
        objectsSpawner := Some(s.(enemiesSpawned := s.enemiesSpawned + 1));
      }
    }

    /** Applies each effect whose threshold divides `score`; the settings do not change. */
    method IncreaseDifficulty(score: int32)
      requires Valid()
      modifies this
      ensures Valid()
      ensures World() == Escalated(config, old(World()), score)
    {
      if ShouldIncreaseSpeed(config, score) {
        IncreaseTrainSpeed();
      }
      if ShouldIncreaseSpawnRate(config, score) {
        IncreaseObstacleSpawnRate();
      }
      if ShouldIncreaseSpawnAmount(config, score) {
        IncreaseObstacleSpawnAmount();
      }
      if ShouldSpawnEnemy(config, score) {
        SpawnNewEnemy();
      }
    }
  }
}
