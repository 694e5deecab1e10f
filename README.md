# Train game core: trail, difficulty and score

A Dafny model of the three pieces of game state in the train arcade game
that are integers and sequences rather than engine glue:

- **The train trail** (`Train`, `train.dfy`). Every frame the head's
  position goes to the front of `positionsHistory`. Each car is then sent
  toward a history entry: `firstCarGap` for the first car and
  `firstCarGap + index * gap` for the others, clamped into the history.
  `GrowTrain` appends a car and `Start` appends three. Positions are an
  opaque type `P` and cars are ids. `CarTargets` is the car loop: it only
  reads the history and returns the point each car is steered toward. A ghost
  field `frames` records every stored head position, oldest first, and
  `Valid()` ties the history to it.
- **Difficulty thresholds** (`Difficulty`, `difficulty.dfy`).
  `IncreaseDifficulty(score)` makes four independent divisibility tests. Each
  passing test applies one effect to a collaborator. The train controller is
  reduced to the list of amounts passed to `IncreaseSpeed`. The objects
  spawner is reduced to a count of `DecreaseSpawnTime` calls, its
  `objectsToSpawn` field and a count of `SpawnEnemy` calls. A collaborator the
  scene did not provide is `None`.
- **Score and high score** (`Score`, `score.dfy`). The state is `score`,
  `highScore`, `highScoreLoaded` and the text of the high-score file (`None`
  when the file is missing or unreadable). Saving writes the decimal text of
  the value (`int.ToString`). Loading parses the text back with `int.TryParse`,
  which is modelled too, and falls back to 0. The difficulty hook is a
  reference to a `Difficulty.DifficultyManager` that may be null.
- **C# integers** (`Numerics`, `numerics.dfy`). C# ints are 32 bits and
  unchecked, so `score += amount`, `objectsToSpawn++` and
  `firstCarGap + index * gap` wrap around. C#'s `%` truncates toward zero.
  Both are written out explicitly here.

Each stateful class has a pure specification beside it. `Replay` and
`HistoryIndex` specify the train. `Escalated` specifies the difficulty
manager. `Refreshed`, `Started` and `Finalized` specify the score manager.
The class methods are proved equal to these functions, and the properties are
proved as lemmas about the functions.

Facts about the train code that the model keeps:
- `positionsHistory` starts as an empty list (TrainController.cs:20);
- nothing in TrainController.cs removes entries from `positionsHistory` or
  from `cars`, so the history only grows and the train never shrinks;
- each car reads the point `positionsHistory[historyIndex]` (TrainController.cs:63)
  and then takes a chase step toward it (TrainController.cs:66-71); the model
  returns that point, not the car's new position;
- the serialized defaults are `firstCarGap = 20` and `gap = 10`
  (TrainController.cs:11-12).

## Model

| member | source | states |
|---|---|---|
| Numerics.Add | Assets/Scripts/ScoreManager.cs:27 | Unchecked 32-bit `+`: the exact sum when it fits in an int, otherwise a value congruent to it modulo 2^32 |
| Numerics.Remainder | Assets/Scripts/DifficultyManager.cs:47-65 | C#'s `%`: smaller in magnitude than the divisor, with the sign of the dividend, and zero exactly when the divisor divides the dividend |
| Numerics.WrapAddWrap | Assets/Scripts/TrainController.cs:60 | Wrapping the product before the unchecked addition gives the same int as wrapping the exact sum once |
| Numerics.MultipleIffRemZero | Assets/Scripts/DifficultyManager.cs:49 | Divisibility is the same whatever the signs of dividend and divisor, which makes the truncating and the Euclidean zero tests agree |
| Train.Clamp | Assets/Scripts/TrainController.cs:56 | `Mathf.Clamp`: the result lies in `[min, max]` and equals the value when the value is already inside; below the range gives `min`, above gives `max` |
| Train.HistoryIndex | Assets/Scripts/TrainController.cs:53-61 | The index a car samples is always a valid history index, `0 <= r < Count`, for any gaps, car index and non-empty history |
| Train.FirstCarIsGeneralCase | Assets/Scripts/TrainController.cs:54-61 | The separate branch for car 0 gives the same index as the general formula at index 0 |
| Train.IndexIsClampedOffset | Assets/Scripts/TrainController.cs:60 | Whenever the exact offset `firstCarGap + index*gap` fits in an int, the sampled index is that offset clamped into `[0, Count-1]`, even when `index*gap` alone overflows, because the unchecked sum still wraps back to the exact value |
| Train.IndexIsOffset | Assets/Scripts/TrainController.cs:60 | Once the history is longer than a car's offset (and the offset is non-negative), the car samples exactly that offset, whether or not `index*gap` overflows on the way |
| Train.IndicesNonDecreasing | Assets/Scripts/TrainController.cs:60 | With `gap >= 0` and the later car's offset below `int.MaxValue`, a later car's index is at least an earlier car's, so it never samples newer history |
| Train.Replay | Assets/Scripts/TrainController.cs:46 | Replaying frames grows the history by exactly one entry per frame |
| Train.ReplaySnoc | Assets/Scripts/TrainController.cs:46 | One more frame puts that frame's position in front of the history replayed so far |
| Train.ReplayAt | Assets/Scripts/TrainController.cs:46 | Entry `k` of the history is the head position stored `k` frames before the newest one, and older entries are unchanged, shifted by the number of new frames |
| Train.CarShowsPast | Assets/Scripts/TrainController.cs:46-63 | Whenever the offset `firstCarGap + i*gap` is a non-negative int and more frames than that are recorded, car `i` is sent toward exactly the head position recorded that many frames before the newest, even if `i*gap` alone overflows |
| Train.DefaultTrainAfterHundredFrames | Assets/Scripts/TrainController.cs:11-12 | With the default gaps 20 and 10 and head positions 0..99, the three starting cars target positions 79, 69 and 59 |
| Train.TrainController.constructor | Assets/Scripts/TrainController.cs:19-20 | The component starts with no cars and an empty history |
| Train.TrainController.GrowTrain | Assets/Scripts/TrainController.cs:83-87 | Appends exactly one new car, distinct from all existing ones, at the rear; the existing cars and the history are unchanged |
| Train.TrainController.Start | Assets/Scripts/TrainController.cs:22-29 | Appends exactly three new cars and keeps the existing ones, so a fresh train has three cars; the history is untouched |
| Train.TrainController.CarTargets | Assets/Scripts/TrainController.cs:49-80 | The car loop returns, for each car in order, the history entry at that car's clamped index; it changes neither the history nor the car list |
| Train.TrainController.Update | Assets/Scripts/TrainController.cs:31-81 | Grows the history by one with the new head position at index 0 and every old entry shifted by one; leaves the cars unchanged; each car is sent toward its sampled entry, which is the head position from `firstCarGap + i*gap` frames before whenever that offset is a non-negative int within the recorded frames |
| Difficulty.SpeedIffMultiple | Assets/Scripts/DifficultyManager.cs:26-29 | The train receives exactly one `IncreaseSpeed(speedIncreaseAmount)` call when the speed threshold divides the score, and none otherwise |
| Difficulty.SpawnRateIffMultiple | Assets/Scripts/DifficultyManager.cs:31-34 | The spawner receives exactly one spawn-time decrease when the spawn-rate threshold divides the score, and none otherwise |
| Difficulty.SpawnAmountIffMultiple | Assets/Scripts/DifficultyManager.cs:36-39 | `objectsToSpawn` goes up by exactly one when the spawn-amount threshold divides the score, and is otherwise unchanged (below the 32-bit limit) |
| Difficulty.EnemyIffMultiple | Assets/Scripts/DifficultyManager.cs:41-44 | Exactly one enemy is spawned when the enemy threshold divides the score, and none otherwise |
| Difficulty.MissingCollaboratorsUntouched | Assets/Scripts/DifficultyManager.cs:67-97 | A missing collaborator stays missing, and with neither collaborator present nothing changes at all |
| Difficulty.DefaultThresholdsNest | Assets/Scripts/DifficultyManager.cs:6-9 | With thresholds 75/50/25/150, every score that raises the speed or the spawn rate, or spawns an enemy, also raises the spawn amount; a multiple of 150 triggers all four |
| Difficulty.DifficultyManager.constructor | Assets/Scripts/DifficultyManager.cs:18-22 | `Awake` remembers the collaborators the scene holds, or their absence |
| Difficulty.DifficultyManager.IncreaseTrainSpeed | Assets/Scripts/DifficultyManager.cs:67-73 | Records one speed increase by `speedIncreaseAmount` if there is a train controller, otherwise nothing changes |
| Difficulty.DifficultyManager.IncreaseObstacleSpawnRate | Assets/Scripts/DifficultyManager.cs:75-81 | Records one spawn-time decrease if there is a spawner, otherwise nothing changes |
| Difficulty.DifficultyManager.IncreaseObstacleSpawnAmount | Assets/Scripts/DifficultyManager.cs:83-89 | Increments `objectsToSpawn` (wrapping) if there is a spawner, otherwise nothing changes |
| Difficulty.DifficultyManager.SpawnNewEnemy | Assets/Scripts/DifficultyManager.cs:91-97 | Records one enemy spawn if there is a spawner, otherwise nothing changes |
| Difficulty.DifficultyManager.IncreaseDifficulty | Assets/Scripts/DifficultyManager.cs:24-45 | The collaborators end up as the four tests prescribe, each effect applied at most once; the lemmas above spell out each counter |
| Score.TryParseRender | Assets/Scripts/ScoreManager.cs:99 | `int.TryParse` accepts every string `int.ToString` writes and gives back the same value |
| Score.StoredHighScore | Assets/Scripts/ScoreManager.cs:91-110 | A missing file loads as 0 |
| Score.LoadAfterSave | Assets/Scripts/ScoreManager.cs:117 | Loading after `SaveHighScore(v)` returns exactly `v` |
| Score.LoadExamples | Assets/Scripts/ScoreManager.cs:94-109 | Empty or non-numeric text loads as 0; white space around a signed number is accepted |
| Score.RefreshedHighScoreIsMax | Assets/Scripts/ScoreManager.cs:41-45 | After `UpdateCurrentScore` the high score is the larger of the previous (or freshly loaded) high score and the score, so it is at least the score; the score is unchanged |
| Score.RefreshedMonotone | Assets/Scripts/ScoreManager.cs:25-45 | Once loaded, the high score never decreases across `AddScore` and `UpdateCurrentScore` |
| Score.RefreshedSavesOnlyWhenSurpassed | Assets/Scripts/ScoreManager.cs:41-45 | The file is written exactly when the score surpasses the high score, and it then loads back as the new high score; otherwise the file is untouched |
| Score.RefreshedLoadsOnce | Assets/Scripts/ScoreManager.cs:34-38 | A second `UpdateCurrentScore` changes nothing, and once loaded the file's contents no longer affect the high score |
| Score.RefreshedPersists | Assets/Scripts/ScoreManager.cs:34-45 | After `UpdateCurrentScore` the stored high score never exceeds the one in memory, and later calls keep it that way |
| Score.StartedInSync | Assets/Scripts/ScoreManager.cs:18-23 | After `Start` the high score in memory is exactly the value the file loads as |
| Score.RefreshedKeepsInSync | Assets/Scripts/ScoreManager.cs:31-58 | If the high score in memory equals the file's value, it still does after `UpdateCurrentScore` |
| Score.FinalizedKeepsInSync | Assets/Scripts/ScoreManager.cs:65-84 | If the high score in memory equals the file's value, it still does after `ManageFinalScore`, and the loaded high score never drops |
| Score.FinalizedSavesOnlyWhenBeaten | Assets/Scripts/ScoreManager.cs:78-83 | `ManageFinalScore` saves and sets the high score exactly when the score beats the freshly loaded value; the file then holds the larger of the two |
| Score.ScoreManager.constructor | Assets/Scripts/ScoreManager.cs:8-10 | A new component starts with the inspector's `score`, high score 0 and nothing loaded; whether the two text references are assigned is fixed at creation |
| Score.ScoreManager.LoadHighScore | Assets/Scripts/ScoreManager.cs:91-110 | Returns the parsed file value when the file exists and parses, and 0 otherwise; changes nothing |
| Score.ScoreManager.SaveHighScore | Assets/Scripts/ScoreManager.cs:112-123 | Overwrites the file with text that loads back as `value` |
| Score.ScoreManager.CheckForDifficultyUpdate | Assets/Scripts/ScoreManager.cs:125-132 | The difficulty manager (if any) gets `IncreaseDifficulty(score)` when the score is nonzero; otherwise it is untouched |
| Score.ScoreManager.UpdateCurrentScore | Assets/Scripts/ScoreManager.cs:31-58 | The score state becomes `Refreshed` of the old one, and the difficulty hook runs exactly for a nonzero score |
| Score.ScoreManager.Start | Assets/Scripts/ScoreManager.cs:18-23 | Loads the high score, marks it loaded, then refreshes as `UpdateCurrentScore` does |
| Score.ScoreManager.AddScore | Assets/Scripts/ScoreManager.cs:25-29 | The score changes by exactly `amount`, negative amounts included (wrapping at 32 bits), and then the state is refreshed |
| Score.ScoreManager.ManageFinalScore | Assets/Scripts/ScoreManager.cs:65-84 | Throws, leaving the state untouched, exactly when `finalScoreText` is assigned and `currentScoreText` is not; otherwise the state becomes `Finalized` of the old one: saved, and the high score set, only when the score beats the stored value |

## Left out

- Head motion, steering, the cars' chase step and `LookAt` (TrainController.cs:34-43, 66-77): floating-point vector maths. The model states which history point each car is steered toward, not where the car ends up.
- Train.TrainController.CarTargets: the loop counter `index` is treated as unbounded. C# would wrap it only past 2^31 cars, which a `List` cannot hold.
- The history `List` has a capacity of at most 2^31 entries in .NET. The model's history has no length limit.
- `transform.position.y = trainY` in `Start` and the car prefab instantiation: engine calls. A car is a fresh id.
- `TrainController.IncreaseSpeed`, `ObjectsSpawner.DecreaseSpawnTime`, `ObjectsSpawner.SpawnEnemy` and the field `objectsToSpawn` are not in ObjectsSpawner.cs or TrainController.cs. Only the calls are recorded, with the speed amount. The float `spawnTimeDecreaseAmount` is not modelled, only a count of decrease calls.
- Difficulty.DifficultyManager.constructor: a zero threshold makes C#'s `%` throw. The model requires nonzero thresholds instead. `int.MinValue % -1` also throws in C#, and this case is not modelled: the remainder there is taken as 0.
- Difficulty.SpawnAmountIffMultiple: stated below `int.MaxValue` only. At the limit `objectsToSpawn++` wraps, which `Numerics.Add` models.
- The `FindFirstObjectByType` lookups (DifficultyManager.cs:18-22, ScoreManager.cs:127) become values given to the constructors. The lookup in `CheckForDifficultyUpdate` runs on every call in the source. Here it is a fixed reference.
- UI text contents and `Debug.Log*`: display only. The model keeps only whether `currentScoreText` and `finalScoreText` are assigned. That decides whether `HideCurrentScore` throws.
- Score.ScoreManager.ManageFinalScore: the exception thrown by `HideCurrentScore` is reported as `thrown`, and the state is left as it was. What the engine does with the uncaught exception is not modelled.
- Car destruction is not modelled. CarController.cs:16-18 destroys a car's GameObject when it hits an obstacle, but TrainController.cs never removes it from `cars`. From the next frame on, the source's `Update` throws at `car.transform.position` (TrainController.cs:66) when it reaches that car, after computing that car's point. Neither that car nor any car behind it moves again. In the model every car stays in the list and keeps being sent toward its sampled point.
- File I/O: `Path.Combine`, write failures and encodings are not modelled. The file is its decoded text, or `None` when it is missing or a read throws. A write always succeeds.
- Score.TryParseRender: `int.TryParse` is modelled for the invariant culture only: ASCII digits, `-` and `+` signs, and white space U+0009-U+000D and U+0020. .NET's acceptance of trailing NUL characters is not modelled.
- The other scripts (spawner coroutines and randomness, enemy AI, powerups, hitboxes, camera, sound, buttons): engine callbacks, randomness and float maths.
