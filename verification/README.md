# lookalike: face-matching scores and ranking, in Dafny

lookalike is a browser app. It compares an uploaded face with a catalog of KBO
baseball players and shows the three most similar players. This project models its
scoring and ranking core:

- **Per-method score policies.** These turn a raw comparison of two face descriptors
  into a percentage. The Euclidean-distance variants are linear, square-root-scaled,
  and the raw `1 − d`. The cosine variants are linear and clamped-and-cubed.
- **Two-method fusion.** A half-and-half rounded blend of a MediaPipe face-mesh score
  and a face-api.js score. There are two versions: the live one inline in
  `components/FaceDetection/index.tsx`, and `calculateCombinedSimilarity` in
  `utils/multiModelUtils.ts`. Their per-method formulas differ, so they are separate
  functions here.
- **The ranker.** The shared `map → filter(> 40) → sort descending → slice(0, 3)`
  pipeline, written once and generic over the catalog entry type.
- **Helpers.**
  - Landmark-to-descriptor flattening.
  - Image resize arithmetic.
  - Player-name formatting and file-name extraction.
  - The per-field player edit.
  - The two embedding generators: the batch loop, and the step-by-step
    `processNextPlayer` state machine.

Numbers are Dafny `real`s, not IEEE floats. `Math.round` is `Round(x) = ⌊x + 0.5⌋`.
`Math.sqrt` is a parameter `sqrt` restricted by `Numerics.IsSqrt`: it maps 0 to 0,
and every positive x to a positive number whose square is x. Only the true square
root satisfies that, so each formula means what the source computes on exact reals.
`Math.pow(x, 3)` is a triple product and `Math.pow(x, 0.5)` is `sqrt`. Inputs on
which the source produces `NaN` (0/0) are excluded by preconditions. Inputs on which
it produces `+∞` and then clamps get the clamped value.

Modules follow the source:

| module | models |
|---|---|
| `Numerics`, `Vectors` | square root, rounding, clamping, cube; squared distance, dot product, norm, cosine (with Cauchy–Schwarz) |
| `Scores` | the score policies and the weighted blend, stated on the raw distance or cosine |
| `FaceUtils` | `utils/faceUtils.ts` `calculateSimilarity` |
| `MultiModel` | `utils/multiModelUtils.ts` scores and weights |
| `FusedDetection` | `components/FaceDetection/index.tsx` fused score and ranking |
| `SingleDetection` | `MediaPipe.tsx` and `FaceAPI.tsx` ranking |
| `Ranking` | the shared threshold / stable sort / top-3 pipeline |
| `Landmarks` | the x, y, z interleaved descriptor layout |
| `ImageUtils` | `utils/imageUtils.ts` resize arithmetic and `1 − d` similarity |
| `Players`, `PlayerNames` | `KBOPlayer`, the field edit, name formatting, file names, initial catalog |
| `BatchGenerator` | `EmbeddingGenerator/index.tsx` `generateEmbeddings` |
| `StepwiseGenerator` | `EmbeddingGenerator/EmbeddingFaceAPI.tsx` `processNextPlayer` and `generateEmbeddings` |

TypeScript errors and exceptions are modelled as follows:

- The two generator guards are `Outcome.NotLoaded` and `Outcome.Incomplete`.
- A player whose image fails to load or shows no face yields `None` from the
  `Detector` parameter, which stands for image fetching plus face detection. The
  source treats both cases alike: skip the player and continue.
- The MediaPipe screen reads `player.descriptor!.length`. A player with no descriptor
  at all would make that read throw and the screen show its error, so
  `SingleDetection.MediapipeMatches` returns `None` for it. The catalog loaders
  (`services/playerData.ts`) wrap every descriptor in a `Float32Array`, so a missing
  descriptor arrives as an empty vector and this branch is never taken in practice.

## Model

| member | source | states |
|---|---|---|
| Vectors.SquaredDistanceSymmetric | src/utils/faceUtils.ts:262-266 | the summed squared differences do not depend on argument order |
| Vectors.SquaredDistanceSelf | src/utils/faceUtils.ts:262-266 | a descriptor is at squared distance 0 from itself |
| Vectors.DotSelf | src/components/FaceDetection/index.tsx:117-121 | the dot product of a vector with itself is its squared norm, so the cosine loop's three sums are related |
| Vectors.CauchySchwarz | src/components/FaceDetection/index.tsx:113-128 | the squared dot product is at most the product of the squared norms |
| Vectors.Cosine | src/components/FaceDetection/index.tsx:123-128 | with non-zero norms, dot / (‖a‖·‖b‖) lies in [−1, 1] |
| Vectors.CosineSelf | src/utils/multiModelUtils.ts:181-187 | a non-zero vector has cosine 1 with itself |
| Vectors.CosineSymmetric | src/utils/multiModelUtils.ts:181-187 | the cosine does not depend on argument order |
| Scores.LinearDistanceScore | src/utils/faceUtils.ts:270-271 | `max(0, 100·(1 − √d/√n))` lies in [0, 100] and is 100 at distance 0 |
| Scores.LinearDistanceScoreZero | src/utils/faceUtils.ts:270-271 | the linear score is 0 exactly when the squared distance reaches n |
| Scores.LinearDistanceScoreMonotone | src/utils/faceUtils.ts:268-271 | a smaller squared distance never scores lower |
| Scores.RootScaledDistanceScore | src/utils/multiModelUtils.ts:165-170 | the square-root-scaled score lies in [0, 100], is 100 at distance 0 and 0 when the maximum distance is 0 (the infinite quotient) |
| Scores.RootScaledDistanceScoreZero | src/utils/multiModelUtils.ts:166-170 | the score is 0 exactly when the squared distance reaches the maximum distance |
| Scores.RootScaledDistanceScoreMonotone | src/utils/multiModelUtils.ts:166-170 | a smaller squared distance never scores lower |
| Scores.LinearCosineScore | src/components/FaceDetection/index.tsx:129 | `round(((c+1)/2)·100)` is an integer in [0, 100]; cosine 1 gives 100 and −1 gives 0 |
| Scores.LinearCosineScoreMonotone | src/components/FaceDetection/index.tsx:129 | a larger cosine never scores lower |
| Scores.CubedCosineScore | src/utils/multiModelUtils.ts:187-192 | after clamping to [−1, 1], `round(((c+1)/2)³·100)` is an integer in [0, 100]; a quotient ≥ 1 gives 100 and ≤ −1 gives 0 |
| Scores.CubedCosineScoreMonotone | src/utils/multiModelUtils.ts:188-192 | the cubed score is monotone in the raw quotient, clamping included |
| Scores.CubedBelowLinear | src/utils/multiModelUtils.ts:190-192 | on [−1, 1] the cubed policy never scores above the linear one |
| Scores.Blend | src/components/FaceDetection/index.tsx:134 | a weighted rounded blend lies between the rounded lower and rounded higher input, so in [0, 100] for inputs in [0, 100] |
| Scores.BlendBetween | src/utils/multiModelUtils.ts:150-153 | a convex combination lies between its two inputs |
| Scores.BlendMonotone | src/utils/multiModelUtils.ts:150-153 | the blend is monotone in each method's score |
| Scores.BlendOfEqual | src/components/FaceDetection/index.tsx:134 | two equal integer scores blend to themselves |
| FaceUtils.Similarity | src/utils/faceUtils.ts:255-274 | an integer in [0, 100]; 0 for different lengths; 100 for identical descriptors |
| FaceUtils.SimilaritySymmetric | src/utils/faceUtils.ts:263-266 | the score does not depend on argument order |
| FaceUtils.SimilarityMonotone | src/utils/faceUtils.ts:268-271 | of two candidates, the one at smaller squared distance never scores lower |
| FaceUtils.SimilarityFloor | src/utils/faceUtils.ts:270-273 | descriptors at squared distance n or more score 0 |
| MultiModel.MaxElement | src/utils/multiModelUtils.ts:165 | `Math.max(...s)` is an element of s and bounds every element |
| MultiModel.MediapipeSimilarity | src/utils/multiModelUtils.ts:157-171 | the MediaPipe score lies in [0, 100] and is 100 when desc1 equals the part of desc2 the loop reads |
| MultiModel.MediapipeSimilarityZero | src/utils/multiModelUtils.ts:165-170 | the MediaPipe score is 0 exactly when the squared distance reaches `n·max²` |
| MultiModel.FaceApiSimilarity | src/utils/multiModelUtils.ts:176-193 | the face-api score is an integer in [0, 100] and is 100 for identical descriptors |
| MultiModel.FaceApiSimilarityMonotone | src/utils/multiModelUtils.ts:187-192 | the candidate with the larger cosine never scores lower |
| MultiModel.FaceApiSimilaritySymmetric | src/utils/multiModelUtils.ts:181-187 | on equal-length descriptors the score does not depend on argument order |
| MultiModel.CombinedSimilarity | src/utils/multiModelUtils.ts:137-154 | the rate-weighted rounded blend is an integer in [0, 100] and 100 for identical inputs |
| MultiModel.CombinedSimilarityMonotone | src/utils/multiModelUtils.ts:150-153 | the combined score is monotone in each method's score |
| FusedDetection.MediapipeComponent | src/components/FaceDetection/index.tsx:86-102 | the unrounded component lies in [0, 100], is 0 on a length mismatch and 100 for identical descriptors |
| FusedDetection.FaceApiComponent | src/components/FaceDetection/index.tsx:105-130 | an integer in [0, 100]; 0 on a length mismatch or a zero norm; 100 for identical non-zero descriptors |
| FusedDetection.FaceApiDenominatorZero | src/components/FaceDetection/index.tsx:123-126 | the denominator is 0 exactly when one of the norms is 0 |
| FusedDetection.Similarity | src/components/FaceDetection/index.tsx:73-135 | an integer in [0, 100]; exactly 0 when either catalog has no descriptor at the index or the face-api catalog is shorter |
| FusedDetection.MismatchZeroesOneComponent | src/components/FaceDetection/index.tsx:86-134 | a length mismatch zeroes only its own component: the score is the rounded half of the other one |
| FusedDetection.SimilarityOfIdentical | src/components/FaceDetection/index.tsx:73-135 | identical descriptors in both catalogs score 100 |
| FusedDetection.Candidates | src/components/FaceDetection/index.tsx:165-168 | one candidate per MediaPipe player, in order, each paired with the fused score of its position |
| FusedDetection.FindMatches | src/components/FaceDetection/index.tsx:165-172 | min(3, number of candidates above 40) results, each above 40, in non-increasing order, each pairing `mediapipePlayers[i]` with the score computed for i |
| FusedDetection.FindMatchesEmpty | src/components/FaceDetection/index.tsx:165-172 | nothing is shown exactly when no position's fused score is above 40 |
| FusedDetection.FindMatchesStable | src/components/FaceDetection/index.tsx:171 | results with equal fused scores keep catalog order |
| FusedDetection.FindMatchesKeepBest | src/components/FaceDetection/index.tsx:165-172 | a candidate above 40 left out means three results were shown, each scoring at least as high |
| Ranking.SortDescending | src/components/FaceDetection/index.tsx:171 | the result is in non-increasing order and a permutation of the input |
| Ranking.SortStable | src/components/FaceDetection/MediaPipe.tsx:86 | among entries with equal scores the sort keeps input order |
| Ranking.SurvivorsContents | src/components/FaceDetection/index.tsx:170 | the filter keeps every entry above 40 with its multiplicity and nothing else |
| Ranking.Rank | src/components/FaceDetection/index.tsx:170-172 | at most 3 entries, min(survivors, 3) of them, all above 40, in non-increasing order, drawn from the input |
| Ranking.RankStable | src/components/FaceDetection/FaceAPI.tsx:91 | equal-score results appear in the order they had in the catalog |
| Ranking.RankKeepsBest | src/components/FaceDetection/FaceAPI.tsx:85-92 | kept and cut survivors together are exactly the survivors, and every cut survivor scores at most every kept one |
| Ranking.RankKeepsSurvivor | src/components/FaceDetection/FaceAPI.tsx:85-92 | an entry above 40 left out means three entries were kept, each scoring at least as high |
| Ranking.RankEmpty | src/components/FaceDetection/MediaPipe.tsx:80-87 | the result is empty exactly when no entry scores above 40 |
| SingleDetection.Matches | src/components/FaceDetection/FaceAPI.tsx:85-92 | at most 3 results, each above 40, in non-increasing order, each a catalog player with its own score |
| SingleDetection.MatchesEmpty | src/components/FaceDetection/MediaPipe.tsx:80-87 | an empty catalog, or no score above 40, gives no matches, and only then |
| SingleDetection.MatchesStable | src/components/FaceDetection/FaceAPI.tsx:91 | equal-score matches keep catalog order |
| SingleDetection.MatchesKeepBest | src/components/FaceDetection/FaceAPI.tsx:85-92 | a player above 40 left out means three matches were kept, each scoring at least as high |
| SingleDetection.MediapipeScorer | src/components/FaceDetection/MediaPipe.tsx:81-84 | a scorable player's score is `calculateSimilarity(query, player.descriptor)`, and every score lies in [0, 100] |
| SingleDetection.MediapipeMatches | src/components/FaceDetection/MediaPipe.tsx:80-87 | an error exactly when a player lacks a descriptor; otherwise exactly the generic ranking of the catalog under that score: at most 3 sorted matches above 40, each a catalog player with `calculateSimilarity(query, player.descriptor)` |
| SingleDetection.MediapipeMatchesKeepBest | src/components/FaceDetection/MediaPipe.tsx:80-87 | a player above 40 left out means three players at least as similar are shown; nothing is shown exactly when nobody scores above 40 |
| Landmarks.Flatten | src/utils/multiModelUtils.ts:107-112 | n landmarks give 3n entries, entry k being coordinate k mod 3 of landmark k div 3 |
| Landmarks.FlattenLayout | src/utils/multiModelUtils.ts:109-111 | entries 3i, 3i+1, 3i+2 are the x, y, z of landmark i |
| Landmarks.UnflattenFlatten | src/utils/multiModelUtils.ts:107-112 | the landmarks can be read back from the descriptor |
| Landmarks.FlattenUnflatten | src/utils/multiModelUtils.ts:107-112 | every descriptor of length 3n is the flattening of some landmark list |
| Landmarks.Describe | src/utils/faceUtils.ts:204-209 | the zero-filled array written landmark by landmark has length 3n and the interleaved layout |
| ImageUtils.ScaledSide | src/utils/imageUtils.ts:99-104 | the rescaled shorter side is at most maxSize and within half a pixel of `side·maxSize/longer` |
| ImageUtils.Resize | src/utils/imageUtils.ts:94-107 | landscape images over the bound get width maxSize, others over the bound get height maxSize, the other side scaled |
| ImageUtils.ResizeFits | src/utils/imageUtils.ts:94-107 | an image is left unchanged exactly when both sides are within maxSize |
| ImageUtils.ResizeBounded | src/utils/imageUtils.ts:94-107 | both output sides are at most maxSize |
| ImageUtils.ResizeKeepsOrientation | src/utils/imageUtils.ts:97-106 | a landscape image stays landscape-or-square and a portrait one portrait-or-square |
| ImageUtils.ResizeIdempotent | src/utils/imageUtils.ts:94-107 | resizing twice is resizing once |
| ImageUtils.Preprocess | src/utils/imageUtils.ts:17-24 | `processImage` hands detection an image with both sides at most 640 |
| ImageUtils.PreprocessIsResize | src/utils/imageUtils.ts:17-24 | the 640 trigger is the same as resizing with the default bound of 640 |
| ImageUtils.UnitDistanceSimilarity | src/utils/imageUtils.ts:117-122 | `1 − d` is at most 1 for non-negative d and equals 1 exactly at d = 0 |
| ImageUtils.UnitDistanceSimilarityOrder | src/utils/imageUtils.ts:117-121 | a smaller distance gives a higher similarity, and conversely |
| Players.WithField | src/components/EmbeddingGenerator/index.tsx:106-109 | the spread-and-set changes the named field and no other |
| Players.UpdatePlayerInfo | src/components/EmbeddingGenerator/index.tsx:104-111 | only the given field of the player at the index changes; every other player is unchanged |
| Players.UpdateWithCurrentValue | src/components/EmbeddingGenerator/EmbeddingFaceAPI.tsx:108-115 | writing a field's current value leaves the list as it was |
| Players.UpdateTwice | src/components/EmbeddingGenerator/EmbeddingFaceAPI.tsx:108-115 | of two writes to the same field, the later wins |
| Players.UpdateCommutes | src/components/EmbeddingGenerator/EmbeddingFaceAPI.tsx:108-115 | writes to different fields commute |
| Players.FindIncomplete | src/components/EmbeddingGenerator/index.tsx:134-138 | none exactly when every player has a name and a team; otherwise the first player lacking one |
| PlayerNames.StripImageExtension | src/components/EmbeddingGenerator/index.tsx:67 | one trailing `.jpeg`/`.jpg` in any case is removed and nothing else; the name is unchanged exactly when it has no such ending |
| PlayerNames.StripAppendedExtension | src/components/EmbeddingGenerator/index.tsx:67 | stripping undoes appending `.jpg` or `.jpeg` in any case |
| PlayerNames.NotJpegAfterJpg | src/components/EmbeddingGenerator/index.tsx:67 | the two alternatives of the pattern cannot both match at the end |
| PlayerNames.DashesToSpaces | src/components/EmbeddingGenerator/index.tsx:69 | every `-` becomes a space and every other character stays |
| PlayerNames.FormatPlayerName | src/components/EmbeddingGenerator/EmbeddingFaceAPI.tsx:69-74 | the result has the stripped name's length, no `-`, and the file name's other characters |
| PlayerNames.FormatPlayerNameFixed | src/components/EmbeddingGenerator/EmbeddingFaceAPI.tsx:69-74 | a name without dashes or image extension is left as it is |
| PlayerNames.LastSegmentShape | src/components/EmbeddingGenerator/index.tsx:32 | `split('/').pop()` is a slash-free suffix of the path, preceded by `/` when shorter: the longest such suffix |
| PlayerNames.LastSegmentOfJoin | src/components/EmbeddingGenerator/index.tsx:30-33 | splitting `dir + "/" + name` gives back a slash-free name |
| PlayerNames.FileNames | src/components/EmbeddingGenerator/index.tsx:30-45 | the kept names are non-empty and slash-free |
| PlayerNames.FileNamesAppend | src/components/EmbeddingGenerator/index.tsx:30-45 | the names of two path lists one after the other are the first's names then the second's, so path order is kept |
| PlayerNames.FileNamesMembers | src/components/EmbeddingGenerator/index.tsx:30-45 | a name is listed exactly when it is the non-empty last segment of some path |
| PlayerNames.InitialPlayers | src/components/EmbeddingGenerator/index.tsx:44-51 | one player per kept file name, in order: the given id, URL `/images/` + that name, name formatted from it, empty team, no descriptor |
| PlayerNames.ProcessedImageUrlFixed | src/components/EmbeddingGenerator/index.tsx:161-166 | a catalog player's URL is stored unchanged |
| PlayerNames.ProcessedImageUrlIdempotent | src/components/EmbeddingGenerator/EmbeddingFaceAPI.tsx:281-286 | moving a URL under `/images/` twice is moving it once |
| BatchGenerator.Embed | src/components/EmbeddingGenerator/index.tsx:159-168 | the stored entry keeps id, name and team and carries the detected descriptor |
| BatchGenerator.EmbedImageUrl | src/components/EmbeddingGenerator/index.tsx:161-166 | the stored URL is `/images/` followed by the file name of the player's URL, so the file name is kept |
| BatchGenerator.FoundPositions | src/components/EmbeddingGenerator/index.tsx:145-156 | the positions of players with a face, increasing, all of them |
| BatchGenerator.CollectFound | src/components/EmbeddingGenerator/index.tsx:145-171 | the output skips exactly the faceless players and keeps catalog order |
| BatchGenerator.CollectFoundAt | src/components/EmbeddingGenerator/index.tsx:145-171 | the k-th entry is the player at the k-th position with a face, with that face's descriptor |
| BatchGenerator.CollectFirst | src/components/EmbeddingGenerator/index.tsx:145-171 | a first player with a face gives the first entry |
| BatchGenerator.CollectNoFaces | src/components/EmbeddingGenerator/index.tsx:153-156 | with no face anywhere the output is empty |
| BatchGenerator.GenerateEmbeddings | src/components/EmbeddingGenerator/index.tsx:128-199 | the guards; otherwise the collected players, with `totalProcessed` equal to their count and at most the catalog size |
| StepwiseGenerator.ProcessNextPlayer | src/components/EmbeddingGenerator/EmbeddingFaceAPI.tsx:176-235 | blocked by the guards; marks completion at the last index without advancing; otherwise advances by one and appends at most one entry |
| StepwiseGenerator.StepsBlocked | src/components/EmbeddingGenerator/EmbeddingFaceAPI.tsx:177-186 | while a guard fails, any number of calls changes nothing |
| StepwiseGenerator.StepsVisitInOrder | src/components/EmbeddingGenerator/EmbeddingFaceAPI.tsx:194-196 | from index −1, k calls visit players 0 … k−1 and collect what the batch loop collects from them |
| StepwiseGenerator.StepsComplete | src/components/EmbeddingGenerator/EmbeddingFaceAPI.tsx:188-192 | one call past the last player marks completion, after which the session stays put |
| StepwiseGenerator.GenerateAsWritten | src/components/EmbeddingGenerator/EmbeddingFaceAPI.tsx:237-321 | the guards; otherwise the download is the entries that earlier calls of `processNextPlayer` left in state followed by the whole catalog's, and the index ends at −1 |
| StepwiseGenerator.GenerateAsWrittenDuplicates | src/components/EmbeddingGenerator/EmbeddingFaceAPI.tsx:282-301 | after k calls of `processNextPlayer` the download repeats the first k players' entries and is longer than the reported count |
| StepwiseGenerator.GenerateOnceKeepsFirstEntry | src/components/EmbeddingGenerator/EmbeddingFaceAPI.tsx:250-319 | a first "generate" downloads the catalog's entries once, and its own `processNextPlayer` call leaves the first player's entry in state |
| StepwiseGenerator.GenerateTwiceDuplicates | src/components/EmbeddingGenerator/EmbeddingFaceAPI.tsx:250-301 | pressing "generate" twice: the second download starts with the first player's entry twice and has one entry more than the count it reports |
| StepwiseGenerator.GenerateTwiceExample | src/components/EmbeddingGenerator/EmbeddingFaceAPI.tsx:250-301 | two players with faces, "generate" pressed twice: three entries downloaded for a count of two |
| StepwiseGenerator.Generate | src/components/EmbeddingGenerator/EmbeddingFaceAPI.tsx:237-321 | the guards; otherwise every player with a face exactly once, in order, with the count equal to the length |
| StepwiseGenerator.GenerateIgnoresEarlierSteps | src/components/EmbeddingGenerator/EmbeddingFaceAPI.tsx:250-254 | the corrected download does not depend on earlier calls of `processNextPlayer` |

## Left out

- Face detection, model loading and image decoding are foreign neural-network and
  browser calls. Descriptors are given `seq<real>`, and detection is the `Detector`
  parameter. A failed image fetch and "no face" are both `None`, because the source
  skips the player in both cases.
- React state wiring, status messages, canvas drawing, `console` output and the JSON
  Blob download are left out. The download's content is the `output` sequence.
- `Math.random` player ids are a parameter (`ids`) of `PlayerNames.InitialPlayers`.
- `import.meta.glob` discovery of image paths is not modelled; the paths are a
  parameter.
- `calculateEnhancedSimilarity`, used by the face-api.js screen, is not part of this
  model. That screen is `SingleDetection.Matches` with the score function as a
  parameter.
- `faceapi.euclideanDistance` is not modelled; `ImageUtils.UnitDistanceSimilarity`
  takes the distance as given.
- IEEE-754 and `Float32Array` precision are not modelled. Descriptors are exact reals,
  and the `Float32Array` ↔ `Array` conversion in serialization is the identity. Hence
  "serialised descriptors keep their length and values" holds by construction and
  has no member of its own.
- The catalog loaders in `services/playerData.ts` are not modelled. They always build
  `new Float32Array(player.descriptor)`, so the `None` descriptor branches of
  `SingleDetection.MediapipeMatches` and `FusedDetection.Similarity` model only the
  literal checks in the screens (`player.descriptor!`, `!mediapipePlayer?.descriptor`).
  A descriptor missing from the JSON arrives there as an empty vector instead.
- NaN cases (0/0 in floating point) are excluded by preconditions rather than
  modelled as values; the lines below name each member that carries one.
- FaceUtils.Similarity: requires that the two descriptors are not both empty.
- FusedDetection.MediapipeComponent: requires that the two descriptors are not both empty.
- FusedDetection.Similarity: requires the same of the MediaPipe descriptor at the index.
- FusedDetection.FindMatches: requires the same of every MediaPipe catalog descriptor.
- SingleDetection.MediapipeMatches: requires the same of every catalog descriptor; in the source such a NaN score would fail the `> 40` filter and be dropped silently.
- MultiModel.MediapipeSimilarity: requires a non-empty desc1, a desc2 at least as long (a shorter one reads `undefined`), and not both the distance and the maximum distance zero.
- MultiModel.FaceApiSimilarity: requires a desc2 at least as long as desc1 and non-zero norms of desc1 and of the part of desc2 the loop reads.
- MultiModel.CombinedSimilarity: requires both of the above, as it calls both scores.
- Players.UpdatePlayerInfo: requires the index to be in range. With an index past
  the end the source would write a partial player object there; the components only
  pass indices of rendered rows.
- StepwiseGenerator.ProcessNextPlayer: requires the index to be at least −1, the
  value it starts at and never goes below in the component.
- Players.UpdatePlayerInfo: the edit form only sets string fields, so `Field` has
  no descriptor case.
- In the stepwise generator, the extra `processNextPlayer` that `generateEmbeddings`
  awaits only touches component state (index, count and the fresh collected list).
  Its entry does not reach that run's download. It stays in state and reaches the
  next run's download (see ## Findings). `StepwiseGenerator.GenerateAsWritten` models
  its effect on the session, not its status messages.
- Overlapping `generateEmbeddings` runs are not modelled. The generate button is
  disabled only while the model is not loaded or the catalog is empty, not while a
  run is in progress, so a second press can start a run before the first finishes.
  `StepwiseGenerator.GenerateAsWritten` and `StepwiseGenerator.Generate` model runs
  one after another.

## Findings

| source | as written | input that shows it | evidently intended | confidence | as-written member | corrected member |
|---|---|---|---|---|---|---|
| src/components/EmbeddingGenerator/EmbeddingFaceAPI.tsx:282-288 | `generateEmbeddings` clears the collected list with `setProcessedPlayers([])`, then pushes into `processedPlayers` from its own render's closure. That array still holds what earlier `processNextPlayer` calls left in state, including the entry that the previous run's own call (line 254) added, and the download (lines 298-301) is built from it. | Two catalog players whose images have faces: press "generate" twice. The second download lists the first player twice (three entries), while the message reports 2 processed. | The download holds each player with a face exactly once, in catalog order, as the batch generator's does. | high, not executed | StepwiseGenerator.GenerateAsWritten (with StepwiseGenerator.GenerateTwiceExample and StepwiseGenerator.GenerateTwiceDuplicates) | StepwiseGenerator.Generate |
