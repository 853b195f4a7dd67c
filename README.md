# Kalman object tracking — a Dafny model of the tracker core

The repository runs a face detector on a video stream and follows each detected
object over time. The tracker keeps a registry (`std::map<uint, TrackItem*>`) of
tracks keyed by id. It feeds each frame's fresh detections into that registry in
three steps:

1. **Association.** Each detection, from the last one down to the first, goes to
   the not-yet-matched track whose overlap score `max(inter / detArea,
   inter / trackArea)` is largest. The score must be strictly greater than 0.20.
   That track is corrected with the measurement, and the detection is erased
   from the vector.
2. **Creation.** Every detection left over becomes a new pending track. Its id
   comes from a static `maxId` counter.
3. **Ageing.** Tracks present at the start of the frame and not matched in it
   are visited in ascending id order and predicted with no measurement. A track is dropped after its
   twentieth consecutive miss, or on its first miss while it is still pending.
   A track is pending until its active-frame count, 1 at creation and one more
   per match, exceeds three: it becomes active on its third match.

The face aligner's integer helpers are modelled too: the eye centers, the
largest padding of the face box inside the image, the clamp of that padding to
half the face width, and the translation of the eye coordinates when the face
is cropped.

The project has these modules:

- `ints.dfy` (`Ints`): `unsigned short` and `uint` as newtypes, with the
  wrap-around of `++` and `--`.
- `geometry.dfy` (`Geometry`): detection rectangles and the overlap score. A
  double division by a zero area is positive infinity (`Score.Infinite`).
- `kalman.dfy` (`Kalman`): the estimator's state. `predict` and `correct` are
  parameters.
- `tracker_params.dfy` (`TrackerParams`): the two lifecycle thresholds.
- `map_order.dfy` (`MapOrder`): the ascending key order of a `std::map`.
- `track_item.dfy` (`TrackItems`): a track as a value (`TrackView`), the static
  id/instance counters, and the `TrackItem` class whose fields the updates
  change in place.
- `registry_spec.dfy` (`RegistrySpec`): pure functions for each step of a frame,
  over a value of the registry, and the properties proved about them.
- `tracker.dfy` (`Registry`): the `Tracker` class. Its map of track objects is
  mutated by `add`/`drop` and by the frame update. Every method is proved to
  leave the registry in the state the matching `RegistrySpec` function computes.
- `aligner.dfy` (`Alignment`): the aligner helpers and the `Aligner` class.

Calls into code that is not part of this model are parameters:

- `Rect::intersect` and the `DetectionRect` constructor are the two functions
  of `RectOps`. The only thing assumed about the intersection is that it is a
  natural number.
- `cv::KalmanFilter::predict` and `correct` are the two functions of
  `KalmanOps`.

The code departs from its own stated intent in two places, and treats one edge
case in a way worth noting. The model follows the code each time:

- **Ids can be reused.** The header calls `id` the "unique id of track item"
  (TrackItem.h:60). In the code, destroying a pending track decrements
  `maxId` (TrackItem.h:28). The next track can then get the id of a live one,
  and `std::map::insert` silently keeps the old entry (Tracker.h:34), so that
  detection is lost. `RegistrySpec.AddNewCollision` and
  `RegistrySpec.CollisionAfterPendingDrop` state this. Ageing is where the
  program drops tracks (Tracker.cpp:208-209): `RegistrySpec.AgeOne` and
  `RegistrySpec.AgeStatics` carry the destructor's update of `maxId` through
  the loop, `RegistrySpec.FrameStatics` through a whole frame, and
  `RegistrySpec.EmptyFrameReturnsPendingId` shows a frame without detections
  handing a pending track's id back.
- **Zero-area detections always pass the threshold.** Nothing before matching
  rejects a detection of zero width or height. When it overlaps a track, the
  code divides by its zero area, and the resulting infinite score passes the
  threshold (`Geometry.ZeroAreaAlwaysAboveThreshold`).
- **The instance counter is never incremented.** `counter` is documented to
  "count TrackItem instances" (TrackItem.h:73-74), and the constructor's comment
  reads "count instances + assign new" (TrackItem.h:22). The constructor never
  increments `counter`, and each destruction decrements it. So it wraps to
  2^32 - 1 on the first destruction
  (`TrackItems.CounterWrapsOnFirstDestruction`).

## Model

| member | source | states |
|---|---|---|
| Ints.Inc16 | TrackItem.cpp:57 | `++` on an `unsigned short`: one more, and 0 after 2^16 - 1; `Ints.WrapModulo` states it modulo 2^16 |
| Ints.Inc32 | TrackItem.cpp:29 | `++` on a `uint`: one more, and 0 after 2^32 - 1; `Ints.WrapModulo` states it modulo 2^32 |
| Ints.Dec32 | TrackItem.h:28 | `--` on a `uint`: one less, and 2^32 - 1 before 0; `Ints.WrapModulo` states it modulo 2^32 |
| Ints.WrapModulo | TrackItem.h:23-28 | `++` on an `unsigned short` adds one modulo 2^16; `++` and `--` on a `uint` add and subtract one modulo 2^32 |
| Ints.Add32 | TrackItem.h:23 | n successive `++` on a `uint`; `Ints.Add32Modulo` states their sum |
| Ints.Sub32 | TrackItem.h:28 | n successive `--` on a `uint`; `Ints.Sub32Modulo` states their difference |
| Ints.Sub32Modulo | TrackItem.h:28 | n decrements of a `uint` subtract n modulo 2^32 |
| Ints.Sub32AfterAdd32 | TrackItem.h:23-28 | n increments followed by m decrements move a `uint` by n - m modulo 2^32 |
| Ints.Add32Modulo | TrackItem.cpp:29 | n increments of a `uint` add n modulo 2^32 |
| Ints.Add32NoWrap | TrackItem.cpp:29 | without overflow, n increments add exactly n |
| Geometry.Area | Tracker.cpp:163-164 | the area of a box is `width * height`, the divisor of both ratios; `int` overflow is admitted under Left out |
| Geometry.Gt | Tracker.cpp:167-176 | the double `>` of the scan and of the threshold test: +infinity exceeds every finite value, finite values compare as reals; `Geometry.GtTransitive` states it is a strict total order |
| Geometry.GtTransitive | Tracker.cpp:167-176 | `Gt` is irreflexive and transitive, mixes with its negation transitively, and two scores neither of which exceeds the other are equal |
| Geometry.Ratio | Tracker.cpp:163-164 | for a positive area, the ratio is the exact quotient inter / area, and it is non-negative |
| Geometry.MatchScore | Tracker.cpp:167-169 | the score is one of the two ratios, and neither ratio exceeds it |
| Geometry.MaxScore | Tracker.cpp:167-169 | `std::max<double>` is one of its arguments and neither argument exceeds it |
| Geometry.RatioAboveThreshold | Tracker.cpp:163-176 | for a positive area, the ratio passes 0.20 exactly when 5 * inter > area |
| Geometry.MatchScoreAboveThreshold | Tracker.cpp:163-176 | with both areas positive, the score passes the threshold exactly when one of the two ratios does |
| Geometry.ZeroAreaAlwaysAboveThreshold | Tracker.cpp:161-176 | with a positive intersection, a zero-area detection scores +infinity against any track and always passes the threshold |
| Kalman.InitialFilter | TrackItem.cpp:121-127 | a new filter has its position seeded with the detection's corners, zero velocity and the 8x8 identity as error covariance |
| MapOrder.SetMin | Tracker.cpp:201 | the first key of the map: a member that is below or equal to every key |
| MapOrder.SortedKeys | Tracker.cpp:201 | the keys in strictly ascending order, each exactly once |
| MapOrder.SortedKeysUnique | Tracker.cpp:144 | any strictly ascending listing of exactly the keys is the map's iteration order |
| MapOrder.KeysInOrder | Tracker.cpp:153 | an iteration yields strictly ascending keys, exactly those of the map |
| TrackItems.TrackView.Matched | TrackItem.cpp:27-44 | a matched track gains one active frame (with `uint` wrap-around) and has no misses; its filter is the prediction corrected with the detection's corners; its rect's corners are that filter's position, its size is derived from them, and its angle and scale are kept |
| TrackItems.TrackView.Missed | TrackItem.cpp:53-66 | a miss adds one inactive frame (`unsigned short`); the track survives exactly when it has fewer than 20 misses and is active; a surviving track's filter is the prediction and its rect's corners are the predicted position; a dropped track keeps its filter and rect; angle and scale are always kept |
| TrackItems.RectFrom | TrackItem.cpp:74-85 | the rect takes the filter's corners, its width and height are the corner differences, and angle and scale are kept |
| TrackItems.NewView | TrackItem.h:23-25 | the value of a new track: one active frame, no misses, the filter seeded from the detection; `TrackItems.NewViewIsPending` states its properties |
| TrackItems.TrackView.IsActive | TrackItem.cpp:15-18 | a track is active when its active-frame count exceeds `NUM_MIN_DETECTIONS`; `TrackItems.ActivationDelay` states when that first holds |
| TrackItems.TrackItem.IsActive | TrackItem.cpp:15-18 | the object's `isActive()` is that of its value |
| TrackItems.NewViewIsPending | TrackItem.h:23-25 | a new track is pending, has one active frame and no misses, and its filter starts at the detection's corners |
| TrackItems.MatchedAllCounts | TrackItem.cpp:29-30 | n matches add n active frames and leave no misses |
| TrackItems.ActivationDelay | TrackItem.cpp:15-18 | a new track becomes active exactly after its third match (more than 3 active frames) |
| TrackItems.SurvivesMissesExactly | TrackItem.cpp:57-58 | an active track survives n consecutive misses exactly when its misses stay below 20 |
| TrackItems.RetiredOnTwentiethMiss | TrackItem.cpp:53-66 | a freshly matched active track survives 19 misses and is dropped on the 20th |
| TrackItems.PendingDroppedOnFirstMiss | TrackItem.cpp:57-58 | a pending track does not survive its first miss |
| TrackItems.UpdatesKeepLiveInvariant | TrackItem.cpp:27-66 | both updates keep "fewer than 20 misses, and none while pending"; a surviving miss adds exactly one |
| TrackItems.Created | TrackItem.h:23 | construction advances `maxId` by one (wrapping) and leaves the instance counter alone |
| TrackItems.Destroyed | TrackItem.h:28 | destruction decrements the counter, and decrements `maxId` only for a pending track |
| TrackItems.PendingIdReturned | TrackItem.h:23-28 | creating and then destroying a pending track restores `maxId` |
| TrackItems.CounterWrapsOnFirstDestruction | TrackItem.cpp:6-7 | starting from `counter = 0`, the first destruction wraps the counter to 2^32 - 1 |
| TrackItems.Counters.constructor | TrackItem.cpp:6-7 | the statics start at `maxId = 1`, `counter = 0` |
| TrackItems.TrackItem.constructor | TrackItem.h:23-25 | the new track takes the current `maxId` as its id, advances it, and starts pending with one active frame at the detection |
| TrackItems.TrackItem.Destroy | TrackItem.h:28 | the destructor updates the statics as `Destroyed` says |
| TrackItems.TrackItem.Update | TrackItem.cpp:27-44 | the object's new state is the matched value of its old state |
| TrackItems.TrackItem.UpdateMissed | TrackItem.cpp:53-66 | the result and the new state are the miss outcome of the old state |
| TrackItems.TrackItem.SetRectFrom | TrackItem.cpp:74-85 | only the rect changes, and it is derived from the filter state |
| RegistrySpec.Insert | Tracker.h:34 | `insert` adds the id only when it is absent; an existing entry is kept |
| RegistrySpec.Drop | Tracker.h:35 | `drop` removes exactly that id, keeps every other track, and runs the destructor's update of the statics |
| RegistrySpec.PairScore | Tracker.cpp:159-169 | the score of a detection against a track is `MatchScore` of their intersection and their two boxes; `Geometry.MatchScore` states what it is |
| RegistrySpec.Candidate | Tracker.cpp:155-161 | a track the scan scores: present, not yet flagged in this frame, and with a positive intersection; `RegistrySpec.ScanBestBounds` ranges over exactly these |
| RegistrySpec.ScanStep | Tracker.cpp:155-171 | one iteration of the inner scan; `RegistrySpec.ScanBestBounds` states what the scan computes |
| RegistrySpec.ScanBest | Tracker.cpp:153-173 | the inner scan over the tracks in key order; `RegistrySpec.ScanBestBounds` and `RegistrySpec.ScanBestFirstOfTies` state its result |
| RegistrySpec.MatchOne | Tracker.cpp:150-180 | the choice of track for one detection; `RegistrySpec.MatchOneIsBest` states it |
| RegistrySpec.ScanBestBounds | Tracker.cpp:153-173 | the scan's result is at least its start; no unmatched, overlapping track scores above it; and it is either the start or such a track with its score |
| RegistrySpec.ScanBestFirstOfTies | Tracker.cpp:153-173 | because the comparison is strict, every candidate with a smaller id scores strictly less than the chosen one |
| RegistrySpec.Decide | Tracker.cpp:176-180 | a detection is matched exactly when the best score is above 0.20, and then to the best id |
| RegistrySpec.MatchOneIsBest | Tracker.cpp:150-180 | a match is an unmatched overlapping track above 0.20 with the highest score, the smallest id among equals; with no match, no candidate passes 0.20 |
| RegistrySpec.InitialFlags | Tracker.cpp:144-145 | there is one flag per track present at the start of the frame, all false |
| RegistrySpec.AssocFrom | Tracker.cpp:148-184 | association keeps the set of flagged ids and the set of tracks |
| RegistrySpec.MatcherPicksUnmatched | Tracker.cpp:155-156 | the matcher only ever picks a track not flagged yet |
| RegistrySpec.EraseStep | Tracker.cpp:176-183 | one iteration at index i either matches an unmatched track and erases the detection, or keeps it; the remaining iterations then work on the shortened vector |
| RegistrySpec.AssocFromFlagged | Tracker.cpp:155-156 | a track that is already flagged stays flagged and is not updated again |
| RegistrySpec.AssocFromUnmatched | Tracker.cpp:153-183 | a track that ends unflagged is unchanged |
| RegistrySpec.AssocFromMatched | Tracker.cpp:180-181 | a track that ends flagged holds its old state updated with one detection whose index was taken, so it has one more active frame and no misses |
| RegistrySpec.AssocFromCounts | Tracker.cpp:176-182 | the detections kept plus the tracks newly flagged number the detections visited, and as many indices are taken as tracks are newly flagged |
| RegistrySpec.AssocFromTakenGrows | Tracker.cpp:180-182 | the set of matched indices only grows along the loop |
| RegistrySpec.PairsFrom | Tracker.cpp:176-182 | the pairing of matched detection indices with tracks, built in the same pass; every index is one of the visited detections |
| RegistrySpec.AssocFromPairs | Tracker.cpp:153-183 | the pairing covers exactly the indices taken in the pass; each goes to its own track, unmatched before, flagged after, and holding its old state updated with that detection; every track flagged in the pass got one of them |
| RegistrySpec.AssocFromPairsMatch | Tracker.cpp:176-183 | the same, when the last detection is matched |
| RegistrySpec.Keep | Tracker.cpp:182 | the detections whose index was not matched, in order; `RegistrySpec.AssocFromKept` ties it to the vector left |
| RegistrySpec.KeepNothingTaken | Tracker.cpp:182 | keeping with nothing taken returns every detection, in order |
| RegistrySpec.AssocFromKept | Tracker.cpp:182 | the vector left is the input without the matched indices, in the original order |
| RegistrySpec.AssociateShape | Tracker.cpp:138-188 | after association: flags cover exactly the tracks; unmatched tracks are unchanged; each matched one is its old state updated with one of the taken detections, so it has one more active frame and no misses; leftover count plus matched count is the number of detections |
| RegistrySpec.Associate | Tracker.cpp:138-188 | the association step; `RegistrySpec.AssociateShape` and `RegistrySpec.AssociatePairs` state its result |
| RegistrySpec.Pairing | Tracker.cpp:176-182 | the track each erased detection updated; every index is one of the detections |
| RegistrySpec.AssociatePairs | Tracker.cpp:138-188 | the matching is one-to-one: each erased detection updated its own track, which ends flagged and holds its old state updated with that detection, and every flagged track was updated by exactly one of them |
| RegistrySpec.AddOne | Tracker.cpp:221-222 | one new track is inserted under `maxId`, unless that id is taken; `maxId` advances either way |
| RegistrySpec.AddNew | Tracker.cpp:219-223 | creation keeps every existing track and the instance counter |
| RegistrySpec.AddNewAdvancesMaxId | Tracker.cpp:221-222 | `maxId` advances by the number of leftover detections, modulo 2^32 |
| RegistrySpec.AddNewAddsPendingAt | Tracker.cpp:219-223 | a track that creation adds is the new track built from one of the leftover detections, under one of the ids handed out, pending with no misses |
| RegistrySpec.AddNewBuiltFrom | Tracker.cpp:219-223 | a track that creation adds equals `NewView` of one of the leftover detections |
| RegistrySpec.AddNewAddsPending | Tracker.cpp:219-223 | every track that creation adds is the new track built from one of the leftover detections, under one of the ids handed out, pending with no misses |
| RegistrySpec.AddNewFirst | Tracker.cpp:221-222 | when `maxId` is free, the first leftover detection becomes the track under `maxId` |
| RegistrySpec.AddOneKeepsIdsBelow | TrackItem.h:23 | without wrap-around, all ids stay below `maxId` |
| RegistrySpec.AddNewFreshId | Tracker.cpp:219-223 | with all ids below `maxId` and no wrap-around, detection j becomes the new track `maxId + j` |
| RegistrySpec.AddNewFreshCount | Tracker.cpp:219-223 | with all ids below `maxId` and no wrap-around, creation adds exactly one track per detection |
| RegistrySpec.AddNewFreshIds | Tracker.cpp:219-223 | both of the above, for every leftover detection |
| RegistrySpec.AddNewCollision | Tracker.h:34 | when `maxId` names a live track, the new detection is lost but `maxId` still advances |
| RegistrySpec.AgeOne | Tracker.cpp:204-209 | a flagged track is kept unchanged; an unflagged one takes the miss update and stays exactly when that update returns true; other tracks are untouched; when the track is dropped its destructor updates `counter` and `maxId` (TrackItem.h:28), otherwise the statics are unchanged |
| RegistrySpec.Age | Tracker.cpp:197-211 | ageing never adds a track |
| RegistrySpec.AgeKeeps | Tracker.cpp:204-205 | a flagged track, or one without a flag, is unchanged by ageing |
| RegistrySpec.AgeMissed | Tracker.cpp:207-209 | an unflagged track is kept exactly when its miss update returns true, and then holds the updated value |
| RegistrySpec.AgeShape | Tracker.cpp:197-211 | both of the above, for every track |
| RegistrySpec.DropCount | Tracker.cpp:207-209 | the number of unflagged tracks whose miss update drops them, at most the number listed |
| RegistrySpec.PendingMissCount | Tracker.cpp:207-209 | the number of unflagged pending tracks, each dropped on its miss, at most the number listed |
| RegistrySpec.CountsAgree | Tracker.cpp:204-209 | both counts depend only on the unflagged tracks |
| RegistrySpec.AgeStatics | Tracker.cpp:197-211 | after the ageing loop, `counter` is one lower per dropped track and `maxId` one lower per dropped pending track, with wrap-around |
| RegistrySpec.Frame | Tracker.cpp:114-127 | one call of `updateWith`: associate, add the leftovers, age; `RegistrySpec.FrameShape` and `RegistrySpec.FrameStatics` state its result |
| RegistrySpec.FrameStatics | Tracker.cpp:114-127 | over one frame, `maxId` is incremented once per leftover detection and then decremented once per pending track left unmatched, and `counter` is decremented once per dropped track, all with `uint` wrap-around |
| RegistrySpec.EmptyFrameReturnsPendingId | TrackItem.h:28 | a frame without detections drops a lone pending track, leaves the registry empty, and decrements both `maxId` and `counter` |
| RegistrySpec.FrameShapeAt | Tracker.cpp:114-127 | for one id after a frame: a matched track is its old state updated with one of the frame's detections, so it has one more active frame and no misses, and was not aged; an unmatched track survives exactly when its miss update says so; a track the frame added is the new track built from one of the leftover detections, is pending, has no misses, and has one of the ids handed out |
| RegistrySpec.FrameShape | Tracker.cpp:114-127 | after a frame: each matched track is its old state updated with one of the frame's detections, so it has one more active frame and no misses, and is not aged; unmatched tracks survive exactly when their miss update says so; every track the frame added is the new track built from one of the leftover detections, is pending, has no misses, and has one of the ids handed out |
| RegistrySpec.FrameEstablishesLive | Tracker.cpp:114-127 | after any frame, every track has fewer than 20 misses, and none while pending |
| RegistrySpec.FirstFrame | Tracker.cpp:114-127 | on an empty registry, no detection is matched, and detection j becomes the pending track `maxId + j` |
| RegistrySpec.CollisionAfterPendingDrop | TrackItem.h:23-28 | after dropping a pending track, `maxId` can name a live track, and the next detection is lost |
| Registry.Tracker.constructor | Tracker.h:25 | a new tracker has no tracks |
| Registry.Tracker.Add | Tracker.h:34 | the object map has the track inserted unless its id is present; the registry value follows `Insert` |
| Registry.Tracker.Drop | Tracker.h:35 | the object map loses exactly that id; the registry value follows `RegistrySpec.Drop` |
| Registry.Tracker.NumItems | Tracker.h:41 | the number of tracks, truncated to `uint` |
| Registry.Tracker.BestMatch | Tracker.cpp:150-173 | the running `maxIdx`/`maxArea` loop ends with the best candidate of the scan over the keys |
| Registry.Tracker.ScoreTrack | Tracker.cpp:155-171 | one loop iteration: a flagged or non-overlapping track is skipped, and a strictly better score replaces the running best |
| Registry.Tracker.UpdateActiveItems | Tracker.cpp:138-188 | the tracks, flags and detection vector after association are those of `Associate` |
| Registry.Tracker.MatchDetections | Tracker.cpp:148-184 | the reverse loop over the detections produces the association result |
| Registry.Tracker.MatchStep | Tracker.cpp:149-183 | one iteration of the reverse loop, including the erase, preserves the association result still to come |
| Registry.Tracker.UnmatchedFlags | Tracker.cpp:144-145 | the flag map holds a false flag for each track, and nothing else |
| Registry.Tracker.MatchTrack | Tracker.cpp:180-181 | flagging and updating track `maxIdx` changes only that track, to its matched value |
| Registry.Tracker.AddNewItems | Tracker.cpp:219-223 | the loop over the leftover detections leaves the registry as `AddNew` says |
| Registry.Tracker.AddItem | Tracker.cpp:222 | `add(new TrackItem(d))` leaves the registry as `AddOne` says |
| Registry.Tracker.UpdateInactiveItems | Tracker.cpp:197-211 | the ascending loop over the flags leaves the registry as `Age` over the sorted flag keys says |
| Registry.Tracker.AgeItem | Tracker.cpp:204-209 | one iteration leaves the registry as `AgeOne` says, and membership of other ids is unchanged |
| Registry.Tracker.UpdateWith | Tracker.cpp:114-127 | the three steps leave the registry, and the detection vector, as `Frame` says |
| Alignment.Min | Aligner.cpp:189-192 | `std::min` on two ints: at most both arguments and equal to one of them |
| Alignment.MaxPadding | Aligner.cpp:182-193 | the result is at most each of the four margins and equal to one of them |
| Alignment.PaddingFits | Aligner.cpp:182-193 | a padding fits on all four sides exactly when it is at most `maxPadding` |
| Alignment.ClampPadding | Aligner.cpp:42-43 | after the clamp, twice the padding is at most the width; the padding never grows; it is unchanged when it already fits |
| Alignment.ClampIsMin | Aligner.cpp:42-43 | the clamp is the smaller of the padding and half the width, rounded down |
| Alignment.RoundHalf | Aligner.cpp:25-29 | `round(s / 2.)` is within one half of s / 2, rounding halves away from zero (the tie rule of `std::round`) |
| Alignment.RoundHalfIsNearest | Aligner.cpp:25-29 | no integer is nearer to s / 2 |
| Alignment.RoundHalfMonotone | Aligner.cpp:25-29 | rounding keeps the order of the sums |
| Alignment.Center | Aligner.cpp:25-29 | each coordinate of an eye center is the rounded midpoint of the rect's range |
| Alignment.LeftIndex | Aligner.cpp:16-22 | the left eye is the one with strictly smaller `x1`, or `eyes[1]` on a tie |
| Alignment.EyeCenters | Aligner.cpp:11-30 | the left and right centers are the centers of the left and the other eye |
| Alignment.EyeCentersOrderFree | Aligner.cpp:16-22 | without a tie, swapping the two eyes gives the same centers, and later detections are ignored |
| Alignment.LeftCenterIsLeft | Aligner.cpp:16-28 | for eyes of equal width, the left center is not right of the right center |
| Alignment.CropPadding | Aligner.cpp:39-43 | the padding used is at most `x1` and `y1`, and at most half the width |
| Alignment.CropWindow | Aligner.cpp:47 | the crop rectangle: the face box grown by the padding on every side; `Alignment.CropInsideImage` states that it lies inside the image |
| Alignment.CropInsideImage | Aligner.cpp:39-50 | the crop window starts inside the image, so the `unsigned int` offsets keep their value; it ends inside when the box is no wider or taller than its corner span |
| Alignment.Aligner.constructor | Aligner.h:20-21 | a new aligner holds the image and box, and the eye centers of the first two eye detections |
| Alignment.Aligner.ComputeEyeCenters | Aligner.cpp:11-30 | the eye fields become the left and right eye centers |
| Alignment.Aligner.UpdateEyes | Aligner.cpp:104-110 | both eyes move by (-dx, -dy), and the vector between them is unchanged |
| Alignment.Aligner.Crop | Aligner.cpp:39-50 | the crop window is the box padded by the clamped `maxPadding`, and the eyes end in its coordinates |

## Left out

- `Tracker::onVideo`: camera capture, the detector call, drawing and the window I/O loop are input and output.
- `Tracker::~Tracker`: it erases map entries while iterating over the map, which is undefined behaviour; it also deletes the detector.
- `totalTime`, `uptime` and `tStart`: these read the clock.
- `numFrames`: a counter that the constructor sets to 0 and that nothing reads or updates (Tracker.h:25, Tracker.h:61).
- Main.cpp: this is not part of this model.
- The Kalman numerics: the transition, measurement and noise matrices, and float32 `predict`/`correct`. These are parameters (`KalmanOps`), so the model does not say how the estimate moves.
- `Rect::intersect` and the `DetectionRect` constructor: these are parameters (`RectOps`). Their only known property is that the intersection is a natural number.
- TrackItems.RectFrom: the float-to-int truncation of the state vector is not modelled. The corners are the filter position as given.
- Geometry.MatchScore: the ratios are exact reals. The model does not capture double rounding, or that the literal 0.20 as a double is slightly above 0.2. `Ratio(0, 0)` is `Infinite` where the double `0.0 / 0.0` is NaN; the matcher only scores a positive intersection (Tracker.cpp:161), so that case does not arise.
- Geometry.Area: `width * height` is unbounded, so the model does not capture `int` overflow of the area product.
- Registry.Tracker.BestMatch: `maxIdx` is an unbounded `int` holding the id. The code converts the id to `int` and back to `uint`, and that round trip gives the same key.
- Registry.Tracker.MatchDetections: the reverse loop counter is unbounded, so the model does not capture `int i = freshDetects.size() - 1` overflowing for more than 2^31 detections.
- Alignment.Aligner.UpdateEyes: the coordinates are unbounded integers, so the model does not capture the 32-bit wrap-around of `cv::Point2i` or of the `unsigned int` subtraction. The offsets are natural numbers because `Alignment.CropInsideImage` shows they are non-negative at the crop.
- Alignment.MaxPadding: the margins are unbounded integers, so the model does not capture `int` overflow of `width - x2 - 1`.
- Alignment.RoundHalf: the model rounds exact halves. It does not capture the double-precision `round` or the conversion of its result to `int`. Aligner.cpp opens `namespace cvip`, so the unqualified `round` may resolve to a `cvip::round` whose definition is not part of this model; the model assumes the tie rule of `std::round`, halves away from zero. The two rules can differ only on the negative odd sums.
- `rotAngle`, `ptrotate`, `rotateEyes` and `strictRect`: these rotate with `atan2`/`sin`/`cos` on doubles and mix `size_t` with doubles.
- The image work in `getAligned`: cropping a `cv::Mat` and rotating the image.
- Aligner.h: declarations only.
