/** One tracked object: its identity, activity counters, estimator and the
    rectangle derived from the estimator; and the two class-wide counters that
    hand out identities. */
module TrackItems {
  import opened Ints
  import opened Geometry
  import opened Kalman
  import opened TrackerParams

  /** The value of a track: every field but the constant id. */
  datatype TrackView = TrackView(
    numActiveFrames: uint32,
    numInactiveFrames: uint16,
    filter: FilterState,
    dRect: DetectionRect)
  {
    /** Pending while its active-frame count is at most `NUM_MIN_DETECTIONS`. */
    predicate IsActive()
    {
      numActiveFrames as int > NUM_MIN_DETECTIONS as int
    }

    /** The state after a frame that matched detection `d`: one more active frame,
        the miss count reset, the filter predicted then corrected with the
        detection's corners, and the rectangle read back from the filter. */
    function Matched(d: DetectionRect, kf: KalmanOps): (r: TrackView)
      ensures r.numActiveFrames == Inc32(numActiveFrames) && r.numInactiveFrames == 0
      ensures r.filter == kf.correct(kf.predict(filter), CornersOf(d))
      ensures RectMatchesFilter(r)
      ensures r.dRect.angle == dRect.angle && r.dRect.scale == dRect.scale
    {
      var post := kf.correct(kf.predict(filter), CornersOf(d));
      TrackView(Inc32(numActiveFrames), 0, post, RectFrom(dRect, post))
    }

    /** The state after a frame without a detection, and whether the track
        survives it. The miss count is incremented first; a track that has
        reached the limit or is not active is not predicted. */
    function Missed(kf: KalmanOps): (r: MissOutcome)
      ensures r.view.numInactiveFrames == Inc16(numInactiveFrames)
      ensures r.view.numActiveFrames == numActiveFrames
      ensures r.alive <==> r.view.numInactiveFrames < NUM_MAX_INACTIVE_FRAMES && IsActive()
      ensures r.alive ==> r.view.numInactiveFrames <= NUM_MAX_INACTIVE_FRAMES - 1
      ensures r.alive ==> r.view.filter == kf.predict(filter) && RectMatchesFilter(r.view)
      ensures r.view.dRect.angle == dRect.angle && r.view.dRect.scale == dRect.scale
      ensures !r.alive ==> r.view.filter == filter && r.view.dRect == dRect
    {
      var counted := this.(numInactiveFrames := Inc16(numInactiveFrames));
      if counted.numInactiveFrames >= NUM_MAX_INACTIVE_FRAMES || !counted.IsActive() then
        MissOutcome(false, counted)
      else
        var pre := kf.predict(filter);
        MissOutcome(true, counted.(filter := pre, dRect := RectFrom(dRect, pre)))
    }

    /** What the registry keeps true of every live track: fewer than
        `NUM_MAX_INACTIVE_FRAMES` misses, and no miss at all while pending. */
    predicate LiveInvariant()
    {
      numInactiveFrames < NUM_MAX_INACTIVE_FRAMES && (!IsActive() ==> numInactiveFrames == 0)
    }
  }

  datatype MissOutcome = MissOutcome(alive: bool, view: TrackView)

  /** The rectangle's corners are the filter's position and its size is derived
      from them. */
  predicate RectMatchesFilter(tv: TrackView)
  {
    CornersOf(tv.dRect) == tv.filter.position
    && tv.dRect.width == tv.dRect.x2 - tv.dRect.x1
    && tv.dRect.height == tv.dRect.y2 - tv.dRect.y1
  }

  /** `setRectFrom`: corners from the state, width and height derived from the
      corners, angle and scale kept. */
  function RectFrom(r: DetectionRect, state: FilterState): (s: DetectionRect)
    ensures CornersOf(s) == state.position
    ensures s.width == s.x2 - s.x1 && s.height == s.y2 - s.y1
    ensures s.angle == r.angle && s.scale == r.scale
  {
    var c := state.position;
    r.(x1 := c.x1, y1 := c.y1, x2 := c.x2, y2 := c.y2, width := c.x2 - c.x1, height := c.y2 - c.y1)
  }

  /** A track built from detection `d`. */
  function NewView(d: DetectionRect, rects: RectOps): TrackView
  {
    TrackView(1, 0, InitialFilter(d),
              rects.make(d.x1, d.y1, d.width, d.height, d.angle, d.scale))
  }

  /** A new track starts pending, with no misses. */
  lemma NewViewIsPending(d: DetectionRect, rects: RectOps)
    ensures !NewView(d, rects).IsActive()
    ensures NewView(d, rects).numActiveFrames == 1 && NewView(d, rects).numInactiveFrames == 0
    ensures NewView(d, rects).LiveInvariant()
    ensures NewView(d, rects).filter.position == CornersOf(d)
  {
  }

  /** The state after matching each detection of `ds` in turn. */
  function MatchedAll(tv: TrackView, ds: seq<DetectionRect>, kf: KalmanOps): TrackView
    decreases |ds|
  {
    if ds == [] then tv else MatchedAll(tv.Matched(ds[0], kf), ds[1..], kf)
  }

  /** Matching `n` frames in a row adds `n` active frames (modulo 2^32) and leaves
      no miss counted. */
  lemma {:induction false} MatchedAllCounts(tv: TrackView, ds: seq<DetectionRect>, kf: KalmanOps)
    ensures MatchedAll(tv, ds, kf).numActiveFrames == Add32(tv.numActiveFrames, |ds|)
    ensures ds != [] ==> MatchedAll(tv, ds, kf).numInactiveFrames == 0
    decreases |ds|
  {
    if ds != [] {
      MatchedAllCounts(tv.Matched(ds[0], kf), ds[1..], kf);
    }
  }

  /** Activation delay: a new track matched on each of the next `|ds|` frames is
      active exactly from the third further match on (its fourth frame). */
  lemma ActivationDelay(d: DetectionRect, rects: RectOps, ds: seq<DetectionRect>, kf: KalmanOps)
    requires |ds| < U32_LIMIT - 1
    ensures MatchedAll(NewView(d, rects), ds, kf).numActiveFrames as int == 1 + |ds|
    ensures MatchedAll(NewView(d, rects), ds, kf).IsActive() <==> |ds| >= NUM_MIN_DETECTIONS as int
  {
    MatchedAllCounts(NewView(d, rects), ds, kf);
    Add32NoWrap(1, |ds|);
  }

  /** The track survives `n` consecutive frames without a detection. */
  predicate SurvivesMisses(tv: TrackView, n: nat, kf: KalmanOps)
    decreases n
  {
    n == 0 || (tv.Missed(kf).alive && SurvivesMisses(tv.Missed(kf).view, n - 1, kf))
  }

  /** An active track with `m` misses so far survives `n` more misses exactly
      when `m + n` stays below `NUM_MAX_INACTIVE_FRAMES`. */
  lemma {:induction false} SurvivesMissesExactly(tv: TrackView, n: nat, kf: KalmanOps)
    requires tv.IsActive() && tv.numInactiveFrames < NUM_MAX_INACTIVE_FRAMES
    ensures SurvivesMisses(tv, n, kf) <==> tv.numInactiveFrames as int + n < NUM_MAX_INACTIVE_FRAMES as int
    decreases n
  {
    if n > 0 {
      var next := tv.Missed(kf);
      if next.alive {
        SurvivesMissesExactly(next.view, n - 1, kf);
      }
    }
  }

  /** Retirement: an active track that was just matched is still live after 19
      empty frames and is dropped on the 20th. */
  lemma RetiredOnTwentiethMiss(tv: TrackView, kf: KalmanOps)
    requires tv.IsActive() && tv.numInactiveFrames == 0
    ensures SurvivesMisses(tv, NUM_MAX_INACTIVE_FRAMES as nat - 1, kf)
    ensures !SurvivesMisses(tv, NUM_MAX_INACTIVE_FRAMES as nat, kf)
  {
    SurvivesMissesExactly(tv, NUM_MAX_INACTIVE_FRAMES as nat - 1, kf);
    SurvivesMissesExactly(tv, NUM_MAX_INACTIVE_FRAMES as nat, kf);
  }

  /** A pending track does not survive its first missed frame. */
  lemma PendingDroppedOnFirstMiss(tv: TrackView, kf: KalmanOps)
    requires !tv.IsActive()
    ensures !tv.Missed(kf).alive
    ensures !SurvivesMisses(tv, 1, kf)
  {
  }

  /** Both updates keep the lifecycle invariant of a live track. */
  lemma UpdatesKeepLiveInvariant(tv: TrackView, d: DetectionRect, kf: KalmanOps)
    requires tv.LiveInvariant()
    ensures tv.Matched(d, kf).LiveInvariant()
    ensures tv.Missed(kf).alive ==> tv.Missed(kf).view.LiveInvariant()
    ensures tv.Missed(kf).alive ==> tv.Missed(kf).view.numInactiveFrames as int == tv.numInactiveFrames as int + 1
  {
  }

  /** The class-wide counters `maxId` (next id to hand out) and `counter`. */
  datatype Statics = Statics(maxId: uint32, counter: uint32)

  /** The constructor takes the id `maxId` and increments `maxId`; it does not
      touch `counter`. */
  function Created(st: Statics): (r: Statics)
    ensures r.maxId == Inc32(st.maxId) && r.counter == st.counter
  {
    st.(maxId := Inc32(st.maxId))
  }

  /** The destructor decrements `counter`, and `maxId` too when the track
      was not active. */
  function Destroyed(st: Statics, tv: TrackView): (r: Statics)
    ensures r.counter == Dec32(st.counter)
    ensures r.maxId == if tv.IsActive() then st.maxId else Dec32(st.maxId)
  {
    Statics(if tv.IsActive() then st.maxId else Dec32(st.maxId), Dec32(st.counter))
  }

  /** Creating then destroying a pending track returns `maxId` to where it was,
      so the next track gets the same id again; `counter` ends one lower. */
  lemma PendingIdReturned(st: Statics, d: DetectionRect, rects: RectOps)
    ensures Destroyed(Created(st), NewView(d, rects)).maxId == st.maxId
    ensures Destroyed(Created(st), NewView(d, rects)).counter == Dec32(st.counter)
  {
  }

  /** The counter starts at 0 and is only ever decremented: the first destruction
      wraps it to 2^32 - 1. */
  lemma CounterWrapsOnFirstDestruction(tv: TrackView)
    ensures Destroyed(Statics(1, 0), tv).counter as int == U32_LIMIT - 1
  {
  }

  /** The storage of the static counters, shared by all tracks. */
  class Counters {
    var maxId: uint32
    var counter: uint32

    function Value(): Statics
      reads this
    {
      Statics(maxId, counter)
    }

    /** Static initialisation: `maxId = 1`, `counter = 0`. */
    constructor ()
      ensures Value() == Statics(1, 0)
    {
      maxId := 1;
      counter := 0;
    }
  }

  class TrackItem {
    const id: uint32
    var numInactiveFrames: uint16
    var numActiveFrames: uint32
    var kalman: FilterState
    var dRect: DetectionRect

    function View(): TrackView
      reads this
    {
      TrackView(numActiveFrames, numInactiveFrames, kalman, dRect)
    }

    predicate IsActive()
      reads this
    {
      View().IsActive()
    }

    /** `id(maxId++)`, counters at one active frame and no inactive frame, the
        filter seeded from `d`, the rectangle built from `d`. */
    constructor (d: DetectionRect, statics: Counters, rects: RectOps)
      modifies statics
      ensures id == old(statics.maxId)
      ensures statics.Value() == Created(old(statics.Value()))
      ensures View() == NewView(d, rects)
      ensures numActiveFrames == 1 && numInactiveFrames == 0
      ensures kalman.position == Corners(d.x1, d.y1, d.x2, d.y2)
    {
      id := statics.maxId;
      statics.maxId := Inc32(statics.maxId);
      numInactiveFrames := 0;
      numActiveFrames := 1;
      kalman := InitialFilter(d);
      dRect := rects.make(d.x1, d.y1, d.width, d.height, d.angle, d.scale);
    }

    /** The destructor's effect on the class-wide counters. */
    method Destroy(statics: Counters)
      modifies statics
      ensures statics.Value() == Destroyed(old(statics.Value()), View())
    {
      statics.counter := Dec32(statics.counter);
      if !IsActive() {
        statics.maxId := Dec32(statics.maxId);
      }
    }

    /** `update(d)`: the track was matched in this frame. */
    method Update(d: DetectionRect, kf: KalmanOps)
      modifies this
      ensures View() == old(View()).Matched(d, kf)
      ensures numActiveFrames == Inc32(old(numActiveFrames)) && numInactiveFrames == 0
    {
      numActiveFrames := Inc32(numActiveFrames);
      numInactiveFrames := 0;
      var predicted := kf.predict(kalman);
      kalman := kf.correct(predicted, CornersOf(d));
      SetRectFrom(kalman);
    }

    /** `update()`: the track was not matched in this frame; false means the
        caller must drop it. */
    method UpdateMissed(kf: KalmanOps) returns (alive: bool)
      modifies this
      ensures MissOutcome(alive, View()) == old(View()).Missed(kf)
      ensures alive <==> numInactiveFrames < NUM_MAX_INACTIVE_FRAMES && IsActive()
      ensures numActiveFrames == old(numActiveFrames)
    {
      numInactiveFrames := Inc16(numInactiveFrames);
      if numInactiveFrames >= NUM_MAX_INACTIVE_FRAMES || !IsActive() {
        return false;
      }
      kalman := kf.predict(kalman);
      SetRectFrom(kalman);
      return true;
    }

    /** `setRectFrom(state)` */
    method SetRectFrom(state: FilterState)
      modifies this`dRect
      ensures dRect == RectFrom(old(dRect), state)
      ensures dRect.width == dRect.x2 - dRect.x1 && dRect.height == dRect.y2 - dRect.y1
    {
      var c := state.position;
      dRect := dRect.(x1 := c.x1, y1 := c.y1, x2 := c.x2, y2 := c.y2);
      dRect := dRect.(width := dRect.x2 - dRect.x1, height := dRect.y2 - dRect.y1);
    }
  }
}
