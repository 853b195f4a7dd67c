/** The registry object: the map from id to track, `add`/`drop`, the three steps
    of `updateWith`, each proved to compute the corresponding function of
    `RegistrySpec` on the registry's abstract state. */
module Registry {
  import opened Ints
  import opened Geometry
  import opened Kalman
  import opened TrackItems
  import opened MapOrder
  import opened RegistrySpec

  class Tracker {
    /** `std::map<uint, TrackItem*> trackItems` */
    var trackItems: map<uint32, TrackItem>
    /** The storage of `TrackItem::maxId` and `TrackItem::counter`. */
    const counters: Counters

    /** Every track is stored under its own id (hence distinct keys hold
        distinct objects). */
    ghost predicate Valid()
      reads this, trackItems.Values
    {
      forall k :: k in trackItems ==> trackItems[k].id == k
    }

    /** The registry as a value: the view of each track, and the counters. */
    ghost function State(): (s: RegistryState)
      reads this, trackItems.Values, counters
      ensures s.items.Keys == trackItems.Keys
    {
      RegistryState(map k | k in trackItems :: trackItems[k].View(), counters.Value())
    }

    constructor (counters: Counters)
      ensures Valid()
      ensures State() == RegistryState(map[], counters.Value())
      ensures this.counters == counters
    {
      trackItems := map[];
      this.counters := counters;
    }

    /** `add(ti)`: `insert` keyed by `ti->id`, which keeps an existing entry. */
    method Add(ti: TrackItem)
      requires Valid()
      modifies this
      ensures Valid()
      ensures State() == RegistryState(Insert(old(State()).items, ti.id, ti.View()), old(State()).statics)
      ensures trackItems == if ti.id in old(trackItems) then old(trackItems) else old(trackItems)[ti.id := ti]
    {
      if ti.id !in trackItems {
        trackItems := trackItems[ti.id := ti];
      }
    }

    /** `drop(id)`: destroy the track and erase its entry; nothing happens to an
        absent id. */
    method Drop(id: uint32)
      requires Valid()
      modifies this, counters
      ensures Valid()
      ensures State() == RegistrySpec.Drop(old(State()), id)
      ensures trackItems == old(trackItems) - {id}
    {
      if id in trackItems {
        trackItems[id].Destroy(counters);
        trackItems := trackItems - {id};
      }
    }

    /** `numItems()`: the map's size, returned as a `uint`. */
    function NumItems(): (n: uint32)
      reads this, trackItems.Values, counters
      ensures n as int == |State().items| % U32_LIMIT
      ensures |State().items| < U32_LIMIT ==> n as int == |State().items|
    {
      assert State().items.Keys == trackItems.Keys;
      (|trackItems| % U32_LIMIT) as uint32
    }

    /** The inner loop of `updateActiveItems`: scan the tracks in the order of
        `keys` for the best not-yet-matched track with a positive intersection. */
    method BestMatch(d: DetectionRect, flagActive: map<uint32, bool>, rects: RectOps, keys: seq<uint32>)
      returns (maxIdx: int, maxArea: Score)
      requires flagActive.Keys == trackItems.Keys
      requires forall k :: k in keys ==> k in trackItems
      ensures Best(maxIdx, maxArea) == ScanBest(keys, State().items, flagActive, d, rects, NO_BEST)
    {
      ghost var items := State().items;
      ghost var goal := ScanBest(keys, items, flagActive, d, rects, NO_BEST);
      maxIdx, maxArea := -1, Finite(0.0);
      var n := 0;
      while n < |keys|
        invariant 0 <= n <= |keys|
        invariant ScanBest(keys[n..], items, flagActive, d, rects, Best(maxIdx, maxArea)) == goal
      {
        ghost var best := Best(maxIdx, maxArea);
        ScanBestStep(keys[n..], items, flagActive, d, rects, best);
        assert keys[n..][0] == keys[n] && keys[n..][1..] == keys[n + 1..];
        maxIdx, maxArea := ScoreTrack(keys[n], d, flagActive, rects, maxIdx, maxArea);
        n := n + 1;
      }
      assert keys[n..] == [];
    }

    /** The body of the inner loop for the track with id `k`. */
    method ScoreTrack(k: uint32, d: DetectionRect, flagActive: map<uint32, bool>, rects: RectOps,
                 maxIdx0: int, maxArea0: Score)
      returns (maxIdx: int, maxArea: Score)
      requires k in trackItems && k in flagActive
      ensures Best(maxIdx, maxArea) == ScanStep(k, State().items, flagActive, d, rects, Best(maxIdx0, maxArea0))
    {
      maxIdx, maxArea := maxIdx0, maxArea0;
      if !flagActive[k] {
        var area := rects.intersect(d, trackItems[k].dRect);
        if area > 0 {
          var ratio1 := Ratio(area, Area(d));
          var ratio2 := Ratio(area, Area(trackItems[k].dRect));
          if Gt(MaxScore(ratio1, ratio2), maxArea) {
            maxArea := MaxScore(ratio1, ratio2);
            maxIdx := k as int;
          }
        }
      }
    }

    /** `updateActiveItems`: flag every current id as unmatched, then from the
        last detection down match each detection to its best track, update
        that track and erase the detection. Returns the flags; the vector is
        left holding the unmatched detections. */
    method UpdateActiveItems(freshDetects: seq<DetectionRect>, rects: RectOps, kf: KalmanOps)
      returns (flagActive: map<uint32, bool>, leftover: seq<DetectionRect>)
      requires Valid()
      modifies trackItems.Values
      ensures Valid() && trackItems == old(trackItems)
      ensures var a := Associate(old(State()).items, freshDetects, rects, kf);
              && State() == RegistryState(a.items, old(State()).statics)
              && flagActive == a.flags
              && leftover == a.kept
    {
      ghost var items := State().items;
      var keys := KeysInOrder(trackItems.Keys);
      var flags0 := UnmatchedFlags(keys);
      MatcherPicksUnmatched(rects);
      MatcherIsScan(rects);
      assert State() == old(State());
      assert Associate(items, freshDetects, rects, kf) == AssocFrom(items, flags0, freshDetects, [], {}, Matcher(rects), kf);
      flagActive, leftover := MatchDetections(freshDetects, flags0, keys, rects, kf, Matcher(rects));
    }

    /** The second loop of `updateActiveItems`, for a `pick` that makes the
        choice the inner scan makes. */
    method MatchDetections(freshDetects: seq<DetectionRect>, flags0: map<uint32, bool>, keys: seq<uint32>,
                           rects: RectOps, kf: KalmanOps, ghost pick: Picker)
      returns (flagActive: map<uint32, bool>, leftover: seq<DetectionRect>)
      requires Valid()
      requires flags0.Keys == trackItems.Keys
      requires StrictlyIncreasing(keys) && forall k :: k in keys <==> k in trackItems
      requires PicksUnmatched(pick) && PickerIsScan(pick, rects)
      modifies trackItems.Values
      ensures Valid() && trackItems == old(trackItems)
      ensures var a := AssocFrom(old(State()).items, flags0, freshDetects, [], {}, pick, kf);
              && State() == RegistryState(a.items, old(State()).statics)
              && flagActive == a.flags
              && leftover == a.kept
    {
      ghost var cur := State().items;
      ghost var goal := AssocFrom(cur, flags0, freshDetects, [], {}, pick, kf);
      ghost var taken: set<nat> := {};
      flagActive, leftover := flags0, freshDetects;
      assert leftover[..|leftover|] == leftover && leftover[|leftover|..] == [];
      // `n` detections remain to be visited: the loop index is `n - 1`.
      var n := |freshDetects|;
      while n > 0
        invariant 0 <= n <= |leftover|
        invariant Valid() && trackItems == old(trackItems)
        invariant State() == RegistryState(cur, old(State()).statics)
        invariant flagActive.Keys == trackItems.Keys && cur.Keys == trackItems.Keys
        invariant forall k :: k in keys <==> k in trackItems
        invariant AssocFrom(cur, flagActive, leftover[..n], leftover[n..], taken, pick, kf) == goal
      {
        flagActive, leftover, cur, taken := MatchStep(n, flagActive, leftover, keys, rects, kf, pick, cur, taken);
        n := n - 1;
      }
      assert leftover[..0] == [] && leftover[0..] == leftover;
    }

    /** One iteration of the second loop of `updateActiveItems`, on detection
        `n - 1`: the association pass advances by one detection. */
    method MatchStep(n: nat, flags: map<uint32, bool>, dets: seq<DetectionRect>, keys: seq<uint32>,
                     rects: RectOps, kf: KalmanOps, ghost pick: Picker, ghost cur: map<uint32, TrackView>,
                     ghost taken: set<nat>)
      returns (flagActive: map<uint32, bool>, leftover: seq<DetectionRect>,
               ghost cur': map<uint32, TrackView>, ghost taken': set<nat>)
      requires Valid() && 0 < n <= |dets|
      requires State().items == cur
      requires flags.Keys == trackItems.Keys && cur.Keys == trackItems.Keys
      requires StrictlyIncreasing(keys) && forall k :: k in keys <==> k in trackItems
      requires PicksUnmatched(pick) && PickerIsScan(pick, rects)
      modifies trackItems.Values
      ensures Valid() && trackItems == old(trackItems)
      ensures State() == RegistryState(cur', old(State()).statics)
      ensures flagActive.Keys == trackItems.Keys && cur'.Keys == trackItems.Keys
      ensures n - 1 <= |leftover|
      ensures AssocFrom(cur', flagActive, leftover[..n - 1], leftover[n - 1..], taken', pick, kf)
              == AssocFrom(cur, flags, dets[..n], dets[n..], taken, pick, kf)
    {
      var i: nat := n - 1;
      flagActive, leftover, cur', taken' := flags, dets, cur, taken;
      var maxIdx, maxArea := BestMatch(leftover[i], flagActive, rects, keys);
      assert pick(cur, flags, dets[i]) == Decide(Best(maxIdx, maxArea));
      EraseStep(cur, flags, dets, i, taken, pick, kf);
      if Gt(maxArea, Finite(MATCH_THRESHOLD)) && 0 <= maxIdx < U32_LIMIT {
        var k := maxIdx as uint32;
        flagActive := flagActive[k := true];
        MatchTrack(k, leftover[i], kf);
        cur' := cur[k := cur[k].Matched(leftover[i], kf)];
        taken' := taken + {i};
        leftover := leftover[..i] + leftover[i + 1..];
      }
    }

    /** The first loop of `updateActiveItems`: `flagActive[id] = false` for every
        id visited in `keys`. */
    method UnmatchedFlags(keys: seq<uint32>) returns (flagActive: map<uint32, bool>)
      requires forall k :: k in keys <==> k in trackItems
      ensures flagActive == InitialFlags(State().items)
    {
      flagActive := map[];
      var n := 0;
      while n < |keys|
        invariant 0 <= n <= |keys|
        invariant flagActive.Keys == set j | j in keys[..n]
        invariant forall j :: j in flagActive ==> !flagActive[j]
      {
        assert keys[..n + 1] == keys[..n] + [keys[n]];
        flagActive := flagActive[keys[n] := false];
        n := n + 1;
      }
      assert keys[..|keys|] == keys;
    }

    /** The matched branch of `updateActiveItems`: `update(rect)` on the track with
        id `k`, which changes that track's view and nothing else. */
    method MatchTrack(k: uint32, d: DetectionRect, kf: KalmanOps)
      requires Valid() && k in trackItems
      modifies trackItems[k]
      ensures Valid() && trackItems == old(trackItems)
      ensures State() == RegistryState(old(State()).items[k := old(State()).items[k].Matched(d, kf)], old(State()).statics)
    {
      var ti := trackItems[k];
      ti.Update(d, kf);
      forall j | j in trackItems && j != k
        ensures trackItems[j] != ti
      {
      }
    }

    /** `addNewItems`: a new track for each leftover detection, added in order. */
    method AddNewItems(freshDetects: seq<DetectionRect>, rects: RectOps)
      requires Valid()
      modifies this, counters
      ensures Valid()
      ensures State() == AddNew(old(State()), freshDetects, rects)
      ensures forall t :: t in trackItems.Values ==> t in old(trackItems.Values) || fresh(t)
    {
      var i := 0;
      while i < |freshDetects|
        invariant 0 <= i <= |freshDetects|
        invariant Valid()
        invariant AddNew(State(), freshDetects[i..], rects) == AddNew(old(State()), freshDetects, rects)
        invariant forall t :: t in trackItems.Values ==> t in old(trackItems.Values) || fresh(t)
      {
        ghost var before := State();
        AddItem(freshDetects[i], rects);
        assert freshDetects[i..][0] == freshDetects[i] && freshDetects[i..][1..] == freshDetects[i + 1..];
        assert AddNew(before, freshDetects[i..], rects) == AddNew(State(), freshDetects[i + 1..], rects);
        i := i + 1;
      }
    }

    /** One iteration of `addNewItems`: `add(new TrackItem(rect))`. */
    method AddItem(d: DetectionRect, rects: RectOps)
      requires Valid()
      modifies this, counters
      ensures Valid()
      ensures State() == AddOne(old(State()), d, rects)
      ensures forall t :: t in trackItems.Values ==> t in old(trackItems.Values) || fresh(t)
    {
      var ti := new TrackItem(d, counters, rects);
      assert State().items == old(State()).items;
      Add(ti);
    }

    /** `updateInactiveItems`: in key order, update each unflagged track without a
        measurement and drop it when that update returns false. */
    method UpdateInactiveItems(flagActive: map<uint32, bool>, kf: KalmanOps)
      requires Valid()
      requires flagActive.Keys <= trackItems.Keys
      modifies this, counters, trackItems.Values
      ensures Valid()
      ensures State() == Age(old(State()), flagActive, SortedKeys(flagActive.Keys), kf)
    {
      var keys := KeysInOrder(flagActive.Keys);
      assert State() == old(State());
      ghost var goal := Age(State(), flagActive, keys, kf);
      var n := 0;
      while n < |keys|
        invariant 0 <= n <= |keys|
        invariant Valid()
        invariant trackItems.Values <= old(trackItems.Values)
        invariant forall j :: j in keys[n..] ==> j in trackItems && j in flagActive
        invariant Age(State(), flagActive, keys[n..], kf) == goal
      {
        AgeStep(State(), flagActive, keys, n, kf);
        AgeItem(keys[n], flagActive, kf);
        n := n + 1;
      }
      assert keys[n..] == [];
      SortedKeysUnique(flagActive.Keys, keys);
    }

    /** One iteration of `updateInactiveItems`, on the track with id `k`. */
    method AgeItem(k: uint32, flagActive: map<uint32, bool>, kf: KalmanOps)
      requires Valid() && k in trackItems && k in flagActive
      modifies this, counters, trackItems[k]
      ensures Valid()
      ensures State() == AgeOne(old(State()), flagActive, k, kf)
      ensures trackItems.Values <= old(trackItems.Values)
      ensures forall j :: j != k ==> (j in trackItems <==> j in old(trackItems))
    {
      if !flagActive[k] {
        var ti := trackItems[k];
        var alive := ti.UpdateMissed(kf);
        assert State().items == old(State()).items[k := ti.View()] by {
          forall j | j in trackItems && j != k
            ensures trackItems[j] != ti
          {
          }
        }
        if !alive {
          Drop(k);
        }
      }
    }

    /** `updateWith`: associate, add the leftovers as new tracks, then age the
        tracks that were present at the start of the frame and went unmatched.
        Returns the detection vector as the call leaves it. */
    method UpdateWith(freshDetects: seq<DetectionRect>, rects: RectOps, kf: KalmanOps)
      returns (leftover: seq<DetectionRect>)
      requires Valid()
      modifies this, counters, trackItems.Values
      ensures Valid()
      ensures State() == Frame(old(State()), freshDetects, rects, kf).state
      ensures leftover == Frame(old(State()), freshDetects, rects, kf).leftover
    {
      var flagActive;
      flagActive, leftover := UpdateActiveItems(freshDetects, rects, kf);
      AddNewItems(leftover, rects);
      UpdateInactiveItems(flagActive, kf);
    }
  }
}
