/** The two lifecycle thresholds the registry declares for all tracks. */
module TrackerParams {
  import opened Ints

  /** A track missing this many consecutive frames is dropped. */
  const NUM_MAX_INACTIVE_FRAMES: uint16 := 20

  /** A track is active once its active-frame count, 1 when it is created and
      one more for each match, exceeds this: after its third match. */
  const NUM_MIN_DETECTIONS: uint16 := 3
}
