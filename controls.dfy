/** Slot-selection keys and the pitch clamp. */
module Controls {

  /** The number of slot-selection keys, 1 to 6. */
  const SlotKeys: int := 6

  /** Index of the lowest-numbered pressed key, or -1 when none is pressed. */
  function FirstPressed(keys: seq<bool>): (p: int)
    ensures -1 <= p < |keys|
    ensures 0 <= p ==> keys[p] && forall k :: 0 <= k < p ==> !keys[k]
    ensures p == -1 <==> forall k :: 0 <= k < |keys| ==> !keys[k]
  {
    if keys == [] then -1
    else if keys[0] then 0
    else
      var p := FirstPressed(keys[1..]);
      assert forall k :: 1 <= k < |keys| ==> keys[k] == keys[1..][k - 1];
      if p == -1 then -1 else p + 1
  }

  /** Pitch is limited to 89 degrees either way. */
  const PitchLimit: real := 89.0

  /** The pitch after the clamp: within the limits, and unchanged when already within them. */
  function ClampPitch(rx: real): (r: real)
    ensures -PitchLimit <= r <= PitchLimit
    ensures -PitchLimit <= rx <= PitchLimit ==> r == rx
    ensures rx > PitchLimit ==> r == PitchLimit
    ensures rx < -PitchLimit ==> r == -PitchLimit
  {
    var r := if rx > PitchLimit then PitchLimit else rx;
    if r < -PitchLimit then -PitchLimit else r
  }
}
