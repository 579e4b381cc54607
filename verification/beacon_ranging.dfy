/**
 The beacon part of the ranging gauge (LBBeaconRangingView.drawRect).

 The view keeps a buffer of approximate beacon distances, in metres, where 0.0
 marks an empty slot. Drawing walks the buffer: a slot with a positive distance
 becomes a dot on the logarithmic scale, placed at the distance clamped below
 to the scale's lower end, and filled with a colour chosen by distance range.
 Only what decides whether, where on the scale and in which colour a dot is
 drawn is modelled; the painting itself is not.
 */
module BeaconRanging {

  /** Slots in a freshly created view's distance buffer. */
  const BufferSlots: nat := 20

  /** The data range of the gauge's logarithmic scale, in metres. */
  const ScaleMin: real := 1.0
  const ScaleMax: real := 80.0

  /** The buffer of a freshly created view: every slot empty. */
  function FreshBuffer(): (buffer: seq<real>)
    ensures |buffer| == BufferSlots
    ensures forall i :: 0 <= i < |buffer| ==> buffer[i] == 0.0
  {
    seq(BufferSlots, _ => 0.0)
  }

  /** Only slots holding a positive distance are drawn. */
  predicate IsDrawn(distance: real) {
    distance > 0.0
  }

  /** The value handed to the logarithmic scale for a drawn beacon: distances
      below the scale's lower end are raised to it, larger ones pass unchanged,
      with no upper clamp. */
  function ScaleArgument(distance: real): (v: real)
    ensures v >= ScaleMin && v >= distance
    ensures v == distance || v == ScaleMin
  {
    if distance < ScaleMin then ScaleMin else distance
  }

  /** Clamping keeps the order of distances, so dots keep their order on the scale. */
  lemma ScaleArgumentMonotone(a: real, b: real)
    requires a <= b
    ensures ScaleArgument(a) <= ScaleArgument(b)
  {
  }

  /** The arms of the colour `switch`, in source order. */
  datatype ColourCase = ZeroCase | ImmediateCase | NearCase | FarCase | DefaultCase

  /** The fill colour of a dot. */
  datatype Tier = Immediate | Near | Far | Default

  /** The colour `switch`: the first arm whose pattern matches the distance. */
  function ColourCaseOf(distance: real): (c: ColourCase)
    ensures c == ZeroCase <==> distance == 0.0
  {
    if distance == 0.0 then ZeroCase
    else if 0.1 <= distance < 3.0 then ImmediateCase
    else if 3.1 <= distance < 20.0 then NearCase
    else if 20.0 <= distance < 80.0 then FarCase
    else DefaultCase
  }

  /** The colour each arm fills with: the zero arm and the default arm share one. */
  function FillOf(c: ColourCase): Tier {
    match c
    case ZeroCase => Default
    case ImmediateCase => Immediate
    case NearCase => Near
    case FarCase => Far
    case DefaultCase => Default
  }

  /** A half-open distance range `[low, high)` with a colour of its own. */
  datatype Band = Band(low: real, high: real, tier: Tier)

  predicate InBand(b: Band, distance: real) {
    b.low <= distance < b.high
  }

  /** The coloured ranges of the gauge; every distance outside them gets the default colour. */
  const Bands: seq<Band> := [Band(0.1, 3.0, Immediate), Band(3.1, 20.0, Near), Band(20.0, 80.0, Far)]

  /** The colour a distance is drawn in, characterised by the band table:
      a non-default colour exactly when some band holds the distance, and then
      that band's colour (so no two bands can disagree). */
  function TierOf(distance: real): (t: Tier)
    ensures t != Default <==> exists i :: 0 <= i < |Bands| && InBand(Bands[i], distance)
    ensures forall i :: 0 <= i < |Bands| && InBand(Bands[i], distance) ==> t == Bands[i].tier
  {
    var c := ColourCaseOf(distance);
    assert c == ImmediateCase ==> InBand(Bands[0], distance);
    assert c == NearCase ==> InBand(Bands[1], distance);
    assert c == FarCase ==> InBand(Bands[2], distance);
    FillOf(c)
  }

  /** No distance lies in two bands, so the order of the arms does not matter. */
  lemma BandsDisjoint(distance: real, i: int, j: int)
    requires 0 <= i < |Bands| && 0 <= j < |Bands|
    requires InBand(Bands[i], distance) && InBand(Bands[j], distance)
    ensures i == j
  {
  }

  /** For a drawn beacon the default colour covers exactly the gaps of the
      switch: below 0.1, from 3.0 up to 3.1, and from 80 on. */
  lemma DefaultColourGaps(distance: real)
    requires IsDrawn(distance)
    ensures TierOf(distance) == Default <==> distance < 0.1 || (3.0 <= distance < 3.1) || distance >= ScaleMax
  {
  }

  /** A drawn beacon never reaches the `case 0.0` arm. */
  lemma ZeroCaseUnreachable(distance: real)
    requires IsDrawn(distance)
    ensures ColourCaseOf(distance) != ZeroCase
  {
  }

  /** A dot on the gauge: the beacon's distance, the value placed on the scale
      and its fill colour. */
  datatype Dot = Dot(distance: real, scaleArgument: real, tier: Tier)

  function DotFor(distance: real): Dot {
    Dot(distance, ScaleArgument(distance), TierOf(distance))
  }

  /** The slots that hold a drawable distance. */
  function DrawnSlots(buffer: seq<real>): set<int> {
    set i | 0 <= i < |buffer| && IsDrawn(buffer[i])
  }

  /** Each drawn slot owns the dot whose index is the number of drawn slots
      before it. With as many dots as drawn slots, this fixes every dot. */
  predicate InSlotOrder(buffer: seq<real>, dots: seq<Dot>) {
    forall i :: 0 <= i < |buffer| && IsDrawn(buffer[i]) ==>
      |DrawnSlots(buffer[..i])| < |dots| && dots[|DrawnSlots(buffer[..i])|] == DotFor(buffer[i])
  }

  /** Appending one slot keeps the dots in slot order. */
  lemma InSlotOrderSnoc(front: seq<real>, last: real, dots: seq<Dot>)
    requires InSlotOrder(front, dots) && |dots| == |DrawnSlots(front)|
    ensures InSlotOrder(front + [last], dots + (if IsDrawn(last) then [DotFor(last)] else []))
  {
    var buffer := front + [last];
    var extended := dots + (if IsDrawn(last) then [DotFor(last)] else []);
    forall i | 0 <= i < |buffer| && IsDrawn(buffer[i])
      ensures |DrawnSlots(buffer[..i])| < |extended| && extended[|DrawnSlots(buffer[..i])|] == DotFor(buffer[i])
    {
      if i < |front| {
        assert buffer[..i] == front[..i];
        assert buffer[i] == front[i];
      } else {
        assert buffer[..i] == front;
      }
    }
  }

  /** The dots drawn for a buffer, in buffer order: one per slot with a
      positive distance, each describing that slot's distance. */
  function BeaconDots(buffer: seq<real>): (dots: seq<Dot>)
    ensures |dots| == |DrawnSlots(buffer)|
    ensures forall k :: 0 <= k < |dots| ==>
              dots[k].distance in buffer && IsDrawn(dots[k].distance) && dots[k] == DotFor(dots[k].distance)
    ensures forall i :: 0 <= i < |buffer| && IsDrawn(buffer[i]) ==> DotFor(buffer[i]) in dots
    decreases |buffer|
  {
    if |buffer| == 0 then []
    else
      var front := buffer[..|buffer| - 1];
      var last := buffer[|buffer| - 1];
      DrawnSlotsSnoc(buffer);
      assert forall i :: 0 <= i < |front| ==> front[i] == buffer[i];
      BeaconDots(front) + (if IsDrawn(last) then [DotFor(last)] else [])
  }

  /** The last slot joins the drawn slots exactly when it is drawn. */
  lemma DrawnSlotsSnoc(buffer: seq<real>)
    requires |buffer| > 0
    ensures var n := |buffer| - 1;
            DrawnSlots(buffer) == DrawnSlots(buffer[..n]) + (if IsDrawn(buffer[n]) then {n} else {})
    ensures |buffer| - 1 !in DrawnSlots(buffer[..|buffer| - 1])
  {
  }

  /** The dots follow the buffer: dot `k` is the dot of the `k`-th drawn
      slot, so each drawn slot has its own dot, in slot order. */
  lemma {:induction false} BeaconDotsInSlotOrder(buffer: seq<real>)
    ensures InSlotOrder(buffer, BeaconDots(buffer))
    decreases |buffer|
  {
    if |buffer| > 0 {
      var front := buffer[..|buffer| - 1];
      var last := buffer[|buffer| - 1];
      assert buffer == front + [last];
      BeaconDotsInSlotOrder(front);
      InSlotOrderSnoc(front, last, BeaconDots(front));
    }
  }

  /** The drawing loop over the buffer: one dot per drawn slot, in slot order. */
  method DrawBeacons(buffer: seq<real>) returns (dots: seq<Dot>)
    ensures dots == BeaconDots(buffer)
    ensures |dots| == |DrawnSlots(buffer)| && InSlotOrder(buffer, dots)
  {
    dots := [];
    var i := 0;
    while i < |buffer|
      invariant i <= |buffer|
      invariant dots == BeaconDots(buffer[..i])
    {
      assert buffer[..i + 1][..i] == buffer[..i];
      if IsDrawn(buffer[i]) {
        dots := dots + [DotFor(buffer[i])];
      }
      i := i + 1;
    }
    assert buffer[..i] == buffer;
    BeaconDotsInSlotOrder(buffer);
  }

  /** Every dot is placed at or above the scale's lower end, and its colour
      never comes from the `case 0.0` arm. */
  lemma DotsOnScale(buffer: seq<real>)
    ensures forall k :: 0 <= k < |BeaconDots(buffer)| ==>
              BeaconDots(buffer)[k].scaleArgument >= ScaleMin &&
              ColourCaseOf(BeaconDots(buffer)[k].distance) != ZeroCase
  {
  }

  /** Empty slots at the end of the buffer add no dots. */
  lemma {:induction false} TrailingEmptySlots(buffer: seq<real>, tail: seq<real>)
    requires forall i :: 0 <= i < |tail| ==> !IsDrawn(tail[i])
    ensures BeaconDots(buffer + tail) == BeaconDots(buffer)
    decreases |tail|
  {
    if |tail| > 0 {
      var whole := buffer + tail;
      var shorter := tail[..|tail| - 1];
      assert whole[..|whole| - 1] == buffer + shorter;
      assert !IsDrawn(whole[|whole| - 1]);
      assert BeaconDots(whole) == BeaconDots(buffer + shorter);
      TrailingEmptySlots(buffer, shorter);
    } else {
      assert buffer + tail == buffer;
    }
  }

  /** A freshly created view draws no beacons. */
  lemma FreshBufferDrawsNothing()
    ensures BeaconDots(FreshBuffer()) == []
  {
    assert DrawnSlots(FreshBuffer()) == {};
  }

  /** Two beacons in a twenty-slot buffer: the empty slots are skipped, the
      first beacon is immediate and the second far. */
  lemma TwoBeaconsScenario()
    ensures BeaconDots([2.5, 45.0] + seq(18, _ => 0.0)) == [Dot(2.5, 2.5, Immediate), Dot(45.0, 45.0, Far)]
  {
    TrailingEmptySlots([2.5, 45.0], seq(18, _ => 0.0));
    assert [2.5, 45.0][..1] == [2.5];
    assert [2.5][..0] == [];
  }
}
