/**
 Address validation and the pin button of the map pinning screen
 (LBMapPinningTableViewController.validateAddressText, viewDidLoad and
 textViewDidBeginEditing).

 Address detection, forward geocoding and the geodesic distance are platform
 services. Their results are inputs here: a `Lookup` says whether an address
 was detected and, if so, which placemarks geocoding returned, and `distance`
 is the platform's distance between two coordinates, in metres.
 */
module AddressValidation {
  import opened Wrappers
  import DuplicatePinning

  datatype Coordinate = Coordinate(latitude: real, longitude: real)

  /** A geocoded placemark: the address its formatted address lines join to,
      when it has them, and its location, when it has one. */
  datatype Placemark = Placemark(address: Option<string>, location: Option<Coordinate>)

  /** Address detection in the text, then forward geocoding of the first detected address. */
  datatype Lookup = NoAddressDetected | Geocoded(placemarks: seq<Placemark>)

  /** The feedback label's message. */
  datatype Feedback =
    | Valid(address: string)
    | AlreadyOnMap(address: string)
    | NoBoxLocations
    | NoValidAddress

  /** What a branch does to the pin button's `isEnabled`. */
  datatype ButtonUpdate = Enable | Disable | Keep

  /** The effect of one validation: the message shown (if any), the button
      update, and the placemark stored for pinning (if any). */
  datatype Reaction = Reaction(feedback: Option<Feedback>, button: ButtonUpdate, stored: Option<Placemark>)

  /** The part of the controller's state the validation touches. */
  datatype Screen = Screen(pinEnabled: bool, feedback: Option<Feedback>, placemarkForPinning: Option<Placemark>)

  /** The distance from the place to each box location, `None` for every box
      when the place has no location. */
  function PinDistances(place: Placemark, boxes: seq<Coordinate>, distance: (Coordinate, Coordinate) -> real): (ds: seq<Option<real>>)
    ensures |ds| == |boxes|
    ensures forall i :: 0 <= i < |boxes| ==> (ds[i].Some? <==> place.location.Some?)
    ensures place.location.Some? ==> forall i :: 0 <= i < |boxes| ==> ds[i] == Some(distance(place.location.value, boxes[i]))
  {
    seq(|boxes|, i requires 0 <= i < |boxes| =>
      if place.location.Some? then Some(distance(place.location.value, boxes[i])) else None)
  }

  /** Some box lies strictly within the duplicate radius of the place. */
  predicate NearSomeBox(place: Placemark, boxes: seq<Coordinate>, distance: (Coordinate, Coordinate) -> real) {
    place.location.Some? &&
    exists i :: 0 <= i < |boxes| && distance(place.location.value, boxes[i]) < DuplicatePinning.DuplicateRadius
  }

  /** checkForDublicatePinning applied to a placemark and the current box locations:
      a duplicate when there are no boxes, when the place has no location, or when
      some box is strictly closer than 15 m. */
  function IsDuplicate(place: Placemark, boxes: seq<Coordinate>, distance: (Coordinate, Coordinate) -> real): (dup: bool)
    ensures dup <==> |boxes| == 0 || place.location.None? || NearSomeBox(place, boxes, distance)
  {
    PinDistancesDuplicate(place, boxes, distance);
    DuplicatePinning.CheckForDuplicatePinning(PinDistances(place, boxes, distance))
  }

  lemma PinDistancesDuplicate(place: Placemark, boxes: seq<Coordinate>, distance: (Coordinate, Coordinate) -> real)
    ensures DuplicatePinning.DuplicateClosedForm(PinDistances(place, boxes, distance)) <==>
              |boxes| == 0 || place.location.None? || NearSomeBox(place, boxes, distance)
  {
    var ds := PinDistances(place, boxes, distance);
    if place.location.Some? && |boxes| > 0 {
      assert ds[0].Some?;
      if DuplicatePinning.AnyClose(ds) {
        var i :| 0 <= i < |ds| && DuplicatePinning.IsClose(ds[i]);
        assert distance(place.location.value, boxes[i]) < DuplicatePinning.DuplicateRadius;
      }
      if NearSomeBox(place, boxes, distance) {
        var i :| 0 <= i < |boxes| && distance(place.location.value, boxes[i]) < DuplicatePinning.DuplicateRadius;
        assert DuplicatePinning.IsClose(ds[i]);
      }
    }
  }

  /** Every box is at least 15 m from the place, and there is at least one box. */
  predicate FarFromAllBoxes(place: Placemark, boxes: seq<Coordinate>, distance: (Coordinate, Coordinate) -> real) {
    |boxes| > 0 && place.location.Some? &&
    forall i :: 0 <= i < |boxes| ==> distance(place.location.value, boxes[i]) >= DuplicatePinning.DuplicateRadius
  }

  /** The first placemark geocoding returned has an address. */
  predicate HasAddress(lookup: Lookup) {
    lookup.Geocoded? && |lookup.placemarks| > 0 && lookup.placemarks[0].address.Some?
  }

  /** validateAddressText, from the detection result on. */
  function ValidateAddressText(lookup: Lookup, boxes: seq<Coordinate>, distance: (Coordinate, Coordinate) -> real): (r: Reaction)
    // Geocoding found nothing: no message, no button change, nothing stored.
    ensures r.feedback.None? <==> lookup.Geocoded? && |lookup.placemarks| == 0
    ensures r.feedback.None? ==> r.button == Keep && r.stored.None?
    // No address detected, or the first placemark has no address.
    ensures r.feedback == Some(NoValidAddress) <==>
              lookup.NoAddressDetected? || (|lookup.placemarks| > 0 && lookup.placemarks[0].address.None?)
    ensures r.feedback == Some(NoValidAddress) ==> r.button == Disable && r.stored.None?
    // The only branch that enables the button: every box is at least 15 m away.
    ensures r.button == Enable <==> HasAddress(lookup) && FarFromAllBoxes(lookup.placemarks[0], boxes, distance)
    ensures r.button == Enable ==>
              r.feedback == Some(Valid(lookup.placemarks[0].address.value)) && r.stored == Some(lookup.placemarks[0])
    ensures r.stored.Some? <==> r.button == Enable
    ensures (exists a :: r.feedback == Some(Valid(a))) <==> r.button == Enable
    // A duplicate against a non-empty box list.
    ensures (exists a :: r.feedback == Some(AlreadyOnMap(a))) <==>
              HasAddress(lookup) && |boxes| > 0 && !FarFromAllBoxes(lookup.placemarks[0], boxes, distance)
    ensures r.feedback.Some? && r.feedback.value.AlreadyOnMap? ==>
              r.feedback.value.address == lookup.placemarks[0].address.value && r.button == Disable
    // The asymmetric branch: with no boxes at all the button is left as it was.
    ensures r.feedback == Some(NoBoxLocations) <==> HasAddress(lookup) && |boxes| == 0
    ensures r.feedback == Some(NoBoxLocations) ==> r.button == Keep
  {
    match lookup
    case NoAddressDetected => Reaction(Some(NoValidAddress), Disable, None)
    case Geocoded(placemarks) =>
      if |placemarks| == 0 then Reaction(None, Keep, None)
      else
        match placemarks[0].address
        case None => Reaction(Some(NoValidAddress), Disable, None)
        case Some(address) =>
          if !IsDuplicate(placemarks[0], boxes, distance) then
            Reaction(Some(Valid(address)), Enable, Some(placemarks[0]))
          else if |boxes| < 1 then
            Reaction(Some(NoBoxLocations), Keep, None)
          else
            Reaction(Some(AlreadyOnMap(address)), Disable, None)
  }

  /** With no box locations, validation never enables the pin button. */
  lemma NoBoxesNeverEnable(lookup: Lookup, distance: (Coordinate, Coordinate) -> real)
    ensures ValidateAddressText(lookup, [], distance).button != Enable
  {
  }

  /** A placemark without a location is reported as already on the map when there are boxes. */
  lemma PlaceWithoutLocationIsOnMap(address: string, rest: seq<Placemark>, boxes: seq<Coordinate>, distance: (Coordinate, Coordinate) -> real)
    requires |boxes| > 0
    ensures ValidateAddressText(Geocoded([Placemark(Some(address), None)] + rest), boxes, distance).feedback
            == Some(AlreadyOnMap(address))
  {
  }

  /** Applies a validation's reaction to the screen: a message replaces the
      label, the button follows the update, a stored placemark replaces the old one. */
  function Apply(s: Screen, r: Reaction): Screen
  {
    Screen(
      match r.button
      case Enable => true
      case Disable => false
      case Keep => s.pinEnabled,
      if r.feedback.Some? then r.feedback else s.feedback,
      if r.stored.Some? then r.stored else s.placemarkForPinning)
  }

  /** The controller events that touch the button. */
  datatype Event =
    | DidLoad                  // viewDidLoad
    | BeginEditing             // textViewDidBeginEditing
    | Validate(lookup: Lookup) // validateAddressText, after detection and geocoding

  /** One event against a fixed list of box locations. */
  function Step(s: Screen, e: Event, boxes: seq<Coordinate>, distance: (Coordinate, Coordinate) -> real): (t: Screen)
    // A newly stored placemark is always the one the label calls valid, with the button on.
    ensures t.placemarkForPinning != s.placemarkForPinning ==>
              && e.Validate?
              && t.pinEnabled
              && t.placemarkForPinning.Some?
              && t.placemarkForPinning.value.address.Some?
              && t.feedback == Some(Valid(t.placemarkForPinning.value.address.value))
    // The button only switches on through a validation that stores a placemark
    // every box is at least 15 m from.
    ensures t.pinEnabled && !s.pinEnabled ==>
              && e.Validate?
              && t.placemarkForPinning.Some?
              && t.placemarkForPinning.value.address.Some?
              && t.feedback == Some(Valid(t.placemarkForPinning.value.address.value))
              && FarFromAllBoxes(t.placemarkForPinning.value, boxes, distance)
    // Loading and editing never change the label or the stored placemark.
    ensures !e.Validate? ==> !t.pinEnabled && t.feedback == s.feedback && t.placemarkForPinning == s.placemarkForPinning
  {
    match e
    case DidLoad => s.(pinEnabled := false)
    case BeginEditing => s.(pinEnabled := false)
    case Validate(lookup) => Apply(s, ValidateAddressText(lookup, boxes, distance))
  }

  function Run(s: Screen, events: seq<Event>, boxes: seq<Coordinate>, distance: (Coordinate, Coordinate) -> real): Screen
    decreases |events|
  {
    if |events| == 0 then s
    else Run(Step(s, events[0], boxes, distance), events[1..], boxes, distance)
  }

  /** Validating the same lookup twice leaves the screen as validating it once:
      a repeated end of editing changes nothing more. */
  lemma RevalidateIdempotent(s: Screen, lookup: Lookup, boxes: seq<Coordinate>, distance: (Coordinate, Coordinate) -> real)
    ensures var once := Step(s, Validate(lookup), boxes, distance);
            Step(once, Validate(lookup), boxes, distance) == once
  {
  }

  /** Whenever the pin button is enabled, the stored placemark has an address,
      the label shows it as valid, and every box is at least 15 m from it. */
  predicate PinningSafe(s: Screen, boxes: seq<Coordinate>, distance: (Coordinate, Coordinate) -> real) {
    s.pinEnabled ==>
      && s.placemarkForPinning.Some?
      && s.placemarkForPinning.value.address.Some?
      && s.feedback == Some(Valid(s.placemarkForPinning.value.address.value))
      && FarFromAllBoxes(s.placemarkForPinning.value, boxes, distance)
  }

  /** Loading the view leaves the button disabled, whatever the screen held before. */
  lemma DidLoadIsSafe(s: Screen, boxes: seq<Coordinate>, distance: (Coordinate, Coordinate) -> real)
    ensures !Step(s, DidLoad, boxes, distance).pinEnabled
    ensures PinningSafe(Step(s, DidLoad, boxes, distance), boxes, distance)
  {
  }

  /** Geocoding with no placemarks changes nothing on the screen. */
  lemma NoPlacemarksNoChange(s: Screen, boxes: seq<Coordinate>, distance: (Coordinate, Coordinate) -> real)
    ensures Step(s, Validate(Geocoded([])), boxes, distance) == s
  {
  }

  /** Every event keeps the pinning-safety invariant. */
  lemma StepPreservesSafety(s: Screen, e: Event, boxes: seq<Coordinate>, distance: (Coordinate, Coordinate) -> real)
    requires PinningSafe(s, boxes, distance)
    ensures PinningSafe(Step(s, e, boxes, distance), boxes, distance)
  {
  }

  /** The invariant holds after any sequence of events. */
  lemma {:induction false} RunPreservesSafety(s: Screen, events: seq<Event>, boxes: seq<Coordinate>, distance: (Coordinate, Coordinate) -> real)
    requires PinningSafe(s, boxes, distance)
    ensures PinningSafe(Run(s, events, boxes, distance), boxes, distance)
    decreases |events|
  {
    if |events| > 0 {
      StepPreservesSafety(s, events[0], boxes, distance);
      RunPreservesSafety(Step(s, events[0], boxes, distance), events[1..], boxes, distance);
    }
  }

  /** After the view loads, the button is only ever enabled for a validated,
      non-duplicate placemark, whatever the events that follow. */
  lemma LoadedScreenStaysSafe(s: Screen, events: seq<Event>, boxes: seq<Coordinate>, distance: (Coordinate, Coordinate) -> real)
    ensures PinningSafe(Run(s, [DidLoad] + events, boxes, distance), boxes, distance)
  {
    assert ([DidLoad] + events)[1..] == events;
    RunPreservesSafety(Step(s, DidLoad, boxes, distance), events, boxes, distance);
  }

  /** The marks that open every feedback text. */
  const CheckMark: char := '\U{2705}'
  const CrossMark: char := '\U{274C}'

  /** The feedback label's text. */
  function FeedbackText(f: Feedback): (text: string)
    ensures |text| > 2
    ensures text[0] == CheckMark <==> f.Valid?
    ensures text[0] == CrossMark <==> !f.Valid?
  {
    match f
    case Valid(address) => [CheckMark] + " '" + address + "' valid"
    case AlreadyOnMap(address) => [CrossMark] + " '" + address + "' already on map"
    case NoBoxLocations => [CrossMark] + " " + "Currently" + " no box locations available. Please try again later"
    case NoValidAddress => [CrossMark] + " " + "No valid address found"
  }

  /** Exactly the texts that carry an address quote it right after the mark. */
  lemma QuotedAddressTexts(f: Feedback)
    ensures FeedbackText(f)[2] == '\'' <==> f.Valid? || f.AlreadyOnMap?
  {
  }

  /** Distinct outcomes show distinct texts, so the user can tell them apart. */
  lemma FeedbackTextInjective(f: Feedback, g: Feedback)
    requires FeedbackText(f) == FeedbackText(g)
    ensures f == g
  {
    var t := FeedbackText(f);
    QuotedAddressTexts(f);
    QuotedAddressTexts(g);
    if f.Valid? && g.Valid? {
      assert f.address == t[3..|t| - 7];
      assert g.address == t[3..|t| - 7];
    } else if f.AlreadyOnMap? && g.AlreadyOnMap? {
      assert f.address == t[3..|t| - 16];
      assert g.address == t[3..|t| - 16];
    }
  }
}
