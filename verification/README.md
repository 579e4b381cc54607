# LibraryBox decision logic in Dafny

LibraryBox is an iOS client that shows nearby iBeacons on a logarithmic
radar-style gauge. It also lets a user pin a new box location to a shared map
after checking the address against the boxes already pinned. Nearly all of the
app is UIKit, CoreGraphics, CoreLocation and CloudKit glue. This project models
the two pieces of pure decision logic inside that glue and proves properties of
them:

- **Duplicate pinning and address validation** (`LBMapPinningTableViewController`).
  - `checkForDublicatePinning` is a loop over the box locations. It starts from
    `true` and stops at the first box closer than 15 m. A box at 15 m or more
    clears the flag. A box whose distance cannot be computed (the place has no
    location) leaves the flag alone.
  - After detection and geocoding, `validateAddressText` picks a feedback
    message, may store the placemark for pinning, and updates the pin button.
  - `viewDidLoad` and `textViewDidBeginEditing` disable the pin button.
- **Beacon dots of the gauge** (`LBBeaconRangingView.drawRect`).
  - A fresh view has a 20-slot buffer of distances, all 0.0.
  - Only slots holding a positive distance are drawn.
  - Distances below 1.0 are raised to 1.0 before they go on the 1–80 m scale.
  - A range `switch` picks the fill colour.

Modules:

- `Wrappers` holds `Option`.
- `DuplicatePinning` holds the loop over optional distances: a fold (`Scan`),
  the loop with its `break` (`ScanBoxLocations`), and their closed form.
- `AddressValidation` holds the post-geocoding decision table, the screen state
  (button, label, stored placemark) and its safety invariant.
- `BeaconRanging` holds the buffer, the filter, the clamp, the colour switch
  and a band table it is checked against.

Platform services are inputs:

- Address detection (`NSDataDetector`) and forward geocoding (`CLGeocoder`)
  become a `Lookup` value: no address detected, or the placemarks geocoding
  returned.
- A placemark is its optional formatted address and its optional location.
- Geodesic distance (`CLLocation.distance(from:)`) is a function parameter
  `distance: (Coordinate, Coordinate) -> real`.

Swift `Double` literals and comparisons are modelled as exact reals.

Behaviour of the code worth noting:

- The duplicate loop leaves at the first box closer than 15 m (`break`). So the
  check is true as soon as any box is that close, wherever it is in the list.
- An empty box list, or a place without a location, makes the check return
  `true`. With an empty box list the caller then shows "no box locations
  available" and leaves the button as it was.
- The colour bands are `[0.1, 3.0)`, `[3.1, 20.0)` and `[20.0, 80.0)`. A drawn
  beacon in `(0, 0.1)` or in `[3.0, 3.1)` gets the default colour, and so does
  one at 80 m or more.

## Model

| member | source | states |
|---|---|---|
| DuplicatePinning.CheckForDuplicatePinning | LibraryBox/LBMapPinningTableViewController.swift:347-368 | The check returns true exactly when some computed distance is below 15 m or no distance was computed at all |
| DuplicatePinning.ScanClosedForm | LibraryBox/LBMapPinningTableViewController.swift:349-367 | From any entry flag, the loop's fold equals "some close box, or the flag holds and no distance was computed" |
| DuplicatePinning.ScanBoxLocations | LibraryBox/LBMapPinningTableViewController.swift:349-367 | The loop with its break returns the closed form. It visits boxes up to and including the first close one. With no close box it visits all of them |
| DuplicatePinning.NoBoxLocationsIsDuplicate | LibraryBox/LBMapPinningTableViewController.swift:349-350 | With no box locations the result is true |
| DuplicatePinning.CloseBoxIsDuplicate | LibraryBox/LBMapPinningTableViewController.swift:356-359 | One computed distance below 15 m anywhere in the list makes the result true |
| DuplicatePinning.RadiusIsExclusive | LibraryBox/LBMapPinningTableViewController.swift:356 | A box at exactly 15 m is not a duplicate |
| DuplicatePinning.AllFarIsNotDuplicate | LibraryBox/LBMapPinningTableViewController.swift:361-364 | If at least one distance was computed and none is below 15 m, the result is false |
| DuplicatePinning.NoLocationIsDuplicate | LibraryBox/LBMapPinningTableViewController.swift:352-354 | If no distance can be computed (the place has no location), the result is true |
| DuplicatePinning.UnavailableDistanceIgnored | LibraryBox/LBMapPinningTableViewController.swift:354-365 | Inserting a box whose distance is unavailable, anywhere in the list, does not change the result |
| DuplicatePinning.OrderIndependent | LibraryBox/LBMapPinningTableViewController.swift:349-367 | Any reordering of the box locations gives the same result |
| AddressValidation.PinDistances | LibraryBox/LBMapPinningTableViewController.swift:352-354 | Each box gets the platform distance from the place's location. Every box gets none when the place has no location |
| AddressValidation.IsDuplicate | LibraryBox/LBMapPinningTableViewController.swift:347-368 | A placemark is a duplicate exactly when there are no boxes, it has no location, or some box is strictly within 15 m of it |
| AddressValidation.ValidateAddressText | LibraryBox/LBMapPinningTableViewController.swift:295-339 | Full decision table. Zero placemarks: no message, no change. No address detected, or no address string: "no valid address" and disable. Enable happens, with "valid" and the placemark stored, exactly when there is an address, at least one box, and every box is at least 15 m away. With boxes and some box close (or no location): "already on map" and disable. No boxes: "no box locations" and the button is left unchanged |
| AddressValidation.NoBoxesNeverEnable | LibraryBox/LBMapPinningTableViewController.swift:307-318 | With an empty box list, validation never enables the pin button |
| AddressValidation.PlaceWithoutLocationIsOnMap | LibraryBox/LBMapPinningTableViewController.swift:303-324 | A first placemark with an address but no location is reported "already on map" when boxes exist |
| AddressValidation.Step | LibraryBox/LBMapPinningTableViewController.swift:306-338 | A placemark is only ever newly stored by a validation, and then the button is on and the label calls that placemark's address valid. The button only switches on through a validation whose stored placemark has every box at least 15 m away. Loading the view (line 66) and starting to edit (line 387) disable the button and touch neither the label nor the stored placemark |
| AddressValidation.RevalidateIdempotent | LibraryBox/LBMapPinningTableViewController.swift:281-340 | Validating the same lookup a second time leaves the screen exactly as the first validation left it |
| AddressValidation.DidLoadIsSafe | LibraryBox/LBMapPinningTableViewController.swift:65-66 | After the view loads, the pin button is disabled |
| AddressValidation.NoPlacemarksNoChange | LibraryBox/LBMapPinningTableViewController.swift:299-300 | Geocoding that returns no placemarks leaves the whole screen state unchanged |
| AddressValidation.StepPreservesSafety | LibraryBox/LBMapPinningTableViewController.swift:306-331 | Every event keeps this invariant: an enabled button means the stored placemark has an address, the label shows it as valid, and every box is at least 15 m from it |
| AddressValidation.RunPreservesSafety | LibraryBox/LBMapPinningTableViewController.swift:281-340 | The invariant holds after any sequence of events, for a fixed box list |
| AddressValidation.LoadedScreenStaysSafe | LibraryBox/LBMapPinningTableViewController.swift:53-79 | Once the view has loaded, whatever follows, the button is only enabled for a validated, non-duplicate placemark |
| AddressValidation.FeedbackText | LibraryBox/LBMapPinningTableViewController.swift:309-337 | Every feedback text opens with a mark. The check mark appears exactly for "valid", and the cross for every other message |
| AddressValidation.FeedbackTextInjective | LibraryBox/LBMapPinningTableViewController.swift:309-337 | Different feedbacks produce different label texts. So "no box locations" reads differently from "already on map" and from "valid" |
| BeaconRanging.FreshBuffer | LibraryBox/LBBeaconRangingView.swift:30 | A fresh view's buffer has 20 slots, all 0.0 |
| BeaconRanging.ScaleArgument | LibraryBox/LBBeaconRangingView.swift:161-167 | The value given to the scale is at least 1.0 and at least the distance, and it is one of the two. This means max(d, 1.0), with no upper clamp |
| BeaconRanging.ScaleArgumentMonotone | LibraryBox/LBBeaconRangingView.swift:161-167 | Clamping preserves the order of distances |
| BeaconRanging.ColourCaseOf | LibraryBox/LBBeaconRangingView.swift:177-188 | The `case 0.0` arm is taken exactly for distance 0.0 |
| BeaconRanging.TierOf | LibraryBox/LBBeaconRangingView.swift:177-188 | A distance gets a non-default colour exactly when it lies in one of the bands [0.1,3.0) immediate, [3.1,20.0) near, [20.0,80.0) far. It then gets that band's colour |
| BeaconRanging.BandsDisjoint | LibraryBox/LBBeaconRangingView.swift:180-185 | No distance lies in two bands, so each value gets exactly one colour |
| BeaconRanging.DefaultColourGaps | LibraryBox/LBBeaconRangingView.swift:177-188 | A drawn beacon gets the default colour exactly when d < 0.1, 3.0 <= d < 3.1, or d >= 80 |
| BeaconRanging.ZeroCaseUnreachable | LibraryBox/LBBeaconRangingView.swift:157-179 | A beacon that passes the > 0 filter never reaches the `case 0.0` arm |
| BeaconRanging.BeaconDots | LibraryBox/LBBeaconRangingView.swift:155-197 | The number of dots equals the number of slots with a positive distance. Every dot describes such a slot's distance, clamped and coloured. Every such slot has its dot |
| BeaconRanging.BeaconDotsInSlotOrder | LibraryBox/LBBeaconRangingView.swift:155-197 | The dots follow the buffer: a slot with a positive distance gets the dot whose index is the number of drawn slots before it. Order and repeats are therefore fixed, not only membership |
| BeaconRanging.DrawBeacons | LibraryBox/LBBeaconRangingView.swift:155-197 | The drawing loop produces one dot per slot with a positive distance, in slot order: each drawn slot's dot sits at the index given by the number of drawn slots before it |
| BeaconRanging.DotsOnScale | LibraryBox/LBBeaconRangingView.swift:157-167 | Every dot is placed at or above the scale's lower bound 1.0, and none takes its colour from the zero arm |
| BeaconRanging.TrailingEmptySlots | LibraryBox/LBBeaconRangingView.swift:155-157 | Empty slots at the end of the buffer add no dots |
| BeaconRanging.FreshBufferDrawsNothing | LibraryBox/LBBeaconRangingView.swift:30 | A fresh view draws no beacon dots |
| BeaconRanging.TwoBeaconsScenario | LibraryBox/LBBeaconRangingView.swift:155-188 | Buffer [2.5, 45.0, then 18 zeros] draws two dots: 2.5 m immediate and 45 m far |

## Left out

- `convertToLogScale` (LBBeaconRangingView.swift:48-51): logarithms on `CGFloat` have no faithful counterpart over Dafny reals. The model stops at the argument passed to it.
- All drawing: the gradient, the distance circles and labels, the button background, the shadow and transparency layers, and the dot arcs themselves. These are CoreGraphics side effects. The debug `print` calls in the beacon loop are left out too.
- NaN and infinite distances: Swift `Double` comparisons with NaN are not modelled.
- Geodesic distance, forward and reverse geocoding, and address detection are platform calls. Their results are inputs. `getPlacemarkFromLocation` is modelled only as one more `Validate` event. The reverse geocoder's `pm.count > 0` guard is not modelled separately.
- `getAddressFromPlaceMark`: a dictionary lookup over a platform type. A placemark's address is an input `Option<string>`.
- The force-unwrap of `placemarks!` in the geocoding completion handlers crashes when geocoding fails with nil placemarks. The model takes a list of placemarks and does not model the crash.
- `pinBox` and `processResult`: CloudKit save and fetch, the error-code-14 re-save, the HUD, `delay` callbacks and main-queue dispatch. These are I/O and asynchronous plumbing.
- `cancelPinning`, `hideKeyboard` and the gesture recogniser: UI dismissal only.
- AddressValidation.RunPreservesSafety: assumes the box list and the distance function stay fixed across events. The controller receives its box list before it is shown.
- `LBBeaconRangingViewController.swift`: UIKit lifecycle and rotation hooks. Its only logic maps orientation to `yOffset` (80/40/40/80), which only moves the painted scale.
- `LBBeaconRangingVisualization.playground/Contents.swift`: marked deprecated and does not compile.
