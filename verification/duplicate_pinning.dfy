/**
 The duplicate-pin check of the map pinning screen
 (LBMapPinningTableViewController.checkForDublicatePinning).

 The controller walks the existing box locations and, for each one, asks the
 platform for the geodesic distance between the candidate place and the box.
 That distance is only available when the place has a location, so each box
 contributes an `Option<real>`: `Some(metres)` or `None`.
 */
module DuplicatePinning {
  import opened Wrappers

  /** Boxes strictly closer than this many metres count as the same location. */
  const DuplicateRadius: real := 15.0

  /** A computed distance strictly inside the duplicate radius. */
  predicate IsClose(distance: Option<real>) {
    distance.Some? && distance.value < DuplicateRadius
  }

  /** Some box location lies strictly inside the duplicate radius. */
  predicate AnyClose(distances: seq<Option<real>>) {
    exists i :: 0 <= i < |distances| && IsClose(distances[i])
  }

  /** At least one distance could be computed. */
  predicate AnyComputed(distances: seq<Option<real>>) {
    exists i :: 0 <= i < |distances| && distances[i].Some?
  }

  /** What the check decides, stated without the loop: a close box was found,
      or no distance was computed at all (in particular, when there are no boxes). */
  predicate DuplicateClosedForm(distances: seq<Option<real>>) {
    AnyClose(distances) || !AnyComputed(distances)
  }

  /** The loop body as a fold: `flag` is the value of `isDublicate` on entry.
      A close distance sets the flag and leaves the loop (`break`), a distance
      at or beyond the radius clears it, a missing distance leaves it alone. */
  function Scan(flag: bool, distances: seq<Option<real>>): bool
  {
    if |distances| == 0 then flag
    else match distances[0]
      case None => Scan(flag, distances[1..])
      case Some(d) => if d < DuplicateRadius then true else Scan(false, distances[1..])
  }

  /** checkForDublicatePinning: the flag starts as `true` and the loop runs over all boxes. */
  function CheckForDuplicatePinning(distances: seq<Option<real>>): (isDuplicate: bool)
    ensures isDuplicate <==> DuplicateClosedForm(distances)
  {
    ScanClosedForm(true, distances);
    Scan(true, distances)
  }

  /** Splitting off the first box. */
  lemma AnyCloseCons(distances: seq<Option<real>>)
    requires |distances| > 0
    ensures AnyClose(distances) <==> IsClose(distances[0]) || AnyClose(distances[1..])
    ensures AnyComputed(distances) <==> distances[0].Some? || AnyComputed(distances[1..])
  {
  }

  /** The fold from any starting flag, in closed form. */
  lemma {:induction false} ScanClosedForm(flag: bool, distances: seq<Option<real>>)
    ensures Scan(flag, distances) <==> AnyClose(distances) || (flag && !AnyComputed(distances))
    decreases |distances|
  {
    if |distances| > 0 {
      AnyCloseCons(distances);
      match distances[0]
      case None =>
        ScanClosedForm(flag, distances[1..]);
      case Some(d) =>
        if d >= DuplicateRadius {
          ScanClosedForm(false, distances[1..]);
        }
    }
  }

  /** With no box locations the loop never runs and the initial `true` stands. */
  lemma NoBoxLocationsIsDuplicate()
    ensures CheckForDuplicatePinning([])
  {
  }

  /** One computed distance strictly below 15 m makes the place a duplicate,
      wherever that box is in the list. */
  lemma CloseBoxIsDuplicate(distances: seq<Option<real>>, i: int)
    requires 0 <= i < |distances|
    requires distances[i].Some? && distances[i].value < DuplicateRadius
    ensures CheckForDuplicatePinning(distances)
  {
  }

  /** Example of the exclusive radius: a single box at exactly 15 m is not a
      duplicate (the general fact is `AllFarIsNotDuplicate`). */
  lemma RadiusIsExclusive()
    ensures !CheckForDuplicatePinning([Some(15.0)])
  {
  }

  /** If some distance was computed and none is below 15 m, the place is not a duplicate. */
  lemma AllFarIsNotDuplicate(distances: seq<Option<real>>)
    requires AnyComputed(distances)
    requires forall i :: 0 <= i < |distances| && distances[i].Some? ==> distances[i].value >= DuplicateRadius
    ensures !CheckForDuplicatePinning(distances)
  {
  }

  /** If the place has no location, no distance is computed and the place counts as a duplicate. */
  lemma NoLocationIsDuplicate(distances: seq<Option<real>>)
    requires forall i :: 0 <= i < |distances| ==> distances[i].None?
    ensures CheckForDuplicatePinning(distances)
  {
  }

  /** A box whose distance is unavailable does not change the outcome, wherever it sits. */
  lemma {:induction false} UnavailableDistanceIgnored(before: seq<Option<real>>, after: seq<Option<real>>)
    ensures CheckForDuplicatePinning(before + [None] + after) == CheckForDuplicatePinning(before + after)
  {
    var withGap := before + [None] + after;
    var without := before + after;
    assert forall i :: 0 <= i < |before| ==> withGap[i] == without[i];
    assert forall i :: |before| < i < |withGap| ==> withGap[i] == without[i - 1];
    if AnyClose(withGap) {
      var i :| 0 <= i < |withGap| && IsClose(withGap[i]);
      if i < |before| { assert IsClose(without[i]); } else { assert IsClose(without[i - 1]); }
    }
    if AnyClose(without) {
      var i :| 0 <= i < |without| && IsClose(without[i]);
      if i < |before| { assert IsClose(withGap[i]); } else { assert IsClose(withGap[i + 1]); }
    }
    if AnyComputed(withGap) {
      var i :| 0 <= i < |withGap| && withGap[i].Some?;
      if i < |before| { assert without[i].Some?; } else { assert without[i - 1].Some?; }
    }
    if AnyComputed(without) {
      var i :| 0 <= i < |without| && without[i].Some?;
      if i < |before| { assert withGap[i].Some?; } else { assert withGap[i + 1].Some?; }
    }
  }

  /** Both predicates depend only on which distances occur, not where. */
  lemma AnyCloseByMembership(distances: seq<Option<real>>)
    ensures AnyClose(distances) <==> exists d :: d in multiset(distances) && IsClose(d)
    ensures AnyComputed(distances) <==> exists d :: d in multiset(distances) && d.Some?
  {
  }

  /** The outcome does not depend on the order of the box locations. */
  lemma OrderIndependent(distances: seq<Option<real>>, reordered: seq<Option<real>>)
    requires multiset(distances) == multiset(reordered)
    ensures CheckForDuplicatePinning(distances) == CheckForDuplicatePinning(reordered)
  {
    AnyCloseByMembership(distances);
    AnyCloseByMembership(reordered);
  }

  /** The loop as written, with its `break`. `visited` counts the boxes the
      loop looked at: it stops right after the first close one. */
  method ScanBoxLocations(distances: seq<Option<real>>) returns (isDuplicate: bool, visited: nat)
    ensures isDuplicate <==> DuplicateClosedForm(distances)
    ensures visited <= |distances|
    ensures forall j :: 0 <= j < visited - 1 ==> !IsClose(distances[j])
    ensures AnyClose(distances) <==> 0 < visited && IsClose(distances[visited - 1])
    ensures !AnyClose(distances) ==> visited == |distances|
  {
    isDuplicate := true;
    visited := 0;
    while visited < |distances|
      invariant visited <= |distances|
      invariant forall j :: 0 <= j < visited ==> !IsClose(distances[j])
      invariant isDuplicate <==> !AnyComputed(distances[..visited])
    {
      assert distances[..visited + 1] == distances[..visited] + [distances[visited]];
      AnyComputedSnoc(distances[..visited], distances[visited]);
      match distances[visited] {
        case None =>
        case Some(d) =>
          if d < DuplicateRadius {
            isDuplicate := true;
            visited := visited + 1;
            return;
          } else {
            isDuplicate := false;
          }
      }
      visited := visited + 1;
    }
    assert distances[..visited] == distances;
  }

  /** Extending the visited prefix by one box. */
  lemma AnyComputedSnoc(prefix: seq<Option<real>>, last: Option<real>)
    ensures AnyComputed(prefix + [last]) <==> AnyComputed(prefix) || last.Some?
  {
    var whole := prefix + [last];
    if AnyComputed(prefix) {
      var i :| 0 <= i < |prefix| && prefix[i].Some?;
      assert whole[i].Some?;
    }
    if last.Some? {
      assert whole[|prefix|].Some?;
    }
  }
}
