/** The helpers of src/utils.ts: the multi-select modifier test and the diff of
    position maps that keeps layout runs down to the nodes that actually move. */
module Utils {
  import opened Cytoscape
  import opened Dom

  /** Whether a modifier Cytoscape reads as "add to the selection" is held. */
  predicate IsMultSelKeyDown(event: MouseEvent)
  {
    event.shiftKey || event.metaKey || event.ctrlKey
  }

  /** The alt key takes no part in the test: flipping it never changes the answer,
      and alt held alone never counts. */
  lemma MultSelIgnoresAlt(event: MouseEvent)
    ensures IsMultSelKeyDown(event) == IsMultSelKeyDown(event.(altKey := !event.altKey))
    ensures event.altKey && !event.shiftKey && !event.metaKey && !event.ctrlKey ==> !IsMultSelKeyDown(event)
  {
  }

  predicate ArePositionsEqual(position1: Point, position2: Point)
  {
    position1.x == position2.x && position1.y == position2.y
  }

  /** Equality of positions is exact: no tolerance on either coordinate. */
  lemma ArePositionsEqualIsExact(position1: Point, position2: Point)
    ensures ArePositionsEqual(position1, position2) <==> position1 == position2
  {
  }

  /** The entries of `positions` whose point differs from the current one. Every
      target key must have a current entry (reading `.x` of a missing entry throws). */
  function GetUpdatedPositions(currentPositions: PositionMap, positions: PositionMap): (updated: PositionMap)
    requires positions.Keys <= currentPositions.Keys
    ensures updated.Keys <= positions.Keys
    ensures forall id | id in updated :: updated[id] == positions[id]
    ensures forall id | id in positions :: id in updated <==> currentPositions[id] != positions[id]
  {
    map id | id in positions && !ArePositionsEqual(currentPositions[id], positions[id]) :: positions[id]
  }

  /** Overlaying only the changed entries onto the current positions gives the
      same map as overlaying every target entry. */
  lemma OverlayUpdatedIsOverlayAll(currentPositions: PositionMap, positions: PositionMap)
    requires positions.Keys <= currentPositions.Keys
    ensures currentPositions + GetUpdatedPositions(currentPositions, positions) == currentPositions + positions
  {
  }

  /** Once the diff is applied, diffing again against the same target finds nothing. */
  lemma UpdatedPositionsIdempotent(currentPositions: PositionMap, positions: PositionMap)
    requires positions.Keys <= currentPositions.Keys
    ensures GetUpdatedPositions(currentPositions + GetUpdatedPositions(currentPositions, positions), positions) == map[]
  {
  }

  /** The diff is empty exactly when every target entry already agrees with the current one. */
  lemma NoUpdateIffAgree(currentPositions: PositionMap, positions: PositionMap)
    requires positions.Keys <= currentPositions.Keys
    ensures GetUpdatedPositions(currentPositions, positions) == map[]
        <==> forall id | id in positions :: currentPositions[id] == positions[id]
  {
  }
}
