module DebtRows {
  /**
   * The rows the store keeps for one debt record, and how the record is read back from them: the
   * creating row, one row for each linked observation, one for each triage with its whole payload,
   * and the observations in the order of their link times.
   */

  import opened Wrappers
  import opened DebtPolicy

  // ---------------------------------------------------------------------------
  // Rows
  // ---------------------------------------------------------------------------

  /** One observation row; artifactId and relativePath together are unique within a record, and so is the hash. */
  datatype Observation = Observation(contentHash: string, artifactId: string, relativePath: string, linkedAt: string)

  /** The root row: the record as created, and the observation it was discovered by. */
  datatype Root = Root(base: Aggregate, discovery: Observation)

  /** A triage row keeps its payload: the next aggregate, and how many observations it lists. */
  datatype RowKind = CreateRow | LinkRow | TriageRow(event: Event, next: Aggregate, observed: nat)

  /** One append-only event row: its stored version, kind and resulting state. */
  datatype EventRow = EventRow(version: nat, kind: RowKind, state: DebtState)

  const LIST_LIMIT := 128

  /** The list limits of a stored record. */
  predicate WithinLimits(a: Aggregate, observed: nat) {
    && 0 < |a.locations| <= LIST_LIMIT && 0 < observed <= LIST_LIMIT
    && forall i, j :: 0 <= i < j < |a.locations| ==> a.locations[i].locationId != a.locations[j].locationId
  }

  predicate SameReference(x: Observation, y: Observation) {
    x.contentHash == y.contentHash && x.artifactId == y.artifactId && x.relativePath == y.relativePath
  }

  // ---------------------------------------------------------------------------
  // The order of observations
  // ---------------------------------------------------------------------------

  /** The database compares text byte by byte, which for UTF-8 is character by character. */
  predicate TextBefore(a: string, b: string)
    decreases |a|
  {
    b != "" && (a == "" || a[0] < b[0] || (a[0] == b[0] && TextBefore(a[1..], b[1..])))
  }

  lemma {:induction false} TextTotal(a: string, b: string)
    ensures a == b || TextBefore(a, b) || TextBefore(b, a)
    ensures a == b ==> !TextBefore(a, b)
    ensures !(TextBefore(a, b) && TextBefore(b, a))
    decreases |a|
  {
    if a != "" && b != "" && a[0] == b[0] {
      TextTotal(a[1..], b[1..]);
      assert a == [a[0]] + a[1..] && b == [b[0]] + b[1..];
    }
  }

  lemma {:induction false} TextTransitive(a: string, b: string, c: string)
    requires TextBefore(a, b) && TextBefore(b, c)
    ensures TextBefore(a, c)
    decreases |a|
  {
    if a != "" && a[0] == b[0] == c[0] {
      TextTransitive(a[1..], b[1..], c[1..]);
    }
  }

  /** By link time as text, then by content hash. */
  predicate LinkedBefore(x: Observation, y: Observation) {
    TextBefore(x.linkedAt, y.linkedAt) || (x.linkedAt == y.linkedAt && TextBefore(x.contentHash, y.contentHash))
  }

  /** The observation that is read first. */
  function First(seen: seq<Observation>): (x: Observation)
    requires seen != []
    ensures x in seen
    decreases |seen|
  {
    var last := seen[|seen| - 1];
    if |seen| == 1 then last
    else
      var before := First(seen[..|seen| - 1]);
      if LinkedBefore(last, before) then last else before
  }

  lemma {:induction false} LinkedBeforeOrders(x: Observation, y: Observation, z: Observation)
    requires !LinkedBefore(y, x) && !LinkedBefore(z, y)
    ensures !LinkedBefore(z, x)
  {
    NotBefore(x.linkedAt, y.linkedAt, z.linkedAt);
    TextTotal(x.linkedAt, y.linkedAt);
    TextTotal(y.linkedAt, z.linkedAt);
    if x.linkedAt == y.linkedAt == z.linkedAt {
      NotBefore(x.contentHash, y.contentHash, z.contentHash);
    } else if x.linkedAt == z.linkedAt {
      TextTotal(x.linkedAt, z.linkedAt);
    }
  }

  lemma {:induction false} NotBefore(a: string, b: string, c: string)
    requires !TextBefore(b, a) && !TextBefore(c, b)
    ensures !TextBefore(c, a)
  {
    TextTotal(a, b);
    TextTotal(b, c);
    TextTotal(a, c);
    if TextBefore(a, b) && TextBefore(b, c) {
      TextTransitive(a, b, c);
    }
  }

  /** Nothing is read before the first one. */
  lemma {:induction false} FirstIsLeast(seen: seq<Observation>, x: Observation)
    requires x in seen
    ensures !LinkedBefore(x, First(seen))
    decreases |seen|
  {
    var last, rest := seen[|seen| - 1], seen[..|seen| - 1];
    assert seen == rest + [last];
    NotBothBefore(x, x);
    if rest != [] {
      var before := First(rest);
      FirstIsLeast(rest, before);
      NotBothBefore(last, before);
      if x in rest {
        FirstIsLeast(rest, x);
        if LinkedBefore(last, before) {
          LinkedBeforeOrders(last, before, x);
        }
      }
    }
  }

  lemma {:induction false} NotBothBefore(x: Observation, y: Observation)
    ensures !(LinkedBefore(x, y) && LinkedBefore(y, x)) && !LinkedBefore(x, x)
  {
    TextTotal(x.linkedAt, y.linkedAt);
    TextTotal(x.contentHash, y.contentHash);
    TextTotal(x.linkedAt, x.linkedAt);
    TextTotal(x.contentHash, x.contentHash);
  }

  // ---------------------------------------------------------------------------
  // Reading a record back
  // ---------------------------------------------------------------------------

  predicate DistinctReferences(seen: seq<Observation>) {
    forall i, j :: 0 <= i < j < |seen| ==> !SameReference(seen[i], seen[j])
  }

  /** What one row after the first makes of the record so far; observed is the number of observations there are now. */
  function Replayed(base: Aggregate, before: Aggregate, row: EventRow, index: nat, observed: nat): Option<Aggregate> {
    if row.version != index then None
    else
      match row.kind
      case CreateRow => None
      case LinkRow => if row.state == before.state then Some(before.(eventVersion := index)) else None
      case TriageRow(_, next, listed) =>
        if next.recordId == base.recordId && next.projectId == base.projectId && next.eventVersion == index
          && next.state == row.state && listed == observed && WithinLimits(next, listed)
        then Some(next) else None
  }

  function Replay(base: Aggregate, rows: seq<EventRow>, observed: nat): Option<Aggregate>
    decreases |rows|
  {
    if rows == [] then None
    else
      var last := rows[|rows| - 1];
      if |rows| == 1 then
        if last.version == 0 && last.kind.CreateRow? && last.state.PendingTriage? then Some(base) else None
      else
        var before := Replay(base, rows[..|rows| - 1], observed);
        if before.None? then None else Replayed(base, before.value, last, |rows| - 1, observed)
  }

  function Links(rows: seq<EventRow>): nat
    decreases |rows|
  {
    if rows == [] then 0 else Links(rows[..|rows| - 1]) + (if rows[|rows| - 1].kind.LinkRow? then 1 else 0)
  }

  /** The record as it is read back, or None when any of the store's tests fails. */
  function Reconstruct(root: Root, rows: seq<EventRow>, seen: seq<Observation>): Option<Aggregate> {
    if seen == [] || !DistinctReferences(seen) || !SameReference(root.discovery, First(seen)) then None
    else
      var current := Replay(root.base, rows, |seen|);
      if current.None? || Links(rows) + 1 != |seen| || current.value.eventVersion + 1 != |rows|
        || !WithinLimits(current.value, |seen|)
      then None else current
  }

  // ---------------------------------------------------------------------------
  // One more row
  // ---------------------------------------------------------------------------

  lemma {:induction false} LinksGrow(rows: seq<EventRow>, row: EventRow)
    ensures Links(rows + [row]) == Links(rows) + if row.kind.LinkRow? then 1 else 0
  {
    assert (rows + [row])[..|rows|] == rows;
  }

  lemma {:induction false} ReplayGrows(base: Aggregate, rows: seq<EventRow>, row: EventRow, observed: nat)
    requires rows != []
    ensures var before := Replay(base, rows, observed);
      Replay(base, rows + [row], observed)
        == if before.None? then None else Replayed(base, before.value, row, |rows|, observed)
  {
    assert (rows + [row])[..|rows|] == rows;
  }

  lemma {:induction false} ReplayKeepsIdentity(base: Aggregate, rows: seq<EventRow>, observed: nat)
    requires Replay(base, rows, observed).Some?
    ensures Replay(base, rows, observed).value.recordId == base.recordId
    ensures Replay(base, rows, observed).value.projectId == base.projectId
    decreases |rows|
  {
    if |rows| > 1 {
      ReplayKeepsIdentity(base, rows[..|rows| - 1], observed);
    }
  }

  ghost predicate EverTriaged(rows: seq<EventRow>) {
    exists k :: 0 <= k < |rows| && rows[k].kind.TriageRow?
  }

  lemma {:induction false} EverTriagedGrows(rows: seq<EventRow>)
    requires rows != []
    ensures EverTriaged(rows) <==> EverTriaged(rows[..|rows| - 1]) || rows[|rows| - 1].kind.TriageRow?
  {
    var rest := rows[..|rows| - 1];
    if EverTriaged(rest) {
      var k :| 0 <= k < |rest| && rest[k].kind.TriageRow?;
      assert rows[k].kind.TriageRow?;
    }
    if EverTriaged(rows) {
      var k :| 0 <= k < |rows| && rows[k].kind.TriageRow?;
      assert k < |rest| ==> rest[k].kind.TriageRow?;
    }
  }

  /** Every triage payload lists as many observations as there are now, so a different number is never read. */
  lemma {:induction false} ReplayCounts(base: Aggregate, rows: seq<EventRow>, observed: nat, other: nat)
    requires Replay(base, rows, observed).Some? && other != observed
    ensures Replay(base, rows, other) == if EverTriaged(rows) then None else Replay(base, rows, observed)
    decreases |rows|
  {
    EverTriagedGrows(rows);
    if |rows| > 1 {
      ReplayCounts(base, rows[..|rows| - 1], observed, other);
    } else {
      assert !EverTriaged(rows[..0]);
    }
  }

  lemma {:induction false} FirstGrows(seen: seq<Observation>, x: Observation)
    requires seen != []
    ensures First(seen + [x]) == if LinkedBefore(x, First(seen)) then x else First(seen)
  {
    assert (seen + [x])[..|seen|] == seen;
  }

  predicate HashSeen(seen: seq<Observation>, contentHash: string) {
    exists i :: 0 <= i < |seen| && seen[i].contentHash == contentHash
  }

  predicate ArtifactSeen(seen: seq<Observation>, x: Observation) {
    exists i :: 0 <= i < |seen| && seen[i].artifactId == x.artifactId && seen[i].relativePath == x.relativePath
  }

  /** The discovery observation is still read first unless the new one comes before it. */
  lemma {:induction false} FirstReferenceIff(root: Root, seen: seq<Observation>, x: Observation)
    requires seen != [] && SameReference(root.discovery, First(seen)) && !HashSeen(seen, x.contentHash)
    ensures SameReference(root.discovery, First(seen + [x])) <==> !LinkedBefore(x, First(seen))
  {
    FirstGrows(seen, x);
    var i :| 0 <= i < |seen| && seen[i] == First(seen);
    assert seen[i].contentHash != x.contentHash;
  }

  lemma {:induction false} LinkReplays(base: Aggregate, rows: seq<EventRow>, observed: nat, state: DebtState)
    requires Replay(base, rows, observed).Some? && state == Replay(base, rows, observed).value.state
    ensures Replay(base, rows + [EventRow(|rows|, LinkRow, state)], observed + 1)
         == if EverTriaged(rows) then None else Some(Replay(base, rows, observed).value.(eventVersion := |rows|))
  {
    ReplayGrows(base, rows, EventRow(|rows|, LinkRow, state), observed + 1);
    ReplayCounts(base, rows, observed, observed + 1);
  }

  /** With one more link row and its observation, the record is read back exactly in these cases. */
  lemma {:induction false} LinkReconstructsIff(root: Root, rows: seq<EventRow>, seen: seq<Observation>, x: Observation, state: DebtState)
    requires Reconstruct(root, rows, seen).Some? && !HashSeen(seen, x.contentHash)
    requires state == Reconstruct(root, rows, seen).value.state
    ensures Reconstruct(root, rows + [EventRow(|rows|, LinkRow, state)], seen + [x])
         == if EverTriaged(rows) || |seen| >= LIST_LIMIT || LinkedBefore(x, First(seen)) then None
            else Some(Reconstruct(root, rows, seen).value.(eventVersion := |rows|))
  {
    LinksGrow(rows, EventRow(|rows|, LinkRow, state));
    LinkReplays(root.base, rows, |seen|, state);
    FirstReferenceIff(root, seen, x);
    NewReference(seen, x);
  }

  lemma {:induction false} NewReference(seen: seq<Observation>, x: Observation)
    requires DistinctReferences(seen) && !HashSeen(seen, x.contentHash)
    ensures DistinctReferences(seen + [x])
  {
  }

  /** A triage row whose payload keeps identity and locations and counts the observations is read back as its payload. */
  lemma {:induction false} TriageReconstructs(root: Root, rows: seq<EventRow>, seen: seq<Observation>, row: EventRow)
    requires Reconstruct(root, rows, seen).Some? && row.kind.TriageRow?
    requires var old', next := Reconstruct(root, rows, seen).value, row.kind.next;
      && row.version == next.eventVersion == |rows| && row.state == next.state && row.kind.observed == |seen|
      && next.recordId == old'.recordId && next.projectId == old'.projectId && next.locations == old'.locations
    ensures Reconstruct(root, rows + [row], seen) == Some(row.kind.next)
  {
    LinksGrow(rows, row);
    ReplayGrows(root.base, rows, row, |seen|);
    ReplayKeepsIdentity(root.base, rows, |seen|);
  }

  /** A fresh record is read back as created, when it is within the limits. */
  lemma {:induction false} CreateReconstructsIff(root: Root)
    ensures Reconstruct(root, [EventRow(0, CreateRow, PendingTriage)], [root.discovery])
         == if WithinLimits(root.base, 1) && root.base.eventVersion == 0 then Some(root.base) else None
  {
    var row := EventRow(0, CreateRow, PendingTriage);
    assert Links([row]) == 0 by {
      LinksGrow([], row);
      assert [] + [row] == [row];
    }
  }
}
