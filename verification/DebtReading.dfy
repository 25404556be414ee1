/** What the store's reconstruction of a record accepts, row by row, and which record it gives. */
module DebtReading {
  import opened Wrappers
  import opened DebtPolicy
  import opened DebtRows

  // ---------------------------------------------------------------------------
  // The limits
  // ---------------------------------------------------------------------------

  /** One to 128 locations with different ids, and one to 128 observations. */
  ghost predicate Fits(a: Aggregate, observed: nat) {
    && 1 <= |a.locations| <= 128 && 1 <= observed <= 128
    && forall i, j :: 0 <= i < |a.locations| && 0 <= j < |a.locations| && i != j ==> a.locations[i].locationId != a.locations[j].locationId
  }

  lemma {:induction false} FitsIff(a: Aggregate, observed: nat)
    ensures WithinLimits(a, observed) <==> Fits(a, observed)
  {
  }

  // ---------------------------------------------------------------------------
  // Rows
  // ---------------------------------------------------------------------------

  /** The state that the row before k leaves. */
  ghost function StateBefore(base: Aggregate, rows: seq<EventRow>, k: nat): DebtState
    requires 0 < k <= |rows|
  {
    if k == 1 then base.state else rows[k - 1].state
  }

  /** A triage row keeps the record's identity and agrees with its own version and state. */
  ghost predicate TriageFits(base: Aggregate, row: EventRow, k: nat, observed: nat) {
    && row.kind.TriageRow? && row.kind.observed == observed && Fits(row.kind.next, observed)
    && row.kind.next.recordId == base.recordId && row.kind.next.projectId == base.projectId
    && row.kind.next.eventVersion == k && row.kind.next.state == row.state
  }

  /** Row k of the record: it was created awaiting triage, a link leaves the state, a triage sets its own. */
  ghost predicate RowFits(base: Aggregate, rows: seq<EventRow>, k: nat, observed: nat)
    requires k < |rows|
  {
    && rows[k].version == k
    && if k == 0 then rows[k].kind.CreateRow? && rows[k].state == PendingTriage
       else TriageFits(base, rows[k], k, observed) || (rows[k].kind.LinkRow? && rows[k].state == StateBefore(base, rows, k))
  }

  ghost predicate RowsFit(base: Aggregate, rows: seq<EventRow>, observed: nat) {
    rows != [] && forall k: nat :: k < |rows| ==> RowFits(base, rows, k, observed)
  }

  /** Row t is a triage and only links follow it: the record is its payload, but for the version they move. */
  ghost predicate ToldBy(rows: seq<EventRow>, t: nat, a: Aggregate) {
    && t < |rows| && rows[t].kind.TriageRow? && a == rows[t].kind.next.(eventVersion := a.eventVersion)
    && (forall k: nat :: t < k < |rows| ==> rows[k].kind.LinkRow?)
    && if t + 1 < |rows| then a.eventVersion == |rows| - 1 else a == rows[t].kind.next
  }

  /** The last triage says what the record is, links move its version only; without one it is as created. */
  ghost predicate Told(base: Aggregate, rows: seq<EventRow>, a: Aggregate) {
    || (exists t: nat :: ToldBy(rows, t, a))
    || ((forall k: nat :: 0 < k < |rows| ==> rows[k].kind.LinkRow?) && a == base.(eventVersion := a.eventVersion)
          && if |rows| > 1 then a.eventVersion == |rows| - 1 else a == base)
  }

  lemma {:induction false} RowsFitStep(base: Aggregate, rows: seq<EventRow>, observed: nat)
    requires |rows| > 1
    ensures RowsFit(base, rows, observed)
       <==> RowsFit(base, rows[..|rows| - 1], observed) && RowFits(base, rows, |rows| - 1, observed)
  {
    var m: nat := |rows| - 1;
    forall k: nat | k < m ensures RowFits(base, rows, k, observed) <==> RowFits(base, rows[..m], k, observed) {
    }
  }

  lemma {:induction false} ReplayState(base: Aggregate, rows: seq<EventRow>, observed: nat)
    requires Replay(base, rows, observed).Some?
    ensures rows != [] && Replay(base, rows, observed).value.state == StateBefore(base, rows, |rows|)
    decreases |rows|
  {
    if |rows| > 1 {
      ReplayState(base, rows[..|rows| - 1], observed);
    }
  }

  lemma {:induction false} ReplayIff(base: Aggregate, rows: seq<EventRow>, observed: nat)
    ensures Replay(base, rows, observed).Some? <==> RowsFit(base, rows, observed)
    decreases |rows|
  {
    if |rows| == 1 {
      assert RowFits(base, rows, 0, observed) <==> Replay(base, rows, observed).Some?;
    }
    if |rows| > 1 {
      var before := rows[..|rows| - 1];
      ReplayIff(base, before, observed);
      RowsFitStep(base, rows, observed);
      if Replay(base, before, observed).Some? {
        ReplayState(base, before, observed);
        LastFits(base, rows, Replay(base, before, observed).value, observed);
      }
    }
  }

  lemma {:induction false} LastFits(base: Aggregate, rows: seq<EventRow>, before: Aggregate, observed: nat)
    requires |rows| > 1 && before.state == StateBefore(base, rows[..|rows| - 1], |rows| - 1)
    ensures var m: nat := |rows| - 1;
      Replayed(base, before, rows[m], m, observed).Some? <==> RowFits(base, rows, m, observed)
  {
    var row := rows[|rows| - 1];
    if row.kind.TriageRow? {
      FitsIff(row.kind.next, row.kind.observed);
    }
  }

  lemma {:induction false} ToldStep(base: Aggregate, rows: seq<EventRow>, before: Aggregate, a: Aggregate)
    requires |rows| > 1 && Told(base, rows[..|rows| - 1], before)
    requires rows[|rows| - 1].kind.LinkRow? && a == before.(eventVersion := |rows| - 1)
    ensures Told(base, rows, a)
  {
    var m: nat := |rows| - 1;
    if t: nat :| ToldBy(rows[..m], t, before) {
      assert rows[t] == rows[..m][t];
      assert forall k: nat :: t < k < m ==> rows[k] == rows[..m][k];
      assert ToldBy(rows, t, a);
    } else {
      assert forall k: nat :: 0 < k < m ==> rows[k] == rows[..m][k];
    }
  }

  lemma {:induction false} ReplayTells(base: Aggregate, rows: seq<EventRow>, observed: nat)
    requires Replay(base, rows, observed).Some?
    ensures Told(base, rows, Replay(base, rows, observed).value)
    decreases |rows|
  {
    if |rows| > 1 {
      var before := Replay(base, rows[..|rows| - 1], observed).value;
      var last := rows[|rows| - 1];
      ReplayTells(base, rows[..|rows| - 1], observed);
      if last.kind.LinkRow? {
        ToldStep(base, rows, before, Replay(base, rows, observed).value);
      } else {
        assert ToldBy(rows, |rows| - 1, Replay(base, rows, observed).value);
      }
    }
  }

  lemma {:induction false} ToldOnce(base: Aggregate, rows: seq<EventRow>, a: Aggregate, b: Aggregate)
    requires Told(base, rows, a) && Told(base, rows, b) && rows != [] && rows[0].kind.CreateRow?
    ensures a == b
  {
  }

  // ---------------------------------------------------------------------------
  // The whole reconstruction
  // ---------------------------------------------------------------------------

  ghost function LinkRows(rows: seq<EventRow>): set<nat> {
    set k: nat | k < |rows| && rows[k].kind.LinkRow?
  }

  lemma {:induction false} LinksCount(rows: seq<EventRow>)
    ensures Links(rows) == |LinkRows(rows)|
    decreases |rows|
  {
    if rows != [] {
      var m: nat := |rows| - 1;
      LinksCount(rows[..m]);
      assert LinkRows(rows) == LinkRows(rows[..m]) + if rows[m].kind.LinkRow? then {m} else {};
    }
  }

  predicate SameNames(x: Observation, y: Observation) {
    (x.contentHash, x.artifactId, x.relativePath) == (y.contentHash, y.artifactId, y.relativePath)
  }

  ghost predicate Earlier(x: Observation, y: Observation) {
    TextBefore(x.linkedAt, y.linkedAt) || (x.linkedAt == y.linkedAt && TextBefore(x.contentHash, y.contentHash))
  }

  /** Observation k is the earliest by link time and, at the same time, by hash; of equal ones the first. */
  ghost predicate Earliest(seen: seq<Observation>, k: nat) {
    && k < |seen| && (forall i :: 0 <= i < |seen| ==> !Earlier(seen[i], seen[k]))
    && forall i :: 0 <= i < k ==> Earlier(seen[k], seen[i])
  }

  lemma {:induction false} FirstPlace(seen: seq<Observation>) returns (k: nat)
    requires seen != []
    ensures Earliest(seen, k) && seen[k] == First(seen)
    decreases |seen|
  {
    var m: nat := |seen| - 1;
    NotBothBefore(seen[m], seen[m]);
    k := 0;
    if m > 0 {
      k := FirstPlace(seen[..m]);
      assert seen[..m][k] == seen[k];
      NotBothBefore(seen[m], seen[k]);
      if LinkedBefore(seen[m], seen[k]) {
        k := m;
      }
      forall i | 0 <= i < |seen| ensures !Earlier(seen[i], seen[k]) {
        FirstIsLeast(seen, seen[i]);
      }
      forall i | 0 <= i < k ensures Earlier(seen[k], seen[i]) {
        BeatenBefore(seen, m, k, i);
      }
    }
  }

  lemma {:induction false} BeatenBefore(seen: seq<Observation>, m: nat, k: nat, i: nat)
    requires i < k <= m < |seen|
    requires k < m ==> Earliest(seen[..m], k)
    requires k == m ==> exists j: nat :: j < m && Earliest(seen[..m], j) && LinkedBefore(seen[m], seen[j])
    ensures Earlier(seen[k], seen[i])
  {
    assert seen[..m][i] == seen[i];
    if k < m {
      assert seen[..m][k] == seen[k];
    } else {
      var j: nat :| j < m && Earliest(seen[..m], j) && LinkedBefore(seen[m], seen[j]);
      assert seen[..m][j] == seen[j];
      if !LinkedBefore(seen[m], seen[i]) {
        LinkedBeforeOrders(seen[j], seen[i], seen[m]);
      }
    }
  }

  lemma {:induction false} OneEarliest(seen: seq<Observation>, j: nat, k: nat)
    requires Earliest(seen, j) && Earliest(seen, k)
    ensures j == k
  {
    assert !Earlier(seen[j], seen[k]) && !Earlier(seen[k], seen[j]);
  }

  /** What a readable record needs. */
  ghost predicate Readable(root: Root, rows: seq<EventRow>, seen: seq<Observation>, a: Aggregate) {
    && RowsFit(root.base, rows, |seen|) && Told(root.base, rows, a) && a.eventVersion == |rows| - 1 && Fits(a, |seen|)
    && |LinkRows(rows)| + 1 == |seen|
    && (forall i, j :: 0 <= i < j < |seen| ==> !SameNames(seen[i], seen[j]))
    && exists k: nat :: Earliest(seen, k) && SameNames(seen[k], root.discovery)
  }

  /** A record is read back exactly when its rows fit each other and its discovery is its earliest observation. */
  lemma {:induction false} ReadBackIff(root: Root, rows: seq<EventRow>, seen: seq<Observation>, a: Aggregate)
    ensures Reconstruct(root, rows, seen) == Some(a) <==> Readable(root, rows, seen, a)
  {
    LinksCount(rows);
    ReplayIff(root.base, rows, |seen|);
    if seen != [] {
      var k := FirstPlace(seen);
      forall j: nat | Earliest(seen, j) ensures j == k {
        OneEarliest(seen, j, k);
      }
    }
    var replayed := Replay(root.base, rows, |seen|);
    if replayed.Some? {
      ReplayTells(root.base, rows, |seen|);
      FitsIff(replayed.value, |seen|);
      assert RowFits(root.base, rows, 0, |seen|);
      if Told(root.base, rows, a) {
        ToldOnce(root.base, rows, a, replayed.value);
      }
    }
  }
}
