module DebtLinks {
  /**
   * Observations that are rolled back although their record was never triaged and the version is
   * right: one too many, one that sorts before the discovery, and new content of a known artifact.
   */

  import opened DebtPolicy
  import opened DebtRows
  import opened DebtRegister

  function Empty(): Register {
    Register(map[], map[], map[], map[])
  }

  /** A record as the store creates it. */
  ghost predicate Creatable(a: Aggregate) {
    a.eventVersion == 0 && a.state.PendingTriage? && a.PointerFree() && WithinLimits(a, 1)
  }

  lemma {:induction false} CreatedAlone(a: Aggregate, discovery: Observation)
    requires Creatable(a)
    ensures Apply(Empty(), CreatePending(a, discovery)) == Created(Empty(), a, discovery)
    ensures RecordInv(Created(Empty(), a, discovery))
  {
    var row := EventRow(0, CreateRow, PendingTriage);
    assert [] + [row] == [row];
    CreateReconstructsIff(Root(a, discovery));
    FreshConsistent(a, discovery);
    AppendKeepsRecords(Empty(), Root(a, discovery), a, row, [discovery]);
  }

  /** The observation passes every test on it alone, and its record is there, at this version, never triaged. */
  ghost predicate Plausible(r: Register, o: ObservationHygiene, projectId: string, id: string, version: nat, x: Observation) {
    && o.reference(x) && o.timestamp(x.linkedAt)
    && id in r.records && r.records[id].projectId == projectId && r.records[id].eventVersion == version
    && !HashSeen(Seen(r, id), x.contentHash) && !EverTriaged(RowsOf(r, id))
  }

  // ---------------------------------------------------------------------------
  // Before the discovery
  // ---------------------------------------------------------------------------

  lemma {:induction false} BeforeAfterPrefix(p: string, a: string, b: string)
    ensures TextBefore(p + a, p + b) <==> TextBefore(a, b)
    decreases |p|
  {
    if p == "" {
      assert p + a == a && p + b == b;
    } else {
      assert (p + a)[1..] == p[1..] + a && (p + b)[1..] == p[1..] + b;
      BeforeAfterPrefix(p[1..], a, b);
    }
  }

  /** As text, half a second past a full second comes before the full second. */
  lemma {:induction false} HalfSecondSortsFirst(moment: string)
    ensures TextBefore(moment + ".500Z", moment + "Z")
  {
    BeforeAfterPrefix(moment, ".500Z", "Z");
  }

  /** An observation linked half a second after the record was created is rolled back. */
  lemma {:induction false} LaterLinkSortsFirst(a: Aggregate, o: ObservationHygiene, discovery: Observation, x: Observation, moment: string)
    requires Creatable(a) && o.reference(x) && o.timestamp(x.linkedAt)
    requires x.contentHash != discovery.contentHash && x.artifactId != discovery.artifactId
    requires discovery.linkedAt == moment + "Z" && x.linkedAt == moment + ".500Z"
    ensures var t := Apply(Empty(), CreatePending(a, discovery));
      && Plausible(t, o, a.projectId, a.recordId, 0, x)
      && Apply(t, LinkObservation(o, a.projectId, a.recordId, 0, x)) == t
  {
    var t := Created(Empty(), a, discovery);
    CreatedAlone(a, discovery);
    HalfSecondSortsFirst(moment);
    LinkAppliesIff(t, o, a.projectId, a.recordId, 0, x);
  }

  // ---------------------------------------------------------------------------
  // New content of a known artifact
  // ---------------------------------------------------------------------------

  /** New content under the artifact id and path of the discovery is rolled back, at whatever time. */
  lemma {:induction false} SameArtifactRefused(a: Aggregate, o: ObservationHygiene, discovery: Observation, x: Observation)
    requires Creatable(a) && o.reference(x) && o.timestamp(x.linkedAt)
    requires x.contentHash != discovery.contentHash
    requires x.artifactId == discovery.artifactId && x.relativePath == discovery.relativePath
    ensures var t := Apply(Empty(), CreatePending(a, discovery));
      && Plausible(t, o, a.projectId, a.recordId, 0, x)
      && Apply(t, LinkObservation(o, a.projectId, a.recordId, 0, x)) == t
  {
    var t := Created(Empty(), a, discovery);
    CreatedAlone(a, discovery);
    assert Seen(t, a.recordId)[0] == discovery;
    LinkAppliesIff(t, o, a.projectId, a.recordId, 0, x);
  }

  // ---------------------------------------------------------------------------
  // One too many
  // ---------------------------------------------------------------------------

  /** Observations 0 to 128: valid, each with its own content and artifact, none before observation 0. */
  ghost predicate Numbering(o: ObservationHygiene, xs: nat -> Observation) {
    && (forall i: nat, j: nat :: i < j <= LIST_LIMIT ==>
          xs(i).contentHash != xs(j).contentHash && xs(i).artifactId != xs(j).artifactId)
    && (forall i: nat :: i <= LIST_LIMIT ==> !LinkedBefore(xs(i), xs(0)))
    && (forall i: nat :: i <= LIST_LIMIT ==> o.reference(xs(i)) && o.timestamp(xs(i).linkedAt))
  }

  function UpTo(xs: nat -> Observation, n: nat): (r: seq<Observation>)
    ensures |r| == n && forall i :: 0 <= i < n ==> r[i] == xs(i)
  {
    seq(n, i requires 0 <= i < n => xs(i))
  }

  lemma {:induction false} NextIsNew(o: ObservationHygiene, xs: nat -> Observation, n: nat)
    requires Numbering(o, xs) && n <= LIST_LIMIT
    ensures !HashSeen(UpTo(xs, n), xs(n).contentHash) && !ArtifactSeen(UpTo(xs, n), xs(n))
    ensures UpTo(xs, n + 1) == UpTo(xs, n) + [xs(n)]
  {
  }

  /** Linking observation n + 1 at version n. */
  function NextLink(a: Aggregate, o: ObservationHygiene, xs: nat -> Observation, n: nat): Command {
    LinkObservation(o, a.projectId, a.recordId, n, xs(n + 1))
  }

  /** Creating the record with observation 0, then linking observations 1 to n. */
  function Filling(a: Aggregate, o: ObservationHygiene, xs: nat -> Observation, n: nat): seq<Command>
    decreases n
  {
    if n == 0 then [CreatePending(a, xs(0))] else Filling(a, o, xs, n - 1) + [NextLink(a, o, xs, n - 1)]
  }

  /** The record has observations 0 to n, version n, and was never triaged. */
  ghost predicate FilledTo(r: Register, a: Aggregate, xs: nat -> Observation, n: nat) {
    var id := a.recordId;
    && RecordInv(r) && id in r.records
    && r.records[id] == a.(eventVersion := n)
    && r.observations[id] == UpTo(xs, n + 1)
    && r.roots[id].discovery == xs(0)
    && !EverTriaged(r.events[id])
  }

  lemma {:induction false} OneMoreLink(r: Register, a: Aggregate, o: ObservationHygiene, xs: nat -> Observation, n: nat)
    requires Numbering(o, xs) && FilledTo(r, a, xs, n) && n + 1 < LIST_LIMIT
    ensures FilledTo(Apply(r, LinkObservation(o, a.projectId, a.recordId, n, xs(n + 1))), a, xs, n + 1)
  {
    var id, x := a.recordId, xs(n + 1);
    var old', row := r.records[id], LinkEntry(r.records[id]);
    NextIsNew(o, xs, n + 1);
    LinkAppliesIff(r, o, a.projectId, id, n, x);
    var t := Append(r, r.roots[id], Linked(old'), row, r.observations[id] + [x]);
    LinkedConsistent(r, id, x);
    AppendKeepsRecords(r, r.roots[id], Linked(old'), row, r.observations[id] + [x]);
    EverTriagedGrows(t.events[id]);
    assert t.events[id][..|t.events[id]| - 1] == r.events[id];
  }

  /** A linked record is read back as such. */
  lemma {:induction false} LinkedConsistent(r: Register, id: string, x: Observation)
    requires RecordInv(r) && id in r.records && !HashSeen(r.observations[id], x.contentHash)
    requires |r.observations[id]| < LIST_LIMIT && !LinkedBefore(x, r.roots[id].discovery) && !EverTriaged(r.events[id])
    ensures Consistent(id, Linked(r.records[id]), r.roots[id], RowsOf(r, id) + [LinkEntry(r.records[id])], r.observations[id] + [x])
  {
    var a := r.records[id];
    assert Consistent(id, a, r.roots[id], r.events[id], r.observations[id]);
    LinkReconstructsIff(r.roots[id], r.events[id], r.observations[id], x, a.state);
    FirstGrows(r.observations[id], x);
    ChainGrows(r, r.events[id], a, Linked(a), LinkEntry(a));
  }

  lemma {:induction false} CreatedFills(a: Aggregate, xs: nat -> Observation)
    requires Creatable(a)
    ensures FilledTo(Apply(Empty(), CreatePending(a, xs(0))), a, xs, 0)
  {
    CreatedAlone(a, xs(0));
    assert UpTo(xs, 1) == [xs(0)];
    var rows := Created(Empty(), a, xs(0)).events[a.recordId];
    assert rows == [EventRow(0, CreateRow, PendingTriage)];
  }

  lemma {:induction false} OneMoreCommand(r: Register, commands: seq<Command>, c: Command)
    ensures Run(r, commands + [c]) == Apply(Run(r, commands), c)
    decreases |commands|
  {
    if commands == [] {
      assert commands + [c] == [c];
    } else {
      assert (commands + [c])[1..] == commands[1..] + [c];
      OneMoreCommand(Apply(r, commands[0]), commands[1..], c);
    }
  }

  lemma {:induction false} NextLinkFills(r: Register, commands: seq<Command>, a: Aggregate, o: ObservationHygiene, xs: nat -> Observation, n: nat)
    requires Numbering(o, xs) && FilledTo(Run(r, commands), a, xs, n) && n + 1 < LIST_LIMIT
    ensures FilledTo(Run(r, commands + [NextLink(a, o, xs, n)]), a, xs, n + 1)
  {
    OneMoreCommand(r, commands, NextLink(a, o, xs, n));
    OneMoreLink(Run(r, commands), a, o, xs, n);
  }

  lemma {:induction false} FillingFills(a: Aggregate, o: ObservationHygiene, xs: nat -> Observation, n: nat)
    requires Creatable(a) && n < LIST_LIMIT && Numbering(o, xs)
    ensures FilledTo(Run(Empty(), Filling(a, o, xs, n)), a, xs, n)
    decreases n
  {
    if n == 0 {
      CreatedFills(a, xs);
      OneMoreCommand(Empty(), [], CreatePending(a, xs(0)));
      assert [] + [CreatePending(a, xs(0))] == [CreatePending(a, xs(0))];
    } else {
      FillingFills(a, o, xs, n - 1);
      NextLinkFills(Empty(), Filling(a, o, xs, n - 1), a, o, xs, n - 1);
    }
  }

  /** With 128 observations linked and no triage ever, the next one is rolled back. */
  lemma {:induction false} OneTooMany(a: Aggregate, o: ObservationHygiene, xs: nat -> Observation)
    requires Creatable(a) && Numbering(o, xs)
    ensures var t, x := Run(Empty(), Filling(a, o, xs, LIST_LIMIT - 1)), xs(LIST_LIMIT);
      && Plausible(t, o, a.projectId, a.recordId, LIST_LIMIT - 1, x)
      && !ArtifactSeen(Seen(t, a.recordId), x) && !LinkedBefore(x, xs(0))
      && Apply(t, LinkObservation(o, a.projectId, a.recordId, LIST_LIMIT - 1, x)) == t
  {
    var t, x := Run(Empty(), Filling(a, o, xs, LIST_LIMIT - 1)), xs(LIST_LIMIT);
    FillingFills(a, o, xs, LIST_LIMIT - 1);
    NextIsNew(o, xs, LIST_LIMIT);
    LinkAppliesIff(t, o, a.projectId, a.recordId, LIST_LIMIT - 1, x);
  }

  function Letters(n: nat): (s: string)
    ensures |s| == n && forall i :: 0 <= i < n ==> s[i] == 'a'
  {
    seq(n, i => 'a')
  }

  lemma {:induction false} LettersSort(n: nat, m: nat)
    requires m <= n
    ensures !TextBefore(Letters(n), Letters(m))
    decreases m
  {
    if m > 0 {
      assert Letters(n)[1..] == Letters(n - 1) && Letters(m)[1..] == Letters(m - 1);
      LettersSort(n - 1, m - 1);
    }
  }

  function Lettered(n: nat): Observation {
    Observation(Letters(n), Letters(n), "observation.json", "2026-01-01T00:00:00Z")
  }

  /** There are such observations: all linked at one time, each with a longer hash than the one before. */
  lemma {:induction false} LetteredNumber()
    ensures Numbering(ObservationHygiene(_ => true, _ => true), Lettered)
  {
    forall i: nat, j: nat | i < j <= LIST_LIMIT
      ensures Lettered(i).contentHash != Lettered(j).contentHash && Lettered(i).artifactId != Lettered(j).artifactId
    {
      assert |Letters(i)| == i && |Letters(j)| == j;
    }
    forall i: nat | i <= LIST_LIMIT ensures !LinkedBefore(Lettered(i), Lettered(0)) {
      LettersSort(i, 0);
      NotBothBefore(Lettered(0), Lettered(0));
      TextTotal(Lettered(0).linkedAt, Lettered(0).linkedAt);
    }
  }
}
