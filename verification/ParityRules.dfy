/** The orders and texts of the parity projection and of the work queue, field by field. */
module ParityRules {
  import opened TextOrder
  import opened Utf16
  import opened RankSort
  import opened ParityProjection
  import opened QueueOrder

  /** The units of a plain text are its characters. */
  lemma {:induction false} UnitsRead(s: string)
    requires forall i :: 0 <= i < |s| ==> s[i] as int < 128
    ensures |Units(s)| == |s| && forall i :: 0 <= i < |s| ==> Units(s)[i] == s[i] as int
    decreases |s|
  {
    if s != "" {
      UnitsRead(s[1..]);
    }
  }

  // ---------------------------------------------------------------------------
  // The work queue
  // ---------------------------------------------------------------------------

  /** A finding waits for a scope decision, or is only shown. */
  ghost predicate ShowsFinding(q: QueueItem, r: Remediation, f: Finding) {
    && q.itemId == Units("remediation:") + r.reviewRunId + Units(":") + f.findingId && q.kind == RemediationItem
    && q.requiresAction == f.actionable && q.urgency == (if f.actionable then ScopeExpansion else Informational)
    && q.actions == (if f.actionable then [Units("ACCEPT_SCOPE_EXPANSION"), Units("REJECT_SCOPE_EXPANSION")] else [])
    && q.rest == f.rest
  }

  ghost predicate ShowsReplan(q: QueueItem, r: Replan) {
    && q.itemId == Units("replan:") + r.aggregateId && q.kind == ReplanItem
    && q.requiresAction == (|r.actions| > 0) && q.urgency == (if |r.actions| > 0 then ReplanApproval else Informational)
    && q.actions == r.actions && q.rest == r.rest
  }

  ghost predicate ShowsDebt(q: QueueItem, d: Debt) {
    && q.itemId == Units("debt:") + d.recordId && q.kind == DebtItem
    && q.requiresAction == (|d.actions| > 0) && q.urgency == d.priority && q.actions == d.actions && q.rest == d.rest
  }

  lemma {:induction false} FindingShown(q: QueueItem, r: Remediation, f: Finding)
    ensures q == FindingItem(r, f) <==> ShowsFinding(q, r, f)
  {
  }

  lemma {:induction false} ReplanShown(q: QueueItem, r: Replan)
    ensures ReplanQueueItem(r) == q <==> ShowsReplan(q, r)
  {
  }

  lemma {:induction false} DebtShown(q: QueueItem, d: Debt)
    ensures DebtQueueItem(d) == q <==> ShowsDebt(q, d)
  {
  }

  ghost predicate ShowsSome(q: QueueItem, r: Remediation) {
    exists j :: 0 <= j < |r.findings| && ShowsFinding(q, r, r.findings[j])
  }

  ghost predicate IsFindingOf(q: QueueItem, remediations: seq<Remediation>) {
    exists i :: 0 <= i < |remediations| && ShowsSome(q, remediations[i])
  }

  ghost predicate IsReplanOf(q: QueueItem, replans: seq<Replan>) {
    exists i :: 0 <= i < |replans| && ShowsReplan(q, replans[i])
  }

  ghost predicate IsDebtOf(q: QueueItem, debt: seq<Debt>) {
    exists i :: 0 <= i < |debt| && ShowsDebt(q, debt[i])
  }

  lemma {:induction false} MapEachHas<T, U>(f: T -> U, xs: seq<T>, y: U)
    ensures y in MapEach(f, xs) <==> exists i :: 0 <= i < |xs| && f(xs[i]) == y
    decreases |xs|
  {
    if xs != [] {
      MapEachHas(f, xs[1..], y);
      if i :| 0 <= i < |xs| && f(xs[i]) == y {
        assert i > 0 ==> f(xs[1..][i - 1]) == y;
      }
      assert forall i :: 0 <= i < |xs| - 1 ==> xs[1..][i] == xs[i + 1];
    }
  }

  lemma {:induction false} FlatMapHas<T>(items: T -> seq<QueueItem>, xs: seq<T>, q: QueueItem)
    ensures q in FlatMap(items, xs) <==> exists i :: 0 <= i < |xs| && q in items(xs[i])
    decreases |xs|
  {
    if xs != [] {
      FlatMapHas(items, xs[..|xs| - 1], q);
    }
  }

  lemma {:induction false} FindingsOfOne(q: QueueItem, r: Remediation)
    ensures q in FindingItems(r) <==> ShowsSome(q, r)
  {
    var item, shows := f => FindingItem(r, f), (f: Finding) => ShowsFinding(q, r, f);
    forall j | 0 <= j < |r.findings| ensures item(r.findings[j]) == q <==> shows(r.findings[j]) {
      FindingShown(q, r, r.findings[j]);
    }
    ShownAmong(item, r.findings, q, shows);
    ShowsSomeIff(q, r, shows);
  }

  lemma {:induction false} ShownAmong<T>(item: T -> QueueItem, xs: seq<T>, q: QueueItem, shows: T -> bool)
    requires forall j :: 0 <= j < |xs| ==> (item(xs[j]) == q <==> shows(xs[j]))
    ensures q in MapEach(item, xs) <==> exists j :: 0 <= j < |xs| && shows(xs[j])
  {
    MapEachHas(item, xs, q);
  }

  lemma {:induction false} ShowsSomeIff(q: QueueItem, r: Remediation, shows: Finding -> bool)
    requires forall f :: shows(f) <==> ShowsFinding(q, r, f)
    ensures ShowsSome(q, r) <==> exists j :: 0 <= j < |r.findings| && shows(r.findings[j])
  {
    if j :| 0 <= j < |r.findings| && shows(r.findings[j]) {
      assert ShowsFinding(q, r, r.findings[j]);
    }
    if j :| 0 <= j < |r.findings| && ShowsFinding(q, r, r.findings[j]) {
      assert shows(r.findings[j]);
    }
  }

  lemma {:induction false} FindingsOf(q: QueueItem, remediations: seq<Remediation>)
    ensures q in FlatMap(FindingItems, remediations) <==> IsFindingOf(q, remediations)
  {
    FlatMapHas(FindingItems, remediations, q);
    forall i | 0 <= i < |remediations| ensures q in FindingItems(remediations[i]) <==> ShowsSome(q, remediations[i]) {
      FindingsOfOne(q, remediations[i]);
    }
  }

  lemma {:induction false} ReplansOf(q: QueueItem, replans: seq<Replan>)
    ensures q in MapEach(ReplanQueueItem, replans) <==> IsReplanOf(q, replans)
  {
    MapEachHas(ReplanQueueItem, replans, q);
    forall i | 0 <= i < |replans| ensures ReplanQueueItem(replans[i]) == q <==> ShowsReplan(q, replans[i]) {
      ReplanShown(q, replans[i]);
    }
  }

  lemma {:induction false} DebtOf(q: QueueItem, debt: seq<Debt>)
    ensures q in MapEach(DebtQueueItem, debt) <==> IsDebtOf(q, debt)
  {
    MapEachHas(DebtQueueItem, debt, q);
    forall i | 0 <= i < |debt| ensures DebtQueueItem(debt[i]) == q <==> ShowsDebt(q, debt[i]) {
      DebtShown(q, debt[i]);
    }
  }

  lemma {:induction false} ItemsAre(q: QueueItem, remediations: seq<Remediation>, replans: seq<Replan>, debt: seq<Debt>)
    ensures q in QueueItems(remediations, replans, debt)
       <==> IsFindingOf(q, remediations) || IsReplanOf(q, replans) || IsDebtOf(q, debt)
  {
    FindingsOf(q, remediations);
    ReplansOf(q, replans);
    DebtOf(q, debt);
  }

  /** How many findings the remediations have. */
  function Findings(remediations: seq<Remediation>): nat
    decreases |remediations|
  {
    if remediations == [] then 0 else Findings(remediations[..|remediations| - 1]) + |remediations[|remediations| - 1].findings|
  }

  lemma {:induction false} FindingsCounted(remediations: seq<Remediation>)
    ensures |FlatMap(FindingItems, remediations)| == Findings(remediations)
    decreases |remediations|
  {
    if remediations != [] {
      FindingsCounted(remediations[..|remediations| - 1]);
    }
  }

  /** The urgencies from the most pressing on. */
  ghost predicate MoreUrgent(u: Urgency, v: Urgency) {
    var from := [ScopeExpansion, P0, ReplanApproval, ReplanRequired, P1, P2, P3, Informational];
    exists i, j :: 0 <= i < j < |from| && from[i] == u && from[j] == v
  }

  lemma {:induction false} MoreUrgentIff(u: Urgency, v: Urgency)
    ensures MoreUrgent(u, v) <==> UrgencyRank(u) < UrgencyRank(v)
    ensures u != v ==> UrgencyRank(u) != UrgencyRank(v)
  {
    var from := [ScopeExpansion, P0, ReplanApproval, ReplanRequired, P1, P2, P3, Informational];
    assert from[UrgencyRank(u)] == u && from[UrgencyRank(v)] == v;
    forall i | 0 <= i < |from| ensures UrgencyRank(from[i]) == i {
    }
  }

  /** Action first, then urgency, then findings before replans before debt, then the id by code units. */
  ghost predicate Before(a: QueueItem, b: QueueItem) {
    if a.requiresAction != b.requiresAction then a.requiresAction
    else if a.urgency != b.urgency then MoreUrgent(a.urgency, b.urgency)
    else if a.kind != b.kind then a.kind == RemediationItem || b.kind == DebtItem
    else Less(a.itemId, b.itemId)
  }

  lemma {:induction false} BeforeIff(a: QueueItem, b: QueueItem)
    ensures RankLess(QueueRank(a), QueueRank(b)) <==> Before(a, b)
  {
    MoreUrgentIff(a.urgency, b.urgency);
  }

  /** The queue holds one item for each finding, replan and debt record, in this order. */
  lemma {:induction false} QueueIs(remediations: seq<Remediation>, replans: seq<Replan>, debt: seq<Debt>)
    ensures var queue := ReadQueue(remediations, replans, debt);
      && (forall q :: q in queue <==> IsFindingOf(q, remediations) || IsReplanOf(q, replans) || IsDebtOf(q, debt))
      && |queue| == Findings(remediations) + |replans| + |debt|
      && forall i, j :: 0 <= i < j < |queue| ==> !Before(queue[j], queue[i])
  {
    var items := QueueItems(remediations, replans, debt);
    ReadComparesByRank();
    SortWithIsSort(items, ReadCompare, QueueRank);
    SortPermutes(items, QueueRank);
    SortSorts(items, QueueRank);
    FindingsCounted(remediations);
    var queue := Sort(items, QueueRank);
    forall q ensures q in queue <==> IsFindingOf(q, remediations) || IsReplanOf(q, replans) || IsDebtOf(q, debt) {
      SameElements(queue, items, q);
      ItemsAre(q, remediations, replans, debt);
    }
    forall i, j | 0 <= i < j < |queue| ensures !Before(queue[j], queue[i]) {
      BeforeIff(queue[j], queue[i]);
    }
  }

  // ---------------------------------------------------------------------------
  // The projection
  // ---------------------------------------------------------------------------

  /** The same elements, in an order that the predicate says. */
  ghost predicate InOrder<T(!new)>(sorted: seq<T>, listed: seq<T>, before: (T, T) -> bool) {
    multiset(sorted) == multiset(listed) && forall i, j :: 0 <= i < j < |sorted| ==> !before(sorted[j], sorted[i])
  }

  ghost predicate TextsSorted(sorted: seq<Text>, listed: seq<Text>) {
    InOrder(sorted, listed, Less)
  }

  lemma {:induction false} SortInOrder<T(!new)>(xs: seq<T>, rank: T -> Rank, before: (T, T) -> bool)
    requires forall x, y :: before(x, y) <==> RankLess(rank(x), rank(y))
    ensures InOrder(Sort(xs, rank), xs, before)
  {
    SortPermutes(xs, rank);
    SortSorts(xs, rank);
  }

  lemma {:induction false} TextsInOrder(texts: seq<Text>)
    ensures TextsSorted(CanonicalTexts(texts), texts)
  {
    SortInOrder(texts, ByText, Less);
  }

  /** The text a receipt is ordered by: its three names with a zero between them. */
  function ReceiptText(r: Receipt): Text {
    r.findingId + [0] + r.subjectKind + [0] + r.subjectId
  }

  /** A location without a symbol is ordered as one with an empty symbol. */
  function LocationText(l: Location): Text {
    l.relativePath + [0] + (if l.symbol.Some? then l.symbol.value else []) + [0] + l.locationId
  }

  ghost predicate ProjectsRemediation(c: Remediation, r: Remediation) {
    && c == r.(findings := c.findings, receipts := c.receipts)
    && InOrder(c.findings, r.findings, (x: Finding, y: Finding) => Less(x.findingId, y.findingId))
    && InOrder(c.receipts, r.receipts, (x: Receipt, y: Receipt) => Less(ReceiptText(x), ReceiptText(y)))
  }

  ghost predicate EarlierDecision(x: Decision, y: Decision) {
    x.resultingVersion < y.resultingVersion || (x.resultingVersion == y.resultingVersion && Less(x.decisionId, y.decisionId))
  }

  ghost predicate ProjectsReplan(c: Replan, r: Replan) {
    && c == r.(scopeDecisions := c.scopeDecisions, replanDecisions := c.replanDecisions, actions := c.actions)
    && InOrder(c.scopeDecisions, r.scopeDecisions, EarlierDecision) && InOrder(c.replanDecisions, r.replanDecisions, EarlierDecision)
    && TextsSorted(c.actions, r.actions)
  }

  ghost predicate ProjectsLocation(c: Location, l: Location) {
    c == l.(ruleTags := c.ruleTags) && TextsSorted(c.ruleTags, l.ruleTags)
  }

  ghost predicate ProjectsDebt(c: Debt, d: Debt) {
    && c == d.(locations := c.locations, decisions := c.decisions, paths := c.paths, symbols := c.symbols,
               ruleTags := c.ruleTags, actions := c.actions)
    && ProjectsList(c.locations, d.locations, (x: Location, y: Location) => Less(LocationText(x), LocationText(y)), ProjectsLocation)
    && InOrder(c.decisions, d.decisions, (x: TouchDecision, y: TouchDecision) => Less(x.decisionId, y.decisionId))
    && TextsSorted(c.paths, d.paths) && TextsSorted(c.symbols, d.symbols) && TextsSorted(c.ruleTags, d.ruleTags)
    && TextsSorted(c.actions, d.actions)
  }

  ghost predicate ProjectsItem(c: QueueItem, q: QueueItem) {
    c == q.(actions := c.actions) && TextsSorted(c.actions, q.actions)
  }

  ghost predicate Pointwise<T(!new)>(a: seq<T>, b: seq<T>, projects: (T, T) -> bool) {
    |a| == |b| && forall i :: 0 <= i < |a| ==> projects(a[i], b[i])
  }

  /** The elements in the given order, each projected on its own. */
  ghost predicate ProjectsList<T(!new)>(c: seq<T>, listed: seq<T>, before: (T, T) -> bool, projects: (T, T) -> bool) {
    exists ordered: seq<T> :: InOrder(ordered, listed, before) && Pointwise(c, ordered, projects)
  }

  ghost predicate ProjectsMetrics(c: seq<Metric>, m: seq<Metric>) {
    InOrder(c, m, (x: Metric, y: Metric) => Less(x.key, y.key))
  }

  lemma {:induction false} ListProjects<T(!new)>(xs: seq<T>, rank: T -> Rank, f: T -> T, before: (T, T) -> bool, projects: (T, T) -> bool)
    requires (forall x, y :: before(x, y) <==> RankLess(rank(x), rank(y))) && forall x :: projects(f(x), x)
    ensures ProjectsList(MapEach(f, Sort(xs, rank)), xs, before, projects)
  {
    var ordered := Sort(xs, rank);
    SortInOrder(xs, rank, before);
    forall i | 0 <= i < |ordered| ensures projects(MapEach(f, ordered)[i], ordered[i]) {
      MapEachAt(f, ordered, i);
    }
    assert Pointwise(MapEach(f, ordered), ordered, projects);
  }

  lemma {:induction false} RemediationProjects(r: Remediation)
    ensures ProjectsRemediation(CanonicalRemediation(r), r)
  {
    SortInOrder(r.findings, FindingRank, (x: Finding, y: Finding) => Less(x.findingId, y.findingId));
    SortInOrder(r.receipts, ReceiptRank, (x: Receipt, y: Receipt) => Less(ReceiptText(x), ReceiptText(y)));
  }

  lemma {:induction false} ReplanProjects(r: Replan)
    ensures ProjectsReplan(CanonicalReplan(r), r)
  {
    SortInOrder(r.scopeDecisions, DecisionRank, EarlierDecision);
    SortInOrder(r.replanDecisions, DecisionRank, EarlierDecision);
    TextsInOrder(r.actions);
  }

  lemma {:induction false} LocationsProject(d: Debt)
    ensures ProjectsList(CanonicalDebt(d).locations, d.locations,
                         (x: Location, y: Location) => Less(LocationText(x), LocationText(y)), ProjectsLocation)
  {
    forall l ensures ProjectsLocation(CanonicalLocation(l), l) {
      TextsInOrder(l.ruleTags);
    }
    ListProjects(d.locations, LocationRank, CanonicalLocation,
                 (x: Location, y: Location) => Less(LocationText(x), LocationText(y)), ProjectsLocation);
  }

  lemma {:induction false} DebtProjects(d: Debt)
    ensures ProjectsDebt(CanonicalDebt(d), d)
  {
    LocationsProject(d);
    SortInOrder(d.decisions, TouchDecisionRank, (x: TouchDecision, y: TouchDecision) => Less(x.decisionId, y.decisionId));
    TextsInOrder(d.paths);
    TextsInOrder(d.symbols);
    TextsInOrder(d.ruleTags);
    TextsInOrder(d.actions);
  }

  /** The whole projection, list by list: what each is ordered by, and that nothing else is changed. */
  ghost predicate Projects(c: Dashboard, d: Dashboard) {
    && ProjectsList(c.remediations, d.remediations, (x: Remediation, y: Remediation) => Less(x.reviewRunId, y.reviewRunId), ProjectsRemediation)
    && ProjectsList(c.replans, d.replans, (x: Replan, y: Replan) => Less(x.aggregateId, y.aggregateId), ProjectsReplan)
    && ProjectsList(c.debt, d.debt, (x: Debt, y: Debt) => Less(x.recordId, y.recordId), ProjectsDebt)
    && ProjectsList(c.queue, d.queue, Before, ProjectsItem)
    && Pointwise(c.metrics, d.metrics, ProjectsMetrics) && c.rest == d.rest
  }

  lemma {:induction false} RecordsProject(d: Dashboard)
    ensures ProjectsList(Canonical(d).remediations, d.remediations,
                         (x: Remediation, y: Remediation) => Less(x.reviewRunId, y.reviewRunId), ProjectsRemediation)
    ensures ProjectsList(Canonical(d).replans, d.replans, (x: Replan, y: Replan) => Less(x.aggregateId, y.aggregateId), ProjectsReplan)
    ensures ProjectsList(Canonical(d).debt, d.debt, (x: Debt, y: Debt) => Less(x.recordId, y.recordId), ProjectsDebt)
  {
    forall r ensures ProjectsRemediation(CanonicalRemediation(r), r) {
      RemediationProjects(r);
    }
    ListProjects(d.remediations, RemediationRank, CanonicalRemediation,
                 (x: Remediation, y: Remediation) => Less(x.reviewRunId, y.reviewRunId), ProjectsRemediation);
    forall r ensures ProjectsReplan(CanonicalReplan(r), r) {
      ReplanProjects(r);
    }
    ListProjects(d.replans, ReplanRank, CanonicalReplan, (x: Replan, y: Replan) => Less(x.aggregateId, y.aggregateId), ProjectsReplan);
    forall x ensures ProjectsDebt(CanonicalDebt(x), x) {
      DebtProjects(x);
    }
    ListProjects(d.debt, DebtRank, CanonicalDebt, (x: Debt, y: Debt) => Less(x.recordId, y.recordId), ProjectsDebt);
  }

  /** The projection orders every list as its predicate says and changes nothing else. */
  lemma {:induction false} ProjectionIs(d: Dashboard)
    ensures Projects(Canonical(d), d)
  {
    RecordsProject(d);
    forall q ensures ProjectsItem(CanonicalItem(q), q) {
      TextsInOrder(q.actions);
    }
    forall x, y ensures Before(x, y) <==> RankLess(QueueRank(x), QueueRank(y)) {
      BeforeIff(x, y);
    }
    ListProjects(d.queue, QueueRank, CanonicalItem, Before, ProjectsItem);
    forall i | 0 <= i < |d.metrics| ensures ProjectsMetrics(Canonical(d).metrics[i], d.metrics[i]) {
      MapEachAt(CanonicalMetrics, d.metrics, i);
      SortInOrder(d.metrics[i], MetricRank, (x: Metric, y: Metric) => Less(x.key, y.key));
    }
  }

  // ---------------------------------------------------------------------------
  // The source version
  // ---------------------------------------------------------------------------

  function ReviewLine(r: Remediation): Text {
    Units("review:") + r.reviewRunId + Units(":") + r.manifestHash + Units(":") + r.gateState + Units(":") + r.cycleState
  }

  function ReplanLine(r: Replan): Text {
    Units("replan:") + r.aggregateId + Units(":") + r.eventVersion
  }

  function DebtLine(d: Debt): Text {
    Units("debt:") + d.recordId + Units(":") + d.eventVersion
  }

  /** One line for each remediation, replan and debt record. */
  function SourceLines(d: Dashboard): (r: seq<Text>)
    ensures |r| == |d.remediations| + |d.replans| + |d.debt|
  {
    seq(|d.remediations|, i requires 0 <= i < |d.remediations| => ReviewLine(d.remediations[i]))
    + seq(|d.replans|, i requires 0 <= i < |d.replans| => ReplanLine(d.replans[i]))
    + seq(|d.debt|, i requires 0 <= i < |d.debt| => DebtLine(d.debt[i]))
  }

  lemma {:induction false} MapEachIs<T>(f: T -> Text, xs: seq<T>, r: seq<Text>)
    requires |r| == |xs| && forall i :: 0 <= i < |xs| ==> r[i] == f(xs[i])
    ensures MapEach(f, xs) == r
  {
    forall i | 0 <= i < |xs| ensures MapEach(f, xs)[i] == r[i] {
      MapEachAt(f, xs, i);
    }
  }

  /** The source version is the lines of the records in code-unit order. */
  lemma {:induction false} SourceIs(d: Dashboard)
    ensures TextsSorted(SourceTuples(d), SourceLines(d))
  {
    MapEachIs(ReviewTuple, d.remediations, seq(|d.remediations|, i requires 0 <= i < |d.remediations| => ReviewLine(d.remediations[i])));
    MapEachIs(ReplanTuple, d.replans, seq(|d.replans|, i requires 0 <= i < |d.replans| => ReplanLine(d.replans[i])));
    MapEachIs(DebtTuple, d.debt, seq(|d.debt|, i requires 0 <= i < |d.debt| => DebtLine(d.debt[i])));
    SortInOrder(SourceLines(d), ByText, Less);
  }
}
