/**
 * The canonical projection of a governance dashboard: which orders it removes.  Fields that no
 * comparator reads are kept in `rest`.
 */
module ParityProjection {
  import opened Wrappers
  import opened TextOrder
  import opened RankSort
  import opened Utf16

  /** actionable: the finding has a scope decision target. */
  datatype Finding = Finding(findingId: Text, actionable: bool, rest: Text)

  datatype Receipt = Receipt(findingId: Text, subjectKind: Text, subjectId: Text, rest: Text)

  datatype Remediation = Remediation(reviewRunId: Text, manifestHash: Text, gateState: Text, cycleState: Text,
                                     findings: seq<Finding>, receipts: seq<Receipt>, rest: Text)

  datatype Decision = Decision(decisionId: Text, resultingVersion: int, rest: Text)

  datatype Replan = Replan(aggregateId: Text, eventVersion: Text, scopeDecisions: seq<Decision>,
                           replanDecisions: seq<Decision>, actions: seq<Text>, rest: Text)

  datatype Location = Location(relativePath: Text, symbol: Option<Text>, locationId: Text, ruleTags: seq<Text>, rest: Text)

  datatype TouchDecision = TouchDecision(decisionId: Text, rest: Text)

  datatype Urgency = ScopeExpansion | P0 | ReplanApproval | ReplanRequired | P1 | P2 | P3 | Informational

  /** priority is one of P0 to P3. */
  datatype Debt = Debt(recordId: Text, eventVersion: Text, priority: Urgency, locations: seq<Location>,
                       decisions: seq<TouchDecision>, paths: seq<Text>, symbols: seq<Text>, ruleTags: seq<Text>, actions: seq<Text>, rest: Text)

  datatype ItemKind = RemediationItem | ReplanItem | DebtItem

  datatype QueueItem = QueueItem(itemId: Text, kind: ItemKind, requiresAction: bool, urgency: Urgency, actions: seq<Text>, rest: Text)

  datatype Metric = Metric(key: Text, rest: Text)

  datatype Dashboard = Dashboard(remediations: seq<Remediation>, replans: seq<Replan>, debt: seq<Debt>,
                                 queue: seq<QueueItem>, metrics: seq<seq<Metric>>, rest: Text)

  // ---------------------------------------------------------------------------
  // The comparators
  // ---------------------------------------------------------------------------

  function ByText(t: Text): Rank {
    Rank(0, 0, 0, t)
  }

  function FindingRank(f: Finding): Rank {
    ByText(f.findingId)
  }

  /** The three fields joined by NUL. */
  function ReceiptRank(r: Receipt): Rank {
    ByText(r.findingId + [0] + r.subjectKind + [0] + r.subjectId)
  }

  function RemediationRank(r: Remediation): Rank {
    ByText(r.reviewRunId)
  }

  function DecisionRank(d: Decision): Rank {
    Rank(d.resultingVersion, 0, 0, d.decisionId)
  }

  function ReplanRank(r: Replan): Rank {
    ByText(r.aggregateId)
  }

  function LocationRank(l: Location): Rank {
    ByText(l.relativePath + [0] + l.symbol.GetOr([]) + [0] + l.locationId)
  }

  function TouchDecisionRank(d: TouchDecision): Rank {
    ByText(d.decisionId)
  }

  function DebtRank(d: Debt): Rank {
    ByText(d.recordId)
  }

  function UrgencyRank(u: Urgency): int {
    match u
    case ScopeExpansion => 0
    case P0 => 1
    case ReplanApproval => 2
    case ReplanRequired => 3
    case P1 => 4
    case P2 => 5
    case P3 => 6
    case Informational => 7
  }

  function KindRank(k: ItemKind): int {
    match k case RemediationItem => 0 case ReplanItem => 1 case DebtItem => 2
  }

  /** Items that require action first, then by urgency, kind and id. */
  function QueueRank(q: QueueItem): Rank {
    Rank(if q.requiresAction then -1 else 0, UrgencyRank(q.urgency), KindRank(q.kind), q.itemId)
  }

  function MetricRank(m: Metric): Rank {
    ByText(m.key)
  }

  // ---------------------------------------------------------------------------
  // The projection
  // ---------------------------------------------------------------------------

  function CanonicalTexts(texts: seq<Text>): seq<Text> {
    Sort(texts, ByText)
  }

  function CanonicalRemediation(r: Remediation): Remediation {
    r.(findings := Sort(r.findings, FindingRank), receipts := Sort(r.receipts, ReceiptRank))
  }

  function CanonicalReplan(r: Replan): Replan {
    r.(scopeDecisions := Sort(r.scopeDecisions, DecisionRank), replanDecisions := Sort(r.replanDecisions, DecisionRank),
       actions := CanonicalTexts(r.actions))
  }

  function CanonicalLocation(l: Location): Location {
    l.(ruleTags := CanonicalTexts(l.ruleTags))
  }

  function CanonicalDebt(d: Debt): Debt {
    d.(locations := MapEach(CanonicalLocation, Sort(d.locations, LocationRank)),
       decisions := Sort(d.decisions, TouchDecisionRank), paths := CanonicalTexts(d.paths),
       symbols := CanonicalTexts(d.symbols), ruleTags := CanonicalTexts(d.ruleTags), actions := CanonicalTexts(d.actions))
  }

  function CanonicalItem(q: QueueItem): QueueItem {
    q.(actions := CanonicalTexts(q.actions))
  }

  function CanonicalMetrics(metrics: seq<Metric>): seq<Metric> {
    Sort(metrics, MetricRank)
  }

  function Canonical(d: Dashboard): Dashboard {
    d.(remediations := MapEach(CanonicalRemediation, Sort(d.remediations, RemediationRank)),
       replans := MapEach(CanonicalReplan, Sort(d.replans, ReplanRank)),
       debt := MapEach(CanonicalDebt, Sort(d.debt, DebtRank)),
       queue := MapEach(CanonicalItem, Sort(d.queue, QueueRank)),
       metrics := MapEach(CanonicalMetrics, d.metrics))
  }

  // ---------------------------------------------------------------------------
  // Dashboards that differ in order only
  // ---------------------------------------------------------------------------

  ghost predicate SameTexts(a: seq<Text>, b: seq<Text>) {
    multiset(a) == multiset(b)
  }

  /** The same list in another order, no two elements of which share a key. */
  ghost predicate Shuffled<T(!new)>(a: seq<T>, b: seq<T>, rank: T -> Rank) {
    multiset(a) == multiset(b) && DistinctRanks(a, rank)
  }

  ghost predicate ShuffledRemediation(a: Remediation, b: Remediation) {
    && Shuffled(a.findings, b.findings, FindingRank) && Shuffled(a.receipts, b.receipts, ReceiptRank)
    && b == a.(findings := b.findings, receipts := b.receipts)
  }

  ghost predicate ShuffledReplan(a: Replan, b: Replan) {
    && Shuffled(a.scopeDecisions, b.scopeDecisions, DecisionRank) && Shuffled(a.replanDecisions, b.replanDecisions, DecisionRank)
    && SameTexts(a.actions, b.actions)
    && b == a.(scopeDecisions := b.scopeDecisions, replanDecisions := b.replanDecisions, actions := b.actions)
  }

  ghost predicate ShuffledLocation(a: Location, b: Location) {
    SameTexts(a.ruleTags, b.ruleTags) && b == a.(ruleTags := b.ruleTags)
  }

  ghost predicate ShuffledDebt(a: Debt, b: Debt) {
    && ShuffledList(a.locations, b.locations, LocationRank, ShuffledLocation)
    && Shuffled(a.decisions, b.decisions, TouchDecisionRank)
    && SameTexts(a.paths, b.paths) && SameTexts(a.symbols, b.symbols) && SameTexts(a.ruleTags, b.ruleTags)
    && SameTexts(a.actions, b.actions)
    && b == a.(locations := b.locations, decisions := b.decisions, paths := b.paths, symbols := b.symbols,
               ruleTags := b.ruleTags, actions := b.actions)
  }

  ghost predicate ShuffledItem(a: QueueItem, b: QueueItem) {
    SameTexts(a.actions, b.actions) && b == a.(actions := b.actions)
  }

  ghost predicate Related<T(!new)>(x: T, ys: seq<T>, same: (T, T) -> bool) {
    exists j :: 0 <= j < |ys| && same(x, ys[j])
  }

  ghost predicate RelatedBack<T(!new)>(y: T, xs: seq<T>, same: (T, T) -> bool) {
    exists i :: 0 <= i < |xs| && same(xs[i], y)
  }

  /** Uniquely keyed lists, each element of which is related to one of the other list. */
  ghost predicate ShuffledList<T(!new)>(a: seq<T>, b: seq<T>, rank: T -> Rank, same: (T, T) -> bool) {
    && DistinctRanks(a, rank) && DistinctRanks(b, rank)
    && (forall x :: x in a ==> Related(x, b, same)) && (forall y :: y in b ==> RelatedBack(y, a, same))
  }

  ghost predicate ShuffledMetrics(a: seq<seq<Metric>>, b: seq<seq<Metric>>) {
    |a| == |b| && forall i :: 0 <= i < |a| ==> Shuffled(a[i], b[i], MetricRank)
  }

  /** The two dashboards differ only in the order of uniquely keyed collections and of string lists. */
  ghost predicate ShuffledDashboard(a: Dashboard, b: Dashboard) {
    && ShuffledList(a.remediations, b.remediations, RemediationRank, (x, y) => ShuffledRemediation(x, y))
    && ShuffledList(a.replans, b.replans, ReplanRank, (x, y) => ShuffledReplan(x, y))
    && ShuffledList(a.debt, b.debt, DebtRank, (x, y) => ShuffledDebt(x, y))
    && ShuffledList(a.queue, b.queue, QueueRank, (x, y) => ShuffledItem(x, y))
    && ShuffledMetrics(a.metrics, b.metrics) && a.rest == b.rest
  }

  // ---------------------------------------------------------------------------
  // Order does not matter
  // ---------------------------------------------------------------------------

  lemma {:induction false} TextsAgree(a: seq<Text>, b: seq<Text>)
    requires SameTexts(a, b)
    ensures CanonicalTexts(a) == CanonicalTexts(b)
  {
    SortIgnoresListing(a, b, ByText);
  }

  lemma {:induction false} ShuffledAgree<T(!new)>(a: seq<T>, b: seq<T>, rank: T -> Rank)
    requires Shuffled(a, b, rank)
    ensures Sort(a, rank) == Sort(b, rank)
  {
    DistinctIsKeyed(a, rank);
    SortIgnoresListing(a, b, rank);
  }

  lemma {:induction false} RemediationsAgree(a: Remediation, b: Remediation)
    requires ShuffledRemediation(a, b)
    ensures CanonicalRemediation(a) == CanonicalRemediation(b)
  {
    ShuffledAgree(a.findings, b.findings, FindingRank);
    ShuffledAgree(a.receipts, b.receipts, ReceiptRank);
  }

  lemma {:induction false} ReplansAgree(a: Replan, b: Replan)
    requires ShuffledReplan(a, b)
    ensures CanonicalReplan(a) == CanonicalReplan(b)
  {
    ShuffledAgree(a.scopeDecisions, b.scopeDecisions, DecisionRank);
    ShuffledAgree(a.replanDecisions, b.replanDecisions, DecisionRank);
    TextsAgree(a.actions, b.actions);
  }

  lemma {:induction false} LocationsAgree(a: Location, b: Location)
    requires ShuffledLocation(a, b)
    ensures CanonicalLocation(a) == CanonicalLocation(b)
  {
    TextsAgree(a.ruleTags, b.ruleTags);
  }

  lemma {:induction false} ItemsAgree(a: QueueItem, b: QueueItem)
    requires ShuffledItem(a, b)
    ensures CanonicalItem(a) == CanonicalItem(b)
  {
    TextsAgree(a.actions, b.actions);
  }

  /** Lists agree once related elements do. */
  lemma {:induction false} ListsAgree<T(!new)>(a: seq<T>, b: seq<T>, rank: T -> Rank, same: (T, T) -> bool, f: T -> T)
    requires ShuffledList(a, b, rank, same)
    requires forall x, y :: same(x, y) ==> f(x) == f(y)
    requires forall y :: rank(f(y)) == rank(y)
    ensures MapEach(f, Sort(a, rank)) == MapEach(f, Sort(b, rank))
  {
    forall x | x in a ensures HasPartner(x, b, f) {
      assert Related(x, b, same);
      var j :| 0 <= j < |b| && same(x, b[j]);
      assert f(b[j]) == f(x);
    }
    forall y | y in b ensures HasPartner(y, a, f) {
      assert RelatedBack(y, a, same);
      var i :| 0 <= i < |a| && same(a[i], y);
      assert f(a[i]) == f(y);
    }
    CanonicalListsAgree(a, b, rank, f);
  }

  lemma {:induction false} DebtsAgree(a: Debt, b: Debt)
    requires ShuffledDebt(a, b)
    ensures CanonicalDebt(a) == CanonicalDebt(b)
  {
    forall x, y | ShuffledLocation(x, y) ensures CanonicalLocation(x) == CanonicalLocation(y) {
      LocationsAgree(x, y);
    }
    ListsAgree(a.locations, b.locations, LocationRank, ShuffledLocation, CanonicalLocation);
    ShuffledAgree(a.decisions, b.decisions, TouchDecisionRank);
    TextsAgree(a.paths, b.paths);
    TextsAgree(a.symbols, b.symbols);
    TextsAgree(a.ruleTags, b.ruleTags);
    TextsAgree(a.actions, b.actions);
  }

  lemma {:induction false} MetricsAgree(a: seq<seq<Metric>>, b: seq<seq<Metric>>)
    requires ShuffledMetrics(a, b)
    ensures MapEach(CanonicalMetrics, a) == MapEach(CanonicalMetrics, b)
  {
    forall i | 0 <= i < |a| ensures MapEach(CanonicalMetrics, a)[i] == MapEach(CanonicalMetrics, b)[i] {
      MapEachAt(CanonicalMetrics, a, i);
      MapEachAt(CanonicalMetrics, b, i);
      ShuffledAgree(a[i], b[i], MetricRank);
    }
  }

  lemma {:induction false} RecordsAgree(a: Dashboard, b: Dashboard)
    requires ShuffledDashboard(a, b)
    ensures Canonical(a).remediations == Canonical(b).remediations && Canonical(a).replans == Canonical(b).replans
  {
    forall x, y | ShuffledRemediation(x, y) ensures CanonicalRemediation(x) == CanonicalRemediation(y) {
      RemediationsAgree(x, y);
    }
    ListsAgree(a.remediations, b.remediations, RemediationRank, (x, y) => ShuffledRemediation(x, y), CanonicalRemediation);
    forall x, y | ShuffledReplan(x, y) ensures CanonicalReplan(x) == CanonicalReplan(y) {
      ReplansAgree(x, y);
    }
    ListsAgree(a.replans, b.replans, ReplanRank, (x, y) => ShuffledReplan(x, y), CanonicalReplan);
  }

  lemma {:induction false} QueuesAgree(a: Dashboard, b: Dashboard)
    requires ShuffledDashboard(a, b)
    ensures Canonical(a).debt == Canonical(b).debt && Canonical(a).queue == Canonical(b).queue
  {
    forall x, y | ShuffledDebt(x, y) ensures CanonicalDebt(x) == CanonicalDebt(y) {
      DebtsAgree(x, y);
    }
    ListsAgree(a.debt, b.debt, DebtRank, (x, y) => ShuffledDebt(x, y), CanonicalDebt);
    forall x, y | ShuffledItem(x, y) ensures CanonicalItem(x) == CanonicalItem(y) {
      ItemsAgree(x, y);
    }
    ListsAgree(a.queue, b.queue, QueueRank, (x, y) => ShuffledItem(x, y), CanonicalItem);
  }

  /** Dashboards that differ only in order have the same canonical projection. */
  lemma {:induction false} ProjectionIgnoresOrder(a: Dashboard, b: Dashboard)
    requires ShuffledDashboard(a, b)
    ensures Canonical(a) == Canonical(b)
  {
    RecordsAgree(a, b);
    QueuesAgree(a, b);
    MetricsAgree(a.metrics, b.metrics);
  }

  // ---------------------------------------------------------------------------
  // Projecting twice
  // ---------------------------------------------------------------------------

  lemma {:induction false} SortTwice<T(!new)>(xs: seq<T>, rank: T -> Rank)
    ensures Sort(Sort(xs, rank), rank) == Sort(xs, rank)
  {
    SortSorts(xs, rank);
    SortFixed(Sort(xs, rank), rank);
  }

  lemma {:induction false} MapEachTwice<T>(f: T -> T, xs: seq<T>)
    requires forall y :: f(f(y)) == f(y)
    ensures MapEach(f, MapEach(f, xs)) == MapEach(f, xs)
    decreases |xs|
  {
    if xs != [] {
      MapEachTwice(f, xs[1..]);
    }
  }

  lemma {:induction false} ListTwice<T(!new)>(xs: seq<T>, rank: T -> Rank, f: T -> T)
    requires (forall y :: f(f(y)) == f(y)) && forall y :: rank(f(y)) == rank(y)
    ensures MapEach(f, Sort(MapEach(f, Sort(xs, rank)), rank)) == MapEach(f, Sort(xs, rank))
  {
    RankSort.SortCommutes(xs, rank, f);
    SortTwice(MapEach(f, xs), rank);
    MapEachTwice(f, Sort(xs, rank));
  }

  lemma {:induction false} LocationTwice(l: Location)
    ensures CanonicalLocation(CanonicalLocation(l)) == CanonicalLocation(l)
  {
    SortTwice(l.ruleTags, ByText);
  }

  lemma {:induction false} DebtTwice(d: Debt)
    ensures CanonicalDebt(CanonicalDebt(d)) == CanonicalDebt(d)
  {
    forall l ensures CanonicalLocation(CanonicalLocation(l)) == CanonicalLocation(l) {
      LocationTwice(l);
    }
    ListTwice(d.locations, LocationRank, CanonicalLocation);
    SortTwice(d.decisions, TouchDecisionRank);
    SortTwice(d.paths, ByText);
    SortTwice(d.symbols, ByText);
    SortTwice(d.ruleTags, ByText);
    SortTwice(d.actions, ByText);
  }

  lemma {:induction false} RemediationTwice(r: Remediation)
    ensures CanonicalRemediation(CanonicalRemediation(r)) == CanonicalRemediation(r)
  {
    SortTwice(r.findings, FindingRank);
    SortTwice(r.receipts, ReceiptRank);
  }

  lemma {:induction false} ReplanTwice(r: Replan)
    ensures CanonicalReplan(CanonicalReplan(r)) == CanonicalReplan(r)
  {
    SortTwice(r.scopeDecisions, DecisionRank);
    SortTwice(r.replanDecisions, DecisionRank);
    SortTwice(r.actions, ByText);
  }

  /** Projecting a projection changes nothing, keys repeated or not. */
  lemma {:induction false} ProjectionIdempotent(d: Dashboard)
    ensures Canonical(Canonical(d)) == Canonical(d)
  {
    forall r ensures CanonicalRemediation(CanonicalRemediation(r)) == CanonicalRemediation(r) {
      RemediationTwice(r);
    }
    ListTwice(d.remediations, RemediationRank, CanonicalRemediation);
    forall r ensures CanonicalReplan(CanonicalReplan(r)) == CanonicalReplan(r) {
      ReplanTwice(r);
    }
    ListTwice(d.replans, ReplanRank, CanonicalReplan);
    forall x ensures CanonicalDebt(CanonicalDebt(x)) == CanonicalDebt(x) {
      DebtTwice(x);
    }
    ListTwice(d.debt, DebtRank, CanonicalDebt);
    forall q: QueueItem ensures CanonicalItem(CanonicalItem(q)) == CanonicalItem(q) {
      SortTwice(q.actions, ByText);
    }
    ListTwice(d.queue, QueueRank, CanonicalItem);
    forall m ensures CanonicalMetrics(CanonicalMetrics(m)) == CanonicalMetrics(m) {
      SortTwice(m, MetricRank);
    }
    MapEachTwice(CanonicalMetrics, d.metrics);
  }

  // ---------------------------------------------------------------------------
  // The source version
  // ---------------------------------------------------------------------------

  function ReviewTuple(r: Remediation): Text {
    Units("review:") + r.reviewRunId + Units(":") + r.manifestHash + Units(":") + r.gateState + Units(":") + r.cycleState
  }

  function ReplanTuple(r: Replan): Text {
    Units("replan:") + r.aggregateId + Units(":") + r.eventVersion
  }

  function DebtTuple(d: Debt): Text {
    Units("debt:") + d.recordId + Units(":") + d.eventVersion
  }

  /** The sorted tuples whose joined text is hashed as the source version. */
  function SourceTuples(d: Dashboard): seq<Text> {
    Sort(MapEach(ReviewTuple, d.remediations) + MapEach(ReplanTuple, d.replans) + MapEach(DebtTuple, d.debt), ByText)
  }

  lemma {:induction false} MapEachThrough<T>(f: T -> T, g: T -> Text, xs: seq<T>)
    requires forall x :: g(f(x)) == g(x)
    ensures MapEach(g, MapEach(f, xs)) == MapEach(g, xs)
    decreases |xs|
  {
    if xs != [] {
      MapEachThrough(f, g, xs[1..]);
    }
  }

  /** What canonical form does not touch can be read before it or after it. */
  lemma {:induction false} TuplesOfCanonical<T(!new)>(xs: seq<T>, rank: T -> Rank, f: T -> T, g: T -> Text)
    requires forall x :: g(f(x)) == g(x)
    ensures multiset(MapEach(g, MapEach(f, Sort(xs, rank)))) == multiset(MapEach(g, xs))
  {
    MapEachThrough(f, g, Sort(xs, rank));
    SortPermutes(xs, rank);
    MapEachPermutes(g, Sort(xs, rank), xs);
  }

  lemma {:induction false} SourceOfCanonical(d: Dashboard)
    ensures SourceTuples(Canonical(d)) == SourceTuples(d)
  {
    TuplesOfCanonical(d.remediations, RemediationRank, CanonicalRemediation, ReviewTuple);
    TuplesOfCanonical(d.replans, ReplanRank, CanonicalReplan, ReplanTuple);
    TuplesOfCanonical(d.debt, DebtRank, CanonicalDebt, DebtTuple);
    var c := Canonical(d);
    TextsAgree(MapEach(ReviewTuple, c.remediations) + MapEach(ReplanTuple, c.replans) + MapEach(DebtTuple, c.debt),
               MapEach(ReviewTuple, d.remediations) + MapEach(ReplanTuple, d.replans) + MapEach(DebtTuple, d.debt));
  }

  /** The source version of dashboards that differ only in order is the same text. */
  lemma {:induction false} SourceIgnoresOrder(a: Dashboard, b: Dashboard)
    requires ShuffledDashboard(a, b)
    ensures SourceTuples(a) == SourceTuples(b)
  {
    ProjectionIgnoresOrder(a, b);
    SourceOfCanonical(a);
    SourceOfCanonical(b);
  }
}
