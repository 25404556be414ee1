module QueueOrder {
  /**
   * The work queue of the dashboard.  The read service builds and sorts it with its own comparator,
   * the parity service sorts it with another one; both are spelled out here and proved the same.
   */

  import opened TextOrder
  import opened Utf16
  import opened RankSort
  import opened ParityProjection

  // ---------------------------------------------------------------------------
  // Sorting by a comparator
  // ---------------------------------------------------------------------------

  function InsertWith<T>(x: T, xs: seq<T>, compare: (T, T) -> int): seq<T>
    decreases |xs|
  {
    if xs == [] then [x]
    else if compare(xs[0], x) < 0 then [xs[0]] + InsertWith(x, xs[1..], compare)
    else [x] + xs
  }

  /** Stable sorting with a comparator. */
  function SortWith<T>(xs: seq<T>, compare: (T, T) -> int): seq<T>
    decreases |xs|
  {
    if xs == [] then [] else InsertWith(xs[0], SortWith(xs[1..], compare), compare)
  }

  ghost predicate ComparesByRank<T(!new)>(compare: (T, T) -> int, rank: T -> Rank) {
    forall x, y :: compare(x, y) < 0 <==> RankLess(rank(x), rank(y))
  }

  lemma {:induction false} InsertWithIsInsert<T(!new)>(x: T, xs: seq<T>, compare: (T, T) -> int, rank: T -> Rank)
    requires ComparesByRank(compare, rank)
    ensures InsertWith(x, xs, compare) == Insert(x, xs, rank)
    decreases |xs|
  {
    if xs != [] {
      InsertWithIsInsert(x, xs[1..], compare, rank);
    }
  }

  lemma {:induction false} SortWithIsSort<T(!new)>(xs: seq<T>, compare: (T, T) -> int, rank: T -> Rank)
    requires ComparesByRank(compare, rank)
    ensures SortWith(xs, compare) == Sort(xs, rank)
    decreases |xs|
  {
    if xs != [] {
      SortWithIsSort(xs[1..], compare, rank);
      InsertWithIsInsert(xs[0], Sort(xs[1..], rank), compare, rank);
    }
  }

  // ---------------------------------------------------------------------------
  // The two comparators
  // ---------------------------------------------------------------------------

  function NumberOf(b: bool): int {
    if b then 1 else 0
  }

  /** Code-unit order of two texts as a comparator: zero for equal ones, otherwise the sign of their order. */
  function CompareTexts(left: Text, right: Text): int {
    if left == right then 0 else if Less(left, right) then -1 else 1
  }

  const READ_URGENCY: map<Urgency, int> := map[
    ScopeExpansion := 0, P0 := 1, ReplanApproval := 2, ReplanRequired := 3, P1 := 4, P2 := 5, P3 := 6, Informational := 7]

  const READ_KIND: map<ItemKind, int> := map[RemediationItem := 0, ReplanItem := 1, DebtItem := 2]

  /** The comparator of the read service: the first difference that is not zero. */
  function ReadCompare(left: QueueItem, right: QueueItem): int {
    var action := NumberOf(right.requiresAction) - NumberOf(left.requiresAction);
    if action != 0 then action
    else
      var urgency := Entry(READ_URGENCY, left.urgency) - Entry(READ_URGENCY, right.urgency);
      if urgency != 0 then urgency
      else
        var kind := Entry(READ_KIND, left.kind) - Entry(READ_KIND, right.kind);
        if kind != 0 then kind else CompareTexts(left.itemId, right.itemId)
  }

  function Entry<K>(table: map<K, int>, key: K): int {
    if key in table then table[key] else 0
  }

  /** The tables of the parity service, looked up by the name of the value. */
  function UrgencyName(u: Urgency): string {
    match u
    case ScopeExpansion => "SCOPE_EXPANSION"
    case P0 => "P0"
    case ReplanApproval => "REPLAN_APPROVAL"
    case ReplanRequired => "REPLAN_REQUIRED"
    case P1 => "P1"
    case P2 => "P2"
    case P3 => "P3"
    case Informational => "INFORMATIONAL"
  }

  function KindName(k: ItemKind): string {
    match k case RemediationItem => "REMEDIATION" case ReplanItem => "REPLAN" case DebtItem => "ARCHITECTURE_DEBT"
  }

  function ParityUrgency(name: string): int {
    match name
    case "SCOPE_EXPANSION" => 0
    case "P0" => 1
    case "REPLAN_APPROVAL" => 2
    case "REPLAN_REQUIRED" => 3
    case "P1" => 4
    case "P2" => 5
    case "P3" => 6
    case _ => 7
  }

  function ParityKind(name: string): int {
    match name case "REMEDIATION" => 0 case "REPLAN" => 1 case _ => 2
  }

  /** The comparator of the parity service. */
  function ParityCompare(left: QueueItem, right: QueueItem): int {
    var action := NumberOf(right.requiresAction) - NumberOf(left.requiresAction);
    var urgency := ParityUrgency(UrgencyName(left.urgency)) - ParityUrgency(UrgencyName(right.urgency));
    var kind := ParityKind(KindName(left.kind)) - ParityKind(KindName(right.kind));
    if action != 0 then action else if urgency != 0 then urgency else if kind != 0 then kind
    else CompareTexts(left.itemId, right.itemId)
  }

  lemma {:induction false} TablesAgree(u: Urgency, k: ItemKind)
    ensures Entry(READ_URGENCY, u) == ParityUrgency(UrgencyName(u)) == UrgencyRank(u)
    ensures Entry(READ_KIND, k) == ParityKind(KindName(k)) == KindRank(k)
  {
  }

  /** The two services compare any two items alike. */
  lemma {:induction false} ComparatorsAgree(left: QueueItem, right: QueueItem)
    ensures ReadCompare(left, right) == ParityCompare(left, right)
  {
    TablesAgree(left.urgency, left.kind);
    TablesAgree(right.urgency, right.kind);
  }

  /** Both follow the rank: action, urgency, kind and id, in this order. */
  lemma {:induction false} ReadComparesByRank()
    ensures ComparesByRank(ReadCompare, QueueRank)
  {
    forall x, y ensures ReadCompare(x, y) < 0 <==> RankLess(QueueRank(x), QueueRank(y)) {
      TablesAgree(x.urgency, x.kind);
      TablesAgree(y.urgency, y.kind);
      RankTotal(QueueRank(x), QueueRank(y));
      LessTotal(x.itemId, y.itemId);
    }
  }

  lemma {:induction false} ParityComparesByRank()
    ensures ComparesByRank(ParityCompare, QueueRank)
  {
    ReadComparesByRank();
    forall x, y ensures ParityCompare(x, y) < 0 <==> RankLess(QueueRank(x), QueueRank(y)) {
      ComparatorsAgree(x, y);
    }
  }

  // ---------------------------------------------------------------------------
  // The queue
  // ---------------------------------------------------------------------------

  function FindingItem(r: Remediation, f: Finding): QueueItem {
    QueueItem(Units("remediation:") + r.reviewRunId + Units(":") + f.findingId, RemediationItem, f.actionable,
              if f.actionable then ScopeExpansion else Informational,
              if f.actionable then [Units("ACCEPT_SCOPE_EXPANSION"), Units("REJECT_SCOPE_EXPANSION")] else [], f.rest)
  }

  function ReplanQueueItem(r: Replan): QueueItem {
    QueueItem(Units("replan:") + r.aggregateId, ReplanItem, r.actions != [],
              if r.actions != [] then ReplanApproval else Informational, r.actions, r.rest)
  }

  function DebtQueueItem(d: Debt): QueueItem {
    QueueItem(Units("debt:") + d.recordId, DebtItem, d.actions != [], d.priority, d.actions, d.rest)
  }

  function FindingItems(r: Remediation): seq<QueueItem> {
    MapEach(f => FindingItem(r, f), r.findings)
  }

  function FlatMap<T>(items: T -> seq<QueueItem>, xs: seq<T>): seq<QueueItem>
    decreases |xs|
  {
    if xs == [] then [] else FlatMap(items, xs[..|xs| - 1]) + items(xs[|xs| - 1])
  }

  function QueueItems(remediations: seq<Remediation>, replans: seq<Replan>, debt: seq<Debt>): seq<QueueItem> {
    FlatMap(FindingItems, remediations) + MapEach(ReplanQueueItem, replans) + MapEach(DebtQueueItem, debt)
  }

  /** Appends to the queue the item of each element, in order. */
  method PushEach<T>(queue: seq<QueueItem>, xs: seq<T>, item: T -> QueueItem) returns (items: seq<QueueItem>)
    ensures items == queue + MapEach(item, xs)
  {
    items := queue;
    var i := 0;
    while i < |xs|
      invariant 0 <= i <= |xs| && items == queue + MapEach(item, xs[..i])
    {
      assert xs[..i + 1] == xs[..i] + [xs[i]];
      MapEachConcat(item, xs[..i], [xs[i]]);
      items := items + [item(xs[i])];
      i := i + 1;
    }
    assert xs[..i] == xs;
  }

  /** Collects the items of each element in turn, in order. */
  method PushNested<T>(xs: seq<T>, items: T -> seq<QueueItem>) returns (queue: seq<QueueItem>)
    ensures queue == FlatMap(items, xs)
  {
    queue := [];
    var i := 0;
    while i < |xs|
      invariant 0 <= i <= |xs| && queue == FlatMap(items, xs[..i])
    {
      assert xs[..i + 1][..i] == xs[..i];
      queue := queue + items(xs[i]);
      i := i + 1;
    }
    assert xs[..i] == xs;
  }

  /** The queue as the read service sorts it. */
  function ReadQueue(remediations: seq<Remediation>, replans: seq<Replan>, debt: seq<Debt>): seq<QueueItem> {
    SortWith(QueueItems(remediations, replans, debt), ReadCompare)
  }

  /** Pushing one item per finding, replan and debt record, then sorting. */
  method QueueFor(remediations: seq<Remediation>, replans: seq<Replan>, debt: seq<Debt>) returns (queue: seq<QueueItem>)
    ensures queue == ReadQueue(remediations, replans, debt)
  {
    queue := PushNested(remediations, FindingItems);
    queue := PushEach(queue, replans, ReplanQueueItem);
    queue := PushEach(queue, debt, DebtQueueItem);
    queue := SortWith(queue, ReadCompare);
  }

  /** The projection sorts the queue with the comparator of the parity service. */
  lemma {:induction false} ProjectedQueue(d: Dashboard)
    ensures Canonical(d).queue == MapEach(CanonicalItem, SortWith(d.queue, ParityCompare))
  {
    ParityComparesByRank();
    SortWithIsSort(d.queue, ParityCompare, QueueRank);
  }

  /**
   * The queue that the read service builds is in the parity service's order already: projecting a
   * dashboard does not move its items, and none is lost or added.
   */
  lemma {:induction false} QueueIsCanonical(d: Dashboard, remediations: seq<Remediation>, replans: seq<Replan>, debt: seq<Debt>)
    requires d.queue == ReadQueue(remediations, replans, debt)
    ensures SortWith(d.queue, ParityCompare) == d.queue
    ensures Canonical(d).queue == MapEach(CanonicalItem, d.queue)
    ensures multiset(d.queue) == multiset(QueueItems(remediations, replans, debt))
  {
    var items := QueueItems(remediations, replans, debt);
    ReadComparesByRank();
    ParityComparesByRank();
    SortWithIsSort(items, ReadCompare, QueueRank);
    SortWithIsSort(d.queue, ParityCompare, QueueRank);
    SortTwice(items, QueueRank);
    SortPermutes(items, QueueRank);
    ProjectedQueue(d);
  }

  /** Nothing that can wait stands before something that cannot, and nothing less urgent before something more so. */
  lemma {:induction false} QueueOrdered(remediations: seq<Remediation>, replans: seq<Replan>, debt: seq<Debt>, i: nat, j: nat)
    requires i < j < |ReadQueue(remediations, replans, debt)|
    ensures var queue := ReadQueue(remediations, replans, debt);
      && (queue[j].requiresAction ==> queue[i].requiresAction)
      && (queue[i].requiresAction == queue[j].requiresAction ==> UrgencyRank(queue[i].urgency) <= UrgencyRank(queue[j].urgency))
  {
    var items := QueueItems(remediations, replans, debt);
    ReadComparesByRank();
    SortWithIsSort(items, ReadCompare, QueueRank);
    SortSorts(items, QueueRank);
    assert !RankLess(QueueRank(Sort(items, QueueRank)[j]), QueueRank(Sort(items, QueueRank)[i]));
  }
}
