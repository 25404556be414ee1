/**
 * The input of the future-touch gate and when it is valid.  Text hygiene is a parameter; lengths,
 * orders and emptiness are what the policy asks for.
 */
module TouchInput {
  import opened DebtPolicy
  import opened TouchSelectors
  import opened TextOrder
  import opened Utf16

  /** The fields every decision kind has; the rest of a decision is details. */
  datatype Decision = Decision(decisionId: string, projectId: string, featureId: string, touchPlanHash: string,
                               recordId: string, recordVersion: nat, selectorIds: seq<string>, actorId: string,
                               details: string)

  datatype Request = Request(plan: Plan, planHash: string, aggregates: seq<Aggregate>, decisions: seq<Decision>, actorId: string)

  /** The text predicates of the gate, left uninterpreted; details are judged by the decision's kind. */
  datatype TouchHygiene = TouchHygiene(
    text: string -> bool,
    identifier: string -> bool,
    path: string -> bool,
    hash: string -> bool,
    recordId: string -> bool,
    aggregate: Aggregate -> bool,
    details: string -> bool)

  const LIST_LIMIT := 128

  /** Each value is smaller than the next one. */
  predicate SortedUnique(values: seq<string>)
    decreases |values|
  {
    |values| <= 1 || (Less(Units(values[|values| - 2]), Units(values[|values| - 1])) && SortedUnique(values[..|values| - 1]))
  }

  predicate StringList(valid: string -> bool, values: seq<string>) {
    |values| <= LIST_LIMIT && (forall v :: v in values ==> valid(v)) && SortedUnique(values)
  }

  function Pair(symbol: PlannedSymbol): string {
    symbol.relativePath + "\0" + symbol.symbol
  }

  function Pairs(symbols: seq<PlannedSymbol>): (r: seq<string>)
    ensures |r| == |symbols|
    decreases |symbols|
  {
    if symbols == [] then [] else Pairs(symbols[..|symbols| - 1]) + [Pair(symbols[|symbols| - 1])]
  }

  predicate ValidSymbol(h: TouchHygiene, symbol: PlannedSymbol) {
    h.path(symbol.relativePath) && h.identifier(symbol.symbol)
  }

  predicate ValidPlan(h: TouchHygiene, plan: Plan) {
    && h.identifier(plan.projectId) && h.identifier(plan.featureId)
    && StringList(h.path, plan.paths) && StringList(h.text, plan.ruleTags)
    && |plan.symbols| <= LIST_LIMIT
    && (forall s :: s in plan.symbols ==> ValidSymbol(h, s))
    && |plan.paths| + |plan.symbols| + |plan.ruleTags| > 0
    && SortedUnique(Pairs(plan.symbols))
  }

  predicate ValidDecision(h: TouchHygiene, d: Decision) {
    && h.identifier(d.decisionId) && h.identifier(d.projectId) && h.identifier(d.featureId)
    && h.hash(d.touchPlanHash) && h.recordId(d.recordId)
    && StringList(h.text, d.selectorIds) && d.selectorIds != []
    && h.identifier(d.actorId) && h.details(d.details)
  }

  /** Everything but the decisions. */
  predicate ValidContext(h: TouchHygiene, request: Request) {
    && ValidPlan(h, request.plan) && h.hash(request.planHash) && h.identifier(request.actorId)
    && forall i :: 0 <= i < |request.aggregates| ==> h.aggregate(request.aggregates[i])
  }

  predicate ValidInput(h: TouchHygiene, request: Request) {
    ValidContext(h, request) && forall i :: 0 <= i < |request.decisions| ==> ValidDecision(h, request.decisions[i])
  }

  method CollectPairs(h: TouchHygiene, symbols: seq<PlannedSymbol>) returns (valid: bool, pairs: seq<string>)
    ensures valid <==> forall s :: s in symbols ==> ValidSymbol(h, s)
    ensures valid ==> pairs == Pairs(symbols)
  {
    pairs := [];
    var i := 0;
    while i < |symbols|
      invariant 0 <= i <= |symbols|
      invariant forall s :: s in symbols[..i] ==> ValidSymbol(h, s)
      invariant pairs == Pairs(symbols[..i])
    {
      var symbol := symbols[i];
      if !ValidSymbol(h, symbol) {
        assert symbol in symbols;
        return false, pairs;
      }
      assert symbols[..i + 1][..i] == symbols[..i] && symbols[..i + 1] == symbols[..i] + [symbol];
      pairs := pairs + [Pair(symbol)];
      i := i + 1;
    }
    assert symbols[..i] == symbols;
    return true, pairs;
  }

  method ValidTouchPlan(h: TouchHygiene, plan: Plan) returns (valid: bool)
    ensures valid <==> ValidPlan(h, plan)
  {
    if !h.identifier(plan.projectId) || !h.identifier(plan.featureId)
      || !StringList(h.path, plan.paths) || !StringList(h.text, plan.ruleTags) || |plan.symbols| > LIST_LIMIT {
      return false;
    }
    var symbolsValid, pairs := CollectPairs(h, plan.symbols);
    return symbolsValid && |plan.paths| + |plan.symbols| + |plan.ruleTags| > 0 && SortedUnique(pairs);
  }

  method ValidRequest(h: TouchHygiene, request: Request) returns (valid: bool)
    ensures valid <==> ValidInput(h, request)
  {
    var plan := ValidTouchPlan(h, request.plan);
    return plan && h.hash(request.planHash) && h.identifier(request.actorId)
      && (forall i :: 0 <= i < |request.aggregates| ==> h.aggregate(request.aggregates[i]))
      && forall i :: 0 <= i < |request.decisions| ==> ValidDecision(h, request.decisions[i]);
  }

  // ---------------------------------------------------------------------------
  // Sorted lists
  // ---------------------------------------------------------------------------

  lemma {:induction false} SortedWhenAdjacent(values: seq<string>)
    requires StrictlySorted(values)
    ensures SortedUnique(values)
    decreases |values|
  {
    if |values| > 1 {
      SortedWhenAdjacent(values[..|values| - 1]);
    }
  }

  /** A decision for these selectors fits the limits a decision's list is held to. */
  predicate Carriable(h: TouchHygiene, selectorIds: seq<string>) {
    |selectorIds| <= LIST_LIMIT && forall s :: s in selectorIds ==> h.text(s)
  }

  /** The selector list of a record is always sorted, so only its length and its texts can be refused. */
  lemma {:induction false} SelectorsCarriable(h: TouchHygiene, record: Aggregate, plan: Plan)
    ensures StringList(h.text, Selectors(record, plan)) <==> Carriable(h, Selectors(record, plan))
  {
    SortedSetSorted(LocationsSelectors(record.locations, plan) + TriggerSelectors(record.trigger, plan));
    SortedWhenAdjacent(Selectors(record, plan));
  }

  // ---------------------------------------------------------------------------
  // A record that no list of decisions can cover
  // ---------------------------------------------------------------------------

  function PathSelector(location: Location): string {
    "location:" + location.locationId + ":path"
  }

  lemma {:induction false} PathSelectorsDiffer(a: Location, b: Location)
    requires a.locationId != b.locationId
    ensures PathSelector(a) != PathSelector(b)
  {
    var x, y := PathSelector(a), PathSelector(b);
    assert x[9..|x| - 5] == a.locationId;
    assert y[9..|y| - 5] == b.locationId;
  }

  /** Every location has its own id and lies on a planned path. */
  ghost predicate AllOnPlan(locations: seq<Location>, plan: Plan) {
    && (forall i, j :: 0 <= i < j < |locations| ==> locations[i].locationId != locations[j].locationId)
    && forall i :: 0 <= i < |locations| ==> TouchesPath(plan, locations[i].relativePath)
  }

  function PathSelectors(locations: seq<Location>): (r: seq<string>)
    ensures |r| == |locations| && forall i :: 0 <= i < |locations| ==> r[i] == PathSelector(locations[i])
  {
    seq(|locations|, i requires 0 <= i < |locations| => PathSelector(locations[i]))
  }

  ghost predicate AllDifferent(xs: seq<string>) {
    forall i, j :: 0 <= i < j < |xs| ==> xs[i] != xs[j]
  }

  lemma {:induction false} DifferentFit(xs: seq<string>, ys: seq<string>)
    requires AllDifferent(xs) && forall x :: x in xs ==> x in ys
    ensures |xs| <= |ys|
    decreases |xs|
  {
    if xs != [] {
      var last := xs[|xs| - 1];
      assert last in xs;
      var k :| 0 <= k < |ys| && ys[k] == last;
      var rest := ys[..k] + ys[k + 1..];
      forall x | x in xs[..|xs| - 1] ensures x in rest {
        assert x in xs;
        var j :| 0 <= j < |ys| && ys[j] == x;
        if j < k {
          assert rest[j] == x;
        } else {
          assert rest[j - 1] == x;
        }
      }
      DifferentFit(xs[..|xs| - 1], rest);
    }
  }

  lemma {:induction false} PathSelectorSelected(record: Aggregate, plan: Plan, i: nat)
    requires i < |record.locations| && TouchesPath(plan, record.locations[i].relativePath)
    ensures PathSelector(record.locations[i]) in Selectors(record, plan)
  {
    var s := PathSelector(record.locations[i]);
    assert s in LocationSelectors(record.locations[i], plan);
    LocationsSelectorsMember(record.locations, plan, s);
    SortedSetMember(LocationsSelectors(record.locations, plan) + TriggerSelectors(record.trigger, plan), s);
  }

  lemma {:induction false} TriggerSelectorSelected(record: Aggregate, plan: Plan, path: string)
    requires record.trigger.paths == [path] && TouchesPath(plan, path)
    ensures "trigger:" + record.trigger.triggerId + ":path:" + path in Selectors(record, plan)
  {
    var prefix := "trigger:" + record.trigger.triggerId + ":path:";
    assert [path][..0] == [];
    assert Tagged(prefix, [path], p => TouchesPath(plan, p)) == [prefix + path];
    SortedSetMember(LocationsSelectors(record.locations, plan) + TriggerSelectors(record.trigger, plan), prefix + path);
  }

  /**
   * A record with as many locations as are allowed, all on planned paths, and a trigger path on the
   * plan: it has one selector more than any decision can name.
   */
  lemma {:induction false} CrowdedRecord(h: TouchHygiene, record: Aggregate, plan: Plan, path: string)
    requires |record.locations| == LIST_LIMIT && AllOnPlan(record.locations, plan)
    requires record.trigger.paths == [path] && TouchesPath(plan, path)
    ensures !Carriable(h, Selectors(record, plan))
  {
    var last := "trigger:" + record.trigger.triggerId + ":path:" + path;
    var xs := PathSelectors(record.locations) + [last];
    forall i, j | 0 <= i < j < |xs| ensures xs[i] != xs[j] {
      if j < LIST_LIMIT {
        PathSelectorsDiffer(record.locations[i], record.locations[j]);
      } else {
        assert xs[i][0] == 'l' && last[0] == 't';
      }
    }
    forall x | x in xs ensures x in Selectors(record, plan) {
      var i :| 0 <= i < |xs| && xs[i] == x;
      if i < LIST_LIMIT {
        PathSelectorSelected(record, plan, i);
      } else {
        TriggerSelectorSelected(record, plan, path);
      }
    }
    DifferentFit(xs, Selectors(record, plan));
  }
}
