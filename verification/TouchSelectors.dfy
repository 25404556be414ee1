/** Which parts of a debt record a touch plan touches. */
module TouchSelectors {
  import opened DebtPolicy
  import opened Text
  import opened Utf16

  datatype PlannedSymbol = PlannedSymbol(relativePath: string, symbol: string)

  datatype Plan = Plan(projectId: string, featureId: string, paths: seq<string>, symbols: seq<PlannedSymbol>, ruleTags: seq<string>)

  // ---------------------------------------------------------------------------
  // Overlapping paths
  // ---------------------------------------------------------------------------

  predicate StartsWith(s: string, prefix: string) {
    prefix <= s
  }

  predicate PathsOverlap(left: string, right: string) {
    left == right || StartsWith(left, right + "/") || StartsWith(right, left + "/")
  }

  lemma {:induction false} BelowIff(left: string, right: string)
    ensures StartsWith(right, left + "/") <==> Split(left, '/') < Split(right, '/')
  {
    var a, b := Split(left, '/'), Split(right, '/');
    if StartsWith(right, left + "/") {
      var rest := right[|left| + 1..];
      assert right == left + ['/'] + rest;
      SplitAppend(left, '/', rest);
    }
    if a < b {
      var more := b[|a|..];
      assert b == a + more;
      JoinAppend(a, more, '/');
      JoinSplit(left, '/');
      JoinSplit(right, '/');
      assert right == left + ['/'] + Join(more, '/');
    }
  }

  /** Two paths overlap exactly when the segments of one begin with the segments of the other. */
  lemma {:induction false} OverlapIff(left: string, right: string)
    ensures PathsOverlap(left, right) <==> Split(left, '/') <= Split(right, '/') || Split(right, '/') <= Split(left, '/')
  {
    BelowIff(left, right);
    BelowIff(right, left);
    JoinSplit(left, '/');
    JoinSplit(right, '/');
    var a, b := Split(left, '/'), Split(right, '/');
    assert a <= b ==> a == b || a < b;
    assert b <= a ==> a == b || b < a;
  }

  // ---------------------------------------------------------------------------
  // Selectors, as the loops collect them
  // ---------------------------------------------------------------------------

  predicate TouchesPath(plan: Plan, path: string) {
    exists i :: 0 <= i < |plan.paths| && PathsOverlap(path, plan.paths[i])
  }

  predicate TouchesSymbolAt(plan: Plan, path: string, symbol: string) {
    exists i :: 0 <= i < |plan.symbols| && plan.symbols[i].symbol == symbol && PathsOverlap(path, plan.symbols[i].relativePath)
  }

  predicate TouchesSymbol(plan: Plan, symbol: string) {
    exists i :: 0 <= i < |plan.symbols| && plan.symbols[i].symbol == symbol
  }

  /** prefix + value for the values that qualify, in order. */
  function Tagged(prefix: string, values: seq<string>, qualifies: string -> bool): seq<string>
    decreases |values|
  {
    if values == [] then []
    else
      var last := values[|values| - 1];
      var before := Tagged(prefix, values[..|values| - 1], qualifies);
      if qualifies(last) then before + [prefix + last] else before
  }

  function LocationSelectors(location: Location, plan: Plan): seq<string> {
    var name := "location:" + location.locationId;
    (if TouchesPath(plan, location.relativePath) then [name + ":path"] else [])
    + (if location.symbol.Some? && TouchesSymbolAt(plan, location.relativePath, location.symbol.value)
       then [name + ":symbol"] else [])
    + Tagged(name + ":rule:", location.ruleTags, tag => tag in plan.ruleTags)
  }

  function LocationsSelectors(locations: seq<Location>, plan: Plan): seq<string>
    decreases |locations|
  {
    if locations == [] then []
    else LocationsSelectors(locations[..|locations| - 1], plan) + LocationSelectors(locations[|locations| - 1], plan)
  }

  function TriggerSelectors(trigger: Trigger, plan: Plan): seq<string> {
    var name := "trigger:" + trigger.triggerId;
    Tagged(name + ":path:", trigger.paths, path => TouchesPath(plan, path))
    + Tagged(name + ":symbol:", trigger.symbols, symbol => TouchesSymbol(plan, symbol))
    + Tagged(name + ":rule:", trigger.ruleTags, tag => tag in plan.ruleTags)
  }

  /** The selectors of one record under a plan, sorted and without repetition. */
  function Selectors(record: Aggregate, plan: Plan): seq<string> {
    SortedSet(LocationsSelectors(record.locations, plan) + TriggerSelectors(record.trigger, plan))
  }

  method AddTagged(matches: seq<string>, prefix: string, values: seq<string>, qualifies: string -> bool)
    returns (r: seq<string>)
    ensures r == matches + Tagged(prefix, values, qualifies)
  {
    r := matches;
    var i := 0;
    while i < |values|
      invariant 0 <= i <= |values|
      invariant r == matches + Tagged(prefix, values[..i], qualifies)
    {
      assert values[..i + 1][..i] == values[..i];
      if qualifies(values[i]) {
        r := r + [prefix + values[i]];
      }
      i := i + 1;
    }
    assert values[..i] == values;
  }

  method AddLocation(matches: seq<string>, location: Location, plan: Plan) returns (r: seq<string>)
    ensures r == matches + LocationSelectors(location, plan)
  {
    r := matches;
    var name := "location:" + location.locationId;
    if TouchesPath(plan, location.relativePath) {
      r := r + [name + ":path"];
    }
    if location.symbol.Some? && TouchesSymbolAt(plan, location.relativePath, location.symbol.value) {
      r := r + [name + ":symbol"];
    }
    r := AddTagged(r, name + ":rule:", location.ruleTags, tag => tag in plan.ruleTags);
  }

  method AddTrigger(matches: seq<string>, trigger: Trigger, plan: Plan) returns (r: seq<string>)
    ensures r == matches + TriggerSelectors(trigger, plan)
  {
    var name := "trigger:" + trigger.triggerId;
    r := AddTagged(matches, name + ":path:", trigger.paths, path => TouchesPath(plan, path));
    r := AddTagged(r, name + ":symbol:", trigger.symbols, symbol => TouchesSymbol(plan, symbol));
    r := AddTagged(r, name + ":rule:", trigger.ruleTags, tag => tag in plan.ruleTags);
  }

  method SelectorsFor(record: Aggregate, plan: Plan) returns (ids: seq<string>)
    ensures ids == Selectors(record, plan)
  {
    var matches: seq<string> := [];
    var i := 0;
    while i < |record.locations|
      invariant 0 <= i <= |record.locations|
      invariant matches == LocationsSelectors(record.locations[..i], plan)
    {
      assert record.locations[..i + 1][..i] == record.locations[..i];
      matches := AddLocation(matches, record.locations[i], plan);
      i := i + 1;
    }
    assert record.locations[..i] == record.locations;
    matches := AddTrigger(matches, record.trigger, plan);
    ids := SortedSet(matches);
  }

  // ---------------------------------------------------------------------------
  // What the selectors say
  // ---------------------------------------------------------------------------

  ghost predicate LocationTouched(location: Location, plan: Plan) {
    || TouchesPath(plan, location.relativePath)
    || (location.symbol.Some? && TouchesSymbolAt(plan, location.relativePath, location.symbol.value))
    || exists i :: 0 <= i < |location.ruleTags| && location.ruleTags[i] in plan.ruleTags
  }

  ghost predicate TriggerTouched(trigger: Trigger, plan: Plan) {
    || (exists i :: 0 <= i < |trigger.paths| && TouchesPath(plan, trigger.paths[i]))
    || (exists i :: 0 <= i < |trigger.symbols| && TouchesSymbol(plan, trigger.symbols[i]))
    || (exists i :: 0 <= i < |trigger.ruleTags| && trigger.ruleTags[i] in plan.ruleTags)
  }

  lemma {:induction false} TaggedEmptyIff(prefix: string, values: seq<string>, qualifies: string -> bool)
    ensures Tagged(prefix, values, qualifies) != [] <==> exists i :: 0 <= i < |values| && qualifies(values[i])
    decreases |values|
  {
    if values != [] {
      TaggedEmptyIff(prefix, values[..|values| - 1], qualifies);
    }
  }

  lemma {:induction false} LocationEmptyIff(location: Location, plan: Plan)
    ensures LocationSelectors(location, plan) != [] <==> LocationTouched(location, plan)
  {
    TaggedEmptyIff("location:" + location.locationId + ":rule:", location.ruleTags, tag => tag in plan.ruleTags);
  }

  lemma {:induction false} LocationsEmptyIff(locations: seq<Location>, plan: Plan)
    ensures LocationsSelectors(locations, plan) != [] <==> exists i :: 0 <= i < |locations| && LocationTouched(locations[i], plan)
    decreases |locations|
  {
    if locations != [] {
      LocationsEmptyIff(locations[..|locations| - 1], plan);
      LocationEmptyIff(locations[|locations| - 1], plan);
    }
  }

  lemma {:induction false} TriggerEmptyIff(trigger: Trigger, plan: Plan)
    ensures TriggerSelectors(trigger, plan) != [] <==> TriggerTouched(trigger, plan)
  {
    var name := "trigger:" + trigger.triggerId;
    TaggedEmptyIff(name + ":path:", trigger.paths, path => TouchesPath(plan, path));
    TaggedEmptyIff(name + ":symbol:", trigger.symbols, symbol => TouchesSymbol(plan, symbol));
    TaggedEmptyIff(name + ":rule:", trigger.ruleTags, tag => tag in plan.ruleTags);
  }

  /** A record needs a decision exactly when the plan touches one of its locations or its trigger. */
  lemma {:induction false} SelectedIff(record: Aggregate, plan: Plan)
    ensures Selectors(record, plan) != [] <==>
      || (exists i :: 0 <= i < |record.locations| && LocationTouched(record.locations[i], plan))
      || TriggerTouched(record.trigger, plan)
  {
    var matches := LocationsSelectors(record.locations, plan) + TriggerSelectors(record.trigger, plan);
    LocationsEmptyIff(record.locations, plan);
    TriggerEmptyIff(record.trigger, plan);
    if matches != [] {
      SortedSetMember(matches, matches[0]);
    }
    if Selectors(record, plan) != [] {
      SortedSetMember(matches, Selectors(record, plan)[0]);
    }
  }

  lemma {:induction false} LocationsSelectorsMember(locations: seq<Location>, plan: Plan, s: string)
    ensures s in LocationsSelectors(locations, plan)
       <==> exists i :: 0 <= i < |locations| && s in LocationSelectors(locations[i], plan)
    decreases |locations|
  {
    if locations != [] {
      var init, last := locations[..|locations| - 1], locations[|locations| - 1];
      LocationsSelectorsMember(init, plan, s);
      assert locations == init + [last];
      assert s in LocationsSelectors(locations, plan)
        <==> s in LocationsSelectors(init, plan) || s in LocationSelectors(last, plan);
    }
  }

  /** The list does not depend on the order in which locations are kept. */
  lemma {:induction false} LocationOrderIgnored(a: Aggregate, b: Aggregate, plan: Plan)
    requires a.trigger == b.trigger && multiset(a.locations) == multiset(b.locations)
    ensures Selectors(a, plan) == Selectors(b, plan)
  {
    var ma := LocationsSelectors(a.locations, plan) + TriggerSelectors(a.trigger, plan);
    var mb := LocationsSelectors(b.locations, plan) + TriggerSelectors(b.trigger, plan);
    forall s ensures s in ma <==> s in mb {
      LocationsSelectorsMember(a.locations, plan, s);
      LocationsSelectorsMember(b.locations, plan, s);
      assert forall i :: 0 <= i < |a.locations| ==> a.locations[i] in multiset(b.locations);
      assert forall i :: 0 <= i < |b.locations| ==> b.locations[i] in multiset(a.locations);
      assert forall i :: 0 <= i < |a.locations| ==> a.locations[i] in b.locations;
      assert forall i :: 0 <= i < |b.locations| ==> b.locations[i] in a.locations;
    }
    SortedSetAgrees(ma, mb);
  }
}
