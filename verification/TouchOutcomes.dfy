/** The answers of the future-touch gate, condition by condition, and what its selectors are. */
module TouchOutcomes {
  import opened DebtPolicy
  import opened TextOrder
  import opened Utf16
  import opened TouchSelectors
  import opened TouchInput
  import opened Filtering
  import opened FutureTouch
  import Text

  // ---------------------------------------------------------------------------
  // Selectors
  // ---------------------------------------------------------------------------

  /** The segments of one path begin with the segments of the other. */
  predicate Overlap(a: string, b: string) {
    Text.Split(a, '/') <= Text.Split(b, '/') || Text.Split(b, '/') <= Text.Split(a, '/')
  }

  ghost predicate OnPlannedPath(plan: Plan, path: string) {
    exists p :: p in plan.paths && Overlap(path, p)
  }

  /** What names a location: its own path, its symbol where the plan has it on an overlapping path, and its planned tags. */
  ghost predicate NamesLocation(s: string, location: Location, plan: Plan) {
    || (s == "location:" + location.locationId + ":path" && OnPlannedPath(plan, location.relativePath))
    || (s == "location:" + location.locationId + ":symbol" && location.symbol.Some?
        && exists p :: p in plan.symbols && p.symbol == location.symbol.value && Overlap(location.relativePath, p.relativePath))
    || exists tag :: tag in location.ruleTags && tag in plan.ruleTags && s == "location:" + location.locationId + ":rule:" + tag
  }

  /** What names the trigger: its paths that overlap a planned one, its planned symbols, and its planned tags. */
  ghost predicate NamesTrigger(s: string, trigger: Trigger, plan: Plan) {
    || (exists path :: path in trigger.paths && OnPlannedPath(plan, path) && s == "trigger:" + trigger.triggerId + ":path:" + path)
    || (exists p :: p in plan.symbols && p.symbol in trigger.symbols && s == "trigger:" + trigger.triggerId + ":symbol:" + p.symbol)
    || exists tag :: tag in trigger.ruleTags && tag in plan.ruleTags && s == "trigger:" + trigger.triggerId + ":rule:" + tag
  }

  lemma {:induction false} TouchesPathIff(plan: Plan, path: string)
    ensures TouchesPath(plan, path) <==> OnPlannedPath(plan, path)
  {
    forall i | 0 <= i < |plan.paths| ensures PathsOverlap(path, plan.paths[i]) <==> Overlap(path, plan.paths[i]) {
      OverlapIff(path, plan.paths[i]);
    }
  }

  lemma {:induction false} TouchesSymbolAtIff(plan: Plan, path: string, symbol: string)
    ensures TouchesSymbolAt(plan, path, symbol) <==>
      exists p :: p in plan.symbols && p.symbol == symbol && Overlap(path, p.relativePath)
  {
    forall i | 0 <= i < |plan.symbols| ensures PathsOverlap(path, plan.symbols[i].relativePath) <==> Overlap(path, plan.symbols[i].relativePath) {
      OverlapIff(path, plan.symbols[i].relativePath);
    }
  }

  lemma {:induction false} TaggedMember(prefix: string, values: seq<string>, qualifies: string -> bool, s: string)
    ensures s in Tagged(prefix, values, qualifies) <==> exists v :: v in values && qualifies(v) && s == prefix + v
    decreases |values|
  {
    if values != [] {
      var last, rest := values[|values| - 1], values[..|values| - 1];
      assert values == rest + [last];
      TaggedMember(prefix, rest, qualifies, s);
    }
  }

  lemma {:induction false} LocationSelectorIff(location: Location, plan: Plan, s: string)
    ensures s in LocationSelectors(location, plan) <==> NamesLocation(s, location, plan)
  {
    var name := "location:" + location.locationId;
    TouchesPathIff(plan, location.relativePath);
    if location.symbol.Some? {
      TouchesSymbolAtIff(plan, location.relativePath, location.symbol.value);
    }
    TaggedMember(name + ":rule:", location.ruleTags, tag => tag in plan.ruleTags, s);
  }

  lemma {:induction false} TriggerSelectorIff(trigger: Trigger, plan: Plan, s: string)
    ensures s in TriggerSelectors(trigger, plan) <==> NamesTrigger(s, trigger, plan)
  {
    var name := "trigger:" + trigger.triggerId;
    TaggedMember(name + ":path:", trigger.paths, path => TouchesPath(plan, path), s);
    TaggedMember(name + ":symbol:", trigger.symbols, symbol => TouchesSymbol(plan, symbol), s);
    TaggedMember(name + ":rule:", trigger.ruleTags, tag => tag in plan.ruleTags, s);
    forall path ensures TouchesPath(plan, path) <==> OnPlannedPath(plan, path) {
      TouchesPathIff(plan, path);
    }
  }

  ghost predicate Precedes(a: string, b: string) {
    exists k: nat :: DiffersAt(Units(a), Units(b), k)
  }

  ghost predicate StrictlyIncreasing(values: seq<string>) {
    forall i, j {:trigger Precedes(values[i], values[j])} :: 0 <= i < j < |values| ==> Precedes(values[i], values[j])
  }

  lemma {:induction false} SelectorsIncrease(record: Aggregate, plan: Plan)
    ensures StrictlyIncreasing(Selectors(record, plan))
  {
    var ids := Selectors(record, plan);
    SortedSetSorted(LocationsSelectors(record.locations, plan) + TriggerSelectors(record.trigger, plan));
    forall i, j | 0 <= i < j < |ids| ensures Precedes(ids[i], ids[j]) {
      LessIff(Units(ids[i]), Units(ids[j]));
    }
  }

  lemma {:induction false} SomeLocationNamedIff(record: Aggregate, plan: Plan, s: string)
    ensures s in LocationsSelectors(record.locations, plan) <==>
      exists location :: location in record.locations && NamesLocation(s, location, plan)
  {
    LocationsSelectorsMember(record.locations, plan, s);
    forall location ensures s in LocationSelectors(location, plan) <==> NamesLocation(s, location, plan) {
      LocationSelectorIff(location, plan, s);
    }
  }

  /** The selectors of a record are exactly the names of what the plan touches in it, strictly increasing by code unit. */
  lemma {:induction false} SelectorIff(record: Aggregate, plan: Plan, s: string)
    ensures s in Selectors(record, plan) <==>
      (exists location :: location in record.locations && NamesLocation(s, location, plan)) || NamesTrigger(s, record.trigger, plan)
    ensures StrictlyIncreasing(Selectors(record, plan))
  {
    SortedSetMember(LocationsSelectors(record.locations, plan) + TriggerSelectors(record.trigger, plan), s);
    SomeLocationNamedIff(record, plan, s);
    TriggerSelectorIff(record.trigger, plan, s);
    SelectorsIncrease(record, plan);
  }

  // ---------------------------------------------------------------------------
  // Valid input
  // ---------------------------------------------------------------------------

  ghost predicate CleanList(clean: string -> bool, values: seq<string>) {
    |values| <= 128 && (forall v :: v in values ==> clean(v)) && StrictlyIncreasing(values)
  }

  /** A planned symbol as it is compared: its path, a null character and its name. */
  function Written(symbol: PlannedSymbol): string {
    symbol.relativePath + ['\U{0}'] + symbol.symbol
  }

  ghost predicate SymbolsIncrease(symbols: seq<PlannedSymbol>) {
    forall i, j {:trigger Written(symbols[i]), Written(symbols[j])} :: 0 <= i < j < |symbols| ==>
      Precedes(Written(symbols[i]), Written(symbols[j]))
  }

  ghost predicate CleanPlan(h: TouchHygiene, plan: Plan) {
    && h.identifier(plan.projectId) && h.identifier(plan.featureId)
    && CleanList(h.path, plan.paths) && CleanList(h.text, plan.ruleTags)
    && |plan.symbols| <= 128
    && (forall s :: s in plan.symbols ==> h.path(s.relativePath) && h.identifier(s.symbol))
    && SymbolsIncrease(plan.symbols)
    && |plan.paths| + |plan.symbols| + |plan.ruleTags| > 0
  }

  ghost predicate CleanDecision(h: TouchHygiene, d: Decision) {
    && h.identifier(d.decisionId) && h.identifier(d.projectId) && h.identifier(d.featureId) && h.identifier(d.actorId)
    && h.hash(d.touchPlanHash) && h.recordId(d.recordId) && h.details(d.details)
    && CleanList(h.text, d.selectorIds) && d.selectorIds != []
  }

  ghost predicate CleanInput(h: TouchHygiene, request: Request) {
    && CleanPlan(h, request.plan) && h.hash(request.planHash) && h.identifier(request.actorId)
    && (forall a :: a in request.aggregates ==> h.aggregate(a))
    && forall d :: d in request.decisions ==> CleanDecision(h, d)
  }

  lemma {:induction false} SortedFromAdjacent(values: seq<string>)
    requires SortedUnique(values)
    ensures StrictlySorted(values)
    decreases |values|
  {
    if |values| > 1 {
      var n := |values| - 1;
      var before := values[..n];
      SortedFromAdjacent(before);
      forall i | 0 <= i < n ensures Less(Units(values[i]), Units(values[n])) {
        if i < n - 1 {
          assert Less(Units(before[i]), Units(before[n - 1]));
          LessTransitive(Units(values[i]), Units(values[n - 1]), Units(values[n]));
        }
      }
    }
  }

  lemma {:induction false} SortedUniqueIff(values: seq<string>)
    ensures SortedUnique(values) <==> StrictlyIncreasing(values)
  {
    forall i, j | 0 <= i < j < |values| ensures Less(Units(values[i]), Units(values[j])) <==> Precedes(values[i], values[j]) {
      LessIff(Units(values[i]), Units(values[j]));
    }
    if SortedUnique(values) {
      SortedFromAdjacent(values);
    }
    if StrictlyIncreasing(values) {
      assert StrictlySorted(values);
      SortedWhenAdjacent(values);
    }
  }

  lemma {:induction false} PairsAt(symbols: seq<PlannedSymbol>, i: nat)
    requires i < |symbols|
    ensures Pairs(symbols)[i] == Written(symbols[i])
    decreases |symbols|
  {
    if i < |symbols| - 1 {
      PairsAt(symbols[..|symbols| - 1], i);
    }
  }

  lemma {:induction false} PairsIncreaseIff(symbols: seq<PlannedSymbol>)
    ensures SortedUnique(Pairs(symbols)) <==> SymbolsIncrease(symbols)
  {
    SortedUniqueIff(Pairs(symbols));
    forall i | 0 <= i < |symbols| ensures Pairs(symbols)[i] == Written(symbols[i]) {
      PairsAt(symbols, i);
    }
  }

  lemma {:induction false} CleanListIff(clean: string -> bool, values: seq<string>)
    ensures StringList(clean, values) <==> CleanList(clean, values)
  {
    SortedUniqueIff(values);
  }

  lemma {:induction false} SymbolsCleanIff(h: TouchHygiene, plan: Plan)
    ensures (forall s :: s in plan.symbols ==> ValidSymbol(h, s)) <==>
      forall s :: s in plan.symbols ==> h.path(s.relativePath) && h.identifier(s.symbol)
  {
    if forall s :: s in plan.symbols ==> h.path(s.relativePath) && h.identifier(s.symbol) {
      forall s | s in plan.symbols ensures ValidSymbol(h, s) {
      }
    }
    if forall s :: s in plan.symbols ==> ValidSymbol(h, s) {
      forall s | s in plan.symbols ensures h.path(s.relativePath) && h.identifier(s.symbol) {
        assert ValidSymbol(h, s);
      }
    }
  }

  lemma {:induction false} ValidIsClean(h: TouchHygiene, plan: Plan)
    requires ValidPlan(h, plan)
    ensures CleanPlan(h, plan)
  {
    CleanListIff(h.path, plan.paths);
    CleanListIff(h.text, plan.ruleTags);
    PairsIncreaseIff(plan.symbols);
    SymbolsCleanIff(h, plan);
  }

  lemma {:induction false} CleanIsValid(h: TouchHygiene, plan: Plan)
    requires CleanPlan(h, plan)
    ensures ValidPlan(h, plan)
  {
    CleanListIff(h.path, plan.paths);
    CleanListIff(h.text, plan.ruleTags);
    PairsIncreaseIff(plan.symbols);
    SymbolsCleanIff(h, plan);
  }

  lemma {:induction false} CleanPlanIff(h: TouchHygiene, plan: Plan)
    ensures ValidPlan(h, plan) <==> CleanPlan(h, plan)
  {
    if ValidPlan(h, plan) {
      ValidIsClean(h, plan);
    }
    if CleanPlan(h, plan) {
      CleanIsValid(h, plan);
    }
  }

  lemma {:induction false} CleanInputIff(h: TouchHygiene, request: Request)
    ensures ValidInput(h, request) <==> CleanInput(h, request)
  {
    CleanPlanIff(h, request.plan);
    forall d: Decision ensures ValidDecision(h, d) <==> CleanDecision(h, d) {
      CleanListIff(h.text, d.selectorIds);
    }
  }

  // ---------------------------------------------------------------------------
  // The answers
  // ---------------------------------------------------------------------------

  /** The states a record is open in. */
  predicate StillOpen(a: Aggregate) {
    a.state.PendingTriage? || a.state.Confirmed? || a.state.Deferred? || a.state.AcceptedRisk? || a.state.Planned?
  }

  /** An open record of another project, or one of two open records with the same id. */
  ghost predicate SomeForeign(request: Request) {
    || (exists a :: a in request.aggregates && StillOpen(a) && a.projectId != request.plan.projectId)
    || exists i, j :: 0 <= i < j < |request.aggregates| && StillOpen(request.aggregates[i]) && StillOpen(request.aggregates[j])
         && request.aggregates[i].recordId == request.aggregates[j].recordId
  }

  ghost predicate BoundTo(request: Request, a: Aggregate, d: Decision) {
    && d.recordId == a.recordId && d.recordVersion == a.eventVersion
    && d.projectId == request.plan.projectId && d.featureId == request.plan.featureId && d.touchPlanHash == request.planHash
  }

  /** Decision k alone is bound to the record, and it is the actor's and names exactly the record's selectors. */
  ghost predicate DecidesAlone(request: Request, a: Aggregate, k: nat) {
    && k < |request.decisions| && BoundTo(request, a, request.decisions[k])
    && (forall j :: 0 <= j < |request.decisions| && j != k ==> !BoundTo(request, a, request.decisions[j]))
    && request.decisions[k].actorId == request.actorId
    && request.decisions[k].selectorIds == Selectors(a, request.plan)
  }

  /** An open record of the request in which the plan touches something. */
  ghost predicate TouchedOpen(request: Request, a: Aggregate) {
    a in request.aggregates && StillOpen(a) && Selectors(a, request.plan) != []
  }

  lemma {:induction false} DecidesAloneIff(request: Request, a: Aggregate, k: nat)
    ensures DecidedBy(request, a, k) <==> DecidesAlone(request, a, k)
  {
    assert forall d :: Binds(request, a, d) <==> BoundTo(request, a, d);
  }

  lemma {:induction false} OpenIff(request: Request, a: Aggregate)
    ensures a in OpenRecords(request) <==> a in request.aggregates && StillOpen(a)
  {
    FilterMember(request.aggregates, IsOpen, a);
  }

  lemma {:induction false} FilteredDistinctIff(records: seq<Aggregate>)
    ensures DistinctRecords(Filter(records, IsOpen)) <==>
      forall i, j :: 0 <= i < j < |records| && StillOpen(records[i]) && StillOpen(records[j]) ==> records[i].recordId != records[j].recordId
    decreases |records|
  {
    if records != [] {
      var last, rest := records[|records| - 1], records[..|records| - 1];
      var kept := Filter(rest, IsOpen);
      FilteredDistinctIff(rest);
      forall a ensures a in kept <==> a in rest && StillOpen(a) {
        FilterMember(rest, IsOpen, a);
      }
      if StillOpen(last) {
        assert Filter(records, IsOpen) == kept + [last];
        assert DistinctRecords(kept + [last]) <==> DistinctRecords(kept) && forall a :: a in kept ==> a.recordId != last.recordId by {
          DistinctSnoc(kept, last);
        }
      }
    }
  }

  lemma {:induction false} DistinctSnoc(kept: seq<Aggregate>, last: Aggregate)
    ensures DistinctRecords(kept + [last]) <==> DistinctRecords(kept) && forall a :: a in kept ==> a.recordId != last.recordId
  {
    var all := kept + [last];
    if DistinctRecords(all) {
      forall a | a in kept ensures a.recordId != last.recordId {
        var i :| 0 <= i < |kept| && kept[i] == a;
        assert all[i].recordId != all[|kept|].recordId;
      }
      forall i, j | 0 <= i < j < |kept| ensures kept[i].recordId != kept[j].recordId {
        assert all[i].recordId != all[j].recordId;
      }
    }
  }

  lemma {:induction false} ForeignIff(request: Request)
    ensures SomeForeign(request) <==>
      !(OneProject(OpenRecords(request), request.plan.projectId) && DistinctRecords(OpenRecords(request)))
  {
    FilteredDistinctIff(request.aggregates);
    forall a ensures a in OpenRecords(request) <==> a in request.aggregates && StillOpen(a) {
      OpenIff(request, a);
    }
    assert OneProject(OpenRecords(request), request.plan.projectId) <==>
      forall a :: a in OpenRecords(request) ==> a.projectId == request.plan.projectId;
  }

  /** The record's decision was made, alone. */
  ghost predicate HasDecision(request: Request, a: Aggregate) {
    exists k: nat :: DecidesAlone(request, a, k)
  }

  lemma {:induction false} SettledAloneIff(request: Request, a: Aggregate)
    ensures Settled(request, a) <==> (Selectors(a, request.plan) != [] ==> HasDecision(request, a))
  {
    if k: nat :| DecidedBy(request, a, k) {
      DecidesAloneIff(request, a, k);
    }
    if k: nat :| DecidesAlone(request, a, k) {
      DecidesAloneIff(request, a, k);
    }
  }

  lemma {:induction false} AllSettledIff(request: Request)
    ensures (forall a :: a in OpenRecords(request) ==> Settled(request, a)) <==>
      forall a :: TouchedOpen(request, a) ==> HasDecision(request, a)
  {
    forall a ensures (a in OpenRecords(request) ==> Settled(request, a)) <==> (TouchedOpen(request, a) ==> HasDecision(request, a)) {
      OpenIff(request, a);
      SettledAloneIff(request, a);
    }
  }

  /**
   * Invalid input is refused first, then an open record that is foreign or given twice, then an open
   * touched record without its decision; and otherwise the plan is accepted.
   */
  lemma {:induction false} OutcomeIff(h: TouchHygiene, request: Request)
    ensures var outcome := FutureTouch.Evaluate(h, request);
      && (outcome == Refused(BadInput) <==> !CleanInput(h, request))
      && (outcome == Refused(ForeignRecord) <==> CleanInput(h, request) && SomeForeign(request))
      && (outcome == Refused(BadDecision) <==> (
            && CleanInput(h, request) && !SomeForeign(request)
            && exists a :: TouchedOpen(request, a) && !HasDecision(request, a)))
      && (outcome.Accepted? <==> (
            && CleanInput(h, request) && !SomeForeign(request)
            && forall a :: TouchedOpen(request, a) ==> HasDecision(request, a)))
  {
    CleanInputIff(h, request);
    ForeignIff(request);
    AcceptsIff(h, request);
    AllSettledIff(request);
  }

  /** An accepted plan is answered with one match for each touched open record: its id, version, selectors and decision. */
  lemma {:induction false} MatchIff(h: TouchHygiene, request: Request, m: Match)
    requires FutureTouch.Evaluate(h, request).Accepted?
    ensures m in FutureTouch.Evaluate(h, request).matches <==>
      exists a, k: nat :: TouchedOpen(request, a) && DecidesAlone(request, a, k)
        && m == Match(a.recordId, a.eventVersion, Selectors(a, request.plan), request.decisions[k])
  {
    MatchesExactly(h, request, m);
    forall a ensures a in OpenRecords(request) <==> a in request.aggregates && StillOpen(a) {
      OpenIff(request, a);
    }
    forall a | Selectors(a, request.plan) != []
      ensures Judge(request, a) == Decided(m) <==>
        exists k: nat :: DecidesAlone(request, a, k) && m == Match(a.recordId, a.eventVersion, Selectors(a, request.plan), request.decisions[k])
    {
      JudgeIff(request, a);
      forall k: nat ensures DecidedBy(request, a, k) <==> DecidesAlone(request, a, k) {
        DecidesAloneIff(request, a, k);
      }
    }
  }

  lemma {:induction false} SortedIncrease(records: seq<Aggregate>)
    requires DistinctRecords(records)
    ensures forall i, j :: 0 <= i < j < |records| ==> Precedes(Sorted(records)[i].recordId, Sorted(records)[j].recordId)
  {
    var pairs := SortByKey(FutureTouch.KeyedAll(records));
    DistinctIff(records);
    SortIncreasing(FutureTouch.KeyedAll(records));
    forall i, j | 0 <= i < j < |records| ensures Precedes(Sorted(records)[i].recordId, Sorted(records)[j].recordId) {
      SortedPairs(records, pairs[i]);
      SortedPairs(records, pairs[j]);
      assert pairs[i] in pairs && pairs[j] in pairs;
      LessIff(Units(pairs[i].1.recordId), Units(pairs[j].1.recordId));
    }
  }

  /** The matches are those of records, in the order of the records. */
  lemma {:induction false} CollectFollows(verdicts: seq<Verdict>, records: seq<Aggregate>, n: nat)
    requires |records| == |verdicts| && n <= |verdicts| && Collect(verdicts, n).Some?
    requires forall i :: 0 <= i < |verdicts| && verdicts[i].Decided? ==> verdicts[i].match_.recordId == records[i].recordId
    requires forall i, j :: 0 <= i < j < |records| ==> Precedes(records[i].recordId, records[j].recordId)
    ensures var matches := Collect(verdicts, n).value;
      && (forall m :: m in matches ==> exists i :: 0 <= i < n && records[i].recordId == m.recordId)
      && forall i, j :: 0 <= i < j < |matches| ==> Precedes(matches[i].recordId, matches[j].recordId)
    decreases n
  {
    if n > 0 {
      CollectFollows(verdicts, records, n - 1);
      var before := Collect(verdicts, n - 1).value;
      assert forall i :: 0 <= i < |before| ==> before[i] in before;
    }
  }

  lemma {:induction false} CollectedIncrease(judge: Aggregate -> Verdict, records: seq<Aggregate>)
    requires DistinctRecords(records)
    requires forall a :: judge(a).Decided? ==> judge(a).match_.recordId == a.recordId
    requires Collect(JudgeAll(judge, Sorted(records)), |records|).Some?
    ensures var matches := Collect(JudgeAll(judge, Sorted(records)), |records|).value;
      forall i, j :: 0 <= i < j < |matches| ==> Precedes(matches[i].recordId, matches[j].recordId)
  {
    SortedIncrease(records);
    CollectFollows(JudgeAll(judge, Sorted(records)), Sorted(records), |records|);
  }

  lemma {:induction false} JudgedByItself(request: Request, a: Aggregate)
    requires Judge(request, a).Decided?
    ensures Judge(request, a).match_.recordId == a.recordId
  {
  }

  /** The matches of an accepted plan come in the order of their record ids. */
  lemma {:induction false} MatchesIncrease(h: TouchHygiene, request: Request)
    requires FutureTouch.Evaluate(h, request).Accepted?
    ensures var matches := FutureTouch.Evaluate(h, request).matches;
      forall i, j :: 0 <= i < j < |matches| ==> Precedes(matches[i].recordId, matches[j].recordId)
  {
    forall a | Judge(request, a).Decided? ensures Judge(request, a).match_.recordId == a.recordId {
      JudgedByItself(request, a);
    }
    CollectedIncrease(a => Judge(request, a), OpenRecords(request));
  }
}
