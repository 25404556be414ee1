module FutureTouch {
  /** Whether the open debt a feature will touch has been decided, record by record. */

  import opened Wrappers
  import opened DebtPolicy
  import opened TextOrder
  import opened TouchSelectors
  import opened TouchInput
  import opened Filtering

  datatype Match = Match(recordId: string, recordVersion: nat, selectorIds: seq<string>, decision: Decision)

  datatype TouchRefusal = BadInput | ForeignRecord | BadDecision

  datatype Outcome = Accepted(matches: seq<Match>) | Refused(code: TouchRefusal)

  // ---------------------------------------------------------------------------
  // One record
  // ---------------------------------------------------------------------------

  /** The decision is about this record, at this version, under this plan. */
  predicate Binds(request: Request, record: Aggregate, d: Decision) {
    && d.projectId == request.plan.projectId && d.featureId == request.plan.featureId
    && d.touchPlanHash == request.planHash && d.recordId == record.recordId && d.recordVersion == record.eventVersion
  }

  datatype Verdict = Untouched | Undecided | Decided(match_: Match)

  function Judge(request: Request, record: Aggregate): Verdict {
    var ids := Selectors(record, request.plan);
    if ids == [] then Untouched
    else
      var bound := Filter(request.decisions, d => Binds(request, record, d));
      if |bound| != 1 || bound[0].actorId != request.actorId || bound[0].selectorIds != ids then Undecided
      else Decided(Match(record.recordId, record.eventVersion, ids, bound[0]))
  }

  /** Decision k alone is bound to the record, and it names the actor and exactly its selectors. */
  ghost predicate DecidedBy(request: Request, record: Aggregate, k: nat) {
    && OnlyAt(request.decisions, d => Binds(request, record, d), k)
    && request.decisions[k].actorId == request.actorId
    && request.decisions[k].selectorIds == Selectors(record, request.plan)
  }

  ghost function MatchWith(request: Request, record: Aggregate, k: nat): Match
    requires k < |request.decisions|
  {
    Match(record.recordId, record.eventVersion, Selectors(record, request.plan), request.decisions[k])
  }

  lemma {:induction false} JudgeIff(request: Request, record: Aggregate)
    requires Selectors(record, request.plan) != []
    ensures Judge(request, record).Decided? <==> exists k: nat :: DecidedBy(request, record, k)
    ensures forall k: nat :: DecidedBy(request, record, k) ==> Judge(request, record) == Decided(MatchWith(request, record, k))
  {
    var keep := d => Binds(request, record, d);
    FilterSingleIff(request.decisions, keep);
    if Judge(request, record).Decided? {
      var k: nat :| OnlyAt(request.decisions, keep, k);
      assert DecidedBy(request, record, k);
    }
  }

  // ---------------------------------------------------------------------------
  // All records
  // ---------------------------------------------------------------------------

  predicate IsOpen(a: Aggregate) {
    a.Open()
  }

  function OpenRecords(request: Request): seq<Aggregate> {
    Filter(request.aggregates, IsOpen)
  }

  function Keyed(a: Aggregate): (TextOrder.Text, Aggregate) {
    (Utf16.Units(a.recordId), a)
  }

  function KeyedAll(records: seq<Aggregate>): (r: seq<(TextOrder.Text, Aggregate)>)
    ensures |r| == |records| && forall i :: 0 <= i < |records| ==> r[i] == Keyed(records[i])
  {
    seq(|records|, i requires 0 <= i < |records| => Keyed(records[i]))
  }

  ghost predicate OneProject(records: seq<Aggregate>, projectId: string) {
    forall i :: 0 <= i < |records| ==> records[i].projectId == projectId
  }

  ghost predicate DistinctRecords(records: seq<Aggregate>) {
    forall i, j :: 0 <= i < j < |records| ==> records[i].recordId != records[j].recordId
  }

  function JudgeAll(judge: Aggregate -> Verdict, records: seq<Aggregate>): (r: seq<Verdict>)
    ensures |r| == |records| && forall i :: 0 <= i < |records| ==> r[i] == judge(records[i])
  {
    seq(|records|, i requires 0 <= i < |records| => judge(records[i]))
  }

  /** The matches among the first n verdicts, or None once one of them is Undecided. */
  function Collect(verdicts: seq<Verdict>, n: nat): Option<seq<Match>>
    requires n <= |verdicts|
    decreases n
  {
    if n == 0 then Some([])
    else
      var before := Collect(verdicts, n - 1);
      if before == None then None
      else
        match verdicts[n - 1]
        case Untouched => before
        case Undecided => None
        case Decided(m) => Some(before.value + [m])
  }

  /** The open records in record order. */
  function Sorted(records: seq<Aggregate>): (r: seq<Aggregate>)
    ensures |r| == |records|
  {
    var pairs := SortByKey(KeyedAll(records));
    seq(|pairs|, i requires 0 <= i < |pairs| => pairs[i].1)
  }

  ghost function Evaluate(h: TouchHygiene, request: Request): Outcome {
    var records := OpenRecords(request);
    if !ValidInput(h, request) then Refused(BadInput)
    else if !OneProject(records, request.plan.projectId) || !DistinctRecords(records) then Refused(ForeignRecord)
    else
      var verdicts := JudgeAll(a => Judge(request, a), Sorted(records));
      var matches := Collect(verdicts, |verdicts|);
      if matches == None then Refused(BadDecision) else Outcome.Accepted(matches.value)
  }

  method AnyForeign(records: seq<Aggregate>, projectId: string) returns (foreign: bool)
    ensures foreign <==> !OneProject(records, projectId) || !DistinctRecords(records)
  {
    var uniqueRecords: set<string> := {};
    var i := 0;
    while i < |records|
      invariant 0 <= i <= |records|
      invariant forall x :: x in uniqueRecords <==> exists j :: 0 <= j < i && records[j].recordId == x
      invariant OneProject(records[..i], projectId) && DistinctRecords(records[..i])
    {
      if records[i].projectId != projectId || records[i].recordId in uniqueRecords {
        return true;
      }
      uniqueRecords := uniqueRecords + {records[i].recordId};
      i := i + 1;
    }
    assert records[..i] == records;
    return false;
  }

  method JudgeRecord(request: Request, record: Aggregate) returns (verdict: Verdict)
    ensures verdict == Judge(request, record)
  {
    var selectorIds := SelectorsFor(record, request.plan);
    if selectorIds == [] {
      return Untouched;
    }
    var bound := Filter(request.decisions, d => Binds(request, record, d));
    if |bound| != 1 {
      return Undecided;
    }
    var decision := bound[0];
    if decision.actorId != request.actorId || decision.selectorIds != selectorIds {
      return Undecided;
    }
    return Decided(Match(record.recordId, record.eventVersion, selectorIds, decision));
  }

  lemma {:induction false} RefusedStays(verdicts: seq<Verdict>, n: nat, m: nat)
    requires n <= m <= |verdicts| && Collect(verdicts, n) == None
    ensures Collect(verdicts, m) == None
    decreases m
  {
    if n < m {
      RefusedStays(verdicts, n, m - 1);
    }
  }

  /** What one verdict does to the matches found so far. */
  method AddVerdict(ghost verdicts: seq<Verdict>, n: nat, found: seq<Match>, verdict: Verdict)
    returns (matches: Option<seq<Match>>)
    requires n < |verdicts| && Collect(verdicts, n) == Some(found) && verdict == verdicts[n]
    ensures matches == Collect(verdicts, n + 1)
  {
    match verdict
    case Untouched => return Some(found);
    case Undecided => return None;
    case Decided(m) => return Some(found + [m]);
  }

  /** The verdicts are those on the records. */
  ghost predicate Judged(request: Request, records: seq<Aggregate>, verdicts: seq<Verdict>) {
    && |verdicts| == |records|
    && forall i {:trigger Judge(request, records[i])} :: 0 <= i < |records| ==> verdicts[i] == Judge(request, records[i])
  }

  lemma {:induction false} AllJudged(request: Request, records: seq<Aggregate>)
    ensures Judged(request, records, JudgeAll(a => Judge(request, a), records))
  {
  }

  method JudgeNext(request: Request, records: seq<Aggregate>, i: nat, ghost verdicts: seq<Verdict>) returns (verdict: Verdict)
    requires i < |records| && Judged(request, records, verdicts)
    ensures verdict == verdicts[i]
  {
    verdict := JudgeRecord(request, records[i]);
  }

  /** The loop over the records in order; the first undecided one ends it. */
  method MatchRecords(request: Request, records: seq<Aggregate>, ghost verdicts: seq<Verdict>) returns (matches: Option<seq<Match>>)
    requires Judged(request, records, verdicts)
    ensures matches == Collect(verdicts, |verdicts|)
  {
    matches := Some([]);
    var i: nat := 0;
    while i < |records|
      invariant i <= |records| && matches.Some? && matches == Collect(verdicts, i)
    {
      var verdict := JudgeNext(request, records, i, verdicts);
      matches := AddVerdict(verdicts, i, matches.value, verdict);
      if matches == None {
        RefusedStays(verdicts, i + 1, |records|);
        return;
      }
      i := i + 1;
    }
  }

  method EvaluateFutureTouch(h: TouchHygiene, request: Request) returns (outcome: Outcome)
    ensures outcome == Evaluate(h, request)
  {
    var inputValid := ValidRequest(h, request);
    if !inputValid {
      return Refused(BadInput);
    }
    var records := OpenRecords(request);
    var foreign := AnyForeign(records, request.plan.projectId);
    if foreign {
      return Refused(ForeignRecord);
    }
    var sorted := Sorted(records);
    AllJudged(request, sorted);
    var matches := MatchRecords(request, sorted, JudgeAll(a => Judge(request, a), sorted));
    outcome := if matches == None then Refused(BadDecision) else Outcome.Accepted(matches.value);
  }

  // ---------------------------------------------------------------------------
  // When it accepts
  // ---------------------------------------------------------------------------

  lemma {:induction false} CollectSomeIff(verdicts: seq<Verdict>, n: nat)
    requires n <= |verdicts|
    ensures Collect(verdicts, n).Some? <==> forall i :: 0 <= i < n ==> verdicts[i] != Undecided
    decreases n
  {
    if n > 0 {
      CollectSomeIff(verdicts, n - 1);
    }
  }

  /** Whatever the plan touches in the record has been decided. */
  ghost predicate Settled(request: Request, record: Aggregate) {
    Selectors(record, request.plan) != [] ==> exists k: nat :: DecidedBy(request, record, k)
  }

  lemma {:induction false} SettledIff(request: Request, record: Aggregate)
    ensures Settled(request, record) <==> Judge(request, record) != Undecided
  {
    if Selectors(record, request.plan) != [] {
      JudgeIff(request, record);
    }
  }

  lemma {:induction false} SortedPairs(records: seq<Aggregate>, p: (TextOrder.Text, Aggregate))
    ensures p in SortByKey(KeyedAll(records)) <==> p.1 in records && p == Keyed(p.1)
  {
    var keyed := KeyedAll(records);
    SameElements(SortByKey(keyed), keyed, p);
    if p.1 in records && p == Keyed(p.1) {
      var i :| 0 <= i < |records| && records[i] == p.1;
      assert keyed[i] == p;
    }
  }

  lemma {:induction false} SortedMember(records: seq<Aggregate>, a: Aggregate)
    ensures a in Sorted(records) <==> a in records
  {
    var pairs := SortByKey(KeyedAll(records));
    if a in Sorted(records) {
      var i :| 0 <= i < |pairs| && pairs[i].1 == a;
      SortedPairs(records, pairs[i]);
    }
    if a in records {
      SortedPairs(records, Keyed(a));
      var i :| 0 <= i < |pairs| && pairs[i] == Keyed(a);
      assert Sorted(records)[i] == a;
    }
  }

  lemma {:induction false} AllJudgedIff(request: Request, records: seq<Aggregate>)
    ensures var verdicts := JudgeAll(a => Judge(request, a), Sorted(records));
      (forall i :: 0 <= i < |verdicts| ==> verdicts[i] != Undecided) <==> forall a :: a in records ==> Settled(request, a)
  {
    var sorted := Sorted(records);
    var verdicts := JudgeAll(a => Judge(request, a), sorted);
    forall i | 0 <= i < |sorted| ensures sorted[i] in records && (Settled(request, sorted[i]) <==> verdicts[i] != Undecided) {
      SortedMember(records, sorted[i]);
      SettledIff(request, sorted[i]);
    }
    forall a | a in records ensures exists i :: 0 <= i < |sorted| && sorted[i] == a {
      SortedMember(records, a);
    }
  }

  /**
   * Valid input about one project is accepted exactly when every open record the plan touches has
   * one decision bound to its version and the plan, made by the actor for exactly those selectors.
   */
  lemma {:induction false} AcceptsIff(h: TouchHygiene, request: Request)
    ensures Evaluate(h, request).Accepted? <==>
      && ValidInput(h, request)
      && OneProject(OpenRecords(request), request.plan.projectId) && DistinctRecords(OpenRecords(request))
      && forall a :: a in OpenRecords(request) ==> Settled(request, a)
  {
    var verdicts := JudgeAll(a => Judge(request, a), Sorted(OpenRecords(request)));
    CollectSomeIff(verdicts, |verdicts|);
    AllJudgedIff(request, OpenRecords(request));
  }

  lemma {:induction false} CollectMember(verdicts: seq<Verdict>, n: nat, m: Match)
    requires n <= |verdicts| && Collect(verdicts, n).Some?
    ensures m in Collect(verdicts, n).value <==> exists i :: 0 <= i < n && verdicts[i] == Decided(m)
    decreases n
  {
    if n > 0 {
      CollectMember(verdicts, n - 1, m);
    }
  }

  /** The matches are the decided records, and nothing else. */
  lemma {:induction false} MatchesExactly(h: TouchHygiene, request: Request, m: Match)
    requires Evaluate(h, request).Accepted?
    ensures m in Evaluate(h, request).matches
       <==> exists a :: a in OpenRecords(request) && Judge(request, a) == Decided(m)
  {
    var verdicts := JudgeAll(a => Judge(request, a), Sorted(OpenRecords(request)));
    CollectMember(verdicts, |verdicts|, m);
    JudgedMember(a => Judge(request, a), OpenRecords(request), m);
  }

  lemma {:induction false} JudgedMember(judge: Aggregate -> Verdict, records: seq<Aggregate>, m: Match)
    ensures var verdicts := JudgeAll(judge, Sorted(records));
      (exists i :: 0 <= i < |verdicts| && verdicts[i] == Decided(m)) <==> exists a :: a in records && judge(a) == Decided(m)
  {
    var sorted := Sorted(records);
    forall i | 0 <= i < |sorted| ensures sorted[i] in records {
      SortedMember(records, sorted[i]);
    }
    forall a | a in records ensures exists i :: 0 <= i < |sorted| && sorted[i] == a {
      SortedMember(records, a);
    }
  }

  // ---------------------------------------------------------------------------
  // Order does not matter
  // ---------------------------------------------------------------------------

  lemma {:induction false} JudgeIgnoresOrder(a: Request, b: Request, record: Aggregate)
    requires a.plan == b.plan && a.planHash == b.planHash && a.actorId == b.actorId
    requires multiset(a.decisions) == multiset(b.decisions)
    ensures Judge(a, record) == Judge(b, record)
  {
    var ka := (d: Decision) => Binds(a, record, d);
    var kb := (d: Decision) => Binds(b, record, d);
    FilterPermutes(a.decisions, b.decisions, ka);
    FilterAgrees(b.decisions, ka, kb);
    SingletonPermutes(Filter(a.decisions, ka), Filter(b.decisions, kb));
  }

  lemma {:induction false} FilterAgrees(ds: seq<Decision>, f: Decision -> bool, g: Decision -> bool)
    requires forall d :: f(d) == g(d)
    ensures Filter(ds, f) == Filter(ds, g)
    decreases |ds|
  {
    if ds != [] {
      FilterAgrees(ds[..|ds| - 1], f, g);
    }
  }

  lemma {:induction false} VerdictsAgree(a: Request, b: Request, records: seq<Aggregate>)
    requires a.plan == b.plan && a.planHash == b.planHash && a.actorId == b.actorId
    requires multiset(a.decisions) == multiset(b.decisions)
    ensures JudgeAll(r => Judge(a, r), records) == JudgeAll(r => Judge(b, r), records)
  {
    forall i | 0 <= i < |records| ensures Judge(a, records[i]) == Judge(b, records[i]) {
      JudgeIgnoresOrder(a, b, records[i]);
    }
  }

  lemma {:induction false} KeyedCounts(records: seq<Aggregate>, p: (TextOrder.Text, Aggregate))
    ensures multiset(KeyedAll(records))[p] == if p == Keyed(p.1) then multiset(records)[p.1] else 0
    decreases |records|
  {
    if records != [] {
      var last, rest := records[|records| - 1], records[..|records| - 1];
      assert records == rest + [last];
      assert KeyedAll(records) == KeyedAll(rest) + [Keyed(last)];
      KeyedCounts(rest, p);
    }
  }

  lemma {:induction false} KeyedPermutes(xs: seq<Aggregate>, ys: seq<Aggregate>)
    requires multiset(xs) == multiset(ys)
    ensures multiset(KeyedAll(xs)) == multiset(KeyedAll(ys))
  {
    forall p ensures multiset(KeyedAll(xs))[p] == multiset(KeyedAll(ys))[p] {
      KeyedCounts(xs, p);
      KeyedCounts(ys, p);
    }
  }

  lemma {:induction false} DistinctIff(records: seq<Aggregate>)
    ensures DistinctRecords(records) <==> DistinctKeys(KeyedAll(records))
  {
    if DistinctRecords(records) {
      forall i, j | 0 <= i < j < |records| ensures Keyed(records[i]).0 != Keyed(records[j]).0 {
        if Utf16.Units(records[i].recordId) == Utf16.Units(records[j].recordId) {
          Utf16.UnitsInjective(records[i].recordId, records[j].recordId);
        }
      }
    }
    if DistinctKeys(KeyedAll(records)) {
      forall i, j | 0 <= i < j < |records| ensures records[i].recordId != records[j].recordId {
        assert KeyedAll(records)[i].0 != KeyedAll(records)[j].0;
      }
    }
  }

  lemma {:induction false} ProjectIgnoresOrder(xs: seq<Aggregate>, ys: seq<Aggregate>, projectId: string)
    requires multiset(xs) == multiset(ys) && OneProject(xs, projectId)
    ensures OneProject(ys, projectId)
  {
    forall i | 0 <= i < |ys| ensures ys[i].projectId == projectId {
      SameElements(xs, ys, ys[i]);
    }
  }

  lemma {:induction false} ValidityIgnoresOrder(h: TouchHygiene, a: Request, b: Request)
    requires a.plan == b.plan && a.planHash == b.planHash && a.actorId == b.actorId
    requires multiset(a.aggregates) == multiset(b.aggregates) && multiset(a.decisions) == multiset(b.decisions)
    ensures ValidInput(h, a) <==> ValidInput(h, b)
  {
    AllIgnoresOrder(a.aggregates, b.aggregates, h.aggregate);
    AllIgnoresOrder(a.decisions, b.decisions, d => ValidDecision(h, d));
  }

  lemma {:induction false} AllIgnoresOrder<T(!new)>(xs: seq<T>, ys: seq<T>, p: T -> bool)
    requires multiset(xs) == multiset(ys)
    ensures (forall i :: 0 <= i < |xs| ==> p(xs[i])) <==> (forall i :: 0 <= i < |ys| ==> p(ys[i]))
  {
    if forall i :: 0 <= i < |xs| ==> p(xs[i]) {
      forall i | 0 <= i < |ys| ensures p(ys[i]) {
        SameElements(xs, ys, ys[i]);
      }
    }
    if forall i :: 0 <= i < |ys| ==> p(ys[i]) {
      forall i | 0 <= i < |xs| ensures p(xs[i]) {
        SameElements(xs, ys, xs[i]);
      }
    }
  }

  /** The outcome, matches included, is the same for every order of the records and of the decisions. */
  lemma {:induction false} OrderIgnored(h: TouchHygiene, a: Request, b: Request)
    requires a.plan == b.plan && a.planHash == b.planHash && a.actorId == b.actorId
    requires multiset(a.aggregates) == multiset(b.aggregates) && multiset(a.decisions) == multiset(b.decisions)
    ensures Evaluate(h, a) == Evaluate(h, b)
  {
    var xs, ys := OpenRecords(a), OpenRecords(b);
    ValidityIgnoresOrder(h, a, b);
    FilterPermutes(a.aggregates, b.aggregates, IsOpen);
    KeyedPermutes(xs, ys);
    DistinctIff(xs);
    DistinctIff(ys);
    DistinctKeysPermute(KeyedAll(xs), KeyedAll(ys));
    if OneProject(xs, a.plan.projectId) {
      ProjectIgnoresOrder(xs, ys, a.plan.projectId);
    }
    if OneProject(ys, a.plan.projectId) {
      ProjectIgnoresOrder(ys, xs, a.plan.projectId);
    }
    if DistinctRecords(xs) {
      SortIgnoresOrder(KeyedAll(xs), KeyedAll(ys));
      VerdictsAgree(a, b, Sorted(xs));
    }
  }

  // ---------------------------------------------------------------------------
  // When decisions can be given at all
  // ---------------------------------------------------------------------------

  /** A decision that would settle the record. */
  function DecisionFor(request: Request, record: Aggregate, decisionId: string, details: string): Decision {
    Decision(decisionId, request.plan.projectId, request.plan.featureId, request.planHash,
             record.recordId, record.eventVersion, Selectors(record, request.plan), request.actorId, details)
  }

  function Touched(request: Request): seq<Aggregate> {
    Filter(OpenRecords(request), a => Selectors(a, request.plan) != [])
  }

  /** One such decision for every open record the plan touches. */
  function Decisions(request: Request, decisionId: string, details: string): (r: seq<Decision>)
    ensures |r| == |Touched(request)|
    ensures forall i :: 0 <= i < |r| ==> r[i] == DecisionFor(request, Touched(request)[i], decisionId, details)
  {
    seq(|Touched(request)|, i requires 0 <= i < |Touched(request)| => DecisionFor(request, Touched(request)[i], decisionId, details))
  }

  lemma {:induction false} FilterKeepsDistinct(records: seq<Aggregate>, keep: Aggregate -> bool)
    requires DistinctRecords(records)
    ensures DistinctRecords(Filter(records, keep))
    decreases |records|
  {
    if records != [] {
      var last, rest := records[|records| - 1], records[..|records| - 1];
      FilterKeepsDistinct(rest, keep);
      forall i | 0 <= i < |Filter(rest, keep)| ensures Filter(rest, keep)[i].recordId != last.recordId {
        FilterMember(rest, keep, Filter(rest, keep)[i]);
      }
    }
  }

  ghost predicate ForOneProject(records: seq<Aggregate>, projectId: string) {
    OneProject(records, projectId) && DistinctRecords(records)
  }

  lemma {:induction false} DecisionsSettle(request: Request, decisionId: string, details: string, a: Aggregate)
    requires DistinctRecords(OpenRecords(request)) && a in OpenRecords(request)
    ensures Settled(request.(decisions := Decisions(request, decisionId, details)), a)
  {
    var ds := Decisions(request, decisionId, details);
    var full := request.(decisions := ds);
    if Selectors(a, request.plan) != [] {
      var touches := (b: Aggregate) => Selectors(b, request.plan) != [];
      FilterMember(OpenRecords(request), touches, a);
      FilterKeepsDistinct(OpenRecords(request), touches);
      var k: nat :| k < |Touched(request)| && Touched(request)[k] == a;
      assert ds[k] == DecisionFor(request, a, decisionId, details);
      forall j | 0 <= j < |ds| && j != k ensures !Binds(full, a, ds[j]) {
        assert ds[j].recordId == Touched(request)[j].recordId;
      }
      assert DecidedBy(full, a, k);
    }
  }

  /** Every open record the plan touches has a selector list that a decision may carry. */
  ghost predicate AllCarriable(h: TouchHygiene, request: Request) {
    forall a :: a in OpenRecords(request) && Selectors(a, request.plan) != [] ==> Carriable(h, Selectors(a, request.plan))
  }

  lemma {:induction false} DecisionsValid(h: TouchHygiene, request: Request, decisionId: string, details: string)
    requires ValidContext(h, request) && AllCarriable(h, request)
    requires h.identifier(decisionId) && h.details(details)
    requires forall a :: h.aggregate(a) ==> h.recordId(a.recordId)
    ensures ValidInput(h, request.(decisions := Decisions(request, decisionId, details)))
  {
    var ds := Decisions(request, decisionId, details);
    forall i | 0 <= i < |ds| ensures ValidDecision(h, ds[i]) {
      var a := Touched(request)[i];
      FilterMember(OpenRecords(request), (b: Aggregate) => Selectors(b, request.plan) != [], a);
      FilterMember(request.aggregates, IsOpen, a);
      SelectorsCarriable(h, a, request.plan);
    }
  }

  lemma {:induction false} AcceptedIsCarriable(h: TouchHygiene, request: Request)
    requires Evaluate(h, request).Accepted?
    ensures AllCarriable(h, request)
  {
    AcceptsIff(h, request);
    forall a | a in OpenRecords(request) && Selectors(a, request.plan) != [] ensures Carriable(h, Selectors(a, request.plan)) {
      assert Settled(request, a);
      var k: nat :| DecidedBy(request, a, k);
      assert ValidDecision(h, request.decisions[k]);
      SelectorsCarriable(h, a, request.plan);
    }
  }

  /**
   * Some decisions make the plan acceptable exactly when the rest of the input is valid and of one
   * project, and no touched record has more selectors than a decision's list may hold, or a selector
   * that is no clean text.  A record beyond that limit blocks every plan that touches it so.
   */
  lemma {:induction false} DecidableIff(h: TouchHygiene, request: Request, decisionId: string, details: string)
    requires h.identifier(decisionId) && h.details(details)
    requires forall a :: h.aggregate(a) ==> h.recordId(a.recordId)
    ensures (exists ds :: Evaluate(h, request.(decisions := ds)).Accepted?) <==>
      && ValidContext(h, request)
      && ForOneProject(OpenRecords(request), request.plan.projectId)
      && AllCarriable(h, request)
  {
    if ds :| Evaluate(h, request.(decisions := ds)).Accepted? {
      AcceptsIff(h, request.(decisions := ds));
      AcceptedIsCarriable(h, request.(decisions := ds));
    }
    if ValidContext(h, request) && ForOneProject(OpenRecords(request), request.plan.projectId) && AllCarriable(h, request) {
      var full := request.(decisions := Decisions(request, decisionId, details));
      DecisionsValid(h, request, decisionId, details);
      forall a | a in OpenRecords(full) ensures Settled(full, a) {
        DecisionsSettle(request, decisionId, details, a);
      }
      AcceptsIff(h, full);
    }
  }
}
