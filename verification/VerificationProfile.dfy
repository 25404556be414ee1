/** Loading a final-verification profile: which documents are accepted, and what an accepted one guarantees. */
module VerificationProfile {
  import opened Wrappers
  import Text

  datatype Intent = Build | Test | Lint | Coverage

  /** A coverage block: absent, well formed, or not. */
  datatype CoverageBlock = NoCoverage | ValidCoverage | BadCoverage

  datatype RunAt = Always | FinalCheckpoint

  /** A command: no list at all, a list with others + 1 entries that are not strings, or strings only. */
  datatype Command = NotAList | WithNonStrings(others: nat) | Strings(argv: seq<string>)

  /** One entry of the checks array after YAML parsing; timeout is None unless a finite number above zero. */
  datatype RawCheck =
    | NotObject
    | RawCheck(id: Option<string>, intent: Option<string>, command: Command, absoluteDirectory: bool,
               timeout: Option<real>, required: bool, runAt: Option<RunAt>, coverage: CoverageBlock)

  datatype Check = Check(id: string, intent: Intent, argv: seq<string>, timeout: real, required: bool, runAt: RunAt)

  datatype IssueKind =
    | InvalidYaml | DuplicateId | InvalidIntent | UnsafeCommand | UnsafeDirectory | TimeoutTooLow | InvalidRunStage
    | InvalidCoverage | MissingIntent | ZeroChecks

  datatype Issue = Issue(kind: IssueKind, checkId: string)

  const MIN_TIMEOUT := 10000.0
  const DEFAULT_TIMEOUT := 120000.0

  const REQUIRED_INTENTS: set<Intent> := {Build, Test, Lint}

  function ReadId(raw: RawCheck): Option<string> {
    if raw.NotObject? || raw.id == None || Text.Trim(raw.id.value) == "" then None else Some(Text.Trim(raw.id.value))
  }

  function ReadIntent(raw: RawCheck): Option<Intent> {
    if raw.NotObject? || raw.intent == None then None
    else
      var word := Text.Lower(raw.intent.value);
      if word == "build" then Some(Build)
      else if word == "test" then Some(Test)
      else if word == "lint" then Some(Lint)
      else if word == "coverage" then Some(Coverage)
      else None
  }

  function TimeoutOf(raw: RawCheck): real
    requires raw.RawCheck?
  {
    if raw.timeout.Some? && raw.timeout.value > 0.0 then raw.timeout.value else DEFAULT_TIMEOUT
  }

  /** The entry with its texts read; everything below works on these. */
  datatype Entry = Entry(id: Option<string>, intent: Option<Intent>, raw: RawCheck)

  function ReadEntry(raw: RawCheck): Entry {
    Entry(ReadId(raw), ReadIntent(raw), raw)
  }

  function ReadEntries(raws: seq<RawCheck>): (r: seq<Entry>)
    ensures |r| == |raws| && forall i :: 0 <= i < |raws| ==> r[i] == ReadEntry(raws[i])
  {
    seq(|raws|, i requires 0 <= i < |raws| => ReadEntry(raws[i]))
  }

  /** What one check must be on its own. */
  predicate Fine(e: Entry) {
    && e.raw.RawCheck? && e.id.Some? && e.intent.Some? && e.raw.command.Strings? && e.raw.command.argv != []
    && !e.raw.absoluteDirectory && TimeoutOf(e.raw) >= MIN_TIMEOUT && e.raw.runAt.Some?
    && e.raw.coverage == (if e.intent.value == Coverage then ValidCoverage else NoCoverage)
  }

  function ToCheck(e: Entry): Check
    requires Fine(e)
  {
    Check(e.id.value, e.intent.value, e.raw.command.argv, TimeoutOf(e.raw), e.raw.required, e.raw.runAt.value)
  }

  /** The verdict on one entry; an id is noted as soon as it is read, whatever follows. */
  method CheckEntry(index: nat, e: Entry, seenIds: set<string>) returns (issues: seq<Issue>, check: Option<Check>, seen: set<string>)
    ensures check.Some? <==> issues == []
    ensures check.Some? <==> Fine(e) && e.id.value !in seenIds
    ensures check.Some? ==> check == Some(ToCheck(e))
    ensures seen == if e.raw.RawCheck? && e.id.Some? then seenIds + {e.id.value} else seenIds
  {
    seen, check := seenIds, None;
    if e.raw.NotObject? || e.id == None {
      return [Issue(InvalidYaml, "")], None, seen;
    }
    var id := e.id.value;
    if id in seenIds {
      seen := seenIds + {id};
      return [Issue(DuplicateId, id)], None, seen;
    }
    seen := seenIds + {id};
    if e.intent == None {
      return [Issue(InvalidIntent, id)], None, seen;
    }
    match e.raw.command
    case NotAList => return [Issue(UnsafeCommand, id)], None, seen;
    case WithNonStrings(others) => return seq(others + 1, _ => Issue(UnsafeCommand, id)), None, seen;
    case Strings(argv) =>
    if e.raw.command.argv == [] {
      return [Issue(UnsafeCommand, id)], None, seen;
    }
    if e.raw.absoluteDirectory {
      return [Issue(UnsafeDirectory, id)], None, seen;
    }
    if TimeoutOf(e.raw) < MIN_TIMEOUT {
      return [Issue(TimeoutTooLow, id)], None, seen;
    }
    if e.raw.runAt == None {
      return [Issue(InvalidRunStage, id)], None, seen;
    }
    if e.intent.value == Coverage && e.raw.coverage != ValidCoverage {
      return [Issue(InvalidCoverage, id)], None, seen;
    }
    if e.intent.value != Coverage && e.raw.coverage != NoCoverage {
      return [Issue(InvalidCoverage, id)], None, seen;
    }
    return [], Some(ToCheck(e)), seen;
  }

  // ---------------------------------------------------------------------------
  // The loop over the checks
  // ---------------------------------------------------------------------------

  ghost predicate FineTo(entries: seq<Entry>, k: nat)
    requires k <= |entries|
  {
    && (forall i :: 0 <= i < k ==> Fine(entries[i]))
    && (forall i, j :: 0 <= i < j < k ==> entries[i].id != entries[j].id)
  }

  ghost predicate Declares(entries: seq<Entry>, checks: seq<Check>, k: nat)
    requires k <= |entries|
  {
    |checks| == k && forall i :: 0 <= i < k ==> Fine(entries[i]) && checks[i] == ToCheck(entries[i])
  }

  /** Ids read so far. */
  ghost function IdsTo(entries: seq<Entry>, k: nat): set<string>
    requires k <= |entries|
    decreases k
  {
    if k == 0 then {}
    else
      var e := entries[k - 1];
      if e.raw.RawCheck? && e.id.Some? then IdsTo(entries, k - 1) + {e.id.value} else IdsTo(entries, k - 1)
  }

  lemma {:induction false} IdsMember(entries: seq<Entry>, k: nat, id: string)
    requires k <= |entries|
    ensures id in IdsTo(entries, k) <==> exists i :: 0 <= i < k && entries[i].raw.RawCheck? && entries[i].id == Some(id)
    decreases k
  {
    if k > 0 {
      IdsMember(entries, k - 1, id);
    }
  }

  lemma {:induction false} FineOneMore(entries: seq<Entry>, k: nat)
    requires k < |entries|
    ensures FineTo(entries, k + 1)
       <==> FineTo(entries, k) && Fine(entries[k]) && entries[k].id.value !in IdsTo(entries, k)
  {
    if entries[k].id.Some? {
      IdsMember(entries, k, entries[k].id.value);
    }
  }

  /** Which intents have a required check among the declarations. */
  function Covered(checks: seq<Check>): (r: set<Intent>)
    ensures forall t :: t in r <==> exists i :: 0 <= i < |checks| && checks[i].required && checks[i].intent == t
  {
    set i | 0 <= i < |checks| && checks[i].required :: checks[i].intent
  }

  /** The profile a document must describe. */
  ghost predicate Acceptable(entries: seq<Entry>) {
    && entries != [] && FineTo(entries, |entries|)
    && forall t :: t in REQUIRED_INTENTS ==>
         exists i :: 0 <= i < |entries| && entries[i].raw.required && entries[i].intent == Some(t)
  }

  lemma {:induction false} CoveredIff(entries: seq<Entry>, checks: seq<Check>)
    requires Declares(entries, checks, |entries|) && FineTo(entries, |entries|) && entries != []
    ensures REQUIRED_INTENTS <= Covered(checks) <==> Acceptable(entries)
  {
    assert forall i :: 0 <= i < |entries| ==> checks[i].required == entries[i].raw.required && Some(checks[i].intent) == entries[i].intent;
    if REQUIRED_INTENTS <= Covered(checks) {
      forall t | t in REQUIRED_INTENTS
        ensures exists i :: 0 <= i < |entries| && entries[i].raw.required && entries[i].intent == Some(t)
      {
        assert t in Covered(checks);
      }
    }
    if Acceptable(entries) {
      forall t | t in REQUIRED_INTENTS ensures t in Covered(checks) {
      }
    }
  }

  method CheckEntries(entries: seq<Entry>) returns (issues: seq<Issue>, checks: seq<Check>, covered: set<Intent>)
    ensures issues == [] <==> FineTo(entries, |entries|)
    ensures issues == [] ==> Declares(entries, checks, |entries|)
    ensures covered == Covered(checks)
  {
    issues, checks, covered := [], [], {};
    var seenIds: set<string> := {};
    var k: nat := 0;
    while k < |entries|
      invariant k <= |entries| && seenIds == IdsTo(entries, k)
      invariant issues == [] <==> FineTo(entries, k)
      invariant issues == [] ==> Declares(entries, checks, k)
      invariant covered == Covered(checks)
    {
      FineOneMore(entries, k);
      var found, check;
      found, check, seenIds := CheckEntry(k, entries[k], seenIds);
      issues := issues + found;
      if check.Some? {
        CoverOneMore(checks, check.value);
        checks := checks + [check.value];
        if check.value.required {
          covered := covered + {check.value.intent};
        }
      }
      k := k + 1;
    }
  }

  lemma {:induction false} CoverOneMore(checks: seq<Check>, check: Check)
    ensures Covered(checks + [check]) == if check.required then Covered(checks) + {check.intent} else Covered(checks)
  {
    var longer := checks + [check];
    assert longer[|checks|] == check;
    assert forall i :: 0 <= i < |checks| ==> longer[i] == checks[i];
    forall t ensures t in Covered(longer) <==> t in Covered(checks) || (check.required && t == check.intent) {
      if t in Covered(checks) {
        var i :| 0 <= i < |checks| && checks[i].required && checks[i].intent == t;
        assert longer[i].required && longer[i].intent == t;
      }
    }
  }

  /** A profile comes out exactly when the document is acceptable, with every check in declared order. */
  method LoadProfile(raws: seq<RawCheck>) returns (profile: Option<seq<Check>>, issues: seq<Issue>)
    ensures profile.Some? <==> issues == []
    ensures profile.Some? <==> Acceptable(ReadEntries(raws))
    ensures profile.Some? ==> Declares(ReadEntries(raws), profile.value, |raws|)
    ensures profile.Some? ==> REQUIRED_INTENTS <= Covered(profile.value)
  {
    if raws == [] {
      return None, [Issue(ZeroChecks, "")];
    }
    var entries := ReadEntries(raws);
    var checks, covered;
    issues, checks, covered := CheckEntries(entries);
    if issues == [] {
      CoveredIff(entries, checks);
    }
    if !(REQUIRED_INTENTS <= covered) {
      issues := issues + [Issue(MissingIntent, "")];
    }
    profile := if issues == [] then Some(checks) else None;
  }
}
