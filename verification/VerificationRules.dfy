/** What a verification profile must say, check by check, in the words of the document. */
module VerificationRules {
  import opened Wrappers
  import opened Spelling
  import opened VerificationProfile

  /** The intent a word stands for, in any case. */
  predicate Means(word: string, intent: Intent) {
    match intent
    case Build => Spells(word, "build")
    case Test => Spells(word, "test")
    case Lint => Spells(word, "lint")
    case Coverage => Spells(word, "coverage")
  }

  /** The entry names this intent. */
  predicate Intends(raw: RawCheck, intent: Intent) {
    raw.RawCheck? && raw.intent.Some? && Means(raw.intent.value, intent)
  }

  /** The entry has this id, which is no blank, with white space around it or not. */
  ghost predicate Identified(raw: RawCheck, id: string) {
    raw.RawCheck? && raw.id.Some? && id != "" && IsTrimmed(raw.id.value, id)
  }

  /** A timeout that is a number above zero counts as it is; any other is two minutes. */
  predicate LastsFor(raw: RawCheck, timeout: real) {
    raw.RawCheck? && timeout == if raw.timeout.Some? && raw.timeout.value > 0.0 then raw.timeout.value else 120000.0
  }

  /** The rules for one entry. */
  ghost predicate Sound(raw: RawCheck) {
    && (exists id :: Identified(raw, id))
    && (exists intent :: Intends(raw, intent))
    && raw.command.Strings? && raw.command.argv != []
    && !raw.absoluteDirectory
    && (exists timeout :: LastsFor(raw, timeout) && timeout >= 10000.0)
    && raw.runAt.Some?
    && (if Intends(raw, Coverage) then raw.coverage == ValidCoverage else raw.coverage == NoCoverage)
  }

  ghost predicate SameId(a: RawCheck, b: RawCheck) {
    exists id :: Identified(a, id) && Identified(b, id)
  }

  ghost predicate Requires(raws: seq<RawCheck>, intent: Intent) {
    exists i :: 0 <= i < |raws| && raws[i].RawCheck? && raws[i].required && Intends(raws[i], intent)
  }

  /** Some check, every one sound, no id twice, and a required one for build, for test and for lint. */
  ghost predicate Accepted(raws: seq<RawCheck>) {
    && raws != [] && (forall raw :: raw in raws ==> Sound(raw))
    && (forall i, j :: 0 <= i < j < |raws| ==> !SameId(raws[i], raws[j]))
    && Requires(raws, Build) && Requires(raws, Test) && Requires(raws, Lint)
  }

  /** The declaration an entry becomes. */
  ghost predicate Becomes(raw: RawCheck, check: Check) {
    && Identified(raw, check.id) && Intends(raw, check.intent) && raw.command == Strings(check.argv)
    && LastsFor(raw, check.timeout) && check.required == raw.required && raw.runAt == Some(check.runAt)
  }

  lemma {:induction false} IdIff(raw: RawCheck, id: string)
    ensures ReadId(raw) == Some(id) <==> Identified(raw, id)
  {
    if raw.RawCheck? && raw.id.Some? {
      TrimIff(raw.id.value, id);
      TrimIff(raw.id.value, "");
    }
  }

  lemma {:induction false} HasIdIff(raw: RawCheck)
    ensures ReadId(raw).Some? <==> exists id :: Identified(raw, id)
  {
    if ReadId(raw).Some? {
      IdIff(raw, ReadId(raw).value);
    }
    if id :| Identified(raw, id) {
      IdIff(raw, id);
    }
  }

  lemma {:induction false} IntentIff(raw: RawCheck, intent: Intent)
    ensures ReadIntent(raw) == Some(intent) <==> Intends(raw, intent)
  {
    if raw.RawCheck? && raw.intent.Some? {
      var word := raw.intent.value;
      SpellsIff(word, "build");
      SpellsIff(word, "test");
      SpellsIff(word, "lint");
      SpellsIff(word, "coverage");
    }
  }

  lemma {:induction false} HasIntentIff(raw: RawCheck)
    ensures ReadIntent(raw).Some? <==> exists intent :: Intends(raw, intent)
  {
    if ReadIntent(raw).Some? {
      IntentIff(raw, ReadIntent(raw).value);
    }
    if intent :| Intends(raw, intent) {
      IntentIff(raw, intent);
    }
  }

  lemma {:induction false} SoundIff(raw: RawCheck)
    ensures Fine(ReadEntry(raw)) <==> Sound(raw)
  {
    HasIdIff(raw);
    HasIntentIff(raw);
    IntentIff(raw, Coverage);
    if raw.RawCheck? {
      assert LastsFor(raw, TimeoutOf(raw));
    }
  }

  lemma {:induction false} SameIdIff(a: RawCheck, b: RawCheck)
    requires ReadId(a).Some? && ReadId(b).Some?
    ensures ReadId(a) == ReadId(b) <==> SameId(a, b)
  {
    IdIff(a, ReadId(a).value);
    IdIff(b, ReadId(b).value);
    if id :| Identified(a, id) && Identified(b, id) {
      IdIff(a, id);
      IdIff(b, id);
    }
  }

  ghost predicate Covers(entries: seq<Entry>, intent: Intent) {
    exists i :: 0 <= i < |entries| && entries[i].raw.RawCheck? && entries[i].raw.required && entries[i].intent == Some(intent)
  }

  lemma {:induction false} RequiresIff(raws: seq<RawCheck>, intent: Intent)
    ensures Requires(raws, intent) <==> Covers(ReadEntries(raws), intent)
  {
    forall i | 0 <= i < |raws| ensures ReadEntries(raws)[i].intent == Some(intent) <==> Intends(raws[i], intent) {
      IntentIff(raws[i], intent);
    }
  }

  lemma {:induction false} AcceptableIff(entries: seq<Entry>)
    ensures Acceptable(entries) <==>
      entries != [] && FineTo(entries, |entries|) && Covers(entries, Build) && Covers(entries, Test) && Covers(entries, Lint)
  {
    assert Build in REQUIRED_INTENTS && Test in REQUIRED_INTENTS && Lint in REQUIRED_INTENTS;
    assert forall t :: t in REQUIRED_INTENTS ==> t == Build || t == Test || t == Lint;
  }

  lemma {:induction false} FineIff(raws: seq<RawCheck>)
    ensures FineTo(ReadEntries(raws), |raws|) <==>
      && (forall raw :: raw in raws ==> Sound(raw))
      && (forall i, j :: 0 <= i < j < |raws| ==> !SameId(raws[i], raws[j]))
  {
    var entries := ReadEntries(raws);
    forall i | 0 <= i < |raws| ensures Fine(entries[i]) <==> Sound(raws[i]) {
      SoundIff(raws[i]);
    }
    AllSoundIff(raws);
    if forall i :: 0 <= i < |raws| ==> Sound(raws[i]) {
      forall i, j | 0 <= i < j < |raws| ensures entries[i].id != entries[j].id <==> !SameId(raws[i], raws[j]) {
        SameIdIff(raws[i], raws[j]);
      }
    }
  }

  /** A document is accepted exactly under these rules. */
  lemma {:induction false} AcceptedIff(raws: seq<RawCheck>)
    ensures Acceptable(ReadEntries(raws)) <==> Accepted(raws)
  {
    AcceptableIff(ReadEntries(raws));
    FineIff(raws);
    RequiresIff(raws, Build);
    RequiresIff(raws, Test);
    RequiresIff(raws, Lint);
  }

  lemma {:induction false} AllSoundIff(raws: seq<RawCheck>)
    ensures (forall raw :: raw in raws ==> Sound(raw)) <==> forall i :: 0 <= i < |raws| ==> Sound(raws[i])
  {
  }

  /** The declarations of an accepted document are its entries, in order. */
  lemma {:induction false} DeclaredEntries(raws: seq<RawCheck>, checks: seq<Check>)
    requires Declares(ReadEntries(raws), checks, |raws|)
    ensures |checks| == |raws| && forall i :: 0 <= i < |checks| ==> Becomes(raws[i], checks[i])
  {
    forall i | 0 <= i < |checks| ensures Becomes(raws[i], checks[i]) {
      IdIff(raws[i], checks[i].id);
      IntentIff(raws[i], checks[i].intent);
    }
  }

  /** In an accepted document build, test and lint each have a required check among the declarations. */
  lemma {:induction false} EachIntentRequired(raws: seq<RawCheck>, checks: seq<Check>, intent: Intent)
    requires Accepted(raws) && Declares(ReadEntries(raws), checks, |raws|)
    requires intent == Build || intent == Test || intent == Lint
    ensures exists i :: 0 <= i < |checks| && checks[i].required && checks[i].intent == intent
  {
    DeclaredEntries(raws, checks);
    assert Requires(raws, intent);
    var i :| 0 <= i < |raws| && raws[i].RawCheck? && raws[i].required && Intends(raws[i], intent);
    IntentIff(raws[i], intent);
    IntentIff(raws[i], checks[i].intent);
  }
}
