/** The items the extractor gives, in the words of the document: where a ledger is open, and which section a line is in. */
module LedgerItems {
  import opened Wrappers
  import opened Spelling
  import opened LedgerLines
  import opened LedgerGrammar
  import opened LedgerRules
  import opened PhaseLedger

  // ---------------------------------------------------------------------------
  // The scan of the headings
  // ---------------------------------------------------------------------------

  /** The ledger that heading g opens is still open at line n. */
  ghost predicate OpenBy(headings: seq<Option<Heading>>, g: nat, n: nat) {
    && g < n <= |headings| && Titled(headings[g])
    && forall i :: g < i < n && headings[i].Some? ==>
         !headings[i].value.ledger && headings[i].value.level > headings[g].value.level
  }

  ghost predicate IsOpen(headings: seq<Option<Heading>>, n: nat) {
    exists g: nat :: OpenBy(headings, g, n)
  }

  /** The last title before line n is the section, or there is none and it is the document. */
  ghost predicate Untitled(headings: seq<Option<Heading>>, g: nat, n: nat) {
    forall i :: g <= i < n && i < |headings| && headings[i].Some? ==> headings[i].value.title == ""
  }

  ghost predicate TitleBy(headings: seq<Option<Heading>>, g: nat, n: nat, section: string) {
    g < n <= |headings| && headings[g].Some? && headings[g].value.title == section && section != "" && Untitled(headings, g + 1, n)
  }

  ghost predicate InSectionOf(headings: seq<Option<Heading>>, n: nat, section: string) {
    (section == "Document" && Untitled(headings, 0, n)) || exists g: nat :: TitleBy(headings, g, n, section)
  }

  ghost predicate Follows(scan: Scan, headings: seq<Option<Heading>>, n: nat) {
    && (scan.inside <==> IsOpen(headings, n))
    && (forall g: nat :: OpenBy(headings, g, n) ==> scan.level == headings[g].value.level)
  }

  lemma {:induction false} OpenStep(scan: Scan, headings: seq<Option<Heading>>, n: nat)
    requires 0 < n <= |headings| && Follows(scan, headings, n - 1)
    ensures Follows(AfterLine(true, scan, headings[n - 1]), headings, n)
  {
    var heading := headings[n - 1];
    forall g: nat | g < n - 1
      ensures OpenBy(headings, g, n) <==> (OpenBy(headings, g, n - 1)
        && (heading.Some? ==> !heading.value.ledger && heading.value.level > headings[g].value.level))
    {
    }
    assert OpenBy(headings, n - 1, n) <==> Titled(heading);
    if IsOpen(headings, n - 1) {
      var g: nat :| OpenBy(headings, g, n - 1);
      assert heading.None? || (!heading.value.ledger && heading.value.level > scan.level) ==> OpenBy(headings, g, n);
    }
  }

  lemma {:induction false} TitleStep(headings: seq<Option<Heading>>, n: nat, section: string)
    requires 0 < n <= |headings|
    requires InSectionOf(headings, n - 1, section)
    ensures headings[n - 1].None? || headings[n - 1].value.title == "" ==> InSectionOf(headings, n, section)
    ensures headings[n - 1].Some? && headings[n - 1].value.title != "" ==> InSectionOf(headings, n, headings[n - 1].value.title)
  {
    var m: nat := n - 1;
    if headings[m].Some? && headings[m].value.title != "" {
      assert TitleBy(headings, n - 1, n, headings[n - 1].value.title);
    } else if g: nat :| TitleBy(headings, g, m, section) {
      assert TitleBy(headings, g, n, section);
    }
  }

  lemma {:induction false} ScanFollows(v: View, explicit: bool, n: nat)
    requires n <= |v.headings|
    ensures explicit ==> Follows(ScanOf(v, explicit, n), v.headings, n)
    ensures !explicit ==> ScanOf(v, explicit, n).inside
    ensures InSectionOf(v.headings, n, ScanOf(v, explicit, n).section)
    decreases n
  {
    if n > 0 {
      ScanFollows(v, explicit, n - 1);
      TitleStep(v.headings, n, ScanOf(v, explicit, n - 1).section);
      if explicit {
        OpenStep(ScanOf(v, explicit, n - 1), v.headings, n);
      }
    }
  }

  /** A line is in one section. */
  lemma {:induction false} OneSection(headings: seq<Option<Heading>>, n: nat, a: string, b: string)
    requires InSectionOf(headings, n, a) && InSectionOf(headings, n, b)
    ensures a == b
  {
  }

  // ---------------------------------------------------------------------------
  // In the words of the document
  // ---------------------------------------------------------------------------

  ghost predicate LedgerAt(line: string, level: nat) {
    exists title: string :: IsHeading(line, level, title) && Spells(title, "phase task ledger")
  }

  /** Line g is a ledger heading, and no heading after it and before line q is one or is as high. */
  ghost predicate OpenSince(lines: seq<string>, g: nat, level: nat, q: nat) {
    && g < q <= |lines| && LedgerAt(lines[g], level)
    && forall i, lv: nat, title: string :: g < i < q && IsHeading(lines[i], lv, title) ==> lv > level && !Spells(title, "phase task ledger")
  }

  ghost predicate NoTitles(lines: seq<string>, g: nat, q: nat) {
    forall i, lv: nat, title: string :: g <= i < q && i < |lines| && IsHeading(lines[i], lv, title) ==> title == ""
  }

  ghost predicate TitledSince(lines: seq<string>, g: nat, level: nat, q: nat, section: string) {
    g < q <= |lines| && IsHeading(lines[g], level, section) && section != "" && NoTitles(lines, g + 1, q)
  }

  ghost predicate StandsIn(lines: seq<string>, q: nat, section: string) {
    (section == "Document" && NoTitles(lines, 0, q)) || exists g: nat, level: nat :: TitledSince(lines, g, level, q, section)
  }

  /** A checkbox with its section; with a ledger heading anywhere only where a ledger is open. */
  ghost predicate Listed(lines: seq<string>, item: Item) {
    && item.line < |lines| && Keeps(lines[item.line], item.state, item.text) && StandsIn(lines, item.line, item.section)
    && ((exists i: nat, level: nat :: i < |lines| && LedgerAt(lines[i], level)) ==>
          exists g: nat, level: nat :: OpenSince(lines, g, level, item.line))
  }

  lemma {:induction false} HeadingsRead(lines: seq<string>, i: nat)
    requires i < |lines|
    ensures var heading := ViewOf(lines).headings[i];
      && (heading.Some? ==> IsHeading(lines[i], heading.value.level, heading.value.title))
      && (forall level: nat, title: string :: IsHeading(lines[i], level, title) ==>
            heading.Some? && heading.value.level == level && heading.value.title == title
            && (heading.value.ledger <==> Spells(title, "phase task ledger")))
  {
    ViewAt(lines, i);
    if HeadingOf(lines[i]).Some? {
      HeadingStands(lines[i]);
    }
    forall level: nat, title: string | IsHeading(lines[i], level, title)
      ensures HeadingOf(lines[i]).Some? && HeadingOf(lines[i]).value.level == level && HeadingOf(lines[i]).value.title == title
      ensures HeadingOf(lines[i]).value.ledger <==> Spells(title, "phase task ledger")
    {
      HeadingRead(lines[i], level, title);
    }
  }

  lemma {:induction false} LedgerAtIff(lines: seq<string>, i: nat)
    requires i < |lines|
    ensures var heading := ViewOf(lines).headings[i];
      && (Titled(heading) ==> LedgerAt(lines[i], heading.value.level))
      && (forall level: nat :: LedgerAt(lines[i], level) ==> Titled(heading) && heading.value.level == level)
  {
    HeadingsRead(lines, i);
  }

  lemma {:induction false} OpenIff(lines: seq<string>, q: nat)
    requires q <= |lines|
    ensures IsOpen(ViewOf(lines).headings, q) <==> exists g: nat, level: nat :: OpenSince(lines, g, level, q)
  {
    var headings := ViewOf(lines).headings;
    if g: nat :| OpenBy(headings, g, q) {
      OpenIsOpen(lines, g, q);
      assert OpenSince(lines, g, headings[g].value.level, q);
    }
    if g: nat, level: nat :| OpenSince(lines, g, level, q) {
      LedgerAtIff(lines, g);
      forall i | g < i < q && headings[i].Some? ensures !headings[i].value.ledger && headings[i].value.level > level {
        HeadingsRead(lines, i);
      }
      assert OpenBy(headings, g, q);
    }
  }

  lemma {:induction false} OpenIsOpen(lines: seq<string>, g: nat, q: nat)
    requires q <= |lines| && OpenBy(ViewOf(lines).headings, g, q)
    ensures OpenSince(lines, g, ViewOf(lines).headings[g].value.level, q)
  {
    LedgerAtIff(lines, g);
    forall i, lv: nat, title: string | g < i < q && IsHeading(lines[i], lv, title)
      ensures lv > ViewOf(lines).headings[g].value.level && !Spells(title, "phase task ledger")
    {
      HeadingsRead(lines, i);
    }
  }

  lemma {:induction false} UntitledIff(lines: seq<string>, g: nat, q: nat)
    requires q <= |lines|
    ensures Untitled(ViewOf(lines).headings, g, q) <==> NoTitles(lines, g, q)
  {
    forall i | g <= i < q
      ensures var heading := ViewOf(lines).headings[i];
        (heading.Some? ==> IsHeading(lines[i], heading.value.level, heading.value.title))
        && (forall level: nat, title: string :: IsHeading(lines[i], level, title) ==> heading.Some? && heading.value.title == title)
    {
      HeadingsRead(lines, i);
    }
  }

  lemma {:induction false} SectionIff(lines: seq<string>, q: nat, section: string)
    requires q <= |lines|
    ensures InSectionOf(ViewOf(lines).headings, q, section) <==> StandsIn(lines, q, section)
  {
    UntitledIff(lines, 0, q);
    if g: nat :| TitleBy(ViewOf(lines).headings, g, q, section) {
      HeadingsRead(lines, g);
      UntitledIff(lines, g + 1, q);
      assert TitledSince(lines, g, ViewOf(lines).headings[g].value.level, q, section);
    }
    if g: nat, level: nat :| TitledSince(lines, g, level, q, section) {
      HeadingsRead(lines, g);
      UntitledIff(lines, g + 1, q);
      assert TitleBy(ViewOf(lines).headings, g, q, section);
    }
  }

  lemma {:induction false} HasLedgerIff(lines: seq<string>)
    ensures HasLedger(ViewOf(lines)) <==> exists i: nat, level: nat :: i < |lines| && LedgerAt(lines[i], level)
  {
    if HasLedger(ViewOf(lines)) {
      var i :| 0 <= i < |lines| && Titled(ViewOf(lines).headings[i]);
      LedgerAtIff(lines, i);
    }
    if i: nat, level: nat :| i < |lines| && LedgerAt(lines[i], level) {
      LedgerAtIff(lines, i);
    }
  }

  lemma {:induction false} ItemsAre(v: View, explicit: bool, n: nat, item: Item)
    requires n <= |v.headings| == |v.boxes|
    ensures item in Items(v, explicit, n) <==> item.line < n && ItemAt(v, explicit, item.line) == Some(item)
    decreases n
  {
    if n > 0 {
      ItemsAre(v, explicit, n - 1, item);
    }
  }

  lemma {:induction false} ItemIff(lines: seq<string>, item: Item)
    requires item.line < |lines|
    ensures ItemAt(ViewOf(lines), HasLedger(ViewOf(lines)), item.line) == Some(item) <==> Listed(lines, item)
  {
    var v, q := ViewOf(lines), item.line;
    var explicit := HasLedger(v);
    ViewAt(lines, q);
    ScanFollows(v, explicit, q);
    var section := ScanOf(v, explicit, q).section;
    SectionIff(lines, q, section);
    SectionIff(lines, q, item.section);
    if InSectionOf(v.headings, q, item.section) {
      OneSection(v.headings, q, section, item.section);
    }
    OpenIff(lines, q);
    HasLedgerIff(lines);
    KeepsIff(lines[q], item.state, item.text);
    if HeadingOf(lines[q]).Some? {
      HeadingIsNoBox(lines[q]);
    }
  }

  lemma {:induction false} ItemsInOrder(v: View, explicit: bool, n: nat)
    requires n <= |v.headings| == |v.boxes|
    ensures forall k :: 0 <= k < |Items(v, explicit, n)| ==> Items(v, explicit, n)[k].line < n
    ensures forall j, k :: 0 <= j < k < |Items(v, explicit, n)| ==> Items(v, explicit, n)[j].line < Items(v, explicit, n)[k].line
    decreases n
  {
    if n > 0 {
      var before, last := Items(v, explicit, n - 1), SomeOf(ItemAt(v, explicit, n - 1));
      ItemsInOrder(v, explicit, n - 1);
      assert Items(v, explicit, n) == before + last;
    }
  }

  /** The extractor's items are exactly the listed ones, in the order of their lines. */
  lemma {:induction false} ExtractedIs(lines: seq<string>)
    ensures forall item :: item in Extracted(lines) <==> Listed(lines, item)
    ensures forall j, k :: 0 <= j < k < |Extracted(lines)| ==> Extracted(lines)[j].line < Extracted(lines)[k].line
  {
    var v := ViewOf(lines);
    ItemsInOrder(v, HasLedger(v), |lines|);
    forall item: Item ensures item in Extracted(lines) <==> Listed(lines, item) {
      ItemsAre(v, HasLedger(v), |lines|, item);
      if item.line < |lines| {
        ItemIff(lines, item);
      }
    }
  }
}
