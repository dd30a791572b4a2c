/** The checklist a node prints before a major upgrade, read and classified (packages/shared/src/pve8to9.ts). */
module UpgradeChecklist {
  import opened Prelude

  datatype Level = Pass | Info | Skip | Notice | Warn | Fail | Unknown

  /** A finding: its first line without the prefix, the lines beneath it, and all of it verbatim. */
  datatype Line = Line(level: Level, section: Option<string>, message: string, detail: seq<string>, raw: string)

  /** What the patterns say of a line, each on its own. */
  datatype Patterns = Patterns(
    blank: string -> bool,
    header: string -> Option<string>,
    total: string -> Option<(string, nat)>,
    trailer: string -> bool,
    progress: string -> bool,
    finding: string -> Option<(Level, string)>,
    trim: string -> string)

  datatype Kind =
    | Blank | Header(title: string) | Total(name: string, count: nat) | Trailer | Progress
    | Finding(level: Level, message: string) | Other

  /** The first pattern that fits decides; a total is one only in the summary. */
  function KindOf(p: Patterns, section: Option<string>, line: string): Kind {
    if p.blank(line) then Blank
    else if p.header(line).Some? then Header(p.header(line).value)
    else if p.total(line).Some? && section == Some("SUMMARY") then Total(p.total(line).value.0, p.total(line).value.1)
    else if p.trailer(line) then Trailer
    else if p.progress(line) then Progress
    else if p.finding(line).Some? then Finding(p.finding(line).value.0, p.finding(line).value.1)
    else Other
  }

  /** What a line is, kind by kind: its own pattern fits, and none that comes before. */
  lemma KindOfIs(p: Patterns, section: Option<string>, line: string)
    ensures KindOf(p, section, line) == Blank <==> p.blank(line)
    ensures forall title :: KindOf(p, section, line) == Header(title) <==>
      !p.blank(line) && p.header(line) == Some(title)
    ensures forall name, count: nat :: KindOf(p, section, line) == Total(name, count) <==>
      !p.blank(line) && p.header(line).None? && p.total(line) == Some((name, count)) && section == Some("SUMMARY")
    ensures var placed := p.blank(line) || p.header(line).Some? || (p.total(line).Some? && section == Some("SUMMARY"));
            && (KindOf(p, section, line) == Trailer <==> !placed && p.trailer(line))
            && (KindOf(p, section, line) == Progress <==> !placed && !p.trailer(line) && p.progress(line))
            && (forall level, message :: KindOf(p, section, line) == Finding(level, message) <==>
                !placed && !p.trailer(line) && !p.progress(line) && p.finding(line) == Some((level, message)))
  {
  }

  /** A line, and what it is where it stands. */
  datatype Read = Read(text: string, kind: Kind)

  // ---------------------------------------------------------------------------
  // What each line is
  // ---------------------------------------------------------------------------

  /** The last header above line n. */
  function SectionAt(lines: seq<Read>, n: nat): Option<string>
    requires n <= |lines|
  {
    if n == 0 then None else if lines[n - 1].kind.Header? then Some(lines[n - 1].kind.title)
    else SectionAt(lines, n - 1)
  }

  /** Each line with what it is under the header above it. */
  function Reading(p: Patterns, lines: seq<string>): (r: seq<Read>)
    ensures |r| == |lines|
  {
    if lines == [] then []
    else
      var last := |lines| - 1;
      var above := Reading(p, lines[..last]);
      above + [Read(lines[last], KindOf(p, SectionAt(above, last), lines[last]))]
  }

  lemma {:induction false} SectionOfPrefix(lines: seq<Read>, more: seq<Read>, n: nat)
    requires n <= |lines| <= |more| && more[..|lines|] == lines
    ensures SectionAt(more, n) == SectionAt(lines, n)
  {
    if n > 0 {
      assert more[n - 1] == lines[n - 1];
      SectionOfPrefix(lines, more, n - 1);
    }
  }

  /** A line is what the patterns say it is under the last header above it. */
  lemma {:induction false} ReadingIs(p: Patterns, lines: seq<string>, n: nat)
    requires n < |lines|
    ensures Reading(p, lines)[n] == Read(lines[n], KindOf(p, SectionAt(Reading(p, lines), n), lines[n]))
  {
    var last := |lines| - 1;
    var above := Reading(p, lines[..last]);
    SectionOfPrefix(above, Reading(p, lines), n);
    if n < last {
      ReadingIs(p, lines[..last], n);
      SectionOfPrefix(above, Reading(p, lines), n);
    }
  }

  predicate Closes(kind: Kind) {
    kind.Header? || kind.Total? || kind.Progress?
  }

  /** A finding is open above line n. */
  predicate OpenAt(lines: seq<Read>, n: nat)
    requires n <= |lines|
  {
    n > 0 && (lines[n - 1].kind.Finding? || (!Closes(lines[n - 1].kind) && OpenAt(lines, n - 1)))
  }

  predicate Kept(lines: seq<Read>, n: nat)
    requires n < |lines|
  {
    var kind := lines[n].kind;
    kind.Finding? || kind.Other?
  }

  /** A line that begins an entry of its own: a finding, or one that cannot be placed. */
  predicate Starts(lines: seq<Read>, n: nat)
    requires n < |lines|
  {
    var kind := lines[n].kind;
    kind.Finding? || (kind.Other? && !OpenAt(lines, n))
  }

  /** The section is the title of the nearest header above, if there is one. */
  lemma {:induction false} SectionIsLastHeader(lines: seq<Read>, n: nat)
    requires n <= |lines|
    ensures SectionAt(lines, n) == None <==> forall i :: 0 <= i < n ==> !lines[i].kind.Header?
    ensures SectionAt(lines, n).Some? ==>
      exists i :: 0 <= i < n && lines[i].kind == Header(SectionAt(lines, n).value)
                  && forall j :: i < j < n ==> !lines[j].kind.Header?
  {
    if n > 0 {
      SectionIsLastHeader(lines, n - 1);
      if lines[n - 1].kind.Header? {
        assert lines[n - 1].kind == Header(SectionAt(lines, n).value);
      } else if SectionAt(lines, n).Some? {
        var i :| 0 <= i < n - 1 && lines[i].kind == Header(SectionAt(lines, n).value)
                 && forall j :: i < j < n - 1 ==> !lines[j].kind.Header?;
      }
    }
  }

  /** A finding is open exactly when one stands above with no header, total or progress line since. */
  lemma {:induction false} OpenIff(lines: seq<Read>, n: nat)
    requires n <= |lines|
    ensures OpenAt(lines, n) <==>
      exists i :: 0 <= i < n && lines[i].kind.Finding? && forall j :: i < j < n ==> !Closes(lines[j].kind)
  {
    if n > 0 {
      OpenIff(lines, n - 1);
      if OpenAt(lines, n) && !lines[n - 1].kind.Finding? {
        var i :| 0 <= i < n - 1 && lines[i].kind.Finding? && forall j :: i < j < n - 1 ==> !Closes(lines[j].kind);
        assert forall j :: i < j < n ==> !Closes(lines[j].kind);
      }
    }
  }

  // ---------------------------------------------------------------------------
  // What is to be parsed, from where each entry starts
  // ---------------------------------------------------------------------------

  function KeptIn(lines: seq<Read>, first: nat, end: nat): seq<string>
    requires end <= |lines|
    decreases end
  {
    if end <= first then []
    else if Kept(lines, end - 1) then KeptIn(lines, first, end - 1) + [lines[end - 1].text]
    else KeptIn(lines, first, end - 1)
  }

  function StartsIn(lines: seq<Read>, end: nat): (r: seq<nat>)
    requires end <= |lines|
    ensures forall k :: 0 <= k < |r| ==> r[k] < end
  {
    if end == 0 then []
    else if Starts(lines, end - 1) then StartsIn(lines, end - 1) + [end - 1]
    else StartsIn(lines, end - 1)
  }

  function Join(parts: seq<string>): string {
    if parts == [] then ""
    else if |parts| == 1 then parts[0]
    else Join(parts[..|parts| - 1]) + "\n" + parts[|parts| - 1]
  }

  function TrimAll(p: Patterns, parts: seq<string>): (r: seq<string>)
    ensures |r| == |parts|
  {
    seq(|parts|, k requires 0 <= k < |parts| => p.trim(parts[k]))
  }

  /** The entry that starts at line n and goes on up to `end`: everything kept there is in it. */
  function Entry(p: Patterns, lines: seq<Read>, n: nat, end: nat): Line
    requires n < end <= |lines|
  {
    var kind := lines[n].kind;
    Line(if kind.Finding? then kind.level else Unknown,
         SectionAt(lines, n),
         if kind.Finding? then kind.message else p.trim(lines[n].text),
         TrimAll(p, KeptIn(lines, n + 1, end)),
         Join(KeptIn(lines, n, end)))
  }

  /** Where the k-th entry ends: where the next one starts, or at the end. */
  function EndOf(starts: seq<nat>, k: nat, end: nat): nat
    requires k < |starts|
  {
    if k + 1 < |starts| && starts[k] < starts[k + 1] then starts[k + 1] else end
  }

  /** One entry for each start, up to the next. */
  ghost predicate Parsed(p: Patterns, lines: seq<Read>, end: nat, entries: seq<Line>)
    requires end <= |lines|
  {
    var starts := StartsIn(lines, end);
    |entries| == |starts| && forall k :: 0 <= k < |starts| ==> EntryIs(p, lines, starts, k, end, entries[k])
  }

  ghost predicate EntryIs(p: Patterns, lines: seq<Read>, starts: seq<nat>, k: nat, end: nat, entry: Line)
    requires end <= |lines| && k < |starts| && starts[k] < end
  {
    starts[k] < EndOf(starts, k, end) <= |lines| && entry == Entry(p, lines, starts[k], EndOf(starts, k, end))
  }

  lemma {:induction false} StartsAscend(lines: seq<Read>, end: nat, j: nat, k: nat)
    requires end <= |lines| && j < k < |StartsIn(lines, end)|
    ensures StartsIn(lines, end)[j] < StartsIn(lines, end)[k]
  {
    if k < |StartsIn(lines, end - 1)| {
      StartsAscend(lines, end - 1, j, k);
    }
  }

  /** The starts are the lines that start an entry, in order. */
  lemma {:induction false} StartsIff(lines: seq<Read>, end: nat, n: nat)
    requires end <= |lines|
    ensures n in StartsIn(lines, end) <==> n < end && Starts(lines, n)
  {
    if end > 0 {
      StartsIff(lines, end - 1, n);
    }
  }

  /** A line that is not kept changes nothing. */
  lemma SkippedLine(p: Patterns, lines: seq<Read>, n: nat, entries: seq<Line>)
    requires n < |lines| && Parsed(p, lines, n, entries) && !Kept(lines, n)
    ensures Parsed(p, lines, n + 1, entries)
  {
    var starts := StartsIn(lines, n);
    forall k | 0 <= k < |starts| ensures EntryIs(p, lines, starts, k, n + 1, entries[k]) {
      assert EntryIs(p, lines, starts, k, n, entries[k]);
      LastEntryOn(p, lines, starts[k], n);
    }
  }

  lemma LastEntryOn(p: Patterns, lines: seq<Read>, start: nat, n: nat)
    requires start < n < |lines|
    ensures !Kept(lines, n) ==> Entry(p, lines, start, n + 1) == Entry(p, lines, start, n)
  {
  }

  lemma NewEntry(p: Patterns, lines: seq<Read>, n: nat, entries: seq<Line>)
    requires n < |lines| && Parsed(p, lines, n, entries) && Starts(lines, n)
    ensures Parsed(p, lines, n + 1, entries + [Entry(p, lines, n, n + 1)])
  {
    var before, starts := StartsIn(lines, n), StartsIn(lines, n + 1);
    var after := entries + [Entry(p, lines, n, n + 1)];
    forall k | 0 <= k < |starts| ensures EntryIs(p, lines, starts, k, n + 1, after[k]) {
      if k < |before| {
        assert EntryIs(p, lines, before, k, n, entries[k]);
        if k + 1 < |before| {
          StartsAscend(lines, n, k, k + 1);
        }
        assert EndOf(starts, k, n + 1) == EndOf(before, k, n);
      }
    }
  }

  /** Above an open finding, all since is in the last entry. */
  lemma {:induction false} OpenHasEntry(lines: seq<Read>, n: nat)
    requires n <= |lines| && OpenAt(lines, n)
    ensures StartsIn(lines, n) != []
    ensures var starts := StartsIn(lines, n); lines[starts[|starts| - 1]].kind.Finding?
  {
    if !lines[n - 1].kind.Finding? {
      OpenHasEntry(lines, n - 1);
    }
  }

  function Extended(p: Patterns, entry: Line, line: string): Line {
    entry.(detail := entry.detail + [p.trim(line)], raw := entry.raw + "\n" + line)
  }

  lemma LastEntryExtended(p: Patterns, lines: seq<Read>, start: nat, n: nat)
    requires start < n < |lines| && Kept(lines, n) && Kept(lines, start)
    ensures Entry(p, lines, start, n + 1) == Extended(p, Entry(p, lines, start, n), lines[n].text)
  {
    var detail, all := KeptIn(lines, start + 1, n), KeptIn(lines, start, n);
    assert TrimAll(p, detail + [lines[n].text]) == TrimAll(p, detail) + [p.trim(lines[n].text)];
    KeptStart(lines, start, n);
    assert (all + [lines[n].text])[..|all|] == all;
  }

  lemma {:induction false} KeptStart(lines: seq<Read>, start: nat, end: nat)
    requires start < end <= |lines| && Kept(lines, start)
    ensures KeptIn(lines, start, end) != []
  {
    if start + 1 < end {
      KeptStart(lines, start, end - 1);
    }
  }

  lemma OneMoreOfLast(p: Patterns, lines: seq<Read>, n: nat, entries: seq<Line>)
    requires n < |lines| && Parsed(p, lines, n, entries) && Kept(lines, n) && !Starts(lines, n)
    ensures entries != []
    ensures Parsed(p, lines, n + 1, entries[|entries| - 1 := Extended(p, entries[|entries| - 1], lines[n].text)])
  {
    OpenHasEntry(lines, n);
    var starts, last := StartsIn(lines, n), |entries| - 1;
    var after := entries[last := Extended(p, entries[last], lines[n].text)];
    assert StartsIn(lines, n + 1) == starts;
    forall k | 0 <= k < |starts| ensures EntryIs(p, lines, starts, k, n + 1, after[k]) {
      assert EntryIs(p, lines, starts, k, n, entries[k]);
      if k == last {
        LastEntryExtended(p, lines, starts[k], n);
      } else {
        StartsAscend(lines, n, k, k + 1);
        assert EndOf(starts, k, n + 1) == EndOf(starts, k, n);
      }
    }
  }

  // ---------------------------------------------------------------------------
  // The parser
  // ---------------------------------------------------------------------------

  /** The totals of the summary above line n, each as it was last given. */
  function TotalsAt(lines: seq<Read>, n: nat): map<string, nat>
    requires n <= |lines|
  {
    if n == 0 then map[]
    else match lines[n - 1].kind
      case Total(name, count) => TotalsAt(lines, n - 1)[name := count]
      case _ => TotalsAt(lines, n - 1)
  }

  datatype Summary = Summary(total: nat, passed: nat, skipped: nat, warnings: nat, failures: nat)

  function GetOrZero(totals: map<string, nat>, name: string): nat {
    if name in totals then totals[name] else 0
  }

  /** There is a summary when it says how many there are in all. */
  function SummaryOf(totals: map<string, nat>): Option<Summary> {
    if "total" !in totals then None
    else Some(Summary(totals["total"], GetOrZero(totals, "passed"), GetOrZero(totals, "skipped"),
                      GetOrZero(totals, "warnings"), GetOrZero(totals, "failures")))
  }

  predicate IsTotalOf(line: Read, name: string) {
    line.kind.Total? && line.kind.name == name
  }

  /** Line `i` is the last of the first n to give a total of this name. */
  ghost predicate LastTotal(lines: seq<Read>, n: nat, name: string, i: nat) {
    i < n <= |lines| && IsTotalOf(lines[i], name) && forall j :: i < j < n ==> !IsTotalOf(lines[j], name)
  }

  lemma {:induction false} TotalsAre(lines: seq<Read>, n: nat, name: string) returns (last: Option<nat>)
    requires n <= |lines|
    ensures match last
            case None => name !in TotalsAt(lines, n) && forall i :: 0 <= i < n ==> !IsTotalOf(lines[i], name)
            case Some(i) =>
              && LastTotal(lines, n, name, i)
              && name in TotalsAt(lines, n) && TotalsAt(lines, n)[name] == lines[i].kind.count
  {
    last := None;
    if n > 0 {
      last := TotalsAre(lines, n - 1, name);
      if IsTotalOf(lines[n - 1], name) {
        last := Some(n - 1);
      }
    }
  }

  /** The count is the one last given for the name, or none when none is. */
  ghost predicate IsCount(lines: seq<Read>, name: string, count: nat) {
    || (exists i: nat :: LastTotal(lines, |lines|, name, i) && count == lines[i].kind.count)
    || ((forall i :: 0 <= i < |lines| ==> !IsTotalOf(lines[i], name)) && count == 0)
  }

  lemma CountIs(lines: seq<Read>, name: string)
    ensures IsCount(lines, name, GetOrZero(TotalsAt(lines, |lines|), name))
  {
    var last := TotalsAre(lines, |lines|, name);
  }

  /**
   * There is a summary exactly when a total in all is given; its counts are the last ones given, none where none is.
   */
  lemma SummarySays(lines: seq<Read>)
    ensures var summary := SummaryOf(TotalsAt(lines, |lines|));
            && (summary.Some? <==> exists i :: 0 <= i < |lines| && IsTotalOf(lines[i], "total"))
            && (summary.Some? ==>
                && IsCount(lines, "total", summary.value.total) && IsCount(lines, "passed", summary.value.passed)
                && IsCount(lines, "skipped", summary.value.skipped)
                && IsCount(lines, "warnings", summary.value.warnings)
                && IsCount(lines, "failures", summary.value.failures))
  {
    CountIs(lines, "total");
    CountIs(lines, "passed");
    CountIs(lines, "skipped");
    CountIs(lines, "warnings");
    CountIs(lines, "failures");
    SummaryGiven(lines);
  }

  lemma SummaryGiven(lines: seq<Read>)
    ensures SummaryOf(TotalsAt(lines, |lines|)).Some? <==> exists i :: 0 <= i < |lines| && IsTotalOf(lines[i], "total")
  {
    var last := TotalsAre(lines, |lines|, "total");
  }

  /** The state of the loop above line n; the open finding, if any, is the last entry. */
  ghost predicate Parsing(p: Patterns, lines: seq<Read>, n: nat, entries: seq<Line>, section: Option<string>,
                          open: bool)
    requires n <= |lines|
  {
    && Parsed(p, lines, n, entries)
    && section == SectionAt(lines, n)
    && open == OpenAt(lines, n)
  }

  lemma ParsingOn(p: Patterns, lines: seq<Read>, n: nat, entries: seq<Line>, section: Option<string>, open: bool)
    requires n < |lines| && Parsing(p, lines, n, entries, section, open)
    ensures var kind := lines[n].kind;
            match kind
            case Header(title) => Parsing(p, lines, n + 1, entries, Some(title), false)
            case Blank => Parsing(p, lines, n + 1, entries, section, open)
            case Trailer => Parsing(p, lines, n + 1, entries, section, open)
            case Total(_, _) => Parsing(p, lines, n + 1, entries, section, false)
            case Progress => Parsing(p, lines, n + 1, entries, section, false)
            case Finding(level, message) =>
              Parsing(p, lines, n + 1, entries + [Line(level, section, message, [], lines[n].text)], section, true)
            case Other =>
              if open then
                && entries != []
                && Parsing(p, lines, n + 1,
                           entries[|entries| - 1 := Extended(p, entries[|entries| - 1], lines[n].text)], section, true)
              else
                Parsing(p, lines, n + 1, entries + [Line(Unknown, section, p.trim(lines[n].text), [], lines[n].text)],
                        section, false)
  {
    if !Kept(lines, n) {
      SkippedLine(p, lines, n, entries);
    } else if Starts(lines, n) {
      NewEntry(p, lines, n, entries);
      FirstOfEntry(p, lines, n);
    } else {
      OneMoreOfLast(p, lines, n, entries);
    }
  }

  lemma FirstOfEntry(p: Patterns, lines: seq<Read>, n: nat)
    requires n < |lines| && Kept(lines, n)
    ensures KeptIn(lines, n, n + 1) == [lines[n].text] && KeptIn(lines, n + 1, n + 1) == []
    ensures Entry(p, lines, n, n + 1).detail == [] && Entry(p, lines, n, n + 1).raw == lines[n].text
  {
    assert KeptIn(lines, n, n) == [];
  }

  /** Reads the output, line by line; the lines come without colours and without white space at their end. */
  method ParsePve8to9(p: Patterns, lines: seq<string>) returns (entries: seq<Line>, summary: Option<Summary>)
    ensures Parsed(p, Reading(p, lines), |lines|, entries)
    ensures summary == SummaryOf(TotalsAt(Reading(p, lines), |lines|))
  {
    entries := [];
    var totals: map<string, nat> := map[];
    var section, open := None, false;
    ghost var sheet := Reading(p, lines);
    for n := 0 to |lines|
      invariant Parsing(p, sheet, n, entries, section, open)
      invariant totals == TotalsAt(sheet, n)
    {
      ReadingIs(p, lines, n);
      ParsingOn(p, sheet, n, entries, section, open);
      var line := lines[n];
      match KindOf(p, section, line)
      case Blank =>
      case Header(title) =>
        section, open := Some(title), false;
      case Total(name, count) =>
        totals, open := totals[name := count], false;
      case Trailer =>
      case Progress =>
        open := false;
      case Finding(level, message) =>
        entries, open := entries + [Line(level, section, message, [], line)], true;
      case Other =>
        if open {
          var last := |entries| - 1;
          entries := entries[last := Extended(p, entries[last], line)];
        } else {
          entries := entries + [Line(Unknown, section, p.trim(line), [], line)];
        }
    }
    summary := SummaryOf(totals);
  }

  // ---------------------------------------------------------------------------
  // No line is lost
  // ---------------------------------------------------------------------------

  function Raws(entries: seq<Line>): (r: seq<string>)
    ensures |r| == |entries|
  {
    seq(|entries|, k requires 0 <= k < |entries| => entries[k].raw)
  }

  lemma JoinMore(parts: seq<string>, x: string)
    requires parts != []
    ensures Join(parts + [x]) == Join(parts) + "\n" + x
  {
    assert (parts + [x])[..|parts|] == parts;
  }

  lemma JoinLonger(parts: seq<string>, x: string)
    requires parts != []
    ensures var last := |parts| - 1; Join(parts[last := parts[last] + "\n" + x]) == Join(parts) + "\n" + x
  {
    var last := |parts| - 1;
    var longer := parts[last] + "\n" + x;
    var after := parts[last := longer];
    assert after[..last] == parts[..last] && after[last] == longer;
    if last > 0 {
      var init := Join(parts[..last]);
      assert Join(after) == init + "\n" + longer;
      assert Join(parts) == init + "\n" + parts[last];
      assert init + "\n" + longer == init + "\n" + parts[last] + "\n" + x;
    }
  }

  lemma ParsedOnce(p: Patterns, lines: seq<Read>, n: nat, a: seq<Line>, b: seq<Line>)
    requires n <= |lines| && Parsed(p, lines, n, a) && Parsed(p, lines, n, b)
    ensures a == b
  {
    var starts := StartsIn(lines, n);
    forall k | 0 <= k < |starts| ensures a[k] == b[k] {
      assert EntryIs(p, lines, starts, k, n, a[k]) && EntryIs(p, lines, starts, k, n, b[k]);
    }
  }

  ghost predicate SameText(p: Patterns, lines: seq<Read>, n: nat, entries: seq<Line>)
    requires n <= |lines|
  {
    && Join(Raws(entries)) == Join(KeptIn(lines, 0, n))
    && (entries == [] <==> KeptIn(lines, 0, n) == [])
  }

  lemma SameTextStarted(kept: seq<string>, entries: seq<Line>, entry: Line)
    requires Join(Raws(entries)) == Join(kept) && (entries == [] <==> kept == [])
    ensures Join(Raws(entries + [entry])) == Join(kept + [entry.raw])
  {
    assert Raws(entries + [entry]) == Raws(entries) + [entry.raw];
    if entries == [] {
      assert Raws(entries) == kept;
    } else {
      JoinMore(Raws(entries), entry.raw);
      JoinMore(kept, entry.raw);
    }
  }

  lemma SameTextExtended(p: Patterns, kept: seq<string>, entries: seq<Line>, text: string)
    requires Join(Raws(entries)) == Join(kept) && entries != [] && kept != []
    ensures var last := |entries| - 1;
            Join(Raws(entries[last := Extended(p, entries[last], text)])) == Join(kept + [text])
  {
    var last := |entries| - 1;
    var after := entries[last := Extended(p, entries[last], text)];
    assert Raws(after) == Raws(entries)[last := Raws(entries)[last] + "\n" + text];
    JoinLonger(Raws(entries), text);
    JoinMore(kept, text);
  }

  lemma SameTextOn(p: Patterns, lines: seq<Read>, n: nat, entries: seq<Line>) returns (after: seq<Line>)
    requires n < |lines| && Parsed(p, lines, n, entries) && SameText(p, lines, n, entries)
    ensures Parsed(p, lines, n + 1, after) && SameText(p, lines, n + 1, after)
  {
    var kept := KeptIn(lines, 0, n);
    if !Kept(lines, n) {
      SkippedLine(p, lines, n, entries);
      after := entries;
    } else if Starts(lines, n) {
      var entry := Entry(p, lines, n, n + 1);
      NewEntry(p, lines, n, entries);
      FirstOfEntry(p, lines, n);
      after := entries + [entry];
      SameTextStarted(kept, entries, entry);
    } else {
      OneMoreOfLast(p, lines, n, entries);
      var last := |entries| - 1;
      after := entries[last := Extended(p, entries[last], lines[n].text)];
      SameTextExtended(p, kept, entries, lines[n].text);
    }
  }

  lemma {:induction false} SomeSameText(p: Patterns, lines: seq<Read>, n: nat) returns (entries: seq<Line>)
    requires n <= |lines|
    ensures Parsed(p, lines, n, entries) && SameText(p, lines, n, entries)
  {
    entries := [];
    if n > 0 {
      entries := SomeSameText(p, lines, n - 1);
      entries := SameTextOn(p, lines, n - 1, entries);
    }
  }

  /** Putting the entries' texts together gives all that was kept, in order, and nothing else. */
  lemma NoLineIsLost(p: Patterns, lines: seq<Read>, entries: seq<Line>)
    requires Parsed(p, lines, |lines|, entries)
    ensures Join(Raws(entries)) == Join(KeptIn(lines, 0, |lines|))
  {
    var others := SomeSameText(p, lines, |lines|);
    ParsedOnce(p, lines, |lines|, entries, others);
  }

  // ---------------------------------------------------------------------------
  // What each entry means for the upgrade
  // ---------------------------------------------------------------------------

  datatype Severity = PassSeverity | InfoSeverity | WarningSeverity | BlockerSeverity | UnknownSeverity

  /** What is known of a finding by its text; `params` reads facts from the match. */
  datatype Rule = Rule(
    fits: string -> bool, key: string, severity: Option<Severity>, remediation: Option<string>,
    params: Option<string -> map<string, string>>)

  datatype Check = Check(key: string, severity: Severity, title: string, remediation: Option<string>,
                         params: Option<map<string, string>>)

  function LevelSeverity(level: Level): Severity {
    match level
    case Pass => PassSeverity
    case Info => InfoSeverity
    case Skip => InfoSeverity
    case Notice => InfoSeverity
    case Warn => WarningSeverity
    case Fail => BlockerSeverity
    case Unknown => UnknownSeverity
  }

  /** The check for a rule that fits: passed when it passes, else as the rule says, or else as the level does. */
  function RuleCheck(rule: Rule, entry: Line): Check {
    var severity :=
      if entry.level == Pass then PassSeverity
      else if rule.severity.Some? then rule.severity.value
      else LevelSeverity(entry.level);
    Check(rule.key, severity, entry.message,
          if severity == WarningSeverity || severity == BlockerSeverity then rule.remediation else None,
          if rule.params.Some? then Some(rule.params.value(entry.message)) else None)
  }

  predicate IsFirstFit(rules: seq<Rule>, message: string, k: nat)
    requires k < |rules|
  {
    rules[k].fits(message) && forall j :: 0 <= j < k ==> !rules[j].fits(message)
  }

  predicate NoneFits(rules: seq<Rule>, message: string) {
    forall k :: 0 <= k < |rules| ==> !rules[k].fits(message)
  }

  /** An entry as a check, or nothing; `key` makes a key of a level and a text. */
  method ClassifyPve8to9(rules: seq<Rule>, key: (Level, string) -> string, entry: Line) returns (check: Option<Check>)
    ensures IsClassified(rules, key, entry, check)
  {
    if entry.level == Unknown {
      return Some(Check(key(Unknown, entry.message), UnknownSeverity, entry.message, None, None));
    }
    for k := 0 to |rules|
      invariant forall j :: 0 <= j < k ==> !rules[j].fits(entry.message)
    {
      if rules[k].fits(entry.message) {
        assert IsFirstFit(rules, entry.message, k);
        return Some(RuleCheck(rules[k], entry));
      }
    }
    if entry.level == Info || entry.level == Skip || entry.level == Pass {
      return None;
    }
    check := Some(Check(key(entry.level, entry.message), LevelSeverity(entry.level), entry.message, None, None));
  }

  /**
   * An unplaced line is unknown; the first rule that fits decides; else a notice, warning or failure keeps its level.
   */
  ghost predicate IsClassified(rules: seq<Rule>, key: (Level, string) -> string, entry: Line, check: Option<Check>) {
    if entry.level == Unknown
      then check == Some(Check(key(Unknown, entry.message), UnknownSeverity, entry.message, None, None))
    else if NoneFits(rules, entry.message) then
      check == if entry.level == Info || entry.level == Skip || entry.level == Pass then None
               else Some(Check(key(entry.level, entry.message), LevelSeverity(entry.level), entry.message, None, None))
    else exists k ::
      0 <= k < |rules| && IsFirstFit(rules, entry.message, k) && check == Some(RuleCheck(rules[k], entry))
  }

  /** The rules leave the severity to the level: none fits, or the first that does has none of its own. */
  ghost predicate LeftToLevel(rules: seq<Rule>, message: string) {
    forall k :: 0 <= k < |rules| && IsFirstFit(rules, message, k) ==> rules[k].severity == None
  }

  /**
   * A failure is a blocker and a warning a warning unless a rule says otherwise; what passes passes whatever a rule
   * says; and a remedy is given only for a warning or a blocker, then the one of the first rule that fits.
   */
  lemma SeverityByLevel(rules: seq<Rule>, key: (Level, string) -> string, entry: Line, check: Option<Check>)
    requires IsClassified(rules, key, entry, check) && check.Some?
    ensures check.value.title == entry.message
    ensures entry.level == Pass ==> check.value.severity == PassSeverity
    ensures LeftToLevel(rules, entry.message) ==>
      match entry.level
      case Fail => check.value.severity == BlockerSeverity
      case Warn => check.value.severity == WarningSeverity
      case Pass => check.value.severity == PassSeverity
      case Unknown => check.value.severity == UnknownSeverity
      case _ => check.value.severity == InfoSeverity
    ensures check.value.remediation.Some? ==>
      check.value.severity == WarningSeverity || check.value.severity == BlockerSeverity
    ensures forall k :: 0 <= k < |rules| && IsFirstFit(rules, entry.message, k) && entry.level != Unknown ==>
      && check.value.key == rules[k].key
      && (check.value.severity == WarningSeverity || check.value.severity == BlockerSeverity ==>
          check.value.remediation == rules[k].remediation)
  {
  }

  /** A failure or warning that no rule knows is shown as what it is. */
  lemma UnknownFindingKeepsLevel(rules: seq<Rule>, key: (Level, string) -> string, entry: Line, check: Option<Check>)
    requires IsClassified(rules, key, entry, check) && NoneFits(rules, entry.message)
    ensures entry.level == Fail ==> check.Some? && check.value.severity == BlockerSeverity
    ensures entry.level == Warn ==> check.Some? && check.value.severity == WarningSeverity
    ensures entry.level == Notice ==> check.Some? && check.value.severity == InfoSeverity
  {
  }

  /** Nothing stops being shown: only what passes or informs, and fits no rule, is no check. */
  lemma NothingIffHarmless(rules: seq<Rule>, key: (Level, string) -> string, entry: Line, check: Option<Check>)
    requires IsClassified(rules, key, entry, check)
    ensures check == None
      <==> (entry.level == Info || entry.level == Skip || entry.level == Pass) && NoneFits(rules, entry.message)
    ensures entry.level == Unknown ==> check.Some? && check.value.severity == UnknownSeverity
  {
  }

  /** A line that is kept with no finding open above it is a check of its own, and an unknown one. */
  lemma {:induction false} UnplacedLineStopsUpgrade(p: Patterns, rules: seq<Rule>, key: (Level, string) -> string,
                                                    lines: seq<Read>, entries: seq<Line>, n: nat)
    requires Parsed(p, lines, |lines|, entries)
    requires n < |lines| && lines[n].kind.Other? && !OpenAt(lines, n)
    ensures exists k :: 0 <= k < |entries| && entries[k].level == Unknown && entries[k].message == p.trim(lines[n].text)
                        && entries[k].section == SectionAt(lines, n)
                        && forall check :: IsClassified(rules, key, entries[k], check) ==>
                             check.Some? && check.value.severity == UnknownSeverity
                               && check.value.title == p.trim(lines[n].text)
  {
    var k := EntryOf(p, lines, entries, n);
  }

  /**
   * What becomes of a finding: nothing only if it is harmless; else its text, a failure that no rule knows a blocker.
   */
  ghost predicate ShownAs(rules: seq<Rule>, level: Level, message: string, check: Option<Check>) {
    && (check == None ==> level == Info || level == Skip || level == Pass)
    && (check.Some? ==> check.value.title == message)
    && (NoneFits(rules, message) && level == Fail ==> check.Some? && check.value.severity == BlockerSeverity)
    && (NoneFits(rules, message) && level == Warn ==> check.Some? && check.value.severity == WarningSeverity)
  }

  /** Every finding is an entry with its level, its text and its section; a warning or failure is a check. */
  lemma {:induction false} FindingIsShown(p: Patterns, rules: seq<Rule>, key: (Level, string) -> string,
                                          lines: seq<Read>, entries: seq<Line>, n: nat)
    requires Parsed(p, lines, |lines|, entries)
    requires n < |lines| && lines[n].kind.Finding?
    ensures exists k :: 0 <= k < |entries| && entries[k].level == lines[n].kind.level
                        && entries[k].message == lines[n].kind.message && entries[k].section == SectionAt(lines, n)
                        && forall check :: IsClassified(rules, key, entries[k], check) ==>
                             ShownAs(rules, lines[n].kind.level, lines[n].kind.message, check)
  {
    var k := EntryOf(p, lines, entries, n);
  }

  lemma EntryOf(p: Patterns, lines: seq<Read>, entries: seq<Line>, n: nat) returns (k: nat)
    requires Parsed(p, lines, |lines|, entries) && n < |lines| && Starts(lines, n)
    ensures k < |entries| && entries[k].section == SectionAt(lines, n)
    ensures lines[n].kind.Finding? ==>
      entries[k].level == lines[n].kind.level && entries[k].message == lines[n].kind.message
    ensures lines[n].kind.Other? ==> entries[k].level == Unknown && entries[k].message == p.trim(lines[n].text)
  {
    StartsIff(lines, |lines|, n);
    var starts := StartsIn(lines, |lines|);
    k :| 0 <= k < |starts| && starts[k] == n;
    assert EntryIs(p, lines, starts, k, |lines|, entries[k]);
  }
}
