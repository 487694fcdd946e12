/** What setValue does to the lines that save prints. */
module IniPrinted {
  import opened ClockErrors
  import opened IniText
  import opened IniParser
  import opened IniInvariant
  import opened IniReload

  function Line(f: string, v: string): string {
    f + "=" + v
  }

  // ---------------------------------------------------------------- one section, place by place

  lemma {:induction false} PrintedFromCursor(s: string, lines: seq<string>, entries: seq<Entry>, i: nat, next: nat, k: nat)
    requires EntriesOk(s, |lines|, entries) && i <= |lines| && CursorAt(entries, i, next)
    requires k < |entries| && i <= entries[k].index
    ensures |PrintFrom(lines, entries, i, next)| == |lines| - i
    ensures PrintFrom(lines, entries, i, next)[entries[k].index - i] == Text(entries[k])
    decreases |lines| - i
  {
    PrintLength(lines, entries, i, next);
    CursorMoves(s, lines, entries, i, next);
    if i < entries[k].index {
      PrintedFromCursor(s, lines, entries, i + 1, Advance(entries, i, next), k);
    } else {
      assert next == k;
    }
  }

  /** A section as it is printed. */
  function Printed(lines: seq<string>, entries: seq<Entry>): seq<string> {
    PrintFrom(lines, entries, 0, 0)
  }

  lemma PrintedEntryAt(s: string, lines: seq<string>, entries: seq<Entry>, k: nat)
    requires EntriesOk(s, |lines|, entries) && k < |entries|
    ensures |Printed(lines, entries)| == |lines| && Printed(lines, entries)[entries[k].index] == Text(entries[k])
  {
    PrintedFromCursor(s, lines, entries, 0, 0, k);
    assert Printed(lines, entries)[entries[k].index - 0] == Text(entries[k]);
  }

  lemma PrintedLineAt(lines: seq<string>, entries: seq<Entry>, i: nat)
    requires i < |lines| && !EntryAt(entries, i)
    ensures |Printed(lines, entries)| == |lines| && Printed(lines, entries)[i] == lines[i]
  {
    PrintedWhereFree(lines, entries, 0, 0, i);
    assert Printed(lines, entries)[i - 0] == lines[i];
  }

  // ---------------------------------------------------------------- a known field

  lemma ChangedAt(s: string, lines: seq<string>, entries: seq<Entry>, k: nat, v: string, i: nat)
    requires EntriesOk(s, |lines|, entries) && k < |entries| && Printable(entries[k].field, v) && i < |lines|
    ensures var changed := entries[k := entries[k].(value := v)];
      && |Printed(lines, changed)| == |Printed(lines, entries)| == |lines|
      && Printed(lines, changed)[i] == if i == entries[k].index then Line(entries[k].field, v) else Printed(lines, entries)[i]
  {
    var changed := entries[k := entries[k].(value := v)];
    assert forall j :: 0 <= j < |entries| ==> changed[j].index == entries[j].index;
    assert EntriesOk(s, |lines|, changed);
    if EntryAt(entries, i) {
      var j :| 0 <= j < |entries| && entries[j].index == i;
      PrintedEntryAt(s, lines, entries, j);
      PrintedEntryAt(s, lines, changed, j);
    } else {
      PrintedLineAt(lines, entries, i);
      PrintedLineAt(lines, changed, i);
    }
  }

  lemma ChangedPrints(s: string, lines: seq<string>, entries: seq<Entry>, k: nat, v: string)
    requires EntriesOk(s, |lines|, entries) && k < |entries| && Printable(entries[k].field, v)
    ensures var changed, i := entries[k := entries[k].(value := v)], entries[k].index;
      && i < |Printed(lines, entries)| && Printed(lines, entries)[i] == Line(entries[k].field, entries[k].value)
      && Printed(lines, changed) == Printed(lines, entries)[i := Line(entries[k].field, v)]
  {
    PrintedEntryAt(s, lines, entries, k);
    ChangedAt(s, lines, entries, k, v, 0);
    var before, after := Printed(lines, entries), Printed(lines, entries[k := entries[k].(value := v)]);
    forall i | 0 <= i < |lines|
      ensures after[i] == if i == entries[k].index then Line(entries[k].field, v) else before[i]
    {
      ChangedAt(s, lines, entries, k, v, i);
    }
  }

  // ---------------------------------------------------------------- a new field

  /** The printed section ends in a blank line exactly if its last line is blank and free. */
  lemma EndsBlank(s: string, lines: seq<string>, entries: seq<Entry>)
    requires EntriesOk(s, |lines|, entries) && CanAdd(lines, entries)
    ensures |Printed(lines, entries)| == |lines|
    ensures PlaceOf(lines, entries) == if Printed(lines, entries)[|lines| - 1] == "" then |lines| - 1 else |lines|
    ensures !EntryAt(entries, PlaceOf(lines, entries))
  {
    var n := |lines|;
    if EntryAt(entries, n - 1) {
      var k :| 0 <= k < |entries| && entries[k].index == n - 1;
      assert k == |entries| - 1;
      PrintedEntryAt(s, lines, entries, k);
      assert |Text(entries[k])| > 0;
    } else {
      PrintedLineAt(lines, entries, n - 1);
      assert entries != [] ==> entries[|entries| - 1].index != n - 1;
    }
  }

  lemma AddedAt(s: string, lines: seq<string>, entries: seq<Entry>, e: Entry, i: nat)
    requires EntriesOk(s, |lines|, entries) && EntriesOk(s, |lines| + 1, entries + [e]) && i <= |lines|
    ensures |Printed(lines, entries)| == |lines| && |Printed(lines + [""], entries + [e])| == |lines| + 1
    ensures Printed(lines + [""], entries + [e])[i]
         == if i == e.index then Text(e) else if i == |lines| then "" else Printed(lines, entries)[i]
  {
    var more, longer := entries + [e], lines + [""];
    PrintLength(lines, entries, 0, 0);
    PrintLength(longer, more, 0, 0);
    if i == e.index {
      PrintedEntryAt(s, longer, more, |entries|);
    } else if EntryAt(entries, i) {
      var k :| 0 <= k < |entries| && entries[k].index == i;
      assert more[k] == entries[k];
      PrintedEntryAt(s, lines, entries, k);
      PrintedEntryAt(s, longer, more, k);
    } else {
      assert !EntryAt(more, i);
      PrintedLineAt(longer, more, i);
      if i < |lines| {
        PrintedLineAt(lines, entries, i);
      }
    }
  }

  lemma AddedPrints(s: string, lines: seq<string>, entries: seq<Entry>, f: string, v: string)
    requires SectionOk(s, lines, entries) && CanAdd(lines, entries) && Printable(f, v) && IndexOf(entries, s, f) == None
    ensures var before, n := Printed(lines, entries), |lines|;
      && |before| == n > 0
      && Printed(lines + [""], entries + [Entry(s, f, PlaceOf(lines, entries), v)])
         == if before[n - 1] == "" then before[..n - 1] + [Line(f, v), ""] else before + [Line(f, v)]
  {
    var e := Entry(s, f, PlaceOf(lines, entries), v);
    EndsBlank(s, lines, entries);
    AddedEntry(s, lines, entries, f, v);
    var before, after, n := Printed(lines, entries), Printed(lines + [""], entries + [e]), |lines|;
    AddedAt(s, lines, entries, e, 0);
    forall i | 0 <= i <= n
      ensures after[i] == if i == e.index then Line(f, v) else if i == n then "" else before[i]
    {
      AddedAt(s, lines, entries, e, i);
    }
  }

  // ---------------------------------------------------------------- a new entry list

  lemma ListedPrints(lines: seq<string>, h: string, e: Entry)
    requires |lines| <= 1 && e.index == 1
    ensures Printed(lines + [h, ""], [e]) == if lines == [] then [h, Text(e)] else lines + [Text(e), ""]
  {
    var es, longer := [e], lines + [h, ""];
    assert !Hit(es, 0, 0) && Hit(es, 1, 0);
    PrintedRest(longer, es, 2);
    assert PrintFrom(longer, es, 1, 0) == [Text(e)] + longer[2..];
    assert Printed(longer, es) == [longer[0]] + ([Text(e)] + longer[2..]);
  }

  lemma {:induction false} PrintedRest(lines: seq<string>, entries: seq<Entry>, i: nat)
    requires i <= |lines|
    ensures PrintFrom(lines, entries, i, |entries|) == lines[i..]
    decreases |lines| - i
  {
    if i < |lines| {
      PrintedRest(lines, entries, i + 1);
    }
  }

  // ---------------------------------------------------------------- the theorem

  /** What the printed section becomes: a new section is its header and the entry; a section that
      was its header alone gets the entry and a blank line; a known field changes its own line and
      no other; a new field takes over a blank last line, which then follows it, or else comes
      behind the last line. */
  ghost predicate PrintsAs(ini: Ini, e: Edit, before: seq<string>, after: seq<string>) {
    var s, n, line := e.section, |before|, Line(e.field, e.value);
    if s !in ini.data then after == if before == [] then [Header(s), line] else before + [line, ""]
    else
      match Lookup(ini, s, e.field)
      case Some(was) => exists i :: 0 <= i < n && before[i] == Line(e.field, was) && after == before[i := line]
      case None => n > 0 && after == if before[n - 1] == "" then before[..n - 1] + [line, ""] else before + [line]
  }

  lemma SetKnownPrints(ini: Ini, e: Edit)
    requires EditOk(e) && CanSet(ini, e.section, e.field) && e.section in ini.data
    requires SectionOk(e.section, ini.Lines(e.section), ini.Entries(e.section))
    ensures PrintsAs(ini, e, PrintSection(ini, e.section), PrintSection(Apply(ini, e), e.section))
  {
    var s, lines, entries := e.section, ini.Lines(e.section), ini.Entries(e.section);
    match IndexOf(entries, s, e.field)
    case Some(k) =>
      ChangedPrints(s, lines, entries, k, e.value);
      assert PrintSection(ini, s)[entries[k].index] == Line(e.field, entries[k].value);
    case None => AddedPrints(s, lines, entries, e.field, e.value);
  }

  lemma SetListedPrints(ini: Ini, e: Edit)
    requires EditOk(e) && CanSet(ini, e.section, e.field) && e.section !in ini.data && |ini.Lines(e.section)| <= 1
    ensures PrintsAs(ini, e, PrintSection(ini, e.section), PrintSection(Apply(ini, e), e.section))
  {
    var s, lines, x := e.section, ini.Lines(e.section), Entry(e.section, e.field, 1, e.value);
    ListedPrints(lines, Header(s), x);
    PrintedRest(lines, [], 0);
    assert PrintSection(ini, s) == lines;
  }

  /** From any well-formed state, on any settable section: the printed section becomes what PrintsAs
      says, and every other section prints as before. */
  lemma SetPrints(ini: Ini, e: Edit)
    requires WellFormed(ini) && EditOk(e) && CanSet(ini, e.section, e.field) && Settable(ini, e.section)
    ensures PrintsAs(ini, e, PrintSection(ini, e.section), PrintSection(Apply(ini, e), e.section))
    ensures forall u :: u != e.section ==> PrintSection(Apply(ini, e), u) == PrintSection(ini, u)
  {
    SetEffect(ini, e);
    if e.section in ini.data {
      assert SectionOk(e.section, ini.Lines(e.section), ini.Entries(e.section));
      SetKnownPrints(ini, e);
    } else {
      SetListedPrints(ini, e);
    }
  }
}
