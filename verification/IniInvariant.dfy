/** What load establishes and setValue keeps of the two maps. */
module IniInvariant {
  import opened ClockErrors
  import opened IniText
  import opened IniParser

  function Header(s: string): string {
    "[" + s + "]"
  }

  /** The first line of a section that can hold an entry. */
  function First(s: string): nat {
    if s == GLOBAL then 0 else 1
  }

  /** Field and value that, printed as one line, are read back as this field and this value. */
  predicate Printable(field: string, value: string) {
    && OneLine(field) && OneLine(value) && '=' !in field && |field| + |value| >= 1
    && (field != "" ==> field[0] != '[' && field[0] != ';')
  }

  ghost predicate EntryAt(entries: seq<Entry>, i: nat) {
    exists k :: 0 <= k < |entries| && entries[k].index == i
  }

  ghost predicate EntriesOk(s: string, size: nat, entries: seq<Entry>) {
    && |entries| <= size
    && (forall k :: 0 <= k < |entries| ==>
          && entries[k].section == s && First(s) <= entries[k].index < size
          && Printable(entries[k].field, entries[k].value))
    && (forall j, k :: 0 <= j < k < |entries| ==>
          entries[j].index < entries[k].index && entries[j].field != entries[k].field)
  }

  ghost predicate LinesOk(s: string, lines: seq<string>, entries: seq<Entry>) {
    && OneLine(s) && (s != GLOBAL ==> lines != [] && lines[0] == Header(s))
    && (forall i :: First(s) <= i < |lines| && !EntryAt(entries, i) ==> Plain(lines[i]) && OneLine(lines[i]))
  }

  /** A section starts with its header; its entries have strictly increasing places after that,
      different fields, and print as lines that read back; all other lines are not parsed. */
  ghost predicate SectionOk(s: string, lines: seq<string>, entries: seq<Entry>) {
    EntriesOk(s, |lines|, entries) && LinesOk(s, lines, entries)
  }

  ghost predicate WellFormed(ini: Ini) {
    && ini.data.Keys <= ini.lines.Keys
    && forall s :: s in ini.lines ==> SectionOk(s, ini.lines[s], ini.Entries(s))
  }

  /** Replacing one section. */
  lemma UpdateSection(ini: Ini, s: string, ini': Ini)
    requires WellFormed(ini) && ini'.data.Keys <= ini'.lines.Keys
    requires ini'.lines.Keys == ini.lines.Keys + {s} && SectionOk(s, ini'.lines[s], ini'.Entries(s))
    requires forall u :: u != s ==> ini'.Lines(u) == ini.Lines(u) && ini'.Entries(u) == ini.Entries(u)
    ensures WellFormed(ini')
  {
    forall u | u in ini'.lines && u != s
      ensures SectionOk(u, ini'.lines[u], ini'.Entries(u))
    {
      assert u in ini.lines && ini.lines[u] == ini.Lines(u) && ini'.lines[u] == ini'.Lines(u);
    }
  }

  /** The stored line of every entry is the line it prints as. */
  ghost predicate Verbatim(lines: seq<string>, entries: seq<Entry>) {
    forall k :: 0 <= k < |entries| ==> entries[k].index < |lines| && lines[entries[k].index] == Text(entries[k])
  }

  ghost predicate AllVerbatim(ini: Ini) {
    forall s :: s in ini.lines ==> Verbatim(ini.lines[s], ini.Entries(s))
  }

  lemma UpdateVerbatim(ini: Ini, s: string, ini': Ini)
    requires AllVerbatim(ini) && ini'.lines.Keys == ini.lines.Keys + {s} && Verbatim(ini'.lines[s], ini'.Entries(s))
    requires forall u :: u != s ==> ini'.Lines(u) == ini.Lines(u) && ini'.Entries(u) == ini.Entries(u)
    ensures AllVerbatim(ini')
  {
    forall u | u in ini'.lines && u != s
      ensures Verbatim(ini'.lines[u], ini'.Entries(u))
    {
      assert u in ini.lines && ini.lines[u] == ini.Lines(u) && ini'.lines[u] == ini'.Lines(u);
    }
  }

  // ---------------------------------------------------------------- load

  ghost predicate LoadOk(st: Loading) {
    WellFormed(st.ini) && AllVerbatim(st.ini) && st.current in st.ini.lines
  }

  lemma StartOk()
    ensures LoadOk(Start())
  {
  }

  lemma PlainLine(s: string, lines: seq<string>, entries: seq<Entry>, line: string)
    requires SectionOk(s, lines, entries) && Verbatim(lines, entries) && Plain(line) && OneLine(line)
    ensures SectionOk(s, lines + [line], entries) && Verbatim(lines + [line], entries)
  {
  }

  lemma EntryLine(s: string, lines: seq<string>, entries: seq<Entry>, line: string, n: nat)
    requires SectionOk(s, lines, entries) && Verbatim(lines, entries) && OneLine(line) && !Plain(line) && line[0] != '['
    requires n < |line| && line[n] == '=' && '=' !in line[..n] && !HasField(entries, line[..n])
    ensures var e := Entry(s, line[..n], |lines|, line[n + 1..]);
      SectionOk(s, lines + [line], entries + [e]) && Verbatim(lines + [line], entries + [e])
  {
    var e := Entry(s, line[..n], |lines|, line[n + 1..]);
    assert line == line[..n] + "=" + line[n + 1..];
    assert forall i :: 0 <= i < |lines| && EntryAt(entries, i) ==> EntryAt(entries + [e], i) by {
      forall i | 0 <= i < |lines| && EntryAt(entries, i)
        ensures EntryAt(entries + [e], i)
      {
        var k :| 0 <= k < |entries| && entries[k].index == i;
        assert (entries + [e])[k].index == i;
      }
    }
    assert (entries + [e])[|entries|].index == |lines|;
    assert EntryAt(entries + [e], |lines|);
  }

  lemma HeaderLine(line: string)
    requires |line| >= 2 && line[0] == '[' && line[|line| - 1] == ']' && OneLine(line)
    ensures var name := line[1..|line| - 1]; name != GLOBAL ==> SectionOk(name, [line], [])
  {
    var name := line[1..|line| - 1];
    assert line == Header(name);
  }

  /** What a line that loads does: it ends up in the section that is then current. */
  lemma LineEffect(st: Loading, line: string)
    requires st.ini.data.Keys <= st.ini.lines.Keys && st.current in st.ini.lines && LoadLine(st, line).Some?
    ensures var st' := LoadLine(st, line).value; var s, ini, ini' := st'.current, st.ini, st'.ini;
      && ini'.lines.Keys == ini.lines.Keys + {s} && ini'.data.Keys <= ini'.lines.Keys
      && ini'.lines[s] == ini.Lines(s) + [line]
      && (s != st.current ==> s !in ini.lines)
      && forall u :: u != s ==> ini'.Lines(u) == ini.Lines(u) && ini'.Entries(u) == ini.Entries(u)
  {
  }

  lemma LoadLineKeeps(st: Loading, line: string)
    requires LoadOk(st) && GLOBAL in st.ini.lines && OneLine(line) && LoadLine(st, line).Some?
    ensures LoadOk(LoadLine(st, line).value) && GLOBAL in LoadLine(st, line).value.ini.lines
  {
    var st' := LoadLine(st, line).value;
    var s, ini, ini' := st'.current, st.ini, st'.ini;
    LineEffect(st, line);
    LoadedSection(st, line);
    UpdateSection(ini, s, ini');
    UpdateVerbatim(ini, s, ini');
  }

  ghost predicate CurrentOk(st: Loading) {
    var s := st.current;
    s in st.ini.lines && SectionOk(s, st.ini.lines[s], st.ini.Entries(s)) && Verbatim(st.ini.lines[s], st.ini.Entries(s))
  }

  lemma LoadedEntry(st: Loading, line: string)
    requires CurrentOk(st) && OneLine(line) && !Plain(line) && line[0] != '[' && LoadLine(st, line).Some?
    ensures CurrentOk(LoadLine(st, line).value)
  {
    var s, ini, n := st.current, st.ini, FindEquals(line).value;
    EntryLine(s, ini.lines[s], ini.Entries(s), line, n);
    var e := Entry(s, line[..n], |ini.lines[s]|, line[n + 1..]);
    assert LoadLine(st, line).value.ini.Entries(s) == ini.Entries(s) + [e];
  }

  lemma LoadedHeader(st: Loading, line: string)
    requires st.ini.data.Keys <= st.ini.lines.Keys && GLOBAL in st.ini.lines
    requires OneLine(line) && !Plain(line) && line[0] == '[' && LoadLine(st, line).Some?
    ensures CurrentOk(LoadLine(st, line).value)
  {
    HeaderLine(line);
    assert [] + [line] == [line];
  }

  lemma LoadedSection(st: Loading, line: string)
    requires LoadOk(st) && GLOBAL in st.ini.lines && OneLine(line) && LoadLine(st, line).Some?
    ensures CurrentOk(LoadLine(st, line).value)
  {
    assert CurrentOk(st);
    if Plain(line) {
      PlainLine(st.current, st.ini.lines[st.current], st.ini.Entries(st.current), line);
    } else if line[0] == '[' {
      LoadedHeader(st, line);
    } else {
      LoadedEntry(st, line);
    }
  }

  lemma {:induction false} LoadLinesKeep(st: Loading, ls: seq<string>)
    requires LoadOk(st) && GLOBAL in st.ini.lines && OneLines(ls)
    ensures WellFormed(LoadedPart(st, ls)) && AllVerbatim(LoadedPart(st, ls))
    decreases |ls|
  {
    if ls != [] && LoadLine(st, ls[0]).Some? {
      LoadLineKeeps(st, ls[0]);
      LoadLinesKeep(LoadLine(st, ls[0]).value, ls[1..]);
    }
  }

  lemma {:induction false} LoadedWhole(st: Loading, ls: seq<string>)
    requires LoadLines(st, ls).Some?
    ensures LoadedPart(st, ls) == LoadLines(st, ls).value.ini
    decreases |ls|
  {
    if ls != [] {
      LoadedWhole(LoadLine(st, ls[0]).value, ls[1..]);
    }
  }

  /** Whatever is loaded is well-formed, even if loading stops at a syntax error. */
  lemma LoadedIsWellFormed(text: string)
    ensures var part := LoadedPart(Start(), Split(text));
      && WellFormed(part) && AllVerbatim(part)
      && (LoadText(text).Some? ==> part == LoadText(text).value)
  {
    StartOk();
    SplitOneLines(text);
    LoadLinesKeep(Start(), Split(text));
    if LoadText(text).Some? {
      LoadedWhole(Start(), Split(text));
    }
  }

  // ---------------------------------------------------------------- setValue

  datatype Edit = Edit(section: string, field: string, value: string)

  predicate EditOk(e: Edit) {
    OneLine(e.section) && Printable(e.field, e.value)
  }

  /** The sections that setValue can change without damage: those that have an entry; those whose
      entry list is empty and whose last line is not blank; and, without an entry list, new ones
      and those that consist of one line. */
  predicate Settable(ini: Ini, s: string) {
    if s in ini.data then ini.data[s] != [] || CanAdd(ini.Lines(s), ini.data[s])
    else if ini.Lines(s) == [] then s != GLOBAL
    else |ini.Lines(s)| == 1
  }

  function Apply(ini: Ini, e: Edit): Ini
    requires CanSet(ini, e.section, e.field)
  {
    WithValue(ini, e.section, e.field, e.value)
  }

  /** A section without an entry list: line 1 is the entry's place, so it must not be in use, and
      the header that is added must not stay visible. */
  lemma NewEntryList(lines: seq<string>, e: Edit)
    requires EditOk(e) && (lines == [] || SectionOk(e.section, lines, []))
    ensures var l, es := lines + [Header(e.section), ""], [Entry(e.section, e.field, 1, e.value)];
      SectionOk(e.section, l, es) <==> if lines == [] then e.section != GLOBAL else |lines| == 1
  {
    var l, es := lines + [Header(e.section), ""], [Entry(e.section, e.field, 1, e.value)];
    assert es[0].index == 1;
    assert EntryAt(es, 1) && (|lines| != 1 ==> !EntryAt(es, |lines|));
    assert l[|lines|] == Header(e.section) && !Plain(Header(e.section));
  }

  lemma ChangedValue(s: string, lines: seq<string>, entries: seq<Entry>, k: nat, v: string)
    requires SectionOk(s, lines, entries) && k < |entries| && Printable(entries[k].field, v)
    ensures SectionOk(s, lines, entries[k := entries[k].(value := v)])
  {
    var changed := entries[k := entries[k].(value := v)];
    assert forall j :: 0 <= j < |entries| ==> changed[j].index == entries[j].index && changed[j].field == entries[j].field;
    forall i | EntryAt(entries, i)
      ensures EntryAt(changed, i)
    {
      var j :| 0 <= j < |entries| && entries[j].index == i;
      assert changed[j].index == i;
    }
  }

  lemma AddedEntry(s: string, lines: seq<string>, entries: seq<Entry>, f: string, v: string)
    requires SectionOk(s, lines, entries) && CanAdd(lines, entries) && Printable(f, v)
    requires IndexOf(entries, s, f) == None
    ensures SectionOk(s, lines + [""], entries + [Entry(s, f, PlaceOf(lines, entries), v)])
  {
    var e := Entry(s, f, PlaceOf(lines, entries), v);
    var more := entries + [e];
    assert more[|entries|].index == e.index;
    assert EntryAt(more, e.index);
    forall i | EntryAt(entries, i)
      ensures EntryAt(more, i)
    {
      var j :| 0 <= j < |entries| && entries[j].index == i;
      assert more[j].index == i;
    }
  }

  /** What an edit leaves alone. */
  lemma SetEffect(ini: Ini, e: Edit)
    requires ini.data.Keys <= ini.lines.Keys && CanSet(ini, e.section, e.field)
    ensures var ini' := Apply(ini, e);
      && ini'.lines.Keys == ini.lines.Keys + {e.section} && ini'.data.Keys == ini.data.Keys + {e.section}
      && ini'.Entries(e.section) != []
      && forall s :: s != e.section ==> ini'.Lines(s) == ini.Lines(s) && ini'.Entries(s) == ini.Entries(s)
  {
  }

  /** Where nothing is in the way, setValue is defined for every field. */
  lemma SettableIsDefined(ini: Ini, s: string, f: string)
    requires WellFormed(ini) && Settable(ini, s)
    ensures CanSet(ini, s, f)
  {
    if s in ini.data {
      assert SectionOk(s, ini.lines[s], ini.Entries(s));
      if ini.data[s] != [] {
        LastBlank(s, ini.lines[s], ini.Entries(s));
      }
    }
  }

  lemma LastBlank(s: string, lines: seq<string>, entries: seq<Entry>)
    requires EntriesOk(s, |lines|, entries) && entries != []
    ensures CanAdd(lines, entries)
  {
  }

  lemma SetKnownSection(ini: Ini, e: Edit)
    requires EditOk(e) && e.section in ini.data && CanSet(ini, e.section, e.field)
    requires SectionOk(e.section, ini.Lines(e.section), ini.Entries(e.section))
    ensures SectionOk(e.section, Apply(ini, e).Lines(e.section), Apply(ini, e).Entries(e.section))
  {
    var lines, entries := ini.Lines(e.section), ini.Entries(e.section);
    var k := IndexOf(entries, e.section, e.field);
    if k.Some? {
      ChangedValue(e.section, lines, entries, k.value, e.value);
    } else {
      AddedEntry(e.section, lines, entries, e.field, e.value);
    }
  }

  /** The section of an edit is in order afterwards exactly if it was settable. */
  lemma SetSection(ini: Ini, e: Edit)
    requires WellFormed(ini) && EditOk(e) && CanSet(ini, e.section, e.field)
    ensures SectionOk(e.section, Apply(ini, e).Lines(e.section), Apply(ini, e).Entries(e.section))
       <==> Settable(ini, e.section)
  {
    var s := e.section;
    assert s in ini.lines ==> SectionOk(s, ini.Lines(s), ini.Entries(s));
    if s in ini.data {
      SetKnownSection(ini, e);
    } else {
      NewEntryList(ini.Lines(s), e);
    }
  }

  /** A defined call keeps the invariant if and only if its section is settable. */
  lemma SetKeeps(ini: Ini, e: Edit)
    requires WellFormed(ini) && EditOk(e) && CanSet(ini, e.section, e.field)
    ensures WellFormed(Apply(ini, e)) <==> Settable(ini, e.section)
  {
    SetEffect(ini, e);
    SetSection(ini, e);
    if Settable(ini, e.section) {
      UpdateSection(ini, e.section, Apply(ini, e));
    }
  }

  /** What was settable stays so. */
  lemma SettableStays(ini: Ini, e: Edit, s: string)
    requires ini.data.Keys <= ini.lines.Keys && CanSet(ini, e.section, e.field) && Settable(ini, s)
    ensures Settable(Apply(ini, e), s)
  {
    SetEffect(ini, e);
    assert s != e.section ==> (s in Apply(ini, e).data <==> s in ini.data);
    assert s in Apply(ini, e).data ==> Apply(ini, e).data[s] == Apply(ini, e).Entries(s);
    assert s in ini.data ==> ini.data[s] == ini.Entries(s);
  }

  lemma SaveEffect(ini: Ini)
    requires ini.data.Keys <= ini.lines.Keys
    ensures var after := AfterSave(ini);
      && after.lines == ini.lines && ini.data.Keys <= after.data.Keys <= after.lines.Keys
      && forall s :: after.Entries(s) == ini.Entries(s)
  {
  }

  /** Saving changes no entry and no line, and keeps the invariant. */
  lemma SaveKeeps(ini: Ini)
    requires WellFormed(ini)
    ensures WellFormed(AfterSave(ini))
    ensures forall s :: AfterSave(ini).Entries(s) == ini.Entries(s)
  {
    SaveEffect(ini);
  }

  /** Saving changes which sections are settable: one with lines and without an entry list becomes
      settable if its last line is not blank, and otherwise undefined for setValue. */
  lemma SaveSettable(ini: Ini, s: string, f: string)
    requires ini.data.Keys <= ini.lines.Keys
    ensures s in ini.data || ini.Lines(s) == [] ==>
      (Settable(AfterSave(ini), s) <==> Settable(ini, s)) && (CanSet(AfterSave(ini), s, f) <==> CanSet(ini, s, f))
    ensures s !in ini.data && ini.Lines(s) != [] ==>
      && (Settable(AfterSave(ini), s) <==> ini.Lines(s)[|ini.Lines(s)| - 1] != "")
      && (CanSet(AfterSave(ini), s, f) <==> Settable(AfterSave(ini), s)) && CanSet(ini, s, f)
  {
    var after := AfterSave(ini);
    assert s in after.data <==> s in ini.data || ini.Lines(s) != [];
    assert s in after.data ==> after.data[s] == ini.Entries(s);
    assert s in ini.data ==> ini.data[s] == ini.Entries(s);
  }

  lemma {:induction false} IndexIsFirst(entries: seq<Entry>, s: string, f: string, k: nat)
    requires k < |entries| && entries[k].section == s && entries[k].field == f
    requires forall i :: 0 <= i < k ==> !(entries[i].section == s && entries[i].field == f)
    ensures IndexOf(entries, s, f) == Some(k)
  {
  }

  lemma AbsentIndex(entries: seq<Entry>, s: string, f: string)
    requires forall i :: 0 <= i < |entries| ==> !(entries[i].section == s && entries[i].field == f)
    ensures IndexOf(entries, s, f) == None
  {
  }

  ghost predicate ChangedEntries(before: seq<Entry>, after: seq<Entry>, e: Edit) {
    match IndexOf(before, e.section, e.field)
    case Some(k) => after == before[k := before[k].(value := e.value)]
    case None => exists i: nat :: after == before + [Entry(e.section, e.field, i, e.value)]
  }

  lemma SetEntries(ini: Ini, e: Edit)
    requires CanSet(ini, e.section, e.field)
    ensures ChangedEntries(ini.Entries(e.section), Apply(ini, e).Entries(e.section), e)
  {
    var before, after := ini.Entries(e.section), Apply(ini, e).Entries(e.section);
    if IndexOf(before, e.section, e.field) == None {
      var i := after[|before|].index;
      assert after == before + [Entry(e.section, e.field, i, e.value)];
    }
  }

  /** A lookup after setValue: the value set for that section and field, the old one for others. */
  lemma LookupAfterSet(ini: Ini, e: Edit, s: string, f: string)
    requires ini.data.Keys <= ini.lines.Keys && CanSet(ini, e.section, e.field)
    ensures Lookup(Apply(ini, e), s, f)
         == if s == e.section && f == e.field then Some(e.value) else Lookup(ini, s, f)
  {
    SetEffect(ini, e);
    if s == e.section {
      var before, after := ini.Entries(s), Apply(ini, e).Entries(s);
      SetEntries(ini, e);
      LookupInSection(before, after, s, e, f);
    }
  }

  lemma LookupInSection(before: seq<Entry>, after: seq<Entry>, s: string, e: Edit, f: string)
    requires s == e.section && ChangedEntries(before, after, e)
    ensures IndexOf(after, s, f).Some? <==> f == e.field || IndexOf(before, s, f).Some?
    ensures match IndexOf(after, s, f)
            case None => true
            case Some(k) => if f == e.field then after[k].value == e.value
                            else IndexOf(before, s, f) == Some(k) && after[k].value == before[k].value
  {
    var b := IndexOf(before, s, f);
    match IndexOf(before, s, e.field)
    case Some(k) =>
      if b.Some? {
        IndexIsFirst(after, s, f, b.value);
      } else {
        AbsentIndex(after, s, f);
      }
    case None =>
      if b.Some? {
        IndexIsFirst(after, s, f, b.value);
      } else if f == e.field {
        IndexIsFirst(after, s, f, |before|);
      } else {
        AbsentIndex(after, s, f);
      }
  }
}
