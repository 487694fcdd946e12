/** The other half of setValue: on a section that is not settable, it leaves a second header among
    the lines. No later call removes it, and what is then saved can never be loaded again. */
module IniDamage {
  import opened ClockErrors
  import opened IniText
  import opened IniParser
  import opened IniInvariant
  import opened IniReload
  import opened IniTheorems
  import opened IniVerbatim

  // ---------------------------------------------------------------- headers among the lines

  lemma {:induction false} HeaderIsListed(ls: seq<string>, j: nat, s: string)
    requires j < |ls| && ls[j] == Header(s)
    ensures s in SectionsOf(ls)
  {
    if j == 0 {
      assert Header(s)[1..|Header(s)| - 1] == s;
    } else {
      HeaderIsListed(ls[1..], j - 1, s);
    }
  }

  lemma RepeatedName(g: string, a: seq<string>, b: seq<string>, s: string)
    requires s in b && (s == g || s in a)
    ensures !NoRepeats([g] + (a + b))
  {
    var all := [g] + (a + b);
    var j :| 0 <= j < |b| && b[j] == s;
    assert all[1 + |a| + j] == s;
    if s == g {
      assert all[0] == s;
    } else {
      var i :| 0 <= i < |a| && a[i] == s;
      assert all[1 + i] == s;
    }
  }

  /** Lines with the same header twice, or with a header of the unnamed section, do not load. */
  lemma RepeatedHeader(text: string, ls: seq<string>, i: nat, j: nat, s: string)
    requires Split(text) == ls && j < |ls| && ls[j] == Header(s)
    requires s == GLOBAL || (i < j && ls[i] == Header(s))
    ensures LoadText(text) == None
  {
    var a, b := ls[..j], ls[j..];
    assert ls == a + b;
    SectionsOfConcat(a, b);
    HeaderIsListed(b, 0, s);
    if s != GLOBAL {
      HeaderIsListed(a, i, s);
    }
    RepeatedName(GLOBAL, SectionsOf(a), SectionsOf(b), s);
    if LoadText(text).Some? {
      LoadedOrder(text);
    }
  }

  // ---------------------------------------------------------------- what every call keeps

  /** The part of the invariant that even damage leaves: places in order, lines without newlines. */
  ghost predicate Loose(s: string, lines: seq<string>, entries: seq<Entry>) {
    && EntriesOk(s, |lines|, entries)
    && forall i :: 0 <= i < |lines| && !EntryAt(entries, i) ==> OneLine(lines[i])
  }

  ghost predicate AllLoose(ini: Ini) {
    && ini.data.Keys <= ini.lines.Keys
    && forall s :: s in ini.lines ==> Loose(s, ini.lines[s], ini.Entries(s))
  }

  lemma WellFormedIsLoose(ini: Ini)
    requires WellFormed(ini)
    ensures AllLoose(ini)
  {
    forall s | s in ini.lines
      ensures Loose(s, ini.lines[s], ini.Entries(s))
    {
      assert SectionOk(s, ini.lines[s], ini.Entries(s));
    }
  }

  lemma LooseAdded(s: string, lines: seq<string>, entries: seq<Entry>, f: string, v: string)
    requires Loose(s, lines, entries) && CanAdd(lines, entries) && Printable(f, v) && IndexOf(entries, s, f) == None
    ensures Loose(s, lines + [""], entries + [Entry(s, f, PlaceOf(lines, entries), v)])
  {
    var more := entries + [Entry(s, f, PlaceOf(lines, entries), v)];
    forall i | EntryAt(entries, i)
      ensures EntryAt(more, i)
    {
      var k :| 0 <= k < |entries| && entries[k].index == i;
      assert more[k].index == i;
    }
  }

  lemma LooseChanged(s: string, lines: seq<string>, entries: seq<Entry>, k: nat, v: string)
    requires Loose(s, lines, entries) && k < |entries| && Printable(entries[k].field, v)
    ensures Loose(s, lines, entries[k := entries[k].(value := v)])
  {
    var changed := entries[k := entries[k].(value := v)];
    forall i | EntryAt(entries, i)
      ensures EntryAt(changed, i)
    {
      var j :| 0 <= j < |entries| && entries[j].index == i;
      assert changed[j].index == i;
    }
  }

  lemma LooseNew(lines: seq<string>, e: Edit)
    requires EditOk(e) && OneLines(lines)
    ensures Loose(e.section, lines + [Header(e.section), ""], [Entry(e.section, e.field, 1, e.value)])
  {
  }

  lemma LooseSection(ini: Ini, e: Edit)
    requires AllLoose(ini) && EditOk(e) && CanSet(ini, e.section, e.field)
    ensures Loose(e.section, Apply(ini, e).Lines(e.section), Apply(ini, e).Entries(e.section))
  {
    var s, lines, entries := e.section, ini.Lines(e.section), ini.Entries(e.section);
    if s !in ini.data {
      assert forall i :: 0 <= i < |lines| ==> !EntryAt(entries, i);
      LooseNew(lines, e);
    } else {
      assert Loose(s, lines, entries);
      var k := IndexOf(entries, s, e.field);
      if k.Some? {
        LooseChanged(s, lines, entries, k.value, e.value);
      } else {
        LooseAdded(s, lines, entries, e.field, e.value);
      }
    }
  }

  lemma SetStaysLoose(ini: Ini, e: Edit)
    requires AllLoose(ini) && EditOk(e) && CanSet(ini, e.section, e.field)
    ensures AllLoose(Apply(ini, e))
  {
    SetEffect(ini, e);
    LooseSection(ini, e);
    var next := Apply(ini, e);
    forall s | s in next.lines
      ensures Loose(s, next.lines[s], next.Entries(s))
    {
      assert next.lines[s] == next.Lines(s);
      assert s != e.section ==> s in ini.lines && ini.lines[s] == ini.Lines(s);
    }
  }

  // ---------------------------------------------------------------- the damage

  /** A header that is printed, at place j of its section. */
  ghost predicate ShowsHeader(ini: Ini, s: string, j: nat) {
    j < |ini.Lines(s)| && ini.Lines(s)[j] == Header(s) && !EntryAt(ini.Entries(s), j)
  }

  /** Section s shows its header twice, or the unnamed section shows one. */
  ghost predicate Damaged(ini: Ini, s: string, j: nat) {
    s in ini.data && ShowsHeader(ini, s, j) && (s == GLOBAL || (j > 0 && ShowsHeader(ini, s, 0)))
  }

  lemma NotSettable(ini: Ini, e: Edit)
    requires CanSet(ini, e.section, e.field) && !Settable(ini, e.section)
    ensures e.section !in ini.data && |ini.Lines(e.section)| != 1
    ensures ini.Lines(e.section) == [] ==> e.section == GLOBAL
  {
  }

  lemma DamageIsDone(ini: Ini, e: Edit)
    requires WellFormed(ini) && CanSet(ini, e.section, e.field) && !Settable(ini, e.section)
    ensures Damaged(Apply(ini, e), e.section, |ini.Lines(e.section)|)
  {
    NotSettable(ini, e);
    var s := e.section;
    if s in ini.lines {
      assert SectionOk(s, ini.lines[s], ini.Entries(s));
    }
  }

  lemma HeaderStays(ini: Ini, e: Edit, s: string, j: nat)
    requires AllLoose(ini) && CanSet(ini, e.section, e.field) && s in ini.data && ShowsHeader(ini, s, j)
    ensures ShowsHeader(Apply(ini, e), s, j)
  {
    SetEffect(ini, e);
    if s == e.section {
      SetEntries(ini, e);
      var before, after := ini.Entries(s), Apply(ini, e).Entries(s);
      forall k | 0 <= k < |after|
        ensures after[k].index != j
      {
        assert k < |before| ==> after[k].index == before[k].index && before[k].index != j;
      }
    }
  }

  lemma {:induction false} DamageStays(ini: Ini, calls: seq<Call>, s: string, j: nat)
    requires AllLoose(ini) && Possible(ini, calls) && Damaged(ini, s, j)
    ensures AllLoose(Final(ini, calls)) && Damaged(Final(ini, calls), s, j)
    decreases |calls|
  {
    if calls != [] {
      if calls[0].Set? {
        SetStaysLoose(ini, calls[0].edit);
        SetEffect(ini, calls[0].edit);
        HeaderStays(ini, calls[0].edit, s, j);
        if s != GLOBAL {
          HeaderStays(ini, calls[0].edit, s, 0);
        }
      } else {
        SaveEffect(ini);
      }
      DamageStays(After(ini, calls[0]), calls[1..], s, j);
    }
  }

  // ---------------------------------------------------------------- what is printed

  lemma {:induction false} LooseOneLines(s: string, lines: seq<string>, entries: seq<Entry>, i: nat, next: nat)
    requires Loose(s, lines, entries) && i <= |lines| && CursorAt(entries, i, next)
    ensures OneLines(PrintFrom(lines, entries, i, next))
    decreases |lines| - i
  {
    if i < |lines| {
      CursorMoves(s, lines, entries, i, next);
      if Hit(entries, i, next) {
        PrintedEntry(entries[next]);
      }
      LooseOneLines(s, lines, entries, i + 1, Advance(entries, i, next));
    }
  }

  lemma {:induction false} AllOneLinesPrinted(ini: Ini, order: seq<string>)
    requires AllLoose(ini)
    ensures OneLines(PrintAll(ini, order))
  {
    if order != [] {
      AllOneLinesPrinted(ini, order[1..]);
      if order[0] in ini.lines {
        LooseOneLines(order[0], ini.lines[order[0]], ini.Entries(order[0]), 0, 0);
      }
    }
  }

  lemma {:induction false} PrintedInAll(ini: Ini, order: seq<string>, s: string) returns (at: nat)
    requires s in order
    ensures at + |PrintSection(ini, s)| <= |PrintAll(ini, order)|
    ensures forall k :: 0 <= k < |PrintSection(ini, s)| ==> PrintAll(ini, order)[at + k] == PrintSection(ini, s)[k]
  {
    if order[0] == s {
      at := 0;
    } else {
      var rest := PrintedInAll(ini, order[1..], s);
      at := |PrintSection(ini, order[0])| + rest;
    }
  }

  lemma SavedSection(ini: Ini, s: string)
    requires s in ini.lines
    ensures s in Sorted(ini.lines.Keys)
  {
    SortedLists(ini.lines.Keys);
    assert s in Members(Sorted(ini.lines.Keys));
  }

  lemma HeaderIsPrinted(ini: Ini, s: string, j: nat)
    requires ShowsHeader(ini, s, j)
    ensures j < |PrintSection(ini, s)| && PrintSection(ini, s)[j] == Header(s)
  {
    PrintedWhereFree(ini.Lines(s), ini.Entries(s), 0, 0, j);
    assert PrintSection(ini, s)[j - 0] == Header(s);
  }

  lemma HeadersArePrinted(ini: Ini, order: seq<string>, s: string, j: nat) returns (at: nat)
    requires Damaged(ini, s, j) && s in order
    ensures var printed := PrintAll(ini, order);
      && at + j < |printed| && printed[at + j] == Header(s)
      && (s != GLOBAL ==> j > 0 && printed[at] == Header(s))
  {
    at := PrintedInAll(ini, order, s);
    HeaderIsPrinted(ini, s, j);
    if s != GLOBAL {
      HeaderIsPrinted(ini, s, 0);
      assert PrintAll(ini, order)[at + 0] == PrintSection(ini, s)[0];
    }
  }

  /** A damaged parser saves a text that does not load. */
  lemma DamagedNeverLoads(ini: Ini, s: string, j: nat)
    requires AllLoose(ini) && Damaged(ini, s, j)
    ensures LoadText(SavedText(ini)) == None
  {
    var order := Sorted(ini.lines.Keys);
    SavedSection(ini, s);
    AllOneLinesPrinted(ini, order);
    var at := HeadersArePrinted(ini, order, s, j);
    SplitOfJoin(PrintAll(ini, order));
    RepeatedHeader(SavedText(ini), PrintAll(ini, order), at, at + j, s);
  }

  // ---------------------------------------------------------------- the results

  /** Any possible session with a setValue on a section that is not settable at that moment: the
      result cannot be loaded, whatever is called before and afterwards. */
  lemma {:induction false} DamageIsPermanent(ini: Ini, calls: seq<Call>)
    requires WellFormed(ini) && Possible(ini, calls) && !SettableThroughout(ini, calls)
    ensures LoadText(SavedText(Final(ini, calls))) == None
    decreases |calls|
  {
    var c := calls[0];
    if c.Set? && !Settable(ini, c.edit.section) {
      var s, j := c.edit.section, |ini.Lines(c.edit.section)|;
      DamageIsDone(ini, c.edit);
      WellFormedIsLoose(ini);
      SetStaysLoose(ini, c.edit);
      DamageStays(After(ini, c), calls[1..], s, j);
      DamagedNeverLoads(Final(ini, calls), s, j);
    } else {
      if c.Set? {
        SetKeeps(ini, c.edit);
      } else {
        SaveKeeps(ini);
      }
      DamageIsPermanent(After(ini, c), calls[1..]);
    }
  }

  /** The exact condition for every possible session from every well-formed parser: its result is
      saved and loaded without any change if and only if every setValue was on a section that was
      settable then, there is a line, and nothing stands before the first header or no section
      sorts before "global". If the first fails, the saved text does not load at all. */
  lemma SessionExactly(ini: Ini, calls: seq<Call>)
    requires WellFormed(ini) && Possible(ini, calls)
    ensures var end := Final(ini, calls);
      && (Reloads(end) <==> SettableThroughout(ini, calls) && (HasLines(ini) || SomeSet(calls)) && GlobalFirst(end))
      && (!SettableThroughout(ini, calls) ==> LoadText(SavedText(end)) == None)
  {
    if SettableThroughout(ini, calls) {
      SessionReloads(ini, calls);
    } else {
      DamageIsPermanent(ini, calls);
    }
  }

  // ---------------------------------------------------------------- inputs

  /** A section and one line that is not parsed. */
  lemma LoadsTwoLines(line: string)
    requires OneLine(line) && Plain(line)
    ensures LoadText("[s]\n" + line) == Some(Ini(map[GLOBAL := []], map[GLOBAL := [], "s" := ["[s]", line]]))
  {
    SplitAfterLine("[s]", line);
    SplitOfLine(line);
    assert "[s]\n" + line == "[s]" + "\n" + line && Header("s") == "[s]";
    HeaderLoads(Start(), "s");
    var st := LoadLine(Start(), "[s]").value;
    assert [] + ["[s]"] == ["[s]"] && ["[s]"] + [line] == ["[s]", line];
    var lines := st.ini.lines["s" := ["[s]", line]];
    assert lines == map[GLOBAL := [], "s" := ["[s]", line]];
    var end := Loading("s", st.ini.(lines := lines));
    assert LoadLine(st, line) == Some(end);
    assert [line][1..] == [] && LoadLines(end, []) == Some(end);
    assert LoadLines(st, [line]) == Some(end);
    assert (["[s]"] + [line])[1..] == [line];
    assert LoadLines(Start(), ["[s]", line]) == Some(end);
  }

  lemma SetDirectly(ini: Ini, e: Edit)
    requires ini == Ini(map[GLOBAL := []], map[GLOBAL := [], "s" := ["[s]", ";c"]]) && e.section == "s" && EditOk(e)
    ensures Possible(ini, [Set(e)]) && !SettableThroughout(ini, [Set(e)])
  {
    assert [Set(e)][1..] == [];
  }

  lemma SetAfterSave(ini: Ini, e: Edit)
    requires ini == Ini(map[GLOBAL := []], map[GLOBAL := [], "s" := ["[s]", ";c"]]) && e.section == "s" && EditOk(e)
    ensures Allowed(ini, [Save, Set(e)])
  {
    SaveSettable(ini, "s", e.field);
    assert [Save, Set(e)][1..] == [Set(e)] && [Set(e)][1..] == [];
  }

  /** A section with a comment and no entry: setValue right after loading damages it, setValue after
      a save in between does not. */
  lemma CommentedSection(e: Edit)
    requires e.section == "s" && EditOk(e)
    ensures LoadText("[s]\n;c").Some?
    ensures var ini := LoadText("[s]\n;c").value;
      && Possible(ini, [Set(e)]) && LoadText(SavedText(Final(ini, [Set(e)]))) == None
      && Possible(ini, [Save, Set(e)]) && Reloads(Final(ini, [Save, Set(e)]))
  {
    LoadsTwoLines(";c");
    assert "[s]\n" + ";c" == "[s]\n;c";
    LoadedIsWellFormed("[s]\n;c");
    var ini := LoadText("[s]\n;c").value;
    SetDirectly(ini, e);
    DamageIsPermanent(ini, [Set(e)]);
    SetAfterSave(ini, e);
    EditedFileReloads("[s]\n;c", [Save, Set(e)]);
  }

  /** A section with a blank line and no entry: after a save, setValue on it is undefined. */
  lemma BlankSection(f: string)
    ensures LoadText("[s]\n").Some?
    ensures var ini := LoadText("[s]\n").value; CanSet(ini, "s", f) && !CanSet(AfterSave(ini), "s", f)
  {
    LoadsTwoLines("");
    assert "[s]\n" + "" == "[s]\n";
    SaveSettable(LoadText("[s]\n").value, "s", f);
  }

  /** A fresh parser: setValue on "global" writes a header that no file may have. */
  lemma FreshGlobal(f: string, v: string)
    requires Printable(f, v)
    ensures var ini, e := Ini(map[], map[]), Edit(GLOBAL, f, v);
      CanSet(ini, GLOBAL, f) && LoadText(SavedText(Apply(ini, e))) == None
  {
    var ini, calls := Ini(map[], map[]), [Set(Edit(GLOBAL, f, v))];
    assert calls[1..] == [];
    SessionExactly(ini, calls);
  }

  lemma LoadsLeadingEntry(st: Loading)
    requires st == Loading(GLOBAL, Ini(map[GLOBAL := [Entry(GLOBAL, "x", 0, "1")]], map[GLOBAL := ["x=1"]]))
    ensures LoadLine(Start(), "x=1") == Some(st)
  {
    var e := Entry(GLOBAL, "x", 0, "1");
    assert Text(e) == "x=1";
    EntryLoads(Start(), e);
    assert [] + ["x=1"] == ["x=1"] && [] + [e] == [e];
    assert Start().ini.lines[GLOBAL := ["x=1"]] == st.ini.lines && Start().ini.data[GLOBAL := [e]] == st.ini.data;
  }

  lemma LoadsLeading(ini: Ini)
    requires ini == Ini(map[GLOBAL := [Entry(GLOBAL, "x", 0, "1")]], map[GLOBAL := ["x=1"], "a" := ["[a]"]])
    ensures LoadText("x=1\n[a]") == Some(ini)
  {
    SplitAfterLine("x=1", "[a]");
    SplitOfLine("[a]");
    assert "x=1\n[a]" == "x=1" + "\n" + "[a]" && Header("a") == "[a]";
    var st := Loading(GLOBAL, Ini(map[GLOBAL := [Entry(GLOBAL, "x", 0, "1")]], map[GLOBAL := ["x=1"]]));
    LoadsLeadingEntry(st);
    HeaderLoads(st, "a");
    var end := Loading("a", ini);
    assert st.ini.lines["a" := ["[a]"]] == ini.lines;
    assert ["[a]"][1..] == [] && LoadLines(end, []) == Some(end);
    LoadLinesStep(st, "[a]", end, []);
    assert ["[a]"] + [] == ["[a]"];
    LoadLinesStep(Start(), "x=1", st, ["[a]"]);
  }

  lemma GlobalIsSecond(ini: Ini)
    requires ini.Lines(GLOBAL) != [] && "a" in ini.lines
    ensures !GlobalFirst(ini)
  {
    assert !Less(GLOBAL, "a");
  }

  /** An entry before the first header, and a section that sorts before "global". */
  lemma LeadingEntryIsMoved()
    ensures LoadText("x=1\n[a]").Some? && !Reloads(LoadText("x=1\n[a]").value)
  {
    var ini := Ini(map[GLOBAL := [Entry(GLOBAL, "x", 0, "1")]], map[GLOBAL := ["x=1"], "a" := ["[a]"]]);
    LoadsLeading(ini);
    LoadedFileReloads("x=1\n[a]");
    GlobalIsSecond(ini);
  }
}
