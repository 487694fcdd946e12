/** A session with the parser: any calls of setValue and save on it, in any order, and reading the
    result back. */
module IniTheorems {
  import opened ClockErrors
  import opened IniText
  import opened IniParser
  import opened IniInvariant
  import opened IniReload

  datatype Call = Set(edit: Edit) | Save

  // ---------------------------------------------------------------- sessions

  ghost predicate Defined(ini: Ini, c: Call) {
    c.Set? ==> CanSet(ini, c.edit.section, c.edit.field)
  }

  function After(ini: Ini, c: Call): Ini
    requires Defined(ini, c)
  {
    match c
    case Set(e) => Apply(ini, e)
    case Save => AfterSave(ini)
  }

  /** Every setValue is defined when it is made, and prints as a line that reads back. */
  ghost predicate Possible(ini: Ini, calls: seq<Call>)
    decreases |calls|
  {
    calls != [] ==>
      && Defined(ini, calls[0]) && (calls[0].Set? ==> EditOk(calls[0].edit))
      && Possible(After(ini, calls[0]), calls[1..])
  }

  /** Every setValue is made on a section that is settable at that moment. */
  ghost predicate SettableThroughout(ini: Ini, calls: seq<Call>)
    requires Possible(ini, calls)
    decreases |calls|
  {
    calls != [] ==>
      && (calls[0].Set? ==> Settable(ini, calls[0].edit.section))
      && SettableThroughout(After(ini, calls[0]), calls[1..])
  }

  ghost predicate Allowed(ini: Ini, calls: seq<Call>) {
    Possible(ini, calls) && SettableThroughout(ini, calls)
  }

  /** The parser after the session. */
  ghost function Final(ini: Ini, calls: seq<Call>): Ini
    requires Possible(ini, calls)
    decreases |calls|
  {
    if calls == [] then ini else Final(After(ini, calls[0]), calls[1..])
  }

  /** The last value set for a field, or the original one. */
  function LastSet(calls: seq<Call>, s: string, f: string, original: Option<string>): Option<string> {
    if calls == [] then original
    else
      var c := calls[0];
      LastSet(calls[1..], s, f, if c.Set? && c.edit.section == s && c.edit.field == f then Some(c.edit.value) else original)
  }

  ghost predicate SomeSet(calls: seq<Call>) {
    exists i :: 0 <= i < |calls| && calls[i].Set?
  }

  // ---------------------------------------------------------------- one call

  /** Lines before the first header do not appear by editing. */
  lemma NoGlobalLines(ini: Ini, e: Edit)
    requires WellFormed(ini) && Settable(ini, e.section) && CanSet(ini, e.section, e.field)
    ensures ini.Lines(GLOBAL) == [] ==> Apply(ini, e).Lines(GLOBAL) == []
  {
    if ini.Lines(GLOBAL) == [] && GLOBAL in ini.lines {
      assert EntriesOk(GLOBAL, 0, ini.Entries(GLOBAL));
    }
  }

  lemma SetStep(ini: Ini, e: Edit)
    requires WellFormed(ini) && EditOk(e) && CanSet(ini, e.section, e.field) && Settable(ini, e.section)
    ensures WellFormed(Apply(ini, e)) && HasLines(Apply(ini, e))
    ensures ini.Lines(GLOBAL) == [] ==> Apply(ini, e).Lines(GLOBAL) == []
  {
    SetKeeps(ini, e);
    SetEffect(ini, e);
    NoGlobalLines(ini, e);
    var next := Apply(ini, e);
    assert e.section in next.lines && SectionOk(e.section, next.lines[e.section], next.Entries(e.section));
  }

  lemma CallStep(ini: Ini, calls: seq<Call>)
    requires WellFormed(ini) && calls != [] && Allowed(ini, calls)
    ensures var next := After(ini, calls[0]);
      && WellFormed(next) && Allowed(next, calls[1..])
      && (ini.Lines(GLOBAL) == [] ==> next.Lines(GLOBAL) == [])
      && (HasLines(next) <==> HasLines(ini) || calls[0].Set?)
  {
    if calls[0].Set? {
      SetStep(ini, calls[0].edit);
    } else {
      SaveKeeps(ini);
      SaveEffect(ini);
    }
  }

  lemma CallLookup(ini: Ini, c: Call, s: string, f: string)
    requires ini.data.Keys <= ini.lines.Keys && Defined(ini, c)
    ensures Lookup(After(ini, c), s, f)
         == if c.Set? && c.edit.section == s && c.edit.field == f then Some(c.edit.value) else Lookup(ini, s, f)
  {
    if c.Set? {
      LookupAfterSet(ini, c.edit, s, f);
    } else {
      SaveEffect(ini);
    }
  }

  // ---------------------------------------------------------------- whole sessions

  lemma {:induction false} SessionKeeps(ini: Ini, calls: seq<Call>)
    requires WellFormed(ini) && Allowed(ini, calls)
    ensures WellFormed(Final(ini, calls))
    ensures ini.Lines(GLOBAL) == [] ==> Final(ini, calls).Lines(GLOBAL) == []
    ensures HasLines(Final(ini, calls)) <==> HasLines(ini) || SomeSet(calls)
    decreases |calls|
  {
    if calls != [] {
      CallStep(ini, calls);
      SessionKeeps(After(ini, calls[0]), calls[1..]);
      assert SomeSet(calls) <==> calls[0].Set? || SomeSet(calls[1..]) by {
        assert forall i :: 0 < i < |calls| ==> calls[i] == calls[1..][i - 1];
      }
    }
  }

  lemma {:induction false} SessionLookup(ini: Ini, calls: seq<Call>, s: string, f: string)
    requires WellFormed(ini) && Allowed(ini, calls)
    ensures Lookup(Final(ini, calls), s, f) == LastSet(calls, s, f, Lookup(ini, s, f))
    decreases |calls|
  {
    if calls != [] {
      CallStep(ini, calls);
      CallLookup(ini, calls[0], s, f);
      SessionLookup(After(ini, calls[0]), calls[1..], s, f);
    }
  }

  ghost predicate ReadsBack(ini: Ini, calls: seq<Call>, end: Ini) {
    LoadText(SavedText(end)).Some? && forall s, f ::
      Lookup(LoadText(SavedText(end)).value, s, f) == LastSet(calls, s, f, Lookup(ini, s, f))
  }

  /** Any session from any well-formed parser, a fresh one included. Its result is saved and loaded
      without any change exactly if it has a line, and nothing before the first header or no
      section before "global". In the latter cases every lookup finds the last value set or the
      original one. */
  lemma SessionReloads(ini: Ini, calls: seq<Call>)
    requires WellFormed(ini) && Allowed(ini, calls)
    ensures var end := Final(ini, calls);
      && (Reloads(end) <==> (HasLines(ini) || SomeSet(calls)) && GlobalFirst(end))
      && (GlobalFirst(end) ==> ReadsBack(ini, calls, end))
      && (ini.Lines(GLOBAL) == [] ==> GlobalFirst(end))
  {
    var end := Final(ini, calls);
    SessionKeeps(ini, calls);
    ReloadsExactly(end);
    if GlobalFirst(end) {
      forall s, f
        ensures LoadText(SavedText(end)).Some?
        ensures Lookup(LoadText(SavedText(end)).value, s, f) == LastSet(calls, s, f, Lookup(ini, s, f))
      {
        SessionLookup(ini, calls, s, f);
        ReloadedLookup(end, s, f);
      }
      assert LoadText(SavedText(end)).Some? by { ReloadedLookup(end, "", ""); }
    }
  }

  lemma {:induction false} LoadedHasLines(st: Loading, ls: seq<string>)
    requires st.ini.data.Keys <= st.ini.lines.Keys && st.current in st.ini.lines && ls != [] && LoadLines(st, ls).Some?
    ensures HasLines(LoadLines(st, ls).value.ini)
    decreases |ls|
  {
    var next := LoadLine(st, ls[0]).value;
    LineEffect(st, ls[0]);
    if |ls| == 1 {
      assert ls[1..] == [];
      assert next.current in next.ini.lines && next.ini.lines[next.current] != [];
    } else {
      LoadedHasLines(next, ls[1..]);
    }
  }

  /** Any session on any file that loads. */
  lemma EditedFileReloads(text: string, calls: seq<Call>)
    requires LoadText(text).Some? && Allowed(LoadText(text).value, calls)
    ensures var ini := LoadText(text).value; var end := Final(ini, calls);
      && (Reloads(end) <==> GlobalFirst(end)) && (GlobalFirst(end) ==> ReadsBack(ini, calls, end))
      && (ini.Lines(GLOBAL) == [] ==> GlobalFirst(end))
  {
    LoadedIsWellFormed(text);
    LoadedHasLines(Start(), Split(text));
    SessionReloads(LoadText(text).value, calls);
  }

  // ---------------------------------------------------------------- sessions that can be planned

  /** Every setValue is on a section that is settable before the session. */
  ghost predicate Planned(ini: Ini, calls: seq<Call>) {
    forall i :: 0 <= i < |calls| && calls[i].Set? ==> EditOk(calls[i].edit) && Settable(ini, calls[i].edit.section)
  }

  /** The unnamed section has an entry list if it has any lines. */
  ghost predicate GlobalListed(ini: Ini) {
    GLOBAL in ini.lines ==> GLOBAL in ini.data
  }

  lemma SaveKeepsSettable(ini: Ini, s: string)
    requires WellFormed(ini) && GlobalListed(ini) && Settable(ini, s)
    ensures Settable(AfterSave(ini), s)
  {
    SaveSettable(ini, s, "");
    if s in ini.lines {
      assert SectionOk(s, ini.lines[s], ini.Entries(s));
    }
  }

  lemma PlannedStep(ini: Ini, calls: seq<Call>)
    requires WellFormed(ini) && GlobalListed(ini) && Planned(ini, calls) && calls != []
    ensures Defined(ini, calls[0])
    ensures var next := After(ini, calls[0]); WellFormed(next) && GlobalListed(next) && Planned(next, calls[1..])
  {
    var c := calls[0];
    if c.Set? {
      SettableIsDefined(ini, c.edit.section, c.edit.field);
      SetStep(ini, c.edit);
      SetEffect(ini, c.edit);
    } else {
      SaveKeeps(ini);
      SaveEffect(ini);
    }
    forall i | 0 <= i < |calls| - 1 && calls[1..][i].Set?
      ensures Settable(After(ini, c), calls[1..][i].edit.section)
    {
      var s := calls[i + 1].edit.section;
      if c.Set? {
        SettableStays(ini, c.edit, s);
      } else {
        SaveKeepsSettable(ini, s);
      }
    }
  }

  /** What is settable at the start stays so, whatever is set and saved in between. */
  lemma {:induction false} PlannedIsAllowed(ini: Ini, calls: seq<Call>)
    requires WellFormed(ini) && GlobalListed(ini) && Planned(ini, calls)
    ensures Allowed(ini, calls)
    decreases |calls|
  {
    if calls != [] {
      PlannedStep(ini, calls);
      PlannedIsAllowed(After(ini, calls[0]), calls[1..]);
    }
  }

  lemma {:induction false} LoadingListsGlobal(st: Loading, ls: seq<string>)
    requires GLOBAL in st.ini.data && LoadLines(st, ls).Some?
    ensures GLOBAL in LoadLines(st, ls).value.ini.data
    decreases |ls|
  {
    if ls != [] {
      LoadingListsGlobal(LoadLine(st, ls[0]).value, ls[1..]);
    }
  }

  /** For a file that loads, it is enough that the sections to be set are settable then: those that
      have an entry, new ones, and those that consist of their header. */
  lemma PlannedForFile(text: string, calls: seq<Call>)
    requires LoadText(text).Some? && Planned(LoadText(text).value, calls)
    ensures Allowed(LoadText(text).value, calls)
  {
    LoadedIsWellFormed(text);
    LoadingListsGlobal(Start(), Split(text));
    PlannedIsAllowed(LoadText(text).value, calls);
  }
}
