/** Printing and loading again: what comes back, and when. */
module IniReload {
  import opened ClockErrors
  import opened IniText
  import opened IniParser
  import opened IniInvariant

  // ---------------------------------------------------------------- one section

  /** The printable fields and values are exactly those whose line parses as this entry. */
  lemma PrintedEntry(e: Entry)
    ensures var line := Text(e);
      && line[..|e.field|] == e.field && line[|e.field| + 1..] == e.value
      && (Printable(e.field, e.value) <==>
            OneLine(line) && !Plain(line) && line[0] != '[' && FindEquals(line) == Some(|e.field|))
  {
    var line, n := Text(e), |e.field|;
    assert line[..n] == e.field && line[n] == '=' && line[n + 1..] == e.value;
    assert line[0] == if n == 0 then '=' else e.field[0];
    assert OneLine(line) <==> OneLine(e.field) && OneLine(e.value);
    if '=' !in e.field {
      FirstEquals(e.field, e.value);
    }
  }

  lemma {:induction false} FirstEquals(field: string, value: string)
    requires '=' !in field
    ensures FindEquals(field + "=" + value) == Some(|field|)
  {
    var line := field + "=" + value;
    if field != "" {
      assert line[1..] == field[1..] + "=" + value;
      FirstEquals(field[1..], value);
    }
  }

  lemma EntryLoads(st: Loading, e: Entry)
    requires Printable(e.field, e.value) && st.current == e.section && e.index == |st.ini.Lines(e.section)|
    requires !HasField(st.ini.Entries(e.section), e.field)
    ensures LoadLine(st, Text(e)) == Some(Loading(st.current, AddLine(AddEntry(st.ini, e.section, e), e.section, Text(e))))
  {
    PrintedEntry(e);
  }

  /** After loading the printed lines of section s from st, s holds them and its entries, and no
      other section has changed. */
  ghost predicate SectionLoaded(st: Loading, s: string, printed: seq<string>, entries: seq<Entry>, r: Option<Loading>) {
    && r.Some? && r.value.current == s
    && r.value.ini.lines == st.ini.lines[s := printed]
    && forall u :: r.value.ini.Entries(u) == if u == s then entries else st.ini.Entries(u)
  }

  /** The cursor's place: entries before it lie before line i, the others at i or after. */
  ghost predicate CursorAt(entries: seq<Entry>, i: nat, next: nat) {
    && next <= |entries| && (next < |entries| ==> entries[next].index >= i)
    && (forall k :: 0 <= k < next ==> entries[k].index < i)
    && (forall k :: next <= k < |entries| ==> entries[k].index >= i)
  }

  lemma CursorMoves(s: string, lines: seq<string>, entries: seq<Entry>, i: nat, next: nat)
    requires EntriesOk(s, |lines|, entries) && CursorAt(entries, i, next) && i < |lines|
    ensures CursorAt(entries, i + 1, Advance(entries, i, next))
    ensures !Hit(entries, i, next) ==> !EntryAt(entries, i)
  {
  }

  lemma {:induction false} SectionReload(s: string, lines: seq<string>, entries: seq<Entry>, i: nat, next: nat, st: Loading)
    requires SectionOk(s, lines, entries) && First(s) <= i <= |lines| && CursorAt(entries, i, next)
    requires st.current == s && s in st.ini.lines && |st.ini.lines[s]| == i && st.ini.Entries(s) == entries[..next]
    ensures SectionLoaded(st, s, st.ini.lines[s] + PrintFrom(lines, entries, i, next), entries,
                          LoadLines(st, PrintFrom(lines, entries, i, next)))
    decreases |lines| - i
  {
    if i == |lines| {
      NothingLeft(s, lines, entries, next, st);
    } else {
      var line, next' := LineAt(lines, entries, i, next), Advance(entries, i, next);
      var st' := LineReload(s, lines, entries, i, next, st, line);
      SectionReload(s, lines, entries, i + 1, next', st');
      var rest := PrintFrom(lines, entries, i + 1, next');
      LoadLinesStep(st, line, st', rest);
      StepLoaded(st, st', s, line, rest, entries, LoadLines(st', rest));
    }
  }

  lemma NothingLeft(s: string, lines: seq<string>, entries: seq<Entry>, next: nat, st: Loading)
    requires EntriesOk(s, |lines|, entries) && CursorAt(entries, |lines|, next)
    requires st.current == s && s in st.ini.lines && st.ini.Entries(s) == entries[..next]
    ensures SectionLoaded(st, s, st.ini.lines[s] + [], entries, LoadLines(st, []))
  {
    assert next == |entries| && entries[..next] == entries;
    assert st.ini.lines[s] + [] == st.ini.lines[s];
    assert st.ini.lines[s := st.ini.lines[s]] == st.ini.lines;
  }

  lemma LoadLinesStep(st: Loading, line: string, st': Loading, rest: seq<string>)
    requires LoadLine(st, line) == Some(st')
    ensures LoadLines(st, [line] + rest) == LoadLines(st', rest)
  {
    assert ([line] + rest)[1..] == rest;
  }

  lemma StepLoaded(st: Loading, st': Loading, s: string, line: string, rest: seq<string>, entries: seq<Entry>, r: Option<Loading>)
    requires s in st.ini.lines && st'.ini.lines == st.ini.lines[s := st.ini.lines[s] + [line]]
    requires forall u :: u != s ==> st'.ini.Entries(u) == st.ini.Entries(u)
    requires SectionLoaded(st', s, st'.ini.lines[s] + rest, entries, r)
    ensures SectionLoaded(st, s, st.ini.lines[s] + ([line] + rest), entries, r)
  {
    var l := st.ini.lines[s];
    assert l + [line] + rest == l + ([line] + rest);
    assert st'.ini.lines[s := l + ([line] + rest)] == st.ini.lines[s := l + ([line] + rest)];
  }

  /** One printed line: it extends the section, and the entries if it is one. */
  lemma LineReload(s: string, lines: seq<string>, entries: seq<Entry>, i: nat, next: nat, st: Loading, line: string)
    returns (st': Loading)
    requires SectionOk(s, lines, entries) && First(s) <= i < |lines| && CursorAt(entries, i, next)
    requires st.current == s && s in st.ini.lines && |st.ini.lines[s]| == i && st.ini.Entries(s) == entries[..next]
    requires line == LineAt(lines, entries, i, next)
    ensures LoadLine(st, line) == Some(st') && st'.current == s
    ensures s in st'.ini.lines && |st'.ini.lines[s]| == i + 1
    ensures st'.ini.lines == st.ini.lines[s := st.ini.lines[s] + [line]]
    ensures CursorAt(entries, i + 1, Advance(entries, i, next))
    ensures st'.ini.Entries(s) == entries[..Advance(entries, i, next)]
    ensures forall u :: u != s ==> st'.ini.Entries(u) == st.ini.Entries(u)
  {
    CursorMoves(s, lines, entries, i, next);
    if Hit(entries, i, next) {
      var e := entries[next];
      assert entries[..next + 1] == entries[..next] + [e];
      EntryLoads(st, e);
    }
    st' := LoadLine(st, line).value;
  }

  /** A printed section, header included, loads into any state that does not have it yet. */
  lemma NamedReload(ini: Ini, s: string, st: Loading)
    requires s in ini.lines && s != GLOBAL && SectionOk(s, ini.lines[s], ini.Entries(s))
    requires s !in st.ini.lines && st.ini.Entries(s) == []
    ensures SectionLoaded(st, s, PrintSection(ini, s), ini.Entries(s), LoadLines(st, PrintSection(ini, s)))
  {
    var lines, entries := ini.lines[s], ini.Entries(s);
    var rest := PrintFrom(lines, entries, 1, 0);
    assert PrintSection(ini, s) == [Header(s)] + rest;
    HeaderLoads(st, s);
    var st' := Loading(s, st.ini.(lines := st.ini.lines[s := [Header(s)]]));
    SectionReload(s, lines, entries, 1, 0, st');
    assert st'.ini.lines[s := [Header(s)] + rest] == st.ini.lines[s := [Header(s)] + rest];
    assert forall u :: u != s ==> st'.ini.Entries(u) == st.ini.Entries(u);
  }

  lemma HeaderLoads(st: Loading, s: string)
    requires s !in st.ini.lines
    ensures LoadLine(st, Header(s)) == Some(Loading(s, st.ini.(lines := st.ini.lines[s := [Header(s)]])))
  {
    var line := Header(s);
    assert line[1..|line| - 1] == s && [] + [line] == [line];
  }

  // ---------------------------------------------------------------- all sections

  lemma {:induction false} LoadLinesConcat(st: Loading, a: seq<string>, b: seq<string>)
    ensures LoadLines(st, a + b) ==
      match LoadLines(st, a) case None => None case Some(mid) => LoadLines(mid, b)
    decreases |a|
  {
    if a == [] {
      assert a + b == b;
    } else {
      assert (a + b)[1..] == a[1..] + b;
      var next := LoadLine(st, a[0]);
      if next.Some? {
        LoadLinesConcat(next.value, a[1..], b);
      }
    }
  }

  /** Of the sections in `order`, each is now as printed; the others are as they were in st. */
  ghost predicate OrderLoaded(ini: Ini, order: seq<string>, st: Loading, r: Option<Loading>) {
    && r.Some? && r.value.ini.lines.Keys == st.ini.lines.Keys + Members(order)
    && forall s ::
      && r.value.ini.Lines(s) == (if s in order then PrintSection(ini, s) else st.ini.Lines(s))
      && r.value.ini.Entries(s) == (if s in order then ini.Entries(s) else st.ini.Entries(s))
  }

  ghost predicate CanFollow(ini: Ini, order: seq<string>, st: Loading) {
    && Ascending(order)
    && forall s :: s in order ==> s in ini.lines && s != GLOBAL && s !in st.ini.lines && st.ini.Entries(s) == []
  }

  lemma {:induction false} OrderReload(ini: Ini, order: seq<string>, st: Loading)
    requires WellFormed(ini) && CanFollow(ini, order, st)
    ensures OrderLoaded(ini, order, st, LoadLines(st, PrintAll(ini, order)))
    decreases |order|
  {
    if order == [] {
      assert Members(order) == {};
    } else {
      var s, rest := order[0], order[1..];
      NamedReload(ini, s, st);
      var mid := LoadLines(st, PrintSection(ini, s)).value;
      LoadLinesConcat(st, PrintSection(ini, s), PrintAll(ini, rest));
      FollowOn(ini, order, st, mid);
      OrderReload(ini, rest, mid);
      OrderStep(ini, order, st, mid, LoadLines(mid, PrintAll(ini, rest)));
    }
  }

  lemma OrderStep(ini: Ini, order: seq<string>, st: Loading, mid: Loading, r: Option<Loading>)
    requires order != [] && order[0] !in order[1..]
    requires SectionLoaded(st, order[0], PrintSection(ini, order[0]), ini.Entries(order[0]), Some(mid))
    requires OrderLoaded(ini, order[1..], mid, r)
    ensures OrderLoaded(ini, order, st, r)
  {
    var s, rest := order[0], order[1..];
    assert order == [s] + rest;
    MembersCons(s, rest);
    assert forall u :: u in order <==> u == s || u in rest;
  }

  lemma FollowOn(ini: Ini, order: seq<string>, st: Loading, mid: Loading)
    requires order != [] && CanFollow(ini, order, st)
    requires SectionLoaded(st, order[0], PrintSection(ini, order[0]), ini.Entries(order[0]), Some(mid))
    ensures CanFollow(ini, order[1..], mid) && order[0] !in order[1..]
  {
    LessIsIrreflexive(order[0]);
  }

  // ---------------------------------------------------------------- reloading

  /** The second file has the sections, entries and printed lines of the first. */
  ghost predicate SameFile(ini: Ini, again: Ini) {
    && again.lines.Keys == ini.lines.Keys + {GLOBAL}
    && forall s :: again.Lines(s) == PrintSection(ini, s) && again.Entries(s) == ini.Entries(s)
  }

  ghost predicate Reloads(ini: Ini) {
    LoadText(SavedText(ini)).Some? && SameFile(ini, LoadText(SavedText(ini)).value)
  }

  /** Lines before the first header are printed first only if no section sorts before "global". */
  ghost predicate GlobalFirst(ini: Ini) {
    ini.Lines(GLOBAL) == [] || IsLeast(GLOBAL, ini.lines.Keys)
  }

  ghost predicate HasLines(ini: Ini) {
    exists s :: s in ini.lines && ini.lines[s] != []
  }

  lemma {:induction false} PrintLength(lines: seq<string>, entries: seq<Entry>, i: nat, next: nat)
    requires i <= |lines|
    ensures |PrintFrom(lines, entries, i, next)| == |lines| - i
    decreases |lines| - i
  {
    if i < |lines| {
      PrintLength(lines, entries, i + 1, Advance(entries, i, next));
    }
  }

  /** A line that is no entry's place is printed as it is. */
  lemma {:induction false} PrintedWhereFree(lines: seq<string>, entries: seq<Entry>, i: nat, next: nat, j: nat)
    requires i <= j < |lines| && !EntryAt(entries, j)
    ensures |PrintFrom(lines, entries, i, next)| == |lines| - i
    ensures PrintFrom(lines, entries, i, next)[j - i] == lines[j]
    decreases |lines| - i
  {
    PrintLength(lines, entries, i, next);
    if i < j {
      PrintedWhereFree(lines, entries, i + 1, Advance(entries, i, next), j);
    }
  }

  lemma {:induction false} PrintOneLines(s: string, lines: seq<string>, entries: seq<Entry>, i: nat, next: nat)
    requires SectionOk(s, lines, entries) && i <= |lines| && CursorAt(entries, i, next)
    ensures OneLines(PrintFrom(lines, entries, i, next))
    decreases |lines| - i
  {
    if i < |lines| {
      CursorMoves(s, lines, entries, i, next);
      if Hit(entries, i, next) {
        PrintedEntry(entries[next]);
      }
      PrintOneLines(s, lines, entries, i + 1, Advance(entries, i, next));
    }
  }

  lemma {:induction false} AllOneLines(ini: Ini, order: seq<string>)
    requires WellFormed(ini)
    ensures OneLines(PrintAll(ini, order))
  {
    if order != [] {
      AllOneLines(ini, order[1..]);
      if order[0] in ini.lines {
        PrintOneLines(order[0], ini.lines[order[0]], ini.Entries(order[0]), 0, 0);
      }
    }
  }

  lemma {:induction false} AllNonEmpty(ini: Ini, order: seq<string>, s: string)
    requires s in order && s in ini.lines && ini.lines[s] != []
    ensures PrintAll(ini, order) != []
  {
    PrintLength(ini.Lines(order[0]), ini.Entries(order[0]), 0, 0);
    if order[0] != s {
      AllNonEmpty(ini, order[1..], s);
    }
  }

  /** What reading the saved text back amounts to. */
  lemma SavedLines(ini: Ini)
    requires WellFormed(ini) && HasLines(ini)
    ensures Split(SavedText(ini)) == PrintAll(ini, Sorted(ini.lines.Keys))
  {
    var order := Sorted(ini.lines.Keys);
    var s :| s in ini.lines && ini.lines[s] != [];
    SortedLists(ini.lines.Keys);
    assert s in Members(order);
    AllOneLines(ini, order);
    AllNonEmpty(ini, order, s);
    SplitOfJoin(PrintAll(ini, order));
  }

  lemma {:induction false} SkipEmpty(ini: Ini, order: seq<string>)
    requires PrintSection(ini, GLOBAL) == []
    ensures PrintAll(ini, Named(order)) == PrintAll(ini, order)
  {
    if order != [] {
      SkipEmpty(ini, order[1..]);
      var rest := Named(order[1..]);
      if order[0] == GLOBAL {
        assert [] + rest == rest && [] + PrintAll(ini, order[1..]) == PrintAll(ini, order[1..]);
      } else {
        assert ([order[0]] + rest)[1..] == rest;
      }
    }
  }

  /** An order without the unnamed section. */
  ghost function Named(order: seq<string>): seq<string> {
    if order == [] then [] else (if order[0] == GLOBAL then [] else [order[0]]) + Named(order[1..])
  }

  lemma {:induction false} NamedOrder(order: seq<string>)
    ensures forall s :: s in Named(order) <==> s in order && s != GLOBAL
    ensures Ascending(order) ==> Ascending(Named(order))
  {
    if order != [] {
      NamedOrder(order[1..]);
      var rest := Named(order[1..]);
      if Ascending(order) {
        forall i | 0 <= i < |rest|
          ensures Less(order[0], rest[i])
        {
          assert rest[i] in order[1..];
        }
      }
    }
  }

  ghost predicate ListsNamed(order: seq<string>, ini: Ini) {
    Ascending(order) && forall s :: s in order <==> s in ini.lines && s != GLOBAL
  }

  lemma SortedNamed(ini: Ini)
    ensures ListsNamed(Named(Sorted(ini.lines.Keys)), ini)
  {
    var order := Sorted(ini.lines.Keys);
    SortedLists(ini.lines.Keys);
    assert forall s :: s in order <==> s in Members(order);
    NamedOrder(order);
  }

  /** Loading the named sections after the unnamed one completes the file. */
  lemma CompletesFile(ini: Ini, order: seq<string>, st: Loading, r: Option<Loading>)
    requires ListsNamed(order, ini) && OrderLoaded(ini, order, st, r) && ini.data.Keys <= ini.lines.Keys
    requires OnlyGlobal(ini, st)
    ensures r.Some? && SameFile(ini, r.value.ini)
  {
    var again := r.value.ini;
    assert forall s :: s in Members(order) <==> s in order;
    assert again.lines.Keys == ini.lines.Keys + {GLOBAL};
    forall s
      ensures again.Lines(s) == PrintSection(ini, s) && again.Entries(s) == ini.Entries(s)
    {
      if s !in order && s != GLOBAL {
        AbsentSection(ini, s);
      }
    }
  }

  lemma AbsentSection(ini: Ini, s: string)
    requires s !in ini.lines && ini.data.Keys <= ini.lines.Keys
    ensures PrintSection(ini, s) == [] && ini.Entries(s) == []
  {
  }

  /** Loading the saved text is loading the printed lines. */
  lemma ReloadedBy(ini: Ini, printed: seq<string>)
    requires WellFormed(ini) && HasLines(ini) && printed == PrintAll(ini, Sorted(ini.lines.Keys))
    requires var r := LoadLines(Start(), printed); r.Some? && SameFile(ini, r.value.ini)
    ensures Reloads(ini)
  {
    SavedLines(ini);
  }

  lemma StartIsGlobal(ini: Ini)
    requires WellFormed(ini) && ini.Lines(GLOBAL) == []
    ensures PrintSection(ini, GLOBAL) == [] && OnlyGlobal(ini, Start())
  {
    if GLOBAL in ini.lines {
      assert EntriesOk(GLOBAL, 0, ini.Entries(GLOBAL));
    }
  }

  /** A state that has the unnamed section and nothing else. */
  ghost predicate OnlyGlobal(ini: Ini, st: Loading) {
    && st.ini.lines.Keys == {GLOBAL}
    && st.ini.Lines(GLOBAL) == PrintSection(ini, GLOBAL) && st.ini.Entries(GLOBAL) == ini.Entries(GLOBAL)
    && forall s :: s != GLOBAL ==> st.ini.Entries(s) == []
  }

  lemma ReloadRest(ini: Ini, order: seq<string>, st: Loading)
    requires WellFormed(ini) && ListsNamed(order, ini) && OnlyGlobal(ini, st)
    ensures var r := LoadLines(st, PrintAll(ini, order)); r.Some? && SameFile(ini, r.value.ini)
  {
    OrderReload(ini, order, st);
    CompletesFile(ini, order, st, LoadLines(st, PrintAll(ini, order)));
  }

  /** Without lines before the first header: the named sections load one after the other. */
  lemma ReloadNamed(ini: Ini)
    requires WellFormed(ini) && HasLines(ini) && ini.Lines(GLOBAL) == []
    ensures Reloads(ini)
  {
    var order := Named(Sorted(ini.lines.Keys));
    SortedNamed(ini);
    StartIsGlobal(ini);
    ReloadRest(ini, order, Start());
    SkipEmpty(ini, Sorted(ini.lines.Keys));
    ReloadedBy(ini, PrintAll(ini, order));
  }

  lemma LeastFirst(keys: set<string>, k: string)
    requires IsLeast(k, keys)
    ensures Sorted(keys) == [k] + Sorted(keys - {k})
  {
    LeastIsUnique(k, Least(keys), keys);
  }

  lemma GlobalLoads(ini: Ini) returns (mid: Loading)
    requires WellFormed(ini) && GLOBAL in ini.lines
    ensures LoadLines(Start(), PrintSection(ini, GLOBAL)) == Some(mid) && OnlyGlobal(ini, mid)
  {
    SectionReload(GLOBAL, ini.lines[GLOBAL], ini.Entries(GLOBAL), 0, 0, Start());
    assert [] + PrintSection(ini, GLOBAL) == PrintSection(ini, GLOBAL);
    mid := LoadLines(Start(), PrintSection(ini, GLOBAL)).value;
  }

  /** With such lines: they load first, and stay in the unnamed section. */
  lemma ReloadGlobal(ini: Ini)
    requires WellFormed(ini) && ini.Lines(GLOBAL) != [] && IsLeast(GLOBAL, ini.lines.Keys)
    ensures Reloads(ini)
  {
    var keys := ini.lines.Keys;
    var rest := Sorted(keys - {GLOBAL});
    LeastFirst(keys, GLOBAL);
    SortedLists(keys - {GLOBAL});
    assert forall s :: s in rest <==> s in Members(rest);
    assert ([GLOBAL] + rest)[1..] == rest;
    var mid := GlobalLoads(ini);
    LoadLinesConcat(Start(), PrintSection(ini, GLOBAL), PrintAll(ini, rest));
    ReloadRest(ini, rest, mid);
    ReloadedBy(ini, PrintSection(ini, GLOBAL) + PrintAll(ini, rest));
  }

  // ---------------------------------------------------------------- the converse

  /** Once a header has been read, no line goes to the unnamed section any more. */
  lemma {:induction false} GlobalStays(st: Loading, ls: seq<string>)
    requires st.current != GLOBAL && GLOBAL in st.ini.lines && LoadLines(st, ls).Some?
    ensures LoadLines(st, ls).value.ini.Lines(GLOBAL) == st.ini.Lines(GLOBAL)
    decreases |ls|
  {
    if ls != [] {
      GlobalStays(LoadLine(st, ls[0]).value, ls[1..]);
    }
  }

  lemma NotFirstIsLost(ini: Ini)
    requires WellFormed(ini) && ini.Lines(GLOBAL) != [] && !IsLeast(GLOBAL, ini.lines.Keys)
    ensures !Reloads(ini)
  {
    var keys := ini.lines.Keys;
    var s := Least(keys);
    SavedLines(ini);
    var printed := PrintAll(ini, Sorted(keys));
    assert printed[0] == Header(s) && LoadLines(Start(), printed).Some? ==> LoadText(SavedText(ini)).value.Lines(GLOBAL) == [] by {
      if printed[0] == Header(s) && LoadLines(Start(), printed).Some? {
        HeaderLoads(Start(), s);
        GlobalStays(LoadLine(Start(), printed[0]).value, printed[1..]);
      }
    }
    FirstIsHeader(ini, s, printed);
    PrintLength(ini.lines[GLOBAL], ini.Entries(GLOBAL), 0, 0);
  }

  lemma FirstIsHeader(ini: Ini, s: string, printed: seq<string>)
    requires WellFormed(ini) && s in ini.lines && s != GLOBAL && PrintSection(ini, s) <= printed
    ensures printed != [] && printed[0] == Header(s)
  {
    assert SectionOk(s, ini.lines[s], ini.Entries(s));
    assert PrintSection(ini, s)[0] == Header(s);
  }

  // ---------------------------------------------------------------- nothing at all

  lemma {:induction false} NothingPrinted(ini: Ini, order: seq<string>)
    requires !HasLines(ini)
    ensures PrintAll(ini, order) == []
  {
    if order != [] {
      NothingPrinted(ini, order[1..]);
      assert order[0] in ini.lines ==> ini.lines[order[0]] == [];
      assert PrintSection(ini, order[0]) == [];
    }
  }

  /** An empty file is read as one blank line. */
  lemma LoadsNothing()
    ensures LoadText("") == Some(Ini(map[GLOBAL := []], map[GLOBAL := [""]]))
  {
    var st := Start();
    assert [] + [""] == [""] && [""][1..] == [];
    var end := Loading(GLOBAL, AddLine(st.ini, GLOBAL, ""));
    assert end.ini.lines == map[GLOBAL := [""]];
    assert LoadLine(st, "") == Some(end) && LoadLines(end, []) == Some(end);
    assert LoadLines(st, [""]) == Some(end);
  }

  lemma NothingIsNotReloaded(ini: Ini)
    requires WellFormed(ini) && !HasLines(ini)
    ensures GlobalFirst(ini) && !Reloads(ini) && SavedText(ini) == ""
    ensures forall s :: ini.Entries(s) == []
  {
    NothingPrinted(ini, Sorted(ini.lines.Keys));
    LoadsNothing();
    assert GLOBAL in ini.lines ==> ini.lines[GLOBAL] == [];
    assert PrintSection(ini, GLOBAL) == [];
    forall s
      ensures ini.Entries(s) == []
    {
      assert s in ini.lines ==> ini.lines[s] == [] && EntriesOk(s, 0, ini.Entries(s));
    }
  }

  /** Saving and loading again gives the same sections, entries and lines if and only if there is
      a line at all, and nothing before the first header or no section name before "global". */
  lemma ReloadsExactly(ini: Ini)
    requires WellFormed(ini)
    ensures Reloads(ini) <==> HasLines(ini) && GlobalFirst(ini)
  {
    if !HasLines(ini) {
      NothingIsNotReloaded(ini);
    } else if ini.Lines(GLOBAL) == [] {
      ReloadNamed(ini);
    } else if IsLeast(GLOBAL, ini.lines.Keys) {
      ReloadGlobal(ini);
    } else {
      NotFirstIsLost(ini);
    }
  }

  /** The values survive even where there is no line. */
  lemma ReloadedLookup(ini: Ini, s: string, f: string)
    requires WellFormed(ini) && GlobalFirst(ini)
    ensures LoadText(SavedText(ini)).Some? && Lookup(LoadText(SavedText(ini)).value, s, f) == Lookup(ini, s, f)
  {
    if HasLines(ini) {
      ReloadsExactly(ini);
    } else {
      NothingIsNotReloaded(ini);
      LoadsNothing();
    }
  }
}
