/** Saving what was just loaded reproduces the text exactly when its sections are in map order. */
module IniVerbatim {
  import opened ClockErrors
  import opened IniText
  import opened IniParser
  import opened IniInvariant
  import opened IniReload
  import IniTheorems

  predicate IsSectionLine(line: string) {
    !Plain(line) && line[0] == '[' && line[|line| - 1] == ']'
  }

  function NameIn(line: string): string
    requires IsSectionLine(line)
  {
    line[1..|line| - 1]
  }

  function NamesIn(line: string): seq<string> {
    if IsSectionLine(line) then [NameIn(line)] else []
  }

  /** The section names of a file, in the order of their headers. */
  function SectionsOf(ls: seq<string>): seq<string> {
    if ls == [] then []
    else NamesIn(ls[0]) + SectionsOf(ls[1..])
  }

  /** The same with "global" in front if there are lines before the first header. */
  function Visible(ls: seq<string>): seq<string> {
    (if ls != [] && !IsSectionLine(ls[0]) then [GLOBAL] else []) + SectionsOf(ls)
  }

  // ---------------------------------------------------------------- blocks of lines

  function Blocks(ini: Ini, order: seq<string>): seq<string> {
    if order == [] then [] else Blocks(ini, order[..|order| - 1]) + ini.Lines(order[|order| - 1])
  }

  ghost predicate NoRepeats(order: seq<string>) {
    forall i, j :: 0 <= i < j < |order| ==> order[i] != order[j]
  }

  lemma {:induction false} BlocksFrame(ini: Ini, ini': Ini, order: seq<string>)
    requires forall s :: s in order ==> ini'.Lines(s) == ini.Lines(s)
    ensures Blocks(ini', order) == Blocks(ini, order)
  {
    if order != [] {
      BlocksFrame(ini, ini', order[..|order| - 1]);
    }
  }

  /** The sections met so far, in this order, hold exactly the lines read so far. */
  ghost predicate InOrder(st: Loading, order: seq<string>, done: seq<string>) {
    && order != [] && NoRepeats(order) && st.current == order[|order| - 1]
    && (forall s :: s in order <==> s in st.ini.lines)
    && Blocks(st.ini, order) == done && st.ini.data.Keys <= st.ini.lines.Keys
  }

  lemma HeaderIsLoaded(st: Loading, line: string)
    requires LoadLine(st, line).Some?
    ensures var st' := LoadLine(st, line).value;
      if IsSectionLine(line) then st'.current == NameIn(line) && NameIn(line) !in st.ini.lines
      else st'.current == st.current
  {
  }

  ghost predicate Extends(st: Loading, line: string, st': Loading) {
    var s := st'.current;
    && st'.ini.lines.Keys == st.ini.lines.Keys + {s} && st'.ini.Lines(s) == st.ini.Lines(s) + [line]
    && st'.ini.data.Keys <= st'.ini.lines.Keys
    && forall u :: u != s ==> st'.ini.Lines(u) == st.ini.Lines(u)
  }

  lemma BlocksSnoc(ini: Ini, order: seq<string>, s: string)
    ensures Blocks(ini, order + [s]) == Blocks(ini, order) + ini.Lines(s)
  {
    assert (order + [s])[..|order|] == order;
  }

  lemma NewBlock(st: Loading, order: seq<string>, done: seq<string>, line: string, st': Loading)
    requires InOrder(st, order, done) && Extends(st, line, st') && st'.current !in st.ini.lines
    ensures InOrder(st', order + [st'.current], done + [line])
  {
    var s := st'.current;
    BlocksFrame(st.ini, st'.ini, order);
    BlocksSnoc(st'.ini, order, s);
    assert st'.ini.Lines(s) == [] + [line] == [line];
  }

  lemma SameBlock(st: Loading, order: seq<string>, done: seq<string>, line: string, st': Loading)
    requires InOrder(st, order, done) && Extends(st, line, st') && st'.current == st.current
    ensures InOrder(st', order, done + [line])
  {
    var front, s := order[..|order| - 1], st.current;
    BlocksFrame(st.ini, st'.ini, front);
    assert Blocks(st.ini, front) + (st.ini.Lines(s) + [line]) == Blocks(st.ini, front) + st.ini.Lines(s) + [line];
  }

  lemma InOrderStep(st: Loading, order: seq<string>, done: seq<string>, line: string)
    requires InOrder(st, order, done) && LoadLine(st, line).Some?
    ensures InOrder(LoadLine(st, line).value, order + NamesIn(line), done + [line])
  {
    var st' := LoadLine(st, line).value;
    LineEffect(st, line);
    HeaderIsLoaded(st, line);
    if IsSectionLine(line) {
      NewBlock(st, order, done, line, st');
    } else {
      SameBlock(st, order, done, line, st');
      assert order + [] == order;
    }
  }

  lemma LoadHead(st: Loading, ls: seq<string>) returns (next: Loading)
    requires ls != [] && LoadLines(st, ls).Some?
    ensures LoadLine(st, ls[0]) == Some(next) && LoadLines(next, ls[1..]) == LoadLines(st, ls)
  {
    next := LoadLine(st, ls[0]).value;
  }

  lemma ConcatAssociates(a: seq<string>, b: seq<string>, c: seq<string>)
    ensures a + b + c == a + (b + c)
  {
  }

  lemma HeadMoves(order: seq<string>, done: seq<string>, ls: seq<string>)
    requires ls != []
    ensures order + NamesIn(ls[0]) + SectionsOf(ls[1..]) == order + SectionsOf(ls)
    ensures done + [ls[0]] + ls[1..] == done + ls
  {
    ConcatAssociates(order, NamesIn(ls[0]), SectionsOf(ls[1..]));
    ConcatAssociates(done, [ls[0]], ls[1..]);
    assert [ls[0]] + ls[1..] == ls;
  }

  lemma NextInOrder(st: Loading, order: seq<string>, done: seq<string>, ls: seq<string>) returns (next: Loading)
    requires InOrder(st, order, done) && ls != [] && LoadLines(st, ls).Some?
    ensures InOrder(next, order + NamesIn(ls[0]), done + [ls[0]]) && LoadLines(next, ls[1..]) == LoadLines(st, ls)
  {
    next := LoadHead(st, ls);
    InOrderStep(st, order, done, ls[0]);
  }

  lemma {:induction false} InOrderAll(st: Loading, order: seq<string>, done: seq<string>, ls: seq<string>)
    requires InOrder(st, order, done) && LoadLines(st, ls).Some?
    ensures InOrder(LoadLines(st, ls).value, order + SectionsOf(ls), done + ls)
    decreases |ls|
  {
    if ls == [] {
      assert done + ls == done && order + [] == order;
    } else {
      var next := NextInOrder(st, order, done, ls);
      InOrderAll(next, order + NamesIn(ls[0]), done + [ls[0]], ls[1..]);
      HeadMoves(order, done, ls);
    }
  }

  /** The order and the lines of a loaded file. */
  lemma LoadedOrder(text: string)
    requires LoadText(text).Some?
    ensures var ini, order := LoadText(text).value, [GLOBAL] + SectionsOf(Split(text));
      && WellFormed(ini) && AllVerbatim(ini) && NoRepeats(order)
      && (forall s :: s in order <==> s in ini.lines) && Blocks(ini, order) == Split(text)
  {
    var ls := Split(text);
    LoadedIsWellFormed(text);
    assert [GLOBAL][..0] == [];
    assert Blocks(Start().ini, [GLOBAL]) == Blocks(Start().ini, []) + [] == [];
    InOrderAll(Start(), [GLOBAL], [], ls);
    assert [] + ls == ls;
  }

  // ---------------------------------------------------------------- printing is copying

  lemma {:induction false} PrintCopies(s: string, lines: seq<string>, entries: seq<Entry>, i: nat, next: nat)
    requires EntriesOk(s, |lines|, entries) && Verbatim(lines, entries) && i <= |lines| && CursorAt(entries, i, next)
    ensures PrintFrom(lines, entries, i, next) == lines[i..]
    decreases |lines| - i
  {
    if i < |lines| {
      CursorMoves(s, lines, entries, i, next);
      PrintCopies(s, lines, entries, i + 1, Advance(entries, i, next));
    }
  }

  lemma PrintedIsStored(ini: Ini, s: string)
    requires WellFormed(ini) && AllVerbatim(ini)
    ensures PrintSection(ini, s) == ini.Lines(s)
  {
    if s in ini.lines {
      PrintCopies(s, ini.lines[s], ini.Entries(s), 0, 0);
    }
  }

  lemma {:induction false} PrintAllSnoc(ini: Ini, order: seq<string>, s: string)
    ensures PrintAll(ini, order + [s]) == PrintAll(ini, order) + PrintSection(ini, s)
  {
    if order == [] {
      assert [s][1..] == [];
    } else {
      assert (order + [s])[1..] == order[1..] + [s];
      PrintAllSnoc(ini, order[1..], s);
    }
  }

  lemma {:induction false} PrintedBlocks(ini: Ini, order: seq<string>)
    requires WellFormed(ini) && AllVerbatim(ini)
    ensures PrintAll(ini, order) == Blocks(ini, order)
  {
    if order != [] {
      var n := |order| - 1;
      assert order == order[..n] + [order[n]];
      PrintedBlocks(ini, order[..n]);
      PrintAllSnoc(ini, order[..n], order[n]);
      PrintedIsStored(ini, order[n]);
    }
  }

  // ---------------------------------------------------------------- reading the order off the lines

  lemma NotHeaders(s: string, lines: seq<string>, entries: seq<Entry>, i: nat)
    requires SectionOk(s, lines, entries) && Verbatim(lines, entries) && First(s) <= i < |lines|
    ensures !IsSectionLine(lines[i])
  {
    if EntryAt(entries, i) {
      var k :| 0 <= k < |entries| && entries[k].index == i;
      PrintedEntry(entries[k]);
    }
  }

  lemma {:induction false} SectionsOfBlock(s: string, lines: seq<string>, entries: seq<Entry>, n: nat)
    requires SectionOk(s, lines, entries) && Verbatim(lines, entries) && n <= |lines|
    ensures SectionsOf(lines[n..]) == if n < First(s) then [s] else []
    decreases |lines| - n
  {
    if n < |lines| {
      SectionsOfBlock(s, lines, entries, n + 1);
      assert lines[n..][1..] == lines[n + 1..];
      if n >= First(s) {
        NotHeaders(s, lines, entries, n);
      } else {
        assert Header(s)[1..|Header(s)| - 1] == s;
      }
    }
  }

  lemma {:induction false} SectionsOfConcat(a: seq<string>, b: seq<string>)
    ensures SectionsOf(a + b) == SectionsOf(a) + SectionsOf(b)
  {
    if a == [] {
      assert a + b == b;
    } else {
      assert (a + b)[1..] == a[1..] + b;
      SectionsOfConcat(a[1..], b);
    }
  }

  lemma {:induction false} NamedSnoc(order: seq<string>, s: string)
    ensures Named(order + [s]) == Named(order) + if s == GLOBAL then [] else [s]
  {
    if order == [] {
      assert [s][1..] == [];
    } else {
      assert (order + [s])[1..] == order[1..] + [s];
      NamedSnoc(order[1..], s);
    }
  }

  lemma {:induction false} SectionsOfBlocks(ini: Ini, order: seq<string>)
    requires WellFormed(ini) && AllVerbatim(ini) && forall s :: s in order ==> s in ini.lines
    ensures SectionsOf(Blocks(ini, order)) == Named(order)
  {
    if order != [] {
      var n, s := |order| - 1, order[|order| - 1];
      assert order == order[..n] + [s];
      SectionsOfBlocks(ini, order[..n]);
      SectionsOfConcat(Blocks(ini, order[..n]), ini.lines[s]);
      SectionsOfBlock(s, ini.lines[s], ini.Entries(s), 0);
      NamedSnoc(order[..n], s);
    }
  }

  // ---------------------------------------------------------------- the theorem

  /** The first line of a loaded file is a header exactly if the unnamed section has no lines. */
  lemma {:induction false} FirstLine(ini: Ini, order: seq<string>)
    requires WellFormed(ini) && AllVerbatim(ini) && order != [] && forall s :: s in order ==> s in ini.lines
    requires ini.lines[order[0]] != []
    ensures Blocks(ini, order) != [] && Blocks(ini, order)[0] == ini.lines[order[0]][0]
    ensures IsSectionLine(Blocks(ini, order)[0]) <==> order[0] != GLOBAL
  {
    var n := |order| - 1;
    if n == 0 {
      var s := order[0];
      assert Blocks(ini, order) == [] + ini.lines[s];
      if s == GLOBAL {
        NotHeaders(s, ini.lines[s], ini.Entries(s), 0);
      }
    } else {
      FirstLine(ini, order[..n]);
    }
  }

  lemma {:induction false} DropFirst(ini: Ini, s: string, order: seq<string>)
    requires ini.Lines(s) == []
    ensures Blocks(ini, [s] + order) == Blocks(ini, order)
  {
    var n := |order| - 1;
    if order == [] {
      assert [s][..0] == [];
    } else {
      assert ([s] + order)[..|order|] == [s] + order[..n];
      DropFirst(ini, s, order[..n]);
    }
  }

  /** Two ascending lists of the same names are the same list. */
  lemma SameAscending(a: seq<string>, b: seq<string>)
    requires Ascending(a) && Ascending(b) && forall s :: s in a <==> s in b
    ensures a == b
  {
    AscendingIsSorted(a);
    AscendingIsSorted(b);
    assert Members(a) == Members(b) by {
      assert forall s :: s in Members(a) <==> s in a;
      assert forall s :: s in Members(b) <==> s in b;
    }
  }

  /** The facts about a loaded file that the theorem needs. */
  ghost predicate LoadedAs(ini: Ini, names: seq<string>, ls: seq<string>) {
    && WellFormed(ini) && AllVerbatim(ini) && NoRepeats([GLOBAL] + names)
    && (forall s :: s in [GLOBAL] + names <==> s in ini.lines) && Blocks(ini, [GLOBAL] + names) == ls
    && ls != [] && names == SectionsOf(ls)
  }

  lemma VisibleIs(ini: Ini, names: seq<string>, ls: seq<string>)
    requires LoadedAs(ini, names, ls)
    ensures Visible(ls) == (if ini.Lines(GLOBAL) == [] then [] else [GLOBAL]) + names
  {
    if ini.Lines(GLOBAL) == [] {
      HeaderComesFirst(ini, names, ls);
    } else {
      FirstLine(ini, [GLOBAL] + names);
    }
  }

  lemma HeaderComesFirst(ini: Ini, names: seq<string>, ls: seq<string>)
    requires LoadedAs(ini, names, ls) && ini.Lines(GLOBAL) == []
    ensures Blocks(ini, names) == ls && GLOBAL !in names && IsSectionLine(ls[0])
  {
    DropFirst(ini, GLOBAL, names);
    HeadApart(GLOBAL, names);
    assert names != [];
    NamedHasLines(ini, names[0]);
    FirstLine(ini, names);
  }

  lemma HeadApart(g: string, names: seq<string>)
    requires NoRepeats([g] + names)
    ensures g !in names && forall s :: s in [g] + names <==> s == g || s in names
  {
    var order := [g] + names;
    assert forall i :: 0 <= i < |names| ==> names[i] == order[i + 1] && order[0] != order[i + 1];
  }

  lemma NamedHasLines(ini: Ini, s: string)
    requires WellFormed(ini) && s in ini.lines && s != GLOBAL
    ensures ini.lines[s] != []
  {
    assert SectionOk(s, ini.lines[s], ini.Entries(s));
  }

  /** The sections as save lists them, without "global" if that prints nothing. */
  ghost function Shown(ini: Ini): seq<string> {
    var order := Sorted(ini.lines.Keys);
    if ini.Lines(GLOBAL) == [] then Named(order) else order
  }

  lemma ShownBlocks(ini: Ini)
    requires WellFormed(ini) && AllVerbatim(ini)
    ensures PrintAll(ini, Sorted(ini.lines.Keys)) == Blocks(ini, Shown(ini)) && Ascending(Shown(ini))
    ensures forall s :: s in Shown(ini) <==> s in ini.lines && (s == GLOBAL ==> ini.Lines(GLOBAL) != [])
  {
    var order := Sorted(ini.lines.Keys);
    SortedLists(ini.lines.Keys);
    assert forall s :: s in order <==> s in Members(order);
    NamedOrder(order);
    PrintedBlocks(ini, Shown(ini));
    if ini.Lines(GLOBAL) == [] {
      PrintedIsStored(ini, GLOBAL);
      SkipEmpty(ini, order);
    }
  }

  /** The lines of the file in the visible order are the lines of the file. */
  lemma VisibleBlocks(ini: Ini, names: seq<string>, ls: seq<string>)
    requires LoadedAs(ini, names, ls)
    ensures Blocks(ini, Visible(ls)) == ls
    ensures forall s :: s in Visible(ls) <==> s in Shown(ini)
  {
    VisibleIs(ini, names, ls);
    ShownBlocks(ini);
    if ini.Lines(GLOBAL) == [] {
      HeaderComesFirst(ini, names, ls);
      assert [] + names == names;
      HeadApart(GLOBAL, names);
    }
  }

  lemma PrintedInOrder(ini: Ini, names: seq<string>, ls: seq<string>)
    requires LoadedAs(ini, names, ls)
    ensures Blocks(ini, Shown(ini)) == ls <==> Ascending(Visible(ls))
  {
    VisibleIs(ini, names, ls);
    VisibleBlocks(ini, names, ls);
    ShownBlocks(ini);
    if Ascending(Visible(ls)) {
      SameAscending(Visible(ls), Shown(ini));
    }
    if Blocks(ini, Shown(ini)) == ls {
      ShownIsVisible(ini, names, ls);
    }
  }

  /** If the printed lines are those of the file, they list the sections in the file's order. */
  lemma ShownIsVisible(ini: Ini, names: seq<string>, ls: seq<string>)
    requires LoadedAs(ini, names, ls) && Blocks(ini, Shown(ini)) == ls
    ensures Visible(ls) == Shown(ini)
  {
    var shown := Shown(ini);
    ShownBlocks(ini);
    VisibleIs(ini, names, ls);
    SectionsOfBlocks(ini, shown);
    if ini.Lines(GLOBAL) == [] {
      NamedIsAll(shown);
      assert [] + names == names;
    } else {
      assert GLOBAL in shown;
      assert shown[0] in ini.lines && SectionOk(shown[0], ini.lines[shown[0]], ini.Entries(shown[0]));
      FirstLine(ini, shown);
      FirstLine(ini, [GLOBAL] + names);
      assert shown[0] == GLOBAL;
      LessIsIrreflexive(GLOBAL);
      NamedIsAll(shown[1..]);
      assert shown == [GLOBAL] + shown[1..];
      assert [] + Named(shown[1..]) == Named(shown[1..]);
    }
  }

  lemma {:induction false} NamedIsAll(order: seq<string>)
    requires GLOBAL !in order
    ensures Named(order) == order
  {
    if order != [] {
      NamedIsAll(order[1..]);
      assert [order[0]] + order[1..] == order;
    }
  }

  /** For every text that loads: saving it again writes the identical text, comments, blank lines
      and final newline included, if and only if its sections, counting the lines before the first
      header as "global", stand in ascending order of their names. */
  lemma SaveUndoesLoad(text: string)
    requires LoadText(text).Some?
    ensures SavedText(LoadText(text).value) == text <==> Ascending(Visible(Split(text)))
  {
    var ini, ls := LoadText(text).value, Split(text);
    var names := SectionsOf(ls);
    LoadedOrder(text);
    assert LoadedAs(ini, names, ls);
    PrintedInOrder(ini, names, ls);
    ShownBlocks(ini);
    JoinOfSplit(text);
    IniTheorems.LoadedHasLines(Start(), ls);
    SavedLines(ini);
  }

  /** Without the order condition: reloading what was saved gives the same lines and entries for
      every section if and only if there is nothing before the first header, or "global" sorts
      first. */
  lemma LoadedFileReloads(text: string)
    requires LoadText(text).Some?
    ensures var ini := LoadText(text).value;
      && (Reloads(ini) <==> GlobalFirst(ini))
      && (Reloads(ini) ==> LoadText(SavedText(ini)).value.lines == ini.lines)
      && (Reloads(ini) ==> forall s :: LoadText(SavedText(ini)).value.Entries(s) == ini.Entries(s))
  {
    var ini := LoadText(text).value;
    LoadedOrder(text);
    IniTheorems.LoadedHasLines(Start(), Split(text));
    ReloadsExactly(ini);
    assert GLOBAL in [GLOBAL] + SectionsOf(Split(text));
    if Reloads(ini) {
      AllStored(ini);
      SameLines(ini, LoadText(SavedText(ini)).value);
    }
  }

  lemma AllStored(ini: Ini)
    requires WellFormed(ini) && AllVerbatim(ini)
    ensures forall s :: PrintSection(ini, s) == ini.Lines(s)
  {
    forall s
      ensures PrintSection(ini, s) == ini.Lines(s)
    {
      PrintedIsStored(ini, s);
    }
  }

  lemma SameLines(ini: Ini, again: Ini)
    requires GLOBAL in ini.lines && SameFile(ini, again) && forall s :: PrintSection(ini, s) == ini.Lines(s)
    ensures again.lines == ini.lines
  {
    assert forall s :: s in ini.lines ==> again.lines[s] == again.Lines(s) && ini.lines[s] == ini.Lines(s);
  }
}
