/** IniParser: a line store for every section and an index of the entries in it, filled from a
    text, edited in place and printed back. */
module IniParser {
  import opened ClockErrors
  import opened IniText

  const GLOBAL := "global"

  datatype Entry = Entry(section: string, field: string, index: nat, value: string)

  /** The two maps of the parser. */
  datatype Ini = Ini(data: map<string, seq<Entry>>, lines: map<string, seq<string>>)
  {
    function Entries(s: string): seq<Entry> {
      if s in data then data[s] else []
    }
    function Lines(s: string): seq<string> {
      if s in lines then lines[s] else []
    }
  }

  // ---------------------------------------------------------------- load

  /** Blank lines, lines of one character and comments are kept but not parsed. */
  predicate Plain(line: string) {
    |line| <= 1 || line[0] == ';'
  }

  function FindEquals(line: string): (n: Option<nat>)
    ensures n.Some? ==> n.value < |line| && line[n.value] == '=' && '=' !in line[..n.value]
    ensures n.None? ==> '=' !in line
  {
    if line == "" then None
    else if line[0] == '=' then Some(0)
    else
      match FindEquals(line[1..])
      case None => None
      case Some(k) =>
        assert line[..k + 1] == [line[0]] + line[1..][..k];
        Some(k + 1)
  }

  predicate HasField(entries: seq<Entry>, field: string) {
    exists i :: 0 <= i < |entries| && entries[i].field == field
  }

  /** The maps, and the section that the next line belongs to. */
  datatype Loading = Loading(current: string, ini: Ini)

  function AddLine(ini: Ini, s: string, line: string): Ini {
    ini.(lines := ini.lines[s := ini.Lines(s) + [line]])
  }

  function AddEntry(ini: Ini, s: string, e: Entry): Ini {
    ini.(data := ini.data[s := ini.Entries(s) + [e]])
  }

  /** One line of a file; None stands for a syntax error. */
  function LoadLine(st: Loading, line: string): Option<Loading> {
    var s, ini := st.current, st.ini;
    if Plain(line) then Some(Loading(s, AddLine(ini, s, line)))
    else if line[0] == '[' then
      if line[|line| - 1] != ']' then None
      else
        var name := line[1..|line| - 1];
        if name in ini.lines then None else Some(Loading(name, AddLine(ini, name, line)))
    else
      match FindEquals(line)
      case None => None
      case Some(n) =>
        if HasField(ini.Entries(s), line[..n]) then None
        else
          var e := Entry(s, line[..n], |ini.Lines(s)|, line[n + 1..]);
          Some(Loading(s, AddLine(AddEntry(ini, s, e), s, line)))
  }

  function LoadLines(st: Loading, ls: seq<string>): Option<Loading>
    decreases |ls|
  {
    if ls == [] then Some(st)
    else
      match LoadLine(st, ls[0])
      case None => None
      case Some(next) => LoadLines(next, ls[1..])
  }

  /** The maps when reading stops: after the last line, or before the first that does not parse. */
  function LoadedPart(st: Loading, ls: seq<string>): Ini
    decreases |ls|
  {
    if ls == [] || LoadLine(st, ls[0]).None? then st.ini else LoadedPart(LoadLine(st, ls[0]).value, ls[1..])
  }

  function Start(): Loading {
    Loading(GLOBAL, Ini(map[GLOBAL := []], map[GLOBAL := []]))
  }

  function LoadText(text: string): Option<Ini> {
    match LoadLines(Start(), Split(text))
    case None => None
    case Some(st) => Some(st.ini)
  }

  // ---------------------------------------------------------------- save

  function Text(e: Entry): string {
    e.field + "=" + e.value
  }

  /** The cursor meets the index of entry `next` at line i. */
  predicate Hit(entries: seq<Entry>, i: nat, next: nat) {
    next < |entries| && i == entries[next].index
  }

  function LineAt(lines: seq<string>, entries: seq<Entry>, i: nat, next: nat): string
    requires i < |lines|
  {
    if Hit(entries, i, next) then Text(entries[next]) else lines[i]
  }

  function Advance(entries: seq<Entry>, i: nat, next: nat): nat {
    if Hit(entries, i, next) then next + 1 else next
  }

  /** Lines i and on of a section, with entries next and on printed in their places. */
  function PrintFrom(lines: seq<string>, entries: seq<Entry>, i: nat, next: nat): seq<string>
    requires i <= |lines|
    decreases |lines| - i
  {
    if i == |lines| then []
    else [LineAt(lines, entries, i, next)] + PrintFrom(lines, entries, i + 1, Advance(entries, i, next))
  }

  function PrintSection(ini: Ini, s: string): seq<string> {
    PrintFrom(ini.Lines(s), ini.Entries(s), 0, 0)
  }

  function PrintAll(ini: Ini, order: seq<string>): seq<string> {
    if order == [] then [] else PrintSection(ini, order[0]) + PrintAll(ini, order[1..])
  }

  ghost function SavedText(ini: Ini): string {
    Join(PrintAll(ini, Sorted(ini.lines.Keys)))
  }

  /** The maps after save: looking for entries on its lines gave every section an entry list. */
  function AfterSave(ini: Ini): Ini {
    var listed := ini.data.Keys + set s | s in ini.lines && ini.lines[s] != [];
    Ini(map s | s in listed :: ini.Entries(s), ini.lines)
  }

  // ---------------------------------------------------------------- get and set

  function IndexOf(entries: seq<Entry>, s: string, f: string): (k: Option<nat>)
    ensures k.Some? ==> k.value < |entries| && entries[k.value].section == s && entries[k.value].field == f
    ensures k.Some? ==> forall i :: 0 <= i < k.value ==> !(entries[i].section == s && entries[i].field == f)
    ensures k.None? ==> forall i :: 0 <= i < |entries| ==> !(entries[i].section == s && entries[i].field == f)
  {
    if entries == [] then None
    else if entries[0].section == s && entries[0].field == f then Some(0)
    else
      match IndexOf(entries[1..], s, f)
      case None => None
      case Some(k) => Some(k + 1)
  }

  function Lookup(ini: Ini, s: string, f: string): Option<string> {
    match IndexOf(ini.Entries(s), s, f)
    case None => None
    case Some(k) => Some(ini.Entries(s)[k].value)
  }

  /** An entry can be added behind a section's lines. The source takes the last line, and if that
      is blank also the last entry, without asking whether there is one. */
  predicate CanAdd(lines: seq<string>, entries: seq<Entry>) {
    lines != [] && (lines[|lines| - 1] == "" ==> entries != [])
  }

  /** The place of an added entry: the last line if that is blank and free, else a new one. */
  function PlaceOf(lines: seq<string>, entries: seq<Entry>): nat
    requires CanAdd(lines, entries)
  {
    if lines[|lines| - 1] == "" && entries[|entries| - 1].index != |lines| - 1 then |lines| - 1 else |lines|
  }

  /** The calls of setValue that are defined. */
  predicate CanSet(ini: Ini, s: string, f: string) {
    s in ini.data && IndexOf(ini.data[s], s, f).None? ==> CanAdd(ini.Lines(s), ini.data[s])
  }

  /** A section without an entry list gets a header and an entry on line 1. One that has the field
      gets the new value in its place; otherwise an entry is added. */
  function WithValue(ini: Ini, s: string, f: string, v: string): Ini
    requires CanSet(ini, s, f)
  {
    var lines, entries := ini.Lines(s), ini.Entries(s);
    if s !in ini.data then
      Ini(ini.data[s := [Entry(s, f, 1, v)]], ini.lines[s := lines + ["[" + s + "]", ""]])
    else
      match IndexOf(entries, s, f)
      case Some(k) => ini.(data := ini.data[s := entries[k := entries[k].(value := v)]])
      case None =>
        Ini(ini.data[s := entries + [Entry(s, f, PlaceOf(lines, entries), v)]], ini.lines[s := lines + [""]])
  }

  // ---------------------------------------------------------------- the parser object

  /** One section as save prints it: lines in order, entries where the cursor meets their index. */
  method PrintLines(lines: seq<string>, entries: seq<Entry>) returns (printed: seq<string>)
    ensures printed == PrintFrom(lines, entries, 0, 0)
  {
    printed := [];
    var nextEntry := 0;
    for i := 0 to |lines|
      invariant printed + PrintFrom(lines, entries, i, nextEntry) == PrintFrom(lines, entries, 0, 0)
    {
      PrintStep(printed, lines, entries, i, nextEntry);
      if nextEntry < |entries| && i == entries[nextEntry].index {
        printed := printed + [Text(entries[nextEntry])];
        nextEntry := nextEntry + 1;
      } else {
        printed := printed + [lines[i]];
      }
    }
    assert printed + [] == printed;
  }

  lemma PrintStep(printed: seq<string>, lines: seq<string>, entries: seq<Entry>, i: nat, next: nat)
    requires i < |lines|
    ensures printed + PrintFrom(lines, entries, i, next)
         == printed + [LineAt(lines, entries, i, next)] + PrintFrom(lines, entries, i + 1, Advance(entries, i, next))
  {
  }

  lemma PrintLeast(ini: Ini, keys: set<string>, k: string, out: seq<string>)
    requires IsLeast(k, keys)
    ensures out + PrintAll(ini, Sorted(keys)) == out + PrintSection(ini, k) + PrintAll(ini, Sorted(keys - {k}))
  {
    LeastIsUnique(k, Least(keys), keys);
    assert Sorted(keys)[1..] == Sorted(keys - {k});
  }

  /** The entry lists when the sections in `left` have still to be printed. */
  ghost predicate ListsSoFar(ini: Ini, entries: map<string, seq<Entry>>, left: set<string>) {
    && (forall s :: s in entries <==> s in ini.data || (s in ini.lines && s !in left && ini.lines[s] != []))
    && (forall s :: s in entries ==> entries[s] == ini.Entries(s))
  }

  lemma ListsAtEnd(ini: Ini, entries: map<string, seq<Entry>>)
    requires ListsSoFar(ini, entries, {})
    ensures Ini(entries, ini.lines) == AfterSave(ini)
  {
    assert entries == AfterSave(ini).data;
  }

  /** All sections in map order. A section with lines and no entry list gets an empty one. */
  method PrintSections(ini: Ini) returns (out: seq<string>, entries: map<string, seq<Entry>>)
    ensures out == PrintAll(ini, Sorted(ini.lines.Keys))
    ensures Ini(entries, ini.lines) == AfterSave(ini)
  {
    out, entries := [], ini.data;
    var keys := ini.lines.Keys;
    while keys != {}
      invariant keys <= ini.lines.Keys && ListsSoFar(ini, entries, keys)
      invariant out + PrintAll(ini, Sorted(keys)) == PrintAll(ini, Sorted(ini.lines.Keys))
      decreases |keys|
    {
      LeastExists(keys);
      var k :| k in keys && forall m :: m in keys ==> m == k || Less(k, m);
      PrintLeast(ini, keys, k, out);
      if k !in entries && ini.lines[k] != [] {
        entries := entries[k := []];
      }
      var printed := PrintLines(ini.lines[k], if k in entries then entries[k] else []);
      out := out + printed;
      keys := keys - {k};
    }
    assert out + [] == out;
    ListsAtEnd(ini, entries);
  }

  class Parser {
    var data: map<string, seq<Entry>>
    var allLines: map<string, seq<string>>

    constructor ()
      ensures data == map[] && allLines == map[]
    {
      data, allLines := map[], map[];
    }

    ghost function State(): Ini
      reads this
    {
      Ini(data, allLines)
    }

    function EntriesOf(s: string): seq<Entry>
      reads this
    {
      if s in data then data[s] else []
    }

    function LinesOf(s: string): seq<string>
      reads this
    {
      if s in allLines then allLines[s] else []
    }

    method Load(text: string) returns (err: ClockError)
      modifies this
      ensures err == if LoadText(text).Some? then Success else WrongSyntax
      ensures State() == LoadedPart(Start(), Split(text))
      ensures err == Success ==> State() == LoadText(text).value
    {
      var currentSection := GLOBAL;
      allLines := map[GLOBAL := []];
      data := map[GLOBAL := []];
      var lines := Split(text);
      for i := 0 to |lines|
        invariant LoadLines(Start(), lines) == LoadLines(Loading(currentSection, State()), lines[i..])
        invariant LoadedPart(Start(), lines) == LoadedPart(Loading(currentSection, State()), lines[i..])
      {
        var line := lines[i];
        ghost var st := Loading(currentSection, State());
        assert lines[i..][1..] == lines[i + 1..];
        if |line| == 0 || |line| == 1 || line[0] == ';' {
          allLines := allLines[currentSection := LinesOf(currentSection) + [line]];
          continue;
        }
        if line[0] == '[' {
          if line[|line| - 1] != ']' {
            return WrongSyntax;
          }
          currentSection := line[1..|line| - 1];
          if currentSection in allLines {
            return WrongSyntax;
          }
        } else {
          var n := FindEquals(line);
          if n.None? {
            return WrongSyntax;
          }
          var key := line[..n.value];
          if HasField(EntriesOf(currentSection), key) {
            return WrongSyntax;
          }
          var e := Entry(currentSection, key, |LinesOf(currentSection)|, line[n.value + 1..]);
          data := data[currentSection := EntriesOf(currentSection) + [e]];
        }
        allLines := allLines[currentSection := LinesOf(currentSection) + [line]];
      }
      return Success;
    }

    method Save() returns (text: string)
      modifies this`data
      ensures text == old(SavedText(State()))
      ensures State() == old(AfterSave(State()))
    {
      var out, entries := PrintSections(Ini(data, allLines));
      data := entries;
      return Join(out);
    }

    method GetValue(section: string, field: string) returns (err: ClockError, value: string)
      ensures match Lookup(State(), section, field)
              case None => err == ValueNotFound && value == ""
              case Some(v) => err == Success && value == v
    {
      var entries := EntriesOf(section);
      var k := IndexOf(entries, section, field);
      match k
      case None => return ValueNotFound, "";
      case Some(i) => return Success, entries[i].value;
    }

    method SetValue(section: string, field: string, value: string)
      requires CanSet(Ini(data, allLines), section, field)
      modifies this
      ensures State() == WithValue(old(State()), section, field, value)
    {
      if section !in data {
        allLines := allLines[section := LinesOf(section) + ["[" + section + "]"]];
        data := data[section := EntriesOf(section) + [Entry(section, field, 1, value)]];
        allLines := allLines[section := LinesOf(section) + [""]];
        ghost var l, header := old(LinesOf(section)), "[" + section + "]";
        assert l + [header] + [""] == l + [header, ""];
        assert [] + [Entry(section, field, 1, value)] == [Entry(section, field, 1, value)];
        assert allLines == old(allLines)[section := l + [header, ""]];
        return;
      }
      var entries, lines := data[section], LinesOf(section);
      var k := IndexOf(entries, section, field);
      if k.Some? {
        data := data[section := entries[k.value := entries[k.value].(value := value)]];
        return;
      }
      if lines[|lines| - 1] == "" && entries[|entries| - 1].index != |lines| - 1 {
        data := data[section := entries + [Entry(section, field, |lines| - 1, value)]];
      } else {
        data := data[section := entries + [Entry(section, field, |lines|, value)]];
      }
      allLines := allLines[section := lines + [""]];
    }
  }
}
