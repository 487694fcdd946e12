/** Text as lines, and the order in which a std::map of strings is walked. */
module IniText {

  predicate OneLine(s: string) {
    '\n' !in s
  }

  ghost predicate OneLines(ls: seq<string>) {
    forall i :: 0 <= i < |ls| ==> OneLine(ls[i])
  }

  /** The lines that reading with getline until the stream fails yields: k + 1 for k newlines. */
  function Split(text: string): (ls: seq<string>)
    ensures ls != []
  {
    if text == "" then [""]
    else
      var rest := Split(text[1..]);
      if text[0] == '\n' then [""] + rest else [[text[0]] + rest[0]] + rest[1..]
  }

  /** All lines, each followed by a newline, without the last newline. */
  function Join(ls: seq<string>): string {
    if ls == [] then "" else if |ls| == 1 then ls[0] else ls[0] + "\n" + Join(ls[1..])
  }

  lemma {:induction false} SplitOneLines(text: string)
    ensures OneLines(Split(text))
  {
    if text != "" {
      SplitOneLines(text[1..]);
    }
  }

  lemma {:induction false} JoinOfSplit(text: string)
    ensures Join(Split(text)) == text
  {
    if text != "" {
      var rest := Split(text[1..]);
      JoinOfSplit(text[1..]);
      if text[0] == '\n' {
        assert ([""] + rest)[1..] == rest;
        assert Join(Split(text)) == "" + "\n" + Join(rest);
      } else if |rest| > 1 {
        assert Split(text)[1..] == rest[1..];
        assert [text[0]] + rest[0] + "\n" + Join(rest[1..]) == [text[0]] + (rest[0] + "\n" + Join(rest[1..]));
      }
      assert text == [text[0]] + text[1..];
    }
  }

  lemma {:induction false} SplitOfLine(line: string)
    requires OneLine(line)
    ensures Split(line) == [line]
  {
    if line != "" {
      SplitOfLine(line[1..]);
      assert [line[0]] + line[1..] == line;
    }
  }

  lemma {:induction false} SplitAfterLine(line: string, text: string)
    requires OneLine(line)
    ensures Split(line + "\n" + text) == [line] + Split(text)
  {
    var whole := line + "\n" + text;
    if line == "" {
      assert whole[1..] == text;
    } else {
      assert whole[1..] == line[1..] + "\n" + text;
      SplitAfterLine(line[1..], text);
      assert [line[0]] + line[1..] == line;
    }
  }

  lemma {:induction false} SplitOfJoin(ls: seq<string>)
    requires ls != [] && OneLines(ls)
    ensures Split(Join(ls)) == ls
  {
    if |ls| == 1 {
      SplitOfLine(ls[0]);
    } else {
      SplitOfJoin(ls[1..]);
      SplitAfterLine(ls[0], Join(ls[1..]));
      assert ls == [ls[0]] + ls[1..];
    }
  }

  // ---------------------------------------------------------------- map order

  predicate Less(a: string, b: string) {
    b != "" && (a == "" || a[0] < b[0] || (a[0] == b[0] && Less(a[1..], b[1..])))
  }

  lemma {:induction false} LessIsTotal(a: string, b: string)
    ensures Less(a, b) || Less(b, a) || a == b
  {
    if a != "" && b != "" && a[0] == b[0] {
      LessIsTotal(a[1..], b[1..]);
      assert a == [a[0]] + a[1..] && b == [b[0]] + b[1..];
    }
  }

  lemma {:induction false} LessIsTransitive(a: string, b: string, c: string)
    requires Less(a, b) && Less(b, c)
    ensures Less(a, c)
  {
    if a != "" && a[0] == b[0] == c[0] {
      LessIsTransitive(a[1..], b[1..], c[1..]);
    }
  }

  lemma {:induction false} LessIsIrreflexive(a: string)
    ensures !Less(a, a)
  {
    if a != "" {
      LessIsIrreflexive(a[1..]);
    }
  }

  predicate IsLeast(k: string, keys: set<string>) {
    k in keys && forall m :: m in keys ==> m == k || Less(k, m)
  }

  lemma {:induction false} LeastExists(keys: set<string>)
    requires keys != {}
    ensures exists k :: IsLeast(k, keys)
    decreases |keys|
  {
    var x :| x in keys;
    var rest := keys - {x};
    assert forall m :: m in keys ==> m == x || m in rest;
    if rest == {} {
      assert IsLeast(x, keys);
    } else {
      LeastExists(rest);
      var k :| IsLeast(k, rest);
      LessIsTotal(x, k);
      if Less(x, k) {
        forall m | m in keys && m != x
          ensures Less(x, m)
        {
          if m != k {
            LessIsTransitive(x, k, m);
          }
        }
        assert IsLeast(x, keys);
      } else {
        assert IsLeast(k, keys);
      }
    }
  }

  lemma LeastIsUnique(a: string, b: string, keys: set<string>)
    requires IsLeast(a, keys) && IsLeast(b, keys)
    ensures a == b
  {
    if a != b {
      LessIsTransitive(a, b, a);
      LessIsIrreflexive(a);
    }
  }

  ghost function Least(keys: set<string>): (k: string)
    requires keys != {}
    ensures IsLeast(k, keys)
  {
    LeastExists(keys);
    var k :| IsLeast(k, keys);
    k
  }

  /** The keys in the order in which a std::map is walked. */
  ghost function Sorted(keys: set<string>): seq<string>
    decreases |keys|
  {
    if keys == {} then [] else [Least(keys)] + Sorted(keys - {Least(keys)})
  }

  ghost predicate Ascending(order: seq<string>) {
    forall i, j :: 0 <= i < j < |order| ==> Less(order[i], order[j])
  }

  ghost function Members(order: seq<string>): set<string> {
    set i | 0 <= i < |order| :: order[i]
  }

  lemma MembersCons(k: string, rest: seq<string>)
    ensures Members([k] + rest) == {k} + Members(rest)
  {
    var order := [k] + rest;
    assert order[0] == k;
    assert forall i :: 0 <= i < |rest| ==> rest[i] == order[i + 1];
    assert forall i :: 1 <= i < |order| ==> order[i] == rest[i - 1];
  }

  lemma {:induction false} SortedLists(keys: set<string>)
    ensures Members(Sorted(keys)) == keys && Ascending(Sorted(keys))
    decreases |keys|
  {
    if keys != {} {
      var k := Least(keys);
      var rest := Sorted(keys - {k});
      SortedLists(keys - {k});
      MembersCons(k, rest);
      AscendingCons(k, rest);
    }
  }

  lemma AscendingCons(k: string, rest: seq<string>)
    requires Ascending(rest) && forall s :: s in Members(rest) ==> Less(k, s)
    ensures Ascending([k] + rest)
  {
    assert forall i :: 0 <= i < |rest| ==> rest[i] in Members(rest);
  }

  /** There is only one ascending list of a set. */
  lemma {:induction false} AscendingIsSorted(order: seq<string>)
    requires Ascending(order)
    ensures Sorted(Members(order)) == order
  {
    if order == [] {
      assert Members(order) == {};
    } else {
      var k, rest := order[0], order[1..];
      assert order == [k] + rest;
      MembersCons(k, rest);
      assert k !in Members(rest) by { LessIsIrreflexive(k); }
      assert IsLeast(k, Members(order));
      LeastIsUnique(k, Least(Members(order)), Members(order));
      assert Members(order) - {k} == Members(rest);
      AscendingIsSorted(rest);
    }
  }
}
