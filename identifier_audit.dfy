/** The identifier audit of dev_scripts/analyze_tre_files.py: the comma-field
    extractors over the lines of the map and names files, the duplicate
    finder, the count of unnamed tree nodes, and which duplicate sets the
    audit reports. Tree node names and FASTA record ids come from foreign
    parsers and are taken here as given sequences; a tree node name is
    `None` when the tree library leaves it unset. */
module IdentifierAudit {
  import opened Wrappers
  import opened Text

  // ---------------------------------------------------------------------
  // Duplicates

  /** The values occurring at least twice in `s`; each of them is one of
      the values of `s`. */
  function Duplicates<T(==)>(s: seq<T>): (d: set<T>)
    ensures forall x :: x in d ==> x in s
  {
    set x | x in s && multiset(s)[x] >= 2
  }

  /** One more value at the end of the sequence is a duplicate exactly
      when it was already there. */
  lemma DuplicatesSnoc<T>(s: seq<T>, x: T)
    ensures Duplicates(s + [x]) == Duplicates(s) + (if x in s then {x} else {})
  {
    assert multiset(s + [x]) == multiset(s) + multiset{x};
    forall y ensures y in Duplicates(s + [x]) <==> y in Duplicates(s) + (if x in s then {x} else {}) {
      assert y in s + [x] <==> y in s || y == x;
    }
  }

  /** `get_duplicates`: a single left-to-right scan that adds a value to
      `seen` the first time it is met and to the result every later time.
      `seen` always holds the values of the prefix scanned so far. */
  method GetDuplicates<T(==)>(s: seq<T>) returns (dups: set<T>)
    ensures dups == Duplicates(s)
  {
    var seen: set<T> := {};
    dups := {};
    for i := 0 to |s|
      invariant seen == set x | x in s[..i]
      invariant dups == Duplicates(s[..i])
      invariant dups <= seen
    {
      var x := s[i];
      assert s[..i + 1] == s[..i] + [x];
      DuplicatesSnoc(s[..i], x);
      if x in seen {
        dups := dups + {x};
      } else {
        seen := seen + {x};
      }
    }
    assert s[..|s|] == s;
  }

  /** A value is a duplicate exactly when two different positions hold
      it. */
  lemma {:induction false} DuplicatesPairs<T>(s: seq<T>, x: T)
    ensures x in Duplicates(s) <==> exists i, j :: 0 <= i < j < |s| && s[i] == x && s[j] == x
  {
    if |s| > 0 {
      var n := |s|;
      var front := s[..n - 1];
      DuplicatesPairs(front, x);
      assert s == front + [s[n - 1]];
      DuplicatesSnoc(front, s[n - 1]);
      if exists i, j :: 0 <= i < j < n && s[i] == x && s[j] == x {
        var i, j :| 0 <= i < j < n && s[i] == x && s[j] == x;
        if j < n - 1 {
          assert front[i] == x && front[j] == x;
        } else {
          assert front[i] == x;
        }
      }
      if exists i, j :: 0 <= i < j < n - 1 && front[i] == x && front[j] == x {
        var i, j :| 0 <= i < j < n - 1 && front[i] == x && front[j] == x;
        assert s[i] == x && s[j] == x;
      }
      if x == s[n - 1] && x in front {
        var i :| 0 <= i < n - 1 && front[i] == x;
        assert s[i] == x && s[n - 1] == x;
      }
    }
  }

  /** There are no duplicates exactly when all values are distinct. */
  lemma DuplicatesEmpty<T>(s: seq<T>)
    ensures Duplicates(s) == {} <==> forall i, j :: 0 <= i < j < |s| ==> s[i] != s[j]
  {
    if Duplicates(s) != {} {
      var x :| x in Duplicates(s);
      DuplicatesPairs(s, x);
    }
    if exists i, j :: 0 <= i < j < |s| && s[i] == s[j] {
      var i, j :| 0 <= i < j < |s| && s[i] == s[j];
      DuplicatesPairs(s, s[i]);
    }
  }

  /** Reordering the values does not change the duplicates. */
  lemma DuplicatesPermutation<T>(a: seq<T>, b: seq<T>)
    requires multiset(a) == multiset(b)
    ensures Duplicates(a) == Duplicates(b)
  {
    forall x ensures x in a <==> x in b {
      assert x in a <==> x in multiset(a);
      assert x in b <==> x in multiset(b);
    }
  }

  // ---------------------------------------------------------------------
  // Unnamed tree nodes

  /** A node name as `check_empty_names` tests it: `None` or `''`. */
  predicate IsUnnamed(name: Option<string>) {
    name == None || name == Some("")
  }

  /** The number of unnamed nodes among `names`. */
  function Unnamed(names: seq<Option<string>>): nat {
    if |names| == 0 then 0
    else Unnamed(names[..|names| - 1]) + (if IsUnnamed(names[|names| - 1]) then 1 else 0)
  }

  /** The count is the number of `None` names plus the number of `''`
      names. */
  lemma {:induction false} UnnamedCounts(names: seq<Option<string>>)
    ensures Unnamed(names) == multiset(names)[None] + multiset(names)[Some("")]
  {
    if |names| > 0 {
      var n := |names|;
      UnnamedCounts(names[..n - 1]);
      assert names == names[..n - 1] + [names[n - 1]];
      assert multiset(names) == multiset(names[..n - 1]) + multiset{names[n - 1]};
    }
  }

  /** The count lies between 0 and the number of nodes; it is 0 exactly
      when every node is named, and the number of nodes exactly when none
      is. */
  lemma {:induction false} UnnamedBounds(names: seq<Option<string>>)
    ensures Unnamed(names) <= |names|
    ensures Unnamed(names) == 0 <==> forall i :: 0 <= i < |names| ==> !IsUnnamed(names[i])
    ensures Unnamed(names) == |names| <==> forall i :: 0 <= i < |names| ==> IsUnnamed(names[i])
  {
    if |names| > 0 {
      var n := |names|;
      var front := names[..n - 1];
      UnnamedBounds(front);
      assert forall i :: 0 <= i < n - 1 ==> front[i] == names[i];
    }
  }

  /** Two traversals of the same tree that agree on which nodes are
      unnamed (one library giving `''` where the other gives `None`) give
      the same count. */
  lemma {:induction false} UnnamedAgree(a: seq<Option<string>>, b: seq<Option<string>>)
    requires |a| == |b|
    requires forall i :: 0 <= i < |a| ==> (IsUnnamed(a[i]) <==> IsUnnamed(b[i]))
    ensures Unnamed(a) == Unnamed(b)
  {
    if |a| > 0 {
      UnnamedAgree(a[..|a| - 1], b[..|b| - 1]);
    }
  }

  /** One of the counting loops of `check_empty_names`. */
  method CountUnnamed(names: seq<Option<string>>) returns (count: nat)
    ensures count == Unnamed(names)
  {
    count := 0;
    for i := 0 to |names|
      invariant count == Unnamed(names[..i])
    {
      assert names[..i + 1][..i] == names[..i];
      if names[i] == None || names[i] == Some("") {
        count := count + 1;
      }
    }
    assert names[..|names|] == names;
  }

  datatype EmptyCounts = EmptyCounts(tree3: nat, tree4: nat)

  /** `check_empty_names`, over the node names of the two traversals. */
  method CheckEmptyNames(tree3: seq<Option<string>>, tree4: seq<Option<string>>) returns (counts: EmptyCounts)
    ensures counts == EmptyCounts(Unnamed(tree3), Unnamed(tree4))
  {
    var tree3Empty := CountUnnamed(tree3);
    var tree4Empty := CountUnnamed(tree4);
    counts := EmptyCounts(tree3Empty, tree4Empty);
  }

  // ---------------------------------------------------------------------
  // Comma fields

  /** `line.split(',')[0].strip()`: the text before the first comma (the
      whole line when there is none), stripped. */
  function FirstField(line: string): (id: string)
    ensures id == Strip(line[..FieldEnd(line, ',')])
  {
    SplitFirst(line, ',');
    Strip(Split(line, ',')[0])
  }

  /** `line.split(',')[1].strip()`, or `None` for the `IndexError` of a line
      without a comma. */
  function SecondField(line: string): (name: Option<string>)
    ensures name.Some? <==> ',' in line
  {
    SplitFirst(line, ',');
    var parts := Split(line, ',');
    if |parts| < 2 then None else Some(Strip(parts[1]))
  }

  /** The second field is the text between the first and the second comma
      (or the end of the line), stripped. */
  lemma SecondFieldValue(line: string)
    requires ',' in line
    ensures var rest := line[FieldEnd(line, ',') + 1..];
      SecondField(line) == Some(Strip(rest[..FieldEnd(rest, ',')]))
  {
    SplitFirst(line, ',');
    SplitFirst(line[FieldEnd(line, ',') + 1..], ',');
  }

  /** `parse_map_ids` and `parse_names_ids`: one id per line. */
  function FirstFields(lines: seq<string>): (ids: seq<string>)
    ensures |ids| == |lines|
    ensures forall i :: 0 <= i < |lines| ==> ids[i] == Strip(lines[i][..FieldEnd(lines[i], ',')])
  {
    seq(|lines|, i requires 0 <= i < |lines| => FirstField(lines[i]))
  }

  /** The `IndexError` of `parse_map_names`, at the index of the first map
      line without a comma. */
  datatype AuditError = MissingField(line: nat)

  /** The index of the first line without `sep`, or the number of lines
      when every line has one. */
  function FirstWithout(lines: seq<string>, sep: char): (k: nat)
    ensures k <= |lines|
    ensures forall i :: 0 <= i < k ==> sep in lines[i]
    ensures k < |lines| ==> sep !in lines[k]
  {
    if |lines| == 0 || sep !in lines[0] then 0
    else
      var k := FirstWithout(lines[1..], sep);
      assert forall i :: 0 < i <= k ==> lines[i] == lines[1..][i - 1];
      1 + k
  }

  /** `list(parse_map_names())`: one name per line, or the error of the
      first line that has no comma. */
  function SecondFields(lines: seq<string>): (r: Result<seq<string>, AuditError>)
    ensures r.Ok? <==> forall i :: 0 <= i < |lines| ==> ',' in lines[i]
    ensures r.Ok? ==> |r.value| == |lines| && forall i :: 0 <= i < |lines| ==> SecondField(lines[i]) == Some(r.value[i])
    ensures r.Err? ==> r.error.line < |lines| && ',' !in lines[r.error.line]
                       && forall i :: 0 <= i < r.error.line ==> ',' in lines[i]
  {
    var k := FirstWithout(lines, ',');
    if k < |lines| then Err(MissingField(k))
    else Ok(seq(|lines|, i requires 0 <= i < |lines| => SecondField(lines[i]).value))
  }

  // ---------------------------------------------------------------------
  // The audit

  /** A reported duplicate set with its size. */
  datatype Dups<T> = Dups(values: set<T>, size: nat)

  function DupsOf<T(==)>(s: seq<T>): Dups<T> {
    Dups(Duplicates(s), |Duplicates(s)|)
  }

  /** What `__call__` prints: the duplicates of the map names, tree ids,
      names ids and FASTA ids. The duplicates of the map ids are computed
      but not reported. */
  datatype AuditReport = AuditReport(
    mapNames: Dups<string>,
    treeIds: Dups<Option<string>>,
    namesIds: Dups<string>,
    fastaIds: Dups<string>)

  /** `__call__` over the lines of the map and names files, the node names
      of the tree (as the newer tree library gives them, `None` and `''`
      kept apart) and the FASTA record ids. A map line without a comma
      stops the audit before anything is reported. */
  method Audit(mapLines: seq<string>, treeIds: seq<Option<string>>, namesLines: seq<string>, fastaIds: seq<string>)
    returns (r: Result<AuditReport, AuditError>)
    ensures SecondFields(mapLines).Err? ==> r == Err(SecondFields(mapLines).error)
    ensures SecondFields(mapLines).Ok? ==> r == Ok(AuditReport(
      DupsOf(SecondFields(mapLines).value), DupsOf(treeIds), DupsOf(FirstFields(namesLines)), DupsOf(fastaIds)))
  {
    var mapIds := FirstFields(mapLines);
    var mapNames :- SecondFields(mapLines);
    var namesIds := FirstFields(namesLines);
    var dupMapIds := GetDuplicates(mapIds);
    var dupMapNames := GetDuplicates(mapNames);
    var dupTreeIds := GetDuplicates(treeIds);
    var dupNamesIds := GetDuplicates(namesIds);
    var dupFastaIds := GetDuplicates(fastaIds);
    r := Ok(AuditReport(
      Dups(dupMapNames, |dupMapNames|),
      Dups(dupTreeIds, |dupTreeIds|),
      Dups(dupNamesIds, |dupNamesIds|),
      Dups(dupFastaIds, |dupFastaIds|)));
  }

  // ---------------------------------------------------------------------
  // Worked example

  lemma FieldOfLine(line: string, num: string, rest: string)
    requires ',' !in num && ',' !in rest && line == num + [','] + rest
    ensures SecondField(line) == Some(Strip(rest))
  {
    SplitTwo(num, rest, ',');
  }

  /** The name of a map line `num,name\n` is `name` when it has no comma
      and no surrounding whitespace. */
  lemma MapLineName(line: string, num: string, name: string)
    requires ',' !in num && ',' !in name
    requires |name| > 0 && !IsSpace(name[0]) && !IsSpace(name[|name| - 1])
    requires line == num + "," + name + "\n"
    ensures SecondField(line) == Some(name)
  {
    assert line == num + [','] + (name + ['\n']);
    FieldOfLine(line, num, name + ['\n']);
    StripTrailingSpace(name, '\n');
    PlainStrip(name);
  }

  lemma SecondFieldsOf(lines: seq<string>, names: seq<string>)
    requires |lines| == |names|
    requires forall i :: 0 <= i < |lines| ==> SecondField(lines[i]) == Some(names[i])
    ensures SecondFields(lines) == Ok(names)
  {
    var r := SecondFields(lines);
    assert r.Ok?;
    assert r.value == names;
  }

  lemma ThreeFields(a: string, b: string, c: string, x: string, y: string, z: string)
    requires SecondField(a) == Some(x) && SecondField(b) == Some(y) && SecondField(c) == Some(z)
    ensures SecondFields([a, b, c]) == Ok([x, y, z])
  {
    SecondFieldsOf([a, b, c], [x, y, z]);
  }

  lemma FooLineOne()
    ensures SecondField("1,Foo\n") == Some("Foo")
  {
    MapLineName("1,Foo\n", "1", "Foo");
  }

  lemma BarLine()
    ensures SecondField("2,Bar\n") == Some("Bar")
  {
    MapLineName("2,Bar\n", "2", "Bar");
  }

  lemma FooLineThree()
    ensures SecondField("3,Foo\n") == Some("Foo")
  {
    MapLineName("3,Foo\n", "3", "Foo");
  }

  lemma ExampleNamesRead()
    ensures SecondFields(["1,Foo\n", "2,Bar\n", "3,Foo\n"]) == Ok(["Foo", "Bar", "Foo"])
  {
    FooLineOne();
    BarLine();
    FooLineThree();
    ThreeFields("1,Foo\n", "2,Bar\n", "3,Foo\n", "Foo", "Bar", "Foo");
  }

  lemma ExampleNamesCounted()
    ensures Duplicates(["Foo", "Bar", "Foo"]) == {"Foo"}
  {
    var s := ["Foo", "Bar", "Foo"];
    assert "Foo"[0] != "Bar"[0];
    assert multiset(s) == multiset{"Foo", "Bar", "Foo"};
    assert multiset(s)["Foo"] == 2 && multiset(s)["Bar"] == 1;
  }

  /** Two map lines naming `Foo` and one naming `Bar`: `Foo` is the one
      duplicate name. */
  lemma ExampleDuplicateName()
    ensures SecondFields(["1,Foo\n", "2,Bar\n", "3,Foo\n"]).Ok?
    ensures Duplicates(SecondFields(["1,Foo\n", "2,Bar\n", "3,Foo\n"]).value) == {"Foo"}
  {
    ExampleNamesRead();
    ExampleNamesCounted();
  }
}
