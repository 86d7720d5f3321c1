/** Conversion of the old CREST database tables (dev_scripts/convert_crest_db.py).
    Each line of the old table holds four tab-separated fields: an integer
    node number, a taxon name, a placeholder and a fraction field. The map
    conversion keeps the rows whose fraction field is `-1`, refusing any name
    with a comma in it; the names conversion keeps the rows that come before
    the first such row. Both sort the kept rows by the integer value of the
    node number (a stable sort) and write them out comma-separated, one per
    line. An unpacking that does not find exactly four fields, a comma in a
    map name and a node number `int()` refuses each stop the conversion with
    an error, before anything is written. */
module CrestConvert {
  import opened Wrappers
  import opened Text
  import opened StableSort
  import IdentifierAudit

  /** The four fields of a line of the old table. */
  datatype OldRow = OldRow(num: string, name: string, minus: string, frac: string)

  /** Why a conversion stops. */
  datatype ConvertError =
    | WrongFieldCount(fields: nat)   // `num, name, minus, frac = ...` unpacks another count
    | CommaInName(name: string)      // the map conversion refuses the name
    | NotAnInteger(num: string)      // `int(num)` refuses the sort key

  /** `line.strip().split('\t')` unpacked into four names. */
  function ParseLine(line: string): Result<OldRow, ConvertError> {
    var fields := Split(Strip(line), '\t');
    if |fields| != 4 then Err(WrongFieldCount(|fields|))
    else Ok(OldRow(fields[0], fields[1], fields[2], fields[3]))
  }

  /** A line unpacks exactly when its stripped text holds three tabs; the
      four fields are then tab-free and joining them gives that text back. */
  lemma ParseLineMeaning(line: string)
    ensures ParseLine(line).Ok? <==> multiset(Strip(line))['\t'] == 3
    ensures ParseLine(line).Err? ==> ParseLine(line) == Err(WrongFieldCount(multiset(Strip(line))['\t'] + 1))
    ensures ParseLine(line).Ok? ==>
      var row := ParseLine(line).value;
      Join([row.num, row.name, row.minus, row.frac], '\t') == Strip(line)
      && '\t' !in row.num && '\t' !in row.name && '\t' !in row.minus && '\t' !in row.frac
  {
    FourFields(Strip(line));
  }

  /** The tab-separated fields of a text, four of them exactly when it
      holds three tabs. */
  lemma FourFields(t: string)
    ensures |Split(t, '\t')| == 4 <==> multiset(t)['\t'] == 3
    ensures |Split(t, '\t')| == multiset(t)['\t'] + 1
    ensures |Split(t, '\t')| == 4 ==>
      var f := Split(t, '\t');
      Join([f[0], f[1], f[2], f[3]], '\t') == t
      && '\t' !in f[0] && '\t' !in f[1] && '\t' !in f[2] && '\t' !in f[3]
  {
    var fields := Split(t, '\t');
    SplitCount(t, '\t');
    if |fields| == 4 {
      JoinSplit(t, '\t');
      assert fields == [fields[0], fields[1], fields[2], fields[3]];
    }
  }

  /** A line as the conversion loops see it: the fields it unpacks into, or
      the unpacking error. */
  type Parsed = Result<OldRow, ConvertError>

  /** Every line unpacked, in order. */
  function ParseLines(lines: seq<string>): (parsed: seq<Parsed>)
    ensures |parsed| == |lines|
  {
    seq(|lines|, i requires 0 <= i < |lines| => ParseLine(lines[i]))
  }

  lemma ParseLinesAppend(a: seq<string>, b: seq<string>)
    ensures ParseLines(a + b) == ParseLines(a) + ParseLines(b)
  {
    assert forall i :: 0 <= i < |a| ==> (a + b)[i] == a[i];
    assert forall i :: |a| <= i < |a| + |b| ==> (a + b)[i] == b[i - |a|];
  }

  /** Puts the rows a loop has collected so far in front of what the rest of
      the lines give; an error from the rest wins. */
  function Prepend(rows: seq<OldRow>, rest: Result<seq<OldRow>, ConvertError>): Result<seq<OldRow>, ConvertError> {
    if rest.Ok? then Ok(rows + rest.value) else rest
  }

  lemma PrependNothing(rest: Result<seq<OldRow>, ConvertError>)
    ensures Prepend([], rest) == rest
  {
    if rest.Ok? {
      assert [] + rest.value == rest.value;
    }
  }

  lemma PrependTwice(rows: seq<OldRow>, row: OldRow, rest: Result<seq<OldRow>, ConvertError>)
    ensures Prepend(rows, Prepend([row], rest)) == Prepend(rows + [row], rest)
  {
    if rest.Ok? {
      assert rows + ([row] + rest.value) == rows + [row] + rest.value;
    }
  }

  // ---------------------------------------------------------------- map --

  /** What the map conversion requires of one line: it unpacks and its name
      has no comma. */
  predicate MapRowOk(p: Parsed) {
    p.Ok? && ',' !in p.value.name
  }

  /** The error a line that is not `MapRowOk` raises. */
  function MapRowError(p: Parsed): ConvertError
    requires !MapRowOk(p)
  {
    if p.Err? then p.error else CommaInName(p.value.name)
  }

  /** The rows the map conversion collects, in line order. */
  function MapKept(parsed: seq<Parsed>): Result<seq<OldRow>, ConvertError> {
    if |parsed| == 0 then Ok([])
    else if !MapRowOk(parsed[0]) then Err(MapRowError(parsed[0]))
    else
      var rest := MapKept(parsed[1..]);
      if parsed[0].value.frac != "-1" then rest else Prepend([parsed[0].value], rest)
  }

  /** The map collection succeeds exactly when every line unpacks and no
      name holds a comma. */
  lemma {:induction false} MapKeptOk(parsed: seq<Parsed>)
    ensures MapKept(parsed).Ok? <==> forall i :: 0 <= i < |parsed| ==> MapRowOk(parsed[i])
  {
    if |parsed| > 0 {
      MapKeptOk(parsed[1..]);
      assert forall i :: 0 < i < |parsed| ==> parsed[1..][i - 1] == parsed[i];
    }
  }

  /** When the map collection fails, the error is that of the first line
      that unpacks wrongly or names a comma. */
  lemma {:induction false} MapKeptError(parsed: seq<Parsed>)
    requires MapKept(parsed).Err?
    ensures exists k :: (0 <= k < |parsed| && (forall i :: 0 <= i < k ==> MapRowOk(parsed[i]))
                        && !MapRowOk(parsed[k]) && MapKept(parsed).error == MapRowError(parsed[k]))
  {
    var tail := parsed[1..];
    if MapRowOk(parsed[0]) {
      MapKeptError(tail);
      var k :| 0 <= k < |tail| && (forall i :: 0 <= i < k ==> MapRowOk(tail[i]))
               && !MapRowOk(tail[k]) && MapKept(tail).error == MapRowError(tail[k]);
      assert forall i :: 0 < i <= k ==> parsed[i] == tail[i - 1];
    }
  }

  /** A row is collected by the map conversion exactly when some line
      unpacks into it and its fraction field is `-1`. */
  lemma {:induction false} MapKeptMembers(parsed: seq<Parsed>, row: OldRow)
    requires MapKept(parsed).Ok?
    ensures row in MapKept(parsed).value <==>
      exists i :: 0 <= i < |parsed| && parsed[i] == Ok(row) && row.frac == "-1"
  {
    if |parsed| > 0 {
      var tail := parsed[1..];
      MapKeptMembers(tail, row);
      if exists i :: 0 <= i < |parsed| && parsed[i] == Ok(row) && row.frac == "-1" {
        var i :| 0 <= i < |parsed| && parsed[i] == Ok(row) && row.frac == "-1";
        if i > 0 {
          assert tail[i - 1] == Ok(row);
        }
      }
      if exists i :: 0 <= i < |tail| && tail[i] == Ok(row) && row.frac == "-1" {
        var i :| 0 <= i < |tail| && tail[i] == Ok(row) && row.frac == "-1";
        assert parsed[i + 1] == Ok(row);
      }
    }
  }

  /** A line the map conversion keeps: it unpacks and its fraction field is
      `-1`. */
  predicate IsKeptRow(p: Parsed) {
    p.Ok? && p.value.frac == "-1"
  }

  /** The indices, from `k` on and in increasing order, of the lines the
      map conversion keeps. */
  function KeptFrom(parsed: seq<Parsed>, k: nat): (idx: seq<nat>)
    requires k <= |parsed|
    ensures forall j :: 0 <= j < |idx| ==> k <= idx[j] < |parsed| && IsKeptRow(parsed[idx[j]])
    ensures forall j, l :: 0 <= j < l < |idx| ==> idx[j] < idx[l]
    ensures forall i :: k <= i < |parsed| && IsKeptRow(parsed[i]) ==> i in idx
    decreases |parsed| - k
  {
    if k == |parsed| then []
    else (if IsKeptRow(parsed[k]) then [k] else []) + KeptFrom(parsed, k + 1)
  }

  /** The rows collected from line `k` on are, one for one and in order,
      the rows of the kept lines from `k` on. */
  lemma {:induction false} MapKeptOrderFrom(parsed: seq<Parsed>, k: nat)
    requires k <= |parsed| && MapKept(parsed[k..]).Ok?
    ensures |KeptFrom(parsed, k)| == |MapKept(parsed[k..]).value|
    ensures forall j :: 0 <= j < |KeptFrom(parsed, k)| ==>
      parsed[KeptFrom(parsed, k)[j]] == Ok(MapKept(parsed[k..]).value[j])
    decreases |parsed| - k
  {
    if k < |parsed| {
      MapKeptAt(parsed, k);
      MapKeptOrderFrom(parsed, k + 1);
      var rest := MapKept(parsed[k + 1..]).value;
      var tail := KeptFrom(parsed, k + 1);
      if IsKeptRow(parsed[k]) {
        assert MapKept(parsed[k..]).value == [parsed[k].value] + rest;
        assert KeptFrom(parsed, k) == [k] + tail;
      }
    }
  }

  /** The rows the map conversion collects are those of the kept lines,
      one for one and in line order: `idx` lists every kept line's index,
      in increasing order, and row `j` comes from line `idx[j]`. */
  lemma MapKeptOrder(parsed: seq<Parsed>)
    requires MapKept(parsed).Ok?
    ensures var idx := KeptFrom(parsed, 0);
      |idx| == |MapKept(parsed).value|
      && (forall j, l :: 0 <= j < l < |idx| ==> idx[j] < idx[l])
      && (forall i :: 0 <= i < |parsed| && IsKeptRow(parsed[i]) ==> i in idx)
      && (forall j :: 0 <= j < |idx| ==> parsed[idx[j]] == Ok(MapKept(parsed).value[j]))
  {
    assert parsed[0..] == parsed;
    MapKeptOrderFrom(parsed, 0);
  }

  /** Every row the map conversion collects has `-1` as its fraction field
      and a name without commas. */
  lemma MapKeptRows(parsed: seq<Parsed>)
    requires MapKept(parsed).Ok?
    ensures forall row :: row in MapKept(parsed).value ==> row.frac == "-1" && ',' !in row.name
  {
    MapKeptOk(parsed);
    forall row | row in MapKept(parsed).value ensures row.frac == "-1" && ',' !in row.name {
      MapKeptMembers(parsed, row);
      var i :| 0 <= i < |parsed| && parsed[i] == Ok(row) && row.frac == "-1";
      assert MapRowOk(parsed[i]);
    }
  }

  // -------------------------------------------------------------- names --

  /** The rows the names conversion collects: those before the first row
      whose fraction field is `-1`; the lines after that row are not read. */
  function NamesKept(parsed: seq<Parsed>): Result<seq<OldRow>, ConvertError> {
    if |parsed| == 0 then Ok([])
    else if parsed[0].Err? then Err(parsed[0].error)
    else if parsed[0].value.frac == "-1" then Ok([])
    else Prepend([parsed[0].value], NamesKept(parsed[1..]))
  }

  /** The collected rows are the leading lines, in order, none with `-1`
      as its fraction field, and the line right after them (if any) is one
      whose fraction field is `-1`. */
  lemma {:induction false} NamesKeptPrefix(parsed: seq<Parsed>)
    requires NamesKept(parsed).Ok?
    ensures var kept := NamesKept(parsed).value;
      |kept| <= |parsed|
      && (forall i :: 0 <= i < |kept| ==> parsed[i] == Ok(kept[i]) && kept[i].frac != "-1")
      && (|kept| < |parsed| ==> parsed[|kept|].Ok? && parsed[|kept|].value.frac == "-1")
  {
    if |parsed| > 0 && parsed[0].value.frac != "-1" {
      var tail := parsed[1..];
      NamesKeptPrefix(tail);
      var rest := NamesKept(tail).value;
      var kept := NamesKept(parsed).value;
      assert kept == [parsed[0].value] + rest;
      assert forall i :: 0 < i < |kept| ==> kept[i] == rest[i - 1] && parsed[i] == tail[i - 1];
      if |kept| < |parsed| {
        assert parsed[|kept|] == tail[|rest|];
      }
    }
  }

  /** Once a line with `-1` as its fraction field is reached, whatever
      follows it, even lines that would not unpack, changes nothing. */
  lemma {:induction false} NamesKeptStops(parsed: seq<Parsed>, k: nat, more: seq<Parsed>)
    requires k < |parsed|
    requires parsed[k].Ok? && parsed[k].value.frac == "-1"
    ensures NamesKept(parsed[..k + 1] + more) == NamesKept(parsed[..k + 1])
  {
    var front := parsed[..k + 1];
    assert (front + more)[0] == front[0];
    if k > 0 && front[0].Ok? && front[0].value.frac != "-1" {
      var tail := parsed[1..];
      NamesKeptStops(tail, k - 1, more);
      assert (front + more)[1..] == tail[..k] + more;
      assert front[1..] == tail[..k];
    }
  }

  /** When the names collection fails, the error is that of the first line
      that unpacks wrongly, and every line before it has a fraction field
      other than `-1`. */
  lemma {:induction false} NamesKeptError(parsed: seq<Parsed>)
    requires NamesKept(parsed).Err?
    ensures exists k :: (0 <= k < |parsed|
      && (forall i :: 0 <= i < k ==> parsed[i].Ok? && parsed[i].value.frac != "-1")
      && parsed[k].Err? && NamesKept(parsed).error == parsed[k].error)
  {
    var tail := parsed[1..];
    if parsed[0].Ok? {
      NamesKeptError(tail);
      var k :| 0 <= k < |tail|
        && (forall i :: 0 <= i < k ==> tail[i].Ok? && tail[i].value.frac != "-1")
        && tail[k].Err? && NamesKept(tail).error == tail[k].error;
      assert forall i :: 0 < i <= k ==> parsed[i] == tail[i - 1];
    }
  }

  // -------------------------------------------------------------- sort --

  /** `int(elem[0])` for every collected row: `list.sort` computes all the
      keys before it compares any. */
  function NumKeys(rows: seq<OldRow>): (keys: seq<Option<int>>)
    ensures |keys| == |rows|
  {
    seq(|rows|, i requires 0 <= i < |rows| => ParseInt(rows[i].num))
  }

  /** Pairs each row with its key; the first row whose key `int()` refused
      stops the sort. */
  function KeyRows(rows: seq<OldRow>, keys: seq<Option<int>>): Result<seq<Keyed<OldRow>>, ConvertError>
    requires |keys| == |rows|
  {
    if |rows| == 0 then Ok([])
    else if keys[0].None? then Err(NotAnInteger(rows[0].num))
    else
      var rest := KeyRows(rows[1..], keys[1..]);
      if rest.Err? then rest else Ok([Keyed(keys[0].value, rows[0])] + rest.value)
  }

  /** The collected rows with their sort keys. */
  function SortKeys(rows: seq<OldRow>): Result<seq<Keyed<OldRow>>, ConvertError> {
    KeyRows(rows, NumKeys(rows))
  }

  /** The rows are keyed exactly when every key was computed; each row is
      then paired with its own key, in order. */
  lemma {:induction false} KeyRowsOk(rows: seq<OldRow>, keys: seq<Option<int>>)
    requires |keys| == |rows|
    ensures KeyRows(rows, keys).Ok? <==> forall i :: 0 <= i < |keys| ==> keys[i].Some?
    ensures KeyRows(rows, keys).Ok? ==> |KeyRows(rows, keys).value| == |rows|
    ensures KeyRows(rows, keys).Ok? ==> forall i :: 0 <= i < |rows| ==>
      keys[i].Some? && KeyRows(rows, keys).value[i] == Keyed(keys[i].value, rows[i])
  {
    if |rows| > 0 {
      KeyRowsOk(rows[1..], keys[1..]);
      assert forall i :: 0 < i < |rows| ==> rows[i] == rows[1..][i - 1] && keys[i] == keys[1..][i - 1];
    }
  }

  /** Otherwise the error names the first row whose key was refused. */
  lemma {:induction false} KeyRowsError(rows: seq<OldRow>, keys: seq<Option<int>>)
    requires |keys| == |rows| && KeyRows(rows, keys).Err?
    ensures exists k :: (0 <= k < |rows| && KeyRows(rows, keys).error == NotAnInteger(rows[k].num)
      && keys[k].None? && forall i :: 0 <= i < k ==> keys[i].Some?)
  {
    if keys[0].Some? {
      var tail, tailKeys := rows[1..], keys[1..];
      KeyRowsError(tail, tailKeys);
      var k :| 0 <= k < |tail| && KeyRows(tail, tailKeys).error == NotAnInteger(tail[k].num)
        && tailKeys[k].None? && forall i :: 0 <= i < k ==> tailKeys[i].Some?;
      assert forall i :: 0 < i <= k ==> keys[i] == tailKeys[i - 1];
      assert rows[k + 1] == tail[k] && keys[k + 1] == tailKeys[k];
    }
  }

  /** The sort keys are computed for every row exactly when `int()` accepts
      every node number, each row then paired with the value of its own
      number; otherwise the error names the first number `int()` refuses. */
  lemma SortKeysMeaning(rows: seq<OldRow>)
    ensures SortKeys(rows).Ok? <==> forall i :: 0 <= i < |rows| ==> ParseInt(rows[i].num).Some?
    ensures SortKeys(rows).Ok? ==> |SortKeys(rows).value| == |rows|
    ensures SortKeys(rows).Ok? ==> forall i :: 0 <= i < |rows| ==>
      SortKeys(rows).value[i] == Keyed(ParseInt(rows[i].num).value, rows[i])
    ensures SortKeys(rows).Err? ==> exists k :: (0 <= k < |rows| && SortKeys(rows).error == NotAnInteger(rows[k].num)
      && ParseInt(rows[k].num).None? && forall i :: 0 <= i < k ==> ParseInt(rows[i].num).Some?)
  {
    var keys := NumKeys(rows);
    assert forall i :: 0 <= i < |rows| ==> keys[i] == ParseInt(rows[i].num);
    KeyRowsOk(rows, keys);
    if SortKeys(rows).Err? {
      KeyRowsError(rows, keys);
    }
  }

  // ------------------------------------------------------------ output --

  /** `','.join((num, name)) + '\n'`. */
  function MapLine(row: OldRow): string {
    Join([row.num, row.name], ',') + "\n"
  }

  /** `','.join((num, name, frac)) + '\n'`. */
  function NamesLine(row: OldRow): string {
    Join([row.num, row.name, row.frac], ',') + "\n"
  }

  function MapLines(sorted: seq<Keyed<OldRow>>): seq<string> {
    seq(|sorted|, i requires 0 <= i < |sorted| => MapLine(sorted[i].item))
  }

  function NamesLines(sorted: seq<Keyed<OldRow>>): seq<string> {
    seq(|sorted|, i requires 0 <= i < |sorted| => NamesLine(sorted[i].item))
  }

  /** The lines the map conversion writes: the collected rows sorted by
      node number, or the error that stops it. */
  function ConvertMapSpec(lines: seq<string>): Result<seq<string>, ConvertError> {
    var kept :- MapKept(ParseLines(lines));
    var keyed :- SortKeys(kept);
    Ok(MapLines(SortByKey(keyed)))
  }

  /** The lines the names conversion writes. */
  function ConvertNamesSpec(lines: seq<string>): Result<seq<string>, ConvertError> {
    var kept :- NamesKept(ParseLines(lines));
    var keyed :- SortKeys(kept);
    Ok(NamesLines(SortByKey(keyed)))
  }

  /** One step of the map loop: what the lines from `i` on give, in terms
      of line `i` and the lines after it. */
  lemma MapKeptAt(parsed: seq<Parsed>, i: nat)
    requires i < |parsed|
    ensures MapKept(parsed[i..]) ==
      if !MapRowOk(parsed[i]) then Err(MapRowError(parsed[i]))
      else if parsed[i].value.frac != "-1" then MapKept(parsed[i + 1..])
      else Prepend([parsed[i].value], MapKept(parsed[i + 1..]))
  {
    assert parsed[i..][0] == parsed[i] && parsed[i..][1..] == parsed[i + 1..];
  }

  /** One step of the names loop. */
  lemma NamesKeptAt(parsed: seq<Parsed>, i: nat)
    requires i < |parsed|
    ensures NamesKept(parsed[i..]) ==
      if parsed[i].Err? then Err(parsed[i].error)
      else if parsed[i].value.frac == "-1" then Ok([])
      else Prepend([parsed[i].value], NamesKept(parsed[i + 1..]))
  {
    assert parsed[i..][0] == parsed[i] && parsed[i..][1..] == parsed[i + 1..];
  }

  /** The `yield` loop of the map conversion. */
  method WriteMap(sorted: seq<Keyed<OldRow>>) returns (written: seq<string>)
    ensures written == MapLines(sorted)
  {
    written := [];
    for j := 0 to |sorted|
      invariant written == MapLines(sorted[..j])
    {
      written := written + [MapLine(sorted[j].item)];
    }
    assert sorted[..|sorted|] == sorted;
  }

  /** The `yield` loop of the names conversion. */
  method WriteNames(sorted: seq<Keyed<OldRow>>) returns (written: seq<string>)
    ensures written == NamesLines(sorted)
  {
    written := [];
    for j := 0 to |sorted|
      invariant written == NamesLines(sorted[..j])
    {
      written := written + [NamesLine(sorted[j].item)];
    }
    assert sorted[..|sorted|] == sorted;
  }

  /** The first loop of the map conversion's `process` generator. */
  method CollectMap(lines: seq<string>) returns (out: Result<seq<OldRow>, ConvertError>)
    ensures out == MapKept(ParseLines(lines))
  {
    ghost var all := ParseLines(lines);
    var result: seq<OldRow> := [];
    PrependNothing(MapKept(all));
    for i := 0 to |lines|
      invariant MapKept(all) == Prepend(result, MapKept(all[i..]))
    {
      MapKeptAt(all, i);
      var parsed := ParseLine(lines[i]);
      assert parsed == all[i];
      if parsed.Err? {
        return Err(parsed.error);
      }
      var row := parsed.value;
      if ',' in row.name {
        return Err(CommaInName(row.name));
      }
      if row.frac != "-1" {
        continue;
      }
      PrependTwice(result, row, MapKept(all[i + 1..]));
      result := result + [row];
    }
    assert all[|lines|..] == [];
    assert result + [] == result;
    out := Ok(result);
  }

  /** The `process` generator of the map conversion: collect, sort, write. */
  method ConvertMap(lines: seq<string>) returns (out: Result<seq<string>, ConvertError>)
    ensures out == ConvertMapSpec(lines)
  {
    var kept := CollectMap(lines);
    if kept.Err? {
      return Err(kept.error);
    }
    var keyed := SortKeys(kept.value);
    if keyed.Err? {
      return Err(keyed.error);
    }
    var written := WriteMap(SortByKey(keyed.value));
    out := Ok(written);
  }

  /** The first loop of the names conversion's `process` generator. */
  method CollectNames(lines: seq<string>) returns (out: Result<seq<OldRow>, ConvertError>)
    ensures out == NamesKept(ParseLines(lines))
  {
    ghost var all := ParseLines(lines);
    var result: seq<OldRow> := [];
    PrependNothing(NamesKept(all));
    var i := 0;
    while i < |lines|
      invariant i <= |lines|
      invariant NamesKept(all) == Prepend(result, NamesKept(all[i..]))
    {
      NamesKeptAt(all, i);
      var parsed := ParseLine(lines[i]);
      assert parsed == all[i];
      if parsed.Err? {
        return Err(parsed.error);
      }
      var row := parsed.value;
      if row.frac == "-1" {
        assert NamesKept(all) == Ok(result + []);
        assert result + [] == result;
        break;
      }
      PrependTwice(result, row, NamesKept(all[i + 1..]));
      result := result + [row];
      i := i + 1;
    }
    if i == |lines| {
      assert all[i..] == [];
      assert result + [] == result;
    }
    out := Ok(result);
  }

  /** The `process` generator of the names conversion. */
  method ConvertNames(lines: seq<string>) returns (out: Result<seq<string>, ConvertError>)
    ensures out == ConvertNamesSpec(lines)
  {
    var kept := CollectNames(lines);
    if kept.Err? {
      return Err(kept.error);
    }
    var keyed := SortKeys(kept.value);
    if keyed.Err? {
      return Err(keyed.error);
    }
    var written := WriteNames(SortByKey(keyed.value));
    out := Ok(written);
  }

  // ---------------------------------------------------- what is written --

  /** A number `int()` accepts has no comma in it. */
  lemma NumHasNoComma(num: string)
    requires ParseInt(num).Some?
    ensures ',' !in num
  {
    ParseIntChars(num);
  }

  /** A map line splits on commas into the number and the name followed by
      the newline, so reading it back field by field, as the identifier
      audit does, gives the stripped number and the stripped name. */
  lemma MapLineFields(row: OldRow)
    requires ParseInt(row.num).Some? && ',' !in row.name
    ensures Split(MapLine(row), ',') == [row.num, row.name + "\n"]
    ensures IdentifierAudit.FirstField(MapLine(row)) == Strip(row.num)
    ensures IdentifierAudit.SecondField(MapLine(row)) == Some(Strip(row.name))
  {
    NumHasNoComma(row.num);
    var parts := [row.num, row.name + "\n"];
    JoinPair(row.num, row.name, ',');
    JoinPair(row.num, row.name + "\n", ',');
    assert Join(parts, ',') == MapLine(row);
    assert forall i :: 0 <= i < |parts| ==> ',' !in parts[i];
    SplitJoin(parts, ',');
    StripTrailingSpace(row.name, '\n');
  }

  /** The first comma field of a names line is the stripped number, even
      when the name holds commas. */
  lemma NamesLineFirstField(row: OldRow)
    requires ParseInt(row.num).Some?
    ensures IdentifierAudit.FirstField(NamesLine(row)) == Strip(row.num)
  {
    NumHasNoComma(row.num);
    var rest := row.name + [','] + row.frac + "\n";
    JoinTriple(row.num, row.name, row.frac, ',');
    assert NamesLine(row) == row.num + [','] + rest;
    SplitAround(row.num, ',', rest);
  }

  /** The value of a written line's number, read back the way `int()` reads it. */
  function LineKey(line: string): Option<int> {
    ParseInt(IdentifierAudit.FirstField(line))
  }

  /** Each sorted row is one of the collected rows, keyed by the value of its
      own number. */
  lemma SortedRows(kept: seq<OldRow>, keyed: seq<Keyed<OldRow>>, sorted: seq<Keyed<OldRow>>, i: nat)
    requires SortKeys(kept) == Ok(keyed) && sorted == SortByKey(keyed) && i < |sorted|
    ensures sorted[i].item in kept
    ensures ParseInt(sorted[i].item.num) == Some(sorted[i].key)
  {
    SortKeysMeaning(kept);
    assert sorted[i] in multiset(keyed);
    var j :| 0 <= j < |keyed| && keyed[j] == sorted[i];
  }

  /** Every line the map conversion writes has exactly two comma fields,
      the first of them a number, and the numbers never decrease down the
      file; there is one line per collected row. */
  lemma MapOutput(lines: seq<string>)
    requires ConvertMapSpec(lines).Ok?
    ensures var out := ConvertMapSpec(lines).value;
      |out| == |MapKept(ParseLines(lines)).value|
      && (forall i :: 0 <= i < |out| ==> |Split(out[i], ',')| == 2 && LineKey(out[i]).Some?)
      && (forall i, j :: 0 <= i < j < |out| ==> LineKey(out[i]).value <= LineKey(out[j]).value)
  {
    var kept := MapKept(ParseLines(lines)).value;
    var keyed := SortKeys(kept).value;
    var sorted := SortByKey(keyed);
    var out := ConvertMapSpec(lines).value;
    assert out == MapLines(sorted);
    SortKeysMeaning(kept);
    MapKeptRows(ParseLines(lines));
    forall i | 0 <= i < |out| ensures LineKey(out[i]) == Some(sorted[i].key) && |Split(out[i], ',')| == 2 {
      SortedRows(kept, keyed, sorted, i);
      MapLineFields(sorted[i].item);
      ParseIntStrip(sorted[i].item.num);
    }
  }

  /** Every line the names conversion writes starts with a number, and the
      numbers never decrease down the file; there is one line per collected
      row. */
  lemma NamesOutput(lines: seq<string>)
    requires ConvertNamesSpec(lines).Ok?
    ensures var out := ConvertNamesSpec(lines).value;
      |out| == |NamesKept(ParseLines(lines)).value|
      && (forall i :: 0 <= i < |out| ==> LineKey(out[i]).Some?)
      && (forall i, j :: 0 <= i < j < |out| ==> LineKey(out[i]).value <= LineKey(out[j]).value)
  {
    var kept := NamesKept(ParseLines(lines)).value;
    var keyed := SortKeys(kept).value;
    var sorted := SortByKey(keyed);
    var out := ConvertNamesSpec(lines).value;
    assert out == NamesLines(sorted);
    SortKeysMeaning(kept);
    forall i | 0 <= i < |out| ensures LineKey(out[i]) == Some(sorted[i].key) {
      SortedRows(kept, keyed, sorted, i);
      NamesLineFirstField(sorted[i].item);
      ParseIntStrip(sorted[i].item.num);
    }
  }

  /** What a map conversion accepts: it succeeds exactly when every line
      unpacks into four fields with a comma-free name, and every line it
      keeps carries a number `int()` accepts. */
  lemma MapConversionOk(lines: seq<string>)
    ensures ConvertMapSpec(lines).Ok? <==>
      forall i :: 0 <= i < |lines| ==> (MapRowOk(ParseLine(lines[i]))
        && (ParseLine(lines[i]).value.frac == "-1" ==> ParseInt(ParseLine(lines[i]).value.num).Some?))
  {
    var parsed := ParseLines(lines);
    assert forall i :: 0 <= i < |lines| ==> parsed[i] == ParseLine(lines[i]);
    MapKeptOk(parsed);
    if MapKept(parsed).Ok? {
      var kept := MapKept(parsed).value;
      SortKeysMeaning(kept);
      forall i | 0 <= i < |lines| && parsed[i].value.frac == "-1" && SortKeys(kept).Ok?
        ensures ParseInt(parsed[i].value.num).Some?
      {
        MapKeptMembers(parsed, parsed[i].value);
        var j :| 0 <= j < |kept| && kept[j] == parsed[i].value;
      }
      if forall i :: 0 <= i < |lines| ==> (parsed[i].value.frac == "-1" ==> ParseInt(parsed[i].value.num).Some?) {
        forall j | 0 <= j < |kept| ensures ParseInt(kept[j].num).Some? {
          MapKeptMembers(parsed, kept[j]);
        }
      }
    }
  }

  /** The names conversion reads nothing past the first line whose fraction
      field is `-1`: whatever comes after, malformed lines included, the
      output is the same. */
  lemma NamesConversionStops(lines: seq<string>, k: nat, more: seq<string>)
    requires k < |lines|
    requires ParseLine(lines[k]).Ok? && ParseLine(lines[k]).value.frac == "-1"
    ensures ConvertNamesSpec(lines[..k + 1] + more) == ConvertNamesSpec(lines[..k + 1])
  {
    var front := ParseLines(lines[..k + 1]);
    ParseLinesAppend(lines[..k + 1], more);
    assert front[..k + 1] == front;
    NamesKeptStops(front, k, ParseLines(more));
  }

  // ---------------------------------------------------------------------
  // Worked example

  /** A line of four tab-free fields, the first starting and the last
      ending with a non-space character, unpacks into those fields. */
  lemma TabLine(line: string, row: OldRow)
    requires '\t' !in row.num && '\t' !in row.name && '\t' !in row.minus && '\t' !in row.frac
    requires |row.num| > 0 && !IsSpace(row.num[0]) && |row.frac| > 0 && !IsSpace(row.frac[|row.frac| - 1])
    requires line == row.num + ['\t'] + (row.name + ['\t'] + (row.minus + ['\t'] + row.frac)) + ['\n']
    ensures ParseLine(line) == Ok(row)
  {
    var body := row.num + ['\t'] + (row.name + ['\t'] + (row.minus + ['\t'] + row.frac));
    StripTrailingSpace(body, '\n');
    assert body[0] == row.num[0] && body[|body| - 1] == row.frac[|row.frac| - 1];
    PlainStrip(body);
    SplitFour(row.num, row.name, row.minus, row.frac, '\t');
  }

  lemma SeqThree<T>(l: seq<T>, a: T, b: T, c: T)
    requires |l| == 3 && l[0] == a && l[1] == b && l[2] == c
    ensures l == [a, b, c]
  {
  }

  lemma ParsedAt(lines: seq<string>, i: nat)
    requires i < |lines|
    ensures ParseLines(lines)[i] == ParseLine(lines[i])
  {
  }

  lemma ParsedThree(x: string, y: string, z: string, p: Parsed, q: Parsed, r: Parsed)
    requires ParseLine(x) == p && ParseLine(y) == q && ParseLine(z) == r
    ensures ParseLines([x, y, z]) == [p, q, r]
  {
    var lines := [x, y, z];
    ParsedAt(lines, 0);
    ParsedAt(lines, 1);
    ParsedAt(lines, 2);
    SeqThree(ParseLines(lines), p, q, r);
  }

  /** Of three rows, the two with fraction `-1` are kept, in order. */
  lemma MapKeptThree(a: OldRow, b: OldRow, c: OldRow)
    requires ',' !in a.name && ',' !in b.name && ',' !in c.name
    requires a.frac == "-1" && b.frac == "-1" && c.frac != "-1"
    ensures MapKept([Ok(a), Ok(b), Ok(c)]) == Ok([a, b])
  {
    var p: seq<Parsed> := [Ok(a), Ok(b), Ok(c)];
    assert p[1..] == [Ok(b), Ok(c)] && p[1..][1..] == [Ok(c)] && p[1..][1..][1..] == [];
    assert MapKept([Ok(c)]) == Ok([]);
    assert [b] + [] == [b];
    assert MapKept([Ok(b), Ok(c)]) == Ok([b]);
    assert [a] + [b] == [a, b];
  }

  lemma SeqTwo<T>(l: seq<T>, a: T, b: T)
    requires |l| == 2 && l[0] == a && l[1] == b
    ensures l == [a, b]
  {
  }

  lemma KeyAt(rows: seq<OldRow>, i: nat)
    requires i < |rows|
    ensures NumKeys(rows)[i] == ParseInt(rows[i].num)
  {
  }

  lemma KeyRowsTwo(a: OldRow, b: OldRow, i: int, j: int)
    ensures KeyRows([a, b], [Some(i), Some(j)]) == Ok([Keyed(i, a), Keyed(j, b)])
  {
    assert [a, b][1..] == [b] && [Some(i), Some(j)][1..] == [Some(j)];
    assert [b][1..] == [] && [Some(j)][1..] == [];
    assert [Keyed(j, b)] + [] == [Keyed(j, b)];
    assert KeyRows([b], [Some(j)]) == Ok([Keyed(j, b)]);
    assert [Keyed(i, a)] + [Keyed(j, b)] == [Keyed(i, a), Keyed(j, b)];
  }

  lemma KeysTwo(a: OldRow, b: OldRow, i: int, j: int)
    requires ParseInt(a.num) == Some(i) && ParseInt(b.num) == Some(j)
    ensures SortKeys([a, b]) == Ok([Keyed(i, a), Keyed(j, b)])
  {
    KeyAt([a, b], 0);
    KeyAt([a, b], 1);
    SeqTwo(NumKeys([a, b]), Some(i), Some(j));
    KeyRowsTwo(a, b, i, j);
  }

  /** `num,name\n` for a row. */
  lemma CommaLine(row: OldRow, line: string)
    requires line == row.num + "," + row.name + "\n"
    ensures MapLine(row) == line
  {
    JoinPair(row.num, row.name, ',');
  }

  lemma MapLinesTwo(x: Keyed<OldRow>, y: Keyed<OldRow>)
    ensures MapLines([x, y]) == [MapLine(x.item), MapLine(y.item)]
  {
  }

  lemma FooParsed()
    ensures ParseLine("5\tFoo\tx\t-1\n") == Ok(OldRow("5", "Foo", "x", "-1"))
  {
    TabLine("5\tFoo\tx\t-1\n", OldRow("5", "Foo", "x", "-1"));
  }

  lemma BarParsed()
    ensures ParseLine("3\tBar\tx\t-1\n") == Ok(OldRow("3", "Bar", "x", "-1"))
  {
    TabLine("3\tBar\tx\t-1\n", OldRow("3", "Bar", "x", "-1"));
  }

  lemma BazParsed()
    ensures ParseLine("4\tBaz\tx\t0.5\n") == Ok(OldRow("4", "Baz", "x", "0.5"))
  {
    TabLine("4\tBaz\tx\t0.5\n", OldRow("4", "Baz", "x", "0.5"));
  }

  lemma ExampleParsed()
    ensures ParseLines(["5\tFoo\tx\t-1\n", "3\tBar\tx\t-1\n", "4\tBaz\tx\t0.5\n"]) == [Ok(OldRow("5", "Foo", "x", "-1")), Ok(OldRow("3", "Bar", "x", "-1")), Ok(OldRow("4", "Baz", "x", "0.5"))]
  {
    FooParsed();
    BarParsed();
    BazParsed();
    ParsedThree("5\tFoo\tx\t-1\n", "3\tBar\tx\t-1\n", "4\tBaz\tx\t0.5\n", Ok(OldRow("5", "Foo", "x", "-1")), Ok(OldRow("3", "Bar", "x", "-1")), Ok(OldRow("4", "Baz", "x", "0.5")));
  }

  lemma ExampleKept()
    ensures MapKept([Ok(OldRow("5", "Foo", "x", "-1")), Ok(OldRow("3", "Bar", "x", "-1")), Ok(OldRow("4", "Baz", "x", "0.5"))]) == Ok([OldRow("5", "Foo", "x", "-1"), OldRow("3", "Bar", "x", "-1")])
  {
    assert "0.5"[0] != "-1"[0];
    MapKeptThree(OldRow("5", "Foo", "x", "-1"), OldRow("3", "Bar", "x", "-1"), OldRow("4", "Baz", "x", "0.5"));
  }

  lemma ExampleKeys()
    ensures SortKeys([OldRow("5", "Foo", "x", "-1"), OldRow("3", "Bar", "x", "-1")]) == Ok([Keyed(5, OldRow("5", "Foo", "x", "-1")), Keyed(3, OldRow("3", "Bar", "x", "-1"))])
  {
    OneDigit("5");
    OneDigit("3");
    KeysTwo(OldRow("5", "Foo", "x", "-1"), OldRow("3", "Bar", "x", "-1"), 5, 3);
  }

  lemma ExampleWritten()
    ensures MapLines([Keyed(3, OldRow("3", "Bar", "x", "-1")), Keyed(5, OldRow("5", "Foo", "x", "-1"))]) == ["3,Bar\n", "5,Foo\n"]
  {
    CommaLine(OldRow("3", "Bar", "x", "-1"), "3,Bar\n");
    CommaLine(OldRow("5", "Foo", "x", "-1"), "5,Foo\n");
    MapLinesTwo(Keyed(3, OldRow("3", "Bar", "x", "-1")), Keyed(5, OldRow("5", "Foo", "x", "-1")));
  }

  /** Of three old lines, the two whose fraction field is `-1` are written
      as `num,name` lines sorted by node number; the third is dropped. */
  lemma ExampleConvertMap()
    ensures ConvertMapSpec(["5\tFoo\tx\t-1\n", "3\tBar\tx\t-1\n", "4\tBaz\tx\t0.5\n"]) == Ok(["3,Bar\n", "5,Foo\n"])
  {
    ExampleParsed();
    ExampleKept();
    ExampleKeys();
    SortTwo(Keyed(5, OldRow("5", "Foo", "x", "-1")), Keyed(3, OldRow("3", "Bar", "x", "-1")));
    ExampleWritten();
  }
}
