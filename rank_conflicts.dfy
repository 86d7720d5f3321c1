/** The rank-conflict checker (`AccessionTSV` in
    dev_scripts/find_duplicate_taxa.py). Each row of a three-column TSV holds
    an accession, a `/`-separated lineage and a leaf name. The lineage is
    split into segments, a digits-only segment after the first is glued back
    onto its predecessor, and every resulting segment is recorded at its
    1-based position (its rank) in an index from names to the ranks they were
    seen at and the first accession seen at each rank. The report lists every
    name seen at more than one rank. */
module RankConflicts {
  import opened Wrappers
  import opened Text
  import opened Ordering

  newtype Byte = b: int | 0 <= b < 0x100

  /** How the input file is opened. */
  datatype Opener = Gzip | PlainText

  /** The test in `__iter__`: the first (at most two) bytes of the file are
      compared with the gzip magic number 1f 8b (the ID1 and ID2 bytes of
      section 2.3.1 of RFC 1952). */
  function ChooseOpener(data: seq<Byte>): (o: Opener)
    ensures o == Gzip <==> |data| >= 2 && data[0] == 0x1F && data[1] == 0x8B
  {
    var magic := data[..if |data| < 2 then |data| else 2];
    if [0x1F, 0x8B] <= magic then Gzip else PlainText
  }

  // ---------------------------------------------------------------------
  // Sequence facts, proved once for every element type

  lemma InSnoc<T>(s: seq<T>, x: T)
    requires |s| > 0
    ensures x in s <==> x in s[..|s| - 1] || x == s[|s| - 1]
  {
    assert s == s[..|s| - 1] + [s[|s| - 1]];
  }

  lemma TakeSnoc<T>(s: seq<T>, i: nat)
    requires i < |s|
    ensures s[..i + 1] == s[..i] + [s[i]]
    ensures s[..i + 1][..i] == s[..i] && s[..i + 1][i] == s[i]
  {
  }

  // ---------------------------------------------------------------------
  // Lineage normalisation

  /** The segments of a split lineage after the gluing loop: scanning left
      to right, a digits-only segment that is not the first is appended to
      the last kept segment as `previous + "/" + segment`; any other segment
      is kept on its own. */
  function Normalise(path: seq<string>): (fixed: seq<string>)
    ensures |fixed| > 0 <==> |path| > 0
  {
    if |path| == 0 then []
    else
      var init := Normalise(path[..|path| - 1]);
      var segment := path[|path| - 1];
      if IsDigits(segment) && |path| - 1 > 0 then
        init[..|init| - 1] + [init[|init| - 1] + "/" + segment]
      else
        init + [segment]
  }

  /** No kept segment after the first is digits-only. */
  lemma {:induction false} NormaliseNoBareDigits(path: seq<string>)
    ensures forall k :: 0 < k < |Normalise(path)| ==> !IsDigits(Normalise(path)[k])
  {
    if |path| > 0 {
      var n := |path|;
      var init := Normalise(path[..n - 1]);
      var segment := path[n - 1];
      NormaliseNoBareDigits(path[..n - 1]);
      if IsDigits(segment) && n - 1 > 0 {
        var previous := init[|init| - 1];
        var glued := previous + "/" + segment;
        assert glued[|previous|] == '/';
        assert Normalise(path) == init[..|init| - 1] + [glued];
      }
    }
  }

  /** The loop of lines 62-67, building `fixed_path` by appending a segment
      or overwriting its last element. */
  method FixPath(path: seq<string>) returns (fixed: seq<string>)
    ensures fixed == Normalise(path)
  {
    fixed := [];
    for i := 0 to |path|
      invariant fixed == Normalise(path[..i])
    {
      var segment := path[i];
      assert path[..i + 1][..i] == path[..i];
      if IsDigits(segment) && i > 0 {
        fixed := fixed[..|fixed| - 1] + [fixed[|fixed| - 1] + "/" + segment];
      } else {
        fixed := fixed + [segment];
      }
    }
    assert path[..|path|] == path;
  }

  /** The positions after the first that hold a digits-only segment. */
  function BareDigitPositions(path: seq<string>): set<nat> {
    set j | 0 < j < |path| && IsDigits(path[j])
  }

  /** Every digits-only segment after the first is absorbed by its
      predecessor, and nothing else is: the normalised path is shorter than
      the split one by exactly the number of such segments. */
  lemma {:induction false} NormaliseLength(path: seq<string>)
    ensures |Normalise(path)| == |path| - |BareDigitPositions(path)|
  {
    if |path| > 0 {
      var n := |path|;
      var init := path[..n - 1];
      NormaliseLength(init);
      if IsDigits(path[n - 1]) && n - 1 > 0 {
        assert BareDigitPositions(path) == BareDigitPositions(init) + {n - 1};
      } else {
        assert BareDigitPositions(path) == BareDigitPositions(init);
      }
    }
  }

  /** Gluing only moves separators: joining the normalised segments with `/`
      gives the same string as joining the split ones. */
  lemma {:induction false} NormaliseJoin(path: seq<string>)
    ensures Join(Normalise(path), '/') == Join(path, '/')
  {
    if |path| > 0 {
      var n := |path|;
      var init := Normalise(path[..n - 1]);
      var segment := path[n - 1];
      NormaliseJoin(path[..n - 1]);
      assert path == path[..n - 1] + [segment];
      if IsDigits(segment) && n - 1 > 0 {
        var m := |init|;
        var previous := init[m - 1];
        assert init == init[..m - 1] + [previous];
        JoinSnoc(path[..n - 1], segment, '/');
        if m == 1 {
          assert Join(init[..m - 1] + [previous + "/" + segment], '/') == previous + "/" + segment;
        } else {
          JoinSnoc(init[..m - 1], previous + "/" + segment, '/');
          JoinSnoc(init[..m - 1], previous, '/');
        }
      } else if n - 1 > 0 {
        JoinSnoc(init, segment, '/');
        JoinSnoc(path[..n - 1], segment, '/');
      }
    }
  }

  /** The lineage string is recovered from its normalised segments. */
  lemma LineageRoundTrip(lineage: string)
    ensures Join(Normalise(Split(lineage, '/')), '/') == lineage
  {
    NormaliseJoin(Split(lineage, '/'));
    JoinSplit(lineage, '/');
  }

  /** The `/`-pieces of the segments of `fixed`, in order. */
  function Flatten(fixed: seq<string>): seq<string> {
    if |fixed| == 0 then [] else Flatten(fixed[..|fixed| - 1]) + Split(fixed[|fixed| - 1], '/')
  }

  lemma FlattenSnoc(fixed: seq<string>, x: string)
    ensures Flatten(fixed + [x]) == Flatten(fixed) + Split(x, '/')
  {
    assert (fixed + [x])[..|fixed|] == fixed;
  }

  /** A normalised segment is one original segment followed by digits-only
      segments; unless it is the first, its leading piece is not
      digits-only. */
  predicate GluedSegment(segment: string, first: bool) {
    var pieces := Split(segment, '/');
    (!first ==> !IsDigits(pieces[0]))
    && forall m :: 0 < m < |pieces| ==> IsDigits(pieces[m])
  }

  /** Every segment of `fixed` is glued as `GluedSegment` says. */
  predicate Glued(fixed: seq<string>) {
    forall k :: 0 <= k < |fixed| ==> GluedSegment(fixed[k], k == 0)
  }

  predicate NoSlash(path: seq<string>) {
    forall j :: 0 <= j < |path| ==> '/' !in path[j]
  }

  /** Replacing the last segment by one with an extra last piece adds that
      piece at the end. */
  lemma GlueStep(front: seq<string>, previous: string, glued: string, segment: string)
    requires Split(glued, '/') == Split(previous, '/') + [segment]
    ensures Flatten(front + [glued]) == Flatten(front + [previous]) + [segment]
  {
    FlattenSnoc(front, previous);
    FlattenSnoc(front, glued);
  }

  lemma AppendStep(init: seq<string>, segment: string)
    requires '/' !in segment
    ensures Flatten(init + [segment]) == Flatten(init) + [segment]
  {
    SplitNoSep(segment, '/');
    FlattenSnoc(init, segment);
  }

  /** For segments that hold no `/` (as those of a split do), normalisation
      only groups them: the pieces of the normalised segments, taken in
      order, are the original segments. */
  lemma {:induction false} NormaliseFlatten(path: seq<string>)
    requires NoSlash(path)
    ensures Flatten(Normalise(path)) == path
  {
    if |path| > 0 {
      var n := |path|;
      var segment := path[n - 1];
      NormaliseFlatten(path[..n - 1]);
      assert path == path[..n - 1] + [segment];
      if IsDigits(segment) && n - 1 > 0 {
        var init := Normalise(path[..n - 1]);
        var m := |init|;
        assert init == init[..m - 1] + [init[m - 1]];
        SplitSnoc(init[m - 1], '/', segment);
        GlueStep(init[..m - 1], init[m - 1], init[m - 1] + "/" + segment, segment);
      } else {
        AppendStep(Normalise(path[..n - 1]), segment);
      }
    }
  }

  lemma GluedGlue(init: seq<string>, segment: string)
    requires Glued(init) && |init| > 0 && '/' !in segment && IsDigits(segment)
    ensures var m := |init|; Glued(init[..m - 1] + [init[m - 1] + "/" + segment])
  {
    var m := |init|;
    var fixed := init[..m - 1] + [init[m - 1] + "/" + segment];
    SplitSnoc(init[m - 1], '/', segment);
    forall k | 0 <= k < |fixed| ensures GluedSegment(fixed[k], k == 0) {
      assert GluedSegment(init[k], k == 0);
    }
  }

  lemma GluedAppend(init: seq<string>, segment: string)
    requires Glued(init) && '/' !in segment && (|init| > 0 ==> !IsDigits(segment))
    ensures Glued(init + [segment])
  {
    SplitNoSep(segment, '/');
    var fixed := init + [segment];
    forall k | 0 <= k < |fixed| ensures GluedSegment(fixed[k], k == 0) {
      if k < |init| {
        assert fixed[k] == init[k];
      }
    }
  }

  /** Each normalised segment is a leader followed by digits-only segments,
      and leaders after the first are never digits-only: empty and
      non-digit segments are never merged. */
  lemma {:induction false} NormaliseGlued(path: seq<string>)
    requires NoSlash(path)
    ensures Glued(Normalise(path))
  {
    if |path| > 0 {
      var n := |path|;
      var segment := path[n - 1];
      NormaliseGlued(path[..n - 1]);
      if IsDigits(segment) && n - 1 > 0 {
        GluedGlue(Normalise(path[..n - 1]), segment);
      } else {
        GluedAppend(Normalise(path[..n - 1]), segment);
      }
    }
  }

  /** The first segment always leads the first normalised segment. */
  lemma {:induction false} NormaliseFirst(path: seq<string>)
    requires NoSlash(path) && |path| > 0
    ensures Split(Normalise(path)[0], '/')[0] == path[0]
  {
    var n := |path|;
    var init := Normalise(path[..n - 1]);
    var segment := path[n - 1];
    if n == 1 {
      SplitNoSep(segment, '/');
    } else {
      NormaliseFirst(path[..n - 1]);
      var m := |init|;
      if IsDigits(segment) && m == 1 {
        SplitSnoc(init[0], '/', segment);
      }
    }
  }

  // ---------------------------------------------------------------------
  // The index of names, ranks and first accessions

  /** What is recorded about one name: the ranks it was seen at, and for
      each of them the accession of the first row that put it there. */
  datatype Levels = Levels(ranks: set<nat>, accessions: map<nat, string>)

  type Index = map<string, Levels>

  /** Every recorded name has at least one rank, ranks are 1-based, and
      each rank has its first accession. */
  predicate IndexInvariant(index: Index) {
    forall name :: name in index ==>
      index[name].accessions.Keys == index[name].ranks
      && index[name].ranks != {}
      && 0 !in index[name].ranks
  }

  /** The `defaultdict` lookup: a name not yet seen reads as no ranks and no
      accessions. */
  function Entry(index: Index, name: string): Levels {
    if name in index then index[name] else Levels({}, map[])
  }

  /** One pass of the recording loop: `rank` is added to the ranks of
      `name`, and `acc` is stored for that rank unless one already is. */
  function WithOccurrence(index: Index, name: string, rank: nat, acc: string): Index {
    var e := Entry(index, name);
    var accessions := if rank in e.accessions then e.accessions else e.accessions[rank := acc];
    index[name := Levels(e.ranks + {rank}, accessions)]
  }

  /** The recording loop for one row: the segment at position `k` of the
      normalised lineage is recorded at rank `k + 1`. */
  function WithRow(index: Index, acc: string, fixed: seq<string>): Index {
    if |fixed| == 0 then index
    else WithOccurrence(WithRow(index, acc, fixed[..|fixed| - 1]), fixed[|fixed| - 1], |fixed|, acc)
  }

  /** The ranks at which `name` occurs in a normalised lineage. */
  function RanksIn(fixed: seq<string>, name: string): set<nat> {
    set k | 0 <= k < |fixed| && fixed[k] == name :: k + 1
  }

  /** Rank `r` of a row is given to exactly the segment at position `r - 1`:
      the ranks of one row are 1 to its length, one per segment. */
  lemma RanksInPosition(fixed: seq<string>, name: string, r: nat)
    ensures r in RanksIn(fixed, name) <==> 1 <= r <= |fixed| && fixed[r - 1] == name
  {
    if 1 <= r <= |fixed| && fixed[r - 1] == name {
      assert (r - 1) + 1 in RanksIn(fixed, name);
    }
  }

  /** What recording `ranks` with accession `acc` does to an entry. */
  function Merged(e: Levels, ranks: set<nat>, acc: string): Levels {
    Levels(e.ranks + ranks,
           map r | r in e.accessions.Keys + ranks :: if r in e.accessions then e.accessions[r] else acc)
  }

  lemma RanksInSnoc(fixed: seq<string>, name: string)
    requires |fixed| > 0
    ensures fixed[|fixed| - 1] != name ==> RanksIn(fixed, name) == RanksIn(fixed[..|fixed| - 1], name)
    ensures fixed[|fixed| - 1] == name ==> RanksIn(fixed, name) == RanksIn(fixed[..|fixed| - 1], name) + {|fixed|}
  {
    var n := |fixed|;
    forall r ensures r in RanksIn(fixed, name) <==>
      r in RanksIn(fixed[..n - 1], name) || (fixed[n - 1] == name && r == n)
    {
      RanksInPosition(fixed, name, r);
      RanksInPosition(fixed[..n - 1], name, r);
    }
  }

  lemma MergedStep(e: Levels, ranks: set<nat>, n: nat, acc: string)
    requires n !in ranks
    ensures var m := Merged(e, ranks, acc);
      Levels(m.ranks + {n}, if n in m.accessions then m.accessions else m.accessions[n := acc])
      == Merged(e, ranks + {n}, acc)
  {
    var m := Merged(e, ranks, acc);
    var grown := Merged(e, ranks + {n}, acc);
    var accessions := if n in m.accessions then m.accessions else m.accessions[n := acc];
    assert accessions == grown.accessions;
  }

  /** The effect of a row on one name, in closed form: the name is present
      afterwards iff it was before or occurs in the row, and its entry is
      the old entry merged with the ranks at which the row holds it. */
  lemma {:induction false} WithRowEntry(index: Index, acc: string, fixed: seq<string>, name: string)
    ensures name in WithRow(index, acc, fixed) <==> name in index || name in fixed
    ensures name in WithRow(index, acc, fixed) ==>
      WithRow(index, acc, fixed)[name] == Merged(Entry(index, name), RanksIn(fixed, name), acc)
  {
    if |fixed| == 0 {
      if name in index {
        assert Merged(index[name], {}, acc).accessions == index[name].accessions;
      }
    } else {
      WithRowEntry(index, acc, fixed[..|fixed| - 1], name);
      if fixed[|fixed| - 1] == name {
        WithRowEntryLast(index, acc, fixed, name);
      } else {
        WithRowEntryOther(index, acc, fixed, name);
      }
    }
  }

  /** `after` holds for `name` what `WithRowEntry` says a row leaves. */
  predicate Recorded(after: Index, index: Index, acc: string, fixed: seq<string>, name: string) {
    (name in after <==> name in index || name in fixed)
    && (name in after ==> after[name] == Merged(Entry(index, name), RanksIn(fixed, name), acc))
  }

  lemma WithRowEntryOther(index: Index, acc: string, fixed: seq<string>, name: string)
    requires |fixed| > 0 && fixed[|fixed| - 1] != name
    requires Recorded(WithRow(index, acc, fixed[..|fixed| - 1]), index, acc, fixed[..|fixed| - 1], name)
    ensures Recorded(WithRow(index, acc, fixed), index, acc, fixed, name)
  {
    var n := |fixed|;
    var before := WithRow(index, acc, fixed[..n - 1]);
    OccurrenceOther(before, fixed[n - 1], n, acc, name);
    RanksInSnoc(fixed, name);
    InSnoc(fixed, name);
  }

  /** Recording one name leaves every other name as it was. */
  lemma OccurrenceOther(index: Index, other: string, rank: nat, acc: string, name: string)
    requires name != other
    ensures name in WithOccurrence(index, other, rank, acc) <==> name in index
    ensures name in index ==> WithOccurrence(index, other, rank, acc)[name] == index[name]
  {
  }

  lemma WithRowEntryLast(index: Index, acc: string, fixed: seq<string>, name: string)
    requires |fixed| > 0 && fixed[|fixed| - 1] == name
    requires Recorded(WithRow(index, acc, fixed[..|fixed| - 1]), index, acc, fixed[..|fixed| - 1], name)
    ensures Recorded(WithRow(index, acc, fixed), index, acc, fixed, name)
  {
    var n := |fixed|;
    var front := fixed[..n - 1];
    var before := WithRow(index, acc, front);
    RanksInSnoc(fixed, name);
    assert n !in RanksIn(front, name) by {
      RanksInPosition(front, name, n);
    }
    if name !in before {
      assert RanksIn(front, name) == {} by {
        forall r ensures r !in RanksIn(front, name) {
          RanksInPosition(front, name, r);
        }
      }
    }
    OccurrenceMerged(before, name, n, acc, Entry(index, name), RanksIn(front, name));
  }

  /** Recording rank `n` on an entry that is the merge of `e` with `ranks`
      gives the merge of `e` with `ranks + {n}`. */
  lemma OccurrenceMerged(before: Index, name: string, n: nat, acc: string, e: Levels, ranks: set<nat>)
    requires n !in ranks
    requires name in before ==> before[name] == Merged(e, ranks, acc)
    requires name !in before ==> e == Levels({}, map[]) && ranks == {}
    ensures WithOccurrence(before, name, n, acc)[name] == Merged(e, ranks + {n}, acc)
  {
    if name !in before {
      assert Merged(e, ranks, acc) == Levels({}, map[]);
    }
    MergedStep(e, ranks, n, acc);
  }

  /** A row changes only the entries of the names it holds. */
  lemma WithRowKeepsOthers(index: Index, acc: string, fixed: seq<string>, name: string)
    requires name !in fixed
    ensures name in WithRow(index, acc, fixed) <==> name in index
    ensures name in index ==> WithRow(index, acc, fixed)[name] == index[name]
  {
    WithRowEntry(index, acc, fixed, name);
    assert RanksIn(fixed, name) == {} by {
      forall r ensures r !in RanksIn(fixed, name) {
        RanksInPosition(fixed, name, r);
      }
    }
    if name in index {
      assert Merged(index[name], {}, acc).accessions == index[name].accessions;
    }
  }

  /** Only the first accession seen at a rank is kept. */
  lemma WithRowKeepsFirst(index: Index, acc: string, fixed: seq<string>, name: string, rank: nat)
    requires name in index && rank in index[name].accessions
    ensures name in WithRow(index, acc, fixed)
    ensures rank in WithRow(index, acc, fixed)[name].accessions
    ensures WithRow(index, acc, fixed)[name].accessions[rank] == index[name].accessions[rank]
  {
    WithRowEntry(index, acc, fixed, name);
  }

  /** A row adds, for each of its segments, that segment's rank, with the
      row's accession when the rank is new for that name. */
  lemma WithRowRecords(index: Index, acc: string, fixed: seq<string>, k: nat)
    requires k < |fixed|
    ensures fixed[k] in WithRow(index, acc, fixed)
    ensures k + 1 in WithRow(index, acc, fixed)[fixed[k]].ranks
    ensures k + 1 in WithRow(index, acc, fixed)[fixed[k]].accessions
    ensures k + 1 !in Entry(index, fixed[k]).accessions ==>
      WithRow(index, acc, fixed)[fixed[k]].accessions[k + 1] == acc
  {
    WithRowEntry(index, acc, fixed, fixed[k]);
    RanksInPosition(fixed, fixed[k], k + 1);
  }

  lemma WithRowInvariant(index: Index, acc: string, fixed: seq<string>)
    requires IndexInvariant(index)
    ensures IndexInvariant(WithRow(index, acc, fixed))
  {
    var after := WithRow(index, acc, fixed);
    forall name | name in after
      ensures after[name].accessions.Keys == after[name].ranks
      ensures after[name].ranks != {} && 0 !in after[name].ranks
    {
      WithRowEntry(index, acc, fixed, name);
      if name !in index {
        var k :| 0 <= k < |fixed| && fixed[k] == name;
        RanksInPosition(fixed, name, k + 1);
      }
      assert 0 !in RanksIn(fixed, name) by {
        RanksInPosition(fixed, name, 0);
      }
    }
  }

  /** A parsed row: accession, lineage and leaf name. */
  predicate WellFormed(rows: seq<seq<string>>) {
    forall i :: 0 <= i < |rows| ==> |rows[i]| == 3
  }

  /** The normalised lineage of a row. */
  function Lineage(row: seq<string>): seq<string>
    requires |row| == 3
  {
    Normalise(Split(row[1], '/'))
  }

  /** The index after recording the given rows one after another. */
  function Accumulate(index: Index, rows: seq<seq<string>>): Index
    requires WellFormed(rows)
  {
    if |rows| == 0 then index
    else
      var last := rows[|rows| - 1];
      WithRow(Accumulate(index, rows[..|rows| - 1]), last[0], Lineage(last))
  }

  lemma {:induction false} AccumulateInvariant(index: Index, rows: seq<seq<string>>)
    requires WellFormed(rows) && IndexInvariant(index)
    ensures IndexInvariant(Accumulate(index, rows))
  {
    if |rows| > 0 {
      var last := rows[|rows| - 1];
      AccumulateInvariant(index, rows[..|rows| - 1]);
      WithRowInvariant(Accumulate(index, rows[..|rows| - 1]), last[0], Lineage(last));
    }
  }

  /** Across any number of later rows, the accession first recorded for a
      name at a rank is never replaced. */
  lemma {:induction false} AccumulateKeepsFirst(index: Index, rows: seq<seq<string>>, name: string, rank: nat)
    requires WellFormed(rows) && name in index && rank in index[name].accessions
    ensures name in Accumulate(index, rows)
    ensures rank in Accumulate(index, rows)[name].accessions
    ensures Accumulate(index, rows)[name].accessions[rank] == index[name].accessions[rank]
  {
    if |rows| > 0 {
      var last := rows[|rows| - 1];
      AccumulateKeepsFirst(index, rows[..|rows| - 1], name, rank);
      WithRowKeepsFirst(Accumulate(index, rows[..|rows| - 1]), last[0], Lineage(last), name, rank);
    }
  }

  /** The number of leading rows that have exactly three fields: the row at
      this position, if any, is the one whose unpacking fails. */
  function FirstMalformed(rows: seq<seq<string>>): (k: nat)
    ensures k <= |rows| && WellFormed(rows[..k])
    ensures k < |rows| ==> |rows[k]| != 3
  {
    if |rows| == 0 || |rows[0]| != 3 then 0
    else
      var k := 1 + FirstMalformed(rows[1..]);
      assert forall i :: 0 < i < k ==> rows[..k][i] == rows[1..][..k - 1][i - 1];
      k
  }

  /** The first row that does not have three fields is the one after a
      well-formed prefix. */
  lemma FirstMalformedIs(rows: seq<seq<string>>, i: nat)
    requires i <= |rows| && WellFormed(rows[..i])
    requires i < |rows| ==> |rows[i]| != 3
    ensures FirstMalformed(rows) == i
  {
  }

  lemma AccumulateSnoc(index: Index, rows: seq<seq<string>>, i: nat)
    requires i < |rows| && WellFormed(rows[..i]) && |rows[i]| == 3
    ensures WellFormed(rows[..i + 1])
    ensures Accumulate(index, rows[..i + 1]) == WithRow(Accumulate(index, rows[..i]), rows[i][0], Lineage(rows[i]))
  {
    TakeSnoc(rows, i);
  }

  // ---------------------------------------------------------------------
  // The report

  /** One reported name: its ranks in ascending order and, for each of them,
      the first accession seen there. */
  datatype Conflict = Conflict(name: string, ranks: seq<nat>, examples: seq<string>)

  function Names(report: seq<Conflict>): seq<string> {
    seq(|report|, i requires 0 <= i < |report| => report[i].name)
  }

  /** `c` lists the entry `e`: all its ranks in ascending order, each with
      its accession. */
  ghost predicate Lists(c: Conflict, e: Levels) {
    StrictlyAscendingRanks(c.ranks)
    && (forall r :: r in c.ranks <==> r in e.ranks)
    && |c.examples| == |c.ranks|
    && forall i :: 0 <= i < |c.ranks| ==> c.ranks[i] in e.accessions && c.examples[i] == e.accessions[c.ranks[i]]
  }

  /** The report of lines 77-84: the names recorded at more than one rank,
      in ascending order, each listed with its ranks and accessions. */
  ghost predicate Describes(index: Index, report: seq<Conflict>) {
    StrictlyAscendingNames(Names(report))
    && (forall name :: name in Names(report) <==> name in index && |index[name].ranks| > 1)
    && forall i :: 0 <= i < |report| ==> report[i].name in index && Lists(report[i], index[report[i].name])
  }

  /** The report is determined by the index. */
  lemma ReportsUnique(index: Index, a: seq<Conflict>, b: seq<Conflict>)
    requires Describes(index, a) && Describes(index, b)
    ensures a == b
  {
    AscendingNamesUnique(Names(a), Names(b));
    assert |a| == |Names(a)|;
    forall i | 0 <= i < |a| ensures a[i] == b[i] {
      assert Names(a)[i] == Names(b)[i];
      AscendingRanksUnique(a[i].ranks, b[i].ranks);
    }
  }

  lemma NamesSnoc(report: seq<Conflict>, c: Conflict)
    ensures Names(report + [c]) == Names(report) + [c.name]
  {
  }

  /** Line 84 for every rank: the first accession stored at each of the
      given ranks, in their order. */
  method Examples(data: Levels, ranks: seq<nat>) returns (examples: seq<string>)
    requires forall m :: 0 <= m < |ranks| ==> ranks[m] in data.accessions
    ensures |examples| == |ranks|
    ensures forall m :: 0 <= m < |ranks| ==> examples[m] == data.accessions[ranks[m]]
  {
    examples := [];
    for k := 0 to |ranks|
      invariant |examples| == k
      invariant forall m :: 0 <= m < k ==> examples[m] == data.accessions[ranks[m]]
    {
      examples := examples + [data.accessions[ranks[k]]];
    }
  }

  /** Lines 81-84 for one name: its sorted ranks and their accessions. */
  method Describe(name: string, data: Levels) returns (c: Conflict)
    requires data.accessions.Keys == data.ranks
    ensures c.name == name && Lists(c, data)
  {
    var ranks := SortRanks(data.ranks);
    var examples := Examples(data, ranks);
    c := Conflict(name, ranks, examples);
  }

  /** The names of `names` recorded at more than one rank, in their order. */
  function Crowded(index: Index, names: seq<string>): seq<string> {
    if |names| == 0 then []
    else
      var last := names[|names| - 1];
      Crowded(index, names[..|names| - 1]) + (if |Entry(index, last).ranks| > 1 then [last] else [])
  }

  lemma {:induction false} CrowdedMembers(index: Index, names: seq<string>, name: string)
    ensures name in Crowded(index, names) <==> name in names && |Entry(index, name).ranks| > 1
  {
    if |names| > 0 {
      CrowdedMembers(index, names[..|names| - 1], name);
      assert names == names[..|names| - 1] + [names[|names| - 1]];
    }
  }

  lemma {:induction false} CrowdedAscending(index: Index, names: seq<string>)
    requires StrictlyAscendingNames(names)
    ensures StrictlyAscendingNames(Crowded(index, names))
  {
    if |names| > 0 {
      var n := |names|;
      var last := names[n - 1];
      var front := Crowded(index, names[..n - 1]);
      CrowdedAscending(index, names[..n - 1]);
      if |Entry(index, last).ranks| > 1 {
        var all := front + [last];
        forall i, j | 0 <= i < j < |all| ensures Below(all[i], all[j]) {
          if j == |front| {
            CrowdedMembers(index, names[..n - 1], front[i]);
            var k :| 0 <= k < n - 1 && names[..n - 1][k] == front[i];
            assert names[k] == front[i];
          } else {
            assert all[i] == front[i] && all[j] == front[j];
          }
        }
      }
    }
  }

  /** Lines 77-84: the names in ascending order, and for each one recorded at
      more than one rank, its sorted ranks with their accessions. */
  method Report(index: Index) returns (report: seq<Conflict>)
    requires IndexInvariant(index)
    ensures Describes(index, report)
  {
    var names := SortNames(index.Keys);
    report := [];
    for i := 0 to |names|
      invariant Names(report) == Crowded(index, names[..i])
      invariant forall j :: 0 <= j < |report| ==> report[j].name in index && Lists(report[j], index[report[j].name])
    {
      var name := names[i];
      assert names[..i + 1][..i] == names[..i];
      if |index[name].ranks| > 1 {
        var c := Describe(name, index[name]);
        NamesSnoc(report, c);
        report := report + [c];
      }
    }
    assert names[..|names|] == names;
    CrowdedAscending(index, names);
    forall name ensures name in Names(report) <==> name in index && |index[name].ranks| > 1 {
      CrowdedMembers(index, names, name);
    }
  }

  // ---------------------------------------------------------------------
  // The checker object

  /** Why `__call__` stops: a row that does not unpack into its three
      fields. */
  datatype RowError = WrongFieldCount(fields: nat)

  class AccessionTsv {
    /** `taxa_levels`, computed once and kept for the life of the object. */
    var taxaLevels: Index

    ghost predicate Valid()
      reads this
    {
      IndexInvariant(taxaLevels)
    }

    constructor ()
      ensures Valid() && taxaLevels == map[]
    {
      taxaLevels := map[];
    }

    /** Lines 72-75: records `name` at `rank` with accession `acc`. */
    method Record(name: string, rank: nat, acc: string)
      requires Valid() && rank > 0
      modifies this
      ensures Valid()
      ensures taxaLevels == WithOccurrence(old(taxaLevels), name, rank, acc)
    {
      var data := Entry(taxaLevels, name);
      var accessions := data.accessions;
      if rank !in accessions {
        accessions := accessions[rank := acc];
      }
      taxaLevels := taxaLevels[name := Levels(data.ranks + {rank}, accessions)];
    }

    /** Lines 69-75: records every segment of a row at its 1-based rank. */
    method RecordRow(acc: string, fixed: seq<string>)
      requires Valid()
      modifies this
      ensures Valid()
      ensures taxaLevels == WithRow(old(taxaLevels), acc, fixed)
    {
      for i := 0 to |fixed|
        invariant Valid()
        invariant taxaLevels == WithRow(old(taxaLevels), acc, fixed[..i])
      {
        assert fixed[..i + 1][..i] == fixed[..i];
        Record(fixed[i], i + 1, acc);
      }
      assert fixed[..|fixed|] == fixed;
    }

    /** Lines 58-75 for a row that unpacks into its three fields. */
    method RecordFields(row: seq<string>)
      requires Valid() && |row| == 3
      modifies this
      ensures Valid()
      ensures taxaLevels == WithRow(old(taxaLevels), row[0], Lineage(row))
    {
      var fixed := FixPath(Split(row[1], '/'));
      RecordRow(row[0], fixed);
    }

    /** The loop of lines 56-75 over the parsed rows: rows are recorded in
        order until one does not unpack into three fields, and its position
        is returned. */
    method RecordRows(rows: seq<seq<string>>) returns (failed: Option<nat>)
      requires Valid()
      modifies this
      ensures Valid()
      ensures taxaLevels == Accumulate(old(taxaLevels), rows[..FirstMalformed(rows)])
      ensures failed == if FirstMalformed(rows) < |rows| then Some(FirstMalformed(rows)) else None
    {
      var i := 0;
      while i < |rows|
        invariant i <= |rows| && WellFormed(rows[..i])
        invariant Valid()
        invariant taxaLevels == Accumulate(old(taxaLevels), rows[..i])
      {
        var row := rows[i];
        if |row| != 3 {
          FirstMalformedIs(rows, i);
          return Some(i);
        }
        AccumulateSnoc(old(taxaLevels), rows, i);
        RecordFields(row);
        i := i + 1;
      }
      assert rows[..|rows|] == rows;
      FirstMalformedIs(rows, i);
      return None;
    }

    /** `__call__` over the parsed rows of the file. The first row that does
        not have three fields stops the run with an error and no report,
        leaving the rows before it recorded. Otherwise the report describes
        the index after all rows, including what earlier calls on the same
        object recorded. */
    method Call(rows: seq<seq<string>>) returns (result: Result<seq<Conflict>, RowError>)
      requires Valid()
      modifies this
      ensures Valid()
      ensures taxaLevels == Accumulate(old(taxaLevels), rows[..FirstMalformed(rows)])
      ensures FirstMalformed(rows) < |rows| ==>
        result == Err(WrongFieldCount(|rows[FirstMalformed(rows)]|))
      ensures FirstMalformed(rows) == |rows| ==> result.Ok? && Describes(taxaLevels, result.value)
    {
      var failed := RecordRows(rows);
      if failed.Some? {
        return Err(WrongFieldCount(|rows[failed.value]|));
      }
      var report := Report(taxaLevels);
      return Ok(report);
    }
  }

  // ---------------------------------------------------------------------
  // Worked examples

  /** One more segment: glued onto the last entry when it is all digits
      and not the first segment, appended otherwise. */
  lemma NormaliseSnoc(path: seq<string>, segment: string)
    ensures Normalise(path + [segment]) ==
      var init := Normalise(path);
      if IsDigits(segment) && |path| > 0 then init[..|init| - 1] + [init[|init| - 1] + "/" + segment]
      else init + [segment]
  {
    assert (path + [segment])[..|path|] == path;
  }

  lemma GlueA1()
    ensures Normalise(["A", "1"]) == ["A/1"]
  {
    assert "1"[0] == '1';
    assert IsDigits("1");
    NormaliseSnoc([], "A");
    assert [] + ["A"] == ["A"];
    NormaliseSnoc(["A"], "1");
    assert ["A"] + ["1"] == ["A", "1"];
    assert "A" + "/" + "1" == "A/1";
  }

  lemma GlueA1BC()
    ensures Normalise(["A", "1", "B", "C"]) == ["A/1", "B", "C"]
  {
    assert "B"[0] == 'B' && "C"[0] == 'C';
    NotDigits("B");
    NotDigits("C");
    GlueA1();
    NormaliseSnoc(["A", "1"], "B");
    assert ["A", "1"] + ["B"] == ["A", "1", "B"];
    NormaliseSnoc(["A", "1", "B"], "C");
    assert ["A", "1", "B"] + ["C"] == ["A", "1", "B", "C"];
  }

  /** A digits-only segment is glued onto the segment before it. */
  lemma ExampleGlueDigits()
    ensures Normalise(Split("A/1/B/C", '/')) == ["A/1", "B", "C"]
  {
    assert "A/1/B/C" == "A" + ['/'] + ("1" + ['/'] + ("B" + ['/'] + "C"));
    SplitFour("A", "1", "B", "C", '/');
    GlueA1BC();
  }

  /** A digits-only first segment has nothing to be glued onto and stays. */
  lemma ExampleLeadingDigits()
    ensures Normalise(Split("1/A/B", '/')) == ["1", "A", "B"]
  {
    assert "1/A/B" == "1" + ['/'] + ("A" + ['/'] + "B");
    SplitThree("1", "A", "B", '/');
    assert "A"[0] == 'A' && "B"[0] == 'B';
    NotDigits("A");
    NotDigits("B");
    NormaliseSnoc([], "1");
    assert [] + ["1"] == ["1"];
    NormaliseSnoc(["1"], "A");
    assert ["1"] + ["A"] == ["1", "A"];
    NormaliseSnoc(["1", "A"], "B");
    assert ["1", "A"] + ["B"] == ["1", "A", "B"];
  }

  lemma WithRowSnoc(index: Index, acc: string, fixed: seq<string>, segment: string)
    ensures WithRow(index, acc, fixed + [segment]) == WithOccurrence(WithRow(index, acc, fixed), segment, |fixed| + 1, acc)
  {
    assert (fixed + [segment])[..|fixed|] == fixed;
  }

  lemma LineageXY()
    ensures Lineage(["acc1", "X/Y", "Y"]) == ["X", "Y"]
  {
    assert "X/Y" == "X" + ['/'] + "Y";
    SplitTwo("X", "Y", '/');
    assert "Y"[0] == 'Y';
    NotDigits("Y");
    NormaliseSnoc([], "X");
    assert [] + ["X"] == ["X"];
    NormaliseSnoc(["X"], "Y");
    assert ["X"] + ["Y"] == ["X", "Y"];
  }

  lemma LineageXYY()
    ensures Lineage(["acc2", "X/Y/Y", "Y"]) == ["X", "Y", "Y"]
  {
    assert "X/Y/Y" == "X" + ['/'] + ("Y" + ['/'] + "Y");
    SplitThree("X", "Y", "Y", '/');
    assert "Y"[0] == 'Y';
    NotDigits("Y");
    NormaliseSnoc([], "X");
    assert [] + ["X"] == ["X"];
    NormaliseSnoc(["X"], "Y");
    assert ["X"] + ["Y"] == ["X", "Y"];
    NormaliseSnoc(["X", "Y"], "Y");
    assert ["X", "Y"] + ["Y"] == ["X", "Y", "Y"];
  }

  /** The index after the row `acc1  X/Y`: `X` at rank 1 and `Y` at
      rank 2, each with that accession. */
  lemma ExampleFirstRow()
    ensures WithRow(map[], "acc1", ["X", "Y"]) == map["X" := Levels({1}, map[1 := "acc1"]), "Y" := Levels({2}, map[2 := "acc1"])]
  {
    assert "X"[0] != "Y"[0];
    WithRowSnoc(map[], "acc1", [], "X");
    assert [] + ["X"] == ["X"];
    WithRowSnoc(map[], "acc1", ["X"], "Y");
    assert ["X"] + ["Y"] == ["X", "Y"];
    var m1 := WithOccurrence(map[], "X", 1, "acc1");
    assert Entry(map[], "X") == Levels({}, map[]);
    assert {} + {1} == {1};
    assert map[][1 := "acc1"] == map[1 := "acc1"];
    assert m1 == map["X" := Levels({1}, map[1 := "acc1"])];
    var m2 := WithOccurrence(m1, "Y", 2, "acc1");
    assert Entry(m1, "Y") == Levels({}, map[]);
    assert {} + {2} == {2};
    assert map[][2 := "acc1"] == map[2 := "acc1"];
    assert m2 == m1["Y" := Levels({2}, map[2 := "acc1"])];
  }

  /** Seeing `X` at rank 1 and `Y` at rank 2 again changes nothing; `Y` at
      rank 3 adds that rank with the second accession. */
  lemma ExampleSecondRow()
    ensures WithRow(map["X" := Levels({1}, map[1 := "acc1"]), "Y" := Levels({2}, map[2 := "acc1"])], "acc2", ["X", "Y", "Y"]) == map["X" := Levels({1}, map[1 := "acc1"]), "Y" := Levels({2, 3}, map[2 := "acc1", 3 := "acc2"])]
  {
    var first := map["X" := Levels({1}, map[1 := "acc1"]), "Y" := Levels({2}, map[2 := "acc1"])];
    assert "X"[0] != "Y"[0];
    WithRowSnoc(first, "acc2", [], "X");
    assert [] + ["X"] == ["X"];
    WithRowSnoc(first, "acc2", ["X"], "Y");
    assert ["X"] + ["Y"] == ["X", "Y"];
    WithRowSnoc(first, "acc2", ["X", "Y"], "Y");
    assert ["X", "Y"] + ["Y"] == ["X", "Y", "Y"];
    var m1 := WithOccurrence(first, "X", 1, "acc2");
    assert {1} + {1} == {1};
    assert m1 == first;
    var m2 := WithOccurrence(m1, "Y", 2, "acc2");
    assert {2} + {2} == {2};
    assert m2 == first;
    var m3 := WithOccurrence(m2, "Y", 3, "acc2");
    assert Entry(m2, "Y") == Levels({2}, map[2 := "acc1"]);
    assert 3 !in map[2 := "acc1"];
    assert {2} + {3} == {2, 3};
    assert m3 == first["Y" := Levels({2, 3}, map[2 := "acc1", 3 := "acc2"])];
  }

  lemma ExampleIndex()
    ensures WellFormed([["acc1", "X/Y", "Y"], ["acc2", "X/Y/Y", "Y"]])
    ensures Accumulate(map[], [["acc1", "X/Y", "Y"], ["acc2", "X/Y/Y", "Y"]]) == map["X" := Levels({1}, map[1 := "acc1"]), "Y" := Levels({2, 3}, map[2 := "acc1", 3 := "acc2"])]
  {
    var rows := [["acc1", "X/Y", "Y"], ["acc2", "X/Y/Y", "Y"]];
    assert rows[..1] == [rows[0]] && rows[..1][..0] == [];
    LineageXY();
    LineageXYY();
    ExampleFirstRow();
    ExampleSecondRow();
  }

  lemma ExampleDescribed()
    ensures Describes(map["X" := Levels({1}, map[1 := "acc1"]), "Y" := Levels({2, 3}, map[2 := "acc1", 3 := "acc2"])], [Conflict("Y", [2, 3], ["acc1", "acc2"])])
  {
    var t := map["X" := Levels({1}, map[1 := "acc1"]), "Y" := Levels({2, 3}, map[2 := "acc1", 3 := "acc2"])];
    var c := Conflict("Y", [2, 3], ["acc1", "acc2"]);
    assert "X"[0] != "Y"[0];
    assert |t["X"].ranks| == 1 && |t["Y"].ranks| == 2;
    assert Names([c]) == ["Y"];
    assert Lists(c, t["Y"]);
  }

  /** A name seen at ranks 2 and 3 is the one conflict reported, listed
      with the first accession seen at each rank; a name seen only at
      rank 1 is not reported. */
  lemma ExampleConflict(report: seq<Conflict>)
    requires Describes(Accumulate(map[], [["acc1", "X/Y", "Y"], ["acc2", "X/Y/Y", "Y"]]), report)
    ensures report == [Conflict("Y", [2, 3], ["acc1", "acc2"])]
  {
    ExampleIndex();
    ExampleDescribed();
    var index := map["X" := Levels({1}, map[1 := "acc1"]), "Y" := Levels({2, 3}, map[2 := "acc1", 3 := "acc2"])];
    ReportsUnique(index, report, [Conflict("Y", [2, 3], ["acc1", "acc2"])]);
  }
}
