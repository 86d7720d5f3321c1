/** The handful of Python `str` operations the scripts rely on, restricted to
    ASCII: `isspace`, `strip`, `isdigit`, `split(sep)`, `sep.join(parts)` and
    the built-in `int(s)` on a decimal string. */
module Text {
  import opened Wrappers

  /** `c.isspace()` for ASCII characters: space, \t \n \v \f \r and the
      four information separators \x1c to \x1f. */
  predicate IsSpace(c: char) {
    c == ' ' || ('\t' <= c <= '\r') || ('\U{1C}' <= c <= '\U{1F}')
  }

  predicate AllSpace(s: string) {
    forall i :: 0 <= i < |s| ==> IsSpace(s[i])
  }

  predicate IsDigit(c: char) {
    '0' <= c <= '9'
  }

  /** `s.isdigit()` for ASCII: at least one character, and only digits. */
  predicate IsDigits(s: string) {
    |s| > 0 && forall i :: 0 <= i < |s| ==> IsDigit(s[i])
  }

  /** `s.lstrip()`: the suffix left after dropping leading whitespace. */
  function StripLeft(s: string): (r: string)
    ensures |r| <= |s| && r == s[|s| - |r|..]
    ensures AllSpace(s[..|s| - |r|])
    ensures r == [] || !IsSpace(r[0])
  {
    if |s| > 0 && IsSpace(s[0]) then
      var r := StripLeft(s[1..]);
      assert s[..|s| - |r|] == [s[0]] + s[1..][..|s| - 1 - |r|];
      r
    else
      s
  }

  /** `s.rstrip()`: the prefix left after dropping trailing whitespace. */
  function StripRight(s: string): (r: string)
    ensures |r| <= |s| && r == s[..|r|]
    ensures AllSpace(s[|r|..])
    ensures r == [] || !IsSpace(r[|r| - 1])
  {
    if |s| > 0 && IsSpace(s[|s| - 1]) then
      var r := StripRight(s[..|s| - 1]);
      assert s[|r|..] == s[..|s| - 1][|r|..] + [s[|s| - 1]];
      r
    else
      s
  }

  /** `r` sits in `s` at index `i` with only whitespace before and after it. */
  predicate SpaceAround(s: string, i: int, r: string) {
    0 <= i <= |s| - |r| && s[i..i + |r|] == r && AllSpace(s[..i]) && AllSpace(s[i + |r|..])
  }

  /** `s.strip()`: `s` without its leading and trailing whitespace. The
      result is the slice of `s` that neither begins nor ends with
      whitespace and has only whitespace around it. */
  function Strip(s: string): (r: string)
    ensures r == [] || (!IsSpace(r[0]) && !IsSpace(r[|r| - 1]))
    ensures exists i :: SpaceAround(s, i, r)
  {
    var t := StripLeft(s);
    var r := StripRight(t);
    SliceAround(s, |s| - |t|, t, r);
    r
  }

  /** A prefix `r` of the suffix `t` of `s` with whitespace before `t` and
      after `r` has only whitespace around it. */
  lemma SliceAround(s: string, i: nat, t: string, r: string)
    requires i <= |s| && t == s[i..] && |r| <= |t| && r == t[..|r|]
    requires AllSpace(s[..i]) && AllSpace(t[|r|..])
    ensures SpaceAround(s, i, r)
  {
    assert s[i..i + |r|] == r;
    assert s[i + |r|..] == t[|r|..];
  }

  /** Whitespace added after a string does not change what `strip` gives. */
  lemma {:induction false} StripTrailingSpace(s: string, c: char)
    requires IsSpace(c)
    ensures Strip(s + [c]) == Strip(s)
  {
    StripLeftAppend(s, c);
    var t := StripLeft(s);
    if t != [] {
      assert (t + [c])[..|t + [c]| - 1] == t;
    }
  }

  lemma {:induction false} StripLeftAppend(s: string, c: char)
    requires IsSpace(c)
    ensures StripLeft(s + [c]) == if AllSpace(s) then [] else StripLeft(s) + [c]
  {
    if |s| == 0 {
      assert StripLeft([c][1..]) == [];
    } else if IsSpace(s[0]) {
      assert (s + [c])[1..] == s[1..] + [c];
      StripLeftAppend(s[1..], c);
      assert AllSpace(s) <==> AllSpace(s[1..]) by {
        if AllSpace(s[1..]) {
          forall i | 0 <= i < |s| ensures IsSpace(s[i]) {
            if i > 0 { assert s[i] == s[1..][i - 1]; }
          }
        }
      }
    }
  }

  /** `sep.join(parts)`. */
  function Join(parts: seq<string>, sep: char): string {
    if |parts| == 0 then ""
    else if |parts| == 1 then parts[0]
    else parts[0] + [sep] + Join(parts[1..], sep)
  }

  lemma JoinPair(a: string, b: string, sep: char)
    ensures Join([a, b], sep) == a + [sep] + b
  {
    assert [a, b][1..] == [b];
  }

  lemma JoinTriple(a: string, b: string, c: string, sep: char)
    ensures Join([a, b, c], sep) == a + [sep] + (b + [sep] + c)
  {
    assert [a, b, c][1..] == [b, c];
    JoinPair(b, c, sep);
  }

  /** `s.split(sep)` for a one-character separator: the pieces between
      consecutive separators, at least one, none containing the
      separator. */
  function Split(s: string, sep: char): (parts: seq<string>)
    ensures |parts| >= 1
    ensures forall i :: 0 <= i < |parts| ==> sep !in parts[i]
  {
    if |s| == 0 then [""]
    else
      var rest := Split(s[1..], sep);
      if s[0] == sep then [""] + rest
      else
        assert sep !in [s[0]] + rest[0];
        [[s[0]] + rest[0]] + rest[1..]
  }

  /** A split has one more piece than the string has separators. */
  lemma {:induction false} SplitCount(s: string, sep: char)
    ensures |Split(s, sep)| == multiset(s)[sep] + 1
  {
    if |s| > 0 {
      SplitCount(s[1..], sep);
      assert s == [s[0]] + s[1..];
    }
  }

  /** Joining the pieces of a split with the same separator gives back the
      original string. */
  lemma {:induction false} JoinSplit(s: string, sep: char)
    ensures Join(Split(s, sep), sep) == s
  {
    if |s| > 0 {
      var t := s[1..];
      assert s == [s[0]] + t;
      SplitCons(s[0], t, sep);
      JoinSplit(t, sep);
      var rest := Split(t, sep);
      if s[0] == sep {
        assert ([""] + rest)[1..] == rest;
      } else {
        JoinConsHead(s[0], rest, sep);
      }
    }
  }

  /** Joining after putting `c` in front of the first part. */
  lemma JoinConsHead(c: char, parts: seq<string>, sep: char)
    requires |parts| > 0
    ensures Join([[c] + parts[0]] + parts[1..], sep) == [c] + Join(parts, sep)
  {
    if |parts| > 1 {
      assert ([[c] + parts[0]] + parts[1..])[1..] == parts[1..];
    }
  }

  lemma {:induction false} SplitNoSep(s: string, sep: char)
    requires sep !in s
    ensures Split(s, sep) == [s]
  {
    if |s| > 0 {
      assert sep !in s[1..];
      SplitNoSep(s[1..], sep);
      assert [s[0]] + s[1..] == s;
    }
  }

  /** Splitting at a separator that follows a separator-free prefix. */
  lemma {:induction false} SplitAround(a: string, sep: char, b: string)
    requires sep !in a
    ensures Split(a + [sep] + b, sep) == [a] + Split(b, sep)
  {
    if |a| == 0 {
      assert a + [sep] + b == [sep] + b;
      assert ([sep] + b)[1..] == b;
    } else {
      assert (a + [sep] + b)[1..] == a[1..] + [sep] + b;
      assert sep !in a[1..];
      SplitAround(a[1..], sep, b);
      assert [a[0]] + a[1..] == a;
    }
  }

  /** Splitting a join of separator-free pieces gives back the pieces. */
  lemma {:induction false} SplitJoin(parts: seq<string>, sep: char)
    requires |parts| >= 1
    requires forall i :: 0 <= i < |parts| ==> sep !in parts[i]
    ensures Split(Join(parts, sep), sep) == parts
  {
    if |parts| == 1 {
      SplitNoSep(parts[0], sep);
    } else {
      SplitJoin(parts[1..], sep);
      SplitAround(parts[0], sep, Join(parts[1..], sep));
      assert [parts[0]] + parts[1..] == parts;
    }
  }

  lemma {:induction false} JoinSnoc(parts: seq<string>, x: string, sep: char)
    requires |parts| > 0
    ensures Join(parts + [x], sep) == Join(parts, sep) + [sep] + x
  {
    if |parts| > 1 {
      assert (parts + [x])[1..] == parts[1..] + [x];
      JoinSnoc(parts[1..], x, sep);
    }
  }

  /** One step of `Split`: the first character either ends the first piece
      or joins it. */
  lemma SplitCons(c: char, t: string, sep: char)
    ensures Split([c] + t, sep) == if c == sep then [""] + Split(t, sep)
                                   else [[c] + Split(t, sep)[0]] + Split(t, sep)[1..]
  {
    assert ([c] + t)[1..] == t;
  }

  /** Splitting at a separator that precedes a separator-free suffix. */
  lemma {:induction false} SplitSnoc(a: string, sep: char, b: string)
    requires sep !in b
    ensures Split(a + [sep] + b, sep) == Split(a, sep) + [b]
    decreases |a|, 1
  {
    if |a| == 0 {
      assert a + [sep] + b == [sep] + b;
      SplitCons(sep, b, sep);
      SplitNoSep(b, sep);
    } else {
      SplitSnocStep(a, sep, b);
    }
  }

  lemma {:induction false} SplitSnocStep(a: string, sep: char, b: string)
    requires sep !in b && |a| > 0
    ensures Split(a + [sep] + b, sep) == Split(a, sep) + [b]
    decreases |a|, 0
  {
    var t := a[1..] + [sep] + b;
    assert a + [sep] + b == [a[0]] + t;
    assert a == [a[0]] + a[1..];
    SplitCons(a[0], t, sep);
    SplitCons(a[0], a[1..], sep);
    SplitSnoc(a[1..], sep, b);
  }

  /** The index of the first `sep` in `s`, or `|s|` when there is none. */
  function FieldEnd(s: string, sep: char): (k: nat)
    ensures k <= |s| && sep !in s[..k]
    ensures k < |s| ==> s[k] == sep
  {
    if |s| == 0 || s[0] == sep then 0
    else
      var k := 1 + FieldEnd(s[1..], sep);
      assert s[..k] == [s[0]] + s[1..][..k - 1];
      k
  }

  /** The first piece of a split is the text before the first separator;
      the remaining pieces are the split of the text after it. */
  lemma {:induction false} SplitFirst(s: string, sep: char)
    ensures Split(s, sep)[0] == s[..FieldEnd(s, sep)]
    ensures |Split(s, sep)| > 1 <==> sep in s
    ensures sep in s ==> Split(s, sep)[1..] == Split(s[FieldEnd(s, sep) + 1..], sep)
  {
    var k := FieldEnd(s, sep);
    if k < |s| {
      assert s == s[..k] + [sep] + s[k + 1..];
      SplitAround(s[..k], sep, s[k + 1..]);
    } else {
      assert s[..k] == s;
      SplitNoSep(s, sep);
    }
  }

  /** The value of a string of ASCII digits, read in base ten. */
  function DigitsValue(s: string): nat
    requires forall i :: 0 <= i < |s| ==> IsDigit(s[i])
  {
    if |s| == 0 then 0
    else
      assert IsDigit(s[|s| - 1]);
      10 * DigitsValue(s[..|s| - 1]) + (s[|s| - 1] as int - '0' as int)
  }

  /** What `int()` makes of text without surrounding whitespace: an optional
      sign followed by at least one digit; anything else fails. */
  function IntText(t: string): Option<int> {
    if |t| > 0 && (t[0] == '+' || t[0] == '-') && IsDigits(t[1..]) then
      var v: int := DigitsValue(t[1..]);
      Some(if t[0] == '-' then -v else v)
    else if IsDigits(t) then
      Some(DigitsValue(t))
    else
      None
  }

  /** The whitespace `int()` skips around a number: space and \t \n \v \f \r,
      but not the information separators \x1c to \x1f that `isspace`
      accepts. */
  predicate IsIntSpace(c: char) {
    c == ' ' || ('\t' <= c <= '\r')
  }

  predicate AllIntSpace(s: string) {
    forall i :: 0 <= i < |s| ==> IsIntSpace(s[i])
  }

  /** The suffix left after dropping the leading whitespace `int()` skips. */
  function TrimLeft(s: string): (r: string)
    ensures |r| <= |s| && r == s[|s| - |r|..]
    ensures AllIntSpace(s[..|s| - |r|])
    ensures r == [] || !IsIntSpace(r[0])
  {
    if |s| > 0 && IsIntSpace(s[0]) then
      var r := TrimLeft(s[1..]);
      assert s[..|s| - |r|] == [s[0]] + s[1..][..|s| - 1 - |r|];
      r
    else
      s
  }

  /** The prefix left after dropping the trailing whitespace `int()` skips. */
  function TrimRight(s: string): (r: string)
    ensures |r| <= |s| && r == s[..|r|]
    ensures AllIntSpace(s[|r|..])
    ensures r == [] || !IsIntSpace(r[|r| - 1])
  {
    if |s| > 0 && IsIntSpace(s[|s| - 1]) then
      var r := TrimRight(s[..|s| - 1]);
      assert s[|r|..] == s[..|s| - 1][|r|..] + [s[|s| - 1]];
      r
    else
      s
  }

  /** The text `int()` reads: `s` without the whitespace it skips at both
      ends. */
  function IntTrim(s: string): (r: string)
    ensures r == [] || (!IsIntSpace(r[0]) && !IsIntSpace(r[|r| - 1]))
  {
    TrimRight(TrimLeft(s))
  }

  /** `r` sits in `s` at index `i` with only `int()` whitespace around it. */
  predicate IntSpaceAround(s: string, i: int, r: string) {
    0 <= i <= |s| - |r| && s[i..i + |r|] == r && AllIntSpace(s[..i]) && AllIntSpace(s[i + |r|..])
  }

  /** What `IntTrim` leaves is a slice of `s` with only `int()` whitespace
      around it. */
  lemma IntTrimAround(s: string)
    ensures IntSpaceAround(s, |s| - |TrimLeft(s)|, IntTrim(s))
  {
    var t := TrimLeft(s);
    IntSliceAround(s, |s| - |t|, t, TrimRight(t));
  }

  /** A prefix `r` of the suffix `t` of `s` with `int()` whitespace before
      `t` and after `r` has only that whitespace around it. */
  lemma IntSliceAround(s: string, i: nat, t: string, r: string)
    requires i <= |s| && t == s[i..] && |r| <= |t| && r == t[..|r|]
    requires AllIntSpace(s[..i]) && AllIntSpace(t[|r|..])
    ensures IntSpaceAround(s, i, r)
  {
    assert s[i..i + |r|] == r;
    assert s[i + |r|..] == t[|r|..];
  }

  /** Python's `int(s)` on a string: the whitespace `int()` skips is ignored
      at both ends, and what is left must be a signed or unsigned decimal. */
  function ParseInt(s: string): Option<int> {
    IntText(IntTrim(s))
  }

  /** Stripping twice is stripping once. */
  lemma StripIdempotent(s: string)
    ensures Strip(Strip(s)) == Strip(s)
  {
    var r := Strip(s);
    if r != [] {
      assert StripLeft(r) == r;
      assert StripRight(r) == r;
    }
  }

  /** Only one slice of `s` with whitespace around it has no whitespace at
      its two ends, once one of them is not empty. */
  lemma SpaceAroundUnique(s: string, i: int, t: string, j: int, r: string)
    requires SpaceAround(s, i, t) && SpaceAround(s, j, r)
    requires |t| > 0 && !IsSpace(t[0]) && !IsSpace(t[|t| - 1])
    requires r == [] || (!IsSpace(r[0]) && !IsSpace(r[|r| - 1]))
    ensures r == t
  {
    SpaceAroundIndex(s, i, t);
    SpaceAroundIndex(s, j, r);
    assert s[i] == t[0];
    assert s[j] == r[0];
    assert s[i + |t| - 1] == t[|t| - 1];
    assert s[j + |r| - 1] == r[|r| - 1];
  }

  /** The whitespace around a slice, index by index. */
  lemma SpaceAroundIndex(s: string, i: int, t: string)
    requires SpaceAround(s, i, t)
    ensures forall k :: 0 <= k < i ==> IsSpace(s[k])
    ensures forall k :: i + |t| <= k < |s| ==> IsSpace(s[k])
  {
    forall k | 0 <= k < i ensures IsSpace(s[k]) {
      assert s[..i][k] == s[k];
    }
    forall k | i + |t| <= k < |s| ensures IsSpace(s[k]) {
      assert s[i + |t|..][k - i - |t|] == s[k];
    }
  }

  /** The text `int()` reads holds only digits and signs. */
  lemma IntTextChars(t: string, m: int)
    requires IntText(t).Some?
    requires 0 <= m < |t|
    ensures IsDigit(t[m]) || t[m] == '+' || t[m] == '-'
  {
    if m > 0 && !IsDigits(t) {
      assert t[1..][m - 1] == t[m];
    }
  }

  /** Text that `int()` accepts is its own `strip`: the whitespace `int()`
      skips is also whitespace to `strip`, and digits and signs are not. */
  lemma IntTrimIsStrip(s: string)
    requires ParseInt(s).Some?
    ensures Strip(s) == IntTrim(s)
  {
    var t := IntTrim(s);
    var i := |s| - |TrimLeft(s)|;
    IntTrimAround(s);
    IntTextChars(t, 0);
    IntTextChars(t, |t| - 1);
    assert SpaceAround(s, i, t);
    var j :| SpaceAround(s, j, Strip(s));
    SpaceAroundUnique(s, i, t, j, Strip(s));
  }

  /** When `int()` accepts a string it accepts its `strip` too, with the same
      value. The converse fails: `strip` also drops \x1c to \x1f, which
      `int()` refuses. */
  lemma ParseIntStrip(s: string)
    ensures ParseInt(s).Some? ==> ParseInt(Strip(s)) == ParseInt(s)
  {
    if ParseInt(s).Some? {
      IntTrimIsStrip(s);
      var t := IntTrim(s);
      IntTextChars(t, 0);
      IntTextChars(t, |t| - 1);
      PlainTrim(t);
    }
  }

  /** A string that `int()` accepts holds only the whitespace `int()`
      skips, digits and signs. */
  lemma ParseIntChars(s: string)
    requires ParseInt(s).Some?
    ensures forall k :: 0 <= k < |s| ==> IsIntSpace(s[k]) || IsDigit(s[k]) || s[k] == '+' || s[k] == '-'
  {
    var t := IntTrim(s);
    var i := |s| - |TrimLeft(s)|;
    IntTrimAround(s);
    forall k | 0 <= k < |s| ensures IsIntSpace(s[k]) || IsDigit(s[k]) || s[k] == '+' || s[k] == '-' {
      if i <= k < i + |t| {
        assert s[i..i + |t|][k - i] == s[k];
        IntTextChars(t, k - i);
      } else if k < i {
        assert s[..i][k] == s[k];
      } else {
        assert s[i + |t|..][k - i - |t|] == s[k];
      }
    }
  }

  /** Text with no `int()` whitespace at its two ends is its own trim. */
  lemma PlainTrim(s: string)
    requires |s| > 0 && !IsIntSpace(s[0]) && !IsIntSpace(s[|s| - 1])
    ensures IntTrim(s) == s
  {
    assert TrimLeft(s) == s;
    assert TrimRight(s) == s;
  }

  /** An information separator (\x1c to \x1f) after a digit: `int()`
      refuses the string ... */
  lemma SeparatorRefused(d: char, c: char)
    requires IsDigit(d) && '\U{1C}' <= c <= '\U{1F}'
    ensures ParseInt([d, c]) == None
  {
    var s := [d, c];
    PlainTrim(s);
    assert !IsDigit(s[1]);
    assert !IsDigits(s);
    assert !IsDigits(s[1..]);
  }

  /** ... though `strip` removes the separator, leaving the digit, which
      `int()` accepts (`OneDigit`). */
  lemma SeparatorStripped(d: char, c: char)
    requires IsDigit(d) && '\U{1C}' <= c <= '\U{1F}'
    ensures Strip([d, c]) == [d]
  {
    assert [d, c] == [d] + [c];
    StripTrailingSpace([d], c);
    PlainStrip([d]);
  }

  // ---------------------------------------------------------------------
  // Small facts for worked examples

  /** Splitting separator-free pieces joined by `sep` gives back the
      pieces: two, three and four of them. */
  lemma SplitTwo(a: string, b: string, sep: char)
    requires sep !in a && sep !in b
    ensures Split(a + [sep] + b, sep) == [a, b]
  {
    SplitNoSep(b, sep);
    SplitAround(a, sep, b);
  }

  lemma SplitThree(a: string, b: string, c: string, sep: char)
    requires sep !in a && sep !in b && sep !in c
    ensures Split(a + [sep] + (b + [sep] + c), sep) == [a, b, c]
  {
    SplitTwo(b, c, sep);
    SplitAround(a, sep, b + [sep] + c);
  }

  lemma SplitFour(a: string, b: string, c: string, d: string, sep: char)
    requires sep !in a && sep !in b && sep !in c && sep !in d
    ensures Split(a + [sep] + (b + [sep] + (c + [sep] + d)), sep) == [a, b, c, d]
  {
    SplitThree(b, c, d, sep);
    SplitAround(a, sep, b + [sep] + (c + [sep] + d));
  }

  /** Text that starts and ends with a non-space character strips to
      itself. */
  lemma PlainStrip(s: string)
    requires |s| > 0 && !IsSpace(s[0]) && !IsSpace(s[|s| - 1])
    ensures Strip(s) == s
  {
    assert StripLeft(s) == s;
    assert StripRight(s) == s;
  }

  lemma NotDigits(s: string)
    requires |s| > 0 && !IsDigit(s[0])
    ensures !IsDigits(s)
  {
  }

  /** `int()` of a single digit is its value. */
  lemma OneDigit(s: string)
    requires |s| == 1 && IsDigit(s[0])
    ensures ParseInt(s) == Some(s[0] as int - '0' as int)
  {
    PlainTrim(s);
    assert IsDigits(s);
    assert s[..|s| - 1] == [];
    assert DigitsValue(s) == s[0] as int - '0' as int;
    assert IntText(s) == Some(DigitsValue(s));
  }
}
