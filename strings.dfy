/** The Python string and list built-ins the scoring engine relies on, over ASCII text:
    `str.lower`, `in`, `str.find`, `str.split`, `str.strip`, `' '.join`, `list(set(...))`
    and list filtering. */
module Strings {

  datatype Option<+T> = None | Some(value: T)

  predicate IsUpper(c: char) { 'A' <= c <= 'Z' }

  predicate IsDigit(c: char) { '0' <= c <= '9' }

  /** `\w` restricted to ASCII: letters, digits and the underscore. */
  predicate IsWordChar(c: char) { 'a' <= c <= 'z' || 'A' <= c <= 'Z' || IsDigit(c) || c == '_' }

  /** `\s` and `str.isspace` restricted to ASCII: space, tab, line feed, vertical tab,
      form feed, carriage return and the separators 0x1C to 0x1F. */
  predicate IsSpace(c: char) { c == ' ' || '\t' <= c <= '\r' || '\U{1C}' <= c <= '\U{1F}' }

  predicate NotSpace(c: char) { !IsSpace(c) }

  function LowerChar(c: char): (d: char)
    ensures !IsUpper(d)
    ensures IsSpace(d) == IsSpace(c)
    ensures !IsUpper(c) ==> d == c
  {
    if IsUpper(c) then (c as int + 32) as char else c
  }

  /** `s.lower()` for ASCII letters. */
  function Lower(s: string): (r: string)
    ensures |r| == |s|
    ensures forall i :: 0 <= i < |s| ==> r[i] == LowerChar(s[i])
  {
    seq(|s|, i requires 0 <= i < |s| => LowerChar(s[i]))
  }

  predicate NoUpper(s: string) { forall i :: 0 <= i < |s| ==> !IsUpper(s[i]) }

  lemma LowerNoUpper(s: string)
    ensures NoUpper(Lower(s))
  {
  }

  lemma LowerFixpoint(s: string)
    requires NoUpper(s)
    ensures Lower(s) == s
  {
  }

  lemma LowerSlice(s: string, i: nat, j: nat)
    requires i <= j <= |s|
    ensures Lower(s)[i..j] == Lower(s[i..j])
  {
  }

  /** Python's `needle in hay`: the needle occurs somewhere in the hay (the empty needle everywhere). */
  predicate Contains(hay: string, needle: string)
    decreases |hay|
  {
    needle <= hay || (hay != [] && Contains(hay[1..], needle))
  }

  /** Python's `hay.find(needle)`: the index of the first occurrence, or -1. */
  function Find(hay: string, needle: string): (r: int)
    ensures r == -1 <==> !Contains(hay, needle)
    ensures -1 <= r
    ensures 0 <= r ==> r + |needle| <= |hay| && needle <= hay[r..]
    ensures 0 <= r ==> forall i :: 0 <= i < r ==> !(needle <= hay[i..])
    decreases |hay|
  {
    if needle <= hay then 0
    else if hay == [] then -1
    else
      var k := Find(hay[1..], needle);
      assert forall i :: 1 <= i <= |hay| ==> hay[i..] == hay[1..][i - 1..];
      if k < 0 then -1 else k + 1
  }

  lemma ContainsAt(hay: string, needle: string, k: nat)
    requires k + |needle| <= |hay| && needle <= hay[k..]
    ensures Contains(hay, needle)
    decreases k
  {
    if k > 0 {
      assert hay[1..][k - 1..] == hay[k..];
      ContainsAt(hay[1..], needle, k - 1);
    }
  }

  /** An occurrence inside a slice is an occurrence in the whole string. */
  lemma ContainsSlice(hay: string, i: nat, j: nat, needle: string)
    requires i <= j <= |hay|
    requires Contains(hay[i..j], needle)
    ensures Contains(hay, needle)
  {
    var k := Find(hay[i..j], needle);
    assert hay[i..j][k..] <= hay[i + k..];
    ContainsAt(hay, needle, i + k);
  }

  /** An occurrence in a suffix is an occurrence in the whole string. */
  lemma ContainsSuffix(hay: string, k: nat, needle: string)
    requires k <= |hay|
    requires Contains(hay[k..], needle)
    ensures Contains(hay, needle)
  {
    assert hay[k..|hay|] == hay[k..];
    ContainsSlice(hay, k, |hay|, needle);
  }

  /** Every character of a needle that occurs in the hay is a character of the hay. */
  lemma ContainsChars(hay: string, needle: string)
    requires Contains(hay, needle)
    ensures forall c :: c in needle ==> c in hay
  {
    var k := Find(hay, needle);
    forall c | c in needle ensures c in hay {
      var j :| 0 <= j < |needle| && needle[j] == c;
      assert hay[k + j] == c;
    }
  }

  /** Python's `s.split(sep)` with a one-character separator: always at least one piece. */
  function Split(s: string, sep: char): (r: seq<string>)
    ensures |r| >= 1
  {
    if s == [] then [[]]
    else
      var rest := Split(s[1..], sep);
      if s[0] == sep then [[]] + rest else [[s[0]] + rest[0]] + rest[1..]
  }

  /** A string without the separator splits into itself alone. */
  lemma {:induction false} SplitWithoutSeparator(s: string, sep: char)
    requires forall i :: 0 <= i < |s| ==> s[i] != sep
    ensures Split(s, sep) == [s]
  {
    if s != [] {
      SplitWithoutSeparator(s[1..], sep);
      assert [s[0]] + s[1..] == s;
    }
  }

  /** The pieces hold no separator, and joined back with the separator they give `s`. */
  lemma {:induction false} SplitPieces(s: string, sep: char)
    ensures var r := Split(s, sep);
      (forall k :: 0 <= k < |r| ==> sep !in r[k]) && Join(r, [sep]) == s
  {
    if s != [] {
      SplitPieces(s[1..], sep);
      var rest := Split(s[1..], sep);
      var r := Split(s, sep);
      if s[0] == sep {
        assert r == [[]] + rest && r[1..] == rest;
        assert Join(r, [sep]) == [] + [sep] + Join(rest, [sep]);
        assert [sep] + s[1..] == s;
      } else {
        assert r == [[s[0]] + rest[0]] + rest[1..];
        if |rest| == 1 {
          assert Join(r, [sep]) == [s[0]] + rest[0];
        } else {
          assert r[1..] == rest[1..];
          assert Join(r, [sep]) == [s[0]] + rest[0] + [sep] + Join(rest[1..], [sep]);
          assert Join(rest, [sep]) == rest[0] + [sep] + Join(rest[1..], [sep]);
        }
        assert [s[0]] + s[1..] == s;
        forall k | 0 <= k < |r| ensures sep !in r[k] {
          if k > 0 {
            assert r[k] == rest[k];
          }
        }
      }
    }
  }

  /** The first piece is `s` up to its first separator: a separator-free prefix followed by a
      separator or by the end of `s`. */
  lemma SplitFirstPiece(s: string, sep: char)
    ensures var first := Split(s, sep)[0];
      first <= s && sep !in first && (|first| < |s| ==> s[|first|] == sep)
  {
    var r := Split(s, sep);
    SplitPieces(s, sep);
    if |r| > 1 {
      assert Join(r, [sep]) == r[0] + [sep] + Join(r[1..], [sep]);
      assert s[|r[0]|] == sep;
    }
  }

  /** The length of the longest prefix of `s` made of characters satisfying `keep`. */
  function RunLen(s: string, keep: char -> bool): (n: nat)
    ensures n <= |s|
    ensures forall i :: 0 <= i < n ==> keep(s[i])
    ensures n < |s| ==> !keep(s[n])
  {
    if s == [] || !keep(s[0]) then 0 else 1 + RunLen(s[1..], keep)
  }

  lemma {:induction false} RunLenAtLeast(s: string, keep: char -> bool, k: nat)
    requires k <= |s|
    requires forall i :: 0 <= i < k ==> keep(s[i])
    ensures RunLen(s, keep) >= k
  {
    if k > 0 {
      RunLenAtLeast(s[1..], keep, k - 1);
    }
  }

  /** The maximal non-empty runs of `keep` characters, left to right. With `NotSpace` this is
      Python's `s.split()`; with `IsWordChar` it is `re.findall(r'\b\w+\b', s)`. */
  function Runs(s: string, keep: char -> bool): (r: seq<string>)
    decreases |s|
  {
    if s == [] then []
    else if !keep(s[0]) then Runs(s[1..], keep)
    else
      var n := RunLen(s, keep);
      [s[..n]] + Runs(s[n..], keep)
  }

  /** Each run is non-empty, made of `keep` characters and occurs in the string. */
  lemma {:induction false} RunsShape(s: string, keep: char -> bool)
    ensures forall w :: w in Runs(s, keep) ==>
      w != [] && (forall i :: 0 <= i < |w| ==> keep(w[i])) && Contains(s, w)
    decreases |s|
  {
    if s == [] {
    } else if !keep(s[0]) {
      RunsShape(s[1..], keep);
      forall w | w in Runs(s[1..], keep) ensures Contains(s, w) {
        assert s[1..|s|] == s[1..];
        ContainsSlice(s, 1, |s|, w);
      }
    } else {
      var n := RunLen(s, keep);
      RunsShape(s[n..], keep);
      ContainsAt(s, s[..n], 0);
      forall w | w in Runs(s[n..], keep) ensures Contains(s, w) {
        assert s[n..|s|] == s[n..];
        ContainsSlice(s, n, |s|, w);
      }
    }
  }

  /** `s[i..j]` is a maximal non-empty run of `keep` characters. */
  predicate MaximalRun(s: string, keep: char -> bool, i: int, j: int)
  {
    && 0 <= i < j <= |s|
    && (forall k :: i <= k < j ==> keep(s[k]))
    && (i == 0 || !keep(s[i - 1]))
    && (j == |s| || !keep(s[j]))
  }

  /** Every maximal run of `keep` characters is one of the runs. */
  lemma RunsComplete(s: string, keep: char -> bool)
    ensures forall i, j :: MaximalRun(s, keep, i, j) ==> s[i..j] in Runs(s, keep)
  {
    forall i, j | MaximalRun(s, keep, i, j) ensures s[i..j] in Runs(s, keep) {
      RunFound(s, keep, i, j);
    }
  }

  lemma {:induction false} RunFound(s: string, keep: char -> bool, i: int, j: int)
    requires MaximalRun(s, keep, i, j)
    ensures s[i..j] in Runs(s, keep)
    decreases |s|
  {
    if !keep(s[0]) {
      MaximalRunShift(s, keep, i, j, 1);
      RunFound(s[1..], keep, i - 1, j - 1);
      assert Runs(s, keep) == Runs(s[1..], keep);
    } else {
      var n := RunLen(s, keep);
      if i == 0 {
        RunLenAtLeast(s, keep, j);
        assert s[..n] == s[i..j];
      } else {
        assert n <= i - 1;
        MaximalRunShift(s, keep, i, j, n);
        RunFound(s[n..], keep, i - n, j - n);
      }
      assert Runs(s, keep) == [s[..n]] + Runs(s[n..], keep);
    }
  }

  /** A maximal run stays maximal, at shifted positions, once a prefix before it is dropped. */
  lemma MaximalRunShift(s: string, keep: char -> bool, i: int, j: int, n: int)
    requires MaximalRun(s, keep, i, j) && 0 <= n <= i
    ensures MaximalRun(s[n..], keep, i - n, j - n) && s[n..][i - n..j - n] == s[i..j]
  {
    var t := s[n..];
    assert forall k :: i - n <= k < j - n ==> t[k] == s[k + n];
    if i - n > 0 {
      assert t[i - n - 1] == s[i - 1];
    }
  }

  /** Every run is a maximal run of `keep` characters. */
  lemma RunsSound(s: string, keep: char -> bool)
    ensures forall w :: w in Runs(s, keep) ==>
      exists i, j :: MaximalRun(s, keep, i, j) && w == s[i..j]
  {
    forall w | w in Runs(s, keep) ensures exists i, j :: MaximalRun(s, keep, i, j) && w == s[i..j] {
      var i, j := RunPosition(s, keep, w);
    }
  }

  lemma {:induction false} RunPosition(s: string, keep: char -> bool, w: string) returns (i: int, j: int)
    requires w in Runs(s, keep)
    ensures MaximalRun(s, keep, i, j) && w == s[i..j]
    decreases |s|, 2
  {
    if !keep(s[0]) {
      assert w in Runs(s[1..], keep) by {
        assert Runs(s, keep) == Runs(s[1..], keep);
      }
      var i', j' := RunPosition(s[1..], keep, w);
      MaximalRunUnshift(s, keep, i', j', 1);
      i, j := i' + 1, j' + 1;
    } else {
      i, j := RunPositionTake(s, keep, w);
    }
  }

  lemma {:induction false} RunPositionTake(s: string, keep: char -> bool, w: string) returns (i: int, j: int)
    requires w in Runs(s, keep) && keep(s[0])
    ensures MaximalRun(s, keep, i, j) && w == s[i..j]
    decreases |s|, 1
  {
    var n := RunLen(s, keep);
    RunLenAtLeast(s, keep, 1);
    assert w == s[..n] || w in Runs(s[n..], keep) by {
      assert Runs(s, keep) == [s[..n]] + Runs(s[n..], keep);
    }
    if w == s[..n] {
      assert s[0..n] == s[..n];
      i, j := 0, n;
    } else {
      i, j := RunPositionAfter(s, keep, w, n);
    }
  }

  /** A run found after the first run of `s`, which ends at `n`. */
  lemma {:induction false} RunPositionAfter(s: string, keep: char -> bool, w: string, n: int) returns (i: int, j: int)
    requires 1 <= n <= |s| && (n < |s| ==> !keep(s[n])) && w in Runs(s[n..], keep)
    ensures MaximalRun(s, keep, i, j) && w == s[i..j]
    decreases |s|, 0
  {
    var i', j' := RunPosition(s[n..], keep, w);
    assert i' > 0 by {
      assert keep(s[n..][i']);
      assert s[n..][0] == s[n];
    }
    MaximalRunUnshift(s, keep, i', j', n);
    i, j := i' + n, j' + n;
  }

  /** A maximal run of `s[n..]` that does not start right after a kept character is a maximal
      run of `s`. */
  lemma MaximalRunUnshift(s: string, keep: char -> bool, i: int, j: int, n: int)
    requires 0 <= n <= |s| && MaximalRun(s[n..], keep, i, j)
    requires i == 0 && n > 0 ==> !keep(s[n - 1])
    ensures MaximalRun(s, keep, i + n, j + n) && s[i + n..j + n] == s[n..][i..j]
  {
    var t := s[n..];
    assert forall k :: i <= k < j ==> t[k] == s[k + n];
    if i > 0 {
      assert t[i - 1] == s[i + n - 1];
    }
    if j < |t| {
      assert t[j] == s[j + n];
    }
  }

  /** The runs of `[c] + s` from the runs of `s` and whether `s` opens with a kept character. */
  lemma RunsCons(c: char, s: string, keep: char -> bool)
    ensures !keep(c) ==> Runs([c] + s, keep) == Runs(s, keep)
    ensures keep(c) && (s == [] || !keep(s[0])) ==> Runs([c] + s, keep) == [[c]] + Runs(s, keep)
    ensures keep(c) && s != [] && keep(s[0]) ==>
      Runs(s, keep) != [] && Runs([c] + s, keep) == [[c] + Runs(s, keep)[0]] + Runs(s, keep)[1..]
  {
    var t := [c] + s;
    assert t[1..] == s;
    if keep(c) {
      var n := RunLen(s, keep);
      assert RunLen(t, keep) == 1 + n;
      assert t[..1 + n] == [c] + s[..n];
      assert t[1 + n..] == s[n..];
      if n == 0 {
        assert s[0..] == s;
      }
    }
  }

  /** Characters that are not kept in front of `x` add no run. */
  lemma {:induction false} RunsSkipPrefix(y: string, x: string, keep: char -> bool)
    requires forall k :: 0 <= k < |y| ==> !keep(y[k])
    ensures Runs(y + x, keep) == Runs(x, keep)
    decreases |y|
  {
    if y != [] {
      assert !keep(y[0]);
      RunsSkipPrefix(y[1..], x, keep);
      RunsCons(y[0], y[1..] + x, keep);
      assert y + x == [y[0]] + (y[1..] + x);
      assert Runs([y[0]] + (y[1..] + x), keep) == Runs(y[1..] + x, keep);
    } else {
      assert y + x == x;
    }
  }

  /** Characters that are not kept after `x` add no run. */
  lemma {:induction false} RunsSkipSuffix(x: string, y: string, keep: char -> bool)
    requires forall k :: 0 <= k < |y| ==> !keep(y[k])
    ensures Runs(x + y, keep) == Runs(x, keep)
    decreases |x|
  {
    if x == [] {
      RunsSkipPrefix(y, [], keep);
      assert y + [] == y && x + y == y;
    } else {
      var c, x' := x[0], x[1..];
      RunsSkipSuffix(x', y, keep);
      assert x + y == [c] + (x' + y) && x == [c] + x';
      RunsCons(c, x' + y, keep);
      RunsCons(c, x', keep);
      if x' == [] {
        assert x' + y == y;
      } else {
        assert (x' + y)[0] == x'[0];
      }
    }
  }

  /** Characters that are not kept before `s[a..b]` and after it add no run. */
  lemma RunsSkipAround(s: string, a: int, b: int, keep: char -> bool)
    requires 0 <= a <= b <= |s|
    requires forall k :: 0 <= k < a ==> !keep(s[k])
    requires forall k :: b <= k < |s| ==> !keep(s[k])
    ensures Runs(s[a..b], keep) == Runs(s, keep)
  {
    RunsDropPrefix(s, a, keep);
    var t := s[a..];
    assert forall k :: b - a <= k < |t| ==> t[k] == s[k + a];
    RunsDropSuffix(t, b - a, keep);
    assert t[..b - a] == s[a..b];
  }

  lemma RunsDropPrefix(s: string, a: int, keep: char -> bool)
    requires 0 <= a <= |s|
    requires forall k :: 0 <= k < a ==> !keep(s[k])
    ensures Runs(s[a..], keep) == Runs(s, keep)
  {
    assert s[..a] + s[a..] == s;
    RunsSkipPrefix(s[..a], s[a..], keep);
  }

  lemma RunsDropSuffix(s: string, b: int, keep: char -> bool)
    requires 0 <= b <= |s|
    requires forall k :: b <= k < |s| ==> !keep(s[k])
    ensures Runs(s[..b], keep) == Runs(s, keep)
  {
    assert s[..b] + s[b..] == s;
    assert forall k :: 0 <= k < |s| - b ==> s[b..][k] == s[b + k];
    RunsSkipSuffix(s[..b], s[b..], keep);
  }

  /** `s.strip()` keeps every run of non-whitespace. */
  lemma RunsStrip(s: string)
    ensures Runs(Strip(s), NotSpace) == Runs(s, NotSpace)
  {
    var a := SpacesEnd(s, 0);
    RunsSkipAround(s, a, TrimmedEnd(s, a, |s|), NotSpace);
  }

  /** `[w.lower() for w in ws]`. */
  function LowerAll(ws: seq<string>): (r: seq<string>)
    ensures |r| == |ws| && forall i :: 0 <= i < |ws| ==> r[i] == Lower(ws[i])
  {
    seq(|ws|, i requires 0 <= i < |ws| => Lower(ws[i]))
  }

  /** Lower-casing keeps the whitespace where it was, so `s.lower().split()` is the list of
      `s.split()` words, each lower-cased. */
  lemma {:induction false} RunsLower(s: string)
    ensures Runs(Lower(s), NotSpace) == LowerAll(Runs(s, NotSpace))
    decreases |s|
  {
    if s != [] {
      RunsLower(s[1..]);
      RunsLowerCons(s[0], s[1..]);
      assert s == [s[0]] + s[1..];
    }
  }

  lemma RunsLowerCons(c: char, s: string)
    requires Runs(Lower(s), NotSpace) == LowerAll(Runs(s, NotSpace))
    ensures Runs(Lower([c] + s), NotSpace) == LowerAll(Runs([c] + s, NotSpace))
  {
    LowerCons(c, s);
    RunsCons(c, s, NotSpace);
    RunsCons(LowerChar(c), Lower(s), NotSpace);
    var q := Runs(s, NotSpace);
    if NotSpace(c) && s != [] && NotSpace(s[0]) {
      LowerCons(c, q[0]);
      LowerAllCons([c] + q[0], q[1..]);
      assert LowerAll(q)[1..] == LowerAll(q[1..]);
    } else if NotSpace(c) {
      if s != [] {
        assert Lower(s)[0] == LowerChar(s[0]);
      }
      assert Lower([c]) == [LowerChar(c)];
      LowerAllCons([c], q);
    }
  }

  lemma LowerCons(c: char, s: string)
    ensures Lower([c] + s) == [LowerChar(c)] + Lower(s)
  {
  }

  lemma LowerAllCons(w: string, ws: seq<string>)
    ensures LowerAll([w] + ws) == [Lower(w)] + LowerAll(ws)
  {
  }

  function SplitWhitespace(s: string): seq<string> { Runs(s, NotSpace) }

  /** `sep.join(ws)`. */
  function Join(ws: seq<string>, sep: string): string
  {
    if ws == [] then [] else if |ws| == 1 then ws[0] else ws[0] + sep + Join(ws[1..], sep)
  }

  lemma JoinStartsWithFirst(ws: seq<string>, sep: string)
    requires ws != []
    ensures ws[0] <= Join(ws, sep)
  {
  }

  /** The end of the run of whitespace that starts at `i`. */
  function SpacesEnd(s: string, i: nat): (j: nat)
    requires i <= |s|
    ensures i <= j <= |s|
    ensures forall k :: i <= k < j ==> IsSpace(s[k])
    ensures j < |s| ==> !IsSpace(s[j])
    decreases |s| - i
  {
    if i < |s| && IsSpace(s[i]) then SpacesEnd(s, i + 1) else i
  }

  /** Where `s[..j]` ends once its trailing whitespace, down to position `lo`, is dropped. */
  function TrimmedEnd(s: string, lo: nat, j: nat): (e: nat)
    requires lo <= j <= |s|
    ensures lo <= e <= j
    ensures forall k :: e <= k < j ==> IsSpace(s[k])
    ensures e > lo ==> !IsSpace(s[e - 1])
    decreases j
  {
    if j > lo && IsSpace(s[j - 1]) then TrimmedEnd(s, lo, j - 1) else j
  }

  /** `s.strip()`: the slice of `s` between its leading and its trailing whitespace. */
  function Strip(s: string): (r: string)
    ensures |r| <= |s|
    ensures r != [] ==> !IsSpace(r[0]) && !IsSpace(r[|r| - 1])
    ensures exists a, b :: (0 <= a <= b <= |s| && r == s[a..b]
      && (forall k :: 0 <= k < a ==> IsSpace(s[k])) && (forall k :: b <= k < |s| ==> IsSpace(s[k])))
  {
    var a := SpacesEnd(s, 0);
    s[a..TrimmedEnd(s, a, |s|)]
  }

  lemma StripFixpoint(s: string)
    requires s != [] ==> !IsSpace(s[0]) && !IsSpace(s[|s| - 1])
    ensures Strip(s) == s
  {
    assert SpacesEnd(s, 0) == 0;
    assert TrimmedEnd(s, 0, |s|) == |s|;
    assert s[0..|s|] == s;
  }

  lemma PrefixWhole<T>(s: seq<T>)
    ensures s[..|s|] == s
  {
  }

  predicate NoDup<T(==)>(s: seq<T>) { forall i, j :: 0 <= i < j < |s| ==> s[i] != s[j] }

  function Elems<T>(s: seq<T>): set<T> { set x | x in s }

  lemma ElemsConcat<T>(a: seq<T>, b: seq<T>)
    ensures Elems(a + b) == Elems(a) + Elems(b)
  {
  }

  /** `list(set(s))`: the same elements once each. Python leaves the order to the hash; this
      keeps first occurrences, and callers are only promised the element set. */
  function Dedupe(s: seq<string>): (r: seq<string>)
    ensures NoDup(r)
    ensures forall x :: x in r <==> x in s
  {
    if s == [] then []
    else
      var d := Dedupe(s[..|s| - 1]);
      assert forall x :: x in s <==> x in s[..|s| - 1] || x == s[|s| - 1];
      if s[|s| - 1] in d then d else d + [s[|s| - 1]]
  }

  /** A duplicate-free sequence has as many elements as its element set. */
  lemma {:induction false} NoDupCard<T>(s: seq<T>)
    requires NoDup(s)
    ensures |Elems(s)| == |s|
  {
    if s != [] {
      var init := s[..|s| - 1];
      NoDupCard(init);
      assert Elems(s) == Elems(init) + {s[|s| - 1]};
      assert s[|s| - 1] !in Elems(init);
    }
  }

  /** `[t for t in terms if t in hay]`, in order. */
  function Present(terms: seq<string>, hay: string): (r: seq<string>)
    ensures forall x :: x in r <==> x in terms && Contains(hay, x)
    ensures |r| <= |terms|
  {
    if terms == [] then []
    else
      var last := terms[|terms| - 1];
      assert forall x :: x in terms <==> x in terms[..|terms| - 1] || x == last;
      Present(terms[..|terms| - 1], hay) + (if Contains(hay, last) then [last] else [])
  }

  /** The loop `for t in terms: if t in hay: out.append(t)`. */
  method FilterPresent(terms: seq<string>, hay: string) returns (found: seq<string>)
    ensures found == Present(terms, hay)
  {
    found := [];
    for k := 0 to |terms|
      invariant found == Present(terms[..k], hay)
    {
      assert terms[..k + 1][..k] == terms[..k];
      if Contains(hay, terms[k]) {
        found := found + [terms[k]];
      }
    }
    PrefixWhole(terms);
  }

  function Min(a: int, b: int): int { if a <= b then a else b }

  function Max(a: int, b: int): int { if a >= b then a else b }

  function MinReal(a: real, b: real): real { if a <= b then a else b }

  function MaxReal(a: real, b: real): real { if a >= b then a else b }
}
