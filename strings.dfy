/**
 * The parts of Python's `str` that the ledger and the importer rely on:
 * `lower()` (on ASCII letters), the substring test `w in s`, and the
 * code-point order that `sorted()` applies to a list of names.
 */
module Strings {

  predicate IsUpper(c: char) {
    'A' <= c <= 'Z'
  }

  function LowerChar(c: char): (r: char)
    ensures !IsUpper(r)
    ensures !IsUpper(c) ==> r == c
    ensures IsUpper(c) ==> 'a' <= r <= 'z' && r as int - c as int == 32
  {
    if IsUpper(c) then (c as int + 32) as char else c
  }

  /** `s.lower()`, restricted to the ASCII letters. */
  function Lower(s: string): (r: string)
    ensures |r| == |s|
    ensures forall i :: 0 <= i < |s| ==> r[i] == LowerChar(s[i])
    ensures forall i :: 0 <= i < |r| ==> !IsUpper(r[i])
  {
    if s == [] then [] else [LowerChar(s[0])] + Lower(s[1..])
  }

  /** `w` occurs in `s` starting at index `i`. */
  predicate OccursAt(w: string, s: string, i: int) {
    0 <= i && i + |w| <= |s| && s[i..i + |w|] == w
  }

  /** Python's `w in s` on strings: tries every start position from the left. */
  function Contains(s: string, w: string): (b: bool)
    ensures b <==> exists i :: OccursAt(w, s, i)
    decreases |s|
  {
    if w <= s then
      assert OccursAt(w, s, 0);
      true
    else if s == [] then
      false
    else
      ContainsShift(s, w);
      Contains(s[1..], w)
  }

  /** Without a match at 0, the occurrences in `s` are those in `s[1..]`, shifted by one. */
  lemma ContainsShift(s: string, w: string)
    requires s != [] && !(w <= s)
    ensures (exists i :: OccursAt(w, s, i)) <==> (exists i :: OccursAt(w, s[1..], i))
  {
    if |w| <= |s| {
      assert s[0..|w|] == s[..|w|];
    }
    if i :| OccursAt(w, s, i) {
      assert s[1..][i - 1..i - 1 + |w|] == s[i..i + |w|];
      assert OccursAt(w, s[1..], i - 1);
    }
    if i :| OccursAt(w, s[1..], i) {
      assert s[1..][i..i + |w|] == s[i + 1..i + 1 + |w|];
      assert OccursAt(w, s, i + 1);
    }
  }

  /** Python's `a <= b` on strings: lexicographic by code point, a prefix first. */
  predicate LexLe(a: string, b: string)
    decreases |a|
  {
    a == [] || (b != [] && (a[0] < b[0] || (a[0] == b[0] && LexLe(a[1..], b[1..]))))
  }

  lemma {:induction false} LexLeTotal(a: string, b: string)
    ensures LexLe(a, b) || LexLe(b, a)
    decreases |a|
  {
    if a != [] && b != [] && a[0] == b[0] {
      LexLeTotal(a[1..], b[1..]);
    }
  }

  lemma {:induction false} LexLeTransitive(a: string, b: string, c: string)
    requires LexLe(a, b) && LexLe(b, c)
    ensures LexLe(a, c)
    decreases |a|
  {
    if a != [] && b != [] && c != [] && a[0] == b[0] == c[0] {
      LexLeTransitive(a[1..], b[1..], c[1..]);
    }
  }

  predicate Sorted(s: seq<string>) {
    forall i, j :: 0 <= i < j < |s| ==> LexLe(s[i], s[j])
  }

  predicate Distinct(s: seq<string>) {
    forall i, j :: 0 <= i < j < |s| ==> s[i] != s[j]
  }

  function Insert(x: string, s: seq<string>): seq<string> {
    if s == [] || LexLe(x, s[0]) then [x] + s else [s[0]] + Insert(x, s[1..])
  }

  /** Python's `sorted()` on a list of strings (insertion sort, which is stable). */
  function SortStrings(s: seq<string>): seq<string> {
    if s == [] then [] else Insert(s[0], SortStrings(s[1..]))
  }

  lemma {:induction false} InsertSorted(x: string, s: seq<string>)
    requires Sorted(s)
    ensures Sorted(Insert(x, s))
    ensures multiset(Insert(x, s)) == multiset(s) + multiset{x}
  {
    if s == [] {
    } else if LexLe(x, s[0]) {
      forall j | 0 <= j < |s| ensures LexLe(x, s[j]) {
        if j > 0 { LexLeTransitive(x, s[0], s[j]); }
      }
    } else {
      LexLeTotal(x, s[0]);
      InsertSorted(x, s[1..]);
      var r := Insert(x, s[1..]);
      forall y | y in r ensures LexLe(s[0], y) {
        assert y in multiset(r);
        if y != x {
          assert y in s[1..];
        }
      }
      assert s == [s[0]] + s[1..];
    }
  }

  /** `sorted()` returns the same names, in non-decreasing order. */
  lemma {:induction false} SortStringsSorted(s: seq<string>)
    ensures Sorted(SortStrings(s))
    ensures multiset(SortStrings(s)) == multiset(s)
  {
    if s != [] {
      SortStringsSorted(s[1..]);
      InsertSorted(s[0], SortStrings(s[1..]));
      assert s == [s[0]] + s[1..];
    }
  }

  lemma {:induction false} InsertDistinct(x: string, s: seq<string>)
    requires Distinct(s) && x !in s
    ensures Distinct(Insert(x, s))
    ensures forall y :: y in Insert(x, s) <==> y == x || y in s
  {
    if s != [] && !LexLe(x, s[0]) {
      InsertDistinct(x, s[1..]);
      assert s[0] !in s[1..] by {
        forall j | 0 <= j < |s[1..]| ensures s[1..][j] != s[0] {
          assert s[1..][j] == s[j + 1];
        }
      }
    }
  }

  /** Sorting a list without repetitions yields a list without repetitions. */
  lemma {:induction false} SortStringsDistinct(s: seq<string>)
    requires Distinct(s)
    ensures Distinct(SortStrings(s))
    ensures forall y :: y in SortStrings(s) <==> y in s
  {
    if s != [] {
      SortStringsDistinct(s[1..]);
      InsertDistinct(s[0], SortStrings(s[1..]));
    }
  }
}
