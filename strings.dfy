/**
 * String helpers with the semantics of the Java and Kotlin library calls the
 * core relies on: `startsWith`, `contains(…, ignoreCase = true)`, `replace`,
 * `split` and joining with a separator. Case folding is ASCII only.
 */
module Strings {

  /** ASCII lower-casing of one character; every other character is kept. */
  function LowerChar(c: char): (r: char)
    ensures 'A' <= c <= 'Z' ==> r as int == c as int + 32
    ensures !('A' <= c <= 'Z') ==> r == c
    ensures !('A' <= r <= 'Z')
  {
    if 'A' <= c <= 'Z' then (c as int + 32) as char else c
  }

  /** `toLowerCase()` restricted to ASCII letters. */
  function Lower(s: string): (r: string)
    ensures |r| == |s|
    ensures forall i :: 0 <= i < |r| ==> !('A' <= r[i] <= 'Z')
    ensures forall i :: 0 <= i < |s| && !('A' <= s[i] <= 'Z') ==> r[i] == s[i]
  {
    seq(|s|, i requires 0 <= i < |s| => LowerChar(s[i]))
  }

  /** Lower-casing twice is lower-casing once. */
  lemma LowerIdempotent(s: string)
    ensures Lower(Lower(s)) == Lower(s)
  {
    var once := Lower(s);
    forall i | 0 <= i < |once|
      ensures Lower(once)[i] == once[i]
    {
      assert !('A' <= once[i] <= 'Z');
    }
  }

  /** `s.contains(sub)`: `sub` occurs in `s` at some position. */
  predicate Contains(s: string, sub: string)
    decreases |s|
  {
    sub <= s || (|s| > 0 && Contains(s[1..], sub))
  }

  /** `s.contains(sub, ignoreCase = true)`, folding ASCII letters only. */
  predicate ContainsIgnoreCase(s: string, sub: string) {
    Contains(Lower(s), Lower(sub))
  }

  /** Every string contains the empty string, so an empty search matches everything. */
  lemma {:induction false} ContainsEmpty(s: string)
    ensures Contains(s, "")
  {
  }

  /** `s.replace(target, replacement)`: every non-overlapping occurrence, scanned left to right. */
  function ReplaceAll(s: string, target: string, replacement: string): string
    requires |target| > 0
    decreases |s|
  {
    if target <= s then replacement + ReplaceAll(s[|target|..], target, replacement)
    else if |s| == 0 then ""
    else [s[0]] + ReplaceAll(s[1..], target, replacement)
  }

  /** A string without any occurrence of `target` is left unchanged by `ReplaceAll`. */
  lemma {:induction false} ReplaceAllAbsent(s: string, target: string, replacement: string)
    requires |target| > 0
    requires !Contains(s, target)
    ensures ReplaceAll(s, target, replacement) == s
    decreases |s|
  {
    if |s| > 0 {
      ReplaceAllAbsent(s[1..], target, replacement);
      assert [s[0]] + s[1..] == s;
    }
  }

  /** The number of occurrences of `c` in `s`. */
  function Count(s: string, c: char): (n: nat)
    ensures n <= |s|
  {
    if |s| == 0 then 0 else (if s[0] == c then 1 else 0) + Count(s[1..], c)
  }

  /** All fields of `s` between occurrences of `sep`: Java's `split` with a negative limit. */
  function SplitAll(s: string, sep: char): (r: seq<string>)
    ensures |r| >= 1
  {
    if |s| == 0 then [""]
    else
      var rest := SplitAll(s[1..], sep);
      if s[0] == sep then [""] + rest else [[s[0]] + rest[0]] + rest[1..]
  }

  /** `String.join(sep, fields)`: the fields with `sep` between neighbours and nowhere else. */
  function Join(fields: seq<string>, sep: string): string {
    if |fields| == 0 then ""
    else if |fields| == 1 then fields[0]
    else fields[0] + sep + Join(fields[1..], sep)
  }

  /** Splitting yields one field more than there are separators, none holding the separator. */
  lemma {:induction false} SplitAllShape(s: string, sep: char)
    ensures |SplitAll(s, sep)| == Count(s, sep) + 1
    ensures forall f :: f in SplitAll(s, sep) ==> sep !in f
  {
    if |s| > 0 {
      SplitAllShape(s[1..], sep);
    }
  }

  /** `SplitAll` inverts `Join` for fields that do not hold the separator. */
  lemma {:induction false} SplitJoin(fields: seq<string>, sep: char)
    requires |fields| >= 1
    requires forall f :: f in fields ==> sep !in f
    ensures SplitAll(Join(fields, [sep]), sep) == fields
  {
    if |fields| == 1 {
      SplitFieldOnly(fields[0], sep, "");
      assert fields[0] + "" == fields[0];
    } else {
      var rest := Join(fields[1..], [sep]);
      SplitJoin(fields[1..], sep);
      SplitLeadingSep(rest, sep);
      SplitFieldOnly(fields[0], sep, [sep] + rest);
      assert Join(fields, [sep]) == fields[0] + ([sep] + rest);
      assert SplitAll([sep] + rest, sep)[0] == "";
      assert SplitAll([sep] + rest, sep)[1..] == fields[1..];
      assert fields[0] + "" == fields[0];
      assert [fields[0]] + fields[1..] == fields;
    }
  }

  /** Splitting a separator-free prefix followed by `tail` prepends the prefix to the first field. */
  lemma {:induction false} SplitFieldOnly(a: string, sep: char, tail: string)
    requires sep !in a
    ensures SplitAll(a + tail, sep) == [a + SplitAll(tail, sep)[0]] + SplitAll(tail, sep)[1..]
    decreases |a|
  {
    if |a| > 0 {
      SplitFieldOnly(a[1..], sep, tail);
      assert (a + tail)[1..] == a[1..] + tail;
      assert [a[0]] + (a[1..] + SplitAll(tail, sep)[0]) == a + SplitAll(tail, sep)[0];
    } else {
      var r := SplitAll(tail, sep);
      assert a + tail == tail;
      assert a + r[0] == r[0];
      assert [r[0]] + r[1..] == r;
    }
  }

  /** A leading separator starts a new, empty field. */
  lemma SplitLeadingSep(b: string, sep: char)
    ensures SplitAll([sep] + b, sep) == [""] + SplitAll(b, sep)
  {
    assert ([sep] + b)[1..] == b;
  }

  /** Removes trailing empty strings, as Java's `String.split` does with limit 0. */
  function DropTrailingEmpty(fields: seq<string>): (r: seq<string>)
    ensures |r| <= |fields| && r == fields[..|r|]
    ensures |r| > 0 ==> r[|r| - 1] != ""
    ensures forall i :: |r| <= i < |fields| ==> fields[i] == ""
  {
    if |fields| == 0 then []
    else if fields[|fields| - 1] == "" then DropTrailingEmpty(fields[..|fields| - 1])
    else fields
  }

  /**
   * Java's `s.split(Pattern.quote(sep))`: an input without a separator is its
   * own only field; otherwise the fields between separators, in order, with
   * the trailing empty ones dropped.
   */
  function JavaSplit(s: string, sep: char): (r: seq<string>)
    ensures sep !in s ==> r == [s]
    ensures sep in s ==> |r| <= |SplitAll(s, sep)| && r == SplitAll(s, sep)[..|r|]
    ensures sep in s && |r| > 0 ==> r[|r| - 1] != ""
    ensures sep in s ==> forall i :: |r| <= i < |SplitAll(s, sep)| ==> SplitAll(s, sep)[i] == ""
  {
    if sep !in s then [s] else DropTrailingEmpty(SplitAll(s, sep))
  }

  /** The index of the first `c` in `s`, or -1: Java's `indexOf`. */
  function IndexOf(s: string, c: char): (i: int)
    ensures -1 <= i < |s|
    ensures i == -1 <==> c !in s
    ensures 0 <= i ==> s[i] == c && c !in s[..i]
  {
    if |s| == 0 then -1
    else if s[0] == c then 0
    else
      var j := IndexOf(s[1..], c);
      assert s[1..][..if j < 0 then 0 else j] == s[1..if j < 0 then 1 else j + 1];
      if j < 0 then -1 else j + 1
  }
}
