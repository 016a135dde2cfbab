/** The string operations of the Go standard library that the configuration code uses. */
module Text {
  import opened Common

  /** strings.TrimPrefix */
  function TrimPrefix(s: string, prefix: string): string {
    if prefix <= s then s[|prefix|..] else s
  }

  /** strings.Cut around the first `c`. */
  function Cut(s: string, c: char): (r: Option<(string, string)>)
    ensures r.None? <==> c !in s
    ensures r.Some? ==> s == r.value.0 + [c] + r.value.1 && c !in r.value.0
  {
    if s == "" then None
    else if s[0] == c then Some(("", s[1..]))
    else
      var rest := Cut(s[1..], c);
      if rest.None? then None else Some(([s[0]] + rest.value.0, rest.value.1))
  }

  lemma {:induction false} CutFirst(before: string, c: char, after: string)
    requires c !in before
    ensures Cut(before + [c] + after, c) == Some((before, after))
  {
    if before == "" {
      assert ([c] + after)[1..] == after && before + [c] + after == [c] + after;
    } else {
      assert (before + [c] + after)[1..] == before[1..] + [c] + after;
      CutFirst(before[1..], c, after);
      assert [before[0]] + before[1..] == before;
    }
  }

  /** The parts with a separator between neighbours. */
  function Join(parts: seq<string>, sep: char): string
    requires parts != []
  {
    if |parts| == 1 then parts[0] else parts[0] + [sep] + Join(parts[1..], sep)
  }

  /** strings.Split at a single character. */
  function Split(s: string, sep: char): (parts: seq<string>)
    ensures parts != [] && Join(parts, sep) == s
    ensures forall p :: p in parts ==> sep !in p
    ensures forall p, c :: p in parts && c in p ==> c in s
    decreases |s|
  {
    var cut := Cut(s, sep);
    if cut.None? then [s]
    else
      assert s[|cut.value.0| + 1..] == cut.value.1;
      [cut.value.0] + Split(cut.value.1, sep)
  }

  lemma SplitNone(s: string, sep: char)
    requires sep !in s
    ensures Split(s, sep) == [s]
  {
  }

  /** What follows the last separator is the last part. */
  lemma {:induction false} SplitLast(before: string, sep: char, last: string)
    requires sep !in last
    ensures Split(before + [sep] + last, sep) == Split(before, sep) + [last]
    decreases |before|
  {
    var s := before + [sep] + last;
    var cut := Cut(before, sep);
    if cut.None? {
      CutFirst(before, sep, last);
    } else {
      var (head, rest) := cut.value;
      assert s == head + [sep] + (rest + [sep] + last);
      CutFirst(head, sep, rest + [sep] + last);
      SplitLast(rest, sep, last);
    }
  }

  /** The last position of `c`, or -1. */
  function LastIndex(s: string, c: char): (k: int)
    ensures -1 <= k < |s|
    ensures k >= 0 ==> s[k] == c
    ensures forall j :: k < j < |s| ==> s[j] != c
  {
    if s == "" then -1
    else if s[|s| - 1] == c then |s| - 1
    else LastIndex(s[..|s| - 1], c)
  }

  ghost predicate Contains(s: string, sub: string) {
    exists i :: 0 <= i <= |s| && sub <= s[i..]
  }

  /** strings.ReplaceAll: leftmost matches, none overlapping another. */
  function ReplaceAll(s: string, what: string, with: string): string
    requires what != ""
    decreases |s|
  {
    if s == "" then ""
    else if what <= s then with + ReplaceAll(s[|what|..], what, with)
    else [s[0]] + ReplaceAll(s[1..], what, with)
  }

  predicate IsUpper(c: char) {
    'A' <= c <= 'Z'
  }

  predicate IsLower(c: char) {
    'a' <= c <= 'z'
  }

  predicate IsAscii(s: string) {
    forall i :: 0 <= i < |s| ==> s[i] < 128 as char
  }

  function Upper(c: char): char {
    if IsLower(c) then ((c as int) - 32) as char else c
  }

  function Lower(c: char): char {
    if IsUpper(c) then ((c as int) + 32) as char else c
  }

  /** strings.ToUpper, as far as ASCII goes. */
  function ToUpper(s: string): (r: string)
    ensures |r| == |s|
  {
    seq(|s|, i requires 0 <= i < |s| => Upper(s[i]))
  }

  /** strings.ToLower, as far as ASCII goes. */
  function ToLower(s: string): (r: string)
    ensures |r| == |s|
  {
    seq(|s|, i requires 0 <= i < |s| => Lower(s[i]))
  }
}
