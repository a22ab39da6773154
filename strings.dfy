/**
 * The handful of Python `str` operations the tab manager and the schedule
 * dialog rely on: `sub in s`, `s.split(sub)[0]`, `s.split(c)`, `s.strip()`
 * and `s.lower()`.
 */
module Strings {
  import opened Wrappers

  /** The characters for which Python's str.isspace() holds; str.strip() removes these. */
  predicate IsSpace(c: char) {
    || ('\t' <= c <= '\r')
    || ('\U{1C}' <= c <= ' ')
    || c == '\U{85}' || c == '\U{A0}' || c == '\U{1680}'
    || ('\U{2000}' <= c <= '\U{200A}')
    || c == '\U{2028}' || c == '\U{2029}' || c == '\U{202F}' || c == '\U{205F}' || c == '\U{3000}'
  }

  /** Removes leading whitespace. */
  function TrimLeft(s: string): (r: string)
    ensures |r| <= |s|
    ensures r == s[|s| - |r|..]
    ensures forall i :: 0 <= i < |s| - |r| ==> IsSpace(s[i])
    ensures r == [] || !IsSpace(r[0])
  {
    if |s| > 0 && IsSpace(s[0]) then TrimLeft(s[1..]) else s
  }

  /** Removes trailing whitespace. */
  function TrimRight(s: string): (r: string)
    ensures |r| <= |s|
    ensures r == s[..|r|]
    ensures forall i :: |r| <= i < |s| ==> IsSpace(s[i])
    ensures r == [] || !IsSpace(r[|r| - 1])
  {
    if |s| > 0 && IsSpace(s[|s| - 1]) then TrimRight(s[..|s| - 1]) else s
  }

  /** Python's `s.strip()`. */
  function Strip(s: string): (r: string)
    ensures |r| <= |s|
    ensures r == [] || (!IsSpace(r[0]) && !IsSpace(r[|r| - 1]))
    ensures (s == [] || (!IsSpace(s[0]) && !IsSpace(s[|s| - 1]))) ==> r == s
  {
    TrimRight(TrimLeft(s))
  }

  /** `sub` occurs in `s` starting at index `i`. */
  predicate OccursAt(s: string, sub: string, i: nat) {
    i + |sub| <= |s| && s[i..i + |sub|] == sub
  }

  /** The first index at or after `from` where `sub` occurs in `s`. */
  function FindFrom(s: string, sub: string, from: nat): (r: Option<nat>)
    ensures r.Some? ==> from <= r.value && OccursAt(s, sub, r.value)
    ensures r.Some? ==> forall j :: from <= j < r.value ==> !OccursAt(s, sub, j)
    ensures r.None? ==> forall j :: from <= j ==> !OccursAt(s, sub, j)
    decreases |s| - from
  {
    if from + |sub| > |s| then None
    else if OccursAt(s, sub, from) then Some(from)
    else FindFrom(s, sub, from + 1)
  }

  /** The first index where `sub` occurs in `s` (Python's `s.find(sub)`, with None for -1). */
  function Find(s: string, sub: string): Option<nat> {
    FindFrom(s, sub, 0)
  }

  /** Python's `sub in s`. */
  predicate Contains(s: string, sub: string) {
    Find(s, sub).Some?
  }

  /** A one-character string occurs in `s` exactly when its character does. */
  lemma {:induction false} ContainsChar(s: string, c: char)
    ensures Contains(s, [c]) <==> c in s
  {
    match Find(s, [c])
    case Some(i) =>
      assert s[i..i + 1][0] == s[i];
    case None =>
      forall j | 0 <= j < |s| ensures s[j] != c {
        assert !OccursAt(s, [c], j);
        assert s[j..j + 1] == [s[j]];
      }
  }

  /** Python's `s.split(sub)[0]`: the text before the first occurrence of `sub`, or all of `s`. */
  function BeforeFirst(s: string, sub: string): (r: string)
    ensures Contains(s, sub) ==> r == s[..Find(s, sub).value]
    ensures !Contains(s, sub) ==> r == s
  {
    match Find(s, sub)
    case Some(i) => s[..i]
    case None => s
  }

  /** An occurrence of `outer` carries an occurrence of each of its own infixes. */
  lemma {:induction false} OccursWithin(s: string, outer: string, inner: string, i: nat, k: nat)
    requires OccursAt(s, outer, i)
    requires OccursAt(outer, inner, k)
    ensures OccursAt(s, inner, i + k)
  {
    forall j | 0 <= j < |inner|
      ensures s[i + k + j] == inner[j]
    {
      assert outer[k + j] == inner[j];
      assert s[i..i + |outer|][k + j] == outer[k + j];
    }
  }

  /** `s` contains `outer`, so it contains every infix of `outer` too. */
  lemma {:induction false} ContainsWithin(s: string, outer: string, inner: string, k: nat)
    requires Contains(s, outer)
    requires OccursAt(outer, inner, k)
    ensures Contains(s, inner)
  {
    var i := Find(s, outer).value;
    OccursWithin(s, outer, inner, i, k);
  }

  /** Python's `c.join(parts)`. */
  function Join(parts: seq<string>, c: char): string {
    if |parts| == 0 then ""
    else if |parts| == 1 then parts[0]
    else parts[0] + [c] + Join(parts[1..], c)
  }

  /**
   * Python's `s.split(c)` for a one-character separator: the pieces between
   * the occurrences of `c`, so there is always one more piece than there are
   * separators, no piece holds `c`, and joining the pieces gives `s` back.
   */
  function Split(s: string, c: char): (parts: seq<string>)
    ensures |parts| >= 1
    ensures forall k :: 0 <= k < |parts| ==> c !in parts[k]
    ensures Join(parts, c) == s
  {
    if |s| == 0 then [""]
    else
      var rest := Split(s[1..], c);
      if s[0] == c then
        assert ([""] + rest)[1..] == rest;
        [""] + rest
      else
        var parts := [[s[0]] + rest[0]] + rest[1..];
        assert parts[1..] == rest[1..];
        parts
  }

  /** A string splits into more than one piece exactly when it holds the separator. */
  lemma {:induction false} SplitMany(s: string, c: char)
    ensures c in s <==> |Split(s, c)| >= 2
  {
    if |s| > 0 {
      SplitMany(s[1..], c);
      assert c in s <==> s[0] == c || c in s[1..];
    }
  }

  /** A string without the separator is its own single piece. */
  lemma {:induction false} SplitNone(s: string, c: char)
    requires c !in s
    ensures Split(s, c) == [s]
  {
    SplitMany(s, c);
    var parts := Split(s, c);
    assert Join(parts, c) == parts[0];
  }

  /** Splitting `a + [c] + b`, where `a` has no separator, gives `a` and then the pieces of `b`. */
  lemma {:induction false} SplitAfter(a: string, c: char, b: string)
    requires c !in a
    ensures Split(a + [c] + b, c) == [a] + Split(b, c)
  {
    if |a| == 0 {
      assert a + [c] + b == [c] + b;
      assert ([c] + b)[1..] == b;
    } else {
      SplitAfter(a[1..], c, b);
      assert (a + [c] + b)[1..] == a[1..] + [c] + b;
      assert (a + [c] + b)[0] == a[0] != c;
      assert [a[0]] + a[1..] == a;
    }
  }

  /** Splitting the join of separator-free pieces gives the pieces back. */
  lemma {:induction false} SplitJoin(parts: seq<string>, c: char)
    requires |parts| >= 1
    requires forall k :: 0 <= k < |parts| ==> c !in parts[k]
    ensures Split(Join(parts, c), c) == parts
  {
    if |parts| == 1 {
      SplitNone(parts[0], c);
    } else {
      SplitJoin(parts[1..], c);
      SplitAfter(parts[0], c, Join(parts[1..], c));
      assert parts == [parts[0]] + parts[1..];
    }
  }

  /** The join ends with the last piece. */
  lemma {:induction false} JoinEnds(parts: seq<string>, c: char)
    requires |parts| >= 1
    ensures |Join(parts, c)| >= |parts[|parts| - 1]|
    ensures Join(parts, c)[|Join(parts, c)| - |parts[|parts| - 1]|..] == parts[|parts| - 1]
    ensures |parts[0]| > 0 ==> Join(parts, c)[0] == parts[0][0]
  {
    if |parts| > 1 {
      JoinEnds(parts[1..], c);
      var rest := Join(parts[1..], c);
      assert Join(parts, c) == (parts[0] + [c]) + rest;
      assert parts[1..][|parts[1..]| - 1] == parts[|parts| - 1];
    }
  }

  /** Stripping a string with non-space ends and one trailing newline removes just the newline. */
  lemma {:induction false} StripNewline(s: string)
    requires |s| > 0 && !IsSpace(s[0]) && !IsSpace(s[|s| - 1])
    ensures Strip(s + "\n") == s
  {
    var t := s + "\n";
    assert TrimLeft(t) == t;
    assert t[..|t| - 1] == s;
    assert TrimRight(t) == TrimRight(s);
  }

  /**
   * Lines without newlines, joined with newlines, given one trailing newline,
   * then stripped and split at newlines, come back unchanged when the text
   * starts and ends with a non-space character.
   */
  lemma {:induction false} SplitStrippedLines(lines: seq<string>)
    requires |lines| > 0
    requires forall k :: 0 <= k < |lines| ==> '\n' !in lines[k]
    requires |lines[0]| > 0 && !IsSpace(lines[0][0])
    requires |lines[|lines| - 1]| > 0 && !IsSpace(lines[|lines| - 1][|lines[|lines| - 1]| - 1])
    ensures Split(Strip(Join(lines, '\n') + "\n"), '\n') == lines
  {
    JoinEnds(lines, '\n');
    var joined := Join(lines, '\n');
    var last := lines[|lines| - 1];
    assert joined[|joined| - 1] == last[|last| - 1] by {
      assert joined[|joined| - |last|..][|last| - 1] == last[|last| - 1];
    }
    StripNewline(joined);
    SplitJoin(lines, '\n');
  }

  /** The first piece starts with the first character of `s` unless that is the separator. */
  lemma {:induction false} SplitHead(s: string, c: char)
    requires |s| > 0 && s[0] != c
    ensures |Split(s, c)[0]| > 0 && Split(s, c)[0][0] == s[0]
  {
  }

  /** Python's `c.lower()` on ASCII letters. */
  function LowerChar(c: char): (r: char)
    ensures 'A' <= c <= 'Z' ==> r as int == c as int + 32
    ensures !('A' <= c <= 'Z') ==> r == c
  {
    if 'A' <= c <= 'Z' then (c as int + 32) as char else c
  }

  /** Python's `s.lower()`, restricted to ASCII letters. */
  function Lower(s: string): (r: string)
    ensures |r| == |s|
    ensures forall i :: 0 <= i < |s| ==> r[i] == LowerChar(s[i])
  {
    seq(|s|, i requires 0 <= i < |s| => LowerChar(s[i]))
  }

  /** Lower-casing twice is lower-casing once. */
  lemma {:induction false} LowerIdempotent(s: string)
    ensures Lower(Lower(s)) == Lower(s)
  {
  }
}
