/**
 * Python list idioms over sequences: comprehension filters, `list.remove`,
 * and `sorted` under Python's string order.
 */
module Lists {
  import opened Wrappers

  /** `[x for x in s if p(x)]`. */
  function Filter<T>(s: seq<T>, p: T -> bool): (r: seq<T>)
    ensures |r| <= |s|
    ensures forall i :: 0 <= i < |r| ==> p(r[i]) && r[i] in s
    ensures forall i :: 0 <= i < |s| && p(s[i]) ==> s[i] in r
    ensures multiset(r) <= multiset(s)
    ensures |r| == |s| ==> r == s
  {
    if |s| == 0 then []
    else
      var init := s[..|s| - 1];
      assert s == init + [s[|s| - 1]];
      var rest := Filter(init, p);
      if p(s[|s| - 1]) then rest + [s[|s| - 1]] else rest
  }

  /** Filtering distributes over concatenation, so the kept elements stay in their order. */
  lemma {:induction false} FilterAppend<T>(a: seq<T>, b: seq<T>, p: T -> bool)
    ensures Filter(a + b, p) == Filter(a, p) + Filter(b, p)
    decreases |b|
  {
    if |b| == 0 {
      assert a + b == a;
    } else {
      var b' := b[..|b| - 1];
      assert (a + b)[..|a + b| - 1] == a + b';
      FilterAppend(a, b', p);
    }
  }

  /** Filtering one element further along a prefix. */
  lemma {:induction false} FilterPrefix<T>(s: seq<T>, i: nat, p: T -> bool)
    requires i < |s|
    ensures Filter(s[..i + 1], p) == Filter(s[..i], p) + (if p(s[i]) then [s[i]] else [])
  {
    assert s[..i + 1][..i] == s[..i];
  }

  /** Appending one element, then more, is appending the element followed by the rest. */
  lemma {:induction false} AppendOne<T>(a: seq<T>, x: T, b: seq<T>)
    ensures (a + [x]) + b == a + ([x] + b)
  {
  }

  /** A rearrangement of a sequence whose elements all satisfy `p` has only such elements. */
  lemma {:induction false} Rearranged<T>(a: seq<T>, b: seq<T>, p: T -> bool)
    requires multiset(a) == multiset(b)
    requires forall i :: 0 <= i < |b| ==> p(b[i])
    ensures forall i :: 0 <= i < |a| ==> p(a[i])
  {
    forall i | 0 <= i < |a| ensures p(a[i]) {
      assert a[i] in multiset(b);
      var j :| 0 <= j < |b| && b[j] == a[i];
    }
  }

  /** A filter that every element passes keeps the whole sequence. */
  lemma {:induction false} FilterAll<T>(s: seq<T>, p: T -> bool)
    requires forall i :: 0 <= i < |s| ==> p(s[i])
    ensures Filter(s, p) == s
  {
    if |s| > 0 {
      FilterAll(s[..|s| - 1], p);
    }
  }

  /** Two complementary filters split the sequence's elements between them. */
  lemma {:induction false} FilterSplit<T>(s: seq<T>, p: T -> bool, q: T -> bool)
    requires forall x :: q(x) == !p(x)
    ensures multiset(Filter(s, p)) + multiset(Filter(s, q)) == multiset(s)
    ensures |Filter(s, p)| + |Filter(s, q)| == |s|
  {
    if |s| > 0 {
      var init := s[..|s| - 1];
      assert s == init + [s[|s| - 1]];
      FilterSplit(init, p, q);
    }
  }

  /** A loop that appends `y` for each `x` with `f(x) == Some(y)` and skips the others. */
  function FilterMap<T, U>(s: seq<T>, f: T -> Option<U>): (r: seq<U>)
    ensures |r| <= |s|
  {
    if |s| == 0 then []
    else
      var rest := FilterMap(s[..|s| - 1], f);
      match f(s[|s| - 1])
      case Some(y) => rest + [y]
      case None => rest
  }

  /** The loop one element further along a prefix. */
  lemma {:induction false} FilterMapPrefix<T, U>(s: seq<T>, i: nat, f: T -> Option<U>)
    requires i < |s|
    ensures FilterMap(s[..i + 1], f) == FilterMap(s[..i], f) + (if f(s[i]).Some? then [f(s[i]).value] else [])
  {
    assert s[..i + 1][..i] == s[..i];
  }

  /** What the loop appends is, in order, the image of each element `f` accepts. */
  lemma {:induction false} FilterMapSpec<T, U>(s: seq<T>, f: T -> Option<U>, p: T -> bool)
    requires forall x :: p(x) == f(x).Some?
    ensures var kept := Filter(s, p);
      && |FilterMap(s, f)| == |kept|
      && forall k :: 0 <= k < |kept| ==> FilterMap(s, f)[k] == f(kept[k]).value
  {
    if |s| > 0 {
      FilterMapSpec(s[..|s| - 1], f, p);
    }
  }

  /** When every image `f` gives satisfies `q`, so does everything the loop appends. */
  lemma {:induction false} FilterMapAll<T, U>(s: seq<T>, f: T -> Option<U>, q: U -> bool)
    requires forall x :: f(x).Some? ==> q(f(x).value)
    ensures forall k :: 0 <= k < |FilterMap(s, f)| ==> q(FilterMap(s, f)[k])
  {
    if |s| > 0 {
      var init := s[..|s| - 1];
      FilterMapAll(init, f, q);
      assert forall k :: 0 <= k < |FilterMap(init, f)| ==> FilterMap(s, f)[k] == FilterMap(init, f)[k];
    }
  }

  predicate NoDuplicates<T(==)>(s: seq<T>) {
    forall i, j :: 0 <= i < j < |s| ==> s[i] != s[j]
  }

  /** Appending an element not yet present keeps the elements distinct. */
  lemma {:induction false} NoDuplicatesAppend<T>(s: seq<T>, x: T)
    requires x !in s
    ensures NoDuplicates(s) ==> NoDuplicates(s + [x])
  {
  }

  /** `s.remove(x)`: drops the first occurrence of `x`, keeping the others in order. */
  function RemoveFirst<T(==)>(s: seq<T>, x: T): (r: seq<T>)
    ensures |r| == if x in s then |s| - 1 else |s|
    ensures x !in s ==> r == s
  {
    if |s| == 0 then []
    else if s[0] == x then s[1..]
    else
      assert x in s <==> x in s[1..];
      [s[0]] + RemoveFirst(s[1..], x)
  }

  /** `s.remove(x)` takes away exactly one copy of `x`. */
  lemma {:induction false} RemoveFirstMultiset<T>(s: seq<T>, x: T)
    requires x in s
    ensures multiset(RemoveFirst(s, x)) == multiset(s) - multiset{x}
  {
    assert s == [s[0]] + s[1..];
    if s[0] != x {
      RemoveFirstMultiset(s[1..], x);
    }
  }

  /** `s.remove(x)` cuts `s` at the first index holding `x`. */
  lemma {:induction false} RemoveFirstAt<T>(s: seq<T>, x: T, i: nat)
    requires i < |s| && s[i] == x
    requires forall j :: 0 <= j < i ==> s[j] != x
    ensures RemoveFirst(s, x) == s[..i] + s[i + 1..]
  {
    if i == 0 {
      assert s[..0] + s[1..] == s[1..];
    } else {
      var t := s[1..];
      RemoveFirstAt(t, x, i - 1);
      assert RemoveFirst(s, x) == [s[0]] + RemoveFirst(t, x);
      assert t[..i - 1] == s[1..i];
      assert t[i..] == s[i + 1..];
      assert s[..i] == [s[0]] + s[1..i];
    }
  }

  /** Python's `a <= b` on strings: lexicographic by code point, a proper prefix first. */
  predicate StrLe(a: string, b: string) {
    |a| == 0 || (|b| > 0 && (a[0] < b[0] || (a[0] == b[0] && StrLe(a[1..], b[1..]))))
  }

  /** The order looks at the first characters, then at the rest. */
  lemma {:induction false} StrLeCons(a: char, x: string, b: char, y: string)
    ensures StrLe([a] + x, [b] + y) <==> a < b || (a == b && StrLe(x, y))
  {
    assert ([a] + x)[1..] == x && ([b] + y)[1..] == y;
  }

  lemma {:induction false} StrLeTotal(a: string, b: string)
    ensures StrLe(a, b) || StrLe(b, a)
  {
    if |a| > 0 && |b| > 0 && a[0] == b[0] {
      StrLeTotal(a[1..], b[1..]);
    }
  }

  lemma {:induction false} StrLeTransitive(a: string, b: string, c: string)
    requires StrLe(a, b) && StrLe(b, c)
    ensures StrLe(a, c)
  {
    if |a| > 0 && a[0] == b[0] && b[0] == c[0] {
      StrLeTransitive(a[1..], b[1..], c[1..]);
    }
  }

  lemma {:induction false} StrLeAntisymmetric(a: string, b: string)
    requires StrLe(a, b) && StrLe(b, a)
    ensures a == b
  {
    if |a| > 0 {
      StrLeAntisymmetric(a[1..], b[1..]);
      assert a == [a[0]] + a[1..] && b == [b[0]] + b[1..];
    }
  }

  predicate Sorted(s: seq<string>) {
    forall i, j :: 0 <= i < j < |s| ==> StrLe(s[i], s[j])
  }

  /** Inserts `x` into a sorted sequence at its place. */
  function Insert(x: string, s: seq<string>): (r: seq<string>)
    requires Sorted(s)
    ensures Sorted(r)
    ensures multiset(r) == multiset(s) + multiset{x}
    ensures forall y :: y in r ==> y == x || y in s
  {
    if |s| == 0 then [x]
    else if StrLe(x, s[0]) then
      assert forall j :: 0 < j < |s| ==> StrLe(s[0], s[j]);
      forall j | 0 <= j < |s| ensures StrLe(x, s[j]) {
        if j > 0 { StrLeTransitive(x, s[0], s[j]); }
      }
      [x] + s
    else
      var tail := Insert(x, s[1..]);
      StrLeTotal(x, s[0]);
      assert s == [s[0]] + s[1..];
      forall y | y in tail ensures StrLe(s[0], y) {
        if y != x {
          var j :| 0 <= j < |s[1..]| && s[1..][j] == y;
          assert s[j + 1] == y;
        }
      }
      [s[0]] + tail
  }

  /** Python's `sorted(s)` on strings. */
  function Sort(s: seq<string>): (r: seq<string>)
    ensures Sorted(r)
    ensures multiset(r) == multiset(s)
  {
    if |s| == 0 then []
    else
      assert s == [s[0]] + s[1..];
      Insert(s[0], Sort(s[1..]))
  }

  /** The head of a non-empty sorted sequence is at or below each of its elements. */
  lemma {:induction false} SortedHead(s: seq<string>, x: string)
    requires Sorted(s) && x in s
    ensures StrLe(s[0], x)
  {
    var i :| 0 <= i < |s| && s[i] == x;
    if i == 0 {
      StrLeTotal(s[0], x);
    }
  }

  /** Taking the head off a sequence takes one copy of it off its multiset. */
  lemma {:induction false} MultisetTail(s: seq<string>)
    requires |s| > 0
    ensures multiset(s[1..]) == multiset(s) - multiset{s[0]}
  {
    assert s == [s[0]] + s[1..];
  }

  /**
   * A sorted arrangement of a multiset of strings is unique, so `Sort` gives
   * exactly what any correct sort (Python's Timsort among them) gives.
   */
  lemma {:induction false} SortedUnique(a: seq<string>, b: seq<string>)
    requires Sorted(a) && Sorted(b)
    requires multiset(a) == multiset(b)
    ensures a == b
  {
    if |a| == 0 {
      assert |b| == |multiset(b)| == 0;
    } else {
      assert |b| == |multiset(b)| == |multiset(a)| == |a|;
      assert a[0] in multiset(b) && b[0] in multiset(a);
      SortedHead(b, a[0]);
      SortedHead(a, b[0]);
      StrLeAntisymmetric(a[0], b[0]);
      MultisetTail(a);
      MultisetTail(b);
      SortedUnique(a[1..], b[1..]);
      assert a == [a[0]] + a[1..] && b == [b[0]] + b[1..];
    }
  }
}
