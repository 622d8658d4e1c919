/** Small shared vocabulary: options, filtering, slicing, the order on strings and stable sorting. */
module Basics {
  datatype Option<+T> = None | Some(value: T)

  function Min(a: int, b: int): int {
    if a <= b then a else b
  }

  /** What is left of `s` after the first `n` elements; empty when there are not that many. */
  function Drop<T>(s: seq<T>, n: nat): seq<T> {
    if n <= |s| then s[n..] else []
  }

  /** The first `n` elements of `s`, or all of them. */
  function Take<T>(s: seq<T>, n: nat): seq<T> {
    if n <= |s| then s[..n] else s
  }

  function Flatten<T>(parts: seq<seq<T>>): seq<T> {
    if parts == [] then [] else parts[0] + Flatten(parts[1..])
  }

  function Filter<T>(s: seq<T>, keep: T -> bool): seq<T> {
    if s == [] then []
    else (if keep(s[0]) then [s[0]] else []) + Filter(s[1..], keep)
  }

  lemma {:induction false} FilterAppend<T>(a: seq<T>, b: seq<T>, keep: T -> bool)
    ensures Filter(a + b, keep) == Filter(a, keep) + Filter(b, keep)
  {
    if a == [] {
      assert a + b == b;
    } else {
      var first := if keep(a[0]) then [a[0]] else [];
      FilterAppend(a[1..], b, keep);
      assert (a + b)[0] == a[0] && (a + b)[1..] == a[1..] + b;
      assert first + (Filter(a[1..], keep) + Filter(b, keep)) == first + Filter(a[1..], keep) + Filter(b, keep);
    }
  }

  lemma {:induction false} FilterMember<T>(s: seq<T>, keep: T -> bool, x: T)
    ensures x in Filter(s, keep) <==> x in s && keep(x)
  {
    if s != [] {
      FilterMember(s[1..], keep, x);
      assert x in s <==> x == s[0] || x in s[1..];
    }
  }

  lemma {:induction false} FilterPrefix<T>(s: seq<T>, n: nat, keep: T -> bool)
    requires n <= |s|
    ensures Filter(s[..n], keep) <= Filter(s, keep)
  {
    var a, b := s[..n], s[n..];
    FilterAppend(a, b, keep);
    assert a + b == s;
  }

  lemma {:induction false} FilterStep<T>(s: seq<T>, i: nat, keep: T -> bool)
    requires i < |s|
    ensures Filter(s[..i + 1], keep) == Filter(s[..i], keep) + if keep(s[i]) then [s[i]] else []
  {
    var a, b := s[..i], [s[i]];
    FilterAppend(a, b, keep);
    assert s[..i + 1] == a + b && b[1..] == [];
  }

  lemma {:induction false} FilterAll<T>(s: seq<T>, keep: T -> bool)
    requires forall i :: 0 <= i < |s| ==> keep(s[i])
    ensures Filter(s, keep) == s
  {
    if s != [] {
      FilterAll(s[1..], keep);
    }
  }

  lemma {:induction false} FilterIsShorter<T>(s: seq<T>, keep: T -> bool)
    ensures |Filter(s, keep)| <= |s|
  {
    if s != [] {
      FilterIsShorter(s[1..], keep);
    }
  }

  lemma {:induction false} FiltersAgree<T>(s: seq<T>, f: T -> bool, g: T -> bool)
    requires forall x :: x in s ==> f(x) == g(x)
    ensures Filter(s, f) == Filter(s, g)
  {
    if s != [] {
      FiltersAgree(s[1..], f, g);
    }
  }

  function Map<A, B>(s: seq<A>, f: A -> B): (r: seq<B>)
    ensures |r| == |s|
    ensures forall i :: 0 <= i < |s| ==> r[i] == f(s[i])
  {
    seq(|s|, i requires 0 <= i < |s| => f(s[i]))
  }

  lemma MapAppend<A, B>(a: seq<A>, b: seq<A>, f: A -> B)
    ensures Map(a + b, f) == Map(a, f) + Map(b, f)
  {
  }

  lemma MapMiddle<A, B>(x: seq<A>, e: A, y: seq<A>, f: A -> B)
    ensures multiset(Map(x + [e] + y, f)) == multiset(Map(x + y, f)) + multiset{f(e)}
  {
    MapAppend(x, y, f);
    assert Map(x + [e] + y, f) == Map(x, f) + [f(e)] + Map(y, f);
  }

  lemma TakeOut<A>(s: seq<A>, e: A) returns (x: seq<A>, y: seq<A>)
    requires e in multiset(s)
    ensures s == x + [e] + y && multiset(x + y) == multiset(s) - multiset{e}
  {
    var j :| 0 <= j < |s| && s[j] == e;
    x, y := s[..j], s[j + 1..];
    assert s == x + [e] + y;
  }

  lemma MapFront<A, B>(s: seq<A>, f: A -> B)
    requires s != []
    ensures multiset(s[1..]) == multiset(s) - multiset{s[0]} && s[0] in multiset(s)
    ensures multiset(Map(s, f)) == multiset(Map(s[1..], f)) + multiset{f(s[0])}
  {
    assert s == [s[0]] + s[1..] && Map(s, f) == [f(s[0])] + Map(s[1..], f);
  }

  /** The images of a rearrangement are a rearrangement of the images. */
  lemma {:induction false} MapRearranges<A, B>(a: seq<A>, b: seq<A>, f: A -> B)
    requires multiset(a) == multiset(b)
    ensures multiset(Map(a, f)) == multiset(Map(b, f))
  {
    if a == [] {
      assert |b| == |multiset(b)| == 0;
    } else {
      MapFront(a, f);
      var x, y := TakeOut(b, a[0]);
      MapRearranges(a[1..], x + y, f);
      MapMiddle(x, a[0], y, f);
    }
  }

  // ---------------------------------------------------------------- strings

  /** `strings.Split` with a one-character separator. */
  function SplitOn(s: string, sep: char): (parts: seq<string>)
    ensures parts != []
  {
    if s == "" then [""]
    else
      var rest := SplitOn(s[1..], sep);
      if s[0] == sep then [""] + rest else [[s[0]] + rest[0]] + rest[1..]
  }

  lemma SplitFront(c: char, s: string, sep: char)
    ensures SplitOn([c] + s, sep)
         == if c == sep then [""] + SplitOn(s, sep) else [[c] + SplitOn(s, sep)[0]] + SplitOn(s, sep)[1..]
  {
    assert ([c] + s)[1..] == s;
  }

  lemma {:induction false} SplitAtSeparator(a: string, sep: char, b: string)
    ensures SplitOn(a + [sep] + b, sep) == SplitOn(a, sep) + SplitOn(b, sep)
  {
    if a == "" {
      assert a + [sep] + b == [sep] + b;
      SplitFront(sep, b, sep);
    } else {
      var c, rest := a[0], a[1..];
      assert a == [c] + rest && a + [sep] + b == [c] + (rest + [sep] + b);
      SplitAtSeparator(rest, sep, b);
      SplitFront(c, rest, sep);
      SplitFront(c, rest + [sep] + b, sep);
      ConsAppend(c, SplitOn(rest, sep), SplitOn(b, sep), sep);
    }
  }

  lemma ConsAppend(c: char, x: seq<string>, y: seq<string>, sep: char)
    requires x != []
    ensures [""] + (x + y) == [""] + x + y
    ensures [[c] + (x + y)[0]] + (x + y)[1..] == [[c] + x[0]] + x[1..] + y
  {
  }

  lemma {:induction false} SplitWithoutSeparator(a: string, sep: char)
    requires sep !in a
    ensures SplitOn(a, sep) == [a]
  {
    if a != "" {
      SplitWithoutSeparator(a[1..], sep);
      assert [a[0]] + a[1..] == a;
    }
  }

  lemma {:induction false} SplitPartsAreFree(s: string, sep: char)
    ensures forall i :: 0 <= i < |SplitOn(s, sep)| ==> sep !in SplitOn(s, sep)[i]
  {
    if s != "" {
      SplitPartsAreFree(s[1..], sep);
      var rest := SplitOn(s[1..], sep);
      forall i | 0 <= i < |SplitOn(s, sep)| ensures sep !in SplitOn(s, sep)[i] {
        assert SplitOn(s, sep)[i] == if s[0] == sep then (if i == 0 then "" else rest[i - 1])
                                     else if i == 0 then [s[0]] + rest[0] else rest[i];
      }
    }
  }

  /** `strings.Join` with a one-character separator. */
  function JoinWith(parts: seq<string>, sep: char): string {
    if parts == [] then ""
    else if |parts| == 1 then parts[0]
    else parts[0] + [sep] + JoinWith(parts[1..], sep)
  }

  /** Joining separator-free parts can be undone. */
  lemma {:induction false} SplitUndoesJoin(parts: seq<string>, sep: char)
    requires parts != [] && forall i :: 0 <= i < |parts| ==> sep !in parts[i]
    ensures SplitOn(JoinWith(parts, sep), sep) == parts
  {
    SplitWithoutSeparator(parts[0], sep);
    if |parts| > 1 {
      SplitUndoesJoin(parts[1..], sep);
      SplitAtSeparator(parts[0], sep, JoinWith(parts[1..], sep));
    }
  }

  /** Splitting can always be undone. */
  lemma {:induction false} JoinUndoesSplit(s: string, sep: char)
    ensures JoinWith(SplitOn(s, sep), sep) == s
  {
    if s != "" {
      JoinUndoesSplit(s[1..], sep);
      var rest := SplitOn(s[1..], sep);
      assert ([""] + rest)[1..] == rest;
      assert ([[s[0]] + rest[0]] + rest[1..])[1..] == rest[1..];
      assert s == [s[0]] + s[1..];
    }
  }

  /** Go's `<` on strings. */
  predicate StringLess(a: string, b: string) {
    if b == [] then false
    else if a == [] then true
    else a[0] < b[0] || (a[0] == b[0] && StringLess(a[1..], b[1..]))
  }

  /** Where two strings agree up to position `k`, `a` ends or has the smaller character. */
  ghost predicate LessAt(a: string, b: string, k: nat) {
    k <= |a| && k < |b| && a[..k] == b[..k] && (k == |a| || a[k] < b[k])
  }

  lemma PrefixesAgree(a: string, b: string, k: nat)
    requires k <= |a| && k <= |b| && a[..k] == b[..k]
    ensures forall i :: 0 <= i < k ==> a[i] == b[i]
  {
    assert forall i :: 0 <= i < k ==> a[..k][i] == b[..k][i];
  }

  /** The order is the lexicographic one: at the first difference the smaller character decides, and a proper
      prefix comes first. */
  lemma {:induction false} StringLessIsLexicographic(a: string, b: string)
    ensures StringLess(a, b) <==> exists k: nat :: LessAt(a, b, k)
  {
    if a == [] || b == [] {
      assert b != [] ==> LessAt([], b, 0);
    } else if a[0] != b[0] {
      assert a[0] < b[0] ==> LessAt(a, b, 0);
      forall k: nat | LessAt(a, b, k) ensures k > 0 ==> a[0] == b[0] {
        PrefixesAgree(a, b, k);
      }
    } else {
      StringLessIsLexicographic(a[1..], b[1..]);
      if k: nat :| LessAt(a[1..], b[1..], k) {
        assert a[..k + 1] == [a[0]] + a[1..][..k] && b[..k + 1] == [b[0]] + b[1..][..k];
        assert LessAt(a, b, k + 1);
      }
      if k: nat :| LessAt(a, b, k) {
        assert k > 0;
        assert a[1..][..k - 1] == a[..k][1..] && b[1..][..k - 1] == b[..k][1..];
        assert LessAt(a[1..], b[1..], k - 1);
      }
    }
  }

  lemma {:induction false} StringLessIsStrict(a: string, b: string)
    ensures !(StringLess(a, b) && StringLess(b, a))
    ensures StringLess(a, b) || a == b || StringLess(b, a)
    ensures !StringLess(a, a)
    decreases |a|
  {
    if a != [] {
      StringLessIsStrict(a[1..], a[1..]);
      if b != [] && a[0] == b[0] {
        StringLessIsStrict(a[1..], b[1..]);
        assert a[1..] == b[1..] ==> a == [a[0]] + a[1..] == [b[0]] + b[1..] == b;
      }
    }
  }

  lemma {:induction false} StringLessTransitive(a: string, b: string, c: string)
    requires StringLess(a, b) && StringLess(b, c)
    ensures StringLess(a, c)
  {
    if a != [] && a[0] == b[0] && b[0] == c[0] {
      StringLessTransitive(a[1..], b[1..], c[1..]);
    }
  }

  /** "Not after" is transitive, so sorting by a string is well defined. */
  lemma StringNotAfterTransitive(a: string, b: string, c: string)
    ensures StringLess(a, b) ==> !StringLess(b, a)
    ensures !StringLess(b, a) && !StringLess(c, b) ==> !StringLess(c, a)
  {
    StringLessIsStrict(a, b);
    StringLessIsStrict(b, c);
    StringLessIsStrict(a, c);
    if !StringLess(b, a) && !StringLess(c, b) && a != b && b != c {
      StringLessTransitive(a, b, c);
    }
  }

  // ---------------------------------------------------------------- stable sorting

  /** `less` never orders two elements both ways, and "not after" is transitive. */
  ghost predicate Ordering<T(!new)>(less: (T, T) -> bool) {
    && (forall x, y :: less(x, y) ==> !less(y, x))
    && (forall x, y, z :: !less(y, x) && !less(z, y) ==> !less(z, x))
  }

  ghost predicate Sorted<T>(s: seq<T>, less: (T, T) -> bool) {
    forall i, j :: 0 <= i < j < |s| ==> !less(s[j], s[i])
  }

  function Insert<T>(x: T, s: seq<T>, less: (T, T) -> bool): seq<T> {
    if s == [] || !less(s[0], x) then [x] + s else [s[0]] + Insert(x, s[1..], less)
  }

  /** `sort.SliceStable` as a function: insertion sort, which keeps equal elements in order. */
  function StableSort<T>(s: seq<T>, less: (T, T) -> bool): seq<T> {
    if s == [] then [] else Insert(s[0], StableSort(s[1..], less), less)
  }

  lemma {:induction false} InsertSorts<T(!new)>(x: T, s: seq<T>, less: (T, T) -> bool)
    requires Ordering(less) && Sorted(s, less)
    ensures Sorted(Insert(x, s, less), less)
    ensures multiset(Insert(x, s, less)) == multiset{x} + multiset(s)
  {
    if s == [] || !less(s[0], x) {
      forall j | 0 <= j < |s| ensures !less(s[j], x) {
        assert !less(s[0], x) && (j > 0 ==> !less(s[j], s[0]));
      }
    } else {
      InsertSorts(x, s[1..], less);
      var t := Insert(x, s[1..], less);
      assert s == [s[0]] + s[1..];
      forall j | 0 <= j < |t| ensures !less(t[j], s[0]) {
        assert t[j] in multiset(t);
        assert t[j] == x || t[j] in s[1..];
      }
    }
  }

  lemma {:induction false} StableSortSorts<T(!new)>(s: seq<T>, less: (T, T) -> bool)
    requires Ordering(less)
    ensures Sorted(StableSort(s, less), less)
    ensures multiset(StableSort(s, less)) == multiset(s)
  {
    if s != [] {
      StableSortSorts(s[1..], less);
      InsertSorts(s[0], StableSort(s[1..], less), less);
      assert s == [s[0]] + s[1..];
    }
  }

  /** The order tells no two of the elements apart. */
  ghost predicate Alike<T(!new)>(same: T -> bool, less: (T, T) -> bool) {
    forall a, b :: same(a) && same(b) ==> !less(a, b)
  }

  lemma {:induction false} InsertIsStable<T(!new)>(x: T, s: seq<T>, less: (T, T) -> bool, same: T -> bool)
    requires Alike(same, less)
    ensures Filter(Insert(x, s, less), same) == (if same(x) then [x] else []) + Filter(s, same)
  {
    if s == [] || !less(s[0], x) {
      FilterCons(x, s, same);
    } else {
      var rest := Insert(x, s[1..], less);
      InsertIsStable(x, s[1..], less, same);
      FilterCons(s[0], rest, same);
      FilterCons(s[0], s[1..], same);
      assert s == [s[0]] + s[1..];
      assert !(same(s[0]) && same(x));
    }
  }

  lemma FilterCons<T>(x: T, s: seq<T>, keep: T -> bool)
    ensures Filter([x] + s, keep) == (if keep(x) then [x] else []) + Filter(s, keep)
  {
    assert ([x] + s)[1..] == s;
  }

  /** Elements that the order does not tell apart keep their order. */
  lemma {:induction false} StableSortIsStable<T(!new)>(s: seq<T>, less: (T, T) -> bool, same: T -> bool)
    requires Alike(same, less)
    ensures Filter(StableSort(s, less), same) == Filter(s, same)
  {
    if s != [] {
      StableSortIsStable(s[1..], less, same);
      InsertIsStable(s[0], StableSort(s[1..], less), less, same);
    }
  }

  // ---------------------------------------------------------------- duplicates

  ghost predicate NoDuplicates<T>(s: seq<T>) {
    forall i, j :: 0 <= i < j < |s| ==> s[i] != s[j]
  }

  lemma {:induction false} OccursOnce<T>(s: seq<T>, x: T)
    requires NoDuplicates(s)
    ensures multiset(s)[x] <= 1
  {
    if s != [] {
      var n := |s| - 1;
      OccursOnce(s[..n], x);
      assert s == s[..n] + [s[n]];
      assert forall i :: 0 <= i < n ==> s[..n][i] == s[i] != s[n];
      assert s[n] !in multiset(s[..n]);
    }
  }

  lemma OccursTwice<T>(s: seq<T>, i: nat, j: nat)
    requires i < j < |s| && s[i] == s[j]
    ensures multiset(s)[s[i]] >= 2
  {
    assert s == s[..j] + [s[j]] + s[j + 1..];
    assert s[..j][i] == s[j];
    assert s[j] in multiset(s[..j]);
  }

  /** A rearrangement has the same members, and no duplicates if there were none. */
  lemma RearrangementKeepsMembers<T(!new)>(a: seq<T>, b: seq<T>)
    requires multiset(a) == multiset(b)
    ensures forall x :: x in a <==> x in b
    ensures NoDuplicates(a) ==> NoDuplicates(b)
  {
    forall x ensures x in a <==> x in b {
      assert x in a <==> x in multiset(a);
      assert x in b <==> x in multiset(b);
    }
    if NoDuplicates(a) {
      forall i, j | 0 <= i < j < |b| ensures b[i] != b[j] {
        OccursOnce(a, b[i]);
        if b[i] == b[j] {
          OccursTwice(b, i, j);
        }
      }
    }
  }

  lemma {:induction false} SubsetSize<T>(a: set<T>, b: set<T>)
    requires a <= b
    ensures |a| <= |b|
  {
    if a != {} {
      var x :| x in a;
      SubsetSize(a - {x}, b - {x});
    }
  }

  // ---------------------------------------------------------------- runs

  /** What each step keeps exactly when it is safe holds throughout exactly when all steps are safe. */
  lemma {:induction false} KeptIffSafe(holds: nat -> bool, safe: nat -> bool, n: nat)
    requires holds(0) && forall i: nat :: i < n && holds(i) ==> (holds(i + 1) <==> safe(i))
    ensures (forall i: nat :: i <= n ==> holds(i)) <==> (forall i: nat :: i < n ==> safe(i))
  {
    if n > 0 {
      KeptIffSafe(holds, safe, n - 1);
      assert holds(n - 1) ==> (holds(n) <==> safe(n - 1));
    }
  }
}
