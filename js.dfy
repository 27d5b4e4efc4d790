/** JavaScript values and library behaviour that the burndown and add-on
    scripts rely on: `undefined`/`null`, numbers with NaN, truthiness,
    `String.prototype.split` and `Array.prototype.join`, the `<` order on
    strings, ASCII `toLowerCase`, lodash's `_.sumBy`, building an object by
    assigning keys one after another, and a filter on sequences used to
    state what the scripts' loops keep. */
module Js {

  /** `undefined` (or `null`, where the scripts treat them alike) versus a value. */
  datatype Option<+T> = None | Some(value: T)

  /** A JavaScript number. The scripts only ever compare numbers, test them
      for truthiness and use them as keys, so a real number or NaN is enough. */
  datatype Number = NaN | Num(value: real)

  /** `if (n)`: NaN and zero are falsy, every other number is truthy. */
  predicate Truthy(n: Number) {
    n.Num? && n.value != 0.0
  }

  /** `n > c`: always false for NaN. */
  predicate Greater(n: Number, c: real) {
    n.Num? && n.value > c
  }

  /** `if (s)` for a string that may be undefined: only a non-empty string is truthy. */
  predicate TruthyText(s: Option<string>) {
    s.Some? && |s.value| > 0
  }

  // ---------------------------------------------------------------------
  // Searching for a separator

  /** `sep` occurs in `s` at position `k`. */
  predicate Occurs(s: string, sep: string, k: int) {
    0 <= k && k + |sep| <= |s| && s[k..k + |sep|] == sep
  }

  predicate Contains(s: string, sep: string) {
    exists k :: 0 <= k <= |s| && Occurs(s, sep, k)
  }

  /** The first occurrence of `sep` in `s` at or after position `i`. */
  function IndexFrom(s: string, sep: string, i: nat): (r: Option<nat>)
    decreases |s| - i
    ensures r.Some? ==> i <= r.value && Occurs(s, sep, r.value)
    ensures r.Some? ==> forall k :: i <= k < r.value ==> !Occurs(s, sep, k)
    ensures r.None? ==> forall k :: i <= k ==> !Occurs(s, sep, k)
  {
    if i + |sep| > |s| then None
    else if s[i..i + |sep|] == sep then Some(i)
    else IndexFrom(s, sep, i + 1)
  }

  /** `s.indexOf(sep)`, with None for -1. */
  function IndexOf(s: string, sep: string): Option<nat> {
    IndexFrom(s, sep, 0)
  }

  /** The first occurrence is the unique position that occurs and has no
      occurrence before it. */
  lemma IndexOfIs(s: string, sep: string, p: nat)
    requires Occurs(s, sep, p)
    requires forall k :: 0 <= k < p ==> !Occurs(s, sep, k)
    ensures IndexOf(s, sep) == Some(p)
  {
    var r := IndexFrom(s, sep, 0);
    if r.Some? {
      assert !(r.value < p);
      assert !(p < r.value);
    }
  }

  lemma IndexOfNone(s: string, sep: string)
    requires !Contains(s, sep)
    ensures IndexOf(s, sep) == None
  {
  }

  // ---------------------------------------------------------------------
  // split and join

  /** `s.split(sep)` for a non-empty separator: the pieces between the
      non-overlapping occurrences of `sep`, found from the left. */
  function Split(s: string, sep: string): (r: seq<string>)
    requires |sep| > 0
    decreases |s|
    ensures |r| >= 1
  {
    match IndexOf(s, sep)
    case None => [s]
    case Some(i) => [s[..i]] + Split(s[i + |sep|..], sep)
  }

  /** `pieces.join(sep)`. */
  function Join(pieces: seq<string>, sep: string): string
  {
    if |pieces| == 0 then ""
    else if |pieces| == 1 then pieces[0]
    else pieces[0] + sep + Join(pieces[1..], sep)
  }

  /** Joining the pieces of a split with the same separator gives back the text. */
  lemma {:induction false} JoinSplit(s: string, sep: string)
    requires |sep| > 0
    ensures Join(Split(s, sep), sep) == s
    decreases |s|
  {
    match IndexOf(s, sep)
    case None =>
    case Some(i) =>
      var rest := s[i + |sep|..];
      var t := Split(rest, sep);
      JoinSplit(rest, sep);
      assert Split(s, sep) == [s[..i]] + t;
      JoinCons(s[..i], t, sep);
      assert s == s[..i] + s[i..i + |sep|] + rest;
  }

  lemma JoinCons(a: string, t: seq<string>, sep: string)
    requires |t| >= 1
    ensures Join([a] + t, sep) == a + sep + Join(t, sep)
  {
    assert ([a] + t)[1..] == t;
  }

  /** No proper prefix of `sep` is also a suffix of it, so two occurrences of
      `sep` can never overlap (true of ", ", ": ", "&", "=" and ","). */
  predicate BorderFree(sep: string) {
    forall m :: 0 < m < |sep| ==> sep[..m] != sep[|sep| - m..]
  }

  /** An occurrence of `sep` that starts inside a leading piece `p` either
      lies wholly inside `p` or overlaps `sep` with itself. */
  lemma OccurrenceInPiece(p: string, sep: string, rest: string, k: int)
    requires 0 <= k < |p|
    ensures Occurs(p + sep + rest, sep, k) ==>
              Occurs(p, sep, k) ||
              (k + |sep| > |p| && sep[..k + |sep| - |p|] == sep[|sep| - (k + |sep| - |p|)..])
  {
    var s := p + sep + rest;
    if Occurs(s, sep, k) {
      if k + |sep| <= |p| {
        assert p[k..k + |sep|] == s[k..k + |sep|];
      } else {
        var m := k + |sep| - |p|;
        forall t | 0 <= t < m
          ensures sep[..m][t] == sep[|sep| - m..][t]
        {
          assert s[|p| + t] == sep[t];
          assert s[k + (|sep| - m + t)] == sep[|sep| - m + t];
        }
      }
    }
  }

  /** A text free of the separator, followed by the separator: the first
      occurrence is right after that text. */
  lemma IndexAfterPiece(p: string, sep: string, rest: string)
    requires |sep| > 0 && BorderFree(sep)
    requires !Contains(p, sep)
    ensures IndexOf(p + sep + rest, sep) == Some(|p|)
  {
    var s := p + sep + rest;
    assert s[|p|..|p| + |sep|] == sep;
    forall k | 0 <= k < |p|
      ensures !Occurs(s, sep, k)
    {
      OccurrenceInPiece(p, sep, rest, k);
    }
    IndexOfIs(s, sep, |p|);
  }

  /** Splitting a text that does not contain the separator gives the text itself. */
  lemma SplitWhole(s: string, sep: string)
    requires |sep| > 0
    requires !Contains(s, sep)
    ensures Split(s, sep) == [s]
  {
    IndexOfNone(s, sep);
  }

  /** A separator-free first piece is split off on its own. */
  lemma SplitPiece(p: string, sep: string, rest: string)
    requires |sep| > 0 && BorderFree(sep)
    requires !Contains(p, sep)
    ensures Split(p + sep + rest, sep) == [p] + Split(rest, sep)
  {
    var s := p + sep + rest;
    IndexAfterPiece(p, sep, rest);
    assert s[..|p|] == p;
    assert s[|p| + |sep|..] == rest;
  }

  /** Splitting a join of separator-free pieces gives back the pieces. */
  lemma {:induction false} SplitJoin(pieces: seq<string>, sep: string)
    requires |sep| > 0 && BorderFree(sep)
    requires |pieces| >= 1
    requires forall i :: 0 <= i < |pieces| ==> !Contains(pieces[i], sep)
    ensures Split(Join(pieces, sep), sep) == pieces
    decreases |pieces|
  {
    if |pieces| == 1 {
      SplitWhole(pieces[0], sep);
    } else {
      SplitJoin(pieces[1..], sep);
      SplitPiece(pieces[0], sep, Join(pieces[1..], sep));
      assert [pieces[0]] + pieces[1..] == pieces;
    }
  }

  lemma SeparatorsAreBorderFree()
    ensures BorderFree(", ") && BorderFree(": ") && BorderFree("&") && BorderFree("=") && BorderFree(",")
  {
    assert ", "[..1] == [','] && ", "[1..] == [' '];
    assert ": "[..1] == [':'] && ": "[1..] == [' '];
  }

  // ---------------------------------------------------------------------
  // toLowerCase

  function LowerChar(c: char): char {
    if 'A' <= c <= 'Z' then (c as int + 32) as char else c
  }

  /** `s.toLowerCase()` on the ASCII letters. */
  function Lower(s: string): string {
    seq(|s|, i requires 0 <= i < |s| => LowerChar(s[i]))
  }

  /** Lower-casing keeps the length (so an empty key stays the only empty
      key), leaves no upper-case ASCII letter, and is idempotent. */
  lemma LowerFacts(s: string)
    ensures |Lower(s)| == |s|
    ensures forall i :: 0 <= i < |s| ==> !('A' <= Lower(s)[i] <= 'Z')
    ensures Lower(Lower(s)) == Lower(s)
  {
  }

  // ---------------------------------------------------------------------
  // The < order on strings

  /** `a < b` on strings: lexicographic, a proper prefix comes first. */
  predicate Less(a: string, b: string)
    decreases |a|
  {
    if |a| == 0 then |b| > 0
    else if |b| == 0 then false
    else if a[0] != b[0] then a[0] < b[0]
    else Less(a[1..], b[1..])
  }

  lemma {:induction false} LessIrreflexive(a: string)
    ensures !Less(a, a)
    decreases |a|
  {
    if |a| > 0 {
      LessIrreflexive(a[1..]);
    }
  }

  lemma {:induction false} LessTransitive(a: string, b: string, c: string)
    requires Less(a, b) && Less(b, c)
    ensures Less(a, c)
    decreases |a|
  {
    if |a| > 0 && |b| > 0 && |c| > 0 && a[0] == b[0] && b[0] == c[0] {
      LessTransitive(a[1..], b[1..], c[1..]);
    }
  }

  lemma {:induction false} LessTotal(a: string, b: string)
    ensures a == b || Less(a, b) || Less(b, a)
    decreases |a|
  {
    if |a| > 0 && |b| > 0 && a[0] == b[0] {
      LessTotal(a[1..], b[1..]);
      assert a == [a[0]] + a[1..];
      assert b == [b[0]] + b[1..];
    }
  }

  // ---------------------------------------------------------------------
  // Collections

  /** The elements of `s` satisfying `p`, in order (a specification helper). */
  function Filter<T>(s: seq<T>, p: T -> bool): (r: seq<T>)
    ensures |r| <= |s|
    ensures forall x :: x in r ==> x in s && p(x)
  {
    if |s| == 0 then []
    else Filter(s[..|s| - 1], p) + (if p(s[|s| - 1]) then [s[|s| - 1]] else [])
  }

  lemma FilterSnoc<T>(s: seq<T>, x: T, p: T -> bool)
    ensures Filter(s + [x], p) == Filter(s, p) + (if p(x) then [x] else [])
  {
    assert (s + [x])[..|s|] == s;
  }

  /** Everything is kept when every element satisfies `p`. */
  lemma {:induction false} FilterAll<T>(s: seq<T>, p: T -> bool)
    requires forall i :: 0 <= i < |s| ==> p(s[i])
    ensures Filter(s, p) == s
  {
    if |s| > 0 {
      FilterAll(s[..|s| - 1], p);
    }
  }

  /** Nothing is kept when no element satisfies `p`. */
  lemma {:induction false} FilterNone<T>(s: seq<T>, p: T -> bool)
    requires forall i :: 0 <= i < |s| ==> !p(s[i])
    ensures Filter(s, p) == []
  {
    if |s| > 0 {
      FilterNone(s[..|s| - 1], p);
    }
  }

  /** Filtering keeps every copy of an element that satisfies `p` and no copy of one that does not. */
  lemma {:induction false} FilterCount<T>(s: seq<T>, p: T -> bool, x: T)
    ensures multiset(Filter(s, p))[x] == if p(x) then multiset(s)[x] else 0
  {
    if |s| > 0 {
      var init, last := s[..|s| - 1], s[|s| - 1];
      FilterCount(init, p, x);
      assert s == init + [last];
    }
  }

  /** `_.sumBy(s, f)`. */
  function SumBy<T>(s: seq<T>, f: T -> int): int {
    if |s| == 0 then 0 else SumBy(s[..|s| - 1], f) + f(s[|s| - 1])
  }

  lemma SumBySnoc<T>(s: seq<T>, x: T, f: T -> int)
    ensures SumBy(s + [x], f) == SumBy(s, f) + f(x)
  {
    assert (s + [x])[..|s|] == s;
  }

  /** The object built by assigning `obj[k] = v` for each pair in order. */
  function Assign<K, V>(pairs: seq<(K, V)>): map<K, V> {
    if |pairs| == 0 then map[]
    else Assign(pairs[..|pairs| - 1])[pairs[|pairs| - 1].0 := pairs[|pairs| - 1].1]
  }

  lemma AssignSnoc<K, V>(pairs: seq<(K, V)>, k: K, v: V)
    ensures Assign(pairs + [(k, v)]) == Assign(pairs)[k := v]
  {
    assert (pairs + [(k, v)])[..|pairs|] == pairs;
  }

  /** The keys are exactly the assigned keys. */
  lemma {:induction false} AssignKeys<K, V>(pairs: seq<(K, V)>)
    ensures Assign(pairs).Keys == set i | 0 <= i < |pairs| :: pairs[i].0
  {
    if |pairs| > 0 {
      var init := pairs[..|pairs| - 1];
      AssignKeys(init);
      assert (set i | 0 <= i < |pairs| :: pairs[i].0) ==
             (set i | 0 <= i < |init| :: init[i].0) + {pairs[|pairs| - 1].0};
    }
  }

  /** A key is bound exactly when some assignment binds it. */
  lemma AssignHas<K, V>(pairs: seq<(K, V)>, k: K)
    ensures k in Assign(pairs) <==> exists i :: 0 <= i < |pairs| && pairs[i].0 == k
  {
    AssignKeys(pairs);
    if k in Assign(pairs) {
      assert k in set i | 0 <= i < |pairs| :: pairs[i].0;
    }
  }

  /** A bound key holds the value of its last assignment. */
  lemma {:induction false} AssignLast<K, V>(pairs: seq<(K, V)>, k: K) returns (last: nat)
    requires k in Assign(pairs)
    ensures last < |pairs| && pairs[last].0 == k && pairs[last].1 == Assign(pairs)[k]
    ensures forall l :: last < l < |pairs| ==> pairs[l].0 != k
  {
    var init := pairs[..|pairs| - 1];
    if pairs[|pairs| - 1].0 == k {
      last := |pairs| - 1;
    } else {
      last := AssignLast(init, k);
      assert pairs[last] == init[last];
      forall l | last < l < |pairs|
        ensures pairs[l].0 != k
      {
        if l < |init| {
          assert pairs[l] == init[l];
        }
      }
    }
  }

  /** The keys are exactly the assigned keys, and each holds the value of
      its LAST assignment: a later assignment overwrites an earlier one. */
  lemma {:induction false} AssignLastWins<K, V>(pairs: seq<(K, V)>)
    ensures forall k :: k in Assign(pairs) <==> exists i :: 0 <= i < |pairs| && pairs[i].0 == k
    ensures forall i :: 0 <= i < |pairs| && (forall j :: i < j < |pairs| ==> pairs[j].0 != pairs[i].0) ==>
              pairs[i].0 in Assign(pairs) && Assign(pairs)[pairs[i].0] == pairs[i].1
  {
    AssignKeys(pairs);
    if |pairs| > 0 {
      var init := pairs[..|pairs| - 1];
      AssignLastWins(init);
      forall i | 0 <= i < |pairs| && (forall j :: i < j < |pairs| ==> pairs[j].0 != pairs[i].0)
        ensures pairs[i].0 in Assign(pairs) && Assign(pairs)[pairs[i].0] == pairs[i].1
      {
        if i < |init| {
          assert init[i] == pairs[i];
          assert forall j :: i < j < |init| ==> init[j].0 != init[i].0 by {
            forall j | i < j < |init| ensures init[j].0 != init[i].0 {
              assert init[j] == pairs[j];
            }
          }
        }
      }
    }
  }
}
