/** Small shared vocabulary: optional values, results, and the JavaScript string
    and array helpers that several components use. */
module Prelude {

  datatype Option<+T> = None | Some(value: T) {
    function GetOr(default: T): T {
      if Some? then value else default
    }

    function ToSeq(): seq<T> {
      if Some? then [value] else []
    }
  }

  datatype Result<+T, +E> = Ok(value: T) | Err(error: E) {
    function ToOption(): Option<T> {
      if Ok? then Some(value) else None
    }
  }

  function Get<K, V>(m: map<K, V>, k: K): Option<V> {
    if k in m then Some(m[k]) else None
  }

  function Last<T>(s: seq<T>): T
    requires s != []
  {
    s[|s| - 1]
  }

  function Init<T>(s: seq<T>): seq<T>
    requires s != []
  {
    s[..|s| - 1]
  }

  function Min(a: int, b: int): int {
    if a < b then a else b
  }

  function Max(a: int, b: int): int {
    if a < b then b else a
  }

  function MinReal(a: real, b: real): real {
    if a < b then a else b
  }

  function MaxReal(a: real, b: real): real {
    if a < b then b else a
  }

  lemma DivideThenMultiply(x: real, y: real)
    requires y != 0.0
    ensures x / y * y == x
  {
  }

  ghost predicate Distinct<T>(s: seq<T>) {
    forall i, j :: 0 <= i < j < |s| ==> s[i] != s[j]
  }

  /** Every element once, in the order of first appearance: the keys of a JavaScript set or map. */
  function FirstOccurrences<T(==)>(s: seq<T>): seq<T> {
    if s == [] then []
    else
      var before := FirstOccurrences(Init(s));
      if Last(s) in before then before else before + [Last(s)]
  }

  lemma {:induction false} FirstOccurrencesAreDistinct<T>(s: seq<T>)
    ensures Distinct(FirstOccurrences(s))
    ensures forall x :: x in FirstOccurrences(s) <==> x in s
    decreases |s|
  {
    if s != [] {
      FirstOccurrencesAreDistinct(Init(s));
      assert s == Init(s) + [Last(s)];
    }
  }

  /** `Array.prototype.filter`. */
  function Filter<T>(s: seq<T>, p: T -> bool): seq<T> {
    if s == [] then [] else (if p(s[0]) then [s[0]] else []) + Filter(s[1..], p)
  }

  lemma {:induction false} FilterConcat<T>(a: seq<T>, b: seq<T>, p: T -> bool)
    ensures Filter(a + b, p) == Filter(a, p) + Filter(b, p)
    decreases |a|
  {
    if a == [] {
      assert a + b == b;
    } else {
      assert (a + b)[1..] == a[1..] + b;
      FilterConcat(a[1..], b, p);
      var head := if p(a[0]) then [a[0]] else [];
      ConcatAssociates(head, Filter(a[1..], p), Filter(b, p));
    }
  }

  lemma {:induction false} FilterMembers<T>(s: seq<T>, p: T -> bool)
    ensures forall i :: 0 <= i < |Filter(s, p)| ==> p(Filter(s, p)[i]) && Filter(s, p)[i] in s
    decreases |s|
  {
    if s != [] { FilterMembers(s[1..], p); }
  }

  lemma ConcatAssociates<T>(a: seq<T>, b: seq<T>, c: seq<T>)
    ensures (a + b) + c == a + (b + c)
  {
  }

  /** How many elements satisfy `p`. */
  function Count<T>(s: seq<T>, p: T -> bool): nat {
    if s == [] then 0 else (if p(s[0]) then 1 else 0) + Count(s[1..], p)
  }

  lemma {:induction false} CountConcat<T>(a: seq<T>, b: seq<T>, p: T -> bool)
    ensures Count(a + b, p) == Count(a, p) + Count(b, p)
    decreases |a|
  {
    if a == [] {
      assert a + b == b;
    } else {
      assert (a + b)[1..] == a[1..] + b;
      CountConcat(a[1..], b, p);
    }
  }

  lemma CountAppend<T>(a: seq<T>, x: T, p: T -> bool)
    ensures Count(a + [x], p) == Count(a, p) + (if p(x) then 1 else 0)
  {
    CountConcat(a, [x], p);
  }

  lemma {:induction false} CountUpdate<T>(s: seq<T>, i: nat, x: T, p: T -> bool)
    requires i < |s|
    ensures Count(s[i := x], p) == Count(s, p) - (if p(s[i]) then 1 else 0) + (if p(x) then 1 else 0)
    decreases |s|
  {
    if i == 0 {
      assert s[i := x][1..] == s[1..];
    } else {
      assert s[i := x][1..] == s[1..][i - 1 := x];
      CountUpdate(s[1..], i - 1, x, p);
    }
  }

  lemma {:induction false} CountPositive<T>(s: seq<T>, i: nat, p: T -> bool)
    requires i < |s| && p(s[i])
    ensures Count(s, p) > 0
    decreases |s|
  {
    if i > 0 { CountPositive(s[1..], i - 1, p); }
  }

  lemma {:induction false} CountZero<T>(s: seq<T>, p: T -> bool)
    requires forall i :: 0 <= i < |s| ==> !p(s[i])
    ensures Count(s, p) == 0
    decreases |s|
  {
    if s != [] { CountZero(s[1..], p); }
  }

  lemma {:induction false} FilterLength<T>(s: seq<T>, p: T -> bool)
    ensures |Filter(s, p)| == Count(s, p)
    decreases |s|
  {
    if s != [] { FilterLength(s[1..], p); }
  }

  /** An element that a filter keeps goes to the place given by the number of kept ones before it. */
  lemma {:induction false} FilterPosition<T>(s: seq<T>, p: T -> bool, i: nat)
    requires i < |s| && p(s[i])
    ensures Count(s[..i], p) < |Filter(s, p)| && Filter(s, p)[Count(s[..i], p)] == s[i]
  {
    var before, after := s[..i], s[i..];
    assert s == before + after;
    FilterConcat(before, after, p);
    FilterLength(before, p);
  }

  /** The positions of the elements with `p`. */
  function Positions<T>(s: seq<T>, p: T -> bool): set<nat> {
    set i: nat | i < |s| && p(s[i])
  }

  lemma {:induction false} CountIsPositions<T>(s: seq<T>, p: T -> bool)
    ensures |Positions(s, p)| == Count(s, p)
    decreases |s|
  {
    if s != [] {
      var before := Init(s);
      CountIsPositions(before, p);
      assert s == before + [Last(s)];
      CountAppend(before, Last(s), p);
      assert Positions(s, p) == Positions(before, p) + (if p(Last(s)) then {|before|} else {});
    }
  }

  /** `Array.prototype.map`. */
  function Map<T, U>(s: seq<T>, f: T -> U): (r: seq<U>)
    ensures |r| == |s| && forall i :: 0 <= i < |s| ==> r[i] == f(s[i])
  {
    seq(|s|, i requires 0 <= i < |s| => f(s[i]))
  }

  /** All parts of `parts` one after the other. */
  function Concat<T>(parts: seq<seq<T>>): seq<T> {
    if parts == [] then [] else parts[0] + Concat(parts[1..])
  }

  lemma {:induction false} ConcatAppend<T>(a: seq<seq<T>>, b: seq<seq<T>>)
    ensures Concat(a + b) == Concat(a) + Concat(b)
  {
    if a == [] {
      assert a + b == b;
    } else {
      assert (a + b)[1..] == a[1..] + b;
      ConcatAppend(a[1..], b);
    }
  }

  lemma ConcatOne<T>(a: seq<T>)
    ensures Concat([a]) == a
  {
    assert Concat([a]) == a + Concat<T>([]);
  }

  /** Part `i` is the slice of `r` between two of the places. */
  ghost predicate SliceAt<T>(r: seq<T>, parts: seq<seq<T>>, places: seq<nat>, i: nat) {
    && i < |parts| && i + 1 < |places|
    && places[i] <= places[i + 1] <= |r| && r[places[i]..places[i + 1]] == parts[i]
  }

  lemma SlicePrefix<T>(r: seq<T>, parts: seq<seq<T>>, places: seq<nat>)
    requires |places| == |parts| + 1 && parts != [] && forall i :: 0 <= i < |parts| ==> SliceAt(r, parts, places, i)
    ensures forall i :: 0 <= i < |parts| - 1 ==> SliceAt(r, Init(parts), Init(places), i)
  {
    forall i | 0 <= i < |parts| - 1 ensures SliceAt(r, Init(parts), Init(places), i) {
      assert SliceAt(r, parts, places, i);
    }
  }

  /** A list that is made of slices, one after the other. */
  lemma {:induction false} ConcatOfSlices<T>(r: seq<T>, parts: seq<seq<T>>, places: seq<nat>)
    requires |places| == |parts| + 1 && places[0] == 0
    requires forall i :: 0 <= i < |parts| ==> SliceAt(r, parts, places, i)
    ensures Last(places) <= |r| && r[..Last(places)] == Concat(parts)
    decreases |parts|
  {
    if parts != [] {
      var n := |parts| - 1;
      var before := Init(parts);
      SlicePrefix(r, parts, places);
      ConcatOfSlices(r, before, Init(places));
      assert SliceAt(r, parts, places, n);
      assert parts == before + [parts[n]];
      ConcatAppend(before, [parts[n]]);
      ConcatOne(parts[n]);
      assert r[..places[n + 1]] == r[..places[n]] + r[places[n]..places[n + 1]];
    }
  }

  lemma AnyOf<T>(s: set<T>) returns (x: T)
    requires s != {}
    ensures x in s
  {
    x :| x in s;
  }

  lemma {:induction false} LeastOf(ks: set<int>, k: int) returns (least: int)
    requires k in ks
    ensures least in ks && forall j :: j in ks ==> least <= j
    decreases |ks|
  {
    var rest := ks - {k};
    if j :| j in rest {
      var below := LeastOf(rest, j);
      assert forall i :: i in ks ==> i == k || i in rest;
      least := Min(k, below);
    } else {
      assert forall i :: i in ks && i != k ==> i in rest;
      least := k;
    }
  }

  lemma LeastExists(ks: set<int>)
    requires ks != {}
    ensures exists k :: k in ks && forall j :: j in ks ==> k <= j
  {
    var k := AnyOf(ks);
    var least := LeastOf(ks, k);
  }

  function LeastKey(ks: set<int>): (k: int)
    requires ks != {}
    ensures k in ks && forall j :: j in ks ==> k <= j
  {
    LeastExists(ks);
    var k :| k in ks && forall j :: j in ks ==> k <= j;
    k
  }

  /** The elements of a set in ascending order: `[...entries()].sort(([l], [r]) => l - r)`. */
  function SortedKeys(ks: set<int>): (r: seq<int>)
    ensures forall i :: 0 <= i < |r| ==> r[i] in ks
    decreases |ks|
  {
    if ks == {} then []
    else
      var least := LeastKey(ks);
      [least] + SortedKeys(ks - {least})
  }

  /** `keys` lists the set in ascending order. */
  ghost predicate ListsSorted(keys: seq<int>, ks: set<int>) {
    && (forall i, j :: 0 <= i < j < |keys| ==> keys[i] < keys[j])
    && (forall i :: 0 <= i < |keys| ==> keys[i] in ks)
    && (forall k :: k in ks ==> k in keys)
  }

  lemma SortedCons(least: int, rest: seq<int>, ks: set<int>)
    requires least in ks && (forall k :: k in ks ==> least <= k) && ListsSorted(rest, ks - {least})
    ensures ListsSorted([least] + rest, ks)
  {
    var keys := [least] + rest;
    forall k | k in ks ensures k in keys {
      if k != least { assert k in ks - {least}; }
    }
    forall j | 0 <= j < |rest| ensures least < rest[j] { assert rest[j] in ks - {least}; }
  }

  lemma {:induction false} SortedKeysAreSorted(ks: set<int>)
    ensures ListsSorted(SortedKeys(ks), ks)
    decreases |ks|
  {
    if ks != {} {
      var least := LeastKey(ks);
      SortedKeysAreSorted(ks - {least});
      SortedCons(least, SortedKeys(ks - {least}), ks);
    }
  }

  /** `Array.prototype.join`. */
  function Join(parts: seq<string>, sep: string): string {
    if parts == [] then ""
    else if |parts| == 1 then parts[0]
    else parts[0] + sep + Join(parts[1..], sep)
  }

  /** The characters `String.prototype.trim` removes: white space and line terminators. */
  predicate IsSpace(c: char) {
    || ('\t' <= c <= '\r')
    || c == ' '
    || c == '\U{00A0}'
    || c == '\U{1680}'
    || ('\U{2000}' <= c <= '\U{200A}')
    || c == '\U{2028}' || c == '\U{2029}' || c == '\U{202F}' || c == '\U{205F}'
    || c == '\U{3000}' || c == '\U{FEFF}'
  }

  function TrimStart(s: string): string {
    if s != "" && IsSpace(s[0]) then TrimStart(s[1..]) else s
  }

  function TrimEnd(s: string): string {
    if s != "" && IsSpace(Last(s)) then TrimEnd(Init(s)) else s
  }

  /** `String.prototype.trim`. */
  function Trim(s: string): string {
    TrimEnd(TrimStart(s))
  }

  ghost predicate AllSpace(s: string) {
    forall i :: 0 <= i < |s| ==> IsSpace(s[i])
  }

  /** `part` is `s` without its outer white space. */
  ghost predicate IsTrimmed(s: string, part: string) {
    exists i, j :: 0 <= i <= j <= |s| && TrimsTo(s, i, j) && part == s[i..j]
  }

  ghost predicate TrimsTo(s: string, i: nat, j: nat)
    requires i <= j <= |s|
  {
    AllSpace(s[..i]) && AllSpace(s[j..]) && (i < j ==> !IsSpace(s[i]) && !IsSpace(s[j - 1]))
  }

  lemma {:induction false} TrimStartCuts(s: string) returns (i: nat)
    ensures i <= |s| && TrimStart(s) == s[i..] && AllSpace(s[..i]) && (i < |s| ==> !IsSpace(s[i]))
  {
    i := 0;
    if s != "" && IsSpace(s[0]) {
      var n := TrimStartCuts(s[1..]);
      i := n + 1;
      assert forall k :: 0 < k < i ==> s[..i][k] == s[1..][..n][k - 1];
    }
  }

  lemma {:induction false} TrimEndCuts(s: string) returns (j: nat)
    ensures j <= |s| && TrimEnd(s) == s[..j] && AllSpace(s[j..]) && (j > 0 ==> !IsSpace(s[j - 1]))
    decreases |s|
  {
    j := |s|;
    if s != "" && IsSpace(Last(s)) {
      j := TrimEndCuts(Init(s));
      assert Init(s)[..j] == s[..j];
      assert forall k :: j <= k < |s| - 1 ==> s[k] == Init(s)[j..][k - j];
      assert forall k :: 0 <= k < |s[j..]| ==> IsSpace(s[j..][k]);
    }
  }

  lemma TrimIsTrimmed(s: string)
    ensures IsTrimmed(s, Trim(s))
    ensures Trim(s) == "" <==> AllSpace(s)
  {
    var i := TrimStartCuts(s);
    var n := TrimEndCuts(s[i..]);
    var j := i + n;
    assert s[i..][..n] == s[i..j] && s[i..][n..] == s[j..];
    if n == 0 {
      assert s == s[..i] + s[j..];
    } else {
      assert s[i..][n - 1] == s[j - 1];
    }
    assert TrimsTo(s, i, j);
  }

  /** `text` is the strings `parts` with `sep` between neighbours: with one more `sep` at its end it is every part
      followed by `sep`. */
  ghost predicate IsJoined(text: string, parts: seq<string>, sep: string) {
    if parts == [] then text == "" else text + sep == Concat(Map(parts, FollowedBy(sep)))
  }

  function FollowedBy(sep: string): string -> string {
    (part: string) => part + sep
  }

  lemma {:induction false} JoinJoins(parts: seq<string>, sep: string)
    ensures IsJoined(Join(parts, sep), parts, sep)
  {
    if parts != [] {
      var all := Map(parts, FollowedBy(sep));
      assert all[1..] == Map(parts[1..], FollowedBy(sep));
      JoinJoins(parts[1..], sep);
      if |parts| == 1 {
        assert all[0] + [] == parts[0] + sep;
      } else {
        ConcatAssociates(parts[0] + sep, Join(parts[1..], sep), sep);
      }
    }
  }
}
