/** Values shared by every module: options, results, Python's blank strings, and filtering. */
module Prelude {

  datatype Option<+T> = None | Some(value: T)

  datatype Result<+T, +E> = Ok(value: T) | Err(error: E) {
    predicate IsFailure() {
      Err?
    }

    function PropagateFailure<U>(): Result<U, E>
      requires Err?
    {
      Err(error)
    }

    function Extract(): T
      requires Ok?
    {
      value
    }
  }

  /** The characters that Python's str.strip removes. */
  predicate IsSpace(c: char) {
    var n := c as int;
    || 0x09 <= n <= 0x0D
    || 0x1C <= n <= 0x20
    || n == 0x85
    || n == 0xA0
    || n == 0x1680
    || 0x2000 <= n <= 0x200A
    || n == 0x2028 || n == 0x2029 || n == 0x202F || n == 0x205F || n == 0x3000
  }

  /** True when nothing is left after str.strip. */
  predicate IsBlank(s: string) {
    forall c | c in s :: IsSpace(c)
  }

  function StripStart(s: string): string {
    if s != "" && IsSpace(s[0]) then StripStart(s[1..]) else s
  }

  function StripEnd(s: string): string {
    if s != "" && IsSpace(s[|s| - 1]) then StripEnd(s[..|s| - 1]) else s
  }

  /** Python's str.strip. */
  function Strip(s: string): string {
    StripEnd(StripStart(s))
  }

  /** What is left is the text without the white space around it. */
  lemma StripMeaning(s: string) returns (before: string, after: string)
    ensures s == before + Strip(s) + after && IsBlank(before) && IsBlank(after)
    ensures Strip(s) != "" ==> !IsSpace(Strip(s)[0]) && !IsSpace(Strip(s)[|Strip(s)| - 1])
  {
    before := StripStartMeaning(s);
    after := StripEndMeaning(StripStart(s));
  }

  lemma {:induction false} StripStartMeaning(s: string) returns (before: string)
    ensures s == before + StripStart(s) && IsBlank(before)
    ensures StripStart(s) != "" ==> !IsSpace(StripStart(s)[0])
  {
    if s != "" && IsSpace(s[0]) {
      var rest := StripStartMeaning(s[1..]);
      before := [s[0]] + rest;
    } else {
      before := "";
    }
  }

  lemma {:induction false} StripEndMeaning(s: string) returns (after: string)
    ensures s == StripEnd(s) + after && IsBlank(after)
    ensures StripEnd(s) != "" ==> StripEnd(s)[0] == s[0] && !IsSpace(StripEnd(s)[|StripEnd(s)| - 1])
  {
    if s != "" && IsSpace(s[|s| - 1]) {
      var rest := StripEndMeaning(s[..|s| - 1]);
      after := rest + [s[|s| - 1]];
    } else {
      after := "";
    }
  }

  type Byte = b: int | 0 <= b < 256

  predicate StartsWith(s: string, prefix: string) {
    prefix <= s
  }

  /** The list comprehension [x for x in s if p(x)]. */
  function Filter<T(!new)>(p: T -> bool, s: seq<T>): (r: seq<T>)
    ensures forall x :: x in r <==> x in s && p(x)
  {
    if s == [] then [] else
      var rest := Filter(p, s[..|s| - 1]);
      var last := s[|s| - 1];
      assert s == s[..|s| - 1] + [last];
      if p(last) then rest + [last] else rest
  }

  /** Filtering keeps each element that passes, as often as it occurs. */
  lemma {:induction false} FilterCount<T(!new)>(p: T -> bool, s: seq<T>, x: T)
    ensures multiset(Filter(p, s))[x] == if p(x) then multiset(s)[x] else 0
  {
    if s != [] {
      FilterCount(p, s[..|s| - 1], x);
      assert s == s[..|s| - 1] + [s[|s| - 1]];
    }
  }

  lemma SameSize<T>(a: seq<T>, b: seq<T>)
    requires multiset(a) == multiset(b)
    ensures |a| == |b|
  {
    assert |multiset(a)| == |a| && |multiset(b)| == |b|;
  }

  lemma SomeMember<T>(s: seq<T>)
    ensures s != [] ==> exists x :: x in s
  {
    if s != [] {
      assert s[0] in s;
    }
  }

  lemma CountTwice<T>(s: seq<T>, i: nat, j: nat)
    requires i < j < |s| && s[i] == s[j]
    ensures multiset(s)[s[i]] >= 2
  {
    assert s == s[..j] + [s[j]] + s[j + 1..];
    assert s[i] in s[..j];
  }

  /** Filtering commutes with appending one element. */
  lemma FilterAppend<T(!new)>(p: T -> bool, s: seq<T>, x: T)
    ensures Filter(p, s + [x]) == if p(x) then Filter(p, s) + [x] else Filter(p, s)
  {
    assert (s + [x])[..|s|] == s;
  }

  /** Filtering twice is filtering by both tests. */
  lemma {:induction false} FilterFilter<T(!new)>(p: T -> bool, q: T -> bool, both: T -> bool, s: seq<T>)
    requires forall x :: both(x) == (p(x) && q(x))
    ensures Filter(q, Filter(p, s)) == Filter(both, s)
  {
    if s != [] {
      var init, last := s[..|s| - 1], s[|s| - 1];
      FilterFilter(p, q, both, init);
      FilterAppend(q, Filter(p, init), last);
    }
  }

  /** Position i is the last whose element passes. */
  ghost predicate LastPassing<T(!new)>(p: T -> bool, s: seq<T>, i: int)
    requires 0 <= i < |s|
  {
    p(s[i]) && forall j :: i < j < |s| ==> !p(s[j])
  }

  /** The last element that filtering keeps is the last that passes. */
  lemma {:induction false} FilterLast<T(!new)>(p: T -> bool, s: seq<T>)
    ensures var kept := Filter(p, s);
            kept != [] ==> exists i :: 0 <= i < |s| && LastPassing(p, s, i) && s[i] == kept[|kept| - 1]
  {
    if s != [] {
      var n := |s| - 1;
      var kept := Filter(p, s);
      if p(s[n]) {
        assert LastPassing(p, s, n);
      } else if kept != [] {
        FilterLast(p, s[..n]);
        var i :| 0 <= i < n && LastPassing(p, s[..n], i) && s[..n][i] == kept[|kept| - 1];
        LastPassingLonger(p, s, i);
      }
    }
  }

  lemma LastPassingLonger<T(!new)>(p: T -> bool, s: seq<T>, i: int)
    requires 0 <= i < |s| - 1 && LastPassing(p, s[..|s| - 1], i) && !p(s[|s| - 1])
    ensures LastPassing(p, s, i)
  {
    var init := s[..|s| - 1];
    forall j | i < j < |s| ensures !p(s[j]) {
      assert j < |init| ==> init[j] == s[j];
    }
  }

  lemma {:induction false} FilterNone<T(!new)>(p: T -> bool, s: seq<T>)
    requires forall j :: 0 <= j < |s| ==> !p(s[j])
    ensures Filter(p, s) == []
  {
    if s != [] {
      FilterNone(p, s[..|s| - 1]);
    }
  }

  /** If exactly one position passes, filtering returns that element alone. */
  lemma {:induction false} FilterOne<T(!new)>(p: T -> bool, s: seq<T>, i: nat)
    requires i < |s| && forall j :: 0 <= j < |s| ==> (p(s[j]) <==> j == i)
    ensures Filter(p, s) == [s[i]]
  {
    var init := s[..|s| - 1];
    if i == |s| - 1 {
      FilterNone(p, init);
    } else {
      FilterOne(p, init, i);
    }
  }
}
