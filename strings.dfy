/** The few string operations of Python's `str` that the bot relies on. */
module Strings {
  import opened Wrappers

  /** Python truthiness of an optional string: neither `None` nor `""`. */
  predicate Truthy(s: Option<string>)
  {
    s.Some? && s.value != ""
  }

  /** The characters `str.strip()` removes: those for which `str.isspace()` holds. */
  predicate IsSpace(c: char)
  {
    || c == ' ' || '\t' <= c <= '\r' || '\U{1C}' <= c <= '\U{1F}'
    || c == '\U{85}' || c == '\U{A0}' || c == '\U{1680}'
    || '\U{2000}' <= c <= '\U{200A}' || c == '\U{2028}' || c == '\U{2029}'
    || c == '\U{202F}' || c == '\U{205F}' || c == '\U{3000}'
  }

  /** `not s.strip()`: the string is empty or holds whitespace only. */
  predicate Blank(s: string)
    ensures s == "" ==> Blank(s)
  {
    forall i :: 0 <= i < |s| ==> IsSpace(s[i])
  }

  function LowerChar(c: char): char
  {
    if 'A' <= c <= 'Z' then (c as int + 32) as char else c
  }

  /** `s.lower()`, on ASCII letters. */
  function Lower(s: string): (r: string)
    ensures |r| == |s|
    ensures forall i :: 0 <= i < |s| ==> r[i] == LowerChar(s[i])
  {
    if s == [] then [] else [LowerChar(s[0])] + Lower(s[1..])
  }

  /** `sep.join(xs)`. */
  function Join(xs: seq<string>, sep: string): string
  {
    if |xs| == 0 then ""
    else if |xs| == 1 then xs[0]
    else xs[0] + sep + Join(xs[1..], sep)
  }

  /** Where the `i`-th element starts inside `Join(xs, sep)`. */
  function Offset(xs: seq<string>, sep: string, i: nat): nat
    requires i <= |xs|
  {
    if i == 0 then 0 else |xs[0]| + |sep| + Offset(xs[1..], sep, i - 1)
  }

  /**
   * `Join` lays the elements out in order: element `i` sits at `Offset(xs, sep, i)`,
   * so no element is dropped, merged or reordered (duplicates included).
   */
  lemma {:induction false} JoinAt(xs: seq<string>, sep: string, i: nat)
    requires i < |xs|
    ensures Offset(xs, sep, i) + |xs[i]| <= |Join(xs, sep)|
    ensures Join(xs, sep)[Offset(xs, sep, i)..Offset(xs, sep, i) + |xs[i]|] == xs[i]
  {
    var j := Join(xs, sep);
    if |xs| > 1 {
      var tail := xs[1..];
      var rest := Join(tail, sep);
      var k := |xs[0]| + |sep|;
      assert j == xs[0] + sep + rest;
      if i == 0 {
        assert j[..|xs[0]|] == xs[0];
      } else {
        JoinAt(tail, sep, i - 1);
        var at := Offset(tail, sep, i - 1);
        assert Offset(xs, sep, i) == k + at;
        assert tail[i - 1] == xs[i];
        SliceAfter(xs[0] + sep, rest, at, at + |xs[i]|);
      }
    }
  }

  /** Between element `i` and element `i + 1` of `Join` stands exactly the separator. */
  lemma {:induction false} JoinGap(xs: seq<string>, sep: string, i: nat)
    requires i + 1 < |xs|
    ensures Offset(xs, sep, i + 1) == Offset(xs, sep, i) + |xs[i]| + |sep|
    ensures Offset(xs, sep, i + 1) <= |Join(xs, sep)|
    ensures Join(xs, sep)[Offset(xs, sep, i) + |xs[i]|..Offset(xs, sep, i + 1)] == sep
  {
    var j := Join(xs, sep);
    var tail := xs[1..];
    var rest := Join(tail, sep);
    var k := |xs[0]| + |sep|;
    assert j == xs[0] + sep + rest;
    if i == 0 {
      SliceOfMiddle(xs[0], sep, rest, 0, |sep|);
      assert sep[0..|sep|] == sep;
    } else {
      JoinGap(tail, sep, i - 1);
      var at := Offset(tail, sep, i - 1);
      var next := Offset(tail, sep, i);
      assert Offset(xs, sep, i) == k + at;
      assert Offset(xs, sep, i + 1) == k + next;
      assert tail[i - 1] == xs[i];
      SliceAfter(xs[0] + sep, rest, at + |xs[i]|, next);
    }
  }

  /** The last element closes `Join`: nothing follows it. */
  lemma {:induction false} JoinEnd(xs: seq<string>, sep: string)
    requires |xs| > 0
    ensures Offset(xs, sep, |xs| - 1) + |xs[|xs| - 1]| == |Join(xs, sep)|
  {
    if |xs| > 1 {
      var tail := xs[1..];
      JoinEnd(tail, sep);
      assert Join(xs, sep) == xs[0] + sep + Join(tail, sep);
      assert Offset(xs, sep, |xs| - 1) == |xs[0]| + |sep| + Offset(tail, sep, |tail| - 1);
      assert tail[|tail| - 1] == xs[|xs| - 1];
    }
  }

  /** A slice of the second part of `a + b`. */
  lemma SliceAfter(a: string, b: string, x: nat, y: nat)
    requires x <= y <= |b|
    ensures (a + b)[|a| + x..|a| + y] == b[x..y]
  {
    var t := a + b;
    forall k | 0 <= k < y - x ensures t[|a| + x..|a| + y][k] == b[x..y][k] {
      assert t[|a| + x + k] == b[x + k];
    }
  }

  /** A slice of the middle part of `a + b + c`. */
  lemma SliceOfMiddle(a: string, b: string, c: string, x: nat, y: nat)
    requires x <= y <= |b|
    ensures (a + b + c)[|a| + x..|a| + y] == b[x..y]
  {
    var t := a + b + c;
    assert forall k :: |a| + x <= k < |a| + y ==> t[k] == b[k - |a|];
  }

  /** `JoinAt` inside a text that frames the joined elements. */
  lemma FramedAt(prefix: string, xs: seq<string>, sep: string, suffix: string, i: nat)
    requires i < |xs|
    ensures |prefix| + Offset(xs, sep, i) + |xs[i]| <= |prefix + Join(xs, sep) + suffix|
    ensures (prefix + Join(xs, sep) + suffix)[|prefix| + Offset(xs, sep, i)..|prefix| + Offset(xs, sep, i) + |xs[i]|] == xs[i]
  {
    JoinAt(xs, sep, i);
    SliceOfMiddle(prefix, Join(xs, sep), suffix, Offset(xs, sep, i), Offset(xs, sep, i) + |xs[i]|);
  }

  /** `JoinGap` inside a text that frames the joined elements. */
  lemma FramedGap(prefix: string, xs: seq<string>, sep: string, suffix: string, i: nat)
    requires i + 1 < |xs|
    ensures |prefix| + Offset(xs, sep, i) + |xs[i]| + |sep| <= |prefix + Join(xs, sep) + suffix|
    ensures (prefix + Join(xs, sep) + suffix)[|prefix| + Offset(xs, sep, i) + |xs[i]|..|prefix| + Offset(xs, sep, i) + |xs[i]| + |sep|] == sep
  {
    JoinGap(xs, sep, i);
    SliceOfMiddle(prefix, Join(xs, sep), suffix, Offset(xs, sep, i) + |xs[i]|, Offset(xs, sep, i + 1));
  }

  /** `JoinEnd` inside a text that frames the joined elements: the suffix follows the last one. */
  lemma FramedEnd(prefix: string, xs: seq<string>, sep: string, suffix: string)
    requires |xs| > 0
    ensures |prefix| + Offset(xs, sep, |xs| - 1) + |xs[|xs| - 1]| + |suffix| == |prefix + Join(xs, sep) + suffix|
    ensures (prefix + Join(xs, sep) + suffix)[|prefix| + Offset(xs, sep, |xs| - 1) + |xs[|xs| - 1]|..] == suffix
  {
    JoinEnd(xs, sep);
    var t := prefix + Join(xs, sep) + suffix;
    assert t[|prefix| + |Join(xs, sep)|..] == suffix;
  }

  /** `Join` of a list with one more element: the separator and the element follow the old text. */
  lemma {:induction false} JoinPush(xs: seq<string>, sep: string, x: string)
    ensures Join(xs + [x], sep) == if xs == [] then x else Join(xs, sep) + sep + x
  {
    if xs != [] {
      var ys := xs + [x];
      assert ys[0] == xs[0];
      if |xs| == 1 {
        assert ys[1..] == [x];
      } else {
        assert ys[1..] == xs[1..] + [x];
        JoinPush(xs[1..], sep, x);
        assert Join(ys, sep) == xs[0] + sep + (Join(xs[1..], sep) + sep + x);
      }
    }
  }

  /** Concatenating one more piece after a prefix and the pieces so far. */
  lemma ConcatPush(prefix: string, xs: seq<string>, x: string)
    ensures prefix + Join(xs + [x], "") == prefix + Join(xs, "") + x
  {
    JoinPush(xs, "", x);
    if xs != [] {
      assert Join(xs, "") + "" + x == Join(xs, "") + x;
    }
  }

  /** `x` stands in `t` from position `at` on. */
  predicate Occurs(t: string, at: nat, x: string)
  {
    at + |x| <= |t| && t[at..at + |x|] == x
  }

  /** `JoinAt` after a prefix. */
  lemma PrefixedAt(prefix: string, xs: seq<string>, sep: string, i: nat)
    requires i < |xs|
    ensures Occurs(prefix + Join(xs, sep), |prefix| + Offset(xs, sep, i), xs[i])
  {
    FramedAt(prefix, xs, sep, "", i);
    assert prefix + Join(xs, sep) + "" == prefix + Join(xs, sep);
  }

  /** Appending five pieces one by one is appending their concatenation. */
  lemma Regroup(x: string, a: string, b: string, c: string, d: string, e: string)
    ensures x + a + b + c + d + e == x + (a + b + c + d + e)
  {
  }
}
