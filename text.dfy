/**
 The few java.lang.String operations the relay relies on, over `string`
 (a sequence of Unicode scalar values, where Java counts UTF-16 code
 units): `trim`, ASCII-only
 `toUpperCase` / `equalsIgnoreCase`, `startsWith`, `split` with a
 one-character separator and a positive limit, and `String.join`.
 */
module Text {

  /** `String.trim` removes every char whose code is at most U+0020. */
  predicate IsTrimmable(c: char) {
    c <= ' '
  }

  /** Nothing removable at either end. */
  predicate IsTrimmed(s: string) {
    s == [] || (!IsTrimmable(s[0]) && !IsTrimmable(s[|s| - 1]))
  }

  /** Strips the trailing run of trimmable chars: the result is a prefix of `s`. */
  function TrimEnd(s: string): (r: string)
    ensures |r| <= |s| && r == s[..|r|]
    ensures forall i :: |r| <= i < |s| ==> IsTrimmable(s[i])
    ensures r == [] || !IsTrimmable(r[|r| - 1])
  {
    if s != [] && IsTrimmable(s[|s| - 1]) then TrimEnd(s[..|s| - 1]) else s
  }

  /** `r` occurs in `s` starting at index `i`. */
  predicate OccursAt(r: string, s: string, i: nat) {
    i + |r| <= |s| && r == s[i..i + |r|]
  }

  /** `String.trim`: the middle of `s` once both trimmable runs are gone. */
  function Trim(s: string): (r: string)
    ensures IsTrimmed(r)
    ensures IsTrimmed(s) ==> r == s
  {
    if s != [] && IsTrimmable(s[0]) then Trim(s[1..]) else TrimEnd(s)
  }

  /**
   `r` is what is left of `s` once a trimmable prefix of length `i` and a
   trimmable suffix are cut off.
   */
  predicate CutsAt(s: string, r: string, i: nat) {
    OccursAt(r, s, i) &&
    (forall k :: 0 <= k < i ==> IsTrimmable(s[k])) &&
    (forall k :: i + |r| <= k < |s| ==> IsTrimmable(s[k]))
  }

  /**
   Trimming removes exactly the leading and the trailing run of trimmable
   chars, and nothing in between. Together with `IsTrimmed(Trim(s))` this
   fixes the result (`TrimIsUnique`).
   */
  lemma {:induction false} TrimIsInfix(s: string)
    ensures exists i: nat :: CutsAt(s, Trim(s), i)
  {
    if s != [] && IsTrimmable(s[0]) {
      TrimIsInfix(s[1..]);
      var i: nat :| CutsAt(s[1..], Trim(s[1..]), i);
      CutsAtShift(s, Trim(s[1..]), i);
      assert CutsAt(s, Trim(s), i + 1);
    } else {
      assert CutsAt(s, Trim(s), 0);
    }
  }

  /** A cut of `s[1..]` is a cut of `s` one further on, when `s[0]` is trimmable. */
  lemma CutsAtShift(s: string, r: string, i: nat)
    requires s != [] && IsTrimmable(s[0]) && CutsAt(s[1..], r, i)
    ensures CutsAt(s, r, i + 1)
  {
    var t := s[1..];
    assert r == s[i + 1..i + 1 + |r|] by {
      assert t[i..i + |r|] == s[i + 1..i + 1 + |r|];
    }
    forall k | 0 <= k < i + 1
      ensures IsTrimmable(s[k])
    {
      if k > 0 {
        assert s[k] == t[k - 1];
      }
    }
    forall k | i + 1 + |r| <= k < |s|
      ensures IsTrimmable(s[k])
    {
      assert s[k] == t[k - 1];
    }
  }

  /** Trimming is determined: a trimmed piece cut out of blank ends is the trim. */
  lemma {:induction false} TrimIsUnique(s: string, r: string, i: nat)
    requires IsTrimmed(r) && CutsAt(s, r, i)
    ensures Trim(s) == r
  {
    if s != [] && IsTrimmable(s[0]) {
      var t := s[1..];
      if i == 0 {
        assert r == [];
        TrimIsUnique(t, r, 0);
      } else {
        assert r == t[i - 1..i - 1 + |r|];
        TrimIsUnique(t, r, i - 1);
      }
    } else if s != [] {
      assert i == 0 && r != [];
      TrimEndIsUnique(s, |r|);
    }
  }

  /** The prefix of length `n` with a non-trimmable last char and a blank tail after it is `TrimEnd`. */
  lemma TrimEndIsUnique(s: string, n: nat)
    requires 0 < n <= |s| && !IsTrimmable(s[n - 1])
    requires forall k :: n <= k < |s| ==> IsTrimmable(s[k])
    ensures TrimEnd(s) == s[..n]
  {
  }

  /** Blanks go at both ends; the inner ones stay. */
  lemma TrimBothEnds()
    ensures Trim(" \t a b\n") == "a b"
  {
    TrimIsUnique(" \t a b\n", "a b", 3);
  }

  /** ASCII case folding: 'a'..'z' become 'A'..'Z', everything else is kept. */
  function UpperChar(c: char): char {
    if 'a' <= c <= 'z' then (c as int - 32) as char else c
  }

  /** `String.toUpperCase`, restricted to ASCII letters. */
  function ToUpper(s: string): (r: string)
    ensures |r| == |s|
  {
    if s == [] then [] else [UpperChar(s[0])] + ToUpper(s[1..])
  }

  /** Upper-casing works char by char. */
  lemma {:induction false} ToUpperAt(s: string, i: nat)
    requires i < |s|
    ensures ToUpper(s)[i] == UpperChar(s[i])
  {
    if i > 0 {
      ToUpperAt(s[1..], i - 1);
    }
  }

  /** `String.equalsIgnoreCase`, restricted to ASCII letters. */
  predicate EqualsIgnoreCase(a: string, b: string) {
    |a| == |b| && forall i :: 0 <= i < |a| ==> UpperChar(a[i]) == UpperChar(b[i])
  }

  /** Comparing ignoring case is comparing the upper-cased strings. */
  lemma EqualsIgnoreCaseIsUpperEquality(a: string, b: string)
    ensures EqualsIgnoreCase(a, b) <==> ToUpper(a) == ToUpper(b)
  {
    if ToUpper(a) == ToUpper(b) {
      forall i | 0 <= i < |a| ensures UpperChar(a[i]) == UpperChar(b[i]) {
        ToUpperAt(a, i);
        ToUpperAt(b, i);
      }
    }
    if EqualsIgnoreCase(a, b) {
      forall i | 0 <= i < |a| ensures ToUpper(a)[i] == ToUpper(b)[i] {
        ToUpperAt(a, i);
        ToUpperAt(b, i);
      }
    }
  }

  /** Concatenation is associative. */
  lemma AppendAssoc(a: string, b: string, c: string)
    ensures a + (b + c) == a + b + c
  {
  }

  /** `String.startsWith`. */
  predicate StartsWith(s: string, prefix: string) {
    |prefix| <= |s| && s[..|prefix|] == prefix
  }

  /** Index of the first occurrence of `c` (`String.indexOf` when `c` occurs). */
  function IndexOf(s: string, c: char): (i: nat)
    requires c in s
    ensures i < |s| && s[i] == c
    ensures forall k :: 0 <= k < i ==> s[k] != c
  {
    if s[0] == c then 0 else 1 + IndexOf(s[1..], c)
  }

  /** `String.join(sep, parts)`: the parts with `sep` between neighbours. */
  function Join(parts: seq<string>, sep: string): string {
    if |parts| == 0 then []
    else if |parts| == 1 then parts[0]
    else parts[0] + sep + Join(parts[1..], sep)
  }

  /** Two parts are joined by one separator. */
  lemma JoinTwo(a: string, b: string, sep: string)
    ensures Join([a, b], sep) == a + sep + b
  {
    assert [a, b][1..] == [b];
  }

  /**
   `s.split(sep, limit)` for a one-character separator that is not a regular
   expression metacharacter and a positive limit: `s` is cut at its first
   `limit - 1` separators, the last part keeps everything after them, and
   empty parts are kept. Without a separator the result is `[s]`.
   */
  function Split(s: string, sep: char, limit: nat): (parts: seq<string>)
    requires limit >= 1
    ensures 1 <= |parts| <= limit
    ensures Join(parts, [sep]) == s
    ensures forall k :: 0 <= k < |parts| - 1 ==> sep !in parts[k]
    ensures |parts| < limit ==> sep !in parts[|parts| - 1]
    decreases limit
  {
    if limit == 1 || sep !in s then [s]
    else
      var i := IndexOf(s, sep);
      var rest := Split(s[i + 1..], sep, limit - 1);
      SplitCons(s, sep, limit, i, rest);
      var parts := [s[..i]] + rest;
      parts
  }

  /** Cutting at the first separator and splitting the rest with one part fewer is a split. */
  lemma SplitCons(s: string, sep: char, limit: nat, i: nat, rest: seq<string>)
    requires limit >= 2 && i < |s| && s[i] == sep && forall k :: 0 <= k < i ==> s[k] != sep
    requires 1 <= |rest| <= limit - 1 && Join(rest, [sep]) == s[i + 1..]
    requires forall k :: 0 <= k < |rest| - 1 ==> sep !in rest[k]
    requires |rest| < limit - 1 ==> sep !in rest[|rest| - 1]
    ensures var parts := [s[..i]] + rest;
      1 <= |parts| <= limit && Join(parts, [sep]) == s &&
      (forall k :: 0 <= k < |parts| - 1 ==> sep !in parts[k]) &&
      (|parts| < limit ==> sep !in parts[|parts| - 1])
  {
    var parts := [s[..i]] + rest;
    assert parts[1..] == rest;
    assert s == s[..i] + [sep] + s[i + 1..];
    assert sep !in s[..i] by {
      forall k | 0 <= k < i ensures s[..i][k] != sep { }
    }
    forall k | 1 <= k < |parts| - 1
      ensures sep !in parts[k]
    {
      assert parts[k] == rest[k - 1];
    }
  }

  /** A split into two parts cuts at the first separator. */
  lemma SplitInTwo(s: string, sep: char)
    requires |Split(s, sep, 2)| == 2
    ensures var parts := Split(s, sep, 2);
      sep !in parts[0] && s == parts[0] + [sep] + parts[1]
  {
    var parts := Split(s, sep, 2);
    JoinTwo(parts[0], parts[1], [sep]);
  }

  /** A separator-free head followed by the separator is the first part of the split. */
  lemma {:induction false} SplitAtFirst(head: string, sep: char, tail: string, limit: nat)
    requires limit >= 2 && sep !in head
    ensures Split(head + [sep] + tail, sep, limit) == [head] + Split(tail, sep, limit - 1)
  {
    var s := head + [sep] + tail;
    assert s[|head|] == sep;
    var i := IndexOf(s, sep);
    assert i == |head|;
    assert s[..i] == head;
    assert s[i + 1..] == tail;
  }
}
