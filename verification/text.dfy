/** The string operations that the table code relies on: Python's `sub in s`,
    the upper-casing pandas applies for a case-insensitive `str.contains`, and
    `str.split(",")` together with its inverse `",".join`. */
module Text {
  import opened Sequences

  /** True when `sub` occurs in `s` starting at position `i`. */
  predicate OccursAt(s: string, sub: string, i: nat)
  {
    i + |sub| <= |s| && s[i..i + |sub|] == sub
  }

  /** True when `sub` occurs as a contiguous piece of `s`. */
  predicate Contains(s: string, sub: string)
  {
    exists i: nat :: i <= |s| && OccursAt(s, sub, i)
  }

  /** Upper-cases one ASCII letter and leaves every other character alone. */
  function UpperChar(c: char): char
  {
    if 'a' <= c <= 'z' then (c as int - 32) as char else c
  }

  function Upper(s: string): string
  {
    Map(s, UpperChar)
  }

  /** `str.contains(sub, case=False, regex=False)`: both sides are upper-cased
      before the substring test. */
  predicate ContainsIgnoringCase(s: string, sub: string)
  {
    Contains(Upper(s), Upper(sub))
  }

  /** Every string contains the empty string, whatever its case. */
  lemma EmptyIsContained(s: string)
    ensures Contains(s, "") && ContainsIgnoringCase(s, "")
  {
    assert OccursAt(s, "", 0);
    assert OccursAt(Upper(s), Upper(""), 0);
  }

  /** Upper-casing commutes with taking a slice. */
  lemma UpperSlice(s: string, i: nat, j: nat)
    requires i <= j <= |s|
    ensures Upper(s)[i..j] == Upper(s[i..j])
  {
  }

  /** A case-sensitive occurrence is also a case-insensitive one. */
  lemma ContainsIgnoringCaseIsWeaker(s: string, sub: string)
    requires Contains(s, sub)
    ensures ContainsIgnoringCase(s, sub)
  {
    var i: nat :| i <= |s| && OccursAt(s, sub, i);
    UpperSlice(s, i, i + |sub|);
    assert OccursAt(Upper(s), Upper(sub), i);
  }

  /** A case-insensitive search gives the same answer for a query and its
      upper-case form. */
  lemma QueryCaseIsIrrelevant(s: string, sub: string)
    ensures ContainsIgnoringCase(s, Upper(sub)) == ContainsIgnoringCase(s, sub)
  {
    assert Upper(Upper(sub)) == Upper(sub);
  }

  /** `s.split(d)`: the pieces between delimiters, empty pieces included; an
      empty string gives one empty piece. */
  function Split(s: string, d: char): (parts: seq<string>)
    ensures |parts| >= 1
    ensures forall k :: 0 <= k < |parts| ==> d !in parts[k]
  {
    if s == [] then [""]
    else
      var rest := Split(s[1..], d);
      if s[0] == d then [""] + rest else [[s[0]] + rest[0]] + rest[1..]
  }

  /** `d.join(parts)`. */
  function Join(parts: seq<string>, d: char): string
    requires |parts| >= 1
  {
    if |parts| == 1 then parts[0] else parts[0] + [d] + Join(parts[1..], d)
  }

  /** Joining the pieces of a split gives back the original string. */
  lemma {:induction false} JoinSplit(s: string, d: char)
    ensures Join(Split(s, d), d) == s
  {
    if s != [] {
      var rest := Split(s[1..], d);
      JoinSplit(s[1..], d);
      if s[0] == d {
        assert Split(s, d)[1..] == rest;
      } else {
        var parts := Split(s, d);
        assert parts[1..] == rest[1..];
        if |rest| > 1 {
          assert rest == [rest[0]] + rest[1..];
        }
      }
    }
  }

  /** A string without the delimiter splits into itself. */
  lemma {:induction false} SplitWithoutDelimiter(t: string, d: char)
    requires d !in t
    ensures Split(t, d) == [t]
  {
    if t != [] {
      SplitWithoutDelimiter(t[1..], d);
      assert [t[0]] + t[1..] == t;
    }
  }

  /** Splitting `t` + delimiter + `u` gives `t` followed by the pieces of `u`. */
  lemma {:induction false} SplitAtDelimiter(t: string, u: string, d: char)
    requires d !in t
    ensures Split(t + [d] + u, d) == [t] + Split(u, d)
  {
    var s := t + [d] + u;
    if t == [] {
      assert s[1..] == u;
    } else {
      assert s[1..] == t[1..] + [d] + u;
      SplitAtDelimiter(t[1..], u, d);
      assert [t[0]] + t[1..] == t;
    }
  }

  /** Splitting a join of delimiter-free pieces gives the pieces back. */
  lemma {:induction false} SplitJoin(parts: seq<string>, d: char)
    requires |parts| >= 1
    requires forall k :: 0 <= k < |parts| ==> d !in parts[k]
    ensures Split(Join(parts, d), d) == parts
  {
    if |parts| == 1 {
      SplitWithoutDelimiter(parts[0], d);
    } else {
      SplitJoin(parts[1..], d);
      SplitAtDelimiter(parts[0], Join(parts[1..], d), d);
      assert [parts[0]] + parts[1..] == parts;
    }
  }
}
