/** The few JavaScript string operations the components rely on:
    `toLowerCase`, `includes` and `split` with a one-character separator. */
module Text {

  /** ASCII lower-casing of one character; every other character is kept. */
  function LowerChar(c: char): char {
    if 'A' <= c <= 'Z' then (c as int + 32) as char else c
  }

  /** `s.toLowerCase()`, restricted to ASCII letters. */
  function ToLower(s: string): (r: string)
    ensures |r| == |s|
    ensures forall i :: 0 <= i < |s| ==> r[i] == LowerChar(s[i])
  {
    seq(|s|, i requires 0 <= i < |s| => LowerChar(s[i]))
  }

  /** Two strings that differ at most in the case of ASCII letters. */
  predicate EqualIgnoringCase(a: string, b: string) {
    |a| == |b| &&
    forall i :: 0 <= i < |a| ==>
      a[i] == b[i] || ('A' <= a[i] <= 'Z' && b[i] as int == a[i] as int + 32)
                   || ('A' <= b[i] <= 'Z' && a[i] as int == b[i] as int + 32)
  }

  /** Strings equal up to ASCII case have the same lower-case form, so any
      test on the lower-case form cannot tell them apart. */
  lemma EqualIgnoringCaseLower(a: string, b: string)
    requires EqualIgnoringCase(a, b)
    ensures ToLower(a) == ToLower(b)
  {
    forall i | 0 <= i < |a|
      ensures ToLower(a)[i] == ToLower(b)[i]
    {
      assert a[i] == b[i] || ('A' <= a[i] <= 'Z' && b[i] as int == a[i] as int + 32)
                          || ('A' <= b[i] <= 'Z' && a[i] as int == b[i] as int + 32);
    }
  }

  predicate StartsWith(s: string, prefix: string) {
    |prefix| <= |s| && s[..|prefix|] == prefix
  }

  /** `s.includes(sub)`: some position of `s` starts with `sub`. The empty
      string is contained in every string, including the empty one. */
  predicate Contains(s: string, sub: string)
    decreases |s|
  {
    StartsWith(s, sub) || (|s| > 0 && Contains(s[1..], sub))
  }

  /** `sub` occurs in `s` at position `i`. */
  predicate OccursAt(s: string, sub: string, i: int) {
    0 <= i && i + |sub| <= |s| && s[i..i + |sub|] == sub
  }

  /** `Contains` is exactly "occurs at some position". */
  lemma {:induction false} ContainsIff(s: string, sub: string)
    ensures Contains(s, sub) <==> exists i :: OccursAt(s, sub, i)
    decreases |s|
  {
    if Contains(s, sub) {
      if StartsWith(s, sub) {
        assert OccursAt(s, sub, 0);
      } else {
        ContainsIff(s[1..], sub);
        var j :| OccursAt(s[1..], sub, j);
        assert s[1..][j..j + |sub|] == s[j + 1..j + 1 + |sub|];
        assert OccursAt(s, sub, j + 1);
      }
    }
    if exists i :: OccursAt(s, sub, i) {
      var i :| OccursAt(s, sub, i);
      if i == 0 {
        assert StartsWith(s, sub);
      } else {
        assert s[1..][i - 1..i - 1 + |sub|] == s[i..i + |sub|];
        assert OccursAt(s[1..], sub, i - 1);
        ContainsIff(s[1..], sub);
      }
    }
  }

  /** An occurrence at a known position witnesses `Contains`. */
  lemma ContainsAt(s: string, sub: string, i: int)
    requires OccursAt(s, sub, i)
    ensures Contains(s, sub)
  {
    ContainsIff(s, sub);
  }

  /** Every character of a contained string occurs in the containing one;
      a missing character therefore rules a keyword out. */
  lemma ContainsChars(s: string, sub: string, c: char)
    requires Contains(s, sub) && c in sub
    ensures c in s
  {
    ContainsIff(s, sub);
    var i :| OccursAt(s, sub, i);
    var k :| 0 <= k < |sub| && sub[k] == c;
    assert s[i + k] == s[i..i + |sub|][k];
  }

  /** A string missing one of the characters of `sub` does not contain it. */
  lemma MissingChar(s: string, sub: string, c: char)
    requires c in sub && c !in s
    ensures !Contains(s, sub)
  {
    if Contains(s, sub) {
      ContainsChars(s, sub, c);
    }
  }

  /** An occurrence of a lower-case word survives lower-casing. */
  lemma LowerOccurrence(s: string, sub: string, i: int)
    requires OccursAt(s, sub, i) && ToLower(sub) == sub
    ensures Contains(ToLower(s), sub)
  {
    var t := ToLower(s);
    forall k | 0 <= k < |sub|
      ensures t[i + k] == sub[k]
    {
      assert s[i + k] == s[i..i + |sub|][k];
      assert LowerChar(sub[k]) == ToLower(sub)[k];
    }
    assert t[i..i + |sub|] == sub;
    ContainsAt(t, sub, i);
  }

  /** A lower-case letter of `sub` that `s` holds in neither case keeps
      `sub` out of the lower-cased `s`. */
  lemma MissingLetter(s: string, sub: string, c: char)
    requires 'a' <= c <= 'z' && c in sub
    requires c !in s && (c as int - 32) as char !in s
    ensures !Contains(ToLower(s), sub)
  {
    forall i | 0 <= i < |s|
      ensures ToLower(s)[i] != c
    {
      assert s[i] != c && s[i] != (c as int - 32) as char;
    }
    MissingChar(ToLower(s), sub, c);
  }

  /** Inverse of `Split`: the parts glued back together with the separator. */
  function Join(parts: seq<string>, sep: char): string {
    if |parts| == 0 then ""
    else if |parts| == 1 then parts[0]
    else parts[0] + [sep] + Join(parts[1..], sep)
  }

  /** `s.split(sep)` for a one-character separator: the maximal runs of
      non-separator characters between separators, in order. Splitting the
      empty string gives one empty part, as in JavaScript. */
  function Split(s: string, sep: char): (parts: seq<string>)
    ensures |parts| >= 1
    ensures forall k :: 0 <= k < |parts| ==> sep !in parts[k]
    ensures Join(parts, sep) == s
    ensures |parts| == 1 <==> sep !in s
    decreases |s|
  {
    if |s| == 0 then [""]
    else
      var rest := Split(s[1..], sep);
      if s[0] == sep then [""] + rest
      else
        assert Join([[s[0]] + rest[0]] + rest[1..], sep) == [s[0]] + Join(rest, sep) by {
          if |rest| > 1 {
            assert ([[s[0]] + rest[0]] + rest[1..])[1..] == rest[1..];
          }
        }
        assert s == [s[0]] + s[1..];
        [[s[0]] + rest[0]] + rest[1..]
  }

  function Last<T>(s: seq<T>): T
    requires |s| > 0
  {
    s[|s| - 1]
  }

  /** When `s` starts with a separator or its tail holds one, the last part
      of `s` is the last part of its tail. */
  lemma {:induction false} SplitLastAfterSeparator(s: string, sep: char)
    requires |s| > 0 && (s[0] == sep || sep in s[1..])
    ensures Last(Split(s, sep)) == Last(Split(s[1..], sep))
  {
    if s[0] == sep {
      SplitLeadingSeparator(s, sep);
    } else {
      SplitLeadingPart(s, sep);
    }
  }

  lemma {:induction false} SplitLeadingSeparator(s: string, sep: char)
    requires |s| > 0 && s[0] == sep
    ensures Split(s, sep) == [""] + Split(s[1..], sep)
  {
  }

  lemma {:induction false} SplitLeadingPart(s: string, sep: char)
    requires |s| > 0 && s[0] != sep && sep in s[1..]
    ensures |Split(s[1..], sep)| > 1
    ensures Last(Split(s, sep)) == Last(Split(s[1..], sep))
  {
    var rest := Split(s[1..], sep);
    var parts := [[s[0]] + rest[0]] + rest[1..];
    assert Split(s, sep) == parts;
    assert |rest| != 1;
    assert |parts| == |rest| && parts[|parts| - 1] == rest[|rest| - 1];
  }

  /** A string without a separator is its own last part. */
  lemma {:induction false} SplitLastWhole(s: string, sep: char)
    requires |s| > 0 && s[0] != sep && sep !in s[1..]
    ensures Last(Split(s, sep)) == s
  {
    var rest := Split(s[1..], sep);
    assert |rest| == 1;
    assert rest[0] == Join(rest, sep) == s[1..];
    assert Split(s, sep) == [[s[0]] + s[1..]];
    assert s == [s[0]] + s[1..];
  }

  /** `r` is the longest separator-free suffix of `s`. */
  predicate IsLastSegment(s: string, r: string, sep: char) {
    |r| <= |s| && s[|s| - |r|..] == r &&
    (|r| == |s| <==> sep !in s) &&
    (|r| < |s| ==> s[|s| - |r| - 1] == sep)
  }

  /** The longest separator-free suffix of the tail is also that of the
      whole string once the string holds a separator. */
  lemma SegmentOfTail(s: string, r: string, sep: char)
    requires |s| > 0 && (s[0] == sep || sep in s[1..])
    requires IsLastSegment(s[1..], r, sep)
    ensures IsLastSegment(s, r, sep)
  {
    var tail := s[1..];
    assert sep in s;
    assert s[|s| - |r|..] == tail[|tail| - |r|..];
    if |r| < |tail| {
      assert s[|s| - |r| - 1] == tail[|tail| - |r| - 1];
    }
  }

  /** The last part of a split is the longest separator-free suffix of `s`:
      it is a suffix, it holds no separator, and it is either all of `s` or
      preceded by a separator. */
  lemma {:induction false} LastPartIsSuffix(s: string, sep: char)
    ensures IsLastSegment(s, Last(Split(s, sep)), sep)
    decreases |s|
  {
    if |s| > 0 {
      var tail := s[1..];
      LastPartIsSuffix(tail, sep);
      if s[0] == sep || sep in tail {
        SplitLastAfterSeparator(s, sep);
        SegmentOfTail(s, Last(Split(tail, sep)), sep);
      } else {
        SplitLastWhole(s, sep);
        assert sep !in s;
      }
    }
  }
}
