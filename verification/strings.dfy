/** The JavaScript string operations the service matcher and the fence cleaner rely on:
    `String.prototype.includes`, `toLowerCase`, `Array.prototype.join`, a global
    `replace` with an empty replacement, and `trim`. */
module Strings {

  /** `t` occurs in `s` starting at index `i`. */
  predicate OccursAt(s: string, t: string, i: int)
  {
    0 <= i && i + |t| <= |s| && s[i..i + |t|] == t
  }

  /** `s` begins with `t`. */
  predicate StartsWith(s: string, t: string)
  {
    |t| <= |s| && s[..|t|] == t
  }

  /** `s.includes(t)`: `t` occurs somewhere in `s`; the empty string occurs in every string. */
  predicate Contains(s: string, t: string)
    decreases |s|
  {
    StartsWith(s, t) || (s != [] && Contains(s[1..], t))
  }

  /** Searching left to right finds exactly the positions at which `t` occurs. */
  lemma {:induction false} ContainsIff(s: string, t: string)
    ensures Contains(s, t) <==> exists i :: OccursAt(s, t, i)
    decreases |s|
  {
    if Contains(s, t) {
      if StartsWith(s, t) {
        assert OccursAt(s, t, 0);
      } else {
        ContainsIff(s[1..], t);
        var i :| OccursAt(s[1..], t, i);
        assert s[1..][i..i + |t|] == s[i + 1..i + 1 + |t|];
        assert OccursAt(s, t, i + 1);
      }
    }
    if exists i :: OccursAt(s, t, i) {
      var i :| OccursAt(s, t, i);
      OccurrenceIsFound(s, t, i);
    }
  }

  /** Any occurrence makes `includes` true. */
  lemma {:induction false} OccurrenceIsFound(s: string, t: string, i: int)
    requires OccursAt(s, t, i)
    ensures Contains(s, t)
    decreases i
  {
    if i == 0 {
      assert StartsWith(s, t);
    } else {
      assert s[1..][i - 1..i - 1 + |t|] == s[i..i + |t|];
      OccurrenceIsFound(s[1..], t, i - 1);
    }
  }

  /** A text shorter than the pattern cannot contain it. */
  lemma {:induction false} ContainsNeedsRoom(s: string, t: string)
    requires Contains(s, t)
    ensures |t| <= |s|
    decreases |s|
  {
    if !StartsWith(s, t) {
      ContainsNeedsRoom(s[1..], t);
    }
  }

  /** A pattern with a character the text lacks does not occur in it. */
  lemma MissingCharExcludes(s: string, t: string, k: int)
    requires 0 <= k < |t| && t[k] !in s
    ensures !Contains(s, t)
  {
    forall i | 0 <= i && i + |t| <= |s|
      ensures !OccursAt(s, t, i)
    {
      assert s[i + k] == s[i..i + |t|][k];
    }
    ContainsIff(s, t);
  }

  /** A pattern with two adjacent characters that never stand side by side in the text does
      not occur in it. */
  lemma MissingPairExcludes(s: string, t: string, k: int)
    requires 0 <= k && k + 1 < |t|
    requires forall i :: 0 <= i < |s| - 1 ==> !(s[i] == t[k] && s[i + 1] == t[k + 1])
    ensures !Contains(s, t)
  {
    forall i | 0 <= i && i + |t| <= |s|
      ensures !OccursAt(s, t, i)
    {
      assert s[i + k] == s[i..i + |t|][k];
      assert s[i + k + 1] == s[i..i + |t|][k + 1];
    }
    ContainsIff(s, t);
  }

  /** Occurrence is transitive: a substring of a substring is a substring. */
  lemma ContainsTransitive(s: string, t: string, u: string)
    requires Contains(s, t) && Contains(t, u)
    ensures Contains(s, u)
  {
    ContainsIff(s, t);
    ContainsIff(t, u);
    var i :| OccursAt(s, t, i);
    var j :| OccursAt(t, u, j);
    assert u == t[j..j + |u|];
    forall m | 0 <= m < |u|
      ensures s[i + j + m] == u[m]
    {
      assert u[m] == t[j + m] == s[i..i + |t|][j + m];
    }
    assert s[i + j..i + j + |u|] == u;
    OccurrenceIsFound(s, u, i + j);
  }

  /** What occurs in a part of a concatenation occurs in the whole. */
  lemma ContainsInConcat(a: string, b: string, t: string)
    requires Contains(a, t) || Contains(b, t)
    ensures Contains(a + b, t)
  {
    if Contains(a, t) {
      ContainsIff(a, t);
      var i :| OccursAt(a, t, i);
      assert (a + b)[i..i + |t|] == a[i..i + |t|];
      OccurrenceIsFound(a + b, t, i);
    } else {
      ContainsIff(b, t);
      var i :| OccursAt(b, t, i);
      assert (a + b)[|a| + i..|a| + i + |t|] == b[i..i + |t|];
      OccurrenceIsFound(a + b, t, |a| + i);
    }
  }

  /** `toLowerCase` on one character: the ASCII capitals and the Latin-1 capitals
      (U+00C0 to U+00DE, except the multiplication sign U+00D7) map to their small letters. */
  function LowerChar(c: char): (r: char)
  {
    if 'A' <= c <= 'Z' || ('\U{00C0}' <= c <= '\U{00DE}' && c != '\U{00D7}') then
      (c as int + 32) as char
    else
      c
  }

  /** `toLowerCase`: every character mapped on its own, so the length is kept. */
  function ToLower(s: string): (r: string)
    ensures |r| == |s|
    ensures forall i :: 0 <= i < |s| ==> r[i] == LowerChar(s[i])
  {
    if s == [] then [] else [LowerChar(s[0])] + ToLower(s[1..])
  }

  /** A string with no capitals is its own lower case. */
  lemma ToLowerKeepsLower(s: string)
    requires forall i :: 0 <= i < |s| ==> LowerChar(s[i]) == s[i]
    ensures ToLower(s) == s
  {
  }

  /** A pattern with a small ASCII letter that the text holds in neither case does not occur
      in the lower-cased text. */
  lemma MissingLowerCharExcludes(s: string, t: string, k: int)
    requires 0 <= k < |t| && 'a' <= t[k] <= 'z'
    requires t[k] !in s && (t[k] as int - 32) as char !in s
    ensures !Contains(ToLower(s), t)
  {
    var ls := ToLower(s);
    forall i | 0 <= i < |ls|
      ensures ls[i] != t[k]
    {
      assert s[i] in s;
    }
    MissingCharExcludes(ls, t, k);
  }

  /** Lower-casing commutes with concatenation. */
  lemma ToLowerConcat(a: string, b: string)
    ensures ToLower(a + b) == ToLower(a) + ToLower(b)
  {
  }

  /** A pattern without the character `c` that occurs in `a + [c] + b` occurs in `a` or in `b`. */
  lemma ContainsAcrossSeparator(a: string, c: char, b: string, t: string)
    requires c !in t
    ensures Contains(a + [c] + b, t) ==> Contains(a, t) || Contains(b, t)
  {
    var s := a + [c] + b;
    forall m | 0 <= m <= |a| < m + |t| <= |s|
      ensures !OccursAt(s, t, m)
    {
      assert s[m..m + |t|][|a| - m] == s[|a|] == c;
    }
    ContainsIff(s, t);
    if Contains(s, t) {
      var i :| OccursAt(s, t, i);
      if i + |t| <= |a| {
        assert s[i..i + |t|] == a[i..i + |t|];
        OccurrenceIsFound(a, t, i);
      } else {
        assert i > |a|;
        assert s[i..i + |t|] == b[i - |a| - 1..i - |a| - 1 + |t|];
        OccurrenceIsFound(b, t, i - |a| - 1);
      }
    }
  }

  /** A non-empty pattern without a space that occurs in no lower-cased part does not occur in
      the lower-cased parts joined by spaces. */
  lemma {:induction false} JoinedPartsExclude(parts: seq<string>, t: string)
    requires t != [] && ' ' !in t
    requires forall k :: 0 <= k < |parts| ==> !Contains(ToLower(parts[k]), t)
    ensures !Contains(ToLower(Join(parts, " ")), t)
    decreases |parts|
  {
    if |parts| >= 2 {
      var rest := Join(parts[1..], " ");
      JoinedPartsExclude(parts[1..], t);
      assert ToLower(Join(parts, " ")) == ToLower(parts[0]) + " " + ToLower(rest);
      ContainsAcrossSeparator(ToLower(parts[0]), ' ', ToLower(rest), t);
    }
  }

  /** Lower-casing preserves occurrence: if `t` is in `s`, the lower-cased `t` is in the
      lower-cased `s`. */
  lemma ContainsToLower(s: string, t: string)
    requires Contains(s, t)
    ensures Contains(ToLower(s), ToLower(t))
  {
    ContainsIff(s, t);
    var i :| OccursAt(s, t, i);
    var ls, lt := ToLower(s), ToLower(t);
    forall m | 0 <= m < |t|
      ensures ls[i + m] == lt[m]
    {
      assert s[i + m] == s[i..i + |t|][m] == t[m];
    }
    assert ls[i..i + |t|] == lt;
    OccurrenceIsFound(ls, lt, i);
  }

  /** `parts.join(sep)`: the parts with `sep` between neighbours. */
  function Join(parts: seq<string>, sep: string): (r: string)
  {
    if |parts| == 0 then ""
    else if |parts| == 1 then parts[0]
    else parts[0] + sep + Join(parts[1..], sep)
  }

  /** Every part occurs in the joined string. */
  lemma {:induction false} JoinContainsPart(parts: seq<string>, sep: string, k: int)
    requires 0 <= k < |parts|
    ensures Contains(Join(parts, sep), parts[k])
    decreases |parts|
  {
    var p := parts[k];
    if |parts| == 1 {
      assert OccursAt(p, p, 0);
      OccurrenceIsFound(p, p, 0);
    } else if k == 0 {
      assert OccursAt(p, p, 0);
      OccurrenceIsFound(p, p, 0);
      ContainsInConcat(p, sep, p);
      ContainsInConcat(p + sep, Join(parts[1..], sep), p);
    } else {
      JoinContainsPart(parts[1..], sep, k - 1);
      ContainsInConcat(parts[0] + sep, Join(parts[1..], sep), p);
    }
  }

  /** `s.replace(/pat/g, "")`: every occurrence found scanning left to right is deleted and the
      scan resumes after it. */
  function RemoveAll(s: string, pat: string): (r: string)
    requires pat != []
    decreases |s|
  {
    if |s| < |pat| then s
    else if s[..|pat|] == pat then RemoveAll(s[|pat|..], pat)
    else [s[0]] + RemoveAll(s[1..], pat)
  }

  /** Deleting a pattern that does not occur changes nothing. */
  lemma {:induction false} RemoveAllAbsent(s: string, pat: string)
    requires pat != [] && !Contains(s, pat)
    ensures RemoveAll(s, pat) == s
    decreases |s|
  {
    if |s| >= |pat| {
      assert !StartsWith(s, pat);
      RemoveAllAbsent(s[1..], pat);
    }
  }

  /** A prefix without the pattern's first character passes through untouched. */
  lemma {:induction false} RemoveAllKeepsPrefix(a: string, b: string, pat: string)
    requires pat != [] && pat[0] !in a
    ensures RemoveAll(a + b, pat) == a + RemoveAll(b, pat)
    decreases |a|
  {
    if a != [] {
      var s := a + b;
      assert s[0] == a[0];
      assert s[1..] == a[1..] + b;
      RemoveAllKeepsPrefix(a[1..], b, pat);
      if |s| < |pat| {
        assert RemoveAll(b, pat) == b;
      } else {
        assert s[..|pat|][0] != pat[0];
        assert RemoveAll(s, pat) == [a[0]] + RemoveAll(a[1..] + b, pat);
        assert [a[0]] + a[1..] == a;
      }
    } else {
      assert a + b == b;
    }
  }

  /** The characters `String.prototype.trim` strips: ECMAScript WhiteSpace (tab, vertical tab,
      form feed, space, no-break space, zero width no-break space and the other Zs space
      separators) and LineTerminator (line feed, carriage return, line and paragraph separators). */
  predicate IsWhitespace(c: char)
  {
    c == '\t' || c == '\n' || c == '\U{000B}' || c == '\U{000C}' || c == '\r' || c == ' '
    || c == '\U{00A0}' || c == '\U{1680}' || ('\U{2000}' <= c <= '\U{200A}')
    || c == '\U{2028}' || c == '\U{2029}' || c == '\U{202F}' || c == '\U{205F}'
    || c == '\U{3000}' || c == '\U{FEFF}'
  }

  /** Neither end of `s` is whitespace. */
  predicate IsTrimmed(s: string)
  {
    s == [] || (!IsWhitespace(s[0]) && !IsWhitespace(s[|s| - 1]))
  }

  function TrimStart(s: string): (r: string)
    decreases |s|
  {
    if s != [] && IsWhitespace(s[0]) then TrimStart(s[1..]) else s
  }

  function TrimEnd(s: string): (r: string)
    decreases |s|
  {
    if s != [] && IsWhitespace(s[|s| - 1]) then TrimEnd(s[..|s| - 1]) else s
  }

  /** `s.trim()`. */
  function Trim(s: string): (r: string)
  {
    TrimEnd(TrimStart(s))
  }

  /** Stripping the front cuts off whitespace only, and leaves a suffix that does not start
      with whitespace. */
  lemma {:induction false} TrimStartIsSuffix(s: string) returns (k: int)
    ensures 0 <= k <= |s| && TrimStart(s) == s[k..]
    ensures forall m :: 0 <= m < k ==> IsWhitespace(s[m])
    ensures TrimStart(s) == [] || !IsWhitespace(TrimStart(s)[0])
    decreases |s|
  {
    if s != [] && IsWhitespace(s[0]) {
      var k' := TrimStartIsSuffix(s[1..]);
      k := k' + 1;
      assert s[1..][k'..] == s[k..];
      forall m | 1 <= m < k
        ensures IsWhitespace(s[m])
      {
        assert s[m] == s[1..][m - 1];
      }
    } else {
      k := 0;
    }
  }

  /** Stripping the back cuts off whitespace only, and leaves a prefix that does not end
      with whitespace. */
  lemma {:induction false} TrimEndIsPrefix(s: string) returns (k: int)
    ensures 0 <= k <= |s| && TrimEnd(s) == s[..k]
    ensures forall m :: k <= m < |s| ==> IsWhitespace(s[m])
    ensures TrimEnd(s) == [] || !IsWhitespace(TrimEnd(s)[|TrimEnd(s)| - 1])
    decreases |s|
  {
    if s != [] && IsWhitespace(s[|s| - 1]) {
      var init := s[..|s| - 1];
      k := TrimEndIsPrefix(init);
      assert init[..k] == s[..k];
      forall m | k <= m < |s| - 1
        ensures IsWhitespace(s[m])
      {
        assert s[m] == init[m];
      }
    } else {
      k := |s|;
      assert TrimEnd(s) == s[..|s|];
    }
  }

  /** `trim` leaves a string with no whitespace at either end alone. */
  lemma TrimKeepsTrimmed(s: string)
    requires IsTrimmed(s)
    ensures Trim(s) == s
  {
    assert TrimStart(s) == s;
  }

  /** `trim` returns the slice of its input between two runs of whitespace. */
  lemma TrimIsSlice(s: string) returns (i: int, j: int)
    ensures 0 <= i <= j <= |s| && Trim(s) == s[i..j]
    ensures forall m :: 0 <= m < i ==> IsWhitespace(s[m])
    ensures forall m :: j <= m < |s| ==> IsWhitespace(s[m])
  {
    i := TrimStartIsSuffix(s);
    var u := TrimStart(s);
    var k := TrimEndIsPrefix(u);
    j := i + k;
    assert u[..k] == s[i..j];
    forall m | j <= m < |s|
      ensures IsWhitespace(s[m])
    {
      assert s[m] == u[m - i];
    }
  }

  /** What `trim` returns has no whitespace at either end. */
  lemma TrimIsTrimmed(s: string)
    ensures IsTrimmed(Trim(s))
  {
    var i := TrimStartIsSuffix(s);
    var u := TrimStart(s);
    var k := TrimEndIsPrefix(u);
    if k > 0 {
      assert Trim(s)[0] == u[0];
    }
  }

  /** `trim` returns a piece of its input with no whitespace at either end, having cut off
      nothing but whitespace; it leaves a string with no whitespace at either end alone. */
  lemma TrimProperties(s: string)
    ensures IsTrimmed(Trim(s))
    ensures exists i, j :: 0 <= i <= j <= |s| && Trim(s) == s[i..j]
                           && (forall m :: 0 <= m < i ==> IsWhitespace(s[m]))
                           && (forall m :: j <= m < |s| ==> IsWhitespace(s[m]))
    ensures IsTrimmed(s) ==> Trim(s) == s
  {
    TrimIsTrimmed(s);
    var i, j := TrimIsSlice(s);
    if IsTrimmed(s) {
      TrimKeepsTrimmed(s);
    }
  }

  /** What `trim` returns is a substring of its input. */
  lemma TrimIsSubstring(s: string)
    ensures Contains(s, Trim(s))
  {
    var i, j := TrimIsSlice(s);
    assert OccursAt(s, Trim(s), i);
    OccurrenceIsFound(s, Trim(s), i);
  }
}
