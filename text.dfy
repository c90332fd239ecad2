/**
 * The few Python `str` operations that the document routes use, over
 * `seq<char>`: `isspace`/`strip`, `upper`, `replace("\n", ",")`,
 * `split(",")` and `",".join(...)`. Whitespace and case mapping are the
 * ASCII part of Python's definitions.
 */
module Text {

  /** `c.isspace()` for ASCII: tab, line feed, vertical tab, form feed, carriage return, the separators 0x1C-0x1F and space. */
  predicate IsSpace(c: char) {
    '\t' <= c <= '\r' || '\U{1C}' <= c <= ' '
  }

  predicate IsLower(c: char) {
    'a' <= c <= 'z'
  }

  predicate AllSpace(s: string) {
    forall i :: 0 <= i < |s| ==> IsSpace(s[i])
  }

  /** Neither the first nor the last character is whitespace. */
  predicate NoOuterSpace(s: string) {
    s == [] || (!IsSpace(s[0]) && !IsSpace(s[|s| - 1]))
  }

  predicate NoLower(s: string) {
    forall i :: 0 <= i < |s| ==> !IsLower(s[i])
  }

  /** Length of the longest all-whitespace prefix. */
  function LeadingSpace(s: string): (n: nat)
    ensures n <= |s| && AllSpace(s[..n])
    ensures n < |s| ==> !IsSpace(s[n])
  {
    if s != [] && IsSpace(s[0]) then 1 + LeadingSpace(s[1..]) else 0
  }

  /** Length of the longest all-whitespace suffix. */
  function TrailingSpace(s: string): (n: nat)
    ensures n <= |s| && AllSpace(s[|s| - n..])
    ensures n < |s| ==> !IsSpace(s[|s| - 1 - n])
  {
    if s != [] && IsSpace(s[|s| - 1]) then 1 + TrailingSpace(s[..|s| - 1]) else 0
  }

  /**
   * `s.strip()`: the result is the piece of `s` left after removing the
   * whitespace at both ends; it is empty exactly when `s` is all whitespace.
   */
  function Strip(s: string): (r: string)
    ensures NoOuterSpace(r)
    ensures exists i :: 0 <= i <= |s| - |r| && s[i..i + |r|] == r && AllSpace(s[..i]) && AllSpace(s[i + |r|..])
    ensures r == [] <==> AllSpace(s)
    ensures forall c :: c in r ==> c in s
  {
    var i := LeadingSpace(s);
    var t := s[i..];
    var j := TrailingSpace(t);
    assert t[|t| - j..] == s[|s| - j..];
    assert j < |t| ==> t[|t| - 1 - j] == s[|s| - 1 - j];
    StripEmpty(s, i, j);
    SliceMembers(s, i, |s| - j);
    var r := s[i..|s| - j];
    assert i + |r| == |s| - j && s[i..i + |r|] == r;
    r
  }

  lemma SliceMembers(s: string, lo: nat, hi: nat)
    requires lo <= hi <= |s|
    ensures forall c :: c in s[lo..hi] ==> c in s
  {
    forall c | c in s[lo..hi] ensures c in s {
      var k :| 0 <= k < hi - lo && s[lo..hi][k] == c;
      assert s[lo + k] == c;
    }
  }

  /** Nothing is left between the whitespace at both ends exactly when all of `s` is whitespace. */
  lemma StripEmpty(s: string, i: nat, j: nat)
    requires i <= |s| - j
    requires AllSpace(s[..i]) && AllSpace(s[|s| - j..])
    requires i < |s| ==> !IsSpace(s[i])
    ensures i == |s| - j <==> AllSpace(s)
  {
    if i == |s| - j {
      forall k | 0 <= k < |s| ensures IsSpace(s[k]) {
        assert s[k] == s[..i][k];
      }
    }
  }

  /** `c.upper()` for ASCII letters; every other character maps to itself. */
  function UpperChar(c: char): (u: char)
    ensures !IsLower(u)
    ensures IsLower(c) ==> 'A' <= u <= 'Z' && u as int == c as int - 32
    ensures !IsLower(c) ==> u == c
  {
    if IsLower(c) then (c as int - 32) as char else c
  }

  /** `s.upper()`: the same length, no lower-case letter left, and only lower-case letters changed. */
  function Upper(s: string): (r: string)
    ensures |r| == |s| && NoLower(r)
    ensures forall i :: 0 <= i < |s| && !IsLower(s[i]) ==> r[i] == s[i]
    ensures forall i :: 0 <= i < |s| && IsLower(s[i]) ==> r[i] as int == s[i] as int - 32
  {
    if s == [] then [] else [UpperChar(s[0])] + Upper(s[1..])
  }

  /** `s.replace("\n", ",")`. */
  function ReplaceNewlines(s: string): (r: string)
    ensures |r| == |s| && '\n' !in r
    ensures forall i :: 0 <= i < |s| && s[i] != '\n' ==> r[i] == s[i]
    ensures forall i :: 0 <= i < |s| && s[i] == '\n' ==> r[i] == ','
  {
    if s == [] then []
    else [if s[0] == '\n' then ',' else s[0]] + ReplaceNewlines(s[1..])
  }

  /**
   * `sep.join(parts)`: nothing for no parts; otherwise it starts with the
   * first part, followed by the separator when more parts come.
   */
  function Join(parts: seq<string>, sep: char): (s: string)
    ensures parts == [] ==> s == []
    ensures parts != [] ==> parts[0] <= s
    ensures |parts| == 1 ==> s == parts[0]
    ensures |parts| > 1 ==> |parts[0]| < |s| && s[|parts[0]|] == sep
  {
    if parts == [] then []
    else if |parts| == 1 then parts[0]
    else parts[0] + [sep] + Join(parts[1..], sep)
  }

  /**
   * `s.split(sep)`: never empty, no piece contains `sep`, and joining the
   * pieces with `sep` gives `s` back.
   */
  function Split(s: string, sep: char): (parts: seq<string>)
    ensures |parts| >= 1
    ensures forall p :: p in parts ==> sep !in p
    ensures forall p, c :: p in parts && c in p ==> c in s
    ensures Join(parts, sep) == s
  {
    if s == [] then [[]]
    else
      var rest := Split(s[1..], sep);
      if s[0] == sep then
        assert [s[0]] + s[1..] == s;
        [[]] + rest
      else
        var parts := [[s[0]] + rest[0]] + rest[1..];
        assert |rest| > 1 ==> rest == [rest[0]] + rest[1..];
        assert [s[0]] + s[1..] == s;
        parts
  }

  /** Stripping a string with no whitespace at either end changes nothing. */
  lemma StripNoOp(s: string)
    requires NoOuterSpace(s)
    ensures Strip(s) == s
  {
    assert LeadingSpace(s) == 0;
    assert TrailingSpace(s) == 0;
  }

  /** Upper-casing a string with no lower-case letter changes nothing. */
  lemma UpperNoOp(s: string)
    requires NoLower(s)
    ensures Upper(s) == s
  {
    assert forall i :: 0 <= i < |s| ==> Upper(s)[i] == s[i];
  }

  lemma {:induction false} ReplaceNewlinesAppend(a: string, b: string)
    ensures ReplaceNewlines(a + b) == ReplaceNewlines(a) + ReplaceNewlines(b)
  {
    if a != [] {
      assert (a + b)[1..] == a[1..] + b;
      ReplaceNewlinesAppend(a[1..], b);
    } else {
      assert a + b == b;
    }
  }

  /** A string without line feeds is left alone by `replace("\n", ",")`. */
  lemma {:induction false} ReplaceNewlinesNoOp(s: string)
    requires '\n' !in s
    ensures ReplaceNewlines(s) == s
  {
    if s != [] {
      ReplaceNewlinesNoOp(s[1..]);
    }
  }

  /** Splitting at a separator splits the pieces on either side independently. */
  lemma {:induction false} SplitAppend(a: string, b: string, sep: char)
    ensures Split(a + [sep] + b, sep) == Split(a, sep) + Split(b, sep)
  {
    var s := a + [sep] + b;
    if a == [] {
      assert s[1..] == b;
    } else {
      assert s[1..] == a[1..] + [sep] + b;
      SplitAppend(a[1..], b, sep);
    }
  }

  /** A piece without the separator splits to itself. */
  lemma {:induction false} SplitNoSeparator(s: string, sep: char)
    requires sep !in s
    ensures Split(s, sep) == [s]
  {
    if s != [] {
      SplitNoSeparator(s[1..], sep);
      assert [s[0]] + s[1..] == s;
    }
  }

  /** Joining pieces free of the separator and splitting again gives the pieces back. */
  lemma {:induction false} SplitJoin(parts: seq<string>, sep: char)
    requires |parts| >= 1
    requires forall p :: p in parts ==> sep !in p
    ensures Split(Join(parts, sep), sep) == parts
  {
    SplitNoSeparator(parts[0], sep);
    if |parts| > 1 {
      SplitJoin(parts[1..], sep);
      SplitAppend(parts[0], Join(parts[1..], sep), sep);
      assert parts == [parts[0]] + parts[1..];
    }
  }

  /** A character that is neither the separator nor in any piece is not in the joined string. */
  lemma {:induction false} JoinAvoids(parts: seq<string>, sep: char, c: char)
    requires c != sep
    requires forall p :: p in parts ==> c !in p
    ensures c !in Join(parts, sep)
  {
    if |parts| > 1 {
      JoinAvoids(parts[1..], sep, c);
    }
  }
}
