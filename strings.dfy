/**
 * The pieces of Go's `strings` package that the client relies on:
 * `TrimRight(s, "\r\n")`, `HasPrefix`/`TrimPrefix`, `SplitN(s, sep, 2)`
 * (through the index of the first occurrence of `sep`), `Join`, `Fields`
 * and `TrimSpace`.
 */
module Strings {
  import opened Wrappers

  /** Line terminators removed by `TrimRight(s, "\r\n")`. */
  predicate IsLineEnd(c: char)
  {
    c == '\r' || c == '\n'
  }

  /** Go's ASCII white space: space, tab, line feed, vertical tab, form feed, carriage return. */
  predicate IsSpace(c: char)
  {
    c == ' ' || c == '\t' || c == '\n' || c == '\U{B}' || c == '\U{C}' || c == '\r'
  }

  /** `strings.TrimRight(s, "\r\n")`: the longest prefix of `s` not ending in CR or LF. */
  function TrimLineEnd(s: string): (r: string)
    ensures r <= s
    ensures r == [] || !IsLineEnd(r[|r| - 1])
    ensures forall i :: |r| <= i < |s| ==> IsLineEnd(s[i])
    decreases |s|
  {
    if s != [] && IsLineEnd(s[|s| - 1]) then TrimLineEnd(s[..|s| - 1]) else s
  }

  /** `strings.TrimPrefix(s, prefix)`. */
  function TrimPrefix(s: string, prefix: string): (r: string)
    ensures prefix <= s ==> prefix + r == s
    ensures !(prefix <= s) ==> r == s
  {
    if prefix <= s then s[|prefix|..] else s
  }

  /** `sep` occurs in `s` starting at index `i`. */
  predicate OccursAt(s: string, sep: string, i: nat)
  {
    i + |sep| <= |s| && s[i..i + |sep|] == sep
  }

  /**
   * The index of the first occurrence of `sep` in `s`, the place where
   * `strings.SplitN(s, sep, 2)` cuts.
   */
  function IndexOf(s: string, sep: string): (r: Option<nat>)
    ensures r.Some? ==> OccursAt(s, sep, r.value)
    ensures r.Some? ==> forall j :: 0 <= j < r.value ==> !OccursAt(s, sep, j)
    ensures r.None? ==> forall j :: 0 <= j ==> !OccursAt(s, sep, j)
    decreases |s|
  {
    if |s| < |sep| then None
    else if s[..|sep|] == sep then Some(0)
    else
      assert s[0..|sep|] == s[..|sep|];
      var rest := IndexOf(s[1..], sep);
      ShiftOccurs(s, sep);
      match rest
      case None => None
      case Some(i) => Some(i + 1)
  }

  /** An occurrence in `s[1..]` is an occurrence in `s`, one place later. */
  lemma ShiftOccurs(s: string, sep: string)
    requires s != []
    ensures forall j: nat :: 1 <= j ==> (OccursAt(s, sep, j) <==> OccursAt(s[1..], sep, j - 1))
  {
    forall j: nat | 1 <= j
      ensures OccursAt(s, sep, j) <==> OccursAt(s[1..], sep, j - 1)
    {
      if j + |sep| <= |s| {
        assert s[1..][j - 1..j - 1 + |sep|] == s[j..j + |sep|];
      }
    }
  }

  /** `part` occurs somewhere in `text`. */
  predicate Mentions(text: string, part: string)
  {
    exists i: nat :: i <= |text| && OccursAt(text, part, i)
  }

  /** A string glued between two others occurs in the result. */
  lemma MentionsMiddle(a: string, part: string, b: string)
    ensures Mentions(a + part + b, part)
  {
    var t := a + part + b;
    assert t[|a|..|a| + |part|] == part;
    assert OccursAt(t, part, |a|);
  }

  /** For a one-character separator the first occurrence is the first index of that character. */
  lemma IndexOfChar(s: string, c: char)
    ensures IndexOf(s, [c]).None? <==> c !in s
    ensures IndexOf(s, [c]).Some? ==> s[IndexOf(s, [c]).value] == c
  {
    var r := IndexOf(s, [c]);
    if c in s {
      var k :| 0 <= k < |s| && s[k] == c;
      assert s[k..k + 1] == [c];
      assert OccursAt(s, [c], k);
    }
    if r.Some? {
      assert s[r.value..r.value + 1] == [c];
      assert s[r.value] in s;
    }
  }

  /** `strings.Join(parts, sep)`. */
  function Join(parts: seq<string>, sep: string): (r: string)
    ensures parts == [] ==> r == ""
    ensures parts != [] ==> parts[0] <= r
    ensures |parts| > 1 ==> parts[0] + sep <= r
  {
    if |parts| == 0 then ""
    else if |parts| == 1 then parts[0]
    else parts[0] + sep + Join(parts[1..], sep)
  }

  /** Joining one more part adds the separator and that part at the end. */
  lemma {:induction false} JoinSnoc(parts: seq<string>, last: string, sep: string)
    ensures Join(parts + [last], sep) == if parts == [] then last else Join(parts, sep) + sep + last
    decreases |parts|
  {
    if |parts| == 1 {
      assert parts + [last] == [parts[0], last];
      assert [parts[0], last][1..] == [last];
    } else if |parts| > 1 {
      assert (parts + [last])[1..] == parts[1..] + [last];
      JoinSnoc(parts[1..], last, sep);
    } else {
      assert parts + [last] == [last];
    }
  }

  /** A field of `strings.Fields`: non-empty, with no white space in it. */
  predicate IsWord(w: string)
  {
    w != [] && forall i :: 0 <= i < |w| ==> !IsSpace(w[i])
  }

  /** The length of the run of non-space characters that starts `s`. */
  function WordLength(s: string): (n: nat)
    ensures n <= |s|
    ensures forall i :: 0 <= i < n ==> !IsSpace(s[i])
    ensures n == |s| || IsSpace(s[n])
  {
    if s == [] || IsSpace(s[0]) then 0 else 1 + WordLength(s[1..])
  }

  /** `strings.Fields(s)`: the maximal runs of non-space characters, in order. */
  function Fields(s: string): (fields: seq<string>)
    ensures forall k :: 0 <= k < |fields| ==> IsWord(fields[k])
    decreases |s|
  {
    if s == [] then []
    else if IsSpace(s[0]) then Fields(s[1..])
    else
      var n := WordLength(s);
      [s[..n]] + Fields(s[n..])
  }

  /** `Fields` finds no field exactly when the string is all white space. */
  lemma {:induction false} FieldsEmpty(s: string)
    ensures Fields(s) == [] <==> forall i :: 0 <= i < |s| ==> IsSpace(s[i])
    decreases |s|
  {
    if s != [] && IsSpace(s[0]) {
      FieldsEmpty(s[1..]);
      assert forall i :: 1 <= i < |s| ==> s[i] == s[1..][i - 1];
    }
  }

  /**
   * A run of white space, however long and of whatever kind, separates the
   * fields before it from those after it: the fields of `a + sp + b` are
   * those of `a` followed by those of `b`.
   */
  lemma {:induction false} FieldsAroundSpace(a: string, sp: string, b: string)
    requires sp != [] && forall i :: 0 <= i < |sp| ==> IsSpace(sp[i])
    ensures Fields(a + sp + b) == Fields(a) + Fields(b)
    decreases |a|
  {
    var s := a + sp + b;
    if a == [] {
      assert s == sp + b;
      FieldsSkipSpace(sp, b);
    } else if IsSpace(a[0]) {
      assert s[1..] == a[1..] + sp + b;
      FieldsAroundSpace(a[1..], sp, b);
    } else {
      var m := WordLength(a);
      assert s == a + (sp + b);
      WordLengthAppend(a, sp + b);
      assert s[..m] == a[..m];
      assert s[m..] == a[m..] + sp + b;
      FieldsAroundSpace(a[m..], sp, b);
      assert [a[..m]] + Fields(a[m..]) + Fields(b) == [a[..m]] + (Fields(a[m..]) + Fields(b));
    }
  }

  /** Leading white space does not change the fields. */
  lemma {:induction false} FieldsSkipSpace(sp: string, b: string)
    requires forall i :: 0 <= i < |sp| ==> IsSpace(sp[i])
    ensures Fields(sp + b) == Fields(b)
    decreases |sp|
  {
    if sp != [] {
      assert (sp + b)[1..] == sp[1..] + b;
      FieldsSkipSpace(sp[1..], b);
    } else {
      assert sp + b == b;
    }
  }

  /** Appending text after a word that already ends, or text that starts with white space, keeps the first word. */
  lemma {:induction false} WordLengthAppend(a: string, t: string)
    requires WordLength(a) < |a| || (t != [] && IsSpace(t[0]))
    ensures WordLength(a + t) == WordLength(a)
    decreases |a|
  {
    if a == [] {
      assert a + t == t;
    } else if !IsSpace(a[0]) {
      assert (a + t)[1..] == a[1..] + t;
      WordLengthAppend(a[1..], t);
    }
  }

  /** Joining words with single spaces and splitting into fields gives the words back. */
  lemma {:induction false} FieldsOfJoin(words: seq<string>)
    requires forall k :: 0 <= k < |words| ==> IsWord(words[k])
    ensures Fields(Join(words, " ")) == words
    decreases |words|
  {
    if |words| == 1 {
      var w := words[0];
      assert WordLength(w) == |w| by {
        assert w + "" == w;
        WordLengthOfWord(w, "");
      }
      assert w[..|w|] == w && w[|w|..] == [];
      assert Join(words, " ") == w;
      assert !IsSpace(w[0]);
      assert Fields(w) == [w[..|w|]] + Fields(w[|w|..]);
    } else if |words| > 1 {
      var w, rest := words[0], Join(words[1..], " ");
      var s := w + " " + rest;
      WordLengthOfWord(w, " " + rest);
      assert s[..|w|] == w;
      assert s[|w|..] == " " + rest;
      assert (" " + rest)[1..] == rest;
      FieldsOfJoin(words[1..]);
    }
  }

  /** The run of non-space characters at the start of `w + tail` is `w` when `tail` starts with a space. */
  lemma {:induction false} WordLengthOfWord(w: string, tail: string)
    requires IsWord(w)
    requires tail == [] || IsSpace(tail[0])
    ensures WordLength(w + tail) == |w|
    decreases |w|
  {
    if |w| > 1 {
      assert (w + tail)[1..] == w[1..] + tail;
      WordLengthOfWord(w[1..], tail);
    } else {
      assert (w + tail)[1..] == tail;
    }
  }

  /** The number of white-space characters that start `s`. */
  function LeadingSpaces(s: string): (n: nat)
    ensures n <= |s|
    ensures forall i :: 0 <= i < n ==> IsSpace(s[i])
    ensures n == |s| || !IsSpace(s[n])
  {
    if s != [] && IsSpace(s[0]) then 1 + LeadingSpaces(s[1..]) else 0
  }

  /** `r` is the slice of `s` that starts after its leading white space and is followed by white space only. */
  predicate IsTrimmedSlice(s: string, r: string)
  {
    LeadingSpaces(s) + |r| <= |s| && r == s[LeadingSpaces(s)..LeadingSpaces(s) + |r|] &&
    forall k :: LeadingSpaces(s) + |r| <= k < |s| ==> IsSpace(s[k])
  }

  /**
   * `strings.TrimSpace(s)`: `s` without leading and trailing white space. The
   * spacing inside is kept.
   */
  function TrimSpace(s: string): (r: string)
    ensures IsTrimmedSlice(s, r)
    ensures r == [] || (!IsSpace(r[0]) && !IsSpace(r[|r| - 1]))
    ensures Fields(r) == Fields(s)
    decreases |s|
  {
    if s != [] && IsSpace(s[0]) then
      var r := TrimSpace(s[1..]);
      TrimmedAfterLeadingSpace(s, r);
      r
    else if s != [] && IsSpace(s[|s| - 1]) then
      FieldsDropTrailingSpace(s);
      var r := TrimSpace(s[..|s| - 1]);
      TrimmedBeforeTrailingSpace(s, r);
      r
    else
      assert s[0..|s|] == s;
      s
  }

  /** A trimmed slice of `s[1..]` is one of `s` when `s` starts with white space. */
  lemma TrimmedAfterLeadingSpace(s: string, r: string)
    requires s != [] && IsSpace(s[0]) && IsTrimmedSlice(s[1..], r)
    ensures IsTrimmedSlice(s, r)
  {
    var n := LeadingSpaces(s[1..]);
    assert LeadingSpaces(s) == n + 1;
    assert s[1..][n..n + |r|] == s[n + 1..n + 1 + |r|];
    forall k | n + 1 + |r| <= k < |s|
      ensures IsSpace(s[k])
    {
      assert s[k] == s[1..][k - 1];
    }
  }

  /** A trimmed slice of `s` without its last character is one of `s` when that character is white space. */
  lemma TrimmedBeforeTrailingSpace(s: string, r: string)
    requires s != [] && !IsSpace(s[0]) && IsSpace(s[|s| - 1]) && IsTrimmedSlice(s[..|s| - 1], r)
    ensures IsTrimmedSlice(s, r)
  {
    var t := s[..|s| - 1];
    assert LeadingSpaces(s) == 0;
    assert LeadingSpaces(t) == 0 by {
      if t != [] {
        assert t[0] == s[0];
      }
    }
    assert t[0..|r|] == s[0..|r|];
    forall k | |r| <= k < |s|
      ensures IsSpace(s[k])
    {
      if k < |s| - 1 {
        assert s[k] == t[k];
      }
    }
  }

  /** A trailing space does not change the fields. */
  lemma {:induction false} FieldsDropTrailingSpace(s: string)
    requires s != [] && IsSpace(s[|s| - 1])
    ensures Fields(s[..|s| - 1]) == Fields(s)
    decreases |s|
  {
    if |s| == 1 {
    } else if IsSpace(s[0]) {
      FieldsDropTrailingSpace(s[1..]);
      LeadingSpaceCase(s);
    } else {
      WordLengthPrefix(s);
      if WordLength(s) == |s| - 1 {
        LastWordCase(s);
      } else {
        FieldsDropTrailingSpace(s[WordLength(s)..]);
        WordCase(s);
      }
    }
  }

  /** `FieldsDropTrailingSpace` when `s` starts with white space. */
  lemma LeadingSpaceCase(s: string)
    requires |s| > 1 && IsSpace(s[0]) && IsSpace(s[|s| - 1])
    requires Fields(s[1..][..|s| - 2]) == Fields(s[1..])
    ensures Fields(s[..|s| - 1]) == Fields(s)
  {
    assert s[1..][..|s| - 2] == s[..|s| - 1][1..];
  }

  /** `FieldsDropTrailingSpace` when the first word is followed only by the final space. */
  lemma LastWordCase(s: string)
    requires |s| > 1 && !IsSpace(s[0]) && IsSpace(s[|s| - 1])
    requires WordLength(s[..|s| - 1]) == WordLength(s) == |s| - 1
    ensures Fields(s[..|s| - 1]) == Fields(s)
  {
    var t, n := s[..|s| - 1], |s| - 1;
    assert t[..n] == s[..n];
    assert t[n..] == [];
    assert s[n..] == [s[|s| - 1]];
    assert Fields(s[n..]) == Fields(s[n..][1..]);
  }

  /** `FieldsDropTrailingSpace` when more follows the first word than the final space. */
  lemma WordCase(s: string)
    requires |s| > 1 && !IsSpace(s[0]) && IsSpace(s[|s| - 1])
    requires WordLength(s[..|s| - 1]) == WordLength(s) < |s| - 1
    requires Fields(s[WordLength(s)..][..|s| - WordLength(s) - 1]) == Fields(s[WordLength(s)..])
    ensures Fields(s[..|s| - 1]) == Fields(s)
  {
    var t, n := s[..|s| - 1], WordLength(s);
    assert t[..n] == s[..n];
    assert s[n..][..|s| - n - 1] == t[n..];
  }

  /** Dropping a trailing space keeps the leading word when the string starts with a non-space. */
  lemma {:induction false} WordLengthPrefix(s: string)
    requires |s| > 1 && !IsSpace(s[0]) && IsSpace(s[|s| - 1])
    ensures WordLength(s[..|s| - 1]) == WordLength(s) < |s|
    decreases |s|
  {
    var t := s[..|s| - 1];
    assert t[1..] == s[1..][..|s| - 2];
    if |s| > 2 && !IsSpace(s[1]) {
      WordLengthPrefix(s[1..]);
    }
  }

  /** The number a string of decimal digits denotes, most significant digit first. */
  function DigitsValue(r: string): int
  {
    if r == [] then 0 else 10 * DigitsValue(r[..|r| - 1]) + (r[|r| - 1] as int - '0' as int)
  }

  /**
   * The decimal form of `n`, as `strconv.Itoa` writes it: digits that read
   * back as `n`, with no leading zero except for `0` itself.
   */
  function Decimal(n: nat): (r: string)
    ensures r != []
    ensures forall i :: 0 <= i < |r| ==> '0' <= r[i] <= '9'
    ensures DigitsValue(r) == n
    ensures r[0] == '0' <==> n == 0
  {
    if n < 10 then [('0' as int + n) as char]
    else
      var r := Decimal(n / 10) + [('0' as int + n % 10) as char];
      assert r[..|r| - 1] == Decimal(n / 10);
      r
  }
}
