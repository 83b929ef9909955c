/**
 * The java.lang.String operations the topic reader relies on, over `seq<char>`.
 * Apart from the digit filter `replaceAll("[^0-9]", "")`, which `DigitsOnly`
 * models, the reader hands `replaceAll`/`replaceFirst` only patterns made of
 * letters, digits, `_`, `-`, `<`, `/` and `>`, none of them regex
 * metacharacters, so those calls are modelled as literal substring removal.
 */
module Text {
  import opened Common

  predicate IsDigit(c: char) { '0' <= c <= '9' }

  predicate IsUpper(c: char) { 'A' <= c <= 'Z' }

  /** The class `[\w-]`: Java's ASCII `\w` (letters, digits, underscore) and the dash. */
  predicate IsNameChar(c: char) {
    'a' <= c <= 'z' || 'A' <= c <= 'Z' || IsDigit(c) || c == '_' || c == '-'
  }

  /** What `String.trim` strips: every character at or below U+0020. */
  predicate IsBlank(c: char) { c <= ' ' }

  predicate AllDigits(s: string) { forall k :: 0 <= k < |s| ==> IsDigit(s[k]) }

  predicate StartsWith(s: string, prefix: string) {
    |prefix| <= |s| && s[..|prefix|] == prefix
  }

  predicate OccursAt(s: string, i: int, pat: string) {
    0 <= i && i + |pat| <= |s| && s[i..i + |pat|] == pat
  }

  predicate Contains(s: string, pat: string) {
    exists i :: 0 <= i <= |s| && OccursAt(s, i, pat)
  }

  /** The first occurrence of `pat` at or after `i`. */
  function FindFrom(s: string, pat: string, i: nat): (r: Option<nat>)
    requires i <= |s|
    ensures r.Some? ==> i <= r.value && OccursAt(s, r.value, pat)
    ensures r.Some? ==> forall j :: i <= j < r.value ==> !OccursAt(s, j, pat)
    ensures r.None? ==> forall j :: i <= j ==> !OccursAt(s, j, pat)
    decreases |s| - i
  {
    if OccursAt(s, i, pat) then Some(i)
    else if i == |s| then None
    else FindFrom(s, pat, i + 1)
  }

  /** `String.indexOf`, with `None` for Java's -1. */
  function IndexOf(s: string, pat: string): (r: Option<nat>)
    ensures r.None? <==> !Contains(s, pat)
    ensures r.Some? ==> OccursAt(s, r.value, pat)
    ensures r.Some? ==> forall j :: 0 <= j < r.value ==> !OccursAt(s, j, pat)
  {
    FindFrom(s, pat, 0)
  }

  lemma OccursAtChar(s: string, k: int, c: char)
    ensures OccursAt(s, k, [c]) <==> 0 <= k < |s| && s[k] == c
  {
    if 0 <= k < |s| {
      assert s[k..k + 1] == [s[k]];
    }
  }

  /**
   * `s.substring(s.indexOf(">") + 1)`: everything after the first `>`; when there
   * is none, `indexOf` gives -1 and the whole string is kept.
   */
  function AfterFirstGt(s: string): (r: string)
    ensures '>' !in s ==> r == s
    ensures '>' in s ==> exists k :: 0 <= k < |s| && s[k] == '>' && '>' !in s[..k] && r == s[k + 1..]
  {
    match IndexOf(s, ">")
    case None =>
      assert '>' !in s by {
        forall k | 0 <= k < |s| ensures s[k] != '>' { OccursAtChar(s, k, '>'); }
      }
      s
    case Some(k) =>
      OccursAtChar(s, k, '>');
      assert '>' !in s[..k] by {
        forall j | 0 <= j < k ensures s[..k][j] != '>' { OccursAtChar(s, j, '>'); }
      }
      s[k + 1..]
  }

  lemma ContainsTail(s: string, pat: string)
    requires s != [] && !OccursAt(s, 0, pat)
    ensures Contains(s, pat) <==> Contains(s[1..], pat)
  {
    if Contains(s, pat) {
      var i :| 0 <= i <= |s| && OccursAt(s, i, pat);
      assert i != 0;
      assert s[1..][i - 1..i - 1 + |pat|] == s[i..i + |pat|];
      assert OccursAt(s[1..], i - 1, pat);
    }
    if Contains(s[1..], pat) {
      var i :| 0 <= i <= |s[1..]| && OccursAt(s[1..], i, pat);
      assert s[1..][i..i + |pat|] == s[i + 1..i + 1 + |pat|];
      assert OccursAt(s, i + 1, pat);
    }
  }

  /**
   * `s.replaceAll(pat, "")` for a literal `pat`: occurrences are found left to
   * right, each removed, and the scan resumes after the removed text.
   */
  function RemoveAll(s: string, pat: string): (r: string)
    requires pat != []
    ensures |r| <= |s|
    ensures |r| == |s| <==> !Contains(s, pat)
    ensures !Contains(s, pat) ==> r == s
    decreases |s|
  {
    if StartsWith(s, pat) then
      assert OccursAt(s, 0, pat);
      RemoveAll(s[|pat|..], pat)
    else if s == [] then []
    else
      ContainsTail(s, pat);
      [s[0]] + RemoveAll(s[1..], pat)
  }

  /** After a tag's closing `>`: the text that follows it, when the tag holds no other `>`. */
  lemma AfterTag(tag: string, rest: string)
    requires '>' !in tag
    ensures AfterFirstGt(tag + ">" + rest) == rest
  {
    var s := tag + ">" + rest;
    assert s[|tag|] == '>';
    var k :| 0 <= k < |s| && s[k] == '>' && '>' !in s[..k] && AfterFirstGt(s) == s[k + 1..];
    assert k == |tag| by {
      assert forall j :: 0 <= j < |tag| ==> s[j] == tag[j];
      assert k <= |tag| ==> s[..k] == tag[..k];
    }
    assert s[|tag| + 1..] == rest;
  }

  /** An occurrence in the tail of `s` is an occurrence in `s`, one index on. */
  lemma OccursInTail(s: string, pat: string, j: nat)
    requires s != []
    ensures OccursAt(s[1..], j, pat) <==> OccursAt(s, j + 1, pat)
  {
    if j + |pat| <= |s[1..]| {
      assert s[1..][j..j + |pat|] == s[j + 1..j + 1 + |pat|];
    }
  }

  lemma LeftmostInTail(s: string, pat: string, i: nat)
    requires 0 < i && OccursAt(s, i, pat) && forall j :: 0 <= j < i ==> !OccursAt(s, j, pat)
    ensures OccursAt(s[1..], i - 1, pat)
    ensures forall j :: 0 <= j < i - 1 ==> !OccursAt(s[1..], j, pat)
  {
    OccursInTail(s, pat, i - 1);
    forall j | 0 <= j < i - 1
      ensures !OccursAt(s[1..], j, pat)
    {
      OccursInTail(s, pat, j);
    }
  }

  /** A text not starting with `pat` keeps its first character. */
  lemma RemoveAllKeepsHead(s: string, pat: string)
    requires pat != [] && s != [] && !StartsWith(s, pat)
    ensures RemoveAll(s, pat) == [s[0]] + RemoveAll(s[1..], pat)
  {
  }

  lemma ConsPrefix(s: string, i: nat, rest: string, x: string)
    requires 0 < i <= |s|
    requires x == [s[0]] + (s[1..][..i - 1] + rest)
    ensures x == s[..i] + rest
  {
    assert s[..i] == [s[0]] + s[1..][..i - 1];
  }

  /** One kept character in front of what the tail's removal gives. */
  lemma RemoveAllStep(s: string, pat: string, i: nat, rest: string)
    requires pat != [] && 0 < i <= |s| && !StartsWith(s, pat)
    requires RemoveAll(s[1..], pat) == s[1..][..i - 1] + rest
    ensures RemoveAll(s, pat) == s[..i] + rest
  {
    RemoveAllKeepsHead(s, pat);
    ConsPrefix(s, i, rest, RemoveAll(s, pat));
  }

  /** The step of `RemoveAllLeftmost`: its statement for the tail gives it for `s`. */
  lemma RemoveAllPastHead(s: string, pat: string, i: nat)
    requires pat != [] && OccursAt(s, i, pat) && 0 < i && !OccursAt(s, 0, pat)
    requires RemoveAll(s[1..], pat) == s[1..][..i - 1] + RemoveAll(s[1..][i - 1 + |pat|..], pat)
    ensures RemoveAll(s, pat) == s[..i] + RemoveAll(s[i + |pat|..], pat)
  {
    assert !StartsWith(s, pat) by {
      if |pat| <= |s| { assert s[..|pat|] == s[0..|pat|]; }
    }
    var t := s[1..];
    assert t[i - 1 + |pat|..] == s[i + |pat|..];
    RemoveAllStep(s, pat, i, RemoveAll(s[i + |pat|..], pat));
  }

  lemma RemoveAllAtHead(s: string, pat: string)
    requires pat != [] && OccursAt(s, 0, pat)
    ensures RemoveAll(s, pat) == s[..0] + RemoveAll(s[0 + |pat|..], pat)
  {
    assert StartsWith(s, pat);
  }

  /**
   * Past the leftmost occurrence at `i`, the text before it is kept, the
   * occurrence is dropped and the removal carries on after it.
   */
  lemma {:induction false} RemoveAllLeftmost(s: string, pat: string, i: nat)
    requires pat != [] && OccursAt(s, i, pat)
    requires forall j :: 0 <= j < i ==> !OccursAt(s, j, pat)
    ensures RemoveAll(s, pat) == s[..i] + RemoveAll(s[i + |pat|..], pat)
    decreases i, 1
  {
    if i == 0 {
      RemoveAllAtHead(s, pat);
    } else {
      RemoveAllLeftmostInTail(s, pat, i);
      RemoveAllPastHead(s, pat, i);
    }
  }

  /** The same, one character further on. */
  lemma {:induction false} RemoveAllLeftmostInTail(s: string, pat: string, i: nat)
    requires pat != [] && 0 < i && OccursAt(s, i, pat)
    requires forall j :: 0 <= j < i ==> !OccursAt(s, j, pat)
    ensures RemoveAll(s[1..], pat) == s[1..][..i - 1] + RemoveAll(s[1..][i - 1 + |pat|..], pat)
    decreases i, 0
  {
    LeftmostInTail(s, pat, i);
    RemoveAllLeftmost(s[1..], pat, i - 1);
  }


  /** Removing every `pat` from a text followed by one `pat` gives back the text, when `pat`'s first character is not in it. */
  lemma {:induction false} RemoveAllTrailing(v: string, pat: string)
    requires pat != [] && pat[0] !in v
    ensures RemoveAll(v + pat, pat) == v
    decreases |v|
  {
    var s := v + pat;
    if v == [] {
      assert s == pat && s[|pat|..] == [];
      assert StartsWith(s, pat);
    } else {
      assert s[0] == v[0] != pat[0];
      assert !StartsWith(s, pat);
      assert s[1..] == v[1..] + pat;
      RemoveAllTrailing(v[1..], pat);
      assert [v[0]] + v[1..] == v;
    }
  }

  /** `s.replaceFirst(pat, "")` for a literal `pat`. */
  function RemoveFirst(s: string, pat: string): (r: string)
    ensures !Contains(s, pat) ==> r == s
    ensures Contains(s, pat) ==> |r| == |s| - |pat|
  {
    match IndexOf(s, pat)
    case None => s
    case Some(i) => s[..i] + s[i + |pat|..]
  }

  /** `replaceFirst` cuts out exactly the leftmost occurrence. */
  lemma RemoveFirstCutsLeftmost(s: string, pat: string, i: nat)
    requires OccursAt(s, i, pat) && forall j :: 0 <= j < i ==> !OccursAt(s, j, pat)
    ensures RemoveFirst(s, pat) == s[..i] + s[i + |pat|..]
  {
    assert IndexOf(s, pat) == Some(i);
  }

  /** Cutting the first `pat` from a text followed by `pat` gives back the text, when `pat`'s first character is not in it. */
  lemma RemoveFirstTrailing(v: string, pat: string)
    requires pat != [] && pat[0] !in v
    ensures RemoveFirst(v + pat, pat) == v
  {
    var s := v + pat;
    assert OccursAt(s, |v|, pat) by { assert s[|v|..|v| + |pat|] == pat; }
    forall j | 0 <= j < |v|
      ensures !OccursAt(s, j, pat)
    {
      if j + |pat| <= |s| {
        assert s[j..j + |pat|][0] == v[j];
      }
    }
    RemoveFirstCutsLeftmost(s, pat, |v|);
    assert s[..|v|] == v;
  }

  function LeadingBlanks(s: string): (n: nat)
    ensures n <= |s|
    ensures forall k :: 0 <= k < n ==> IsBlank(s[k])
    ensures n < |s| ==> !IsBlank(s[n])
    decreases |s|
  {
    if s != [] && IsBlank(s[0]) then 1 + LeadingBlanks(s[1..]) else 0
  }

  function TrailingBlanks(s: string): (n: nat)
    ensures n <= |s|
    ensures forall k :: |s| - n <= k < |s| ==> IsBlank(s[k])
    ensures n < |s| ==> !IsBlank(s[|s| - 1 - n])
    decreases |s|
  {
    if s != [] && IsBlank(s[|s| - 1]) then 1 + TrailingBlanks(s[..|s| - 1]) else 0
  }

  /** No blank at either end. */
  predicate Trimmed(s: string) {
    s == [] || (!IsBlank(s[0]) && !IsBlank(s[|s| - 1]))
  }

  /** `String.trim`: no blank is left at either end; a trimmed string is left alone. */
  function Trim(s: string): (r: string)
    ensures Trimmed(r)
    ensures Trimmed(s) ==> r == s
    ensures |r| <= |s|
  {
    var i := LeadingBlanks(s);
    var t := s[i..];
    t[..|t| - TrailingBlanks(t)]
  }

  /** Every character of `s` is a blank. */
  predicate AllBlank(s: string) {
    forall k :: 0 <= k < |s| ==> IsBlank(s[k])
  }

  /** `trim` of a trimmed value padded with blanks on either side is the value. */
  lemma TrimPadded(b: string, x: string, c: string)
    requires AllBlank(b) && Trimmed(x) && AllBlank(c)
    ensures Trim(b + x + c) == x
  {
    var s := b + x + c;
    if x == [] {
      assert forall k :: 0 <= k < |s| ==> IsBlank(s[k]) by {
        forall k | 0 <= k < |s| ensures IsBlank(s[k]) {
          if k < |b| { assert s[k] == b[k]; } else { assert s[k] == c[k - |b|]; }
        }
      }
      assert LeadingBlanks(s) == |s|;
    } else {
      assert s[|b|] == x[0];
      assert forall k :: 0 <= k < |b| ==> s[k] == b[k];
      assert LeadingBlanks(s) == |b|;
      var t := s[|b|..];
      assert t == x + c;
      assert t[|x| - 1] == x[|x| - 1];
      assert forall k :: |x| <= k < |t| ==> t[k] == c[k - |x|];
      assert TrailingBlanks(t) == |c|;
      assert t[..|x|] == x;
    }
  }

  /**
   * A padded value followed by its closing tag: trimming, removing the tag
   * and trimming again gives back the value.
   */
  lemma CleanPadded(b1: string, v: string, b2: string, pat: string)
    requires AllBlank(b1) && Trimmed(v) && AllBlank(b2)
    requires pat != [] && Trimmed(pat) && pat[0] !in v
    ensures Trim(RemoveAll(Trim(b1 + v + b2 + pat), pat)) == v
  {
    var kept := if v == [] then [] else v + b2;
    TrimBeforeTag(b1, v, b2, pat);
    assert pat[0] !in kept by {
      assert forall k :: 0 <= k < |b2| ==> IsBlank(b2[k]);
    }
    RemoveAllTrailing(kept, pat);
    if v != [] {
      TrimRight(v, b2);
    }
  }

  /** The first `trim` of a padded value and its tag keeps the blanks between the value and the tag. */
  lemma TrimBeforeTag(b1: string, v: string, b2: string, pat: string)
    requires AllBlank(b1) && Trimmed(v) && AllBlank(b2)
    requires pat != [] && Trimmed(pat)
    ensures Trim(b1 + v + b2 + pat) == (if v == [] then [] else v + b2) + pat
  {
    if v == [] {
      assert AllBlank(b1 + b2) by {
        var bb := b1 + b2;
        forall k | 0 <= k < |bb| ensures IsBlank(bb[k]) {
          if k < |b1| { assert bb[k] == b1[k]; } else { assert bb[k] == b2[k - |b1|]; }
        }
      }
      assert b1 + v + b2 + pat == (b1 + b2) + pat;
      TrimLeft(b1 + b2, pat);
      assert [] + pat == pat;
    } else {
      var x := v + b2 + pat;
      assert x[0] == v[0] && x[|x| - 1] == pat[|pat| - 1];
      assert b1 + v + b2 + pat == b1 + x;
      TrimLeft(b1, x);
    }
  }

  /** `trim` of a trimmed value with blanks before it. */
  lemma TrimLeft(b: string, x: string)
    requires AllBlank(b) && Trimmed(x)
    ensures Trim(b + x) == x
  {
    TrimPadded(b, x, []);
    assert b + x + [] == b + x;
  }

  /** `trim` of a trimmed value with blanks after it. */
  lemma TrimRight(x: string, c: string)
    requires Trimmed(x) && AllBlank(c)
    ensures Trim(x + c) == x
  {
    TrimPadded([], x, c);
    assert [] + x + c == x + c;
  }

  /** What `trim` removes is blank: the result is `s` with a blank prefix and a blank suffix cut off. */
  lemma TrimIsSlice(s: string)
    ensures exists i, j :: 0 <= i <= j <= |s| && Trim(s) == s[i..j]
                           && (forall k :: 0 <= k < i ==> IsBlank(s[k]))
                           && (forall k :: j <= k < |s| ==> IsBlank(s[k]))
  {
    var i := LeadingBlanks(s);
    var t := s[i..];
    var n := TrailingBlanks(t);
    assert t[..|t| - n] == s[i..i + |t| - n];
    assert forall k :: i + |t| - n <= k < |s| ==> s[k] == t[k - i];
  }

  /** `s.replaceAll("[^0-9]", "")`. */
  function DigitsOnly(s: string): (r: string)
    ensures AllDigits(r)
    ensures |r| <= |s|
    ensures AllDigits(s) ==> r == s
    ensures |s| == 1 && !IsDigit(s[0]) ==> r == []
    decreases |s|
  {
    if s == [] then []
    else
      (if IsDigit(s[0]) then [s[0]] else []) + DigitsOnly(s[1..])
  }

  /** The value of a decimal numeral, most significant digit first. */
  function DecimalValue(d: string): nat
    requires AllDigits(d)
    decreases |d|
  {
    if d == [] then 0 else DecimalValue(d[..|d| - 1]) * 10 + (d[|d| - 1] as int - '0' as int)
  }

  function DigitChar(v: nat): (c: char)
    requires v < 10
    ensures IsDigit(c) && c as int - '0' as int == v
  {
    ('0' as int + v) as char
  }

  /** The canonical numeral of `n`, as `Integer.toString` writes it. */
  function DecimalString(n: nat): (d: string)
    ensures AllDigits(d) && d != []
    decreases n
  {
    if n < 10 then [DigitChar(n)] else DecimalString(n / 10) + [DigitChar(n % 10)]
  }

  function Pow10(k: nat): (p: nat)
    ensures p >= 1
  {
    if k == 0 then 1 else 10 * Pow10(k - 1)
  }

  /** A number below 10^k has at most k digits. */
  lemma {:induction false} DecimalStringWidth(n: nat, k: nat)
    requires 1 <= k && n < Pow10(k)
    ensures |DecimalString(n)| <= k
    decreases k
  {
    if n >= 10 {
      assert Pow10(1) == 10;
      assert k >= 2;
      assert n / 10 < Pow10(k - 1);
      DecimalStringWidth(n / 10, k - 1);
    }
  }

  /** Stripping non-digits distributes over concatenation, so the digits keep their order. */
  lemma {:induction false} DigitsOnlyAppend(a: string, b: string)
    ensures DigitsOnly(a + b) == DigitsOnly(a) + DigitsOnly(b)
    decreases |a|
  {
    if a != [] {
      var head := if IsDigit(a[0]) then [a[0]] else [];
      assert (a + b)[0] == a[0] && (a + b)[1..] == a[1..] + b;
      assert DigitsOnly(a + b) == head + DigitsOnly(a[1..] + b);
      DigitsOnlyAppend(a[1..], b);
      assert DigitsOnly(a) == head + DigitsOnly(a[1..]);
    } else {
      assert a + b == b;
    }
  }

  /**
   * A separator between digits is dropped and the digits on either side are
   * joined, as in the id `10.2452/41-AH`, which gives `10245241`.
   */
  lemma DigitsOnlyDropsSeparator(a: string, c: char, b: string)
    requires !IsDigit(c)
    ensures DigitsOnly(a + [c] + b) == DigitsOnly(a) + DigitsOnly(b)
  {
    DigitsOnlyAppend(a + [c], b);
    DigitsOnlyAppend(a, [c]);
  }

  /** Reading back the canonical numeral of `n` gives `n`. */
  lemma {:induction false} DecimalRoundTrip(n: nat)
    ensures DecimalValue(DecimalString(n)) == n
    decreases n
  {
    var d := DecimalString(n);
    if n < 10 {
      assert d[..|d| - 1] == [];
    } else {
      assert d[..|d| - 1] == DecimalString(n / 10);
      DecimalRoundTrip(n / 10);
    }
  }

  /** A leading zero does not change the value: `Integer.valueOf("007")` is 7. */
  lemma {:induction false} LeadingZeroIgnored(d: string)
    requires AllDigits(d)
    ensures AllDigits("0" + d) && DecimalValue("0" + d) == DecimalValue(d)
    decreases |d|
  {
    var z := "0" + d;
    if d == [] {
      assert z[..|z| - 1] == [];
    } else {
      assert z[..|z| - 1] == "0" + d[..|d| - 1];
      LeadingZeroIgnored(d[..|d| - 1]);
    }
  }
}
