/**
 * The slice of java.io.BufferedReader the topic reader uses: the text split into
 * lines the way `readLine` splits it, a line cursor, `mark`/`reset` of that
 * cursor, and a non-consuming peek at the first characters of the text.
 */
module LineStream {
  import opened Common

  /** `readLine` ends a line at a line feed, a carriage return, or both together. */
  predicate IsTerminator(c: char) { c == '\n' || c == '\r' }

  predicate NoTerminator(line: string) {
    forall k :: 0 <= k < |line| ==> !IsTerminator(line[k])
  }

  lemma NoTerminatorAppend(a: string, b: string)
    requires NoTerminator(a) && NoTerminator(b)
    ensures NoTerminator(a + b)
  {
    var s := a + b;
    forall k | 0 <= k < |s| ensures !IsTerminator(s[k]) {
      if k < |a| { assert s[k] == a[k]; } else { assert s[k] == b[k - |a|]; }
    }
  }

  /** The index of the first terminator at or after `i`, or `|t|` when there is none. */
  function LineEnd(t: string, i: nat): (e: nat)
    requires i <= |t|
    ensures i <= e <= |t|
    ensures forall k :: i <= k < e ==> !IsTerminator(t[k])
    ensures e < |t| ==> IsTerminator(t[e])
    decreases |t| - i
  {
    if i == |t| || IsTerminator(t[i]) then i else LineEnd(t, i + 1)
  }

  /**
   * The successive results of `readLine` on `t` until it returns null: a "\r\n"
   * pair ends one line, and a final terminator does not start an empty line.
   */
  function LinesOf(t: string): (ls: seq<string>)
    ensures forall k :: 0 <= k < |ls| ==> NoTerminator(ls[k])
    decreases |t|
  {
    if t == [] then []
    else
      var e := LineEnd(t, 0);
      if e == |t| then [t]
      else
        var width := if t[e] == '\r' && e + 1 < |t| && t[e + 1] == '\n' then 2 else 1;
        [t[..e]] + LinesOf(t[e + width..])
  }

  /** A line that ends before the end of the text, then the lines after its terminator. */
  lemma LinesOfSplit(t: string, n: nat, width: nat)
    requires n < |t| && LineEnd(t, 0) == n
    requires width == if t[n] == '\r' && n + 1 < |t| && t[n + 1] == '\n' then 2 else 1
    ensures LinesOf(t) == [t[..n]] + LinesOf(t[n + width..])
  {}

  /** The three line endings `readLine` recognises. */
  predicate IsLineEnd(eol: string) { eol == "\n" || eol == "\r" || eol == "\r\n" }

  /** The text of a file whose every line ends in `eol`. */
  function TerminatedBy(ls: seq<string>, eol: string): string
    decreases |ls|
  {
    if ls == [] then [] else ls[0] + eol + TerminatedBy(ls[1..], eol)
  }

  /** A file written with carriage returns never starts with a line feed. */
  lemma {:induction false} TerminatedByHead(ls: seq<string>, eol: string)
    requires IsLineEnd(eol) && eol[0] == '\r'
    requires forall k :: 0 <= k < |ls| ==> NoTerminator(ls[k])
    ensures TerminatedBy(ls, eol) != [] ==> TerminatedBy(ls, eol)[0] != '\n'
  {
    if ls != [] {
      var t := TerminatedBy(ls, eol);
      assert t == ls[0] + eol + TerminatedBy(ls[1..], eol);
      if ls[0] == [] {
        assert t[0] == eol[0];
      } else {
        assert t[0] == ls[0][0];
      }
    }
  }

  /** Reading back a file written line by line, with any of the three endings, gives the lines written. */
  lemma LinesOfTerminated(ls: seq<string>, eol: string)
    requires IsLineEnd(eol)
    requires forall k :: 0 <= k < |ls| ==> NoTerminator(ls[k])
    ensures LinesOf(TerminatedBy(ls, eol)) == ls
  {
    LinesOfUnterminatedLast(ls, eol, []);
    assert TerminatedBy(ls, eol) + [] == TerminatedBy(ls, eol);
    assert ls + [] == ls;
  }

  /**
   * The same when the last line of the file has no terminator: it is still
   * read as a line of its own, unless it is empty.
   */
  lemma {:induction false} LinesOfUnterminatedLast(ls: seq<string>, eol: string, last: string)
    requires IsLineEnd(eol) && NoTerminator(last)
    requires forall k :: 0 <= k < |ls| ==> NoTerminator(ls[k])
    ensures LinesOf(TerminatedBy(ls, eol) + last) == ls + (if last == [] then [] else [last])
    decreases |ls|
  {
    if ls == [] {
      assert TerminatedBy(ls, eol) + last == last;
      if last != [] {
        assert LineEnd(last, 0) == |last|;
      }
    } else {
      var rest := TerminatedBy(ls[1..], eol) + last;
      assert TerminatedBy(ls, eol) + last == ls[0] + eol + rest;
      if eol == "\r" && rest != [] {
        if TerminatedBy(ls[1..], eol) == [] {
          assert rest == last;
        } else {
          TerminatedByHead(ls[1..], eol);
          assert rest[0] == TerminatedBy(ls[1..], eol)[0];
        }
      }
      LinesOfLine(ls[0], eol, rest);
      LinesOfUnterminatedLast(ls[1..], eol, last);
      assert ls == [ls[0]] + ls[1..];
    }
  }

  /** One line and its terminator, then the rest of the text; a lone `\r` is not followed by `\n`. */
  lemma LinesOfLine(line: string, eol: string, rest: string)
    requires IsLineEnd(eol) && NoTerminator(line)
    requires eol == "\r" && rest != [] ==> rest[0] != '\n'
    ensures LinesOf(line + eol + rest) == [line] + LinesOf(rest)
  {
    var t := line + eol + rest;
    var n := |line|;
    assert LineEnd(t, 0) == n && t[..n] == line by {
      assert t[n] == eol[0];
      assert forall k :: 0 <= k < n ==> t[k] == line[k];
    }
    var width := if t[n] == '\r' && n + 1 < |t| && t[n + 1] == '\n' then 2 else 1;
    assert width == |eol| by {
      if eol == "\r" {
        assert n + 1 < |t| ==> t[n + 1] == rest[0];
      } else if eol == "\r\n" {
        assert t[n + 1] == '\n';
      }
    }
    assert t[n + width..] == rest;
    LinesOfSplit(t, n, width);
  }

  /** The first `n` characters of `t`, or all of `t` when it is shorter. */
  function Prefix(t: string, n: nat): (w: string)
    ensures |w| == (if n < |t| then n else |t|)
    ensures w <= t
  {
    t[..if n < |t| then n else |t|]
  }

  class LineReader {
    const text: string
    const lines: seq<string>
    var pos: nat
    var markPos: nat

    ghost predicate Valid()
      reads this
    {
      lines == LinesOf(text) && pos <= |lines| && markPos <= |lines|
    }

    constructor (text: string)
      ensures Valid() && this.text == text && pos == 0 && markPos == 0
    {
      this.text := text;
      lines := LinesOf(text);
      pos, markPos := 0, 0;
    }

    /** `readLine`: the next line and one line further on, or `None` at the end. */
    method ReadLine() returns (line: Option<string>)
      requires Valid()
      modifies this`pos
      ensures Valid()
      ensures old(pos) < |lines| ==> line == Some(lines[old(pos)]) && pos == old(pos) + 1
      ensures old(pos) == |lines| ==> line == None && pos == old(pos)
    {
      if pos < |lines| {
        line := Some(lines[pos]);
        pos := pos + 1;
      } else {
        line := None;
      }
    }

    /** `mark`: remember the cursor. */
    method Mark()
      requires Valid()
      modifies this`markPos
      ensures Valid() && markPos == pos
    {
      markPos := pos;
    }

    /** `reset`: go back to the remembered cursor. */
    method Reset()
      requires Valid()
      modifies this`pos
      ensures Valid() && pos == markPos
    {
      pos := markPos;
    }

    /**
     * `mark(n)`, `read(buffer, 0, n)`, `reset()` at the start of the stream: the
     * first `n` characters of the text (fewer if the text is shorter), nothing consumed.
     */
    function Peek(n: nat): (w: string)
      reads this
      requires Valid() && pos == 0
      ensures |w| == (if n < |text| then n else |text|)
      ensures w <= text
    {
      Prefix(text, n)
    }
  }
}
