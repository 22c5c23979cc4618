/** The loop of grep over its 1024-byte buffer: lines come out whole however the reads cut the input. */
module GrepLines {
  import GrepMatch

  const BUFSIZE: nat := 1024
  const NUL: char := '\0'

  /** The first newline, from `i` on, of the first 1023 characters, unless a zero byte comes first; -1 if
      there is none. */
  function NextLine(s: string, i: nat): (q: int)
    ensures q == -1 || i <= q < |s|
    decreases |s| - i
  {
    if i >= |s| || i >= BUFSIZE - 1 || s[i] == NUL then -1
    else if s[i] == '\n' then i
    else NextLine(s, i + 1)
  }

  /** What grep prints: the matching lines, up to the first one that is unfinished, does not fit into
      the buffer, or contains a zero byte. */
  ghost function Printed(re: string, s: string): string
    decreases |s|
  {
    var q := NextLine(s, 0);
    if q == -1 then "" else (if GrepMatch.Matches(re, s[..q]) then s[..q + 1] else "") + Printed(re, s[q + 1..])
  }

  /** Characters from `i` up to `q` are neither newlines nor zero bytes. */
  ghost predicate Plain(s: string, i: nat, q: nat) {
    q <= |s| && forall k :: i <= k < q ==> s[k] != '\n' && s[k] != NUL
  }

  lemma {:induction false} NextLineAt(s: string, i: nat, q: nat)
    requires i <= q && Plain(s, i, q)
    ensures q < |s| && s[q] == '\n' && q < BUFSIZE - 1 ==> NextLine(s, i) == q
    ensures q == |s| || s[q] == NUL || q >= BUFSIZE - 1 ==> NextLine(s, i) == -1
    decreases q - i
  {
    if i < q && i < BUFSIZE - 1 {
      NextLineAt(s, i + 1, q);
    }
  }

  /** No line can be completed from what is in the buffer. */
  ghost predicate NoLine(s: string) {
    exists q: nat :: Plain(s, 0, q) && (q == |s| || s[q] == NUL)
  }

  /** A full buffer without a line, or no more input: nothing more is printed. */
  lemma NothingPrinted(re: string, s: string, rest: string)
    requires NoLine(s) && (rest == "" || |s| >= BUFSIZE - 1)
    ensures Printed(re, s + rest) == ""
  {
    var q: nat :| Plain(s, 0, q) && (q == |s| || s[q] == NUL);
    assert Plain(s + rest, 0, q);
    NextLineAt(s + rest, 0, q);
  }

  /** The first line is dealt with. */
  lemma PrintedLine(re: string, s: string, q: nat)
    requires Plain(s, 0, q) && q < |s| && s[q] == '\n' && q < BUFSIZE - 1
    ensures Printed(re, s) == (if GrepMatch.Matches(re, s[..q]) then s[..q + 1] else "") + Printed(re, s[q + 1..])
  {
    NextLineAt(s, 0, q);
  }

  lemma AfterLine(re: string, s: string, q: nat, rest: string)
    requires Plain(s, 0, q) && q < |s| < BUFSIZE && s[q] == '\n'
    ensures Printed(re, s + rest) == (if GrepMatch.Matches(re, s[..q]) then s[..q + 1] else "") + Printed(re, s[q + 1..] + rest)
  {
    hide GrepMatch.Matches, Printed;
    assert Plain(s + rest, 0, q);
    PrintedLine(re, s + rest, q);
    assert (s + rest)[..q] == s[..q] && (s + rest)[..q + 1] == s[..q + 1] && (s + rest)[q + 1..] == s[q + 1..] + rest;
  }

  /** The lines as text. */
  function Text(lines: seq<string>): string {
    if lines == [] then "" else lines[0] + ['\n'] + Text(lines[1..])
  }

  /** The lines that match, in order. */
  ghost function Matching(re: string, lines: seq<string>): seq<string> {
    if lines == [] then [] else (if GrepMatch.Matches(re, lines[0]) then [lines[0]] else []) + Matching(re, lines[1..])
  }

  predicate Short(line: string) {
    |line| < 1023 && forall k :: 0 <= k < |line| ==> line[k] != '\n' && line[k] != NUL
  }

  /** Of a text of lines that fit into the buffer, the matching lines are printed and no others, each once and in
      order; what follows the last newline is not. */
  lemma {:induction false} PrintedLines(re: string, lines: seq<string>, tail: string)
    requires forall i :: 0 <= i < |lines| ==> Short(lines[i])
    requires forall k :: 0 <= k < |tail| ==> tail[k] != '\n'
    ensures Printed(re, Text(lines) + tail) == Text(Matching(re, lines))
  {
    hide Printed, GrepMatch.Matches;
    if lines == [] {
      assert Text(lines) + tail == tail;
      Unfinished(tail, 0);
      NothingLeft(re, tail);
    } else {
      var line, rest := lines[0], Text(lines[1..]) + tail;
      assert Text(lines) + tail == line + ['\n'] + rest;
      OneLine(re, line, rest);
      PrintedLines(re, lines[1..], tail);
      TextStep(line, Matching(re, lines[1..]));
      assert [] + Matching(re, lines[1..]) == Matching(re, lines[1..]) && "" + Printed(re, rest) == Printed(re, rest);
    }
  }

  lemma TextStep(line: string, lines: seq<string>)
    ensures Text([line] + lines) == line + ['\n'] + Text(lines)
  {
    assert ([line] + lines)[1..] == lines;
  }

  lemma NothingLeft(re: string, s: string)
    requires NextLine(s, 0) == -1
    ensures Printed(re, s) == ""
  {
  }

  lemma OneLine(re: string, line: string, rest: string)
    requires Short(line)
    ensures Printed(re, line + ['\n'] + rest) == (if GrepMatch.Matches(re, line) then line + ['\n'] else "") + Printed(re, rest)
  {
    hide Printed;
    var all := line + ['\n'] + rest;
    assert Plain(all, 0, |line|);
    PrintedLine(re, all, |line|);
    assert all[..|line|] == line && all[|line| + 1..] == rest && all[..|line| + 1] == line + ['\n'];
  }

  lemma {:induction false} Unfinished(s: string, i: nat)
    requires forall k :: 0 <= k < |s| ==> s[k] != '\n'
    ensures NextLine(s, i) == -1
    decreases |s| - i
  {
    if i < |s| {
      Unfinished(s, i + 1);
    }
  }

  /** The state of grep on one file: what is left to read, in which portions reads will deliver it, and
      what has been written. */
  class Grepper {
    const buf: array<char>
    var input: string
    var portions: seq<nat>
    var output: string

    constructor (input: string, portions: seq<nat>)
      ensures this.input == input && this.portions == portions && output == "" && fresh(buf) && buf.Length == BUFSIZE
    {
      buf := new char[BUFSIZE];
      this.input, this.portions, output := input, portions, "";
    }

    /** Read at most `max` characters to position `m` of the buffer; none only if there is no room or no
        input. */
    method Read(m: nat, max: nat) returns (n: nat)
      requires m + max <= buf.Length
      modifies this`input, this`portions, buf
      ensures n <= max && n <= |old(input)| && input == old(input)[n..]
      ensures buf[m..m + n] == old(input)[..n] && buf[..m] == old(buf[..m])
      ensures n == 0 ==> max == 0 || old(input) == ""
    {
      var want := if portions == [] then max else if portions[0] == 0 then 1 else portions[0];
      portions := if portions == [] then [] else portions[1..];
      n := if want < max then want else max;
      n := if n < |input| then n else |input|;
      forall i | 0 <= i < n {
        buf[m + i] := input[i];
      }
      input := input[n..];
    }

    /** The first newline at or after `p`, before the zero byte that ends the string; -1 if there is none. */
    method StrChr(p: nat, m: nat) returns (q: int)
      requires p <= m < buf.Length && buf[m] == NUL
      ensures q == -1 ==> NoLine(buf[p..m])
      ensures q != -1 ==> p <= q < m && buf[q] == '\n' && Plain(buf[p..m], 0, q - p)
    {
      q := p;
      while buf[q] != NUL && buf[q] != '\n'
        invariant p <= q <= m && Plain(buf[p..m], 0, q - p)
        decreases m - q
      {
        q := q + 1;
      }
      if buf[q] == NUL {
        assert q < m ==> buf[p..m][q - p] == NUL;
        return -1;
      }
    }

    /** Print the matching lines of `buf[..m]`; what follows the last newline is left at the returned
        position. */
    method PrintLines(re: string, m: nat) returns (p: nat)
      requires m < BUFSIZE == buf.Length && buf[m] == NUL
      modifies this`output, buf
      ensures p <= m && NoLine(buf[p..m])
      ensures output + Printed(re, buf[p..m] + input) == old(output) + Printed(re, old(buf[..m]) + input)
    {
      hide Printed, NoLine, Plain;
      p := 0;
      ghost var goal := old(output) + Printed(re, old(buf[..m]) + input);
      assert buf[0..m] == buf[..m];
      var q := StrChr(p, m);
      while q != -1
        invariant p <= m && buf[m] == NUL
        invariant q == -1 ==> NoLine(buf[p..m])
        invariant q != -1 ==> p <= q < m && buf[q] == '\n' && Plain(buf[p..m], 0, q - p)
        invariant output + Printed(re, buf[p..m] + input) == goal
        decreases m - p
      {
        PrintLine(re, p, q, m);
        p := q + 1;
        q := StrChr(p, m);
      }
    }

    /** One line: `buf[p..q]`, ended for the matcher by a zero byte in place of its newline. */
    method PrintLine(re: string, p: nat, q: nat, m: nat)
      requires p <= q < m < BUFSIZE == buf.Length && buf[q] == '\n' && Plain(buf[p..m], 0, q - p)
      modifies this`output, buf
      ensures buf[q + 1..] == old(buf[q + 1..])
      ensures output + Printed(re, buf[q + 1..m] + input) == old(output) + Printed(re, old(buf[p..m]) + input)
    {
      hide Printed, Plain, GrepMatch.Matches;
      AfterLine(re, buf[p..m], q - p, input);
      assert buf[p..m][..q - p] == buf[p..q] && buf[p..m][..q - p + 1] == buf[p..q + 1] && buf[p..m][q - p + 1..] == buf[q + 1..m];
      MatchLine(re, p, q);
      assert buf[q + 1..m] == buf[q + 1..][..m - q - 1];
      assert old(buf[q + 1..m]) == old(buf[q + 1..])[..m - q - 1];
    }

    /** Match one line in place and write it out with its newline if it matches. */
    method MatchLine(re: string, p: nat, q: nat)
      requires p <= q < buf.Length && buf[q] == '\n'
      modifies this`output, buf
      ensures buf[q + 1..] == old(buf[q + 1..])
      ensures output == old(output) + if GrepMatch.Matches(re, old(buf[p..q])) then old(buf[p..q + 1]) else ""
    {
      hide GrepMatch.Matches;
      ghost var line := buf[p..q + 1];
      var text := buf[p..q];
      buf[q] := NUL;
      var matched := GrepMatch.Match(re, text);
      if matched {
        buf[q] := '\n';
        assert buf[p..q + 1] == line;
        output := output + buf[p..q + 1];
      }
    }

    /** Move the unfinished line to the front of the buffer. */
    method MoveDown(p: nat, m: nat)
      requires p <= m < buf.Length
      modifies buf
      ensures buf[..m - p] == old(buf[p..m])
    {
      forall i | 0 <= i < m - p {
        buf[i] := buf[p + i];
      }
    }

    /** Print the matching lines of the input. The result does not depend on how reads portion it. */
    method Grep(re: string)
      requires buf.Length == BUFSIZE
      modifies this`input, this`portions, this`output, buf
      ensures output == old(output) + Printed(re, old(input))
    {
      hide Printed, NoLine, Plain;
      EmptyHasNoLine();
      ghost var goal := output + Printed(re, input);
      assert buf[..0] + input == input;
      var m: nat := 0;
      while true
        invariant m < BUFSIZE && NoLine(buf[..m])
        invariant output + Printed(re, buf[..m] + input) == goal
        decreases |input|
      {
        ghost var before, pending := buf[..m] + input, buf[..m];
        var n := Read(m, BUFSIZE - m - 1);
        if n == 0 {
          NothingPrinted(re, pending, input);
          assert before == pending + input;
          break;
        }
        m := m + n;
        assert buf[..m] + input == before;
        buf[m] := NUL;
        assert buf[..m] + input == before;
        var p := PrintLines(re, m);
        MoveDown(p, m);
        m := m - p;
      }
    }

    lemma EmptyHasNoLine()
      ensures NoLine("")
    {
      assert Plain("", 0, 0);
    }
  }
}
