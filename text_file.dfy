/**
 * The ledger's file, "doacoes.txt", as the text it holds. It is written line
 * by line with `BufferedWriter.write` and `newLine` and read back with
 * `BufferedReader.readLine`, which ends a line at "\n", "\r" or "\r\n".
 */
module TextFile {
  import opened Wrappers

  /** What opening the file for reading finds. */
  datatype FileState = Absent | Unreadable | Text(content: string)

  /** The file itself: shared, outliving any one ledger object. */
  class Arquivo {
    var state: FileState

    constructor (initial: FileState)
      ensures state == initial
    {
      state := initial;
    }
  }

  /** The line separator `newLine` writes. */
  const NewLine: string := "\n"

  predicate IsLineBreak(c: char) {
    c == '\n' || c == '\r'
  }

  /** A line that `readLine` gives back as one line. */
  predicate OneLine(s: string) {
    forall i :: 0 <= i < |s| ==> !IsLineBreak(s[i])
  }

  /** Index of the first line break in `t`, or `|t|`. */
  function LineEnd(t: string): (j: nat)
    ensures j <= |t| && OneLine(t[..j]) && (j < |t| ==> IsLineBreak(t[j]))
  {
    if t == [] || IsLineBreak(t[0]) then 0
    else
      var j := 1 + LineEnd(t[1..]);
      assert t[..j] == [t[0]] + t[1..][..j - 1];
      j
  }

  /**
   * `readLine` on the text not yet read: None at the end of the text,
   * otherwise the text up to the first line break, and the text after its
   * terminator, which is "\n", "\r\n", a "\r" not followed by "\n", or the
   * end of the text.
   */
  function ReadLine(t: string): (r: Option<(string, string)>)
    ensures r.None? <==> t == []
    ensures r.Some? ==> OneLine(r.value.0) && |r.value.1| < |t|
    ensures r.Some? ==> var (line, rest) := r.value;
              || (t == line && rest == [])
              || t == line + "\n" + rest
              || t == line + "\r\n" + rest
              || (t == line + "\r" + rest && (rest == [] || rest[0] != '\n'))
  {
    if t == [] then None
    else
      var j := LineEnd(t);
      if j == |t| then
        assert t[..j] == t;
        Some((t, []))
      else if t[j] == '\r' && j + 1 < |t| && t[j + 1] == '\n' then
        assert t == t[..j] + "\r\n" + t[j + 2..];
        Some((t[..j], t[j + 2..]))
      else
        assert t == t[..j] + [t[j]] + t[j + 1..];
        Some((t[..j], t[j + 1..]))
  }

  /** Every line `readLine` returns before it returns null. */
  function ReadLines(t: string): (ls: seq<string>)
    ensures forall k :: 0 <= k < |ls| ==> OneLine(ls[k])
    decreases |t|
  {
    match ReadLine(t)
    case None => []
    case Some((line, rest)) => [line] + ReadLines(rest)
  }

  lemma ReadLinesStep(t: string)
    requires t != []
    ensures ReadLines(t) == [ReadLine(t).value.0] + ReadLines(ReadLine(t).value.1)
  {
  }

  /** The text left by writing each line followed by the line separator. */
  function WriteLines(ls: seq<string>): string {
    if ls == [] then "" else ls[0] + NewLine + WriteLines(ls[1..])
  }

  lemma {:induction false} WriteLinesAppend(ls: seq<string>, l: string)
    ensures WriteLines(ls + [l]) == WriteLines(ls) + l + NewLine
  {
    if ls == [] {
      assert ls + [l] == [l];
    } else {
      assert (ls + [l])[1..] == ls[1..] + [l];
      WriteLinesAppend(ls[1..], l);
    }
  }

  /** The first line break of a text that starts with a line and a break is right after that line. */
  lemma LineEndAfter(l: string, c: char, rest: string)
    requires OneLine(l) && IsLineBreak(c)
    ensures LineEnd(l + [c] + rest) == |l|
  {
    var t := l + [c] + rest;
    assert t[|l|] == c;
  }

  /** Each of the three terminators ends the same line, and "\r\n" is one terminator, not two. */
  lemma ReadLineTerminators(l: string, rest: string)
    requires OneLine(l)
    ensures ReadLine(l + "\n" + rest) == Some((l, rest))
    ensures ReadLine(l + "\r\n" + rest) == Some((l, rest))
    ensures rest == [] || rest[0] != '\n' ==> ReadLine(l + "\r" + rest) == Some((l, rest))
  {
    LineEndAfter(l, '\n', rest);
    var n := l + "\n" + rest;
    assert n[..|l|] == l && n[|l| + 1..] == rest;
    LineEndAfter(l, '\r', "\n" + rest);
    var crlf := l + "\r\n" + rest;
    assert crlf == l + ['\r'] + ("\n" + rest);
    assert crlf[..|l|] == l && crlf[|l| + 2..] == rest;
    LineEndAfter(l, '\r', rest);
    var cr := l + "\r" + rest;
    assert cr[..|l|] == l && cr[|l| + 1..] == rest;
  }

  /** Lines without line breaks are read back exactly as they were written. */
  lemma {:induction false} ReadLinesWriteLines(ls: seq<string>)
    requires forall k :: 0 <= k < |ls| ==> OneLine(ls[k])
    ensures ReadLines(WriteLines(ls)) == ls
  {
    if ls != [] {
      ReadLineTerminators(ls[0], WriteLines(ls[1..]));
      ReadLinesWriteLines(ls[1..]);
    }
  }
}
