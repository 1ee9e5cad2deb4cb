/** The text of a file as `Files.write` produces it from a list of lines and
    as `Files.readAllLines` cuts it back into lines. */
module TextFiles {
  const LineFeed: char := '\n'
  const CarriageReturn: char := '\r'

  predicate IsLineBreak(c: char) {
    c == LineFeed || c == CarriageReturn
  }

  /** A text that `readAllLines` keeps as one line. */
  predicate OneLine(s: string) {
    LineFeed !in s && CarriageReturn !in s
  }

  /** `Files.write(path, lines, ...)`: every line followed by the line
      separator, taken as "\n". */
  function WriteLines(lines: seq<string>): string {
    if lines == [] then [] else lines[0] + [LineFeed] + WriteLines(lines[1..])
  }

  /** The length of the first line of `t`: up to its first line break. */
  function LineEnd(t: string): (k: nat)
    ensures k <= |t|
    ensures k < |t| ==> IsLineBreak(t[k])
    ensures OneLine(t[..k])
  {
    if t == [] || IsLineBreak(t[0]) then 0
    else
      var k := 1 + LineEnd(t[1..]);
      assert t[..k] == [t[0]] + t[1..][..k - 1];
      k
  }

  /** What follows the line break at `k`; "\r\n" is one line break. */
  function AfterBreak(t: string, k: nat): (rest: string)
    requires k < |t|
    ensures |rest| < |t|
  {
    if t[k] == CarriageReturn && k + 1 < |t| && t[k + 1] == LineFeed then t[k + 2..] else t[k + 1..]
  }

  /** `Files.readAllLines`: a line ends at "\n", "\r" or "\r\n"; text
      after the last line break is a last line only when it is not empty. */
  function ReadAllLines(t: string): (lines: seq<string>)
    ensures forall i :: 0 <= i < |lines| ==> OneLine(lines[i])
    decreases |t|
  {
    if t == [] then []
    else
      var k := LineEnd(t);
      if k == |t| then [t] else [t[..k]] + ReadAllLines(AfterBreak(t, k))
  }

  /** The first line of a text that starts with a one-line text and a line
      break. */
  lemma {:induction false} LineEndAt(a: string, c: char, rest: string)
    requires OneLine(a) && IsLineBreak(c)
    ensures LineEnd(a + [c] + rest) == |a|
  {
    var t := a + [c] + rest;
    if a == [] {
      assert t[0] == c;
    } else {
      assert t[0] == a[0];
      assert t[1..] == a[1..] + [c] + rest;
      assert forall x :: x in a[1..] ==> x in a;
      LineEndAt(a[1..], c, rest);
    }
  }

  /** Reading back a one-line text followed by a line break. */
  lemma ReadFirstLine(a: string, c: char, rest: string)
    requires OneLine(a) && IsLineBreak(c)
    requires c == CarriageReturn ==> rest == [] || rest[0] != LineFeed
    ensures ReadAllLines(a + [c] + rest) == [a] + ReadAllLines(rest)
  {
    var t := a + [c] + rest;
    LineEndAt(a, c, rest);
    assert t[..|a|] == a;
    assert AfterBreak(t, |a|) == rest by {
      assert t[|a|] == c;
      assert t[|a| + 1..] == rest;
      if c == CarriageReturn && |a| + 1 < |t| {
        assert t[|a| + 1] == rest[0];
      }
    }
  }

  /** Writing lines that hold no line break and reading the file gives the
      lines back. */
  lemma {:induction false} ReadWrite(lines: seq<string>)
    requires forall i :: 0 <= i < |lines| ==> OneLine(lines[i])
    ensures ReadAllLines(WriteLines(lines)) == lines
  {
    if lines != [] {
      ReadFirstLine(lines[0], LineFeed, WriteLines(lines[1..]));
      ReadWrite(lines[1..]);
    }
  }

  /** A line holding a lone "\r" is read back as two lines. */
  lemma CarriageReturnSplits(a: string, b: string)
    requires OneLine(a) && OneLine(b) && b != []
    ensures ReadAllLines(WriteLines([a + [CarriageReturn] + b])) == [a, b]
  {
    var line := a + [CarriageReturn] + b;
    assert WriteLines([line]) == a + [CarriageReturn] + (b + [LineFeed]);
    ReadFirstLine(a, CarriageReturn, b + [LineFeed]);
    ReadFirstLine(b, LineFeed, []);
    assert b + [LineFeed] == b + [LineFeed] + [];
  }
}
