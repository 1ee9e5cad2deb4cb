/** The parts of java.lang.String that the CSV codec relies on:
    `trim()`, `isEmpty()` after trimming, and `split(",", -1)`. */
module Strings {

  /** `String.trim()` removes every character whose code is at most U+0020. */
  predicate IsTrimmable(c: char) {
    c <= ' '
  }

  /** No character of `s` is one that `trim()` would remove. */
  predicate NoTrimmable(s: string) {
    forall i :: 0 <= i < |s| ==> !IsTrimmable(s[i])
  }

  /** Drops the trimmable characters at the front. */
  function TrimLeft(s: string): (r: string)
    ensures |r| <= |s| && r == s[|s| - |r|..]
    ensures r != [] ==> !IsTrimmable(r[0])
    ensures forall i :: 0 <= i < |s| - |r| ==> IsTrimmable(s[i])
  {
    if s != [] && IsTrimmable(s[0]) then TrimLeft(s[1..]) else s
  }

  /** Drops the trimmable characters at the back. */
  function TrimRight(s: string): (r: string)
    ensures |r| <= |s| && r == s[..|r|]
    ensures r != [] ==> !IsTrimmable(r[|r| - 1])
    ensures forall i :: |r| <= i < |s| ==> IsTrimmable(s[i])
  {
    if s != [] && IsTrimmable(s[|s| - 1]) then TrimRight(s[..|s| - 1]) else s
  }

  /** `s.trim()`: the trimmable characters are dropped at the front (what
      `TrimLeft` keeps is a suffix of `s`), then at the back. */
  function Trim(s: string): (r: string)
    ensures |r| <= |s|
    ensures r != [] ==> !IsTrimmable(r[0]) && !IsTrimmable(r[|r| - 1])
  {
    TrimRight(TrimLeft(s))
  }

  /** `trim()` keeps a slice: a prefix of what is left after the front is
      trimmed (itself a suffix of `s`), and only trimmable characters are
      dropped at either end. */
  lemma TrimKeepsSlice(s: string)
    ensures var l := TrimLeft(s);
      l == s[|s| - |l|..] && (forall i :: 0 <= i < |s| - |l| ==> IsTrimmable(s[i]))
      && |Trim(s)| <= |l| && Trim(s) == l[..|Trim(s)|]
      && (forall i :: |Trim(s)| <= i < |l| ==> IsTrimmable(l[i]))
  {
  }

  /** `s.trim().isEmpty()`: the test the loaders use to skip a line. */
  predicate IsBlank(s: string) {
    Trim(s) == []
  }

  /** A line is blank exactly when every character of it is trimmable. */
  lemma BlankIffAllTrimmable(s: string)
    ensures IsBlank(s) <==> forall i :: 0 <= i < |s| ==> IsTrimmable(s[i])
  {
    var l := TrimLeft(s);
    if l != [] {
      assert TrimRight(l) != [] by {
        assert !IsTrimmable(l[0]);
      }
      assert !IsTrimmable(s[|s| - |l|]);
    }
  }

  /** A string that already has no trimmable ends is left as it is. */
  lemma TrimNoOp(s: string)
    requires s != [] ==> !IsTrimmable(s[0]) && !IsTrimmable(s[|s| - 1])
    ensures Trim(s) == s
  {
  }

  /** Trimming twice is trimming once. */
  lemma TrimIdempotent(s: string)
    ensures Trim(Trim(s)) == Trim(s)
  {
    TrimNoOp(Trim(s));
  }

  /** A string with no trimmable character at all is its own trim. */
  lemma TrimSolid(s: string)
    requires NoTrimmable(s)
    ensures Trim(s) == s
  {
    TrimNoOp(s);
  }

  /** Trimming only removes characters, so it adds none. */
  lemma TrimKeepsAbsent(s: string, c: char)
    requires c !in s
    ensures c !in Trim(s)
  {
    var l := TrimLeft(s);
    assert l == s[|s| - |l|..];
    var r := TrimRight(l);
    assert r == l[..|r|];
  }

  /** `s.split(String.valueOf(sep), -1)`: the pieces between occurrences of
      `sep`, keeping empty leading and trailing pieces, so there is always
      one more piece than there are separators. */
  function Split(s: string, sep: char): (r: seq<string>)
    ensures |r| >= 1
    ensures forall i :: 0 <= i < |r| ==> sep !in r[i]
  {
    if s == [] then [[]]
    else if s[0] == sep then [[]] + Split(s[1..], sep)
    else
      var rest := Split(s[1..], sep);
      [[s[0]] + rest[0]] + rest[1..]
  }

  /** The pieces glued back together with `sep` between them. */
  function Join(pieces: seq<string>, sep: char): string
    requires |pieces| >= 1
  {
    if |pieces| == 1 then pieces[0] else pieces[0] + [sep] + Join(pieces[1..], sep)
  }

  /** Splitting loses nothing: joining the pieces gives back the line. */
  lemma {:induction false} JoinSplit(s: string, sep: char)
    ensures Join(Split(s, sep), sep) == s
  {
    if s != [] {
      JoinSplit(s[1..], sep);
      if s[0] != sep {
        var rest := Split(s[1..], sep);
        if |rest| > 1 {
          assert ([s[0]] + rest[0]) + [sep] + Join(rest[1..], sep)
              == [s[0]] + (rest[0] + [sep] + Join(rest[1..], sep));
        }
      }
    }
  }

  /** A piece without the separator, followed by the separator, is split off whole. */
  lemma {:induction false} SplitCons(a: string, sep: char, b: string)
    requires sep !in a
    ensures Split(a + [sep] + b, sep) == [a] + Split(b, sep)
  {
    if a != [] {
      assert (a + [sep] + b)[1..] == a[1..] + [sep] + b;
      SplitCons(a[1..], sep, b);
      assert [a[0]] + a[1..] == a;
    } else {
      assert a + [sep] + b == [sep] + b;
    }
  }

  /** A string without the separator is one piece. */
  lemma {:induction false} SplitNone(a: string, sep: char)
    requires sep !in a
    ensures Split(a, sep) == [a]
  {
    if a != [] {
      SplitNone(a[1..], sep);
      assert [a[0]] + a[1..] == a;
    }
  }

  /** Splitting a join of separator-free pieces gives the pieces back. */
  lemma {:induction false} SplitJoin(pieces: seq<string>, sep: char)
    requires |pieces| >= 1
    requires forall i :: 0 <= i < |pieces| ==> sep !in pieces[i]
    ensures Split(Join(pieces, sep), sep) == pieces
  {
    if |pieces| == 1 {
      SplitNone(pieces[0], sep);
    } else {
      SplitJoin(pieces[1..], sep);
      SplitCons(pieces[0], sep, Join(pieces[1..], sep));
    }
  }

  /** A middle piece holding the separator reads as two pieces. */
  /** Two and three pieces joined, written out. */
  lemma JoinShort(x: string, y: string, z: string, sep: char)
    ensures Join([x, y], sep) == x + [sep] + y
    ensures Join([x, y, z], sep) == x + [sep] + y + [sep] + z
  {
    assert [x, y][1..] == [y];
    assert [y, z][1..] == [z];
    assert [x, y, z][1..] == [y, z];
    assert Join([y, z], sep) == y + [sep] + z;
  }

  lemma JoinSplitsMiddle(x: string, a: string, b: string, y: string, sep: char)
    ensures Join([x, a + [sep] + b, y], sep) == Join([x, a, b, y], sep)
  {
    var three, four := [x, a + [sep] + b, y], [x, a, b, y];
    assert three[1..] == [a + [sep] + b, y] && three[1..][1..] == [y];
    assert four[1..] == [a, b, y] && four[1..][1..] == [b, y] && four[1..][1..][1..] == [y];
    assert Join(four[1..][1..], sep) == b + [sep] + y;
    assert Join(four[1..], sep) == a + [sep] + (b + [sep] + y);
    assert Join(three[1..], sep) == (a + [sep] + b) + [sep] + y;
  }
}
