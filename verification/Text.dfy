/** Cutting text at a character, and into lines. */
module Text {
  import opened Wrappers

  /** The text before and after the first occurrence of a character. */
  function Cut(s: string, c: char): Option<(string, string)> {
    if s == [] then None
    else if s[0] == c then Some(([], s[1..]))
    else match Cut(s[1..], c) case None => None case Some((a, b)) => Some(([s[0]] + a, b))
  }

  lemma CutShortens(s: string, c: char)
    ensures Cut(s, c).Some? ==> |Cut(s, c).value.1| < |s|
  {
  }

  lemma {:induction false} CutAtTheFirst(a: string, c: char, b: string)
    requires c !in a
    ensures Cut(a + [c] + b, c) == Some((a, b))
  {
    var s := a + [c] + b;
    if a == [] {
      assert s[1..] == b;
    } else {
      CutAtTheFirst(a[1..], c, b);
      assert s[1..] == a[1..] + [c] + b;
      assert [a[0]] + a[1..] == a;
    }
  }

  lemma {:induction false} NothingToCut(s: string, c: char)
    ensures Cut(s, c).None? <==> c !in s
  {
    if s != [] {
      NothingToCut(s[1..], c);
      assert s == [s[0]] + s[1..];
    }
  }

  /** Lines end in a line feed, or in a carriage return and a line feed; the last may lack both. */
  function Lines(s: string): seq<string>
    decreases |s|
  {
    match Cut(s, '\n')
    case None => if s == [] then [] else [s]
    case Some((line, rest)) =>
      CutShortens(s, '\n');
      [WithoutReturn(line)] + Lines(rest)
  }

  function WithoutReturn(line: string): string {
    if line != [] && line[|line| - 1] == '\r' then line[..|line| - 1] else line
  }

  /** A line ends in a line feed or in a return and a line feed; the last may end in neither, and is kept as it is. */
  lemma LinesExactly(line: string, rest: string)
    requires '\n' !in line
    ensures Lines(line + ['\r'] + ['\n'] + rest) == [line] + Lines(rest)
    ensures line == "" || line[|line| - 1] != '\r' ==> Lines(line + ['\n'] + rest) == [line] + Lines(rest)
    ensures Lines(line) == if line == "" then [] else [line]
  {
    CutAtTheFirst(line, '\n', rest);
    CutAtTheFirst(line + ['\r'], '\n', rest);
    NothingToCut(line, '\n');
    assert (line + ['\r'])[..|line|] == line;
  }

  function Join(lines: seq<string>): string {
    if lines == [] then [] else lines[0] + ['\n'] + Join(lines[1..])
  }

  predicate OneLine(s: string) { '\n' !in s && '\r' !in s }

  predicate AllOneLine(lines: seq<string>) { forall i :: 0 <= i < |lines| ==> OneLine(lines[i]) }

  /** The lines of the first `n` characters of joined lines. */
  function LinesUpTo(lines: seq<string>, n: nat): seq<string> {
    if lines == [] then []
    else if n > |lines[0]| then [lines[0]] + LinesUpTo(lines[1..], n - |lines[0]| - 1)
    else if n == 0 then []
    else [lines[0][..n]]
  }

  lemma {:induction false} LinesOfAPrefix(lines: seq<string>, n: nat)
    requires AllOneLine(lines) && n <= |Join(lines)|
    ensures Lines(Join(lines)[..n]) == LinesUpTo(lines, n)
  {
    if lines != [] {
      var first, rest := lines[0], Join(lines[1..]);
      var prefix := Join(lines)[..n];
      assert OneLine(first);
      if n > |first| {
        var m := n - |first| - 1;
        LinesOfAPrefix(lines[1..], m);
        assert prefix == first + ['\n'] + rest[..m];
        CutAtTheFirst(first, '\n', rest[..m]);
      } else {
        assert prefix == first[..n];
        NothingToCut(prefix, '\n');
      }
    }
  }

  lemma {:induction false} LinesUpToTheEnd(lines: seq<string>)
    ensures LinesUpTo(lines, |Join(lines)|) == lines
  {
    if lines != [] {
      LinesUpToTheEnd(lines[1..]);
    }
  }

  lemma LinesOfJoined(lines: seq<string>)
    requires AllOneLine(lines)
    ensures Lines(Join(lines)) == lines
  {
    LinesOfAPrefix(lines, |Join(lines)|);
    LinesUpToTheEnd(lines);
    assert Join(lines)[..|Join(lines)|] == Join(lines);
  }
}
