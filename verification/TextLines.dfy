/** Text files as lines, the way std::getline sees them: a newline ends a line, and what is left after the last newline
    is a line only if there is something left. Both programs read the price file through such a loop. */
module TextLines {

  function Map<T, U>(f: T -> U, s: seq<T>): (r: seq<U>)
    ensures |r| == |s|
    ensures forall i :: 0 <= i < |s| ==> r[i] == f(s[i])
  {
    seq(|s|, i requires 0 <= i < |s| => f(s[i]))
  }

  lemma MapGrows<T, U>(f: T -> U, s: seq<T>, i: nat)
    requires i < |s|
    ensures Map(f, s[..i + 1]) == Map(f, s[..i]) + [f(s[i])]
  {
  }

  function IndexOf(s: string, c: char): (i: nat)
    ensures i <= |s| && c !in s[..i]
    ensures i < |s| ==> s[i] == c
  {
    if s == [] || s[0] == c then 0
    else
      var i := IndexOf(s[1..], c);
      assert s[..i + 1] == [s[0]] + s[1..][..i];
      i + 1
  }

  /** std::getline until the stream is used up. */
  function Lines(text: string): seq<string> {
    if text == "" then []
    else
      var i := IndexOf(text, '\n');
      [text[..i]] + if i == |text| then [] else Lines(text[i + 1..])
  }

  /** Each line followed by a newline. */
  function Join(lines: seq<string>): string {
    if lines == [] then "" else lines[0] + ['\n'] + Join(lines[1..])
  }

  lemma IndexOfFirst(a: string, c: char, b: string)
    requires c !in a
    ensures IndexOf(a + [c] + b, c) == |a|
    ensures (a + [c] + b)[..|a|] == a && (a + [c] + b)[|a| + 1..] == b
  {
    var s := a + [c] + b;
    var i := IndexOf(s, c);
    assert forall k :: 0 <= k < |a| ==> s[k] == a[k];
    assert s[|a|] == c;
  }

  lemma IndexOfNone(a: string, c: char)
    requires c !in a
    ensures IndexOf(a, c) == |a|
  {
  }

  /** Lines undoes Join. */
  lemma {:induction false} LinesOfJoin(lines: seq<string>)
    requires forall i :: 0 <= i < |lines| ==> '\n' !in lines[i]
    ensures Lines(Join(lines)) == lines
  {
    if lines != [] {
      LinesOfJoin(lines[1..]);
      IndexOfFirst(lines[0], '\n', Join(lines[1..]));
    }
  }

  /** One turn of a getline loop. */
  function FirstLine(text: string): string
    requires text != ""
  {
    text[..IndexOf(text, '\n')]
  }

  function AfterFirstLine(text: string): (rest: string)
    requires text != ""
    ensures |rest| < |text|
  {
    var i := IndexOf(text, '\n');
    if i == |text| then "" else text[i + 1..]
  }

  lemma LinesUnfold(text: string)
    requires text != ""
    ensures Lines(text) == [FirstLine(text)] + Lines(AfterFirstLine(text))
  {
  }

  /** Join grows by a line at its end. */
  lemma {:induction false} JoinSnoc(lines: seq<string>, line: string)
    ensures Join(lines + [line]) == Join(lines) + line + ['\n']
  {
    if lines == [] {
      assert [line][1..] == [];
      assert "" + line + ['\n'] == line + ['\n'] + "";
    } else {
      assert (lines + [line])[1..] == lines[1..] + [line];
      JoinSnoc(lines[1..], line);
      assert lines[0] + ['\n'] + (Join(lines[1..]) + line + ['\n']) ==
             (lines[0] + ['\n'] + Join(lines[1..])) + line + ['\n'];
    }
  }

  lemma OneLine(last: string)
    requires last != "" && '\n' !in last
    ensures Lines(last) == [last]
  {
    IndexOfNone(last, '\n');
    assert last[..|last|] == last;
  }

  lemma FirstOfLines(line: string, rest: string)
    requires '\n' !in line
    ensures Lines(line + ['\n'] + rest) == [line] + Lines(rest)
  {
    IndexOfFirst(line, '\n', rest);
  }

  /** A last line that no newline ends is a line all the same. */
  lemma {:induction false} LastLineCounts(lines: seq<string>, last: string)
    requires (forall i :: 0 <= i < |lines| ==> '\n' !in lines[i]) && last != "" && '\n' !in last
    ensures Lines(Join(lines) + last) == lines + [last]
  {
    if lines == [] {
      OneLine(last);
      assert Join(lines) + last == last;
    } else {
      var rest := Join(lines[1..]) + last;
      LastLineCounts(lines[1..], last);
      assert Join(lines) + last == lines[0] + ['\n'] + rest;
      FirstOfLines(lines[0], rest);
      assert [lines[0]] + (lines[1..] + [last]) == lines + [last];
    }
  }
}
