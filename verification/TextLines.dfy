/** Data-part text: each line followed by a newline, read back by splitting at newlines and skipping blank pieces. */
module TextLines {
  predicate AsciiSpace(c: char) {
    c == ' ' || c == '\t' || c == '\n' || c == '\r' || c == 12 as char
  }

  predicate BlankLine(line: string) {
    forall i :: 0 <= i < |line| ==> AsciiSpace(line[i])
  }

  /** A line that survives the trip: it holds no newline and is not blank. */
  predicate Clean(line: string) {
    '\n' !in line && !BlankLine(line)
  }

  ghost predicate AllClean(lines: seq<string>) {
    forall line :: line in lines ==> Clean(line)
  }

  function Join(lines: seq<string>): string {
    if lines == [] then "" else lines[0] + "\n" + Join(lines[1..])
  }

  /** Length of the piece before the first newline. */
  function PieceLength(text: string): (n: nat)
    ensures n <= |text| && '\n' !in text[..n] && (n < |text| ==> text[n] == '\n')
  {
    if text == "" || text[0] == '\n' then 0
    else
      var n := PieceLength(text[1..]);
      assert text[..1 + n] == [text[0]] + text[1..][..n];
      1 + n
  }

  /** The non-blank pieces between newlines. */
  function Lines(text: string): seq<string>
    decreases |text|
  {
    var n := PieceLength(text);
    var here := if BlankLine(text[..n]) then [] else [text[..n]];
    if n == |text| then here else here + Lines(text[n + 1..])
  }

  /** The same, as the reader's loop: one piece at a time. */
  method SplitLines(text: string) returns (lines: seq<string>)
    ensures lines == Lines(text)
  {
    lines := [];
    var rest := text;
    while true
      invariant lines + Lines(rest) == Lines(text)
      decreases |rest|
    {
      var n := PieceLength(rest);
      if !BlankLine(rest[..n]) {
        lines := lines + [rest[..n]];
      }
      if n == |rest| {
        break;
      }
      rest := rest[n + 1..];
    }
  }

  lemma {:induction false} PieceOf(line: string, rest: string)
    requires '\n' !in line
    ensures PieceLength(line + "\n" + rest) == |line|
  {
    var text := line + "\n" + rest;
    if line != "" {
      assert text[0] == line[0] && line[0] in line;
      assert text[1..] == line[1..] + "\n" + rest;
      PieceOf(line[1..], rest);
    }
  }

  lemma {:induction false} JoinThenLines(lines: seq<string>)
    requires AllClean(lines)
    ensures Lines(Join(lines)) == lines
  {
    if lines != [] {
      var line, rest := lines[0], Join(lines[1..]);
      assert line in lines;
      JoinThenLines(lines[1..]);
      PieceOf(line, rest);
      var text := line + "\n" + rest;
      assert text[..|line|] == line && text[|line| + 1..] == rest;
    }
  }

  lemma {:induction false} LinesAreClean(text: string)
    ensures AllClean(Lines(text))
    decreases |text|
  {
    var n := PieceLength(text);
    if n < |text| {
      LinesAreClean(text[n + 1..]);
    }
  }

  /** Reading back gives the lines written exactly when each one is clean. */
  lemma ReadBackIffClean(lines: seq<string>)
    ensures Lines(Join(lines)) == lines <==> AllClean(lines)
  {
    LinesAreClean(Join(lines));
    if AllClean(lines) {
      JoinThenLines(lines);
    }
  }

  lemma JoinInjective(a: seq<string>, b: seq<string>)
    requires AllClean(a) && AllClean(b) && Join(a) == Join(b)
    ensures a == b
  {
    JoinThenLines(a);
    JoinThenLines(b);
  }

  // ----- rotating into parts -----

  function PartCount(count: nat, size: nat): nat
    requires size > 0
  {
    (count + size - 1) / size
  }

  /** The part that begins at `from`, to the end or up to `size` entries. */
  function Window<T>(xs: seq<T>, size: nat, from: nat): seq<T> {
    if from >= |xs| then [] else if |xs| - from <= size then xs[from..] else xs[from..from + size]
  }

  function Part<T>(xs: seq<T>, size: nat, n: nat): seq<T>
    requires size > 0
  {
    Window(xs, size, n * size)
  }

  lemma WindowFits<T>(xs: seq<T>, size: nat, from: nat)
    requires size > 0 && from < |xs|
    ensures 0 < |Window(xs, size, from)| <= size
  {
  }

  lemma WindowExtends<T>(xs: seq<T>, size: nat, from: nat)
    ensures (if from <= |xs| then xs[..from] else xs) + Window(xs, size, from) == if from + size <= |xs| then xs[..from + size] else xs
  {
  }

  lemma TimesOrdered(a: nat, b: nat, size: nat)
    requires a <= b
    ensures a * size <= b * size
  {
  }

  lemma NextTimes(n: nat, size: nat)
    requires n > 0
    ensures n * size == (n - 1) * size + size
  {
  }

  lemma PartStarts(count: nat, size: nat, n: nat)
    requires size > 0
    ensures n < PartCount(count, size) <==> n * size < count
  {
    var q := PartCount(count, size);
    var whole := q * size;
    assert whole <= count + size - 1 < whole + size;
    if n < q {
      TimesOrdered(n, q - 1, size);
      NextTimes(q, size);
    } else {
      TimesOrdered(q, n, size);
    }
  }

  /** The first `n` parts hold the first `n * size` entries, in order. */
  function FirstParts<T>(xs: seq<T>, size: nat, n: nat): seq<T>
    requires size > 0
  {
    if n == 0 then [] else FirstParts(xs, size, n - 1) + Part(xs, size, n - 1)
  }

  lemma {:induction false} FirstPartsAre<T>(xs: seq<T>, size: nat, n: nat, end: nat)
    requires size > 0 && end == n * size
    ensures FirstParts(xs, size, n) == if end <= |xs| then xs[..end] else xs
    decreases n
  {
    if n > 0 {
      NextTimes(n, size);
      FirstPartsAre(xs, size, n - 1, end - size);
      WindowExtends(xs, size, end - size);
    }
  }

  lemma PartsReachEnd<T>(xs: seq<T>, size: nat)
    requires size > 0
    ensures FirstParts(xs, size, PartCount(|xs|, size)) == xs
  {
    var q := PartCount(|xs|, size);
    var end := q * size;
    PartStarts(|xs|, size, q);
    FirstPartsAre(xs, size, q, end);
    assert end <= |xs| ==> end == |xs| && xs[..end] == xs;
  }

  /** No part is empty or over-full, and the parts in order are the whole. */
  lemma PartsAreWhole<T>(xs: seq<T>, size: nat)
    requires size > 0
    ensures FirstParts(xs, size, PartCount(|xs|, size)) == xs
    ensures forall n: nat :: n < PartCount(|xs|, size) ==> 0 < |Part(xs, size, n)| <= size
  {
    PartsReachEnd(xs, size);
    forall n: nat | n < PartCount(|xs|, size) ensures 0 < |Part(xs, size, n)| <= size {
      PartStarts(|xs|, size, n);
      WindowFits(xs, size, n * size);
    }
  }

  // ----- which lines a text has -----

  /** The text from `a` to `b` runs from one newline, or end of the text, to the next. */
  ghost predicate Piece(text: string, a: nat, b: nat) {
    && a <= b <= |text| && (forall k :: a <= k < b ==> text[k] != '\n')
    && (a == 0 || text[a - 1] == '\n') && (b == |text| || text[b] == '\n')
  }

  ghost predicate HasPiece(text: string, line: string) {
    exists a: nat, b: nat :: Piece(text, a, b) && text[a..b] == line
  }

  ghost predicate Says(line: string) {
    exists i :: 0 <= i < |line| && line[i] != ' ' && line[i] != '\t' && line[i] != '\n' && line[i] != '\r' && line[i] != 12 as char
  }

  lemma FirstPiece(text: string)
    ensures Piece(text, 0, PieceLength(text))
  {
    var n := PieceLength(text);
    assert forall k :: 0 <= k < n ==> text[k] == text[..n][k];
  }

  lemma LaterPiece(text: string, from: nat, a: nat, b: nat)
    requires 0 < from <= |text| && text[from - 1] == '\n' && b <= |text| - from
    ensures Piece(text[from..], a, b) <==> Piece(text, from + a, from + b)
    ensures a <= b ==> text[from..][a..b] == text[from + a..from + b]
  {
    var rest := text[from..];
    assert forall k :: 0 <= k < |rest| ==> rest[k] == text[from + k];
    if Piece(rest, a, b) {
      forall k | from + a <= k < from + b ensures text[k] != '\n' {
        assert rest[k - from] == text[k];
      }
    }
  }

  lemma PieceBy(text: string, a: nat, b: nat)
    requires Piece(text, a, b)
    ensures HasPiece(text, text[a..b])
  {
  }

  lemma LaterPieces(text: string, from: nat, line: string)
    requires 0 < from <= |text| && text[from - 1] == '\n' && HasPiece(text[from..], line)
    ensures HasPiece(text, line)
  {
    var a: nat, b: nat :| Piece(text[from..], a, b) && text[from..][a..b] == line;
    LaterPiece(text, from, a, b);
    PieceBy(text, from + a, from + b);
  }

  /** A piece is the first one, or one of what follows the first newline. */
  lemma FirstOrLater(text: string, line: string, n: nat)
    requires HasPiece(text, line) && Piece(text, 0, n)
    ensures line == text[..n] || (n < |text| && HasPiece(text[n + 1..], line))
  {
    var a: nat, b: nat :| Piece(text, a, b) && text[a..b] == line;
    if a > n {
      LaterPiece(text, n + 1, a - n - 1, b - n - 1);
      PieceBy(text[n + 1..], a - n - 1, b - n - 1);
    }
  }

  lemma PieceNext(text: string, line: string)
    ensures var n := PieceLength(text);
            HasPiece(text, line) <==> line == text[..n] || (n < |text| && HasPiece(text[n + 1..], line))
  {
    var n := PieceLength(text);
    FirstPiece(text);
    PieceBy(text, 0, n);
    if HasPiece(text, line) {
      FirstOrLater(text, line, n);
    }
    if n < |text| && HasPiece(text[n + 1..], line) {
      LaterPieces(text, n + 1, line);
    }
  }

  lemma SaysIs(line: string)
    ensures Says(line) <==> !BlankLine(line)
  {
    if !BlankLine(line) {
      var i :| 0 <= i < |line| && !AsciiSpace(line[i]);
    }
  }

  /** The lines of a text are its pieces between newlines that hold something other than ASCII white space. */
  lemma {:induction false} LinesAre(text: string, line: string)
    ensures line in Lines(text) <==> HasPiece(text, line) && Says(line)
    decreases |text|
  {
    var n := PieceLength(text);
    PieceNext(text, line);
    SaysIs(text[..n]);
    if n < |text| {
      LinesAre(text[n + 1..], line);
    }
  }
}
