/** Splitting of a server-sent event stream into blocks and of a block into its payload
    (src/providers/anthropic-compatible-provider.ts, the text half of `generateStreaming`).

    The blank line that ends a block may itself be cut by the network at any character.
    `SplitStep` says that splitting what is buffered and keeping the last piece loses
    nothing: it is the fact behind chunk invariance. */
module EventStreamText {
  import opened Prelude

  /** The two separators: `/\r?\n/` between lines and `/\r?\n\r?\n/` between blocks. */
  datatype Separator = LineEnd | BlankLine

  /** Length of a line end at position `i`, 0 if there is none. A lone CR is not one. */
  function LineEndLength(s: string, i: nat): nat
    requires i <= |s|
  {
    if i < |s| && s[i] == '\n' then 1
    else if i + 1 < |s| && s[i] == '\r' && s[i + 1] == '\n' then 2
    else 0
  }

  /** Length of the match of `sep` at position `i`, 0 if it does not match there. */
  function MatchLength(sep: Separator, s: string, i: nat): (n: nat)
    requires i <= |s|
    ensures i + n <= |s|
  {
    var first := LineEndLength(s, i);
    match sep
    case LineEnd => first
    case BlankLine =>
      if first == 0 || LineEndLength(s, i + first) == 0 then 0
      else first + LineEndLength(s, i + first)
  }

  /** Position of the leftmost match at or after `i`, `|s|` if there is none. */
  function FindMatch(sep: Separator, s: string, i: nat): (j: nat)
    requires i <= |s|
    ensures i <= j <= |s|
    ensures j < |s| ==> MatchLength(sep, s, j) > 0
    decreases |s| - i
  {
    if i == |s| || MatchLength(sep, s, i) > 0 then i else FindMatch(sep, s, i + 1)
  }

  lemma {:induction false} NoMatchBefore(sep: Separator, s: string, i: nat, k: nat)
    requires i <= |s| && i <= k < FindMatch(sep, s, i)
    ensures MatchLength(sep, s, k) == 0
    decreases |s| - i
  {
    if i < k { NoMatchBefore(sep, s, i + 1, k); }
  }

  /** `String.prototype.split` with the separator as a regular expression. */
  function Split(sep: Separator, s: string): (parts: seq<string>)
    ensures parts != []
    decreases |s|
  {
    var j := FindMatch(sep, s, 0);
    if j == |s| then [s] else [s[..j]] + Split(sep, s[j + MatchLength(sep, s, j)..])
  }

  lemma SplitUnfold(sep: Separator, s: string)
    ensures var j := FindMatch(sep, s, 0);
            Split(sep, s) == if j == |s| then [s] else [s[..j]] + Split(sep, s[j + MatchLength(sep, s, j)..])
  {
  }

  // ----- Split means what its name says -----

  /** `parts` laid out with the strings of `gaps` between them. */
  function Interleave(parts: seq<string>, gaps: seq<string>): string
    requires |parts| == |gaps| + 1
  {
    if gaps == [] then parts[0] else parts[0] + gaps[0] + Interleave(parts[1..], gaps[1..])
  }

  ghost predicate IsSeparator(sep: Separator, g: string) {
    match sep
    case LineEnd => g == "\n" || g == "\r\n"
    case BlankLine => g == "\n\n" || g == "\r\n\n" || g == "\n\r\n" || g == "\r\n\r\n"
  }

  ghost predicate SeparatorFree(sep: Separator, s: string) {
    forall i, j :: 0 <= i <= j <= |s| ==> !IsSeparator(sep, s[i..j])
  }

  lemma MatchIsSeparator(sep: Separator, s: string, i: nat)
    requires i <= |s| && MatchLength(sep, s, i) > 0
    ensures IsSeparator(sep, s[i..i + MatchLength(sep, s, i)])
  {
    var g := s[i..i + MatchLength(sep, s, i)];
    if sep == BlankLine {
      assert |g| == 2 ==> g == ['\n', '\n'];
    }
  }

  lemma CharsOfSlice(s: string, i: nat, j: nat, g: string)
    requires i <= j <= |s| && s[i..j] == g
    ensures j == i + |g| && forall k :: 0 <= k < |g| ==> s[i + k] == g[k]
  {
  }

  lemma LineEndMatches(s: string, i: nat, j: nat)
    requires i <= j <= |s| && IsSeparator(LineEnd, s[i..j])
    ensures LineEndLength(s, i) == j - i > 0
  {
    CharsOfSlice(s, i, j, s[i..j]);
    if s[i..j] == "\n" {
      assert s[i + 0] == '\n';
    } else {
      assert s[i + 0] == '\r' && s[i + 1] == '\n';
    }
  }

  /** A blank line is two line ends. */
  lemma BlankLineIsTwo(g: string) returns (n: nat)
    requires IsSeparator(BlankLine, g)
    ensures n <= |g| && IsSeparator(LineEnd, g[..n]) && IsSeparator(LineEnd, g[n..])
  {
    if g == "\n\n" {
      n := 1;
      assert g[..1] == "\n" && g[1..] == "\n";
    } else if g == "\n\r\n" {
      n := 1;
      assert g[..1] == "\n" && g[1..] == "\r\n";
    } else if g == "\r\n\n" {
      n := 2;
      assert g[..2] == "\r\n" && g[2..] == "\n";
    } else {
      n := 2;
      assert g[..2] == "\r\n" && g[2..] == "\r\n";
    }
  }

  lemma SeparatorMatches(sep: Separator, s: string, i: nat, j: nat)
    requires i <= j <= |s| && IsSeparator(sep, s[i..j])
    ensures MatchLength(sep, s, i) == j - i > 0
  {
    match sep
    case LineEnd => LineEndMatches(s, i, j);
    case BlankLine =>
      var n := BlankLineIsTwo(s[i..j]);
      assert s[i..i + n] == s[i..j][..n] && s[i + n..j] == s[i..j][n..];
      LineEndMatches(s, i, i + n);
      LineEndMatches(s, i + n, j);
  }

  lemma MatchDependsOnWindow(sep: Separator, s: string, t: string, i: nat)
    requires i <= |s| && s <= t
    ensures MatchLength(sep, s, i) > 0 ==> MatchLength(sep, t, i) == MatchLength(sep, s, i)
    ensures MatchLength(sep, t, i) > 0 && i + MatchLength(sep, t, i) <= |s|
            ==> MatchLength(sep, s, i) == MatchLength(sep, t, i)
  {
  }

  /** `parts` are the pieces left when the separators `gaps` are cut out of `s`, and no piece
      contains a further separator. */
  ghost predicate IsCut(sep: Separator, parts: seq<string>, gaps: seq<string>, s: string) {
    && |parts| == |gaps| + 1
    && Interleave(parts, gaps) == s
    && (forall i :: 0 <= i < |gaps| ==> IsSeparator(sep, gaps[i]))
    && (forall i :: 0 <= i < |parts| ==> SeparatorFree(sep, parts[i]))
  }

  lemma CutBefore(sep: Separator, head: string, gap: string, parts: seq<string>, gaps: seq<string>, s: string)
    requires SeparatorFree(sep, head) && IsSeparator(sep, gap) && IsCut(sep, parts, gaps, s)
    ensures IsCut(sep, [head] + parts, [gap] + gaps, head + gap + s)
  {
    assert ([head] + parts)[1..] == parts && ([gap] + gaps)[1..] == gaps;
  }

  /** No separator starts at any of the first `n` positions. */
  ghost predicate NoneStartsBefore(sep: Separator, s: string, n: int) {
    forall i, j :: 0 <= i < n && i <= j <= |s| ==> !IsSeparator(sep, s[i..j])
  }

  /** What is left of `s` behind a first piece and the separator after it. */
  function Behind(s: string, head: string, gap: string): string
    requires |head| + |gap| <= |s|
  {
    s[|head| + |gap|..]
  }

  /** The text starts with the piece and then the separator, and no separator starts in the piece. */
  ghost predicate StartsWith(sep: Separator, s: string, head: string, gap: string) {
    && |head| + |gap| <= |s| && s == head + gap + Behind(s, head, gap)
    && IsSeparator(sep, gap) && NoneStartsBefore(sep, s, |head|)
  }

  /** `parts` are what remains when every separator is cut out at its leftmost place, from left to right. */
  ghost predicate IsLeftmostCut(sep: Separator, parts: seq<string>, s: string)
    decreases |parts|
  {
    && parts != []
    && if |parts| == 1 then parts[0] == s && NoneStartsBefore(sep, s, |s|)
       else exists gap :: StartsWith(sep, s, parts[0], gap) && IsLeftmostCut(sep, parts[1..], Behind(s, parts[0], gap))
  }

  lemma NoneStartsBeforeMatch(sep: Separator, s: string)
    ensures NoneStartsBefore(sep, s, FindMatch(sep, s, 0))
  {
    forall i, j | 0 <= i < FindMatch(sep, s, 0) && i <= j <= |s| ensures !IsSeparator(sep, s[i..j]) {
      NoMatchBefore(sep, s, 0, i);
      if IsSeparator(sep, s[i..j]) { SeparatorMatches(sep, s, i, j); }
    }
  }

  lemma HeadIsFree(sep: Separator, s: string, head: string)
    requires head <= s && NoneStartsBefore(sep, s, |head|)
    ensures SeparatorFree(sep, head)
  {
    forall i, j | 0 <= i <= j <= |head| ensures !IsSeparator(sep, head[i..j]) {
      assert head[i..j] == s[i..j];
    }
  }

  lemma FirstSeparator(sep: Separator, s: string) returns (head: string, gap: string)
    requires FindMatch(sep, s, 0) < |s|
    ensures StartsWith(sep, s, head, gap) && |gap| > 0
    ensures head == s[..FindMatch(sep, s, 0)] && |gap| == MatchLength(sep, s, FindMatch(sep, s, 0))
  {
    var j := FindMatch(sep, s, 0);
    head, gap := s[..j], s[j..j + MatchLength(sep, s, j)];
    NoneStartsBeforeMatch(sep, s);
    MatchIsSeparator(sep, s, j);
  }

  /** What one step of splitting does. */
  lemma FirstPiece(sep: Separator, s: string) returns (more: bool, head: string, gap: string)
    ensures !more ==> Split(sep, s) == [s] && NoneStartsBefore(sep, s, |s|)
    ensures more ==> StartsWith(sep, s, head, gap) && |gap| > 0
    ensures more ==> Split(sep, s) == [head] + Split(sep, Behind(s, head, gap))
  {
    more, head, gap := FindMatch(sep, s, 0) < |s|, "", "";
    SplitUnfold(sep, s);
    if more {
      head, gap := FirstSeparator(sep, s);
    } else {
      NoneStartsBeforeMatch(sep, s);
    }
  }

  /** Splitting cuts the text at separators and nowhere else, and leaves none inside a piece. */
  lemma {:induction false} SplitCutsAtSeparators(sep: Separator, s: string) returns (gaps: seq<string>)
    ensures IsCut(sep, Split(sep, s), gaps, s)
    decreases |s|
  {
    var more, head, gap := FirstPiece(sep, s);
    if more {
      var rest := SplitCutsAtSeparators(sep, Behind(s, head, gap));
      HeadIsFree(sep, s, head);
      CutBefore(sep, head, gap, Split(sep, Behind(s, head, gap)), rest, Behind(s, head, gap));
      gaps := [gap] + rest;
    } else {
      HeadIsFree(sep, s, s);
      gaps := [];
    }
  }

  // ----- ... and no other list of pieces does -----

  lemma StartMatches(sep: Separator, s: string, head: string, gap: string)
    requires StartsWith(sep, s, head, gap)
    ensures head == s[..|head|] && gap == s[|head|..|head| + |gap|]
    ensures |head| < |s| && MatchLength(sep, s, |head|) == |gap| > 0
    ensures forall n: int :: NoneStartsBefore(sep, s, n) ==> n <= |head|
  {
    assert s[|head|..|head| + |gap|] == gap;
    SeparatorMatches(sep, s, |head|, |head| + |gap|);
  }

  lemma StartIsUnique(sep: Separator, s: string, head: string, gap: string, head': string, gap': string)
    requires StartsWith(sep, s, head, gap) && StartsWith(sep, s, head', gap')
    ensures head == head' && gap == gap'
  {
    StartMatches(sep, s, head, gap);
    StartMatches(sep, s, head', gap');
  }

  lemma StartOrWhole(sep: Separator, s: string, head: string, gap: string)
    requires NoneStartsBefore(sep, s, |s|)
    ensures !StartsWith(sep, s, head, gap)
  {
    if StartsWith(sep, s, head, gap) { StartMatches(sep, s, head, gap); }
  }

  lemma CutOfMany(sep: Separator, parts: seq<string>, s: string) returns (gap: string)
    requires IsLeftmostCut(sep, parts, s) && |parts| > 1
    ensures StartsWith(sep, s, parts[0], gap) && IsLeftmostCut(sep, parts[1..], Behind(s, parts[0], gap))
  {
    gap :| StartsWith(sep, s, parts[0], gap) && IsLeftmostCut(sep, parts[1..], Behind(s, parts[0], gap));
  }

  /** A text has one leftmost cut only. */
  lemma {:induction false} LeftmostCutIsUnique(sep: Separator, parts: seq<string>, other: seq<string>, s: string)
    requires IsLeftmostCut(sep, parts, s) && IsLeftmostCut(sep, other, s)
    ensures parts == other
    decreases |parts|
  {
    if |parts| == 1 && |other| == 1 {
    } else if |parts| == 1 {
      var gap := CutOfMany(sep, other, s);
      StartOrWhole(sep, s, other[0], gap);
    } else if |other| == 1 {
      var gap := CutOfMany(sep, parts, s);
      StartOrWhole(sep, s, parts[0], gap);
    } else {
      var gap := CutOfMany(sep, parts, s);
      var gap' := CutOfMany(sep, other, s);
      StartIsUnique(sep, s, parts[0], gap, other[0], gap');
      LeftmostCutIsUnique(sep, parts[1..], other[1..], Behind(s, parts[0], gap));
      assert parts == [parts[0]] + parts[1..] && other == [other[0]] + other[1..];
    }
  }

  lemma {:induction false} SplitIsLeftmost(sep: Separator, s: string)
    ensures IsLeftmostCut(sep, Split(sep, s), s)
    decreases |s|
  {
    var more, head, gap := FirstPiece(sep, s);
    if more {
      SplitIsLeftmost(sep, Behind(s, head, gap));
      LeftmostCutCons(sep, head, gap, Split(sep, Behind(s, head, gap)), s);
    }
  }

  lemma LeftmostCutCons(sep: Separator, head: string, gap: string, parts: seq<string>, s: string)
    requires StartsWith(sep, s, head, gap) && IsLeftmostCut(sep, parts, Behind(s, head, gap))
    ensures IsLeftmostCut(sep, [head] + parts, s)
  {
    assert ([head] + parts)[1..] == parts && ([head] + parts)[0] == head;
  }

  /** Splitting is cutting every separator out at its leftmost place, and no other list of pieces is. */
  lemma SplitIsTheLeftmostCut(sep: Separator, s: string, parts: seq<string>)
    ensures IsLeftmostCut(sep, parts, s) <==> parts == Split(sep, s)
  {
    SplitIsLeftmost(sep, s);
    if IsLeftmostCut(sep, parts, s) { LeftmostCutIsUnique(sep, parts, Split(sep, s), s); }
  }

  // ----- Splitting piece by piece -----

  /** Two matches of the block separator: the one that starts first does not end last. */
  lemma EarlierMatchEndsFirst(s: string, j: nat, k: nat)
    requires j <= k <= |s| && MatchLength(BlankLine, s, j) > 0 && MatchLength(BlankLine, s, k) > 0
    ensures j + MatchLength(BlankLine, s, j) <= k + MatchLength(BlankLine, s, k)
  {
    if k < j + MatchLength(BlankLine, s, j) {
      assert k <= j + 3;
    }
  }

  /** A separator found in a prefix of the text is the first one of the whole text. */
  lemma FirstMatchIsStable(s: string, t: string)
    requires FindMatch(BlankLine, s, 0) < |s|
    ensures FindMatch(BlankLine, s + t, 0) == FindMatch(BlankLine, s, 0)
    ensures MatchLength(BlankLine, s + t, FindMatch(BlankLine, s, 0))
            == MatchLength(BlankLine, s, FindMatch(BlankLine, s, 0))
  {
    var j := FindMatch(BlankLine, s, 0);
    MatchDependsOnWindow(BlankLine, s, s + t, j);
    var k := FindMatch(BlankLine, s + t, 0);
    if j < k {
      NoMatchBefore(BlankLine, s + t, 0, j);
    } else if k < j {
      EarlierMatchEndsFirst(s + t, k, j);
      MatchDependsOnWindow(BlankLine, s, s + t, k);
      NoMatchBefore(BlankLine, s, 0, k);
    }
  }

  lemma SplitCut(sep: Separator, s: string, j: nat, k: nat)
    requires j == FindMatch(sep, s, 0) < |s| && k == j + MatchLength(sep, s, j)
    ensures j < k <= |s| && Split(sep, s) == [s[..j]] + Split(sep, s[k..])
  {
  }

  lemma FirstCut(s: string, t: string) returns (j: nat, k: nat)
    requires FindMatch(BlankLine, s, 0) < |s|
    ensures j < k <= |s| && Split(BlankLine, s) == [s[..j]] + Split(BlankLine, s[k..])
    ensures Split(BlankLine, s + t) == [(s + t)[..j]] + Split(BlankLine, (s + t)[k..])
  {
    j := FindMatch(BlankLine, s, 0);
    k := j + MatchLength(BlankLine, s, j);
    FirstMatchIsStable(s, t);
    SplitCut(BlankLine, s, j, k);
    SplitCut(BlankLine, s + t, j, k);
  }

  /** The first piece of the text is cut off before any of the new text matters. */
  lemma SplitHead(s: string, t: string) returns (more: bool, head: string, tail: string)
    ensures !more ==> Split(BlankLine, s) == [s]
    ensures more ==> |tail| < |s|
    ensures more ==> Split(BlankLine, s) == [head] + Split(BlankLine, tail)
    ensures more ==> Split(BlankLine, s + t) == [head] + Split(BlankLine, tail + t)
  {
    more, head, tail := FindMatch(BlankLine, s, 0) < |s|, s, "";
    if more {
      var j, k := FirstCut(s, t);
      head, tail := s[..j], s[k..];
      CutsOfConcat(s, t, j, k);
    } else {
      SplitUnfold(BlankLine, s);
    }
  }

  lemma CutsOfConcat(s: string, t: string, j: nat, k: nat)
    requires j <= k <= |s|
    ensures (s + t)[..j] == s[..j] && (s + t)[k..] == s[k..] + t
  {
  }

  lemma InitAfterHead<T>(head: T, rest: seq<T>)
    requires rest != []
    ensures Init([head] + rest) == [head] + Init(rest) && Last([head] + rest) == Last(rest)
  {
  }

  /** One network read: splitting the buffer with the new text appended gives what splitting
      the whole text gives, because only the last piece can still change. */
  lemma {:induction false} SplitStep(s: string, t: string)
    ensures Split(BlankLine, s + t) == Init(Split(BlankLine, s)) + Split(BlankLine, Last(Split(BlankLine, s)) + t)
    decreases |s|
  {
    var more, head, tail := SplitHead(s, t);
    if more {
      SplitStep(tail, t);
      InitAfterHead(head, Split(BlankLine, tail));
    }
  }

  // ----- Payload of a block -----

  const DATA_FIELD := "data:"

  predicate IsDataLine(line: string) {
    DATA_FIELD <= line
  }

  function DataOf(line: string): string {
    if IsDataLine(line) then Trim(line[|DATA_FIELD|..]) else ""
  }

  /** The text of the `data:` lines of one block, each trimmed. */
  function Payload(block: string): string {
    Join(Map(Filter(Split(LineEnd, block), IsDataLine), DataOf), "\n")
  }

  ghost predicate HasData(block: string, i: nat) {
    i < |Split(LineEnd, block)| && "data:" <= Split(LineEnd, block)[i]
  }

  ghost function DataLinesBelow(block: string, n: nat): set<nat> {
    set i: nat | i < n && HasData(block, i)
  }

  lemma DataLinesCounted(block: string, n: nat)
    requires n <= |Split(LineEnd, block)|
    ensures Count(Split(LineEnd, block)[..n], IsDataLine) == |DataLinesBelow(block, n)|
  {
    var lines := Split(LineEnd, block);
    CountIsPositions(lines[..n], IsDataLine);
    assert Positions(lines[..n], IsDataLine) == DataLinesBelow(block, n);
  }

  /** A payload is made of one part for each line of the block that starts with `data:`, with line ends between
      them: the line after `n` such lines gives part `n`, which is the rest of the line without the outer white
      space. */
  lemma PayloadContents(block: string) returns (parts: seq<string>)
    ensures IsJoined(Payload(block), parts, "\n") && |parts| == |DataLinesBelow(block, |Split(LineEnd, block)|)|
    ensures forall i: nat :: HasData(block, i) ==>
              && |DataLinesBelow(block, i)| < |parts|
              && IsTrimmed(Split(LineEnd, block)[i][5..], parts[|DataLinesBelow(block, i)|])
  {
    var lines := Split(LineEnd, block);
    var kept := Filter(lines, IsDataLine);
    parts := Map(kept, DataOf);
    JoinJoins(parts, "\n");
    assert lines[..|lines|] == lines;
    DataLinesCounted(block, |lines|);
    FilterLength(lines, IsDataLine);
    forall i: nat | HasData(block, i)
      ensures |DataLinesBelow(block, i)| < |parts| && IsTrimmed(lines[i][5..], parts[|DataLinesBelow(block, i)|])
    {
      DataLinesCounted(block, i);
      FilterPosition(lines, IsDataLine, i);
      TrimIsTrimmed(lines[i][5..]);
    }
  }

  /** The payloads of the complete blocks of a text: every piece but the last. */
  function CompletePayloads(text: string): seq<string> {
    Map(Init(Split(BlankLine, text)), Payload)
  }

  /** The unterminated block at the end of the stream, if it has any visible character. */
  function TrailingPayloads(text: string): seq<string> {
    var tail := Last(Split(BlankLine, text));
    if Trim(tail) != "" then [Payload(tail)] else []
  }

  /** The payloads of a whole stream, as one split of the whole text gives them. */
  function AllPayloads(text: string): seq<string> {
    CompletePayloads(text) + TrailingPayloads(text)
  }

  lemma MapConcat<T, U>(a: seq<T>, b: seq<T>, f: T -> U)
    ensures Map(a + b, f) == Map(a, f) + Map(b, f)
  {
  }

  /** The blocks completed by one read are those that splitting buffer and chunk completes. */
  lemma CompletePayloadsStep(text: string, chunk: string)
    ensures var buffer := Last(Split(BlankLine, text));
            && CompletePayloads(text + chunk) == CompletePayloads(text) + CompletePayloads(buffer + chunk)
            && Last(Split(BlankLine, text + chunk)) == Last(Split(BlankLine, buffer + chunk))
  {
    SplitStep(text, chunk);
    var done := Init(Split(BlankLine, text));
    var more := Split(BlankLine, Last(Split(BlankLine, text)) + chunk);
    assert Init(done + more) == done + Init(more);
    MapConcat(done, Init(more), Payload);
  }
}
