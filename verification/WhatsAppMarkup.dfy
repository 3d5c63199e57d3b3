/** frontend/src/components/MessageBubble.tsx: the scanner of `formatWhatsApp`, on
    the text after bullet and `**` normalization. */
module WhatsAppMarkup {
  import opened Wrappers

  datatype Piece = Plain(text: string) | Styled(mark: char, inner: string)

  datatype Match = Match(index: nat, end: nat)

  /** `*` is strong, `_` emphasis, `~` strike-through. */
  predicate IsMark(c: char) {
    c == '*' || c == '_' || c == '~'
  }

  /** First position from `j` on that holds `mark` or a newline, or the end. */
  function RunEnd(s: string, mark: char, j: nat): (e: nat)
    requires j <= |s|
    ensures j <= e <= |s|
    decreases |s| - j
  {
    if j == |s| || s[j] == mark || s[j] == '\n' then j else RunEnd(s, mark, j + 1)
  }

  lemma {:induction false} RunIsClean(s: string, mark: char, j: nat)
    requires j <= |s|
    ensures forall k :: j <= k < RunEnd(s, mark, j) ==> s[k] != mark && s[k] != '\n'
    decreases |s| - j
  {
    if !(j == |s| || s[j] == mark || s[j] == '\n') {
      RunIsClean(s, mark, j + 1);
    }
  }

  /** Where a match of TOKEN that starts at `i` ends. The three alternatives start
      with different characters, and the greedy class stops at its own delimiter. */
  function TokenEnd(s: string, i: nat): (e: Option<nat>)
    ensures e.Some? ==> i + 2 < e.value <= |s|
  {
    if i < |s| && IsMark(s[i]) then
      var j := RunEnd(s, s[i], i + 1);
      if i + 1 < j < |s| && s[j] == s[i] then Some(j + 1) else None
    else None
  }

  /** The leftmost match from `from` on. */
  function NextToken(s: string, from: nat): (m: Option<Match>)
    ensures m.Some? ==> from <= m.value.index && TokenEnd(s, m.value.index) == Some(m.value.end)
    decreases |s| - from
  {
    if from >= |s| then None
    else if TokenEnd(s, from).Some? then Some(Match(from, TokenEnd(s, from).value))
    else NextToken(s, from + 1)
  }

  lemma {:induction false} NextTokenSkipsNone(s: string, from: nat)
    ensures var m := NextToken(s, from);
            forall k :: from <= k < (if m.Some? then m.value.index else |s|) ==> TokenEnd(s, k) == None
    decreases |s| - from
  {
    if from < |s| && TokenEnd(s, from) == None {
      NextTokenSkipsNone(s, from + 1);
    }
  }

  function PlainPart(text: string): seq<Piece> {
    if text == "" then [] else [Plain(text)]
  }

  /** What one match appends to the output. */
  function Step(s: string, last: nat, m: Match): seq<Piece>
    requires last <= m.index < m.end - 1 < |s|
  {
    PlainPart(s[last..m.index]) + [Styled(s[m.index], s[m.index + 1..m.end - 1])]
  }

  /** The leftmost parse of the text from `from` on. */
  function Parse(s: string, from: nat): seq<Piece>
    requires from <= |s|
    decreases |s| - from
  {
    match NextToken(s, from)
    case None => PlainPart(s[from..])
    case Some(m) => Step(s, from, m) + Parse(s, m.end)
  }

  /** A sticky-state regular expression object with the `g` flag. */
  class Regex {
    var lastIndex: nat

    method Exec(s: string) returns (m: Option<Match>)
      modifies this
      ensures m == NextToken(s, old(lastIndex))
      ensures lastIndex == if m.Some? then m.value.end else 0
    {
      var i := lastIndex;
      while i < |s|
        invariant NextToken(s, lastIndex) == NextToken(s, i)
        invariant lastIndex == old(lastIndex)
        decreases |s| - i
      {
        var end := TokenEnd(s, i);
        if end.Some? {
          lastIndex := end.value;
          return Some(Match(i, end.value));
        }
        i := i + 1;
      }
      lastIndex := 0;
      return None;
    }
  }

  lemma ParseStep(s: string, last: nat, before: seq<Piece>)
    requires last <= |s| && NextToken(s, last).Some?
    ensures var m := NextToken(s, last).value;
            before + Step(s, last, m) + Parse(s, m.end) == before + Parse(s, last)
  {
  }

  /** The token loop. It computes the leftmost parse, and leaves the shared regular
      expression ready for the next call. */
  method FormatWhatsApp(token: Regex, normalized: string) returns (out: seq<Piece>)
    requires token.lastIndex == 0
    modifies token
    ensures out == Parse(normalized, 0)
    ensures token.lastIndex == 0
  {
    out := [];
    var last := 0;
    var m := token.Exec(normalized);
    while m.Some?
      invariant last <= |normalized|
      invariant m == NextToken(normalized, last)
      invariant token.lastIndex == if m.Some? then m.value.end else 0
      invariant out + Parse(normalized, last) == Parse(normalized, 0)
      decreases |normalized| - last
    {
      ParseStep(normalized, last, out);
      out := Emit(normalized, last, m.value, out);
      last := m.value.end;
      m := token.Exec(normalized);
    }
    if last < |normalized| { out := out + [Plain(normalized[last..])]; }
  }

  lemma SliceOfSlice(s: string, a: nat, b: nat, c: nat, d: nat)
    requires a <= b <= |s| && c <= d <= b - a
    ensures s[a..b][c..d] == s[a + c..a + d]
  {
    var x, y := s[a..b][c..d], s[a + c..a + d];
    forall k: nat | k < |x|
      ensures x[k] == y[k]
    {
      assert x[k] == s[a..b][c + k];
    }
  }

  /** The loop's body up to `last = m.index + tok.length`. */
  method Emit(normalized: string, last: nat, m: Match, before: seq<Piece>) returns (out: seq<Piece>)
    requires last <= m.index < m.end - 1 < |normalized|
    ensures out == before + Step(normalized, last, m)
  {
    out := before;
    if m.index > last { out := out + [Plain(normalized[last..m.index])]; }
    var tok := normalized[m.index..m.end];
    var inner := tok[1..|tok| - 1];
    SliceOfSlice(normalized, m.index, m.end, 1, |tok| - 1);
    out := out + [Styled(tok[0], inner)];
  }

  // ---- what the parse is, without saying how it is found ----------------------

  function Source(p: Piece): string {
    match p
    case Plain(text) => text
    case Styled(mark, inner) => [mark] + inner + [mark]
  }

  /** The text the pieces from `i` on came from, with the delimiters put back. */
  function Sources(pieces: seq<Piece>, i: nat): string
    requires i <= |pieces|
    decreases |pieces| - i
  {
    if i == |pieces| then "" else Source(pieces[i]) + Sources(pieces, i + 1)
  }

  /** Plain pieces are not empty; styled ones are not empty either and hold neither
      their delimiter nor a newline. */
  predicate WellFormed(p: Piece) {
    match p
    case Plain(text) => text != ""
    case Styled(mark, inner) => (mark == '*' || mark == '_' || mark == '~') && inner != "" && mark !in inner && '\n' !in inner
  }

  /** `s[i..e]` is `*…*`, `_…_` or `~…~` around a run that is not empty and holds neither the
      mark nor a newline. */
  predicate IsToken(s: string, i: nat, e: nat) {
    && i + 2 < e <= |s|
    && (s[i] == '*' || s[i] == '_' || s[i] == '~') && s[e - 1] == s[i]
    && forall k | i < k < e - 1 :: s[k] != s[i] && s[k] != '\n'
  }

  /** No token starts in this stretch. */
  ghost predicate TokenFree(s: string, from: nat, next: nat) {
    forall i: nat, e: nat | from <= i < next :: !IsToken(s, i, e)
  }

  ghost predicate Unmatched(s: string, from: nat, next: nat) {
    forall k | from <= k < next :: TokenEnd(s, k) == None
  }

  /** How much of the text a piece takes up, its delimiters included. */
  function Width(p: Piece): nat {
    match p
    case Plain(text) => |text|
    case Styled(_, inner) => |inner| + 2
  }

  /** Piece `i` is what the text holds from `at` on: a styled piece a token, and plain text as much
      as there is before the next token. */
  ghost predicate Fits(s: string, at: nat, pieces: seq<Piece>, i: nat)
    requires i < |pieces|
  {
    var next := at + Width(pieces[i]);
    && next <= |s|
    && match pieces[i]
       case Plain(text) =>
         && text != "" && text == s[at..next] && TokenFree(s, at, next)
         && (i + 1 < |pieces| ==> pieces[i + 1].Styled?)
       case Styled(mark, inner) =>
         IsToken(s, at, next) && mark == s[at] && inner == s[at + 1..next - 1]
  }

  /** Laid end to end from `at` on, the pieces from `i` on make up the rest of the text. */
  ghost predicate CutFrom(s: string, at: nat, pieces: seq<Piece>, i: nat)
    requires i <= |pieces|
    decreases |pieces| - i
  {
    if i == |pieces| then at == |s|
    else Fits(s, at, pieces, i) && CutFrom(s, at + Width(pieces[i]), pieces, i + 1)
  }

  ghost predicate IsLeftmostParse(s: string, pieces: seq<Piece>) {
    CutFrom(s, 0, pieces, 0)
  }

  lemma {:induction false} RunEndUnique(s: string, mark: char, j: nat, e: nat)
    requires j <= e < |s| && s[e] == mark && forall k :: j <= k < e ==> s[k] != mark && s[k] != '\n'
    ensures RunEnd(s, mark, j) == e
    decreases e - j
  {
    if j < e {
      RunEndUnique(s, mark, j + 1, e);
    }
  }

  /** The scanner matches exactly the tokens. */
  lemma TokenEndIff(s: string, i: nat, e: nat)
    ensures TokenEnd(s, i) == Some(e) <==> IsToken(s, i, e)
  {
    if IsToken(s, i, e) {
      RunEndUnique(s, s[i], i + 1, e - 1);
    } else if i < |s| && TokenEnd(s, i) == Some(e) {
      RunIsClean(s, s[i], i + 1);
    }
  }

  lemma TokenFreeIff(s: string, from: nat, next: nat)
    ensures TokenFree(s, from, next) <==> Unmatched(s, from, next)
  {
    forall k: nat, e: nat | from <= k < next
      ensures IsToken(s, k, e) <==> TokenEnd(s, k) == Some(e)
    {
      TokenEndIff(s, k, e);
    }
    if k: nat :| from <= k < next && TokenEnd(s, k).Some? {
      assert IsToken(s, k, TokenEnd(s, k).value);
    }
  }

  /** What the scanner finds from `from` on is a token, and none starts before it. */
  lemma NextTokenIsLeftmost(s: string, from: nat)
    ensures match NextToken(s, from)
            case Some(m) => from <= m.index && IsToken(s, m.index, m.end) && TokenFree(s, from, m.index)
            case None => TokenFree(s, from, |s|)
  {
    NextTokenSkipsNone(s, from);
    match NextToken(s, from)
    case Some(m) =>
      TokenEndIff(s, m.index, m.end);
      TokenFreeIff(s, from, m.index);
    case None => TokenFreeIff(s, from, |s|);
  }

  lemma {:induction false} NextTokenSkips(s: string, from: nat, to: nat)
    requires from <= to <= |s|
    requires Unmatched(s, from, to)
    ensures NextToken(s, from) == NextToken(s, to)
    decreases |s| - from
  {
    if from < to {
      NextTokenSkips(s, from + 1, to);
    }
  }

  lemma StepAtToken(s: string, from: nat, e: nat)
    requires from + 1 < e <= |s|
    ensures Step(s, from, Match(from, e)) == [Styled(s[from], s[from + 1..e - 1])]
  {
    assert s[from..from] == "";
  }

  lemma ParseFromToken(s: string, from: nat, e: nat)
    requires TokenEnd(s, from) == Some(e)
    ensures Parse(s, from) == [Styled(s[from], s[from + 1..e - 1])] + Parse(s, e)
  {
    assert NextToken(s, from) == Some(Match(from, e));
    StepAtToken(s, from, e);
  }

  lemma ParseFromPlain(s: string, from: nat, next: nat)
    requires from < next <= |s| && Unmatched(s, from, next)
    requires next == |s| || TokenEnd(s, next).Some?
    ensures Parse(s, from) == [Plain(s[from..next])] + Parse(s, next)
  {
    NextTokenSkips(s, from, next);
    if next < |s| {
      ParseFromToken(s, next, TokenEnd(s, next).value);
    } else {
      assert s[next..] == "" && s[from..] == s[from..next];
    }
  }

  /** A piece that fits, with a token after it if it is plain, is what the scanner finds there. */
  lemma UniqueHead(s: string, at: nat, pieces: seq<Piece>, i: nat)
    requires i < |pieces| && Fits(s, at, pieces, i)
    requires var next := at + Width(pieces[i]);
             pieces[i].Plain? ==> next == |s| || TokenEnd(s, next).Some?
    ensures Parse(s, at) == [pieces[i]] + Parse(s, at + Width(pieces[i]))
  {
    var next := at + Width(pieces[i]);
    match pieces[i]
    case Plain(_) =>
      TokenFreeIff(s, at, next);
      ParseFromPlain(s, at, next);
    case Styled(_, _) =>
      TokenEndIff(s, at, next);
      ParseFromToken(s, at, next);
  }

  /** Plain text ends at the end or where a token starts. */
  lemma TokenFollowsPlain(s: string, at: nat, pieces: seq<Piece>, i: nat)
    requires i < |pieces| && CutFrom(s, at, pieces, i) && pieces[i].Plain?
    ensures var next := at + |pieces[i].text|;
            next == |s| || TokenEnd(s, next).Some?
  {
    if i + 1 < |pieces| {
      var next := at + |pieces[i].text|;
      TokenEndIff(s, next, next + Width(pieces[i + 1]));
    }
  }

  lemma HeadAndRest(pieces: seq<Piece>, i: nat)
    requires i < |pieces|
    ensures pieces[i..] == [pieces[i]] + pieces[i + 1..]
  {
  }

  /** There is only one leftmost parse. */
  lemma {:induction false} ParseIsUnique(s: string, at: nat, pieces: seq<Piece>, i: nat)
    requires i <= |pieces| && CutFrom(s, at, pieces, i)
    ensures at <= |s| && pieces[i..] == Parse(s, at)
    decreases |pieces| - i
  {
    if i == |pieces| {
      assert s[at..] == "";
    } else {
      ParseIsUnique(s, at + Width(pieces[i]), pieces, i + 1);
      if pieces[i].Plain? {
        TokenFollowsPlain(s, at, pieces, i);
      }
      UniqueHead(s, at, pieces, i);
      HeadAndRest(pieces, i);
    }
  }

  lemma {:induction false} Shifted(s: string, at: nat, rest: seq<Piece>, pieces: seq<Piece>, i: nat)
    requires |pieces| == |rest| + 1 && forall k | 0 <= k < |rest| :: pieces[k + 1] == rest[k]
    requires i <= |rest| && CutFrom(s, at, rest, i)
    ensures CutFrom(s, at, pieces, i + 1)
    decreases |rest| - i
  {
    if i < |rest| {
      Shifted(s, at + Width(rest[i]), rest, pieces, i + 1);
    }
  }

  lemma PlainInFront(s: string, at: nat, next: nat, rest: seq<Piece>) returns (pieces: seq<Piece>)
    requires at <= next <= |s| && TokenFree(s, at, next)
    requires CutFrom(s, next, rest, 0) && (rest != [] ==> rest[0].Styled?)
    ensures CutFrom(s, at, pieces, 0)
  {
    if at == next {
      pieces := rest;
    } else {
      pieces := [Plain(s[at..next])] + rest;
      Shifted(s, next, rest, pieces, 0);
    }
  }

  lemma TokenInFront(s: string, at: nat, e: nat, rest: seq<Piece>) returns (pieces: seq<Piece>)
    requires IsToken(s, at, e) && CutFrom(s, e, rest, 0)
    ensures CutFrom(s, at, pieces, 0) && pieces != [] && pieces[0].Styled?
  {
    pieces := [Styled(s[at], s[at + 1..e - 1])] + rest;
    Shifted(s, e, rest, pieces, 0);
  }

  /** Every text can be cut in this way. */
  lemma {:induction false} LeftmostExists(s: string, at: nat) returns (pieces: seq<Piece>)
    requires at <= |s|
    ensures CutFrom(s, at, pieces, 0)
    decreases |s| - at
  {
    NextTokenIsLeftmost(s, at);
    match NextToken(s, at)
    case None => pieces := PlainInFront(s, at, |s|, []);
    case Some(m) =>
      var rest := LeftmostExists(s, m.end);
      var styled := TokenInFront(s, m.index, m.end, rest);
      pieces := PlainInFront(s, at, m.index, styled);
  }

  lemma ParseIsLeftmost(s: string)
    ensures IsLeftmostParse(s, Parse(s, 0))
  {
    var pieces := LeftmostExists(s, 0);
    ParseIsUnique(s, 0, pieces, 0);
    assert pieces[0..] == pieces;
  }

  /** The scanner's result is characterized outright: it is the one list of pieces
      that lays out the text with no token left in plain text. */
  lemma ParseCharacterized(s: string, pieces: seq<Piece>)
    ensures pieces == Parse(s, 0) <==> IsLeftmostParse(s, pieces)
  {
    ParseIsLeftmost(s);
    if IsLeftmostParse(s, pieces) {
      ParseIsUnique(s, 0, pieces, 0);
      assert pieces[0..] == pieces;
    }
  }

  lemma TokenSource(s: string, at: nat, next: nat)
    requires IsToken(s, at, next)
    ensures [s[at]] + s[at + 1..next - 1] + [s[at]] == s[at..next]
    ensures s[at] !in s[at + 1..next - 1] && '\n' !in s[at + 1..next - 1]
  {
    var inner := s[at + 1..next - 1];
    assert forall k | 0 <= k < |inner| :: inner[k] == s[at + 1 + k];
  }

  lemma SourceOfPiece(s: string, at: nat, pieces: seq<Piece>, i: nat)
    requires i < |pieces| && Fits(s, at, pieces, i)
    ensures Source(pieces[i]) == s[at..at + Width(pieces[i])]
    ensures WellFormed(pieces[i])
  {
    if pieces[i].Styled? {
      TokenSource(s, at, at + Width(pieces[i]));
    }
  }

  lemma SliceSplits(s: string, a: nat, b: nat)
    requires a <= b <= |s|
    ensures s[a..] == s[a..b] + s[b..]
  {
  }

  /** With the delimiters put back, the pieces are the rest of the text. */
  lemma {:induction false} SourcesOfCut(s: string, at: nat, pieces: seq<Piece>, i: nat)
    requires i <= |pieces| && CutFrom(s, at, pieces, i)
    ensures at <= |s| && Sources(pieces, i) == s[at..]
    decreases |pieces| - i
  {
    if i < |pieces| {
      var next := at + Width(pieces[i]);
      SourcesOfCut(s, next, pieces, i + 1);
      SourceOfPiece(s, at, pieces, i);
      SliceSplits(s, at, next);
    }
  }

  lemma {:induction false} PiecesAreWellFormed(s: string, at: nat, pieces: seq<Piece>, i: nat, k: nat)
    requires i <= k < |pieces| && CutFrom(s, at, pieces, i)
    ensures WellFormed(pieces[k])
    decreases k - i
  {
    if i < k {
      PiecesAreWellFormed(s, at + Width(pieces[i]), pieces, i + 1, k);
    } else {
      SourceOfPiece(s, at, pieces, i);
    }
  }

  /** Nothing of the text is lost, and what is styled is never empty and never holds
      its own delimiter or a newline. */
  lemma FormatRoundTrip(s: string)
    ensures Sources(Parse(s, 0), 0) == s
    ensures forall p | p in Parse(s, 0) :: WellFormed(p)
  {
    var pieces := Parse(s, 0);
    ParseIsLeftmost(s);
    SourcesOfCut(s, 0, pieces, 0);
    forall p | p in pieces ensures WellFormed(p) {
      var k: nat :| k < |pieces| && pieces[k] == p;
      PiecesAreWellFormed(s, 0, pieces, 0, k);
    }
  }
}
