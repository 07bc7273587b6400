/** Breaking a text into lines for a screen of limited width
    (mk/linux/mojosetup/mojosetup.c:819-825 and 837-908). */
module SplitText {
  import opened Names
  import opened Utf8

  predicate Blank(b: nat) { b == 32 || b == 9 }

  predicate LineEnd(c: nat) { c == 13 || c == 10 }

  predicate Blanks(s: Text, a: nat, b: nat) {
    forall k :: a <= k < b ==> Blank(At(s, k))
  }

  /** A line feed that belongs to the carriage return before it. */
  predicate Dos(s: Text, a: nat) {
    0 < a < |s| && s[a - 1] == 13 && s[a] == 10
  }

  /** What is left out between a and b: the line feed of a carriage return that a
      line ended with, and then spaces and tabs. */
  predicate Gap(s: Text, a: nat, b: nat) {
    a <= b <= |s| && if Dos(s, a) then a < b && Blanks(s, a + 1, b) else Blanks(s, a, b)
  }

  /** A line: where it begins and ends in the text, and how many characters it has. */
  datatype Span = Span(from: nat, to: nat, count: nat)

  /** Where the part of the text that the first k spans account for ends. */
  function EndOf(spans: seq<Span>, k: nat): nat
    requires k <= |spans|
  {
    if k == 0 then 0 else spans[k - 1].to
  }

  predicate LineAt(s: Text, lines: seq<Text>, spans: seq<Span>, k: nat)
    requires k < |lines| == |spans|
  {
    && spans[k].from < spans[k].to <= |s| && Gap(s, EndOf(spans, k), spans[k].from)
    && lines[k] == s[spans[k].from..spans[k].to]
  }

  /** The lines are pieces of the text, in order; up to end nothing is left out
      between them but what may be. */
  predicate Laid(s: Text, lines: seq<Text>, spans: seq<Span>, end: nat) {
    && |lines| == |spans| && (forall k :: 0 <= k < |lines| ==> LineAt(s, lines, spans, k))
    && Gap(s, EndOf(spans, |spans|), end)
  }

  // ---- where a line ends

  /** Character k from a on. */
  function CharAt(s: Text, a: nat, k: nat): nat {
    if a <= |s| then Decode(s, Skip(s, a, k)).0 else 0
  }

  ghost predicate NoEnds(s: Text, a: nat, n: int) {
    forall k :: 0 <= k < n ==> !LineEnd(CharAt(s, a, k))
  }

  /** The last space or tab among the first n characters, not counting the first
      of all; 0 if there is none. */
  function LastBlank(s: Text, a: nat, n: nat): (f: nat)
    ensures f == 0 || f < n
  {
    if n <= 1 then 0 else if Blank(CharAt(s, a, n - 1)) then n - 1 else LastBlank(s, a, n - 1)
  }

  /** The last blank, or the one remembered from before. */
  function Last(s: Text, a: nat, n: nat, stale: nat): nat {
    if LastBlank(s, a, n) > 0 then LastBlank(s, a, n) else stale
  }

  /** How many characters stay on a line that overflows the screen. */
  function Break(s: Text, a: nat, scrw: nat, stale: nat): nat {
    if Last(s, a, scrw, stale) > 0 then Last(s, a, scrw, stale) else scrw
  }

  /** The first i characters from text on end at the given place, and each of them
      is one. */
  ghost predicate Read(s: Text, text: nat, i: nat, at: nat) {
    text <= |s| && Skip(s, text, i) == at && (i > 0 ==> Skip(s, text, i - 1) < |s|)
  }

  /** The first n characters from a on are a line of at most scrw characters: it
      does not start with a blank; and it ends with a line end, the first there
      is, or with the text, or it is cut where Break says, because scrw characters
      without a line end are not all of the text. What follows them is not looked
      at: it may be a line end, see FullLineKeptIff. */
  ghost predicate Line(s: Text, scrw: nat, a: nat, n: nat, stale: nat) {
    && 0 < n <= scrw && a <= |s| && Read(s, a, n, Skip(s, a, n)) && !Blank(CharAt(s, a, 0)) && NoEnds(s, a, n - 1)
    && (LineEnd(CharAt(s, a, n - 1)) || Skip(s, a, n) == |s|
        || (Skip(s, a, scrw) < |s| && NoEnds(s, a, scrw) && n == Break(s, a, scrw, stale)))
  }

  predicate Ended(s: Text, sp: Span) { sp.count > 0 && LineEnd(CharAt(s, sp.from, sp.count - 1)) }

  /** The blank that is remembered when line k starts: furthest is set back only
      where the outer loop starts, so it is the last one of the lines before with
      a line end, back to a line without. */
  function Stale(s: Text, spans: seq<Span>, k: nat): nat
    requires k <= |spans|
  {
    if k == 0 || !Ended(s, spans[k - 1]) then 0
    else Last(s, spans[k - 1].from, spans[k - 1].count, Stale(s, spans, k - 1))
  }

  ghost predicate Right(s: Text, scrw: nat, spans: seq<Span>, k: nat)
    requires k < |spans|
  {
    && spans[k].from <= |s| && spans[k].to == Skip(s, spans[k].from, spans[k].count)
    && Line(s, scrw, spans[k].from, spans[k].count, Stale(s, spans, k))
  }

  /** Every line ends where it should. */
  ghost predicate Wrapped(s: Text, scrw: nat, spans: seq<Span>) {
    forall k :: 0 <= k < |spans| ==> Right(s, scrw, spans, k)
  }

  /** The characters of a line, its line end apart. */
  function Width(s: Text, sp: Span): nat {
    if Ended(s, sp) then sp.count - 1 else sp.count
  }

  function Widest(s: Text, spans: seq<Span>): nat {
    if spans == [] then 0 else
      var w, v := Widest(s, spans[..|spans| - 1]), Width(s, spans[|spans| - 1]);
      if v > w then v else w
  }

  // ---- one more line

  lemma NextLine(s: Text, lines: seq<Text>, spans: seq<Span>, a: nat, b: nat, n: nat, end: nat)
    requires Laid(s, lines, spans, a) && a < b <= |s| && Gap(s, b, end)
    ensures Laid(s, lines + [s[a..b]], spans + [Span(a, b, n)], end)
  {
    hide Gap;
    var ls, ps := lines + [s[a..b]], spans + [Span(a, b, n)];
    forall k | 0 <= k < |ls| ensures LineAt(s, ls, ps, k) {
      assert EndOf(ps, k) == EndOf(spans, k);
      if k < |lines| {
        assert LineAt(s, lines, spans, k);
      }
    }
  }

  lemma {:induction false} StaleSame(s: Text, spans: seq<Span>, sp: Span, k: nat)
    requires k <= |spans|
    ensures Stale(s, spans + [sp], k) == Stale(s, spans, k)
  {
    hide Ended, Last;
    if k > 0 {
      StaleSame(s, spans, sp, k - 1);
    }
  }

  lemma NextWrapped(s: Text, scrw: nat, spans: seq<Span>, sp: Span)
    requires Wrapped(s, scrw, spans) && sp.from <= |s| && sp.to == Skip(s, sp.from, sp.count)
    requires Line(s, scrw, sp.from, sp.count, Stale(s, spans, |spans|))
    ensures Wrapped(s, scrw, spans + [sp])
    ensures Widest(s, spans + [sp]) == if Width(s, sp) > Widest(s, spans) then Width(s, sp) else Widest(s, spans)
    ensures Stale(s, spans + [sp], |spans| + 1) ==
      if Ended(s, sp) then Last(s, sp.from, sp.count, Stale(s, spans, |spans|)) else 0
  {
    hide Line, Skip, Ended, Last, Width;
    StaleSame(s, spans, sp, |spans|);
    assert (spans + [sp])[..|spans|] == spans;
    forall k | 0 <= k < |spans| + 1 ensures Right(s, scrw, spans + [sp], k) {
      StaleSame(s, spans, sp, k);
      if k < |spans| {
        assert Right(s, scrw, spans, k);
      }
    }
  }

  lemma MoreBlank(s: Text, lines: seq<Text>, spans: seq<Span>, a: nat)
    requires Laid(s, lines, spans, a) && a < |s| && Blank(At(s, a))
    ensures Laid(s, lines, spans, a + 1)
  {
  }

  /** utf8len */
  method Utf8Len(s: Text, str: nat) returns (n: nat)
    requires str <= |s|
    ensures n == Length(s, str)
  {
    hide Decode;
    n := 0;
    var p := str;
    while true
      invariant str <= p <= |s| && n + Length(s, p) == Length(s, str)
      decreases |s| - p
    {
      DecodeAdvances(s, p);
      var ch, q := CodePoint(s, p);
      if ch == 0 {
        break;
      }
      n, p := n + 1, q;
    }
  }

  lemma ReadMore(s: Text, text: nat, i: nat, at: nat)
    requires Read(s, text, i, at) && at < |s|
    ensures Read(s, text, i + 1, Decode(s, at).1) && CharAt(s, text, i) == Decode(s, at).0
    ensures at < Decode(s, at).1 <= |s| && text < Decode(s, at).1
  {
    hide Decode;
    SkipNext(s, text, i);
    DecodeAdvances(s, at);
  }

  lemma ReadPiece(s: Text, text: nat, i: nat, at: nat)
    requires Read(s, text, i, at)
    ensures text <= at <= |s| && Length(s[text..at], 0) == i && (i > 0 ==> text < at)
  {
    hide Decode;
    PieceLength(s, text, i);
    if i > 0 {
      SkipShort(s, text, i - 1);
      SkipMoves(s, text, i);
    }
  }

  lemma {:induction false} ReadLess(s: Text, text: nat, i: nat, at: nat, pos: nat)
    requires Read(s, text, i, at) && pos <= i
    ensures Read(s, text, pos, Skip(s, text, pos))
    decreases i - pos
  {
    hide Decode;
    if pos < i {
      SkipShortBy(s, text, i - 1);
      ReadLess(s, text, i - 1, Skip(s, text, i - 1), pos);
    }
  }

  lemma SkipShortBy(s: Text, p: nat, n: nat)
    requires p <= |s| && Skip(s, p, n) < |s|
    ensures n > 0 ==> Skip(s, p, n - 1) < |s|
  {
    hide Decode;
    if n > 0 {
      SkipNext(s, p, n - 1);
      DecodeAdvances(s, Skip(s, p, n - 1));
    }
  }

  /** A one-byte character is its byte. */
  lemma OneByte(s: Text, p: nat)
    requires p < |s| && Decode(s, p).0 < 128
    ensures s[p] == Decode(s, p).0 && Decode(s, p).1 == p + 1
  {
    hide Value;
  }

  // ---- the loops

  /** The characters read of a line so far, and the last blank. */
  ghost predicate Reading(s: Text, text: nat, i: nat, furthest: nat, stale: nat) {
    && text <= |s| && Read(s, text, i, Skip(s, text, i)) && NoEnds(s, text, i)
    && (i > 0 ==> !Blank(CharAt(s, text, 0))) && furthest == Last(s, text, i, stale)
  }

  lemma ReadingNothing(s: Text, text: nat, stale: nat)
    requires text <= |s|
    ensures Reading(s, text, 0, stale, stale) && Skip(s, text, 0) == text
  {
  }

  lemma ReadingOn(s: Text, text: nat, i: nat, furthest: nat, stale: nat, f: nat)
    requires Reading(s, text, i, furthest, stale) && Skip(s, text, i) < |s|
    requires var c := CharAt(s, text, i); !LineEnd(c) && (i == 0 ==> !Blank(c)) && f == if Blank(c) then i else furthest
    ensures Reading(s, text, i + 1, f, stale)
  {
    hide Decode, Skip;
    ReadMore(s, text, i, Skip(s, text, i));
    forall k | 0 <= k < i + 1 ensures !LineEnd(CharAt(s, text, k)) {
    }
  }

  /** A line end ends the line. */
  lemma EndsHere(s: Text, scrw: nat, text: nat, i: nat, furthest: nat, stale: nat)
    requires Reading(s, text, i, furthest, stale) && Skip(s, text, i) < |s| && i < scrw && LineEnd(CharAt(s, text, i))
    ensures Line(s, scrw, text, i + 1, stale) && Read(s, text, i + 1, Skip(s, text, i + 1))
    ensures furthest == Last(s, text, i + 1, stale)
  {
    hide Decode, Skip;
    ReadMore(s, text, i, Skip(s, text, i));
  }

  /** The inner loop: whole lines are taken and line starts trimmed, until the line
      at text overflows the screen or the text ends. */
  method Scan(s: Text, text0: nat, scrw: nat, lines0: seq<Text>, w0: nat, ghost spans0: seq<Span>)
    returns (text: nat, i: nat, ch: nat, furthest: nat, lines: seq<Text>, w: nat, ghost spans: seq<Span>)
    requires text0 < |s| && Laid(s, lines0, spans0, text0) && Wrapped(s, scrw, spans0) && w0 == Widest(s, spans0)
    requires Stale(s, spans0, |spans0|) == 0
    ensures text0 <= text <= |s| && Laid(s, lines, spans, text) && Wrapped(s, scrw, spans) && w == Widest(s, spans)
    ensures i <= scrw && Reading(s, text, i, furthest, Stale(s, spans, |spans|))
    ensures furthest < scrw || furthest == 0
    ensures if ch == 0 then Skip(s, text, i) == |s| else i == scrw && Skip(s, text, i) < |s|
  {
    hide Laid, Wrapped, Line, Reading, Read, Decode, Skip, CharAt, Widest, Width, Stale, Last, NoEnds, Gap;
    text, lines, w, spans := text0, lines0, w0, spans0;
    furthest, i := 0, 0;
    var utf8text := text;
    ReadingNothing(s, text, 0);
    while true
      invariant text0 <= text <= utf8text <= |s| && i <= scrw && (furthest < scrw || furthest == 0)
      invariant utf8text == Skip(s, text, i) && Reading(s, text, i, furthest, Stale(s, spans, |spans|))
      invariant i == 0 ==> utf8text == text && furthest == Stale(s, spans, |spans|)
      invariant Laid(s, lines, spans, text) && Wrapped(s, scrw, spans) && w == Widest(s, spans)
      decreases |s| - utf8text
    {
      ghost var at := utf8text;
      ghost var stale := Stale(s, spans, |spans|);
      DecodeAdvances(s, utf8text);
      ch, utf8text := CodePoint(s, utf8text);
      if ch == 0 || i >= scrw {
        break;
      }
      CharIs(s, text, i, furthest, stale);
      if ch == 13 || ch == 10 {
        OneByte(s, at);
        var nextbyte := Utf8.At(s, utf8text);
        ghost var sp := Span(text, utf8text, i + 1);
        EndsHere(s, scrw, text, i, furthest, stale);
        ReadPiece(s, text, i + 1, utf8text);
        var line := s[text..utf8text];
        if ch == 13 && nextbyte == 10 {
          utf8text := utf8text + 1;
        }
        AfterLine(s, sp.to, utf8text);
        NextLine(s, lines, spans, text, sp.to, i + 1, utf8text);
        NextWrapped(s, scrw, spans, sp);
        WidthIs(s, sp);
        lines, spans := lines + [line], spans + [sp];
        text := utf8text;
        if i > w { w := i; }
        i := 0;
        ReadingNothing(s, text, furthest);
      } else if ch == 32 || ch == 9 {
        if i != 0 {
          ReadingOn(s, text, i, furthest, stale, i);
          furthest := i;
          i := i + 1;
        } else {
          OneByte(s, at);
          MoreBlank(s, lines, spans, text);
          text := text + 1;
          ReadingNothing(s, text, stale);
        }
      } else {
        ReadingOn(s, text, i, furthest, stale, furthest);
        i := i + 1;
      }
    }
  }

  lemma CharIs(s: Text, text: nat, i: nat, furthest: nat, stale: nat)
    requires Reading(s, text, i, furthest, stale) && Skip(s, text, i) < |s|
    ensures CharAt(s, text, i) == Decode(s, Skip(s, text, i)).0 && Skip(s, text, i + 1) == Decode(s, Skip(s, text, i)).1
  {
    hide Decode, Skip;
    SkipNext(s, text, i);
  }

  lemma WidthIs(s: Text, sp: Span)
    requires sp.count > 0
    ensures Width(s, sp) == if LineEnd(CharAt(s, sp.from, sp.count - 1)) then sp.count - 1 else sp.count
    ensures Ended(s, sp) <==> LineEnd(CharAt(s, sp.from, sp.count - 1))
  {
  }

  lemma AfterLine(s: Text, a: nat, b: nat)
    requires 0 < a <= |s| && b == if Dos(s, a) then a + 1 else a
    ensures Gap(s, a, b)
  {
  }

  /** What follows the inner loop: the characters up to the last blank, or all that
      fit, or all that are left, become a line. */
  method Take(s: Text, text: nat, scrw: nat, i: nat, ch: nat, furthest: nat, lines0: seq<Text>, w0: nat, ghost spans0: seq<Span>)
    returns (text': nat, lines: seq<Text>, w: nat, ghost spans: seq<Span>)
    requires scrw >= 1 && text <= |s| && Laid(s, lines0, spans0, text) && Wrapped(s, scrw, spans0) && w0 == Widest(s, spans0)
    requires i <= scrw && Reading(s, text, i, furthest, Stale(s, spans0, |spans0|)) && (furthest < scrw || furthest == 0)
    requires if ch == 0 then Skip(s, text, i) == |s| else i == scrw && Skip(s, text, i) < |s|
    ensures text <= text' <= |s| && Laid(s, lines, spans, text') && Wrapped(s, scrw, spans) && w == Widest(s, spans)
    ensures text == text' ==> text == |s|
    ensures text' < |s| ==> Stale(s, spans, |spans|) == 0
  {
    hide Laid, Wrapped, Line, Reading, Read, Decode, Skip, Length, CharAt, Widest, Width, Ended, Stale, Last, NoEnds,
      Gap, LineEnd;
    lines, w, spans, text' := lines0, w0, spans0, text;
    ghost var stale := Stale(s, spans, |spans|);
    var pos := if ch != 0 then furthest else i;
    if ch != 0 && furthest == 0 {
      pos := Utf8Len(s, text);
      LongEnough(s, text, i);
      if pos > scrw {
        pos := scrw;
      }
    }
    if pos > 0 {
      var utf8text := SkipOver(s, text, pos);
      ghost var sp := Span(text, utf8text, pos);
      CutHere(s, scrw, text, i, pos, ch, furthest, stale);
      NextLine(s, lines, spans, text, utf8text, pos, utf8text);
      NextWrapped(s, scrw, spans, sp);
      WidthIs(s, sp);
      lines, spans := lines + [s[text..utf8text]], spans + [sp];
      text' := utf8text;
      if pos > w { w := pos; }
    } else {
      ReadingNothing(s, text, stale);
    }
  }

  /** The line that is cut is a right one, and no line end is lost with it. */
  lemma CutHere(s: Text, scrw: nat, text: nat, i: nat, pos: nat, ch: nat, furthest: nat, stale: nat)
    requires 0 < pos <= i <= scrw && Reading(s, text, i, furthest, stale)
    requires if ch == 0 then Skip(s, text, i) == |s| && pos == i
      else i == scrw && Skip(s, text, i) < |s| && pos == if furthest > 0 then furthest else scrw
    ensures Line(s, scrw, text, pos, stale) && !LineEnd(CharAt(s, text, pos - 1))
    ensures text < Skip(s, text, pos) <= |s| && Gap(s, Skip(s, text, pos), Skip(s, text, pos))
  {
    hide Decode, Skip;
    ReadLess(s, text, i, Skip(s, text, i), pos);
    ReadPiece(s, text, pos, Skip(s, text, pos));
    assert !LineEnd(CharAt(s, text, pos - 1));
    SkipNext(s, text, pos - 1);
    LastByte(s, Skip(s, text, pos - 1));
  }

  lemma {:induction false} TailAll(s: Text, p: nat, n: nat, k: nat)
    requires Tail(s, p, n) == n && k < n
    ensures Continues(At(s, p + k))
    decreases n
  {
    if k > 0 {
      TailAll(s, p + 1, n - 1, k - 1);
    }
  }

  /** Only a carriage return ends with its byte. */
  lemma LastByte(s: Text, p: nat)
    requires p < |s| && Decode(s, p).0 != 13
    ensures p < Decode(s, p).1 <= |s| && s[Decode(s, p).1 - 1] != 13
  {
    hide Value, Accepted, Tail;
    DecodeAdvances(s, p);
    var n := Following(At(s, p));
    if n > 0 && Tail(s, p + 1, n) == n {
      TailAll(s, p + 1, n, n - 1);
    }
  }

  /** Where characters are left after i of them there are more than i. */
  lemma {:induction false} LongEnough(s: Text, p: nat, i: nat)
    requires p <= |s|
    ensures Skip(s, p, i) < |s| ==> Length(s, p) > i
    decreases i
  {
    hide Decode;
    DecodeAdvances(s, p);
    if i > 0 {
      LongEnough(s, Decode(s, p).1, i - 1);
    }
  }

  /** Decoding once more from the start. */
  method SkipOver(s: Text, text: nat, pos: nat) returns (utf8text: nat)
    requires text <= |s|
    ensures utf8text == Skip(s, text, pos)
  {
    hide Decode;
    utf8text := text;
    for j := 0 to pos
      invariant utf8text == Skip(s, text, j)
    {
      SkipNext(s, text, j);
      var _, next := CodePoint(s, utf8text);
      utf8text := next;
    }
  }

  /** splitText: lines of at most scrw characters that hold the text, but for
      spaces and tabs at line starts and line feeds after carriage returns; each
      ends where Line says; and the width of the widest, its line end apart. */
  method Split(s: Text, scrw: nat) returns (lines: seq<Text>, w: nat)
    requires scrw >= 1
    ensures exists spans :: Laid(s, lines, spans, |s|) && Wrapped(s, scrw, spans) && w == Widest(s, spans)
    ensures forall k :: 0 <= k < |lines| ==> Length(lines[k], 0) <= scrw
  {
    hide Laid, Wrapped, Line, Reading, Read, Decode, Skip, Length, Widest, Stale, Gap;
    lines, w := [], 0;
    ghost var spans := [];
    var text := 0;
    NothingLaid(s, scrw);
    while text < |s|
      invariant text <= |s| && Laid(s, lines, spans, text) && Wrapped(s, scrw, spans) && w == Widest(s, spans)
      invariant text < |s| ==> Stale(s, spans, |spans|) == 0
      decreases |s| - text
    {
      var i, ch, furthest;
      text, i, ch, furthest, lines, w, spans := Scan(s, text, scrw, lines, w, spans);
      text, lines, w, spans := Take(s, text, scrw, i, ch, furthest, lines, w, spans);
    }
    AllFit(s, scrw, lines, spans, |s|);
  }

  lemma NothingLaid(s: Text, scrw: nat)
    ensures Laid(s, [], [], 0) && Wrapped(s, scrw, []) && Widest(s, []) == 0 && Stale(s, [], 0) == 0
  {
  }

  /** No line is wider than the screen. */
  lemma AllFit(s: Text, scrw: nat, lines: seq<Text>, spans: seq<Span>, end: nat)
    requires Laid(s, lines, spans, end) && Wrapped(s, scrw, spans)
    ensures forall k :: 0 <= k < |lines| ==> Length(lines[k], 0) <= scrw
  {
    hide Decode, Skip, Length, Gap, NoEnds, CharAt, Break, Read;
    forall k | 0 <= k < |lines| ensures Length(lines[k], 0) <= scrw {
      assert LineAt(s, lines, spans, k) && Right(s, scrw, spans, k);
      ReadPiece(s, spans[k].from, spans[k].count, spans[k].to);
    }
  }

  // ---- there is one way to do it

  lemma {:induction false} SkipMono(s: Text, p: nat, m: nat, n: nat)
    requires p <= |s|
    ensures m <= n ==> Skip(s, p, m) <= Skip(s, p, n)
    decreases n
  {
    hide Decode, Skip;
    if m < n {
      SkipMono(s, p, m, n - 1);
      SkipNext(s, p, n - 1);
      DecodeAdvances(s, Skip(s, p, n - 1));
    }
  }

  lemma SameCount(s: Text, scrw: nat, a: nat, m: nat, n: nat, stale: nat)
    requires Line(s, scrw, a, m, stale) && Line(s, scrw, a, n, stale)
    ensures n <= m
  {
    hide Decode, Skip, CharAt, Break;
    SkipMono(s, a, m, n - 1);
    SkipMono(s, a, n, scrw);
    NoEndAt(s, a, n - 1, m - 1);
  }

  lemma NoEndAt(s: Text, a: nat, n: nat, k: nat)
    requires NoEnds(s, a, n)
    ensures k < n ==> !LineEnd(CharAt(s, a, k))
  {
  }

  /** A line starts where the next byte is no blank. */
  lemma StartOf(s: Text, scrw: nat, a: nat, n: nat, stale: nat)
    requires Line(s, scrw, a, n, stale)
    ensures a < |s| && !Blank(At(s, a))
  {
    hide Value, Break, NoEnds;
    assert Skip(s, a, 0) == a;
    SkipMono(s, a, 0, n - 1);
  }

  lemma SameStart(s: Text, e: nat, a: nat, b: nat)
    requires Gap(s, e, a) && Gap(s, e, b) && a < |s| && !Blank(At(s, a))
    ensures b <= a
  {
  }

  lemma {:induction false} StalePrefix(s: Text, p: seq<Span>, q: seq<Span>, k: nat)
    requires k <= |p| && k <= |q| && p[..k] == q[..k]
    ensures Stale(s, p, k) == Stale(s, q, k)
  {
    hide Ended, Last;
    if k > 0 {
      assert p[k - 1] == p[..k][k - 1] && q[k - 1] == q[..k][k - 1];
      assert p[..k - 1] == p[..k][..k - 1] && q[..k - 1] == q[..k][..k - 1];
      StalePrefix(s, p, q, k - 1);
    }
  }

  lemma {:induction false} SamePrefix(s: Text, scrw: nat, ls: seq<Text>, p: seq<Span>, ms: seq<Text>, q: seq<Span>, k: nat)
    requires Laid(s, ls, p, |s|) && Wrapped(s, scrw, p) && Laid(s, ms, q, |s|) && Wrapped(s, scrw, q)
    requires k <= |p| && k <= |q|
    ensures p[..k] == q[..k]
    decreases k
  {
    hide Line, Skip, Gap, Stale;
    if k > 0 {
      var i := k - 1;
      SamePrefix(s, scrw, ls, p, ms, q, i);
      StalePrefix(s, p, q, i);
      assert LineAt(s, ls, p, i) && Right(s, scrw, p, i) && LineAt(s, ms, q, i) && Right(s, scrw, q, i);
      assert EndOf(p, i) == EndOf(q, i) by {
        if i > 0 { assert p[i - 1] == p[..i][i - 1] == q[..i][i - 1] == q[i - 1]; }
      }
      var stale := Stale(s, p, i);
      StartOf(s, scrw, p[i].from, p[i].count, stale);
      StartOf(s, scrw, q[i].from, q[i].count, stale);
      SameStart(s, EndOf(p, i), p[i].from, q[i].from);
      SameStart(s, EndOf(p, i), q[i].from, p[i].from);
      SameCount(s, scrw, p[i].from, p[i].count, q[i].count, stale);
      SameCount(s, scrw, p[i].from, q[i].count, p[i].count, stale);
      assert p[..k] == p[..i] + [p[i]] && q[..k] == q[..i] + [q[i]];
    }
  }

  lemma NoMore(s: Text, scrw: nat, ls: seq<Text>, p: seq<Span>, ms: seq<Text>, q: seq<Span>)
    requires Laid(s, ls, p, |s|) && Wrapped(s, scrw, p) && Laid(s, ms, q, |s|) && Wrapped(s, scrw, q)
    ensures |q| <= |p|
  {
    hide Line, Skip, Gap, Stale;
    var k := |p|;
    if k < |q| {
      SamePrefix(s, scrw, ls, p, ms, q, k);
      assert LineAt(s, ms, q, k) && Right(s, scrw, q, k);
      assert EndOf(p, k) == EndOf(q, k) by {
        if k > 0 { assert p[k - 1] == p[..k][k - 1] == q[..k][k - 1] == q[k - 1]; }
      }
      StartOf(s, scrw, q[k].from, q[k].count, Stale(s, q, k));
      SameStart(s, EndOf(p, k), q[k].from, |s|);
    }
  }

  /** The text and the width of the screen determine the lines. */
  lemma OneWay(s: Text, scrw: nat, ls: seq<Text>, p: seq<Span>, ms: seq<Text>, q: seq<Span>)
    requires Laid(s, ls, p, |s|) && Wrapped(s, scrw, p) && Laid(s, ms, q, |s|) && Wrapped(s, scrw, q)
    ensures p == q && ls == ms
  {
    hide Line, Skip, Gap, Stale, Right;
    NoMore(s, scrw, ls, p, ms, q);
    NoMore(s, scrw, ms, q, ls, p);
    SamePrefix(s, scrw, ls, p, ms, q, |p|);
    assert p == p[..|p|] && q == q[..|q|];
    forall k | 0 <= k < |ls| ensures ls[k] == ms[k] {
      assert LineAt(s, ls, p, k) && LineAt(s, ms, q, k);
    }
  }

  // ---- where lines are not cut well

  /** A line that overflows is cut at its last blank, or else filled. */
  ghost predicate CutWell(s: Text, scrw: nat, a: nat, n: nat) {
    n == if LastBlank(s, a, scrw) > 0 then LastBlank(s, a, scrw) else scrw
  }

  lemma {:induction false} StaleIsShort(s: Text, scrw: nat, spans: seq<Span>, k: nat)
    requires Wrapped(s, scrw, spans) && k <= |spans|
    ensures Stale(s, spans, k) == 0 || Stale(s, spans, k) < scrw
  {
    hide Line, Skip, Ended, CharAt;
    if k > 0 {
      StaleIsShort(s, scrw, spans, k - 1);
      assert Right(s, scrw, spans, k - 1);
      assert spans[k - 1].count <= scrw by { LineIsShort(s, scrw, spans, k - 1); }
    }
  }

  lemma LineIsShort(s: Text, scrw: nat, spans: seq<Span>, k: nat)
    requires k < |spans| && Right(s, scrw, spans, k)
    ensures spans[k].count <= scrw
  {
  }

  /** It is cut well if and only if it has a blank of its own, or none is left
      over from the lines before. */
  lemma CutWellIff(s: Text, scrw: nat, spans: seq<Span>, k: nat)
    requires Wrapped(s, scrw, spans) && k < |spans| && !Ended(s, spans[k]) && spans[k].to < |s|
    ensures CutWell(s, scrw, spans[k].from, spans[k].count) <==>
      LastBlank(s, spans[k].from, scrw) > 0 || Stale(s, spans, k) == 0
  {
    hide Skip, CharAt, Stale, LastBlank;
    assert Right(s, scrw, spans, k);
    StaleIsShort(s, scrw, spans, k);
  }

  lemma {:induction false} Ascii(s: Text, a: nat, n: nat)
    requires a + n <= |s| && forall k :: a <= k < a + n ==> s[k] < 128
    ensures Skip(s, a, n) == a + n
    decreases n
  {
    hide Value, Accepted, Tail;
    if n > 0 {
      Ascii(s, a, n - 1);
      SkipNext(s, a, n - 1);
    }
  }

  /** In plain text the characters are the bytes. */
  lemma {:induction false} AsciiChars(s: Text, a: nat, n: nat)
    requires a + n <= |s| && forall k :: a <= k < a + n ==> s[k] < 128
    ensures forall k :: 0 <= k <= n ==> Skip(s, a, k) == a + k
    ensures forall k :: 0 <= k < n ==> CharAt(s, a, k) == s[a + k]
  {
    hide Value, Accepted, Tail, Skip;
    forall k | 0 <= k <= n ensures Skip(s, a, k) == a + k {
      Ascii(s, a, k);
    }
  }

  /** So it need not be: with four characters to a line, the line after a line
      with a space is cut where that space was, for want of one of its own. */
  lemma CutAtOldBlank(s: Text, spans: seq<Span>, lines: seq<Text>)
    requires s == [97, 32, 98, 10, 99, 100, 101, 102, 103, 104]
    requires spans == [Span(0, 4, 4), Span(4, 5, 1), Span(5, 9, 4), Span(9, 10, 1)]
    requires lines == [s[0..4], s[4..5], s[5..9], s[9..10]]
    ensures Laid(s, lines, spans, |s|) && Wrapped(s, 4, spans) && !CutWell(s, 4, 4, 1)
  {
    hide Decode, Skip, CharAt;
    AsciiChars(s, 0, 4);
    AsciiChars(s, 4, 4);
    AsciiChars(s, 5, 4);
    AsciiChars(s, 9, 1);
    assert LastBlank(s, 0, 4) == LastBlank(s, 0, 3) == LastBlank(s, 0, 2) == 1;
    assert LastBlank(s, 4, 4) == LastBlank(s, 4, 3) == LastBlank(s, 4, 2) == LastBlank(s, 4, 1) == 0;
    assert LastBlank(s, 5, 4) == LastBlank(s, 5, 3) == LastBlank(s, 5, 2) == LastBlank(s, 5, 1) == 0;
    assert Stale(s, spans, 0) == 0 && Stale(s, spans, 1) == 1;
    assert Stale(s, spans, 2) == 0 && Stale(s, spans, 3) == 0;
    assert Right(s, 4, spans, 0) && Right(s, 4, spans, 1) && Right(s, 4, spans, 2) && Right(s, 4, spans, 3);
  }

  /** A line that fits exactly, with its line end behind the last column, counts as
      one that overflows: it is kept whole if and only if it has no blank of its own,
      and none is left over. */
  lemma FullLineKeptIff(s: Text, scrw: nat, spans: seq<Span>, k: nat)
    requires Wrapped(s, scrw, spans) && k < |spans|
    requires var a := spans[k].from; a <= |s| && NoEnds(s, a, scrw) && Skip(s, a, scrw) < |s| && LineEnd(CharAt(s, a, scrw))
    ensures spans[k].count == scrw <==> LastBlank(s, spans[k].from, scrw) == 0 && Stale(s, spans, k) == 0
  {
    hide Skip, CharAt, Stale, LastBlank, LineEnd;
    assert Right(s, scrw, spans, k);
    StaleIsShort(s, scrw, spans, k);
    var a, n := spans[k].from, spans[k].count;
    NoEndAt(s, a, scrw, n - 1);
    SkipMono(s, a, n, scrw);
  }

  /** So "ab cd" is cut, on a screen of five columns, when a line end follows. */
  lemma FullLineCut(s: Text, spans: seq<Span>, lines: seq<Text>)
    requires s == [97, 98, 32, 99, 100, 10, 101, 102]
    requires spans == [Span(0, 2, 2), Span(3, 6, 3), Span(6, 8, 2)]
    requires lines == [s[0..2], s[3..6], s[6..8]]
    ensures Laid(s, lines, spans, |s|) && Wrapped(s, 5, spans)
  {
    hide Decode, Skip, CharAt;
    AsciiChars(s, 0, 5);
    AsciiChars(s, 3, 3);
    AsciiChars(s, 6, 2);
    assert LastBlank(s, 0, 5) == LastBlank(s, 0, 4) == LastBlank(s, 0, 3) == 2;
    assert Stale(s, spans, 0) == 0 && Stale(s, spans, 1) == 0;
    assert LastBlank(s, 3, 3) == LastBlank(s, 3, 2) == LastBlank(s, 3, 1) == 0;
    assert Stale(s, spans, 2) == 0;
    assert Right(s, 5, spans, 0) && Right(s, 5, spans, 1) && Right(s, 5, spans, 2);
  }

  // ---- nothing visible is lost

  /** All bytes but spaces, tabs and line feeds. */
  function Ink(s: Text): Text {
    if s == [] then [] else Ink(s[..|s| - 1]) + if Blank(s[|s| - 1]) || s[|s| - 1] == 10 then [] else [s[|s| - 1]]
  }

  function Joined(lines: seq<Text>): Text {
    if lines == [] then [] else Joined(lines[..|lines| - 1]) + lines[|lines| - 1]
  }

  lemma {:induction false} InkJoins(a: Text, b: Text)
    ensures Ink(a + b) == Ink(a) + Ink(b)
    decreases |b|
  {
    if b == [] {
      assert a + b == a;
    } else {
      InkJoins(a, b[..|b| - 1]);
      assert (a + b)[..|a + b| - 1] == a + b[..|b| - 1];
    }
  }

  lemma {:induction false} GapHasNoInk(s: Text, a: nat, b: nat)
    requires Gap(s, a, b)
    ensures Ink(s[..b]) == Ink(s[..a])
    decreases b
  {
    if a < b {
      assert s[..b][..b - 1] == s[..b - 1];
      if !(Dos(s, a) && b == a + 1) {
        assert Blank(At(s, b - 1));
        GapHasNoInk(s, a, b - 1);
      }
    }
  }

  /** The lines, joined, show all that the text shows, in its order. */
  lemma {:induction false} NothingIsLost(s: Text, lines: seq<Text>, spans: seq<Span>, end: nat)
    requires Laid(s, lines, spans, end)
    ensures Ink(Joined(lines)) == Ink(s[..end])
    decreases |lines|
  {
    hide Ink, Gap;
    var n := |lines|;
    GapHasNoInk(s, EndOf(spans, n), end);
    if n == 0 {
      assert s[..0] == [];
    } else {
      var sp := spans[n - 1];
      assert LineAt(s, lines, spans, n - 1);
      LaidBefore(s, lines, spans, end);
      NothingIsLost(s, lines[..n - 1], spans[..n - 1], sp.from);
      InkJoins(Joined(lines[..n - 1]), lines[n - 1]);
      InkJoins(s[..sp.from], s[sp.from..sp.to]);
      assert s[..sp.from] + s[sp.from..sp.to] == s[..sp.to];
    }
  }

  lemma LaidBefore(s: Text, lines: seq<Text>, spans: seq<Span>, end: nat)
    requires Laid(s, lines, spans, end) && lines != []
    ensures var n := |lines| - 1; Laid(s, lines[..n], spans[..n], spans[n].from)
  {
    hide Gap;
    var n := |lines| - 1;
    assert LineAt(s, lines, spans, n);
    forall k | 0 <= k < n ensures LineAt(s, lines[..n], spans[..n], k) {
      assert LineAt(s, lines, spans, k);
      assert EndOf(spans[..n], k) == EndOf(spans, k);
    }
  }

  // ---- in bytes

  lemma {:induction false} TailLast(s: Text, p: nat, n: nat)
    requires n > 0 && Tail(s, p, n) == n
    ensures 128 <= Utf8.At(s, p + n - 1)
    decreases n
  {
    if n > 1 {
      TailLast(s, p + 1, n - 1);
    }
  }

  /** A character is a carriage return or a line feed exactly when its last byte is
      one. */
  lemma EndByte(s: Text, p: nat)
    requires p < |s|
    ensures p < Decode(s, p).1 <= |s|
    ensures s[Decode(s, p).1 - 1] in {13, 10} <==> LineEnd(Decode(s, p).0)
  {
    hide Value, Refused;
    DecodeAdvances(s, p);
    var n := Following(Utf8.At(s, p));
    if s[p] >= 192 && Tail(s, p + 1, n) == n {
      TailLast(s, p + 1, n);
    }
  }

  /** How many characters a line shows: its line end, if it has one, does not
      count. */
  function Shown(line: Text): nat {
    if line != [] && line[|line| - 1] in {13, 10} && Length(line, 0) > 0 then Length(line, 0) - 1 else Length(line, 0)
  }

  lemma ShownIs(s: Text, scrw: nat, lines: seq<Text>, spans: seq<Span>, end: nat, k: nat)
    requires Laid(s, lines, spans, end) && Wrapped(s, scrw, spans) && k < |lines|
    ensures Shown(lines[k]) == Width(s, spans[k])
  {
    hide Decode, Skip, Length, Gap, NoEnds, Break, LineEnd;
    assert LineAt(s, lines, spans, k) && Right(s, scrw, spans, k);
    var a, n := spans[k].from, spans[k].count;
    ReadPiece(s, a, n, spans[k].to);
    var q := Skip(s, a, n - 1);
    SkipNext(s, a, n - 1);
    EndByte(s, q);
    assert lines[k][|lines[k]| - 1] == s[spans[k].to - 1];
  }

  /** The width that is returned is that of the widest line. */
  lemma {:induction false} WidestIs(s: Text, scrw: nat, lines: seq<Text>, spans: seq<Span>, end: nat)
    requires Laid(s, lines, spans, end) && Wrapped(s, scrw, spans)
    ensures forall k :: 0 <= k < |lines| ==> Shown(lines[k]) <= Widest(s, spans)
    ensures lines == [] ==> Widest(s, spans) == 0
    ensures lines != [] ==> exists k :: 0 <= k < |lines| && Shown(lines[k]) == Widest(s, spans)
  {
    hide Laid, Wrapped, Width, Shown;
    assert |lines| == |spans| by { SameLines(s, lines, spans, end); }
    WidestWidth(s, spans);
    forall k | 0 <= k < |lines| ensures Shown(lines[k]) == Width(s, spans[k]) {
      ShownIs(s, scrw, lines, spans, end, k);
    }
    if lines != [] {
      var k :| 0 <= k < |spans| && Width(s, spans[k]) == Widest(s, spans);
      assert Shown(lines[k]) == Widest(s, spans);
    }
  }

  lemma SameLines(s: Text, lines: seq<Text>, spans: seq<Span>, end: nat)
    requires Laid(s, lines, spans, end)
    ensures |lines| == |spans|
  {
  }

  lemma {:induction false} WidestWidth(s: Text, spans: seq<Span>)
    ensures forall k :: 0 <= k < |spans| ==> Width(s, spans[k]) <= Widest(s, spans)
    ensures spans != [] ==> exists k :: 0 <= k < |spans| && Width(s, spans[k]) == Widest(s, spans)
    decreases |spans|
  {
    hide Width;
    if spans != [] {
      var less, n := spans[..|spans| - 1], |spans| - 1;
      WidestWidth(s, less);
      forall k | 0 <= k < |spans| ensures Width(s, spans[k]) <= Widest(s, spans) {
        assert k < n ==> spans[k] == less[k];
      }
      if Width(s, spans[n]) <= Widest(s, less) && less != [] {
        var k :| 0 <= k < |less| && Width(s, less[k]) == Widest(s, less);
        assert Width(s, spans[k]) == Widest(s, spans);
      } else {
        assert Width(s, spans[n]) == Widest(s, spans);
      }
    }
  }

  /** What stands between two lines is spaces, tabs, and the line feed of a carriage
      return; no line starts with a space or a tab. */
  lemma BetweenLines(s: Text, scrw: nat, lines: seq<Text>, spans: seq<Span>, end: nat, k: nat, i: nat)
    requires Laid(s, lines, spans, end) && Wrapped(s, scrw, spans) && k < |lines|
    ensures EndOf(spans, k) <= i < spans[k].from ==>
      i < |s| && (s[i] in {32, 9} || (s[i] == 10 && i == EndOf(spans, k) && i > 0 && s[i - 1] == 13))
    ensures lines[k] != [] && lines[k][0] !in {32, 9}
  {
    hide Decode, Skip, Length, NoEnds, Break, LineEnd;
    assert LineAt(s, lines, spans, k) && Right(s, scrw, spans, k);
    var a := spans[k].from;
    FirstChar(s, a);
    if EndOf(spans, k) <= i < a && !(Dos(s, EndOf(spans, k)) && i == EndOf(spans, k)) {
      assert Blank(At(s, i));
    }
  }

  lemma FirstChar(s: Text, a: nat)
    requires a < |s|
    ensures s[a] in {32, 9} ==> CharAt(s, a, 0) == s[a]
  {
  }

  /** A tab is as good as a space: "ab", "cd" and "ef" on a screen of four columns. */
  lemma TabsBreak(s: Text, spans: seq<Span>, lines: seq<Text>)
    requires s == [97, 98, 9, 99, 100, 32, 101, 102]
    requires spans == [Span(0, 2, 2), Span(3, 5, 2), Span(6, 8, 2)]
    requires lines == [[97, 98], [99, 100], [101, 102]]
    ensures Laid(s, lines, spans, |s|) && Wrapped(s, 4, spans)
  {
    hide Decode, Skip, CharAt;
    AsciiChars(s, 0, 4);
    AsciiChars(s, 3, 4);
    AsciiChars(s, 6, 2);
    assert LastBlank(s, 0, 4) == LastBlank(s, 0, 3) == 2;
    assert LastBlank(s, 3, 4) == LastBlank(s, 3, 3) == 2;
    assert s[0..2] == [97, 98] && s[3..5] == [99, 100] && s[6..8] == [101, 102];
    assert Stale(s, spans, 0) == 0 && Stale(s, spans, 1) == 0 && Stale(s, spans, 2) == 0;
    assert Right(s, 4, spans, 0) && Right(s, 4, spans, 1) && Right(s, 4, spans, 2);
    assert Gap(s, 2, 3) && Gap(s, 5, 6);
    assert LineAt(s, lines, spans, 0) && LineAt(s, lines, spans, 1) && LineAt(s, lines, spans, 2);
  }
}
