/** Splitting a say text into chat lines (plugins/fleet/fleet_cmds.cpp). Text is UTF-8 bytes. */
module SaySplit {
  import opened Basics

  const LINE_BYTES: nat := 190
  const MAX_LINES: nat := 3

  /** A UTF-8 continuation byte. */
  predicate Inner(b: Byte) { 0x80 <= b < 0xC0 }

  predicate Control(b: Byte) { b < 0x20 || b == 0x7F }

  /** Cutting before position `c` splits no character. */
  predicate Boundary(s: seq<Byte>, c: int) { c == |s| || (0 <= c < |s| && !Inner(s[c])) }

  predicate Blank(s: seq<Byte>) { forall i | 0 <= i < |s| :: s[i] == 0x20 }

  predicate Trimmed(s: seq<Byte>) { s == [] || (s[0] != 0x20 && s[|s| - 1] != 0x20) }

  function Visible(text: seq<Byte>): seq<Byte> {
    if text == [] then []
    else Visible(text[..|text| - 1]) + (if Control(text[|text| - 1]) then [] else [text[|text| - 1]])
  }

  /** Bytes below 0x20 and 0x7f go, all others stay, each as often as it was there. */
  lemma {:induction false} VisibleBytes(text: seq<Byte>, b: Byte)
    ensures multiset(Visible(text))[b] == if b < 0x20 || b == 0x7f then 0 else multiset(text)[b]
  {
    if text != [] {
      VisibleBytes(text[..|text| - 1], b);
      assert text == text[..|text| - 1] + [text[|text| - 1]];
    }
  }

  /** Back from `c` to a boundary. */
  function CutBack(s: seq<Byte>, c: nat): (r: nat)
    requires c < |s|
    ensures r <= c
  {
    if c > 0 && Inner(s[c]) then CutBack(s, c - 1) else c
  }

  function Cut(s: seq<Byte>, max: nat): (r: nat)
    ensures r <= |s| && r <= max
  {
    if |s| <= max then |s| else CutBack(s, max)
  }

  /** The longest cut of at most `max` bytes at a boundary, or 0 if there is none. */
  method Utf8Cut(s: seq<Byte>, max: nat) returns (cut: nat)
    ensures cut == Cut(s, max) && cut <= |s| && cut <= max
    ensures cut == 0 || Boundary(s, cut)
    ensures forall c | cut < c <= max && c <= |s| :: !Boundary(s, c)
  {
    if |s| <= max { return |s|; }
    cut := max;
    while cut > 0 && Inner(s[cut])
      invariant cut <= max && CutBack(s, cut) == CutBack(s, max)
      invariant forall c | cut < c <= max :: !Boundary(s, c)
    {
      cut := cut - 1;
    }
  }

  /** Without control characters, and at most `max` bytes. */
  method Sanitize(text: seq<Byte>, max: nat) returns (s: seq<Byte>)
    ensures |s| <= max && |s| <= |Visible(text)| && s == Visible(text)[..|s|] && |s| == Cut(Visible(text), max)
    ensures s == [] || Boundary(Visible(text), |s|)
    ensures forall c | |s| < c <= max && c <= |Visible(text)| :: !Boundary(Visible(text), c)
  {
    s := [];
    for i := 0 to |text|
      invariant s == Visible(text[..i])
    {
      assert text[..i + 1][..i] == text[..i];
      if !Control(text[i]) { s := s + [text[i]]; }
    }
    assert text[..|text|] == text;
    var cut := Utf8Cut(s, max);
    s := s[..cut];
  }

  function WithoutHead(s: seq<Byte>): seq<Byte> { if s != [] && s[0] == 0x20 then WithoutHead(s[1..]) else s }

  function WithoutTail(s: seq<Byte>): seq<Byte> {
    if s != [] && s[|s| - 1] == 0x20 then WithoutTail(s[..|s| - 1]) else s
  }

  /** Without the spaces at both ends. */
  function Bare(s: seq<Byte>): seq<Byte> { WithoutTail(WithoutHead(s)) }

  method Trim(s: seq<Byte>) returns (t: seq<Byte>, ghost a: nat)
    ensures t == Bare(s)
    ensures a + |t| <= |s| && t == s[a..a + |t|] && Trimmed(t)
    ensures Blank(s[..a]) && Blank(s[a + |t|..])
  {
    var i := FirstVisible(s);
    var j := LastVisible(s, i);
    t, a := s[i..j], i;
  }

  method FirstVisible(s: seq<Byte>) returns (i: nat)
    ensures i <= |s| && Blank(s[..i]) && WithoutHead(s) == s[i..] && (i < |s| ==> s[i] != 0x20)
  {
    i := 0;
    assert s[0..] == s;
    while i < |s| && s[i] == 0x20
      invariant i <= |s| && Blank(s[..i]) && WithoutHead(s[i..]) == WithoutHead(s)
    {
      assert s[i..][1..] == s[i + 1..];
      i := i + 1;
    }
  }

  method LastVisible(s: seq<Byte>, i: nat) returns (j: nat)
    requires i <= |s|
    ensures i <= j <= |s| && Blank(s[j..]) && WithoutTail(s[i..]) == s[i..j] && (i < j ==> s[j - 1] != 0x20)
  {
    j := |s|;
    assert s[i..j] == s[i..];
    while j > i && s[j - 1] == 0x20
      invariant i <= j <= |s| && Blank(s[j..]) && WithoutTail(s[i..j]) == WithoutTail(s[i..])
    {
      assert s[i..j][..j - i - 1] == s[i..j - 1];
      assert s[j - 1..] == [s[j - 1]] + s[j..];
      j := j - 1;
    }
  }

  function SpaceBack(s: seq<Byte>, i: int): (r: int)
    requires -1 <= i < |s|
    ensures -1 <= r <= i
    decreases i + 1
  {
    if i >= 0 && s[i] != 0x20 then SpaceBack(s, i - 1) else i
  }

  /** The last space at or before `from`, or -1. */
  method LastSpace(s: seq<Byte>, from: nat) returns (sp: int)
    requires from < |s|
    ensures sp == SpaceBack(s, from) && -1 <= sp <= from && (sp >= 0 ==> s[sp] == 0x20)
    ensures forall i | sp < i <= from :: s[i] != 0x20
  {
    sp := from;
    while sp >= 0 && s[sp] != 0x20
      invariant -1 <= sp <= from && SpaceBack(s, sp) == SpaceBack(s, from)
      invariant forall i | sp < i <= from :: s[i] != 0x20
    {
      sp := sp - 1;
    }
  }

  /** More than a line, and no place to cut the first line. */
  predicate Stuck(rest: seq<Byte>) {
    |rest| > LINE_BYTES && forall i | 1 <= i <= LINE_BYTES :: Inner(rest[i])
  }

  /** Where the first line ends: at the last boundary, or at a space that does not leave it very short. */
  function LineCut(rest: seq<Byte>): (r: nat)
    ensures r <= |rest|
  {
    var n := Cut(rest, LINE_BYTES);
    if n < |rest| && SpaceBack(rest, n) >= LINE_BYTES / 2 then SpaceBack(rest, n) else n
  }

  /** What is left after a line. */
  function RestAfter(rest: seq<Byte>): seq<Byte> { Bare(rest[LineCut(rest)..]) }

  /** The loop comes to a stuck rest before it has its lines. */
  predicate GetsStuck(rest: seq<Byte>, lines: nat)
    decreases MAX_LINES - lines
  {
    rest != [] && lines < MAX_LINES && (Stuck(rest) || GetsStuck(RestAfter(rest), lines + 1))
  }

  /** `n` is the last place within a line's bytes from `a` on that splits no character. */
  predicate LastBoundary(s: seq<Byte>, a: nat, n: nat) {
    a <= n <= a + LINE_BYTES && n < |s| && Boundary(s, n) && forall c | n < c <= a + LINE_BYTES && c < |s| :: !Boundary(s, c)
  }

  predicate SpaceIn(s: seq<Byte>, lo: nat, hi: nat) { exists j | lo <= j <= hi && j < |s| :: s[j] == 0x20 }

  /** A text too long for a line is cut at its last space, if one leaves at least 95 bytes, and otherwise as late
      as a character allows. */
  ghost predicate Breaks(s: seq<Byte>, a: nat, cut: nat) {
    exists n: nat | LastBoundary(s, a, n) ::
      if SpaceIn(s, a + 95, n)
      then a + 95 <= cut <= n && s[cut] == 0x20 && !SpaceIn(s, cut + 1, n)
      else cut == n
  }

  /** One round of the splitting loop. It makes progress exactly when the text is not stuck; a stuck text
      is left as it was. A line ends at the last possible boundary, or at a late space. */
  method Step(rest: seq<Byte>) returns (line: seq<Byte>, next: seq<Byte>, ghost cut: nat)
    requires rest != [] && Trimmed(rest)
    ensures cut <= |rest| && cut <= LINE_BYTES && |line| <= cut && line == rest[..|line|] && Trimmed(line)
    ensures Blank(rest[|line|..cut]) && Trimmed(next)
    ensures cut <= |rest| - |next| && next == rest[|rest| - |next|..] && Blank(rest[cut..|rest| - |next|])
    ensures Stuck(rest) ==> cut == 0 && line == [] && next == rest
    ensures !Stuck(rest) ==> line != [] && |next| < |rest| && Boundary(rest, cut) && Boundary(rest, |line|)
    ensures |rest| <= LINE_BYTES ==> next == []
    ensures next == RestAfter(rest)
    ensures if |rest| <= LINE_BYTES then cut == |rest| else !Stuck(rest) ==> Breaks(rest, 0, cut)
  {
    var n := Utf8Cut(rest, LINE_BYTES);
    CutFound(rest, n);
    assert Boundary(rest, |rest|);
    ghost var last := n;
    if n < |rest| {
      var sp := LastSpace(rest, n);
      if sp >= LINE_BYTES / 2 { n := sp; }
    }
    cut := n;
    assert |rest| > LINE_BYTES && !Stuck(rest) ==> LastBoundary(rest, 0, last);
    assert |rest| > LINE_BYTES && !Stuck(rest) ==> Breaks(rest, 0, cut);
    hide Breaks;
    ghost var a, b;
    line, a := Trim(rest[..n]);
    TrimHead(rest, n, line, a);
    next, b := Trim(rest[n..]);
    TrimTail(rest, n, next, b);
  }

  lemma CutFound(rest: seq<Byte>, cut: nat)
    requires rest != [] && cut <= |rest| && cut <= LINE_BYTES && (cut == 0 || Boundary(rest, cut))
    requires forall c | cut < c <= LINE_BYTES && c <= |rest| :: !Boundary(rest, c)
    ensures cut == 0 <==> Stuck(rest)
  {
    if cut == 0 {
      assert !Boundary(rest, |rest|) || |rest| > LINE_BYTES;
      forall i | 1 <= i <= LINE_BYTES ensures |rest| > LINE_BYTES && Inner(rest[i]) { assert !Boundary(rest, i); }
    }
  }

  /** The trimmed start of a trimmed text still starts it. */
  lemma TrimHead(rest: seq<Byte>, cut: nat, line: seq<Byte>, a: nat)
    requires rest != [] && Trimmed(rest) && cut <= |rest|
    requires a + |line| <= cut && line == rest[..cut][a..a + |line|]
    requires Blank(rest[..cut][..a]) && Blank(rest[..cut][a + |line|..])
    ensures line == rest[..|line|] && Blank(rest[|line|..cut]) && (cut > 0 ==> line != [])
    ensures cut > 0 && Boundary(rest, cut) ==> Boundary(rest, |line|)
  {
    assert rest[..cut][..a] == rest[..a];
    BlankStart(rest, a);
    assert rest[..cut][|line|..] == rest[|line|..cut];
    if line == [] {
      assert rest[0..cut] == rest[..cut];
      BlankStart(rest, cut);
    }
    if |line| < cut { assert rest[|line|..cut][0] == 0x20; }
  }

  lemma BlankStart(s: seq<Byte>, n: nat)
    requires s != [] && s[0] != 0x20 && n <= |s| && Blank(s[..n])
    ensures n == 0
  {
    assert forall i | 0 <= i < n :: s[..n][i] == s[i];
  }

  lemma BlankEnd(s: seq<Byte>, n: nat)
    requires s != [] && s[|s| - 1] != 0x20 && n <= |s| && Blank(s[n..])
    ensures n == |s|
  {}

  lemma TrimTail(rest: seq<Byte>, cut: nat, next: seq<Byte>, b: nat)
    requires rest != [] && Trimmed(rest) && cut <= |rest|
    requires b + |next| <= |rest| - cut && next == rest[cut..][b..b + |next|] && Trimmed(next)
    requires Blank(rest[cut..][..b]) && Blank(rest[cut..][b + |next|..])
    ensures next == rest[|rest| - |next|..] && cut <= |rest| - |next| && Blank(rest[cut..|rest| - |next|])
    ensures cut == 0 ==> next == rest
  {
    var e := cut + b + |next|;
    assert rest[cut..][b + |next|..] == rest[e..];
    BlankEnd(rest, e);
    assert rest[cut..][..b] == rest[cut..cut + b];
    if cut == 0 {
      assert rest[0..b] == rest[..b];
      BlankStart(rest, b);
    }
  }

  // ---- the whole text ----------------------------------------------------------------------------

  /** `Hangs`: the loop repeats the same state forever. */
  datatype Outcome = Lines(lines: seq<seq<Byte>>) | Hangs

  /** Where a line stands in the clean text: it starts at `a`, ends at `b`, and was cut at `cut`. */
  datatype Span = Span(a: nat, b: nat, cut: nat)

  /** A line is a piece of the text that ends at no character's inside; it ends at a space or is as long as it
      can be, or is the rest of the text. */
  ghost predicate Piece(clean: seq<Byte>, line: seq<Byte>, sp: Span) {
    && sp.a < sp.b <= sp.cut <= |clean| && line == clean[sp.a..sp.b]
    && |line| <= LINE_BYTES && Trimmed(line)
    && Boundary(clean, sp.b) && Boundary(clean, sp.cut) && Blank(clean[sp.b..sp.cut])
    && (Breaks(clean, sp.a, sp.cut) || (sp.cut <= sp.a + LINE_BYTES && Blank(clean[sp.cut..])))
  }

  /** The lines are pieces of the text in order, up to position `at`; only spaces lie before, between and
      after them. */
  ghost predicate Laid(clean: seq<Byte>, lines: seq<seq<Byte>>, spans: seq<Span>, at: nat) {
    && |spans| == |lines| && at <= |clean|
    && if lines == [] then Blank(clean[..at])
       else
         var line, sp := lines[|lines| - 1], spans[|spans| - 1];
         && Piece(clean, line, sp) && sp.cut <= at && Blank(clean[sp.cut..at])
         && Laid(clean, lines[..|lines| - 1], spans[..|spans| - 1], sp.a)
  }

  /** No 190 continuation bytes in a row. */
  predicate NoLongRun(s: seq<Byte>) {
    forall p | 0 <= p && p + LINE_BYTES <= |s| :: !AllInner(s, p)
  }

  predicate AllInner(s: seq<Byte>, p: nat)
    requires p + LINE_BYTES <= |s|
  {
    forall i | p <= i < p + LINE_BYTES :: Inner(s[i])
  }

  /** At most three lines of at most 190 bytes, pieces of the clean text in order; with fewer lines nothing
      but spaces is left out. It hangs exactly on the texts that get stuck, never on one without a
      long run. */
  method SplitSay(text: seq<Byte>) returns (r: Outcome, ghost clean: seq<Byte>, ghost spans: seq<Span>, ghost at: nat)
    ensures |clean| <= LINE_BYTES * MAX_LINES && |clean| <= |Visible(text)| && clean == Visible(text)[..|clean|]
    ensures clean == [] || Boundary(Visible(text), |clean|)
    ensures |Visible(text)| <= LINE_BYTES * MAX_LINES ==> clean == Visible(text)
    ensures at <= |clean|
    ensures r.Lines? ==> |r.lines| <= MAX_LINES && Laid(clean, r.lines, spans, at)
    ensures r.Lines? && |r.lines| < MAX_LINES ==> Blank(clean[at..])
    ensures r.Hangs? ==> exists e | at <= e <= |clean| :: Stuck(clean[at..e])
    ensures NoLongRun(Visible(text)) ==> r.Lines?
    ensures r.Hangs? <==> GetsStuck(Bare(Visible(text)[..Cut(Visible(text), LINE_BYTES * MAX_LINES)]), 0)
  {
    hide Laid, Stuck, Trimmed, Blank, GetsStuck, Bare, Cut;
    var rest := Sanitize(text, LINE_BYTES * MAX_LINES);
    clean := rest;
    assert Boundary(Visible(text), |Visible(text)|);
    hide Boundary;
    rest, at := Trim(rest);
    LaidNone(clean, at);
    r, spans, at := Rounds(rest, clean, at);
    if r.Hangs? && NoLongRun(Visible(text)) {
      ghost var e :| at <= e <= |clean| && Stuck(clean[at..e]);
      StuckRun(Visible(text), |clean|, at, e);
    }
  }

  method Rounds(first: seq<Byte>, ghost clean: seq<Byte>, ghost start: nat)
      returns (r: Outcome, ghost spans: seq<Span>, ghost at: nat)
    requires start + |first| <= |clean| && first == clean[start..start + |first|] && Trimmed(first)
    requires Blank(clean[start + |first|..]) && Laid(clean, [], [], start)
    ensures at <= |clean|
    ensures r.Lines? ==> |r.lines| <= MAX_LINES && Laid(clean, r.lines, spans, at)
    ensures r.Lines? && |r.lines| < MAX_LINES ==> Blank(clean[at..])
    ensures r.Hangs? ==> exists e | at <= e <= |clean| :: Stuck(clean[at..e])
    ensures r.Hangs? <==> GetsStuck(first, 0)
  {
    hide Laid, Boundary, Blank, Trimmed, RestAfter;
    var rest := first;
    ghost var end := start + |rest|;
    spans, at := [], start;
    var out: seq<seq<Byte>> := [];
    while rest != [] && |out| < MAX_LINES
      invariant at <= end <= |clean| && rest == clean[at..end] && Trimmed(rest) && Blank(clean[end..])
      invariant |out| <= MAX_LINES && Laid(clean, out, spans, at)
      invariant GetsStuck(rest, |out|) <==> GetsStuck(first, 0)
      decreases |rest|
    {
      var line, next, cut := Step(rest);
      if next == rest {
        assert Stuck(clean[at..end]);
        return Hangs, spans, at;
      }
      LaidNext(clean, out, spans, at, end, line, next, cut);
      spans := spans + [Span(at, at + |line|, at + cut)];
      out := out + [line];
      rest, at := next, end - |next|;
    }
    assert rest == [] ==> clean[at..] == clean[end..];
    r := Lines(out);
  }

  lemma LaidNone(clean: seq<Byte>, at: nat)
    requires at <= |clean| && Blank(clean[..at])
    ensures Laid(clean, [], [], at)
  {}

  /** What a step found in the rest holds in the clean text. */
  lemma StepPlaced(clean: seq<Byte>, at: nat, end: nat, line: seq<Byte>, next: seq<Byte>, cut: nat)
    requires at <= end <= |clean| && cut <= end - at - |next| && |line| <= cut && cut <= LINE_BYTES && |next| <= end - at
    requires var rest := clean[at..end];
      && line == rest[..|line|] && line != [] && Trimmed(line) && Blank(rest[|line|..cut])
      && Blank(rest[cut..|rest| - |next|]) && Boundary(rest, cut) && Boundary(rest, |line|)
    requires Boundary(clean, end)
    ensures line == clean[at..at + |line|] && Boundary(clean, at + |line|) && Boundary(clean, at + cut)
    ensures Blank(clean[at + |line|..at + cut]) && Blank(clean[at + cut..end - |next|])
  {
    hide Breaks;
    var rest := clean[at..end];
    SliceSlice(clean, at, end, 0, |line|);
    SliceSlice(clean, at, end, |line|, cut);
    SliceSlice(clean, at, end, cut, |rest| - |next|);
  }

  lemma BreaksPlaced(clean: seq<Byte>, at: nat, end: nat, cut: nat)
    requires at <= end <= |clean| && end - at > LINE_BYTES && Breaks(clean[at..end], 0, cut)
    ensures Breaks(clean, at, at + cut)
  {
    var rest := clean[at..end];
    var n: nat :| LastBoundary(rest, 0, n) &&
      if SpaceIn(rest, 95, n) then 95 <= cut <= n && rest[cut] == 0x20 && !SpaceIn(rest, cut + 1, n) else cut == n;
    assert forall i | 0 <= i < |rest| :: rest[i] == clean[at + i];
    SpacePlaced(clean, at, end, 95, n);
    SpacePlaced(clean, at, end, cut + 1, n);
    assert LastBoundary(clean, at, at + n) by {
      forall c | at + n < c <= at + LINE_BYTES && c < |clean| ensures !Boundary(clean, c) { assert !Boundary(rest, c - at); }
    }
  }

  lemma SpacePlaced(clean: seq<Byte>, at: nat, end: nat, lo: nat, hi: nat)
    requires at <= end <= |clean| && hi < end - at
    ensures SpaceIn(clean, at + lo, at + hi) <==> SpaceIn(clean[at..end], lo, hi)
  {
    var rest := clean[at..end];
    if SpaceIn(clean, at + lo, at + hi) {
      var j :| at + lo <= j <= at + hi && j < |clean| && clean[j] == 0x20;
      assert rest[j - at] == 0x20;
    }
    if SpaceIn(rest, lo, hi) {
      var j :| lo <= j <= hi && j < |rest| && rest[j] == 0x20;
      assert clean[at + j] == 0x20;
    }
  }

  lemma SliceSlice(s: seq<Byte>, at: nat, end: nat, lo: nat, hi: nat)
    requires at <= end <= |s| && lo <= hi <= end - at
    ensures s[at..end][lo..hi] == s[at + lo..at + hi]
  {
    var l, r := s[at..end][lo..hi], s[at + lo..at + hi];
    assert |l| == |r| && forall i | 0 <= i < |l| :: l[i] == r[i];
  }

  lemma LaidNext(clean: seq<Byte>, out: seq<seq<Byte>>, spans: seq<Span>, at: nat, end: nat, line: seq<Byte>, next: seq<Byte>, cut: nat)
    requires Laid(clean, out, spans, at) && at <= end <= |clean| && Blank(clean[end..])
    requires cut <= end - at - |next| && |line| <= cut && cut <= LINE_BYTES && |next| <= end - at
    requires var rest := clean[at..end];
      && line == rest[..|line|] && line != [] && Trimmed(line) && Blank(rest[|line|..cut])
      && Blank(rest[cut..|rest| - |next|]) && Boundary(rest, cut) && Boundary(rest, |line|)
      && (if |rest| <= LINE_BYTES then cut == |rest| else Breaks(rest, 0, cut))
    ensures Laid(clean, out + [line], spans + [Span(at, at + |line|, at + cut)], end - |next|)
  {
    hide Breaks, Laid;
    assert Boundary(clean, end) by { assert end < |clean| ==> clean[end..][0] == 0x20; }
    StepPlaced(clean, at, end, line, next, cut);
    var sp := Span(at, at + |line|, at + cut);
    if end - at > LINE_BYTES { BreaksPlaced(clean, at, end, cut); }
    assert Piece(clean, line, sp) && Blank(clean[sp.cut..end - |next|]);
    hide Piece;
    LaidPush(clean, out, spans, at, sp, line, end - |next|);
  }

  lemma LaidPush(clean: seq<Byte>, out: seq<seq<Byte>>, spans: seq<Span>, at: nat, sp: Span, line: seq<Byte>, next: nat)
    requires Laid(clean, out, spans, at) && Piece(clean, line, sp) && sp.a == at
    requires sp.cut <= next <= |clean| && Blank(clean[sp.cut..next])
    ensures Laid(clean, out + [line], spans + [sp], next)
  {
    hide Piece, Blank;
    assert (out + [line])[..|out|] == out && (spans + [sp])[..|spans|] == spans;
  }

  lemma StuckRun(seen: seq<Byte>, n: nat, at: nat, end: nat)
    requires n <= |seen| && at <= end <= n && Stuck(seen[..n][at..end])
    ensures !NoLongRun(seen)
  {
    var rest := seen[..n][at..end];
    forall i | at + 1 <= i < at + 1 + LINE_BYTES ensures Inner(seen[i]) { assert rest[i - at] == seen[i]; }
    assert AllInner(seen, at + 1);
  }

  /** A text without its spaces. */
  function Solid(s: seq<Byte>): seq<Byte> {
    if s == [] then [] else Solid(s[..|s| - 1]) + (if s[|s| - 1] == 0x20 then [] else [s[|s| - 1]])
  }

  function Concat(lines: seq<seq<Byte>>): seq<Byte> {
    if lines == [] then [] else Concat(lines[..|lines| - 1]) + lines[|lines| - 1]
  }

  /** Spaces aside, the lines in order are the start of the clean text: nothing is lost or reordered. */
  lemma {:induction false} LinesSpell(clean: seq<Byte>, lines: seq<seq<Byte>>, spans: seq<Span>, at: nat)
    requires Laid(clean, lines, spans, at)
    ensures Solid(Concat(lines)) == Solid(clean[..at])
    decreases |lines|
  {
    hide Solid, Boundary, Trimmed, Blank;
    if lines == [] {
      SolidBlank([]);
      SolidBlank(clean[..at]);
    } else {
      var line, sp := lines[|lines| - 1], spans[|spans| - 1];
      LinesSpell(clean, lines[..|lines| - 1], spans[..|spans| - 1], sp.a);
      SolidJoin(Concat(lines[..|lines| - 1]), line);
      assert clean[..at] == clean[..sp.a] + line + clean[sp.b..sp.cut] + clean[sp.cut..at];
      SolidJoin(clean[..sp.a], line);
      SolidJoin(clean[..sp.a] + line, clean[sp.b..sp.cut]);
      SolidJoin(clean[..sp.a] + line + clean[sp.b..sp.cut], clean[sp.cut..at]);
      SolidBlank(clean[sp.b..sp.cut]);
      SolidBlank(clean[sp.cut..at]);
    }
  }

  lemma {:induction false} SolidJoin(a: seq<Byte>, b: seq<Byte>)
    ensures Solid(a + b) == Solid(a) + Solid(b)
  {
    if b == [] {
      assert a + b == a;
    } else {
      SolidJoin(a, b[..|b| - 1]);
      assert (a + b)[..|a + b| - 1] == a + b[..|b| - 1];
    }
  }

  lemma {:induction false} SolidBlank(s: seq<Byte>)
    requires Blank(s)
    ensures Solid(s) == []
  {
    if s != [] { SolidBlank(s[..|s| - 1]); }
  }

  /** A text that is stuck from its first character on (and has at most three lines' bytes) is one of those
      on which `SplitSay` hangs. */
  lemma StuckStart(clean: seq<Byte>)
    requires Stuck(clean) && clean[0] != 0x20 && |clean| <= LINE_BYTES * MAX_LINES
    ensures GetsStuck(Bare(clean[..Cut(clean, LINE_BYTES * MAX_LINES)]), 0)
  {
    assert clean[..|clean|] == clean;
    StuckTail(clean);
  }

  lemma {:induction false} StuckTail(s: seq<Byte>)
    requires Stuck(s)
    ensures Stuck(WithoutTail(s))
  {
    if s[|s| - 1] == 0x20 {
      assert |s| - 1 > LINE_BYTES;
      StuckTail(s[..|s| - 1]);
    }
  }

  // ---- which texts are safe ----------------------------------------------------------------------

  /** How many continuation bytes may still follow; -1 once there was one too many. All valid UTF-8
      (section 3 of RFC 3629) stays at 0 or above. */
  function Open(s: seq<Byte>): int {
    if s == [] then 0
    else
      var before, b := Open(s[..|s| - 1]), s[|s| - 1];
      if before < 0 then -1
      else if Inner(b) then before - 1
      else if b >= 0xF0 then 3
      else if b >= 0xE0 then 2
      else if b >= 0xC0 then 1
      else 0
  }

  predicate WellFormed(s: seq<Byte>) { Open(s) >= 0 }

  lemma OpenSmall(s: seq<Byte>)
    ensures Open(s) <= 3
  {}

  lemma {:induction false} OpenRun(s: seq<Byte>, p: nat, n: nat)
    requires p + n <= |s| && forall i | p <= i < p + n :: Inner(s[i])
    ensures Open(s[..p + n]) <= 3 - n || Open(s[..p + n]) < 0
  {
    OpenSmall(s[..p]);
    if n > 0 {
      OpenRun(s, p, n - 1);
      assert s[..p + n][..p + n - 1] == s[..p + n - 1];
    }
  }

  lemma {:induction false} OpenPrefix(s: seq<Byte>, n: nat)
    requires n <= |s| && Open(s) >= 0
    ensures Open(s[..n]) >= 0
    decreases |s|
  {
    if n < |s| {
      OpenPrefix(s[..|s| - 1], n);
      assert s[..|s| - 1][..n] == s[..n];
    } else {
      assert s[..n] == s;
    }
  }

  /** Dropping control characters joins no characters. */
  lemma {:induction false} OpenVisible(text: seq<Byte>)
    requires Open(text) >= 0
    ensures Open(Visible(text)) >= Open(text)
  {
    if text != [] {
      var before, b := text[..|text| - 1], text[|text| - 1];
      OpenVisible(before);
      assert Visible(before) + [] == Visible(before);
      var v := Visible(before) + [b];
      assert v[..|v| - 1] == Visible(before) && v[|v| - 1] == b;
    }
  }

  /** No valid text has a long run, so none hangs the splitter. */
  lemma WellFormedSafe(text: seq<Byte>)
    requires WellFormed(text)
    ensures NoLongRun(Visible(text))
  {
    OpenVisible(text);
    var s := Visible(text);
    forall p | 0 <= p && p + LINE_BYTES <= |s| ensures !AllInner(s, p) {
      OpenPrefix(s, p + LINE_BYTES);
      if AllInner(s, p) { OpenRun(s, p, LINE_BYTES); }
    }
  }

  /** Control characters between two shorter runs hide a long one: the text before dropping them has no
      long run, and `SplitSay` hangs on what is left of it. */
  lemma JoinedRuns()
    ensures var half := seq(100, i => 0x80 as Byte);
      var text := [0x61 as Byte] + half + [1] + half;
      NoLongRun(text) && GetsStuck(Bare(Visible(text)[..Cut(Visible(text), LINE_BYTES * MAX_LINES)]), 0)
  {
    var half := seq(100, i => 0x80 as Byte);
    var text := [0x61 as Byte] + half + [1] + half;
    assert text[101] == 1;
    forall p | 0 <= p && p + LINE_BYTES <= |text| ensures !AllInner(text, p) { assert p <= 101 < p + LINE_BYTES; }
    VisibleJoin([0x61 as Byte] + half + [1], half);
    VisibleJoin([0x61 as Byte] + half, [1]);
    AllVisible([0x61 as Byte] + half);
    AllVisible(half);
    assert Visible([1 as Byte]) == [];
    assert Visible(text) == [0x61 as Byte] + half + half;
    StuckStart(Visible(text));
  }

  lemma {:induction false} VisibleJoin(a: seq<Byte>, b: seq<Byte>)
    ensures Visible(a + b) == Visible(a) + Visible(b)
  {
    if b == [] {
      assert a + b == a;
    } else {
      VisibleJoin(a, b[..|b| - 1]);
      assert (a + b)[..|a + b| - 1] == a + b[..|b| - 1];
    }
  }

  lemma {:induction false} AllVisible(s: seq<Byte>)
    requires forall i | 0 <= i < |s| :: !Control(s[i])
    ensures Visible(s) == s
  {
    if s != [] { AllVisible(s[..|s| - 1]); }
  }
}
