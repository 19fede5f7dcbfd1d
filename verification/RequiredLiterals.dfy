/**
 * The literal prefilter of the explain-files reasons: what a pattern is scanned for, what a pattern
 * matches, and that every match passes the filter.
 */
module RequiredLiterals {
  import opened Wrappers

  // ---- Patterns ----

  datatype Times = Once | Star(lazy: bool) | Plus(lazy: bool) | Maybe(lazy: bool)

  datatype Opening = Capture | NoCapture | Named(name: string)

  datatype Atom = Literal(c: char) | Dot | Begin | End | Group(opening: Opening, body: Pattern)

  datatype Piece = Piece(atom: Atom, times: Times)

  datatype Pieces = Nil | Then(head: Piece, tail: Pieces)

  /** The alternatives of a pattern, in order. */
  datatype Pattern = Only(pieces: Pieces) | Or(pieces: Pieces, rest: Pattern)

  const SPECIAL := "\\[]{}()|*+?.^$"
  const UNSCANNED := "\\[]{}"

  /** A pattern without escapes, classes, counts or inline flags. */
  predicate Plain(pattern: Pattern) {
    PlainPieces(pattern.pieces) && (pattern.Or? ==> Plain(pattern.rest))
  }

  predicate PlainPieces(ps: Pieces) {
    ps.Then? ==> PlainAtom(ps.head.atom) && PlainPieces(ps.tail)
  }

  predicate PlainAtom(a: Atom) {
    match a
    case Literal(c) => c !in SPECIAL
    case Group(opening, body) => (opening.Named? ==> forall c :: c in opening.name ==> c !in SPECIAL) && Plain(body)
    case _ => true
  }

  function Open(opening: Opening): string {
    match opening
    case Capture => "("
    case NoCapture => "(?:"
    case Named(name) => "(?P<" + name + ">"
  }

  function Quantifier(times: Times): string {
    match times
    case Once => ""
    case Star(lazy) => if lazy then "*?" else "*"
    case Plus(lazy) => if lazy then "+?" else "+"
    case Maybe(lazy) => if lazy then "??" else "?"
  }

  function AtomText(a: Atom): (text: string)
    ensures text != ""
  {
    match a
    case Literal(c) => [c]
    case Dot => "."
    case Begin => "^"
    case End => "$"
    case Group(opening, body) => Open(opening) + Text(body) + ")"
  }

  function PieceText(p: Piece): (text: string)
    ensures text != ""
  {
    AtomText(p.atom) + Quantifier(p.times)
  }

  function PiecesText(ps: Pieces): string {
    if ps.Nil? then "" else PieceText(ps.head) + PiecesText(ps.tail)
  }

  function Text(pattern: Pattern): string {
    match pattern
    case Only(pieces) => PiecesText(pieces)
    case Or(pieces, rest) => PiecesText(pieces) + "|" + Text(rest)
  }

  // ---- What patterns match ----

  /** Whether an atom matches s from i to j. */
  ghost predicate AtomMatches(a: Atom, s: string, i: nat, j: nat) {
    && i <= j <= |s|
    && match a
       case Literal(c) => j == i + 1 && s[i] == c
       case Dot => j == i + 1 && s[i] != '\n'
       case Begin => i == j == 0
       case End => i == j == |s|
       case Group(_, body) => Matches(body, s, i, j)
  }

  predicate Allowed(times: Times, n: nat) {
    match times
    case Once => n == 1
    case Star(_) => true
    case Plus(_) => n > 0
    case Maybe(_) => n <= 1
  }

  /** An atom's repetitions meet at cuts, the first at i and the last at j. */
  ghost predicate PieceMatches(p: Piece, s: string, i: nat, j: nat) {
    exists cuts: seq<nat> ::
      && cuts != [] && cuts[0] == i <= j <= |s| && cuts[|cuts| - 1] == j && Allowed(p.times, |cuts| - 1)
      && forall k :: 0 <= k < |cuts| - 1 ==> AtomMatches(p.atom, s, cuts[k], cuts[k + 1])
  }

  ghost predicate PiecesMatch(ps: Pieces, s: string, i: nat, j: nat) {
    match ps
    case Nil => i == j <= |s|
    case Then(p, rest) => exists k :: PieceMatches(p, s, i, k) && PiecesMatch(rest, s, k, j)
  }

  ghost predicate Matches(pattern: Pattern, s: string, i: nat, j: nat) {
    PiecesMatch(pattern.pieces, s, i, j) || (pattern.Or? && Matches(pattern.rest, s, i, j))
  }

  function Joined(ps: Pieces, p: Piece): Pieces {
    match ps
    case Nil => Then(p, Nil)
    case Then(q, rest) => Then(q, Joined(rest, p))
  }

  function Closed(pattern: Pattern): Pattern {
    match pattern
    case Only(pieces) => Only(Joined(pieces, Piece(End, Once)))
    case Or(pieces, rest) => Or(pieces, Closed(rest))
  }

  /** The expression "^" + pattern + "$": the anchors join the first and the last alternative only. */
  function Anchored(pattern: Pattern): Pattern {
    var closed := Closed(pattern);
    closed.(pieces := Then(Piece(Begin, Once), closed.pieces))
  }

  /** The anchored expression finds a match somewhere in s. */
  ghost predicate Finds(pattern: Pattern, s: string) {
    exists i, j :: Matches(Anchored(pattern), s, i, j)
  }

  // ---- The scan ----

  datatype Required = Required(prefix: string, suffix: string, literals: seq<string>)

  const NONE := Required("", "", [])

  datatype Scan = Scan(run: string, depth: int, start: int, found: Required, stopped: bool)

  const INITIAL := Scan("", 0, 0, NONE, false)

  function Flushed(st: Scan, last: bool): Scan {
    if st.run == "" then st
    else st.(run := "", found := Required(
                 if st.start == 0 then st.run else st.found.prefix,
                 if last then st.run else st.found.suffix,
                 st.found.literals + [st.run]))
  }

  /** One character of the pattern. */
  function Scanned(st: Scan, ch: char, i: nat): Scan {
    if st.stopped then st
    else if ch == '(' then Flushed(st, false).(depth := st.depth + 1)
    else if ch == ')' then st.(depth := st.depth - 1, start := -1)
    else if st.depth > 0 then st
    else if ch == '|' then st.(stopped := true)
    else if ch in "*?+"
      then Flushed(if st.run == "" then st else st.(run := st.run[..|st.run| - 1]), false).(start := -1)
    else if ch in ".^$" then Flushed(st, false).(start := -1)
    else st.(run := st.run + [ch], start := if st.run == "" && st.start != 0 then i else st.start)
  }

  /** The scan of pattern's characters, the first of them at position i. */
  function ScanAll(st: Scan, pattern: string, i: nat): Scan
    decreases |pattern|
  {
    if pattern == "" then st else ScanAll(Scanned(st, pattern[0], i), pattern[1..], i + 1)
  }

  /** Escapes, classes and counts are not scanned for. */
  predicate Unscanned(pattern: string) {
    exists c :: c in pattern && c in UNSCANNED
  }

  function Literals(pattern: string): Required {
    if Unscanned(pattern) then NONE
    else
      var st := ScanAll(INITIAL, pattern, 0);
      if st.stopped then NONE else Flushed(st, true).found
  }

  predicate HoldsAt(s: string, t: string, i: int) {
    0 <= i <= |s| - |t| && s[i..i + |t|] == t
  }

  ghost predicate Contains(s: string, t: string) {
    exists i :: HoldsAt(s, t, i)
  }

  ghost predicate Admits(r: Required, s: string) {
    && r.prefix <= s
    && |r.suffix| <= |s| && s[|s| - |r.suffix|..] == r.suffix
    && forall literal :: literal in r.literals ==> Contains(s, literal)
  }

  lemma {:induction false} ScanJoin(st: Scan, a: string, b: string, i: nat)
    ensures ScanAll(st, a + b, i) == ScanAll(ScanAll(st, a, i), b, i + |a|)
    decreases |a|
  {
    if a == "" {
      assert a + b == b;
    } else {
      assert (a + b)[1..] == a[1..] + b;
      ScanJoin(Scanned(st, a[0], i), a[1..], b, i + 1);
    }
  }

  method CompileLiterals(pattern: string) returns (required: Required)
    ensures required == Literals(pattern)
  {
    if Unscanned(pattern) {
      return NONE;
    }
    var run, depth, start, found := "", 0, 0, NONE;
    var i := 0;
    while i < |pattern|
      invariant 0 <= i <= |pattern|
      invariant ScanAll(INITIAL, pattern, 0) == ScanAll(Scan(run, depth, start, found, false), pattern[i..], i)
    {
      var ch := pattern[i];
      ghost var st := Scan(run, depth, start, found, false);
      if ch == '(' {
        run, found := Flush(run, start, found, false);
        depth := depth + 1;
      } else if ch == ')' {
        depth := depth - 1;
        start := -1;
      } else if depth > 0 {
      } else if ch == '|' {
        StoppedStays(Scanned(st, ch, i), pattern[i..][1..], i + 1);
        return NONE;
      } else if ch in "*?+" {
        if run != "" {
          run := run[..|run| - 1];
        }
        run, found := Flush(run, start, found, false);
        start := -1;
      } else if ch in ".^$" {
        run, found := Flush(run, start, found, false);
        start := -1;
      } else {
        if run == "" && start != 0 {
          start := i;
        }
        run := run + [ch];
      }
      assert pattern[i..][1..] == pattern[i + 1..];
      i := i + 1;
    }
    run, found := Flush(run, start, found, true);
    return found;
  }

  method Flush(run: string, start: int, found: Required, last: bool) returns (rest: string, found': Required)
    ensures rest == "" && found' == Flushed(Scan(run, 0, start, found, false), last).found
  {
    if run == "" {
      return run, found;
    }
    rest := "";
    found' := Required(if start == 0 then run else found.prefix, if last then run else found.suffix,
                       found.literals + [run]);
  }

  lemma {:induction false} StoppedStays(st: Scan, pattern: string, i: nat)
    requires st.stopped
    ensures ScanAll(st, pattern, i) == st
    decreases |pattern|
  {
    if pattern != "" {
      StoppedStays(st, pattern[1..], i + 1);
    }
  }

  // ---- What the scan of a plain pattern comes to ----

  /** Inside a group, text without parentheses changes nothing. */
  lemma {:induction false} InnerText(st: Scan, text: string, i: nat)
    requires st.depth > 0 && !st.stopped
    requires '(' !in text && ')' !in text
    ensures ScanAll(st, text, i) == st
    decreases |text|
  {
    if text != "" {
      assert text[0] in text;
      InnerText(st, text[1..], i + 1);
    }
  }

  /** Scanning inside a group only forgets where the run began. */
  ghost predicate Inside(st: Scan, st': Scan) {
    st' == st.(start := st'.start)
  }

  lemma {:induction false} InnerPattern(st: Scan, pattern: Pattern, i: nat)
    requires st.depth > 0 && !st.stopped && st.run == "" && Plain(pattern)
    ensures Inside(st, ScanAll(st, Text(pattern), i))
    decreases pattern
  {
    InnerPieces(st, pattern.pieces, i);
    if pattern.Or? {
      var first, rest := PiecesText(pattern.pieces), Text(pattern.rest);
      var st1 := ScanAll(st, first, i);
      ScanJoin(st, first, "|" + rest, i);
      assert first + ("|" + rest) == Text(pattern);
      ScanJoin(st1, "|", rest, i + |first|);
      InnerText(st1, "|", i + |first|);
      InnerPattern(st1, pattern.rest, i + |first| + 1);
    }
  }

  lemma {:induction false} InnerPieces(st: Scan, ps: Pieces, i: nat)
    requires st.depth > 0 && !st.stopped && st.run == "" && PlainPieces(ps)
    ensures Inside(st, ScanAll(st, PiecesText(ps), i))
    decreases ps
  {
    if ps.Then? {
      var atom, rest := AtomText(ps.head.atom), PiecesText(ps.tail);
      var quantifier := Quantifier(ps.head.times);
      InnerAtom(st, ps.head.atom, i);
      var st1 := ScanAll(st, atom, i);
      ScanJoin(st, atom, quantifier, i);
      InnerText(st1, quantifier, i + |atom|);
      ScanJoin(st, atom + quantifier, rest, i);
      InnerPieces(st1, ps.tail, i + |atom + quantifier|);
    }
  }

  lemma {:induction false} InnerAtom(st: Scan, a: Atom, i: nat)
    requires st.depth > 0 && !st.stopped && st.run == "" && PlainAtom(a)
    ensures Inside(st, ScanAll(st, AtomText(a), i))
    decreases a, 1
  {
    if a.Group? {
      GroupScan(st, a, i);
    } else {
      InnerText(st, AtomText(a), i);
    }
  }

  lemma OpeningPlain(a: Atom)
    requires a.Group? && PlainAtom(a)
    ensures '(' !in Open(a.opening)[1..] && ')' !in Open(a.opening)[1..]
  {
    if a.opening.Named? {
      assert '(' !in a.opening.name && ')' !in a.opening.name by {
        assert '(' in SPECIAL && ')' in SPECIAL;
      }
      assert Open(a.opening)[1..] == "?P<" + a.opening.name + ">";
    }
  }

  /** A group ends the run before it and leaves none of its own. */
  lemma {:induction false} GroupScan(st: Scan, a: Atom, i: nat)
    requires st.depth >= 0 && !st.stopped && a.Group? && PlainAtom(a)
    ensures ScanAll(st, AtomText(a), i) == Flushed(st, false).(start := -1)
    decreases a, 0
  {
    var opening, body := Open(a.opening), Text(a.body);
    var st1 := ScanAll(st, opening, i);
    assert opening == "(" + opening[1..];
    ScanJoin(st, "(", opening[1..], i);
    assert ScanAll(st, "(", i) == Scanned(st, '(', i);
    OpeningPlain(a);
    InnerText(Scanned(st, '(', i), opening[1..], i + 1);
    ScanJoin(st, opening, body, i);
    InnerPattern(st1, a.body, i + |opening|);
    ScanJoin(st, opening + body, ")", i);
  }

  /** Outside groups, a quantifier takes the last character off the run and ends it. */
  lemma QuantifierScan(st: Scan, times: Times, i: nat)
    requires st.depth == 0 && !st.stopped && !times.Once?
    ensures ScanAll(st, Quantifier(times), i)
            == Flushed(if st.run == "" then st else st.(run := st.run[..|st.run| - 1]), false).(start := -1)
  {
    var q := Quantifier(times);
    var st1 := Scanned(st, q[0], i);
    assert q[0] in "*?+" && q == [q[0]] + q[1..];
    ScanJoin(st, [q[0]], q[1..], i);
    if q[1..] != "" {
      assert q[1..] == ['?'] && '?' in "*?+";
      assert ScanAll(st1, ['?'], i + 1) == Scanned(st1, '?', i + 1);
    }
  }

  /** What a piece does to the run: a single literal extends it, anything else ends it. */
  ghost function Extended(st: Scan, p: Piece, i: nat): Scan {
    if p.atom.Literal? && p.times.Once? then
      st.(run := st.run + [p.atom.c], start := if st.run == "" && st.start != 0 then i else st.start)
    else Flushed(st, false).(start := -1)
  }

  lemma PieceScan(st: Scan, p: Piece, i: nat)
    requires st.depth == 0 && !st.stopped && PlainAtom(p.atom)
    ensures ScanAll(st, PieceText(p), i) == Extended(st, p, i)
  {
    var atom := AtomText(p.atom);
    var st1 := ScanAll(st, atom, i);
    ScanJoin(st, atom, Quantifier(p.times), i);
    if p.atom.Group? {
      GroupScan(st, p.atom, i);
    } else {
      assert st1 == Scanned(st, atom[0], i);
    }
    if !p.times.Once? {
      QuantifierScan(st1, p.times, i + |atom|);
      if p.atom.Literal? {
        assert st1.run[..|st1.run| - 1] == st.run;
      }
    }
  }

  // ---- Every match passes ----

  /** The scan so far against a match of as much of the pattern, ending at k. */
  ghost predicate Fits(st: Scan, s: string, k: nat) {
    var fits :=
      && st.depth == 0 && !st.stopped
      && |st.run| <= k <= |s| && s[k - |st.run|..k] == st.run
      && (st.start == 0 ==> |st.run| == k)
      && st.found.suffix == ""
      && Admits(st.found, s);
    fits
  }

  lemma FlushFits(st: Scan, s: string, k: nat, last: bool)
    requires Fits(st, s, k) && (last ==> k == |s|)
    ensures Admits(Flushed(st, last).found, s) && (!last ==> Flushed(st, last).found.suffix == "")
  {
    if st.run != "" {
      assert HoldsAt(s, st.run, k - |st.run|);
      if st.start == 0 {
        assert s[..k] == st.run;
      }
    }
  }

  lemma PieceFits(st: Scan, p: Piece, s: string, i: nat, k: nat, j: nat)
    requires Fits(st, s, k) && PieceMatches(p, s, k, j) && (i == 0 ==> st.start == 0)
    ensures Fits(Extended(st, p, i), s, j)
  {
    FlushFits(st, s, k, false);
    if p.atom.Literal? && p.times.Once? {
      var cuts: seq<nat> :| cuts != [] && cuts[0] == k <= j <= |s| && cuts[|cuts| - 1] == j
                            && Allowed(p.times, |cuts| - 1)
        && forall n :: 0 <= n < |cuts| - 1 ==> AtomMatches(p.atom, s, cuts[n], cuts[n + 1]);
      assert AtomMatches(p.atom, s, cuts[0], cuts[0 + 1]);
      assert s[j - |st.run| - 1..j] == s[k - |st.run|..k] + [s[k]];
    }
  }

  /** Always true: asserting it of a text unfolds what is stated below for that text, and nothing else does. */
  ghost predicate Reads(text: string) {
    true
  }

  ghost predicate ScansTo(st: Scan, text: string, i: nat, end: Scan) {
    forall t {:trigger Reads(t)} :: t == text ==> ScanAll(st, t, i) == end
  }

  /** Scanning a sequence's text goes on from its first piece. */
  lemma HeadScan(st: Scan, ps: Pieces, i: nat, end: Scan)
    requires st.depth == 0 && !st.stopped && PlainPieces(ps) && ps.Then?
    requires ScansTo(Extended(st, ps.head, i), PiecesText(ps.tail), i + |PieceText(ps.head)|, end)
    ensures ScansTo(st, PiecesText(ps), i, end)
  {
    PieceScan(st, ps.head, i);
    ScanJoin(st, PieceText(ps.head), PiecesText(ps.tail), i);
    assert Reads(PiecesText(ps.tail));
  }

  /** What a sequence of pieces does to the run, the first of them at position i. */
  ghost function ExtendedBy(st: Scan, ps: Pieces, i: nat): Scan
    decreases ps
  {
    if ps.Nil? then st else ExtendedBy(Extended(st, ps.head, i), ps.tail, i + |PieceText(ps.head)|)
  }

  lemma {:induction false} PiecesScan(st: Scan, ps: Pieces, i: nat)
    requires st.depth == 0 && !st.stopped && PlainPieces(ps)
    ensures ScansTo(st, PiecesText(ps), i, ExtendedBy(st, ps, i))
    decreases ps
  {
    if ps.Nil? {
      assert ScanAll(st, "", i) == st;
    } else {
      PiecesScan(Extended(st, ps.head, i), ps.tail, i + |PieceText(ps.head)|);
      HeadScan(st, ps, i, ExtendedBy(st, ps, i));
    }
  }

  /** A sequence of pieces opens no group and meets no alternation bar. */
  lemma {:induction false} ExtendedOn(st: Scan, ps: Pieces, i: nat)
    requires st.depth == 0 && !st.stopped
    ensures ExtendedBy(st, ps, i).depth == 0 && !ExtendedBy(st, ps, i).stopped
    decreases ps
  {
    if ps.Then? {
      ExtendedOn(Extended(st, ps.head, i), ps.tail, i + |PieceText(ps.head)|);
    }
  }

  /** A match of a sequence gives one of its first piece, and one of the rest where the scan goes on. */
  lemma HeadFits(st: Scan, ps: Pieces, s: string, i: nat, k: nat, j: nat) returns (next: Scan, after: nat, m: nat)
    requires Fits(st, s, k) && ps.Then? && PiecesMatch(ps, s, k, j) && (i == 0 ==> st.start == 0)
    ensures Fits(next, s, m) && PiecesMatch(ps.tail, s, m, j) && after > 0
    ensures ExtendedBy(st, ps, i) == ExtendedBy(next, ps.tail, after)
  {
    m :| PieceMatches(ps.head, s, k, m) && PiecesMatch(ps.tail, s, m, j);
    PieceFits(st, ps.head, s, i, k, m);
    next, after := Extended(st, ps.head, i), i + |PieceText(ps.head)|;
  }

  lemma {:induction false} PiecesFit(st: Scan, ps: Pieces, s: string, i: nat, k: nat, j: nat, end: Scan)
    requires Fits(st, s, k) && PiecesMatch(ps, s, k, j) && (i == 0 ==> st.start == 0)
    requires end == ExtendedBy(st, ps, i)
    ensures Fits(end, s, j)
    decreases ps
  {
    if ps.Then? {
      var next, after, m := HeadFits(st, ps, s, i, k, j);
      PiecesFit(next, ps.tail, s, after, m, j, end);
    }
  }

  lemma AlternationStops(pattern: Pattern)
    requires Plain(pattern) && pattern.Or?
    ensures Literals(Text(pattern)) == NONE
  {
    var first, rest := PiecesText(pattern.pieces), Text(pattern.rest);
    PiecesScan(INITIAL, pattern.pieces, 0);
    ExtendedOn(INITIAL, pattern.pieces, 0);
    assert Reads(first);
    assert Text(pattern) == first + ("|" + rest);
    ScanJoin(INITIAL, first, "|" + rest, 0);
    var st := ScanAll(INITIAL, first, 0);
    assert ("|" + rest)[1..] == rest;
    StoppedStays(Scanned(st, '|', |first|), rest, |first| + 1);
  }

  lemma {:induction false} JoinedMatch(ps: Pieces, p: Piece, s: string, i: nat, j: nat) returns (k: nat)
    requires PiecesMatch(Joined(ps, p), s, i, j)
    ensures PiecesMatch(ps, s, i, k) && PieceMatches(p, s, k, j)
    decreases ps
  {
    var m :| PieceMatches(Joined(ps, p).head, s, i, m) && PiecesMatch(Joined(ps, p).tail, s, m, j);
    if ps.Nil? {
      k := i;
    } else {
      k := JoinedMatch(ps.tail, p, s, m, j);
    }
  }

  lemma SingleMatch(a: Atom, s: string, i: nat, j: nat)
    requires PieceMatches(Piece(a, Once), s, i, j)
    ensures AtomMatches(a, s, i, j)
  {
    var cuts: seq<nat> :| cuts != [] && cuts[0] == i <= j <= |s| && cuts[|cuts| - 1] == j && Allowed(Once, |cuts| - 1)
      && forall n :: 0 <= n < |cuts| - 1 ==> AtomMatches(a, s, cuts[n], cuts[n + 1]);
    assert AtomMatches(a, s, cuts[0], cuts[0 + 1]);
  }

  /** Without a top-level bar the anchors hold the whole text. */
  lemma AnchoredWhole(ps: Pieces, s: string)
    requires Finds(Only(ps), s)
    ensures PiecesMatch(ps, s, 0, |s|)
  {
    var i, j :| Matches(Anchored(Only(ps)), s, i, j);
    var begin := Piece(Begin, Once);
    var all := Then(begin, Joined(ps, Piece(End, Once)));
    assert PiecesMatch(all, s, i, j);
    var m :| PieceMatches(begin, s, i, m) && PiecesMatch(all.tail, s, m, j);
    SingleMatch(Begin, s, i, m);
    var k := JoinedMatch(ps, Piece(End, Once), s, m, j);
    SingleMatch(End, s, k, j);
  }

  /** Every text the anchored expression matches passes the filter compiled from its pattern. */
  lemma RequiredLiteralsAreNecessary(pattern: Pattern, s: string)
    requires Plain(pattern) && Finds(pattern, s)
    ensures Admits(Literals(Text(pattern)), s)
  {
    assert Admits(NONE, s);
    if pattern.Or? {
      AlternationStops(pattern);
    } else {
      AnchoredWhole(pattern.pieces, s);
      PiecesScan(INITIAL, pattern.pieces, 0);
      assert Reads(Text(pattern));
      var end := ExtendedBy(INITIAL, pattern.pieces, 0);
      PiecesFit(INITIAL, pattern.pieces, s, 0, 0, |s|, end);
      FlushFits(end, s, |s|, true);
    }
  }

  // ---- Reading a reason ----

  datatype Form = Form(pattern: string, required: Required)

  /** The engine's answer for a form: what its expression finds, for any pattern of the grammar. */
  ghost predicate Answers(form: Form, reason: string, matched: bool) {
    && form.required == Literals(form.pattern)
    && (Unscanned(form.pattern) || exists p :: Plain(p) && Text(p) == form.pattern && (matched <==> Finds(p, reason)))
  }

  method Holds(s: string, t: string) returns (holds: bool)
    ensures holds <==> Contains(s, t)
  {
    for i := 0 to |s| + 1
      invariant forall j :: 0 <= j < i ==> !HoldsAt(s, t, j)
    {
      if HoldsAt(s, t, i) {
        return true;
      }
    }
    return false;
  }

  method AdmitsReason(required: Required, reason: string) returns (admits: bool)
    ensures admits <==> Admits(required, reason)
  {
    if !(required.prefix <= reason) || |required.suffix| > |reason|
       || reason[|reason| - |required.suffix|..] != required.suffix {
      return false;
    }
    for i := 0 to |required.literals|
      invariant forall j :: 0 <= j < i ==> Contains(reason, required.literals[j])
    {
      var holds := Holds(reason, required.literals[i]);
      if !holds {
        return false;
      }
    }
    return true;
  }

  /** The filter never changes which form reads a reason: the first whose expression matches. */
  method ReadReason(forms: seq<Form>, matched: seq<bool>, reason: string) returns (form: Option<nat>)
    requires |matched| == |forms| && forall i :: 0 <= i < |forms| ==> Answers(forms[i], reason, matched[i])
    ensures form.Some? ==> form.value < |forms| && matched[form.value] && forall j :: 0 <= j < form.value ==>
        !matched[j]
    ensures form.None? ==> forall j :: 0 <= j < |forms| ==> !matched[j]
  {
    for i := 0 to |forms|
      invariant forall j :: 0 <= j < i ==> !matched[j]
    {
      var admits := AdmitsReason(forms[i].required, reason);
      if admits && matched[i] {
        return Some(i);
      }
      MatchedAdmits(forms[i], reason, matched[i]);
    }
    return None;
  }

  lemma MatchedAdmits(form: Form, reason: string, matched: bool)
    requires Answers(form, reason, matched)
    ensures matched ==> Admits(form.required, reason)
  {
    assert Admits(NONE, reason);
    if matched && !Unscanned(form.pattern) {
      var p :| Plain(p) && Text(p) == form.pattern && (matched <==> Finds(p, reason));
      RequiredLiteralsAreNecessary(p, reason);
    }
  }
}
