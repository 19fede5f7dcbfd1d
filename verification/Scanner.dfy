/**
 * The signature scanner: JavaScript, JSX and template text read by methods that call one another.
 * A source is a string with one character for each byte.
 */
module Scanners {
  import opened Comments
  import opened Wrappers

  /** Identifiers and keywords, strings, numbers, punctuation, and the end of a template. */
  datatype Kind = NoToken | Word | Str | Number | Punctuation | TemplateEnd

  datatype Token = Token(kind: Kind, text: string)

  const NO_TOKEN := Token(NoToken, "")

  const KEYWORDS_BEFORE_EXPRESSION := {"return", "yield", "await", "case", "typeof", "void", "delete", "throw", "new",
                                       "in", "of", "instanceof", "else", "do", "default", "extends"}
  const VALUE_KEYWORDS := {"this", "super", "null", "true", "false"}
  const WINDOW := 8

  predicate IsIdentStart(c: char) {
    c == '_' || c == '$' || 'a' <= c <= 'z' || 'A' <= c <= 'Z' || c as int >= 0x80
  }

  predicate IsDigit(c: char) {
    '0' <= c <= '9'
  }

  predicate IsIdentPart(c: char) {
    IsIdentStart(c) || IsDigit(c)
  }

  /** After an operand, < and / are operators, and no element or expression starts there. */
  predicate AfterOperand(prev: Token) {
    match prev.kind
    case NoToken => false
    case Word => prev.text !in KEYWORDS_BEFORE_EXPRESSION || prev.text in VALUE_KEYWORDS
    case Punctuation => prev.text == ")" || prev.text == "]"
    case _ => true
  }

  // ---- What the scanner hears, and what it makes of it ----

  /** A token or comment, and where it ends. */
  datatype Event = Emitted(token: Token, depth: int, end: nat) | Commented(text: string, end: nat)

  function Tokens(heard: seq<Event>): seq<Token> {
    if heard == [] then []
    else
      var event := heard[|heard| - 1];
      Tokens(heard[..|heard| - 1]) + if event.Emitted? then [event.token] else []
  }

  function Last(tokens: seq<Token>, n: nat): seq<Token> {
    if |tokens| <= n then tokens else tokens[|tokens| - n..]
  }

  predicate IsWord(t: Token, texts: set<string>) {
    t.kind == Word && t.text in texts
  }

  /** The fact the newest of the tokens completes: an import, a call that imports, or an augmentation. */
  function Recognized(tokens: seq<Token>): Option<string>
    requires tokens != []
  {
    var n, t := |tokens|, tokens[|tokens| - 1];
    if t.kind != Str then None
    else if n >= 2 && IsWord(tokens[n - 2], {"from", "import"}) then Some("import " + t.text)
    else if n >= 3 && tokens[n - 2].text == "(" && IsWord(tokens[n - 3], {"require", "import"})
      then Some(tokens[n - 3].text + " " + t.text)
    else if n >= 3 && tokens[n - 3].text == "declare" && tokens[n - 2].text == "module" then Some("augment " + t.text)
    else None
  }

  function Listed(fact: Option<string>): seq<string> {
    match fact
    case Some(f) => [f]
    case None => []
  }

  /** Every fact of everything heard, with no bound on how far back a fact may look. */
  function Facts(heard: seq<Event>): seq<string> {
    if heard == [] then []
    else
      var event := heard[|heard| - 1];
      Facts(heard[..|heard| - 1]) + if event.Commented? then CommentFacts(event.text)
          else Listed(Recognized(Tokens(heard)))
  }

  /** A source is a module once it imports or exports outside every brace. */
  predicate IsModule(heard: seq<Event>) {
    exists e :: e in heard && e.Emitted? && IsWord(e.token, {"import", "export"}) && e.depth == 0
  }

  /** Always true: asserting it of a value unfolds what is stated below for that value, and nothing else does. */
  ghost predicate Recalls(heard: seq<Event>) {
    true
  }

  /** The scanner's window, facts and module flag are those of everything heard, for whoever recalls it. */
  ghost predicate Remembered(heard: seq<Event>, toks: seq<Token>, facts: seq<string>, isModule: bool) {
    forall h {:trigger Recalls(h)} :: h == heard ==>
        toks == Last(Tokens(h), WINDOW) && facts == Facts(h) && (isModule <==> IsModule(h))
  }

  lemma Recall(heard: seq<Event>, toks: seq<Token>, facts: seq<string>, isModule: bool)
    requires Remembered(heard, toks, facts, isModule)
    ensures toks == Last(Tokens(heard), WINDOW) && facts == Facts(heard) && (isModule <==> IsModule(heard))
  {
    assert Recalls(heard);
  }

  lemma Remember(heard: seq<Event>, toks: seq<Token>, facts: seq<string>, isModule: bool)
    requires toks == Last(Tokens(heard), WINDOW) && facts == Facts(heard) && (isModule <==> IsModule(heard))
    ensures Remembered(heard, toks, facts, isModule)
  {
    forall h | h == heard
      ensures toks == Last(Tokens(h), WINDOW) && facts == Facts(h) && (isModule <==> IsModule(h))
    {
    }
  }

  lemma LastNext(tokens: seq<Token>, t: Token)
    ensures Last(Last(tokens, WINDOW) + [t], WINDOW) == Last(tokens + [t], WINDOW)
    ensures Recognized(Last(tokens + [t], WINDOW)) == Recognized(tokens + [t])
  {
    var window, all := Last(tokens + [t], WINDOW), tokens + [t];
    assert window[|window| - 1] == all[|all| - 1];
    assert |all| >= 2 ==> window[|window| - 2] == all[|all| - 2];
    assert |all| >= 3 ==> window[|window| - 3] == all[|all| - 3];
  }

  /** The newest token's facts need only the window. */
  lemma RememberToken(heard: seq<Event>, toks: seq<Token>, facts: seq<string>, isModule: bool, t: Token, depth: int,
                      end: nat)
    requires Remembered(heard, toks, facts, isModule)
    ensures Remembered(heard + [Emitted(t, depth, end)], Last(toks + [t], WINDOW),
                       facts + Listed(Recognized(Last(toks + [t], WINDOW))),
              isModule || (IsWord(t, {"import", "export"}) && depth == 0))
  {
    var event := Emitted(t, depth, end);
    Recall(heard, toks, facts, isModule);
    LastNext(Tokens(heard), t);
    assert (heard + [event])[..|heard|] == heard;
    assert Tokens(heard + [event]) == Tokens(heard) + [t];
    assert forall e :: e in heard + [event] <==> e in heard || e == event;
    Remember(heard + [event], Last(toks + [t], WINDOW), facts + Listed(Recognized(Last(toks + [t], WINDOW))),
             isModule || (IsWord(t, {"import", "export"}) && depth == 0));
  }

  lemma RememberComment(heard: seq<Event>, toks: seq<Token>, facts: seq<string>, isModule: bool, text: string, end: nat)
    requires Remembered(heard, toks, facts, isModule)
    ensures Remembered(heard + [Commented(text, end)], toks, facts + CommentFacts(text), isModule)
  {
    var event := Commented(text, end);
    Recall(heard, toks, facts, isModule);
    assert (heard + [event])[..|heard|] == heard;
    assert forall e :: e in heard + [event] <==> e in heard || e == event;
    Remember(heard + [event], toks, facts + CommentFacts(text), isModule);
  }

  // ---- Text in which a backslash takes the next character with it ----

  /** Reading from start, a character begins at i: no backslash took it along. */
  predicate Begins(s: string, start: nat, i: nat)
    requires start <= i <= |s|
    decreases i - start
  {
    || i == start
    || (Begins(s, start, i - 1) && s[i - 1] != '\\')
    || (i - 2 >= start && Begins(s, start, i - 2) && s[i - 2] == '\\')
  }

  /** What a backslash takes along begins nothing. */
  lemma {:induction false} EscapedBeginsNothing(s: string, start: nat, i: nat)
    requires start <= i < |s| && Begins(s, start, i) && s[i] == '\\'
    ensures !Begins(s, start, i + 1)
    decreases i
  {
    if i > start && Begins(s, start, i - 1) && s[i - 1] == '\\' {
      EscapedBeginsNothing(s, start, i - 1);
    }
  }

  /** The text from start ends at p: the first character there that stops it. */
  ghost predicate FirstStop(s: string, start: nat, p: nat, stops: set<char>) {
    && start <= p < |s| && Begins(s, start, p) && s[p] in stops
    && forall k :: start <= k < p && Begins(s, start, k) ==> s[k] !in stops
  }

  /** A text quoted from open closes at p: its quote comes first, before any line's end. */
  ghost predicate ClosesQuote(s: string, open: nat, q: char, p: nat) {
    FirstStop(s, open + 1, p, {q, '\n'}) && s[p] == q
  }

  predicate EndsBody(s: string, i: nat) {
    i < |s| && (s[i] == '`' || (s[i] == '$' && i + 1 < |s| && s[i + 1] == '{'))
  }

  lemma EndsBodyHere(s: string, i: nat)
    requires i < |s|
    ensures EndsBody(s, i) <==> s[i] == '`' || At(s, i, "${")
  {
    if i + 2 <= |s| {
      assert s[i..i + 2] == [s[i], s[i + 1]];
    }
  }

  /** Template text ends at p: the first backtick or substitution. */
  ghost predicate ClosesBody(s: string, start: nat, p: nat) {
    && start <= p <= |s| && Begins(s, start, p) && EndsBody(s, p)
    && forall k :: start <= k < p && Begins(s, start, k) ==> !EndsBody(s, k)
  }

  /** The bracket at k opens a class that nothing closes before p. */
  ghost predicate OpensClass(s: string, start: nat, k: nat, p: nat)
    requires p <= |s|
  {
    && start <= k < p && Begins(s, start, k) && s[k] == '['
    && forall m :: k < m < p && Begins(s, start, m) ==> s[m] != ']'
  }

  ghost predicate InClass(s: string, start: nat, p: nat)
    requires p <= |s|
  {
    exists k: nat :: OpensClass(s, start, k, p)
  }

  /** An expression opened by a slash closes at p: the first slash outside every class, before any line's end. */
  ghost predicate ClosesRegex(s: string, open: nat, p: nat) {
    && open < p < |s| && Begins(s, open + 1, p) && s[p] == '/' && !InClass(s, open + 1, p)
    && forall k :: open < k < p && Begins(s, open + 1, k) ==> s[k] != '\n' && (s[k] == '/' ==> InClass(s, open + 1, k))
  }

  /** Whether a class is open after one more character, an escaped one with its backslash. */
  lemma ClassNext(s: string, start: nat, p: nat, next: nat)
    requires start <= p < next <= |s| && Begins(s, start, p) && next == if s[p] == '\\' then p + 2 else p + 1
    ensures InClass(s, start, next) <==> s[p] == '[' || (s[p] != ']' && InClass(s, start, p))
  {
    if s[p] == '\\' {
      EscapedBeginsNothing(s, start, p);
    }
    if s[p] == '[' {
      assert OpensClass(s, start, p, next);
    } else if s[p] != ']' && InClass(s, start, p) {
      var k: nat :| OpensClass(s, start, k, p);
      assert OpensClass(s, start, k, next);
    } else if InClass(s, start, next) {
      var k: nat :| OpensClass(s, start, k, next);
      assert k < p && OpensClass(s, start, k, p);
    }
  }

  // ---- Code that text between tags may hide, when an element was misread ----

  function SkipIdent(s: string, i: nat): (j: nat)
    requires i <= |s|
    ensures i <= j <= |s| && (i < |s| && IsIdentPart(s[i]) ==> i < j) && (j < |s| ==> !IsIdentPart(s[j]))
    ensures forall k :: i <= k < j ==> IsIdentPart(s[k])
    decreases |s| - i
  {
    if i < |s| && IsIdentPart(s[i]) then SkipIdent(s, i + 1) else i
  }

  /** The operator or the single character at i. */
  function Operator(s: string, i: nat): (text: string)
    requires i < |s|
    ensures text != "" && At(s, i, text) && text[0] == s[i]
  {
    if At(s, i, "=>") then "=>"
    else if At(s, i, "...") then "..."
    else if At(s, i, "?.") then "?."
    else if At(s, i, "++") then "++"
    else if At(s, i, "--") then "--"
    else [s[i]]
  }

  predicate WordThen(s: string, i: nat, word: string, next: string) {
    && i <= |s|
    && (i > 0 ==> !IsWordChar(s[i - 1]))
    && At(s, i, word)
    && var j := SkipBlanks(s, i + |word|); j < |s| && s[j] in next
  }

  predicate SwallowsCode(s: string) {
    exists i ::
      0 <= i < |s| && (WordThen(s, i, "import", "(") || WordThen(s, i, "require", "(") || WordThen(s, i, "from", "'\""))
  }

  predicate Blank(s: string, i: nat, j: nat) {
    i <= j <= |s| && forall k :: i <= k < j ==> s[k] in " \t\r\n"
  }

  predicate Ident(s: string, i: nat, j: nat) {
    i <= j <= |s| && forall k :: i <= k < j ==> IsIdentPart(s[k])
  }

  /**
   * After the < at p: blanks to i, one whole identifier to j, blanks to k, and then what only a type parameter list
   * has.
   */
  predicate ArrowAt(s: string, p: nat, i: nat, j: nat, k: nat) {
    && Blank(s, p + 1, i) && Ident(s, i, j) && i < j && (j < |s| ==> !IsIdentPart(s[j]))
    && Blank(s, j, k) && (At(s, k, ",") || At(s, k, "extends "))
  }

  method SkipBlank(s: string, i: nat) returns (j: nat)
    requires i <= |s|
    ensures Blank(s, i, j) && (j < |s| ==> s[j] !in " \t\r\n")
  {
    j := i;
    while j < |s| && s[j] in " \t\r\n"
      invariant Blank(s, i, j)
    {
      j := j + 1;
    }
  }

  lemma ArrowIsUnique(s: string, p: nat, i: nat, j: nat, k: nat, x: nat, y: nat, z: nat)
    requires Blank(s, p + 1, i) && (i < |s| ==> s[i] !in " \t\r\n")
    requires Ident(s, i, j) && (j < |s| ==> !IsIdentPart(s[j]))
    requires Blank(s, j, k) && (k < |s| ==> s[k] !in " \t\r\n")
    requires ArrowAt(s, p, x, y, z)
    ensures x == i && y == j && z == k
  {
    assert IsIdentPart(s[x]);
    assert y <= j && j <= y;
    assert s[z] == ',' || s[z] == 'e' by {
      if At(s, z, ",") {
        assert s[z..z + 1][0] == s[z];
      } else {
        assert s[z..z + |"extends "|][0] == s[z];
      }
    }
  }

  // ---- What is heard is what the source says ----

  function EndOf(heard: seq<Event>): nat {
    if heard == [] then 0 else heard[|heard| - 1].end
  }

  predicate IsQuoted(text: string) {
    |text| >= 2 && (text[0] == '\'' || text[0] == '"') && text[|text| - 1] == text[0]
  }

  /**
   * The event's text is the source's, just before its end: a whole identifier, a quoted string, an operator, a comment.
   */
  predicate Spells(src: string, e: Event) {
    && e.end <= |src|
    && match e
       case Commented(text, end) => At(src, end - |text|, text) && ("//" <= text || "/*" <= text)
       case Emitted(t, _, end) =>
         match t.kind
         case Word => t.text != "" && At(src, end - |t.text|, t.text) && IsIdentStart(t.text[0])
                      && (end < |src| ==> !IsIdentPart(src[end]))
         case Str => t.text == "/regex/" || (At(src, end - |t.text|, t.text) && IsQuoted(t.text))
         case Punctuation => At(src, end - |t.text|, t.text)
         case TemplateEnd => end > 0 && src[end - 1] == '`'
         case Number => true
         case NoToken => false
  }

  ghost predicate SpelledOut(src: string, heard: seq<Event>) {
    && (forall i :: 0 <= i < |heard| ==> Spells(src, heard[i]))
    && (forall i, j :: 0 <= i < j < |heard| ==> heard[i].end < heard[j].end)
  }

  /** Everything heard is spelled by the source, in its order, for whoever recalls it. */
  ghost predicate Spelled(src: string, heard: seq<Event>) {
    forall h {:trigger Recalls(h)} :: h == heard ==> SpelledOut(src, h)
  }

  lemma SpelledIs(src: string, heard: seq<Event>)
    requires Spelled(src, heard)
    ensures SpelledOut(src, heard)
  {
    assert Recalls(heard);
  }

  lemma SpellNext(src: string, heard: seq<Event>, e: Event)
    requires Spelled(src, heard) && Spells(src, e) && EndOf(heard) < e.end
    ensures Spelled(src, heard + [e])
  {
    SpelledIs(src, heard);
    forall h | h == heard + [e]
      ensures SpelledOut(src, h)
    {
    }
  }

  lemma SpellNone(src: string)
    ensures Spelled(src, [])
  {
    forall h: seq<Event> | h == []
      ensures SpelledOut(src, h)
    {
    }
  }

  /** Open templates: brace depths, each above the one before it, all below the current one. */
  ghost predicate Nested(templates: seq<int>, depth: int) {
    && (forall i, j :: 0 <= i < j < |templates| ==> templates[i] < templates[j])
    && (forall i :: 0 <= i < |templates| ==> templates[i] < depth)
  }

  // ---- Text of words, blanks and braces alone ----

  predicate Simple(c: char) {
    IsSpace(c) || IsIdentStart(c) || c == '{' || c == '}'
  }

  ghost predicate SimpleFrom(s: string, i: nat) {
    forall k :: i <= k < |s| ==> Simple(s[k])
  }

  /** How much the braces from i up to j raise the depth. */
  function Level(s: string, i: nat, j: nat): int
    requires i <= j <= |s|
    decreases j - i
  {
    if i == j then 0 else Level(s, i, j - 1) + Rise(s[j - 1])
  }

  function Rise(c: char): int {
    if c == '{' then 1 else if c == '}' then -1 else 0
  }

  /** No brace from i up to j goes below where i stands. */
  ghost predicate StaysUp(s: string, i: nat, j: nat)
    requires i <= j <= |s|
  {
    forall q :: i <= q <= j ==> Level(s, i, q) >= 0
  }

  /** The brace at p is the first from i on to go below. */
  ghost predicate ClosesLevel(s: string, i: nat, p: nat) {
    i <= p < |s| && s[p] == '}' && Level(s, i, p) == 0 && StaysUp(s, i, p)
  }

  ghost predicate ClosesSomewhere(s: string, i: nat) {
    exists p: nat :: ClosesLevel(s, i, p)
  }

  lemma {:induction false} LevelJoin(s: string, i: nat, j: nat, k: nat)
    requires i <= j <= k <= |s|
    ensures Level(s, i, k) == Level(s, i, j) + Level(s, j, k)
    decreases k - j
  {
    if k > j {
      LevelJoin(s, i, j, k - 1);
    }
  }

  /** Text without braces keeps its level throughout. */
  lemma {:induction false} Flat(s: string, i: nat, j: nat)
    requires i <= j <= |s| && forall k :: i <= k < j ==> Rise(s[k]) == 0
    ensures Level(s, i, j) == 0 && StaysUp(s, i, j)
    decreases j - i
  {
    if i < j {
      Flat(s, i, j - 1);
    }
  }

  /** One step further that stays up, where the last brace closed nothing. */
  lemma StaysUpOn(s: string, i: nat, j: nat, k: nat)
    requires i <= j <= k <= |s| && StaysUp(s, i, j)
    requires (forall c :: j <= c < k ==> Rise(s[c]) == 0) || (k == j + 1 && Level(s, i, j) + Rise(s[j]) >= 0)
    ensures StaysUp(s, i, k)
  {
    forall q | i <= q <= k
      ensures Level(s, i, q) >= 0
    {
      if q > j {
        LevelJoin(s, i, j, q);
        if forall c :: j <= c < k ==> Rise(s[c]) == 0 {
          Flat(s, j, q);
        }
      }
    }
  }

  /** While nothing has gone below, nothing has closed. */
  lemma UpIsOpen(s: string, i: nat, j: nat, p: nat)
    requires i <= j <= |s| && StaysUp(s, i, j) && ClosesLevel(s, i, p)
    ensures p >= j
  {
    assert p < |s| && Level(s, i, p + 1) < 0;
  }

  class Scanner {
    const src: string
    const jsx: bool
    var pos: nat
    var prev: Token
    var toks: seq<Token>
    var facts: seq<string>
    var sawJsx: bool
    var isModule: bool
    var depth: int
    ghost var heard: seq<Event>

    /** The window and the facts are those of everything heard, and the source up to pos spells all of it. */
    ghost predicate Valid()
      reads this`toks, this`facts, this`isModule, this`heard, this`pos
    {
      Remembered(heard, toks, facts, isModule) && Spelled(src, heard) && EndOf(heard) <= pos
    }

    constructor (src: string, jsx: bool)
      ensures this.src == src && this.jsx == jsx && pos == 0 && depth == 0 && prev == NO_TOKEN && heard == [] && Valid()
    {
      this.src, this.jsx := src, jsx;
      pos, prev, toks, facts, sawJsx, isModule, depth := 0, NO_TOKEN, [], [], false, false, 0;
      heard := [];
      new;
      Remember([], [], [], false);
      SpellNone(src);
    }

    method Emit(t: Token)
      requires Valid() && EndOf(heard) < pos && Spells(src, Emitted(t, depth, pos))
      modifies this`prev, this`toks, this`facts, this`isModule, this`heard
      ensures Valid() && heard == old(heard) + [Emitted(t, depth, pos)] && prev == t
    {
      RememberToken(heard, toks, facts, isModule, t, depth, pos);
      SpellNext(src, heard, Emitted(t, depth, pos));
      heard := heard + [Emitted(t, depth, pos)];
      prev := t;
      Push(t);
      Recognize();
    }

    method Push(t: Token)
      modifies this`toks
      ensures toks == Last(old(toks) + [t], WINDOW) && toks != [] && toks[|toks| - 1] == t
    {
      toks := toks + [t];
      if |toks| > WINDOW {
        toks := toks[|toks| - WINDOW..];
      }
    }

    /** Adds what the remembered tokens now spell, if the last of them ends it. */
    method Recognize()
      requires toks != []
      modifies this`facts, this`isModule
      ensures facts == old(facts) + Listed(Recognized(toks))
      ensures isModule == (old(isModule) || (IsWord(toks[|toks| - 1], {"import", "export"}) && depth == 0))
    {
      var n := |toks|;
      var t := toks[n - 1];
      if IsWord(t, {"import", "export"}) && depth == 0 {
        isModule := true;
      }
      if t.kind != Str {
        return;
      }
      if n >= 2 && IsWord(toks[n - 2], {"from", "import"}) {
        facts := facts + ["import " + t.text];
        return;
      }
      if n >= 3 && toks[n - 2].text == "(" && IsWord(toks[n - 3], {"require", "import"}) {
        facts := facts + [toks[n - 3].text + " " + t.text];
        return;
      }
      if n >= 3 && toks[n - 3].text == "declare" && toks[n - 2].text == "module" {
        facts := facts + ["augment " + t.text];
      }
    }

    method Comment(text: string)
      requires Valid() && EndOf(heard) < pos && Spells(src, Commented(text, pos))
      modifies this`facts, this`heard
      ensures Valid() && heard == old(heard) + [Commented(text, pos)]
    {
      RememberComment(heard, toks, facts, isModule, text, pos);
      SpellNext(src, heard, Commented(text, pos));
      heard := heard + [Commented(text, pos)];
      facts := facts + CommentFacts(text);
    }

    /** A successful step: further into the source, and nothing heard before is lost. */
    twostate predicate Advanced()
      reads this
    {
      var advanced := Valid() && old(pos) < pos <= |src| && old(heard) <= heard;
      advanced
    }

    // ---- Tokens ----

    /** Reads from an opening quote to the first one after it that no backslash escapes, on one line. */
    method Quoted(q: char) returns (text: Option<string>)
      requires pos < |src| && q != '\\'
      modifies this`pos
      ensures text.Some? ==>
        old(pos) + 2 <= pos && ClosesQuote(src, old(pos), q, pos - 1) && text.value == src[old(pos)..pos]
      ensures text.None? ==> forall p: nat :: !ClosesQuote(src, old(pos), q, p)
    {
      var start := pos;
      pos := pos + 1;
      while pos < |src|
        invariant start < pos
        invariant pos <= |src| ==> Begins(src, start + 1, pos)
        invariant forall k :: start < k < pos && k < |src| && Begins(src, start + 1, k) ==> src[k] !in {q, '\n'}
      {
        if src[pos] == '\\' {
          EscapedBeginsNothing(src, start + 1, pos);
          pos := pos + 2;
        } else if src[pos] == q {
          pos := pos + 1;
          return Some(src[start..pos]);
        } else if src[pos] == '\n' {
          return None;
        } else {
          pos := pos + 1;
        }
      }
      return None;
    }

    /** Consumes template text: Some(true) when the template ended, Some(false) at a substitution. */
    method TemplateBody() returns (done: Option<bool>)
      requires pos <= |src|
      modifies this`pos
      ensures done.Some? ==> old(pos) < pos <= |src| && if done.value then src[pos - 1] == '`'
          else old(pos) + 2 <= pos && At(src, pos - 2, "${")
      ensures done.Some? ==> ClosesBody(src, old(pos), if done.value then pos - 1 else pos - 2)
      ensures done.None? ==> forall p :: !ClosesBody(src, old(pos), p)
    {
      while pos < |src|
        invariant old(pos) <= pos
        invariant pos <= |src| ==> Begins(src, old(pos), pos)
        invariant forall k :: old(pos) <= k < pos && k <= |src| && Begins(src, old(pos), k) ==> !EndsBody(src, k)
      {
        EndsBodyHere(src, pos);
        if src[pos] == '\\' {
          EscapedBeginsNothing(src, old(pos), pos);
          pos := pos + 2;
        } else if src[pos] == '`' {
          pos := pos + 1;
          return Some(true);
        } else if At(src, pos, "${") {
          pos := pos + 2;
          return Some(false);
        } else {
          pos := pos + 1;
        }
      }
      return None;
    }

    /** Reads an expression from its slash past the closing one and the flags after it. */
    method Regex() returns (ok: bool)
      requires pos < |src|
      modifies this`pos
      ensures ok ==>
        old(pos) < pos <= |src| && exists p: nat :: ClosesRegex(src, old(pos), p) && pos == SkipIdent(src, p + 1)
      ensures !ok ==> forall p: nat :: !ClosesRegex(src, old(pos), p)
    {
      ghost var start := pos + 1;
      pos := pos + 1;
      var inClass := false;
      while pos < |src|
        invariant start <= pos
        invariant pos <= |src| ==> Begins(src, start, pos) && inClass == InClass(src, start, pos)
        invariant forall k :: start <= k < pos && k < |src| && Begins(src, start, k) ==>
            src[k] != '\n' && (src[k] == '/' ==> InClass(src, start, k))
      {
        var c := src[pos];
        ghost var before := pos;
        if c == '\\' {
          EscapedBeginsNothing(src, start, pos);
          pos := pos + 2;
        } else if c == '\n' {
          return false;
        } else if c == '[' {
          inClass := true;
          pos := pos + 1;
        } else if c == ']' {
          inClass := false;
          pos := pos + 1;
        } else if c == '/' && !inClass {
          assert ClosesRegex(src, old(pos), pos);
          pos := SkipIdent(src, pos + 1);
          return true;
        } else {
          pos := pos + 1;
        }
        if pos <= |src| {
          ClassNext(src, start, before, pos);
        }
      }
      return false;
    }

    /** Whether a type parameter list starts here, where an element could. */
    method GenericArrow() returns (arrow: bool)
      requires pos < |src|
      ensures arrow <==> exists i, j, k :: ArrowAt(src, pos, i, j, k)
    {
      var i := SkipBlank(src, pos + 1);
      var j := i;
      while j < |src| && IsIdentPart(src[j])
        invariant i <= j <= |src| && Ident(src, i, j)
      {
        j := j + 1;
      }
      var k := SkipBlank(src, j);
      forall x, y, z | ArrowAt(src, pos, x, y, z)
        ensures x == i && y == j && z == k
      {
        ArrowIsUnique(src, pos, i, j, k, x, y, z);
      }
      assert j != i && (At(src, k, ",") || At(src, k, "extends ")) ==> ArrowAt(src, pos, i, j, k);
      return j != i && (At(src, k, ",") || At(src, k, "extends "));
    }

    /** Where the comment here ends: before its line's end, or past its close. */
    method CommentEnd(toEnd: bool) returns (end: Option<nat>)
      requires pos < |src| && (At(src, pos, "//") || At(src, pos, "/*"))
      ensures end.Some? ==> pos + 2 <= end.value <= |src|
      ensures At(src, pos, "//") ==>
        match end
        case Some(e) => (e < |src| ==> src[e] == '\n') && (e == |src| ==> toEnd)
                        && forall k :: pos <= k < e ==> src[k] != '\n'
        case None => !toEnd && forall k :: pos <= k < |src| ==> src[k] != '\n'
      ensures !At(src, pos, "//") ==>
        match end
        case Some(e) => At(src, e - 2, "*/") && pos + 4 <= e && forall k :: pos + 2 <= k < e - 2 ==> !At(src, k, "*/")
        case None => forall k :: pos + 2 <= k ==> !At(src, k, "*/")
    {
      if At(src, pos, "//") {
        assert src[pos..pos + 2] == "//";
        assert src[pos] == src[pos..pos + 2][0] && src[pos + 1] == src[pos..pos + 2][1];
        forall k | pos <= k < |src|
          ensures At(src, k, "\n") <==> src[k] == '\n'
        {
          assert src[k..k + 1] == [src[k]];
        }
        var line := Index(src, pos, "\n");
        if line.None? {
          return if toEnd then Some(|src|) else None;
        }
        return line;
      }
      var close := Index(src, pos + 2, "*/");
      return if close.Some? then Some(close.value + 2) else None;
    }

    /** Skips a comment to its end, hearing it where asked to. */
    method SkipComment(toEnd: bool, hear: bool) returns (ok: bool)
      requires Valid() && pos < |src| && (At(src, pos, "//") || At(src, pos, "/*"))
      modifies this`pos, this`facts, this`heard
      ensures ok ==> Advanced() && heard == old(heard) + (if hear then [Commented(src[old(pos)..pos], pos)] else [])
      ensures ok ==> if At(src, old(pos), "//") then pos == |src| || src[pos] == '\n' else At(src, pos - 2, "*/")
    {
      var end := CommentEnd(toEnd);
      if end.None? {
        return false;
      }
      var text := src[pos..end.value];
      pos := end.value;
      if hear {
        Comment(text);
      }
      ok := true;
    }

    /** Emits what template text ends in; a substitution leaves its template open. */
    method Template(templates: seq<int>) returns (open: Option<seq<int>>)
      requires Valid() && pos < |src| && Nested(templates, depth + 1)
      requires forall i :: 0 <= i < |templates| ==> templates[i] < depth
      modifies this
      ensures open.Some? ==> Advanced() && sawJsx == old(sawJsx)
      ensures open.Some? ==> Nested(open.value, depth)
      ensures open.Some? ==>
        (open.value == templates && depth == old(depth))
        || (open.value == templates + [old(depth)] && depth == old(depth) + 1)
    {
      pos := pos + 1;
      var done := TemplateBody();
      if done.None? {
        return None;
      }
      if done.value {
        Emit(Token(TemplateEnd, "`"));
        return Some(templates);
      }
      depth := depth + 1;
      Emit(Token(Punctuation, "${"));
      return Some(templates + [depth - 1]);
    }

    method ReadWord()
      requires Valid() && pos < |src| && IsIdentStart(src[pos])
      modifies this`pos, this`prev, this`toks, this`facts, this`isModule, this`heard
      ensures Advanced() && heard == old(heard) + [Emitted(Token(Word, src[old(pos)..pos]), depth, pos)]
      ensures pos == SkipIdent(src, old(pos))
    {
      var start := pos;
      pos := SkipIdent(src, pos);
      Emit(Token(Word, src[start..pos]));
    }

    method ReadNumber()
      requires Valid() && pos < |src| && (IsDigit(src[pos]) || src[pos] == '.')
      modifies this`pos, this`prev, this`toks, this`facts, this`isModule, this`heard
      ensures Advanced()
    {
      var i := pos + 1;
      while i < |src| && (IsIdentPart(src[i]) || src[i] == '.')
        invariant pos < i <= |src|
      {
        i := i + 1;
      }
      pos := i;
      Emit(Token(Number, "0"));
    }

    /** Emits an operator or one character of punctuation; a brace changes the depth first. */
    method Punctuate()
      requires Valid() && pos < |src|
      modifies this`pos, this`prev, this`toks, this`facts, this`isModule, this`heard, this`depth
      ensures Advanced()
      ensures exists text: string ::
                text != "" && heard == old(heard) + [Emitted(Token(Punctuation, text), depth, pos)]
                && pos == old(pos) + |text|
      ensures depth == old(depth) + Rise(src[old(pos)]) && (Rise(src[old(pos)]) != 0 ==> pos == old(pos) + 1)
    {
      var text := Operator(src, pos);
      if text == "{" {
        depth := depth + 1;
      } else if text == "}" {
        depth := depth - 1;
      }
      pos := pos + |text|;
      Emit(Token(Punctuation, text));
    }

    // ---- The scan ----

    /** Open templates nest below the current depth, and above the brace this scan is to close. */
    ghost predicate Within(stop: int, templates: seq<int>)
      reads this`depth
    {
      var within := Nested(templates, depth)
                    && (stop >= 0 ==> depth > stop && forall i :: 0 <= i < |templates| ==> templates[i] > stop);
      within
    }

    /** Blanks, comments, strings and words: what facts are made of, heard as the source spells it. */
    predicate StartsLexeme()
      requires pos < |src|
      reads this`pos
    {
      IsSpace(src[pos]) || At(src, pos, "//") || At(src, pos, "/*") || src[pos] == '\'' || src[pos] == '"'
      || IsIdentStart(src[pos])
    }

    twostate predicate HeardLexeme()
      requires old(pos) < |src| && old(pos) <= pos <= |src|
      reads this
    {
      var c, text := src[old(pos)], src[old(pos)..pos];
      var lexeme := heard == old(heard) + if IsSpace(c) then []
                    else if At(src, old(pos), "//") || At(src, old(pos), "/*") then [Commented(text, pos)]
                    else [Emitted(Token(if IsIdentStart(c) then Word else Str, text), depth, pos)];
      lexeme
    }

    method Lexeme() returns (ok: bool)
      requires Valid() && pos < |src| && StartsLexeme()
      modifies this`pos, this`prev, this`toks, this`facts, this`isModule, this`heard
      ensures ok ==> Advanced() && HeardLexeme()
      ensures Simple(src[old(pos)]) ==> ok && forall k :: old(pos) <= k < pos ==> Rise(src[k]) == 0
    {
      var c := src[pos];
      if IsSpace(c) {
        pos := pos + 1;
      } else if At(src, pos, "//") || At(src, pos, "/*") {
        ok := SkipComment(true, true);
        return;
      } else if IsIdentStart(c) {
        ReadWord();
      } else {
        var text := Quoted(c);
        if text.None? {
          return false;
        }
        Emit(Token(Str, text.value));
      }
      ok := true;
    }

    /** A step over a word, blanks or one brace; only a brace changes the depth. */
    twostate predicate SteppedSimply()
      requires old(pos) < |src| && old(pos) <= pos <= |src|
      reads this
    {
      if Rise(src[old(pos)]) == 0 then depth == old(depth) && forall k :: old(pos) <= k < pos ==> Rise(src[k]) == 0
      else depth == old(depth) + Rise(src[old(pos)]) && pos == old(pos) + 1
    }

    /** One lexeme, template part, operator or element inside JavaScript. */
    method Step(stop: int, templates: seq<int>) returns (open: Option<seq<int>>)
      requires Valid() && pos < |src| && Within(stop, templates)
      requires stop >= 0 && src[pos] == '}' && templates == [] ==> depth > stop + 1
      modifies this
      ensures open.Some? ==> Advanced() && Within(stop, open.value) && (old(sawJsx) ==> sawJsx)
      ensures open.Some? && old(StartsLexeme()) ==> HeardLexeme() && depth == old(depth) && open.value == templates
      ensures Simple(src[old(pos)]) && templates == [] ==> open == Some([]) && SteppedSimply()
      decreases |src| - pos, 2
    {
      var c, n := src[pos], |templates|;
      var ok := true;
      open := Some(templates);
      if StartsLexeme() {
        ok := Lexeme();
      } else if c == '`' {
        open := Template(templates);
      } else if c == '}' && n > 0 && templates[n - 1] == depth - 1 {
        depth := depth - 1;
        open := Template(templates[..n - 1]);
      } else if c == '/' && !AfterOperand(prev) {
        ok := Regex();
        if ok {
          Emit(Token(Str, "/regex/"));
        }
      } else if c == '<' && jsx && !AfterOperand(prev) {
        ok := Element();
      } else if IsDigit(c) || (c == '.' && pos + 1 < |src| && IsDigit(src[pos + 1])) {
        ReadNumber();
      } else {
        Punctuate();
      }
      if !ok {
        return None;
      }
    }

    method Element() returns (ok: bool)
      requires Valid() && pos < |src| && src[pos] == '<'
      modifies this
      ensures ok ==> Advanced() && depth == old(depth) && (old(sawJsx) ==> sawJsx)
      decreases |src| - pos, 1
    {
      var arrow := GenericArrow();
      if arrow {
        pos := pos + 1;
        Emit(Token(Punctuation, "<"));
        return true;
      }
      sawJsx := true;
      ok := JsxElement();
      if ok {
        Emit(Token(Number, "jsx"));
      }
    }

    /** Over simple text the depth follows the braces, and while a brace is awaited never falls below the start's. */
    ghost predicate SimplyUp(start: nat, from: int, stop: int)
      requires start <= pos <= |src|
      reads this`pos, this`depth
    {
      var up := depth == from + Level(src, start, pos) && (stop >= 0 ==> StaysUp(src, start, pos));
      up
    }

    lemma SimplyOn(start: nat, from: int, stop: int, at: nat, was: int)
      requires start <= at <= pos <= |src| && at < |src| && was == from + Level(src, start, at)
      requires stop >= 0 ==> from == stop + 1 && StaysUp(src, start, at) && (src[at] == '}' ==> was > stop + 1)
      requires if Rise(src[at]) == 0 then depth == was && forall k :: at <= k < pos ==> Rise(src[k]) == 0
               else depth == was + Rise(src[at]) && pos == at + 1
      ensures SimplyUp(start, from, stop)
    {
      LevelJoin(src, start, at, pos);
      if Rise(src[at]) == 0 {
        Flat(src, at, pos);
      } else {
        assert Level(src, at, at) == 0 && Level(src, at, at + 1) == Rise(src[at]);
      }
      if stop >= 0 {
        StaysUpOn(src, start, at, pos);
      }
    }

    /**
     * JavaScript up to and past the brace that brings the depth down to stop, which a negative stop leaves to the
     * source's end.
     */
    method ScanJs(stop: int) returns (ok: bool)
      requires Valid() && pos <= |src| && (stop >= 0 ==> depth == stop + 1)
      modifies this
      ensures ok ==> Valid() && old(pos) <= pos <= |src| && old(heard) <= heard && (old(sawJsx) ==> sawJsx)
      ensures ok ==> if stop >= 0 then depth == stop && old(pos) < pos && src[pos - 1] == '}' else pos == |src|
      ensures SimpleFrom(src, old(pos)) ==> (ok <==> stop < 0 || ClosesSomewhere(src, old(pos)))
      ensures SimpleFrom(src, old(pos)) && ok && stop >= 0 ==> ClosesLevel(src, old(pos), pos - 1)
      decreases |src| - pos, 3
    {
      var templates: seq<int> := [];
      while pos < |src|
        invariant Valid() && old(pos) <= pos <= |src| && old(heard) <= heard && (old(sawJsx) ==> sawJsx)
        invariant Within(stop, templates)
        invariant SimpleFrom(src, old(pos)) ==> templates == [] && SimplyUp(old(pos), old(depth), stop)
        decreases |src| - pos
      {
        ghost var at, was := pos, depth;
        if stop >= 0 && src[pos] == '}' && depth == stop + 1 && templates == [] {
          assert SimpleFrom(src, old(pos)) ==> ClosesLevel(src, old(pos), pos);
          depth := depth - 1;
          pos := pos + 1;
          assert src[at..at + 1] == "}";
          Emit(Token(Punctuation, "}"));
          return true;
        }
        var open := Step(stop, templates);
        if open.None? {
          return false;
        }
        templates := open.value;
        if SimpleFrom(src, old(pos)) {
          SimplyOn(old(pos), old(depth), stop, at, was);
        }
      }
      if SimpleFrom(src, old(pos)) && stop >= 0 {
        forall p: nat
          ensures !ClosesLevel(src, old(pos), p)
        {
          if ClosesLevel(src, old(pos), p) {
            UpIsOpen(src, old(pos), pos, p);
            assert false;
          }
        }
      }
      return templates == [] && stop < 0;
    }

    /** One element or fragment, past its closing tag or the end of its own; every brace in it holds JavaScript. */
    method JsxElement() returns (ok: bool)
      requires Valid() && pos < |src|
      modifies this
      ensures ok ==> Advanced() && EndOf(heard) < pos && depth == old(depth) && (old(sawJsx) ==> sawJsx)
      ensures ok && old(depth) < 0 ==> heard == old(heard)
      decreases |src| - pos, 0
    {
      pos := pos + 1;
      var closing, angles := false, 0;
      while pos < |src|
        invariant Valid() && old(pos) < pos <= |src| && old(heard) <= heard && (old(sawJsx) ==> sawJsx)
        invariant pos < |src| ==> depth == old(depth) && (old(depth) < 0 ==> heard == old(heard))
        decreases |src| - pos
      {
        var c := src[pos];
        if c == '<' {
          angles := angles + 1;
          pos := pos + 1;
        } else if c == '>' && angles > 0 {
          angles := angles - 1;
          pos := pos + 1;
        } else if c == '{' {
          ok := JsxExpression();
          if !ok {
            return;
          }
        } else if c == '"' || c == '\'' {
          var text := Quoted(c);
          if text.None? {
            return false;
          }
        } else if At(src, pos, "//") || At(src, pos, "/*") {
          ok := SkipComment(false, false);
          if !ok {
            return;
          }
        } else if At(src, pos, "/>") {
          pos := pos + 2;
          return true;
        } else if c == '>' {
          pos := pos + 1;
          if closing {
            return true;
          }
          ok := JsxChildren();
          return;
        } else if c == '/' {
          closing := true;
          pos := pos + 1;
        } else {
          pos := pos + 1;
        }
      }
      return false;
    }

    method JsxChildren() returns (ok: bool)
      requires Valid() && pos <= |src|
      modifies this
      ensures ok ==> Advanced() && EndOf(heard) < pos && depth == old(depth) && (old(sawJsx) ==> sawJsx)
      ensures ok && old(depth) < 0 ==> heard == old(heard)
      decreases |src| - pos, 1
    {
      var start := pos;
      while pos < |src|
        invariant Valid() && old(pos) <= start <= pos <= |src| && old(heard) <= heard && (old(sawJsx) ==> sawJsx)
        invariant pos < |src| ==> depth == old(depth) && (old(depth) < 0 ==> heard == old(heard))
        decreases |src| - pos
      {
        if (src[pos] == '<' || src[pos] == '{') && SwallowsCode(src[start..pos]) {
          return false;
        }
        if At(src, pos, "</") {
          var close := Index(src, pos + 1, ">");
          if close.None? {
            return false;
          }
          pos := close.value + 1;
          return true;
        } else if src[pos] == '<' {
          ok := JsxElement();
          if !ok {
            return;
          }
          start := pos;
        } else if src[pos] == '{' {
          ok := JsxExpression();
          if !ok {
            return;
          }
          start := pos;
        } else {
          pos := pos + 1;
        }
      }
      return false;
    }

    /** JavaScript between braces; below depth zero nothing can close it, so it takes the rest of the source. */
    method JsxExpression() returns (ok: bool)
      requires Valid() && pos < |src|
      modifies this
      ensures ok ==> Advanced() && (old(sawJsx) ==> sawJsx)
      ensures ok ==>
        if old(depth) >= 0 then depth == old(depth) && prev == old(prev) && src[pos - 1] == '}' else pos == |src|
      ensures SimpleFrom(src, old(pos) + 1) ==> (ok <==> old(depth) < 0 || ClosesSomewhere(src, old(pos) + 1))
      ensures SimpleFrom(src, old(pos) + 1) && ok && old(depth) >= 0 ==> ClosesLevel(src, old(pos) + 1, pos - 1)
      decreases |src| - pos, 0
    {
      var saved := prev;
      pos := pos + 1;
      depth := depth + 1;
      prev := NO_TOKEN;
      ok := ScanJs(depth - 1);
      prev := saved;
    }

    /** Scans a whole source; success means every brace and template in it closed. */
    method Scan() returns (ok: bool)
      requires Valid() && pos == 0 && depth == 0
      modifies this
      ensures ok ==> pos == |src| && depth == 0
      ensures ok ==> facts == Facts(heard) && (isModule <==> IsModule(heard)) && SpelledOut(src, heard)
    {
      ok := ScanJs(-1);
      if ok && depth != 0 {
        return false;
      }
      if ok {
        Recall(heard, toks, facts, isModule);
        SpelledIs(src, heard);
      }
    }
  }

  /**
   * One expression before more text. At depth zero it ends at its own brace; below zero, after a stray brace,
   * it takes all the text that follows.
   */
  method ExpressionBeforeText(depth: int) returns (scanner: Scanner, ok: bool)
    ensures scanner.src == "{x} y" && ok && scanner.pos == if depth >= 0 then 3 else 5
  {
    scanner := new Scanner("{x} y", true);
    scanner.depth := depth;
    assert SimpleFrom(scanner.src, 1) && ClosesLevel(scanner.src, 1, 2) by {
      assert Level("{x} y", 1, 1) == 0 && Level("{x} y", 1, 2) == 0;
    }
    ok := scanner.JsxExpression();
  }
}
