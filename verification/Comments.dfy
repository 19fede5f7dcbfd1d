/**
 * What the signature scanner takes from a comment: directives, JSDoc imports and pragmas.
 */
module Comments {
  import opened Wrappers

  /** What \s matches. */
  const BLANKS := " \t\n\r\U{000C}"

  predicate IsSpace(c: char) {
    c == ' ' || c == '\t' || c == '\n' || c == '\r' || c as int == 0x0C || c as int == 0x0B
  }

  predicate IsQuote(c: char) {
    c == '\'' || c == '"'
  }

  predicate IsWordChar(c: char) {
    c == '_' || 'a' <= c <= 'z' || 'A' <= c <= 'Z' || '0' <= c <= '9'
  }

  predicate At(s: string, i: int, text: string) {
    0 <= i && i + |text| <= |s| && s[i..i + |text|] == text
  }

  predicate Blanks(s: string, i: nat, j: nat) {
    i <= j <= |s| && forall k :: i <= k < j ==> s[k] in BLANKS
  }

  predicate NoQuote(s: string, i: nat, j: nat) {
    i <= j <= |s| && forall k :: i <= k < j ==> !IsQuote(s[k])
  }

  function SkipBlanks(s: string, i: nat): (j: nat)
    requires i <= |s|
    ensures Blanks(s, i, j) && (j < |s| ==> s[j] !in BLANKS)
    decreases |s| - i
  {
    if i < |s| && s[i] in BLANKS then SkipBlanks(s, i + 1) else i
  }

  /** Where the blanks that end at j begin. */
  function SkipBlanksBack(s: string, i: nat, j: nat): (k: nat)
    requires i <= j <= |s|
    ensures i <= k && Blanks(s, k, j) && (i < k ==> s[k - 1] !in BLANKS)
    decreases j - i
  {
    if i < j && s[j - 1] in BLANKS then SkipBlanksBack(s, i, j - 1) else j
  }

  function NextQuote(s: string, i: nat): (quote: Option<nat>)
    requires i <= |s|
    ensures quote.Some? ==> NoQuote(s, i, quote.value) && quote.value < |s| && IsQuote(s[quote.value])
    ensures quote.None? ==> NoQuote(s, i, |s|)
    decreases |s| - i
  {
    if i == |s| then None else if IsQuote(s[i]) then Some(i) else NextQuote(s, i + 1)
  }

  // ---- JSDoc imports ----

  /** What comes before a specifier, from i to p: an import's parenthesis, or an import tag up to a from. */
  predicate Introduces(s: string, i: nat, p: nat) {
    || (At(s, i, "import(") && p == i + 7)
    || (At(s, i, "@import") && (i + 7 < |s| ==> !IsWordChar(s[i + 7]))
        && i + 11 <= p && At(s, p - 4, "from") && NoQuote(s, i + 7, p - 4))
  }

  /** A reading of the expression for JSDoc imports from i: an introduction, blanks, and a text between quotes. */
  predicate Imports(s: string, i: nat, p: nat, open: nat, close: nat) {
    var imports :=
      && Introduces(s, i, p) && Blanks(s, p, open)
      && open < close < |s| && IsQuote(s[open]) && IsQuote(s[close]) && NoQuote(s, open + 1, close);
    imports
  }

  /** Where the introduction at i would end if one starts there. */
  function Introduction(s: string, i: nat): (p: Option<nat>)
    ensures p.Some? ==> p.value <= |s|
  {
    if At(s, i, "import(") then Some(i + 7)
    else if At(s, i, "@import") && (i + 7 < |s| ==> !IsWordChar(s[i + 7])) then
      match NextQuote(s, i + 7)
      case None => None
      case Some(quote) =>
        var p := SkipBlanksBack(s, i + 7, quote);
        if i + 11 <= p && At(s, p - 4, "from") then Some(p) else None
    else None
  }

  /** A specifier with its quotes, and where it ends. */
  datatype Specifier = Specifier(text: string, end: nat)

  /** The quoted text an import at i names. */
  function ImportAt(s: string, i: nat): (found: Option<Specifier>)
    ensures found.Some? ==> i < found.value.end <= |s|
  {
    match Introduction(s, i)
    case None => None
    case Some(p) =>
      var open := SkipBlanks(s, p);
      if open == |s| || !IsQuote(s[open]) then None
      else
        match NextQuote(s, open + 1)
        case None => None
        case Some(close) => Some(Specifier(s[open..close + 1], close + 1))
  }

  /** A quote ends the tag, so a reading's introduction is the one found. */
  lemma IntroductionFound(s: string, i: nat, p: nat, open: nat)
    requires Introduces(s, i, p) && Blanks(s, p, open) && open < |s| && IsQuote(s[open])
    ensures Introduction(s, i) == Some(p)
  {
    if At(s, i, "import(") {
      assert s[i..i + 7] == "import(";
    } else {
      assert s[p - 4..p] == "from" && s[p - 1] == s[p - 4..p][3];
      assert forall k :: p - 4 <= k < p ==> s[k] == s[p - 4..p][k - (p - 4)];
      assert NoQuote(s, i + 7, open);
      var quote := NextQuote(s, i + 7);
      assert quote == Some(open);
      assert SkipBlanksBack(s, i + 7, open) == p;
    }
  }

  /** A reading and what it names. */
  ghost predicate Names(s: string, i: nat, found: Specifier) {
    exists p: nat, open: nat, close: nat ::
      Imports(s, i, p, open, close) && found == Specifier(s[open..close + 1], close + 1)
  }

  lemma FoundIsRead(s: string, i: nat)
    requires ImportAt(s, i).Some?
    ensures Names(s, i, ImportAt(s, i).value)
  {
    var p := Introduction(s, i).value;
    var open := SkipBlanks(s, p);
    assert Introduces(s, i, p) && Imports(s, i, p, open, NextQuote(s, open + 1).value);
  }

  lemma ReadIsFound(s: string, i: nat, p: nat, open: nat, close: nat)
    requires Imports(s, i, p, open, close)
    ensures ImportAt(s, i) == Some(Specifier(s[open..close + 1], close + 1))
  {
    IntroductionFound(s, i, p, open);
    assert SkipBlanks(s, p) == open;
    assert NextQuote(s, open + 1) == Some(close);
  }

  lemma NamedIsFound(s: string, i: nat, found: Specifier)
    requires Names(s, i, found)
    ensures ImportAt(s, i) == Some(found)
  {
    var p: nat, open: nat, close: nat :|
      Imports(s, i, p, open, close) && found == Specifier(s[open..close + 1], close + 1);
    ReadIsFound(s, i, p, open, close);
  }

  /** What is found at a position is what the one reading there names. */
  lemma ImportIsReading(s: string, i: nat, found: Specifier)
    ensures Names(s, i, found) <==> ImportAt(s, i) == Some(found)
  {
    if Names(s, i, found) {
      NamedIsFound(s, i, found);
    } else if ImportAt(s, i) == Some(found) {
      FoundIsRead(s, i);
    }
  }

  /** Every specifier JSDoc imports name from i on. */
  function JsdocImports(s: string, i: nat): seq<Specifier>
    requires i <= |s|
    decreases |s| - i
  {
    if i == |s| then []
    else
      match ImportAt(s, i)
      case None => JsdocImports(s, i + 1)
      case Some(found) => [found] + JsdocImports(s, found.end)
  }

  ghost predicate NamesNothing(s: string, i: nat, j: nat) {
    forall k: nat, found :: i <= k < j ==> !Names(s, k, found)
  }

  /** The readings from i on: the leftmost, then the leftmost past its quotes, until there is none. */
  ghost predicate Leftmost(s: string, i: nat, specifiers: seq<Specifier>)
    decreases |specifiers|
  {
    if specifiers == [] then NamesNothing(s, i, |s|)
    else exists j: nat :: i <= j && NamesNothing(s, i, j) && Names(s, j, specifiers[0])
                     && Leftmost(s, specifiers[0].end, specifiers[1..])
  }

  lemma LeftmostHere(s: string, i: nat, found: Specifier, rest: seq<Specifier>)
    requires Names(s, i, found) && Leftmost(s, found.end, rest)
    ensures Leftmost(s, i, [found] + rest)
  {
    assert ([found] + rest)[1..] == rest && NamesNothing(s, i, i);
  }

  lemma LeftmostLater(s: string, i: nat, specifiers: seq<Specifier>)
    requires (forall found :: !Names(s, i, found)) && Leftmost(s, i + 1, specifiers)
    ensures Leftmost(s, i, specifiers)
  {
    if specifiers != [] {
      var j: nat :| i + 1 <= j && NamesNothing(s, i + 1, j) && Names(s, j, specifiers[0])
        && Leftmost(s, specifiers[0].end, specifiers[1..]);
      assert NamesNothing(s, i, j);
    }
  }

  /** What is listed is what the expression reads, leftmost first and none inside another. */
  lemma {:induction false} JsdocImportsRead(s: string, i: nat)
    requires i <= |s|
    ensures Leftmost(s, i, JsdocImports(s, i))
    decreases |s| - i
  {
    if i < |s| {
      forall found {
        ImportIsReading(s, i, found);
      }
      var found := ImportAt(s, i);
      if found.Some? {
        JsdocImportsRead(s, found.value.end);
        LeftmostHere(s, i, found.value, JsdocImports(s, found.value.end));
      } else {
        JsdocImportsRead(s, i + 1);
        LeftmostLater(s, i, JsdocImports(s, i + 1));
      }
    }
  }

  // ---- Directives and pragmas ----

  function TrimLeft(s: string): string {
    if s != "" && IsSpace(s[0]) then TrimLeft(s[1..]) else s
  }

  function TrimRight(s: string): string {
    if s != "" && IsSpace(s[|s| - 1]) then TrimRight(s[..|s| - 1]) else s
  }

  /** Where text first occurs in s at or after i. */
  function Index(s: string, i: nat, text: string): (found: Option<nat>)
    requires i <= |s|
    ensures found.Some? ==> i <= found.value && At(s, found.value, text) && forall j :: i <= j < found.value ==>
                              !At(s, j, text)
    ensures found.None? ==> forall j :: i <= j ==> !At(s, j, text)
    decreases |s| - i
  {
    if At(s, i, text) then Some(i) else if i == |s| then None else Index(s, i + 1, text)
  }

  /** Where the characters from i on that are spaces, or that are not, end. */
  function Run(s: string, i: nat, spaces: bool): (j: nat)
    requires i <= |s|
    ensures i <= j <= |s| && (forall k :: i <= k < j ==> IsSpace(s[k]) == spaces)
    ensures j < |s| ==> IsSpace(s[j]) != spaces
    decreases |s| - i
  {
    if i < |s| && IsSpace(s[i]) == spaces then Run(s, i + 1, spaces) else i
  }

  /** The word a pragma starts at its first occurrence, and the word after it, if any. */
  function Pragma(s: string, name: string): seq<string> {
    match Index(s, 0, name)
    case None => []
    case Some(i) =>
      var end := Run(s, i, false);
      var next := Run(s, end, true);
      ["pragma " + s[i..end] + " " + s[next..Run(s, next, false)]]
  }

  function Jsdocs(specifiers: seq<Specifier>): seq<string> {
    if specifiers == [] then [] else ["jsdoc " + specifiers[0].text] + Jsdocs(specifiers[1..])
  }

  function CommentFacts(text: string): seq<string> {
    (if "///" <= text then ["directive " + TrimRight(TrimLeft(text))] else [])
    + Jsdocs(JsdocImports(text, 0))
    + Pragma(text, "@jsx") + Pragma(text, "@ts-nocheck") + Pragma(text, "@flow")
  }
}
