/**
 * The resolution-trace matchers: hand-written readers that return what the anchored expressions in
 * their comments capture, first group greedy and second lazy.
 */
module TraceLines {
  import opened Wrappers

  const START := "======== Resolving module '"
  const FROM := "' from '"
  const START_END := "'. ========"
  const NAME := "======== Module name '"
  const END := " ========"
  const QUOTE := "' "
  const VERB := "was "
  const WAS := QUOTE + VERB
  const NOT_RESOLVED := VERB + "not resolved."
  const RESOLVED_TO := VERB + "successfully resolved to '"
  const PACKAGE_ID := " with Package ID '"
  const CANDIDATE := "Loading module as file / folder, candidate module location '"
  const TYPES_TEXT := ", target file types: "
  const TYPES := "'" + TYPES_TEXT

  predicate At(s: string, i: int, text: string) {
    0 <= i && i + |text| <= |s| && s[i..i + |text|] == text
  }

  /** Where text last occurs in s before end. */
  method LastIndex(s: string, end: nat, text: string) returns (last: Option<nat>)
    requires end <= |s|
    ensures last.Some? ==> last.value + |text| <= end && At(s, last.value, text)
    ensures forall j :: (last.Some? ==> last.value < j) && j + |text| <= end ==> !At(s, j, text)
  {
    if |text| > end {
      return None;
    }
    var i := end - |text|;
    while true
      invariant 0 <= i <= end - |text|
      invariant forall j :: i < j <= end - |text| ==> !At(s, j, text)
      decreases i
    {
      if At(s, i, text) {
        return Some(i);
      }
      if i == 0 {
        return None;
      }
      i := i - 1;
    }
  }

  /** The middle of a line with the given ends. */
  method TraceField(line: string, prefix: string, suffix: string) returns (value: Option<string>)
    ensures value.Some? ==> line == prefix + value.value + suffix
    ensures value.None? ==> forall v: string :: line != prefix + v + suffix
  {
    if |line| < |prefix| + |suffix| || !(prefix <= line) || line[|line| - |suffix|..] != suffix {
      forall v: string
        ensures line != prefix + v + suffix
      {
        var joined := prefix + v + suffix;
        assert prefix <= joined && joined[|joined| - |suffix|..] == suffix;
      }
      return None;
    }
    value := Some(line[|prefix|..|line| - |suffix|]);
  }

  lemma SameMiddle(prefix: string, a: string, b: string, suffix: string)
    requires prefix + a + suffix == prefix + b + suffix
    ensures a == b
  {
    var x, y := prefix + a + suffix, prefix + b + suffix;
    assert |a| == |b|;
    assert a == x[|prefix|..|prefix| + |a|] && b == y[|prefix|..|prefix| + |b|];
  }

  /** A text whose first character recurs nowhere in it never overlaps itself. */
  lemma NoOverlap(s: string, text: string, i: int, j: int)
    requires text != "" && text[0] !in text[1..]
    requires At(s, i, text) && At(s, j, text) && i < j
    ensures i + |text| <= j
  {
  }

  lemma TypesSeparate(s: string, i: int, j: int)
    requires At(s, i, TYPES) && At(s, j, TYPES) && i < j
    ensures i + |TYPES| <= j
  {
    assert '\'' !in TYPES_TEXT;
    assert TYPES[1..] == TYPES_TEXT;
    NoOverlap(s, TYPES, i, j);
  }

  lemma WasSeparate(s: string, i: int, j: int)
    requires At(s, i, WAS) && At(s, j, WAS) && i < j
    ensures i + |WAS| <= j
  {
    assert WAS[1..] == " was ";
    NoOverlap(s, WAS, i, j);
  }

  // ---- A resolution begins ----

  datatype StartMatch = StartMatch(name: string, from: string)

  function StartLine(m: StartMatch): string {
    START + (m.name + FROM + m.from) + START_END
  }

  /** The groups of `^START(.*)FROM(.*)START_END$`: of all readings of the line, the one with the longest name. */
  method ModuleTraceStart(line: string) returns (found: Option<StartMatch>)
    ensures found.Some? ==> StartLine(found.value) == line
    ensures forall m :: StartLine(m) == line ==> found.Some? && |m.name| <= |found.value.name|
  {
    var value := TraceField(line, START, START_END);
    if value.None? {
      return None;
    }
    var v := value.value;
    var last := LastIndex(v, |v|, FROM);
    forall m | StartLine(m) == line
      ensures At(v, |m.name|, FROM)
    {
      SameMiddle(START, m.name + FROM + m.from, v, START_END);
    }
    if last.None? {
      return None;
    }
    var i := last.value;
    assert v == v[..i] + FROM + v[i + |FROM|..];
    found := Some(StartMatch(v[..i], v[i + |FROM|..]));
  }

  // ---- A candidate location ----

  datatype CandidateMatch = CandidateMatch(location: string, types: string)

  function CandidateLine(m: CandidateMatch): string {
    CANDIDATE + (m.location + TYPES + m.types) + "."
  }

  /** The groups of `^CANDIDATE(.*)TYPES(.+)\.$`, the first of them greedy. */
  method CandidateTrace(line: string) returns (found: Option<CandidateMatch>)
    ensures found.Some? ==> CandidateLine(found.value) == line && found.value.types != ""
    ensures forall m :: CandidateLine(m) == line && m.types != "" ==>
        found.Some? && |m.location| <= |found.value.location|
  {
    var value := TraceField(line, CANDIDATE, ".");
    if value.None? {
      return None;
    }
    var v := value.value;
    forall m | CandidateLine(m) == line
      ensures At(v, |m.location|, TYPES) && v[|m.location| + |TYPES|..] == m.types
    {
      SameMiddle(CANDIDATE, m.location + TYPES + m.types, v, ".");
    }
    var end: nat := |v|;
    while true
      invariant end <= |v|
      invariant forall j :: At(v, j, TYPES) && j + |TYPES| > end ==> j + |TYPES| == |v|
      decreases end
    {
      var last := LastIndex(v, end, TYPES);
      if last.None? {
        return None;
      }
      var i := last.value;
      if |v| - i - |TYPES| >= 1 {
        assert v == v[..i] + TYPES + v[i + |TYPES|..];
        return Some(CandidateMatch(v[..i], v[i + |TYPES|..]));
      }
      forall j | At(v, j, TYPES) && j + |TYPES| > i
        ensures j + |TYPES| == |v|
      {
        if j < i {
          TypesSeparate(v, j, i);
        }
      }
      end := i;
    }
  }

  // ---- A resolution ends ----

  /** A module name, what it resolved to, and the package it came from; an unresolved name has neither. */
  datatype EndMatch = EndMatch(name: string, to: Option<string>, package: Option<string>)

  function Outcome(to: Option<string>, package: Option<string>): string {
    match to
    case None => NOT_RESOLVED
    case Some(file) => RESOLVED_TO + (file + "'" + Packaged(package)) + "."
  }

  function Packaged(package: Option<string>): string {
    match package
    case None => ""
    case Some(id) => PACKAGE_ID + id + "'"
  }

  function Ending(to: Option<string>, package: Option<string>): string {
    QUOTE + Outcome(to, package)
  }

  function EndLine(m: EndMatch): string {
    NAME + (m.name + Ending(m.to, m.package)) + END
  }

  predicate IsPackaged(after: string) {
    after == "" || (|after| > |PACKAGE_ID| && PACKAGE_ID <= after && after[|after| - 1] == '\'')
  }

  /** A file ends at a quote that nothing, or a package, follows. */
  predicate FileEnds(body: string, j: int) {
    0 <= j < |body| && body[j] == '\'' && IsPackaged(body[j + 1..])
  }

  lemma PackagedRead(after: string) returns (package: Option<string>)
    requires IsPackaged(after)
    ensures Packaged(package) == after
  {
    if after == "" {
      return None;
    }
    var id := after[|PACKAGE_ID|..|after| - 1];
    assert after == PACKAGE_ID + id + "'";
    return Some(id);
  }

  lemma FileRead(rest: string, body: string, j: nat)
    requires rest == RESOLVED_TO + body + "." && FileEnds(body, j)
    ensures exists package :: Outcome(Some(body[..j]), package) == rest
  {
    var package := PackagedRead(body[j + 1..]);
    assert body == body[..j] + "'" + body[j + 1..];
    assert Outcome(Some(body[..j]), package) == rest;
  }

  lemma FileIs(rest: string, body: string, file: string, package: Option<string>)
    requires rest == RESOLVED_TO + body + "." && Outcome(Some(file), package) == rest
    ensures FileEnds(body, |file|) && body[..|file|] == file
  {
    SameMiddle(RESOLVED_TO, file + "'" + Packaged(package), body, ".");
    assert body[|file| + 1..] == Packaged(package);
  }

  /** The file of the second outcome is lazy: the shortest some reading allows. */
  method Resolved(rest: string) returns (to: Option<string>)
    ensures to.Some? ==> exists package :: Outcome(to, package) == rest
    ensures forall file, package :: Outcome(Some(file), package) == rest ==> to.Some? && |to.value| <= |file|
  {
    var field := TraceField(rest, RESOLVED_TO, ".");
    if field.None? {
      return None;
    }
    var body := field.value;
    forall file, package | Outcome(Some(file), package) == rest
      ensures FileEnds(body, |file|)
    {
      FileIs(rest, body, file, package);
    }
    for j := 0 to |body|
      invariant forall k :: 0 <= k < j ==> !FileEnds(body, k)
    {
      if body[j] == '\'' && IsPackaged(body[j + 1..]) {
        FileRead(rest, body, j);
        return Some(body[..j]);
      }
    }
    return None;
  }

  /** Whether the text from i on is a quote and an outcome. */
  ghost predicate Ends(v: string, i: int) {
    exists to, package :: EndsWith(v, i, to, package)
  }

  ghost predicate EndsWith(v: string, i: int, to: Option<string>, package: Option<string>) {
    0 <= i <= |v| && v[i..] == Ending(to, package)
  }

  lemma EndsAtWas(v: string, i: int)
    requires Ends(v, i)
    ensures At(v, i, WAS)
  {
    var to, package :| EndsWith(v, i, to, package);
  }

  lemma SpliceTail(prefix: string, v: string, i: nat, tail: string, suffix: string)
    requires i <= |v|
    ensures v[i..] == tail ==> prefix + (v[..i] + tail) + suffix == prefix + v + suffix
  {
    assert v == v[..i] + v[i..];
  }

  lemma SplitTail(prefix: string, v: string, name: string, tail: string, suffix: string)
    requires prefix + (name + tail) + suffix == prefix + v + suffix
    ensures |name| <= |v| && v[|name|..] == tail && v[..|name|] == name
  {
    SameMiddle(prefix, name + tail, v, suffix);
  }

  lemma EndLineEnds(m: EndMatch, line: string, v: string)
    requires line == NAME + v + END && EndLine(m) == line
    ensures EndsWith(v, |m.name|, m.to, m.package) && v[..|m.name|] == m.name
  {
    SplitTail(NAME, v, m.name, Ending(m.to, m.package), END);
  }

  lemma EndLineIs(line: string, v: string, i: nat, to: Option<string>, package: Option<string>)
    requires line == NAME + v + END && EndsWith(v, i, to, package)
    ensures EndLine(EndMatch(v[..i], to, package)) == line
  {
    SpliceTail(NAME, v, i, Ending(to, package), END);
  }

  /** After the quote at i, the outcomes are those of the rest. */
  lemma RestOutcome(v: string, i: nat, rest: string)
    requires i <= |v| && v[i..] == QUOTE + rest
    ensures forall to, package :: EndsWith(v, i, to, package) <==> Outcome(to, package) == rest
  {
    forall to, package
      ensures EndsWith(v, i, to, package) <==> Outcome(to, package) == rest
    {
      assert (QUOTE + Outcome(to, package))[|QUOTE|..] == Outcome(to, package);
      assert (QUOTE + rest)[|QUOTE|..] == rest;
    }
  }

  /** The outcome that starts at i, if one does: unresolved, or the shortest file. */
  method OutcomeAt(v: string, i: nat) returns (ends: bool, to: Option<string>)
    requires At(v, i, WAS)
    ensures ends <==> Ends(v, i)
    ensures ends ==> exists package :: EndsWith(v, i, to, package)
    ensures forall file, package :: EndsWith(v, i, Some(file), package) ==> to.Some? && |to.value| <= |file|
  {
    var rest := v[i + |QUOTE|..];
    RestOutcome(v, i, rest);
    if rest == NOT_RESOLVED {
      assert Outcome(None, None) == rest && EndsWith(v, i, None, None);
      forall file, package
        ensures !EndsWith(v, i, Some(file), package)
      {
      }
      return true, None;
    }
    to := Resolved(rest);
    ends := to.Some?;
    if ends {
      ghost var package :| Outcome(to, package) == rest;
      assert EndsWith(v, i, to, package);
    }
  }

  /**
   * The groups of `^NAME(.*)' (?:NOT_RESOLVED|RESOLVED_TO(.*?)'(?:PACKAGE_ID.*?')?\.)END$`: the longest
   * name any reading of the line has, and with it the shortest file.
   */
  method ModuleTraceEnd(line: string) returns (found: Option<(string, Option<string>)>)
    ensures found.Some? ==> exists package :: EndLine(EndMatch(found.value.0, found.value.1, package)) == line
    ensures forall m :: EndLine(m) == line ==> found.Some? && |m.name| <= |found.value.0|
    ensures forall m :: EndLine(m) == line && m.to.Some? && |m.name| == |found.value.0| ==>
        found.value.1.Some? && |found.value.1.value| <= |m.to.value|
  {
    var value := TraceField(line, NAME, END);
    if value.None? {
      return None;
    }
    var v := value.value;
    forall m | EndLine(m) == line
      ensures EndsWith(v, |m.name|, m.to, m.package) && Ends(v, |m.name|)
    {
      EndLineEnds(m, line, v);
    }
    var end: nat := |v|;
    while true
      invariant end <= |v| && forall j :: Ends(v, j) ==> j + |WAS| <= end
      decreases end
    {
      var last := LastIndex(v, end, WAS);
      forall j | Ends(v, j)
        ensures last.Some? && j <= last.value
      {
        EndsAtWas(v, j);
      }
      if last.None? {
        return None;
      }
      var i := last.value;
      var ends, to := OutcomeAt(v, i);
      if ends {
        ghost var package :| EndsWith(v, i, to, package);
        EndLineIs(line, v, i, to, package);
        return Some((v[..i], to));
      }
      forall j | Ends(v, j)
        ensures j + |WAS| <= i
      {
        EndsAtWas(v, j);
        if j < i {
          WasSeparate(v, j, i);
        }
      }
      end := i;
    }
  }
}
