/**
 * Star patterns and package targets: which file a pattern's capture gives, and how a manifest target
 * is rewritten so that it reads as the runtime modules. Strings hold one character for each byte.
 */
module Targets {
  import opened Wrappers

  // ---- Stars ----

  /** The text between stars. */
  function Split(s: string): (parts: seq<string>)
    ensures parts != []
  {
    if s == "" then [""]
    else
      var rest := Split(s[1..]);
      if s[0] == '*' then [""] + rest else [[s[0]] + rest[0]] + rest[1..]
  }

  /** Parts with one text between every two. */
  function Join(parts: seq<string>, between: string): string {
    if parts == [] then "" else if |parts| == 1 then parts[0] else parts[0] + between + Join(parts[1..], between)
  }

  /** A pattern with the capture for every star. */
  function Substituted(pattern: string, capture: string): string {
    Join(Split(pattern), capture)
  }

  function Total(parts: seq<string>): nat {
    if parts == [] then 0 else |parts[0]| + Total(parts[1..])
  }

  lemma {:induction false} JoinLength(parts: seq<string>, between: string)
    requires parts != []
    ensures |Join(parts, between)| == Total(parts) + (|parts| - 1) * |between|
    decreases |parts|
  {
    if |parts| > 1 {
      JoinLength(parts[1..], between);
      assert (|parts| - 1) * |between| == (|parts| - 2) * |between| + |between|;
    }
  }

  lemma DivideExact(count: nat, width: nat)
    requires count > 0
    ensures (count * width) / count == width && (count * width) % count == 0
  {
    var q, r := (count * width) / count, (count * width) % count;
    assert count * width == count * q + r;
    assert count * (width - q) == r && count * (q - width) == -r;
    if width > q {
      Grows(count, width - q);
    } else if width < q {
      Grows(count, q - width);
    }
  }

  lemma Grows(a: nat, b: nat)
    requires b > 0
    ensures a * b >= a
  {
    assert a * b == a * (b - 1) + a;
  }

  /** What one capture must be, from lengths alone: the only one that can give the text. */
  lemma CaptureIsForced(parts: seq<string>, text: string, capture: string)
    requires |parts| > 1 && Join(parts, capture) == text
    ensures var size := |text| - Total(parts);
      && size >= 0 && size % (|parts| - 1) == 0
      && |parts[0]| + size / (|parts| - 1) <= |text|
      && capture == text[|parts[0]|..|parts[0]| + size / (|parts| - 1)]
  {
    JoinLength(parts, capture);
    DivideExact(|parts| - 1, |capture|);
  }

  lemma {:induction false} SplitStars(s: string)
    ensures Total(Split(s)) + |Split(s)| - 1 == |s|
    ensures Split(s)[0] <= s && '*' !in Split(s)[0]
    ensures |Split(s)| > 1 ==> |Split(s)[0]| < |s| && s[|Split(s)[0]|] == '*'
    ensures |Split(s)| == 1 ==> Split(s) == [s]
  {
    if s != "" {
      SplitStars(s[1..]);
      var rest := Split(s[1..]);
      if s[0] != '*' {
        assert Split(s)[1..] == rest[1..];
        assert s == [s[0]] + s[1..];
      } else {
        assert Split(s)[1..] == rest;
      }
    }
  }

  /** The first star, and how many there are. */
  method CountStars(pattern: string) returns (stars: nat, first: nat)
    ensures stars == |Split(pattern)| - 1 && first == |Split(pattern)[0]|
  {
    stars := 0;
    first := |pattern|;
    var i := |pattern|;
    while i > 0
      invariant 0 <= i <= |pattern|
      invariant stars == |Split(pattern[i..])| - 1 && first == i + |Split(pattern[i..])[0]|
    {
      i := i - 1;
      assert pattern[i..][1..] == pattern[i + 1..];
      if pattern[i] == '*' {
        stars := stars + 1;
        first := i;
      }
    }
    assert pattern[0..] == pattern;
  }

  /** True exactly when one capture for every star gives the file; with a star, at most one capture does. */
  method MatchesExportOutput(pattern: string, file: string) returns (matches: bool)
    ensures matches <==> exists capture :: Substituted(pattern, capture) == file
  {
    var stars, start := CountStars(pattern);
    SplitStars(pattern);
    if stars == 0 {
      assert Substituted(pattern, "") == pattern;
      return pattern == file;
    }
    var fixed := |pattern| - stars;
    var width := |file| - fixed;
    forall capture | Substituted(pattern, capture) == file
      ensures width >= 0 && width % stars == 0 && start + width / stars <= |file|
      ensures capture == file[start..start + width / stars]
    {
      CaptureIsForced(Split(pattern), file, capture);
    }
    if width < 0 || width % stars != 0 {
      return false;
    }
    QuotientFits(width, stars);
    var capture := file[start..start + width / stars];
    return Substituted(pattern, capture) == file;
  }

  lemma QuotientFits(width: nat, count: nat)
    requires count > 0
    ensures 0 <= width / count <= width
  {
    var q := width / count;
    assert width == count * q + width % count;
    if q > 0 {
      Grows(q, count);
      assert q * count == count * q;
    }
  }

  lemma CaptureIsUnique(pattern: string, a: string, b: string)
    requires '*' in pattern && Substituted(pattern, a) == Substituted(pattern, b)
    ensures a == b
  {
    SplitStars(pattern);
    CaptureIsForced(Split(pattern), Substituted(pattern, a), a);
    CaptureIsForced(Split(pattern), Substituted(pattern, a), b);
  }

  // ---- Percent encoding, after section 2.1 of RFC 3986 ----

  /** The bytes a URL path keeps as they are. */
  predicate SafeInPath(c: char) {
    'a' <= c <= 'z' || 'A' <= c <= 'Z' || '0' <= c <= '9' || c in "-_.~$&+,/:;=@"
  }

  function HexDigit(n: nat): (c: char)
    requires n < 16
    ensures HexValue(c) == Some(n) && SafeInPath(c)
  {
    if n < 10 then '0' + n as char else 'A' + (n - 10) as char
  }

  function HexValue(c: char): (v: Option<nat>)
    ensures v.Some? ==> v.value < 16
  {
    if '0' <= c <= '9' then Some((c - '0') as nat)
    else if 'a' <= c <= 'f' then Some((c - 'a') as nat + 10)
    else if 'A' <= c <= 'F' then Some((c - 'A') as nat + 10)
    else None
  }

  predicate Bytes(s: string) {
    forall i :: 0 <= i < |s| ==> s[i] as int < 256
  }

  /** A path as a URL writes it, stars too. */
  function Escaped(path: string): string {
    if path == "" then ""
    else
      (if SafeInPath(path[0]) then [path[0]]
       else ['%', HexDigit(path[0] as int / 16 % 16), HexDigit(path[0] as int % 16)]) + Escaped(path[1..])
  }

  /** A percent-encoded path read back; None is a malformed escape. */
  function Unescaped(s: string): Option<string> {
    if s == "" then Some("")
    else if s[0] != '%' then
      var rest := Unescaped(s[1..]);
      if rest.None? then None else Some([s[0]] + rest.value)
    else if |s| < 3 || HexValue(s[1]).None? || HexValue(s[2]).None? then None
    else
      var rest := Unescaped(s[3..]);
      if rest.None? then None else Some([(HexValue(s[1]).value * 16 + HexValue(s[2]).value) as char] + rest.value)
  }

  lemma UnescapedByte(c: char, rest: string)
    requires c as int < 256 && Unescaped(rest).Some?
    ensures var hex := ['%', HexDigit(c as int / 16 % 16), HexDigit(c as int % 16)];
      Unescaped(hex + rest) == Some([c] + Unescaped(rest).value)
  {
    var hex := ['%', HexDigit(c as int / 16 % 16), HexDigit(c as int % 16)];
    assert (hex + rest)[3..] == rest;
  }

  lemma {:induction false} UnescapedEscaped(path: string)
    requires Bytes(path)
    ensures Unescaped(Escaped(path)) == Some(path)
  {
    if path != "" {
      UnescapedEscaped(path[1..]);
      assert path == [path[0]] + path[1..];
      if SafeInPath(path[0]) {
        assert Escaped(path)[1..] == Escaped(path[1..]);
      } else {
        UnescapedByte(path[0], Escaped(path[1..]));
      }
    }
  }

  /** What an escaped path holds: no star, and nothing that ends a URL's path. */
  lemma {:induction false} EscapedIsPlain(path: string)
    ensures forall c :: c in Escaped(path) ==> c != '*' && c != '?' && c != '#'
  {
    if path != "" {
      EscapedIsPlain(path[1..]);
    }
  }

  // ---- Package targets ----

  datatype ParsedTarget = ParsedTarget(parts: seq<string>, suffix: string, url: bool)

  datatype Parsing = Local(target: ParsedTarget) | Foreign | Malformed

  /** Targets under exports and imports are URLs. */
  predicate IsUrl(pointer: string) {
    pointer == "/exports" || "/exports/" <= pointer || pointer == "/imports" || "/imports/" <= pointer
  }

  /** Where a URL's path ends and its query or fragment begins. */
  function PathEnd(s: string): (end: nat)
    ensures end <= |s|
  {
    if s == "" || s[0] == '?' || s[0] == '#' then 0 else 1 + PathEnd(s[1..])
  }

  predicate HasEncodedSeparator(s: string) {
    exists i ::
      0 <= i < |s| - 2 && s[i] == '%'
      && ((s[i + 1] == '2' && s[i + 2] in "fF") || (s[i + 1] == '5' && s[i + 2] in "cC"))
  }

  function UnescapedAll(parts: seq<string>): (all: Option<seq<string>>)
    ensures all.Some? ==> |all.value| == |parts|
  {
    if parts == [] then Some([])
    else
      var first, rest := Unescaped(parts[0]), UnescapedAll(parts[1..]);
      if first.None? || rest.None? then None else Some([first.value] + rest.value)
  }

  function EscapedAll(parts: seq<string>): (all: seq<string>)
    ensures |all| == |parts|
  {
    if parts == [] then [] else [Escaped(parts[0])] + EscapedAll(parts[1..])
  }

  function ParseTarget(target: string, pointer: string): Parsing {
    if !IsUrl(pointer) then Local(ParsedTarget(Split(target), "", false))
    else if !("./" <= target) then Foreign
    else
      var end := PathEnd(target);
      if HasEncodedSeparator(target[..end]) then Malformed
      else
        var parts := UnescapedAll(Split(target[..end]));
        if parts.None? then Malformed else Local(ParsedTarget(parts.value, target[end..], true))
  }

  /** A file target has no stars: its identity is its cleaned path. */
  function Identity(p: ParsedTarget, clean: string -> string): ParsedTarget {
    if p.url then p
    else
      var path := clean(Join(p.parts, "*"));
      p.(parts := [if "/" <= path then path else "./" + path])
  }

  function WithParts(p: ParsedTarget, parts: seq<string>): string {
    if p.url then Join(EscapedAll(parts), "*") + p.suffix else Join(parts, "*")
  }

  /** The parts a URL target's reader decodes. */
  function ReadParts(target: string): Option<seq<string>> {
    UnescapedAll(Split(target[..PathEnd(target)]))
  }

  lemma {:induction false} SplitJoin(parts: seq<string>)
    requires parts != [] && forall p :: p in parts ==> '*' !in p
    ensures Split(Join(parts, "*")) == parts
    decreases |parts|
  {
    if |parts| > 1 {
      var rest := parts[1..];
      SplitJoin(rest);
      SplitAfter(parts[0], "*" + Join(rest, "*"));
      assert parts[0] + "*" + Join(rest, "*") == parts[0] + ("*" + Join(rest, "*"));
      assert ("*" + Join(rest, "*"))[1..] == Join(rest, "*");
      assert Split("*" + Join(rest, "*")) == [""] + rest && ([""] + rest)[1..] == rest;
      assert parts[0] + "" == parts[0];
      assert parts == [parts[0]] + rest;
    } else {
      SplitAfter(parts[0], "");
      assert parts[0] + "" == parts[0];
    }
  }

  lemma {:induction false} SplitAfter(first: string, tail: string)
    requires '*' !in first
    ensures Split(first + tail) == [first + Split(tail)[0]] + Split(tail)[1..]
    decreases |first|
  {
    if first == "" {
      assert first + tail == tail;
      assert first + Split(tail)[0] == Split(tail)[0] && Split(tail) == [Split(tail)[0]] + Split(tail)[1..];
    } else {
      assert first[0] in first;
      assert (first + tail)[1..] == first[1..] + tail;
      SplitAfter(first[1..], tail);
      assert [first[0]] + (first[1..] + Split(tail)[0]) == first + Split(tail)[0];
    }
  }

  lemma {:induction false} PathEndJoin(path: string, suffix: string)
    requires '?' !in path && '#' !in path && (suffix == "" || suffix[0] == '?' || suffix[0] == '#')
    ensures PathEnd(path + suffix) == |path|
    decreases |path|
  {
    if path == "" {
      assert path + suffix == suffix;
    } else {
      assert path[0] in path;
      assert (path + suffix)[1..] == path[1..] + suffix;
      PathEndJoin(path[1..], suffix);
    }
  }

  lemma {:induction false} PathEndSuffix(s: string)
    ensures s[PathEnd(s)..] == "" || s[PathEnd(s)] == '?' || s[PathEnd(s)] == '#'
  {
    if s != "" && s[0] != '?' && s[0] != '#' {
      PathEndSuffix(s[1..]);
      assert s[PathEnd(s)..] == s[1..][PathEnd(s[1..])..];
    }
  }

  ghost predicate AllBytes(parts: seq<string>) {
    forall p :: p in parts ==> Bytes(p)
  }

  lemma {:induction false} EscapedAllRead(parts: seq<string>)
    requires AllBytes(parts)
    ensures UnescapedAll(EscapedAll(parts)) == Some(parts)
    ensures forall p :: p in EscapedAll(parts) ==> '*' !in p
    ensures '?' !in Join(EscapedAll(parts), "*") && '#' !in Join(EscapedAll(parts), "*")
    decreases |parts|
  {
    if parts != [] {
      UnescapedEscaped(parts[0]);
      EscapedIsPlain(parts[0]);
      EscapedAllRead(parts[1..]);
      assert EscapedAll(parts)[1..] == EscapedAll(parts[1..]);
      assert parts == [parts[0]] + parts[1..];
    }
  }

  /** Writing parts as a URL target and reading them back. */
  lemma WithPartsRead(p: ParsedTarget, parts: seq<string>)
    requires p.url && parts != [] && AllBytes(parts) && (p.suffix == "" || p.suffix[0] == '?' || p.suffix[0] == '#')
    ensures ReadParts(WithParts(p, parts)) == Some(parts)
  {
    var path := Join(EscapedAll(parts), "*");
    EscapedAllRead(parts);
    PathEndJoin(path, p.suffix);
    assert (path + p.suffix)[..|path|] == path;
    SplitJoin(EscapedAll(parts));
  }

  lemma {:induction false} JoinBytes(parts: seq<string>, between: string)
    requires Bytes(Join(parts, between))
    ensures AllBytes(parts)
    decreases |parts|
  {
    if |parts| > 1 {
      var joined := Join(parts, between);
      var n := |parts[0]| + |between|;
      assert joined[n..] == Join(parts[1..], between);
      JoinBytes(parts[1..], between);
      assert forall i :: 0 <= i < |parts[0]| ==> joined[i] == parts[0][i];
      assert parts == [parts[0]] + parts[1..];
    }
  }

  // ---- Projecting a target onto runtime modules ----

  datatype Pair = Pair(source: string, runtime: string)

  const DECLARATION_SUFFIXES := [".d.ts", ".d.mts", ".d.cts"]

  predicate HasSuffix(s: string, suffix: string) {
    |suffix| <= |s| && s[|s| - |suffix|..] == suffix
  }

  function TrimSuffix(s: string, suffix: string): string {
    if HasSuffix(s, suffix) then s[..|s| - |suffix|] else s
  }

  function TrimPrefix(s: string, prefix: string): string {
    if prefix <= s then s[|prefix|..] else s
  }

  function Ext(path: string): string {
    if path == "" || path[|path| - 1] == '/' then ""
    else if path[|path| - 1] == '.' then "."
    else
      var before := Ext(path[..|path| - 1]);
      if before == "" then "" else before + [path[|path| - 1]]
  }

  function ExtensionOf(path: string, suffixes: seq<string>): string {
    if suffixes == [] then Ext(path)
    else if HasSuffix(path, suffixes[|suffixes| - 1]) then suffixes[|suffixes| - 1]
    else ExtensionOf(path, suffixes[..|suffixes| - 1])
  }

  /** The pattern's parts moved from the source's directory and extension to the runtime's. */
  function Moved(parts: seq<string>, pair: Pair): (moved: seq<string>)
    requires |parts| > 1
    ensures |moved| == |parts|
  {
    var from, to := ExtensionOf(pair.source, DECLARATION_SUFFIXES), ExtensionOf(pair.runtime, DECLARATION_SUFFIXES);
    var sourceStem, runtimeStem := TrimPrefix(TrimSuffix(pair.source, from), "./"), TrimSuffix(pair.runtime, to);
    var n := |parts| - 1;
    var placed := if HasSuffix(runtimeStem, sourceStem)
                     then parts[0 := TrimSuffix(runtimeStem, sourceStem) + TrimPrefix(parts[0], "./")] else parts;
    placed[n := TrimSuffix(placed[n], from) + to]
  }

  ghost predicate Fits(parts: seq<string>, pair: Pair) {
    exists capture :: Join(parts, capture) == pair.source
  }

  /** The parts a target takes for a pair: the runtime module itself, or the pattern moved to it. */
  function PartsFor(parts: seq<string>, pair: Pair): (r: seq<string>)
    requires parts != []
    ensures |r| == |parts|
  {
    if |parts| == 1 then [pair.runtime] else if pair.source != pair.runtime then Moved(parts, pair) else parts
  }

  /** Those parts give the runtime module under the source's capture. */
  ghost predicate Represents(parts: seq<string>, pair: Pair)
    requires parts != []
  {
    forall capture :: Join(parts, capture) == pair.source ==> Join(PartsFor(parts, pair), capture) == pair.runtime
  }

  /** The target a pair asks for. */
  function TargetFor(p: ParsedTarget, local: string, pair: Pair): string
    requires p.parts != []
  {
    if pair.source != pair.runtime then WithParts(p, PartsFor(p.parts, pair)) else local
  }

  ghost predicate Forced(parts: seq<string>, text: string, capture: string) {
    Join(parts, capture) == text && forall c :: Join(parts, c) == text && |parts| > 1 ==> c == capture
  }

  /** The one capture that gives a text, when one does. */
  method CaptureOf(parts: seq<string>, text: string) returns (capture: Option<string>)
    requires |parts| > 1
    ensures capture.Some? ==> Forced(parts, text, capture.value)
    ensures capture.None? ==> forall c :: Join(parts, c) != text
  {
    var count, size := |parts| - 1, |text| - Total(parts);
    forall c | Join(parts, c) == text
      ensures size >= 0 && size % count == 0 && |parts[0]| + size / count <= |text|
      ensures c == text[|parts[0]|..|parts[0]| + size / count]
    {
      CaptureIsForced(parts, text, c);
    }
    if size < 0 || size % count != 0 || |parts[0]| + size / count > |text| {
      return None;
    }
    var found := text[|parts[0]|..|parts[0]| + size / count];
    return if Join(parts, found) == text then Some(found) else None;
  }

  /** The capture a source needs, if any fits, and the parts that then give its runtime module. */
  method Candidate(parts: seq<string>, pair: Pair) returns (capture: Option<string>, candidate: Option<seq<string>>)
    requires parts != []
    ensures capture.Some? <==> Fits(parts, pair)
    ensures capture.Some? ==> Forced(parts, pair.source, capture.value)
    ensures capture.Some? ==>
      (candidate.Some? <==> Represents(parts, pair)) && (candidate.Some? ==> candidate.value == PartsFor(parts, pair))
    ensures capture.Some? && candidate.Some? ==>
      |candidate.value| == |parts| && Join(candidate.value, capture.value) == pair.runtime
  {
    if |parts| == 1 {
      if parts[0] != pair.source {
        return None, None;
      }
      assert Join(parts, "") == pair.source;
      return Some(""), Some([pair.runtime]);
    }
    capture := CaptureOf(parts, pair.source);
    if capture.None? {
      return None, None;
    }
    assert Join(parts, capture.value) == pair.source;
    var moved := if pair.source != pair.runtime then Moved(parts, pair) else parts;
    candidate := if Join(moved, capture.value) == pair.runtime then Some(moved) else None;
  }

  datatype Projection = Projected(target: string, constrained: bool) | Unreadable | Unrepresentable

  predicate IsBare(target: string, pointer: string) {
    && (pointer == "/main" || pointer == "/module" || pointer == "/browser" || "/browser/" <= pointer)
    && !("." <= target) && !("/" <= target)
  }

  /** A target read as a pattern gives each pair's runtime module where it gave its source. */
  ghost predicate ReadsAs(p: ParsedTarget, local: string, out: string, pair: Pair) {
    if p.url then
      var parts := ReadParts(out);
      && parts.Some? && |parts.value| == |p.parts|
      && forall c :: Join(p.parts, c) == pair.source ==> Join(parts.value, c) == pair.runtime
    else out == if pair.source != pair.runtime then pair.runtime else local
  }

  /** Every pair that fits can be represented, and all of them ask for one target. */
  ghost predicate Agreed(p: ParsedTarget, local: string, targets: seq<Pair>)
    requires p.parts != []
  {
    && (forall pair :: pair in targets && Fits(p.parts, pair) ==> Represents(p.parts, pair))
    && (forall a, b :: a in targets && b in targets && Fits(p.parts, a) && Fits(p.parts, b) ==>
          TargetFor(p, local, a) == TargetFor(p, local, b))
  }

  /** The pair, if it fits, can be represented and asks for this very target, which reads as its runtime module. */
  ghost predicate AsksFor(p: ParsedTarget, local: string, to: string, pair: Pair)
    requires p.parts != []
  {
    var asks := Fits(p.parts, pair) ==>
      Represents(p.parts, pair) && TargetFor(p, local, pair) == to && ReadsAs(p, local, to, pair);
    asks
  }

  ghost predicate SomeFits(parts: seq<string>, targets: seq<Pair>) {
    exists pair :: pair in targets && Fits(parts, pair)
  }

  /** One more pair that fits makes any earlier answer final, or shows that the pairs do not agree. */
  lemma AsksMore(p: ParsedTarget, local: string, targets: seq<Pair>, i: nat, to: string, next: string)
    requires p.parts != [] && i < |targets| && forall pair :: pair in targets[..i] ==> AsksFor(p, local, to, pair)
    requires Fits(p.parts, targets[i]) && AsksFor(p, local, next, targets[i])
    ensures !SomeFits(p.parts, targets[..i]) || to == next ==>
              forall pair :: pair in targets[..i + 1] ==> AsksFor(p, local, next, pair)
    ensures SomeFits(p.parts, targets[..i]) && to != next ==> !Agreed(p, local, targets)
  {
    assert targets[..i + 1] == targets[..i] + [targets[i]];
    if SomeFits(p.parts, targets[..i]) && to != next {
      var pair :| pair in targets[..i] && Fits(p.parts, pair);
      assert AsksFor(p, local, to, pair);
      assert pair in targets && targets[i] in targets;
    }
  }

  lemma AllAskAgrees(p: ParsedTarget, local: string, targets: seq<Pair>, to: string)
    requires p.parts != [] && forall pair :: pair in targets ==> AsksFor(p, local, to, pair)
    ensures Agreed(p, local, targets)
    ensures forall pair :: pair in targets && Fits(p.parts, pair) ==>
              TargetFor(p, local, pair) == to && ReadsAs(p, local, to, pair)
  {
    forall pair | pair in targets && Fits(p.parts, pair)
      ensures Represents(p.parts, pair) && TargetFor(p, local, pair) == to && ReadsAs(p, local, to, pair)
    {
      assert AsksFor(p, local, to, pair);
    }
  }

  /** What one pair asks for, if it fits and can be represented. */
  method Asked(p: ParsedTarget, local: string, pair: Pair) returns (fits: bool, asked: Option<string>)
    requires p.parts != [] && Bytes(pair.runtime)
    requires p.url ==> ReadParts(local) == Some(p.parts) && (p.suffix == "" || p.suffix[0] == '?' || p.suffix[0] == '#')
    requires !p.url ==> |p.parts| == 1
    ensures fits <==> Fits(p.parts, pair)
    ensures fits ==> (asked.Some? <==> Represents(p.parts, pair))
    ensures asked.Some? ==> AsksFor(p, local, asked.value, pair)
  {
    var capture, parts := Candidate(p.parts, pair);
    if capture.None? || parts.None? {
      return capture.Some?, None;
    }
    var candidate := if pair.source != pair.runtime then WithParts(p, parts.value) else local;
    CandidateReads(p, local, pair, capture.value, parts.value, candidate);
    return true, Some(candidate);
  }

  /** The target every pair that fits agrees on; None when two differ or one cannot be written. */
  method ProjectLocal(p: ParsedTarget, local: string, targets: seq<Pair>)
    returns (projected: Option<string>, constrained: bool)
    requires p.parts != [] && forall pair :: pair in targets ==> Bytes(pair.runtime)
    requires p.url ==> ReadParts(local) == Some(p.parts) && (p.suffix == "" || p.suffix[0] == '?' || p.suffix[0] == '#')
    requires !p.url ==> |p.parts| == 1
    ensures projected.Some? <==> Agreed(p, local, targets)
    ensures projected.Some? ==> (constrained <==> SomeFits(p.parts, targets))
    ensures projected.Some? ==> forall pair :: pair in targets && Fits(p.parts, pair) ==>
        TargetFor(p, local, pair) == projected.value && ReadsAs(p, local, projected.value, pair)
    ensures projected.Some? && !constrained ==> projected.value == local
  {
    var current := local;
    constrained := false;
    for i := 0 to |targets|
      invariant constrained <==> SomeFits(p.parts, targets[..i])
      invariant !constrained ==> current == local
      invariant forall pair :: pair in targets[..i] ==> AsksFor(p, local, current, pair)
    {
      var pair := targets[i];
      assert targets[..i + 1] == targets[..i] + [pair];
      var fits, asked := Asked(p, local, pair);
      if !fits {
        continue;
      }
      assert pair in targets;
      if asked.None? {
        return None, constrained;
      }
      AsksMore(p, local, targets, i, current, asked.value);
      if constrained && asked.value != current {
        return None, constrained;
      }
      current, constrained := asked.value, true;
    }
    assert targets[..|targets|] == targets;
    AllAskAgrees(p, local, targets, current);
    projected := Some(current);
  }

  lemma BareIsNoUrl(target: string, pointer: string)
    requires IsBare(target, pointer)
    ensures !IsUrl(pointer)
  {
    assert pointer[1] == 'm' || pointer[1] == 'b';
    assert "/exports/"[1] == 'e' && "/imports/"[1] == 'i' && "/exports"[1] == 'e' && "/imports"[1] == 'i';
  }

  lemma ParsedReads(local: string, pointer: string)
    requires ParseTarget(local, pointer).Local?
    ensures var p := ParseTarget(local, pointer).target;
      p.parts != [] && p.url == IsUrl(pointer)
      && (p.url ==> ReadParts(local) == Some(p.parts) && (p.suffix == "" || p.suffix[0] == '?' || p.suffix[0] == '#'))
  {
    PathEndSuffix(local);
  }

  /**
   * Rewrites a target so that it gives the runtime module wherever it gave a source: on success the
   * pattern, decoded, gives each such pair's runtime module under the source's own capture.
   */
  method ProjectManifestTarget(target: string, pointer: string, targets: seq<Pair>, clean: string -> string)
    returns (result: Projection)
    requires forall pair :: pair in targets ==> Bytes(pair.runtime)
    ensures var local := Localized(target, pointer);
            ProjectionOf(ParseTarget(local, pointer), target, local, targets, clean, result)
    ensures IsBare(target, pointer) && result.Projected? ==> var local := "./" + target;
      forall pair :: pair in targets && Fits(Identity(ParseTarget(local, pointer).target, clean).parts, pair) ==>
        result.target == TrimPrefix(if pair.source != pair.runtime then pair.runtime else local, "./")
    ensures !IsBare(target, pointer) && result.Projected? && ParseTarget(target, pointer).Local? ==>
      var p := Identity(ParseTarget(target, pointer).target, clean);
      forall pair :: pair in targets && Fits(p.parts, pair) ==> ReadsAs(p, target, result.target, pair)
  {
    var bare := IsBare(target, pointer);
    var local := Localized(target, pointer);
    var parsing := ParseTarget(local, pointer);
    if bare {
      BareIsNoUrl(target, pointer);
    }
    if parsing.Malformed? {
      return Unreadable;
    }
    if parsing.Foreign? {
      return Projected(local, false);
    }
    ParsedReads(local, pointer);
    var p := Identity(parsing.target, clean);
    var projected, constrained := ProjectLocal(p, local, targets);
    if projected.None? {
      return Unrepresentable;
    }
    result := Projected(if bare then TrimPrefix(projected.value, "./") else projected.value, constrained);
    assert bare ==> TrimPrefix(local, "./") == target;
  }

  /** A bare file name under a main field is relative to the package. */
  function Localized(target: string, pointer: string): string {
    if IsBare(target, pointer) then "./" + target else target
  }

  /**
   * Which outcome a target has: unreadable or foreign by its form; projected exactly when the pairs that
   * fit agree, constrained by them if there are any, otherwise unchanged.
   */
  ghost predicate ProjectionOf(parsing: Parsing, target: string, local: string, targets: seq<Pair>,
                               clean: string -> string, result: Projection)
  {
    match parsing
    case Malformed => result == Unreadable
    case Foreign => result == Projected(local, false)
    case Local(parsed) =>
      var p := Identity(parsed, clean);
      var some := SomeFits(p.parts, targets);
      match result
      case Projected(to, constrained) => p.parts != [] && Agreed(p, local, targets) && (constrained <==> some)
                                         && (!some ==> to == target)
      case Unrepresentable => p.parts != [] && !Agreed(p, local, targets)
      case Unreadable => false
  }

  lemma CandidateReads(p: ParsedTarget, local: string, pair: Pair, capture: string, parts: seq<string>,
                       candidate: string)
    requires Bytes(pair.runtime) && |parts| == |p.parts| > 0
    requires p.url ==> ReadParts(local) == Some(p.parts) && (p.suffix == "" || p.suffix[0] == '?' || p.suffix[0] == '#')
    requires !p.url ==> |p.parts| == 1
    requires Forced(p.parts, pair.source, capture) && Join(parts, capture) == pair.runtime
    requires candidate == if pair.source != pair.runtime then WithParts(p, parts) else local
    ensures ReadsAs(p, local, candidate, pair)
  {
    if p.url && pair.source != pair.runtime {
      JoinBytes(parts, capture);
      WithPartsRead(p, parts);
    }
  }
}
