/**
 * The package.json copier: a transducer over decoder tokens that keeps its own frame stack, and the
 * recursive copy of the document it comes to. Output is lexemes, so quoting a string is one step.
 */
module Manifest {
  import opened Wrappers

  // ---- Documents ----

  datatype Value = Str(text: string) | Num(literal: string) | Flag(value: bool) | Null | Arr(items: Values)
    | Obj(members: Members)

  datatype Values = NoValues | Item(first: Value, others: Values)

  datatype Members = NoMembers | Member(key: string, value: Value, rest: Members)

  /** What the decoder yields: separators are checked and dropped. */
  datatype Token = Text(text: string) | Number(literal: string) | Bool(value: bool) | Nil | Open(isObject: bool)
    | Close(isObject: bool)

  datatype Lexeme = Tok(token: Token) | Comma | Colon

  function Tokens(v: Value): seq<Token> {
    match v
    case Str(s) => [Text(s)]
    case Num(n) => [Number(n)]
    case Flag(b) => [Bool(b)]
    case Null => [Nil]
    case Arr(items) => [Open(false)] + ItemTokens(items) + [Close(false)]
    case Obj(members) => [Open(true)] + MemberTokens(members) + [Close(true)]
  }

  function ItemTokens(items: Values): seq<Token> {
    match items
    case NoValues => []
    case Item(v, rest) => Tokens(v) + ItemTokens(rest)
  }

  function MemberTokens(members: Members): seq<Token> {
    match members
    case NoMembers => []
    case Member(k, v, rest) => [Text(k)] + Tokens(v) + MemberTokens(rest)
  }

  /** A document's text, after section 2 of RFC 8259: commas between elements, a colon after each name. */
  function Printed(v: Value): seq<Lexeme> {
    match v
    case Arr(items) => [Tok(Open(false))] + PrintedItems(items, 0) + [Tok(Close(false))]
    case Obj(members) => [Tok(Open(true))] + PrintedMembers(members, 0) + [Tok(Close(true))]
    case _ => [Tok(Tokens(v)[0])]
  }

  function Separator(count: nat): seq<Lexeme> {
    if count > 0 then [Comma] else []
  }

  function PrintedItems(items: Values, count: nat): seq<Lexeme> {
    match items
    case NoValues => []
    case Item(v, rest) => Separator(count) + Printed(v) + PrintedItems(rest, count + 1)
  }

  function PrintedMembers(members: Members, count: nat): seq<Lexeme> {
    match members
    case NoMembers => []
    case Member(k, v, rest) => Separator(count) + [Tok(Text(k)), Colon] + Printed(v) + PrintedMembers(rest, count + 1)
  }

  /** The tokens a decoder reads back from lexemes. */
  function Read(out: seq<Lexeme>): seq<Token> {
    if out == [] then [] else ReadOne(out[0]) + Read(out[1..])
  }

  function ReadOne(lexeme: Lexeme): seq<Token> {
    if lexeme.Tok? then [lexeme.token] else []
  }

  lemma {:induction false} ReadJoin(a: seq<Lexeme>, b: seq<Lexeme>)
    ensures Read(a + b) == Read(a) + Read(b)
    decreases |a|
  {
    if a == [] {
      assert a + b == b;
    } else {
      assert (a + b)[1..] == a[1..] + b;
      ReadJoin(a[1..], b);
      assert ReadOne(a[0]) + (Read(a[1..]) + Read(b)) == ReadOne(a[0]) + Read(a[1..]) + Read(b);
    }
  }

  lemma {:induction false} PrintedReads(v: Value)
    ensures Read(Printed(v)) == Tokens(v)
  {
    match v
    case Arr(items) =>
      PrintedItemsRead(items, 0);
      Enclosed(Open(false), PrintedItems(items, 0), Close(false));
    case Obj(members) =>
      PrintedMembersRead(members, 0);
      Enclosed(Open(true), PrintedMembers(members, 0), Close(true));
    case _ =>
  }

  lemma Enclosed(open: Token, out: seq<Lexeme>, close: Token)
    ensures Read([Tok(open)] + out + [Tok(close)]) == [open] + Read(out) + [close]
  {
    ReadJoin([Tok(open)] + out, [Tok(close)]);
    ReadJoin([Tok(open)], out);
  }

  lemma {:induction false} PrintedItemsRead(items: Values, count: nat)
    ensures Read(PrintedItems(items, count)) == ItemTokens(items)
    decreases items
  {
    if items.Item? {
      PrintedReads(items.first);
      PrintedItemsRead(items.others, count + 1);
      ReadJoin(Separator(count) + Printed(items.first), PrintedItems(items.others, count + 1));
      ReadJoin(Separator(count), Printed(items.first));
    }
  }

  lemma {:induction false} PrintedMembersRead(members: Members, count: nat)
    ensures Read(PrintedMembers(members, count)) == MemberTokens(members)
    decreases members
  {
    if members.Member? {
      var name := [Tok(Text(members.key)), Colon];
      PrintedReads(members.value);
      PrintedMembersRead(members.rest, count + 1);
      ReadJoin(Separator(count) + name + Printed(members.value), PrintedMembers(members.rest, count + 1));
      ReadJoin(Separator(count) + name, Printed(members.value));
      ReadJoin(Separator(count), name);
      assert name[1..][1..] == [];
    }
  }

  // ---- Roles and pointers ----

  const BROWSER := "browser"
  const BROWSER_POINTER := "/" + BROWSER

  datatype Role = Root | Js | Dts | Keep

  /** What a value below this one is, by the key that leads to it. */
  function ChildRole(role: Role, key: string): Role {
    if role.Root? then
      if key in {"main", "module", "browser", "exports", "imports"} then Js
      else if key in {"types", "typings"} then Dts
      else Keep
    else if role.Js? && key == "types" then Dts
    else role
  }

  /** A key as a reference token: ~ then / escaped, after section 3 of RFC 6901. */
  function Escape(key: string): string {
    if key == "" then ""
    else (if key[0] == '~' then "~0" else if key[0] == '/' then "~1" else [key[0]]) + Escape(key[1..])
  }

  function Decimal(n: nat): (text: string)
    ensures text != "" && forall c :: c in text ==> '0' <= c <= '9'
  {
    var digit := ['0' + (n % 10) as char];
    if n < 10 then digit else Decimal(n / 10) + digit
  }

  // ---- The recursive copy ----

  /** Maps a string, given its role, its pointer, and whether it is a browser key; None is an error. */
  type Transform = (string, Role, string, bool) -> Option<string>

  /** One call of the walk's visitor. */
  datatype Visit = Visit(token: Token, pointer: string, key: bool)

  datatype Copy<T> = Copy(to: T, visits: seq<Visit>)

  predicate IsFileKey(key: string) {
    "./" <= key || "../" <= key
  }

  /** A browser map's file keys are targets; two keys may not come to one. */
  function CopiedKey(f: Transform, key: string, path: string, taken: set<string>): Option<string> {
    if path != BROWSER_POINTER then Some(key)
    else
      var mapped := if IsFileKey(key) then f(key, Js, path, true) else Some(key);
      if mapped.Some? && mapped.value in taken then None else mapped
  }

  function Taken(path: string, taken: set<string>, key: string): set<string> {
    if path == BROWSER_POINTER then taken + {key} else taken
  }

  function Copied(f: Transform, v: Value, role: Role, path: string): Option<Copy<Value>> {
    match v
    case Str(s) =>
      var mapped := f(s, role, path, false);
      if mapped.None? then None else Some(Copy(Str(mapped.value), [Visit(Text(s), path, false)]))
    case Arr(items) =>
      var copy := CopiedItems(f, items, role, path, 0);
      if copy.None? then None
      else Some(Copy(Arr(copy.value.to),
                     [Visit(Open(false), path, false)] + copy.value.visits + [Visit(Close(false), path, false)]))
    case Obj(members) =>
      var copy := CopiedMembers(f, members, role, path, {});
      if copy.None? then None
      else Some(Copy(Obj(copy.value.to),
                     [Visit(Open(true), path, false)] + copy.value.visits + [Visit(Close(true), path, false)]))
    case _ => Some(Copy(v, [Visit(Tokens(v)[0], path, false)]))
  }

  function CopiedItems(f: Transform, items: Values, role: Role, path: string, index: nat): Option<Copy<Values>> {
    match items
    case NoValues => Some(Copy(NoValues, []))
    case Item(v, rest) =>
      var first := Copied(f, v, role, path + "/" + Decimal(index));
      if first.None? then None
      else
        var others := CopiedItems(f, rest, role, path, index + 1);
        if others.None? then None
            else Some(Copy(Item(first.value.to, others.value.to), first.value.visits + others.value.visits))
  }

  function CopiedMembers(f: Transform, members: Members, role: Role, path: string,
                         taken: set<string>): Option<Copy<Members>>
  {
    match members
    case NoMembers => Some(Copy(NoMembers, []))
    case Member(k, v, rest) =>
      var key := CopiedKey(f, k, path, taken);
      if key.None? then None
      else
        var value := Copied(f, v, ChildRole(role, key.value), path + "/" + Escape(key.value));
        if value.None? then None
        else
          var others := CopiedMembers(f, rest, role, path, Taken(path, taken, key.value));
          if others.None? then None
          else Some(Copy(Member(key.value, value.value.to, others.value.to),
                         [Visit(Text(key.value), path, true)] + value.value.visits + others.value.visits))
  }

  // ---- The transducer ----

  datatype Frame = Frame(isObject: bool, role: Role, key: bool, count: nat, sawType: bool, path: string,
    valuePath: string, browserKeys: set<string>)

  datatype State = State(stack: seq<Frame>, role: Role, valuePath: string, out: seq<Lexeme>, visits: seq<Visit>,
    failed: bool)

  const START := State([], Root, "", [], [], false)

  function Top(st: State): Frame
    requires st.stack != []
  {
    st.stack[|st.stack| - 1]
  }

  function WithTop(st: State, top: Frame): State
    requires st.stack != []
  {
    st.(stack := st.stack[|st.stack| - 1 := top])
  }

  const TYPE_MODULE := [Tok(Text("type")), Colon, Tok(Text("module"))]

  function Closed(st: State, defaultModule: bool, token: Token): State
    requires st.stack != []
  {
    var top, below := Top(st), st.stack[..|st.stack| - 1];
    var added := if below == [] && !top.sawType && defaultModule then Separator(top.count) + TYPE_MODULE else [];
    var st' := st.(stack := below, out := st.out + added + [Tok(token)],
                   visits := st.visits + [Visit(token, top.path, false)]);
    if below == [] then st' else WithTop(st', Top(st').(key := Top(st').isObject))
  }

  function Keyed(f: Transform, st: State, text: string): State
    requires st.stack != []
  {
    var top := Top(st);
    var mapped := CopiedKey(f, text, top.path, top.browserKeys);
    if mapped.None? then st.(failed := true)
    else
      var key := mapped.value;
      var st' := st.(
        role := ChildRole(top.role, key),
        out := st.out + Separator(top.count) + [Tok(Text(key)), Colon],
        visits := st.visits + [Visit(Text(key), top.path, true)]);
      WithTop(st', top.(
        key := false, count := top.count + 1, valuePath := top.path + "/" + Escape(key),
        sawType := top.sawType || (|st.stack| == 1 && key == "type"),
        browserKeys := Taken(top.path, top.browserKeys, key)))
  }

  /** Where the next value goes: an array element gets its separator and pointer here, a member's came with its key. */
  function Placed(st: State): State {
    if st.stack == [] then st
    else
      var top := Top(st);
      if top.isObject then st.(valuePath := top.valuePath)
      else
        var path := top.path + "/" + Decimal(top.count);
        WithTop(st.(role := top.role, valuePath := path, out := st.out + Separator(top.count)),
                top.(count := top.count + 1, valuePath := path))
  }

  function Ended(st: State): State {
    if st.stack != [] && Top(st).isObject then WithTop(st, Top(st).(key := true)) else st
  }

  function Valued(f: Transform, before: State, token: Token): State {
    var placed := Placed(before);
    var st := placed.(visits := placed.visits + [Visit(token, placed.valuePath, false)]);
    match token
    case Open(isObject) =>
      st.(out := st.out + [Tok(token)],
          stack := st.stack + [Frame(isObject, st.role, isObject, 0, false, st.valuePath, "", {})])
    case Text(text) =>
      var mapped := f(text, st.role, st.valuePath, false);
      if mapped.None? then st.(failed := true) else Ended(st.(out := st.out + [Tok(Text(mapped.value))]))
    case _ => Ended(st.(out := st.out + [Tok(token)]))
  }

  /** One token. A key that is no string cannot come from the decoder. */
  function Next(f: Transform, defaultModule: bool, st: State, token: Token): State {
    if st.failed then st
    else if st.stack == [] && token != Open(true) then st.(failed := true)
    else if token.Close? then Closed(st, defaultModule, token)
    else if st.stack != [] && Top(st).key then (if token.Text? then Keyed(f, st, token.text) else st.(failed := true))
    else Valued(f, st, token)
  }

  function Run(f: Transform, defaultModule: bool, st: State, tokens: seq<Token>): State
    decreases |tokens|
  {
    if tokens == [] then st else Run(f, defaultModule, Next(f, defaultModule, st, tokens[0]), tokens[1..])
  }

  lemma {:induction false} RunJoin(f: Transform, dm: bool, st: State, a: seq<Token>, b: seq<Token>)
    ensures Run(f, dm, st, a + b) == Run(f, dm, Run(f, dm, st, a), b)
    decreases |a|
  {
    if a == [] {
      assert a + b == b;
    } else {
      assert (a + b)[1..] == a[1..] + b;
      RunJoin(f, dm, Next(f, dm, st, a[0]), a[1..], b);
    }
  }

  lemma {:induction false} FailedStays(f: Transform, dm: bool, st: State, tokens: seq<Token>)
    requires st.failed
    ensures Run(f, dm, st, tokens) == st
    decreases |tokens|
  {
    if tokens != [] {
      FailedStays(f, dm, st, tokens[1..]);
    }
  }

  // ---- The transducer comes to the recursive copy ----

  /** The run left frame on the same stack, and wrote and visited this much. */
  ghost predicate Went(from: State, to: State, frame: Frame, out: seq<Lexeme>, visits: seq<Visit>)
    requires from.stack != []
  {
    var went := !to.failed && to.stack == from.stack[..|from.stack| - 1] + [frame] && to.out == from.out + out
                && to.visits == from.visits + visits;
    went
  }

  function Size(members: Members): nat {
    if members.Member? then 1 + Size(members.rest) else 0
  }

  function Length(items: Values): nat {
    if items.Item? then 1 + Length(items.others) else 0
  }

  predicate HasKey(members: Members, key: string) {
    members.Member? && (members.key == key || HasKey(members.rest, key))
  }

  lemma WentThrough(a: State, b: State, c: State, out: seq<Lexeme>, visits: seq<Visit>, out': seq<Lexeme>,
                    visits': seq<Visit>)
    requires a.stack != [] && b.stack != [] && c.stack != [] && Went(a, b, Top(b), out, visits)
    requires Went(b, c, Top(c), out', visits')
    ensures Went(a, c, Top(c), out + out', visits + visits')
  {
    assert b.stack[..|b.stack| - 1] == a.stack[..|a.stack| - 1];
    assert a.out + out + out' == a.out + (out + out');
    assert a.visits + visits + visits' == a.visits + (visits + visits');
  }

  /** Closing what was opened at a placed value. */
  lemma WentAround(p: State, dm: bool, inner: State, end: State, isObject: bool, out: seq<Lexeme>, visits: seq<Visit>)
    requires !p.failed && p.stack != [] && !Top(p).key
    requires inner == p.(visits := p.visits + [Visit(Open(isObject), p.valuePath, false)],
                         out := p.out + [Tok(Open(isObject))], stack := inner.stack)
    requires inner.stack != [] && inner.stack[..|inner.stack| - 1] == p.stack && Top(inner).path == p.valuePath
    requires end.stack != [] && Went(inner, end, Top(end), out, visits) && Top(end).path == p.valuePath
    ensures Went(p, Closed(end, dm, Close(isObject)), Top(Ended(p)),
                 [Tok(Open(isObject))] + out + [Tok(Close(isObject))],
              [Visit(Open(isObject), p.valuePath, false)] + visits + [Visit(Close(isObject), p.valuePath, false)])
  {
    assert end.stack[..|end.stack| - 1] == p.stack;
    var open, close := Tok(Open(isObject)), Tok(Close(isObject));
    assert p.out + [open] + out + [] + [close] == p.out + ([open] + out + [close]);
    var first, last := Visit(Open(isObject), p.valuePath, false), Visit(Close(isObject), p.valuePath, false);
    assert p.visits + [first] + visits + [last] == p.visits + ([first] + visits + [last]);
    assert Ended(p).stack == p.stack[..|p.stack| - 1] + [Top(Ended(p))];
  }

  /** A value's run from where it was placed. */
  ghost predicate RunsValue(f: Transform, dm: bool, st: State, v: Value, end: State)
    requires st.stack != []
  {
    var p := Placed(st);
    var copy := Copied(f, v, p.role, p.valuePath);
    var runs := if copy.None? then end.failed
                else end.stack != [] && Went(p, end, Top(end), Printed(copy.value.to), copy.value.visits)
                     && Top(end) == Top(Ended(p));
    runs
  }

  ghost predicate RunsItems(f: Transform, st: State, items: Values, end: State)
    requires st.stack != []
  {
    var top := Top(st);
    var copy := CopiedItems(f, items, top.role, top.path, top.count);
    var runs := if copy.None? then end.failed
                else end.stack != []
                     && Went(st, end, Top(end), PrintedItems(copy.value.to, top.count), copy.value.visits)
                     && Top(end).path == top.path;
    runs
  }

  ghost predicate RunsMembers(f: Transform, st: State, members: Members, end: State)
    requires st.stack != []
  {
    var top := Top(st);
    var copy := CopiedMembers(f, members, top.role, top.path, top.browserKeys);
    var runs := if copy.None? then end.failed
                else end.stack != []
                     && Went(st, end, Top(end), PrintedMembers(copy.value.to, top.count), copy.value.visits)
                     && Top(end).path == top.path && Top(end).count == top.count + Size(members)
                     && Top(end).sawType == (top.sawType || (|st.stack| == 1 && HasKey(copy.value.to, "type")));
    runs
  }

  lemma {:induction false} ValueRun(f: Transform, dm: bool, st: State, v: Value)
    requires !st.failed && st.stack != [] && !Top(st).key
    ensures RunsValue(f, dm, st, v, Run(f, dm, st, Tokens(v)))
    decreases v, 0
  {
    match v
    case Arr(items) => ArrayRun(f, dm, st, items);
    case Obj(members) => ObjectRun(f, dm, st, members);
    case _ => ScalarRun(f, dm, st, v);
  }

  lemma ScalarRun(f: Transform, dm: bool, st: State, v: Value)
    requires !st.failed && st.stack != [] && !Top(st).key && !v.Arr? && !v.Obj?
    ensures RunsValue(f, dm, st, v, Run(f, dm, st, Tokens(v)))
  {
    var p := Placed(st);
    assert Run(f, dm, st, Tokens(v)) == Next(f, dm, st, Tokens(v)[0]);
    assert Ended(p).stack == p.stack[..|p.stack| - 1] + [Top(Ended(p))];
  }

  /** A container's tokens: its opening, its contents, its closing. */
  lemma ContainerTokens(f: Transform, dm: bool, st: State, isObject: bool, contents: seq<Token>)
    requires !st.failed && st.stack != [] && !Top(st).key
    ensures Run(f, dm, st, [Open(isObject)] + contents + [Close(isObject)])
         == Next(f, dm, Run(f, dm, Next(f, dm, st, Open(isObject)), contents), Close(isObject))
    ensures var inner, p := Next(f, dm, st, Open(isObject)), Placed(st);
      && inner == p.(visits := p.visits + [Visit(Open(isObject), p.valuePath, false)],
                     out := p.out + [Tok(Open(isObject))], stack := inner.stack)
      && inner.stack == p.stack + [Frame(isObject, p.role, isObject, 0, false, p.valuePath, "", {})]
  {
    var inner := Next(f, dm, st, Open(isObject));
    RunJoin(f, dm, st, [Open(isObject)] + contents, [Close(isObject)]);
    RunJoin(f, dm, st, [Open(isObject)], contents);
    assert Run(f, dm, st, [Open(isObject)]) == inner;
    var end := Run(f, dm, inner, contents);
    assert Run(f, dm, end, [Close(isObject)]) == Next(f, dm, end, Close(isObject));
  }

  lemma {:induction false} ArrayRun(f: Transform, dm: bool, st: State, items: Values)
    requires !st.failed && st.stack != [] && !Top(st).key
    ensures RunsValue(f, dm, st, Arr(items), Run(f, dm, st, Tokens(Arr(items))))
    decreases items, 4
  {
    var p, st1 := Placed(st), Next(f, dm, st, Open(false));
    ContainerTokens(f, dm, st, false, ItemTokens(items));
    ItemsRun(f, dm, st1, items);
    var st2 := Run(f, dm, st1, ItemTokens(items));
    if !st2.failed {
      var copy := CopiedItems(f, items, p.role, p.valuePath, 0);
      WentAround(p, dm, st1, st2, false, PrintedItems(copy.value.to, 0), copy.value.visits);
    }
  }

  lemma {:induction false} ItemsRun(f: Transform, dm: bool, st: State, items: Values)
    requires !st.failed && st.stack != [] && !Top(st).key && !Top(st).isObject
    ensures RunsItems(f, st, items, Run(f, dm, st, ItemTokens(items)))
    decreases items, 3
  {
    if items.Item? {
      var st1 := Run(f, dm, st, Tokens(items.first));
      RunJoin(f, dm, st, Tokens(items.first), ItemTokens(items.others));
      ValueRun(f, dm, st, items.first);
      if st1.failed {
        FailedStays(f, dm, st1, ItemTokens(items.others));
      } else {
        ItemRun(f, dm, st, items, st1);
      }
    } else {
      assert st.stack == st.stack[..|st.stack| - 1] + [Top(st)];
    }
  }

  /** After an element that was copied, the elements after it. */
  lemma {:induction false} ItemRun(f: Transform, dm: bool, st: State, items: Values, st1: State)
    requires !st.failed && st.stack != [] && !Top(st).key && !Top(st).isObject && items.Item?
    requires RunsValue(f, dm, st, items.first, st1) && !st1.failed
    ensures RunsItems(f, st, items, Run(f, dm, st1, ItemTokens(items.others)))
    decreases items, 2
  {
    var top, p := Top(st), Placed(st);
    var first := Copied(f, items.first, top.role, p.valuePath);
    var end := Run(f, dm, st1, ItemTokens(items.others));
    ItemsRun(f, dm, st1, items.others);
    if !end.failed {
      var others := CopiedItems(f, items.others, top.role, top.path, top.count + 1).value;
      assert st.out + Separator(top.count) + Printed(first.value.to)
             == st.out + (Separator(top.count) + Printed(first.value.to));
      assert p.stack[..|p.stack| - 1] == st.stack[..|st.stack| - 1];
      assert Went(st, st1, Top(st1), Separator(top.count) + Printed(first.value.to), first.value.visits);
      WentThrough(st, st1, end, Separator(top.count) + Printed(first.value.to), first.value.visits,
                  PrintedItems(others.to, top.count + 1), others.visits);
    }
  }

  lemma {:induction false} ObjectRun(f: Transform, dm: bool, st: State, members: Members)
    requires !st.failed && st.stack != [] && !Top(st).key
    ensures RunsValue(f, dm, st, Obj(members), Run(f, dm, st, Tokens(Obj(members))))
    decreases members, 4
  {
    var p, st1 := Placed(st), Next(f, dm, st, Open(true));
    ContainerTokens(f, dm, st, true, MemberTokens(members));
    MembersRun(f, dm, st1, members);
    var st2 := Run(f, dm, st1, MemberTokens(members));
    if !st2.failed {
      var copy := CopiedMembers(f, members, p.role, p.valuePath, {});
      WentAround(p, dm, st1, st2, true, PrintedMembers(copy.value.to, 0), copy.value.visits);
    }
  }

  lemma {:induction false} MembersRun(f: Transform, dm: bool, st: State, members: Members)
    requires !st.failed && st.stack != [] && Top(st).key && Top(st).isObject
    ensures RunsMembers(f, st, members, Run(f, dm, st, MemberTokens(members)))
    decreases members, 3
  {
    if members.Member? {
      var name, value := [Text(members.key)], Tokens(members.value);
      var st1 := Next(f, dm, st, Text(members.key));
      RunJoin(f, dm, st, name + value, MemberTokens(members.rest));
      RunJoin(f, dm, st, name, value);
      assert Run(f, dm, st, name) == st1;
      if st1.failed {
        FailedStays(f, dm, st1, value);
        FailedStays(f, dm, st1, MemberTokens(members.rest));
      } else {
        MemberRun(f, dm, st, members);
      }
    } else {
      assert st.stack == st.stack[..|st.stack| - 1] + [Top(st)];
    }
  }

  /** After a key that was taken, its value and the members after it. */
  lemma {:induction false} MemberRun(f: Transform, dm: bool, st: State, members: Members)
    requires !st.failed && st.stack != [] && Top(st).key && Top(st).isObject
    requires members.Member? && !Keyed(f, st, members.key).failed
    ensures RunsMembers(f, st, members,
                        Run(f, dm, Run(f, dm, Keyed(f, st, members.key), Tokens(members.value)),
                            MemberTokens(members.rest)))
    decreases members, 2
  {
    var st1 := Keyed(f, st, members.key);
    var st2 := Run(f, dm, st1, Tokens(members.value));
    ValueRun(f, dm, st1, members.value);
    if st2.failed {
      FailedStays(f, dm, st2, MemberTokens(members.rest));
    } else {
      RestRun(f, dm, st, members, st2);
    }
  }

  lemma {:induction false} RestRun(f: Transform, dm: bool, st: State, members: Members, st2: State)
    requires !st.failed && st.stack != [] && Top(st).key && Top(st).isObject
    requires members.Member? && !Keyed(f, st, members.key).failed
    requires RunsValue(f, dm, Keyed(f, st, members.key), members.value, st2) && !st2.failed
    ensures RunsMembers(f, st, members, Run(f, dm, st2, MemberTokens(members.rest)))
    decreases members, 1
  {
    var top, st1 := Top(st), Keyed(f, st, members.key);
    var key := CopiedKey(f, members.key, top.path, top.browserKeys).value;
    var value := Copied(f, members.value, ChildRole(top.role, key), top.path + "/" + Escape(key)).value;
    var end := Run(f, dm, st2, MemberTokens(members.rest));
    var name, visit := Separator(top.count) + [Tok(Text(key)), Colon], [Visit(Text(key), top.path, true)];
    assert st1.out == st.out + name;
    assert Went(st, st1, Top(st1), name, visit);
    assert Went(st1, st2, Top(st2), Printed(value.to), value.visits);
    WentThrough(st, st1, st2, name, visit, Printed(value.to), value.visits);
    MembersRun(f, dm, st2, members.rest);
    if !end.failed {
      var others := CopiedMembers(f, members.rest, top.role, top.path, Taken(top.path, top.browserKeys, key)).value;
      WentThrough(st, st2, end, name + Printed(value.to), visit + value.visits,
                  PrintedMembers(others.to, top.count + 1), others.visits);
    }
  }

  // ---- Whole documents ----

  function Appended(members: Members, key: string, v: Value): Members {
    match members
    case NoMembers => Member(key, v, NoMembers)
    case Member(k, w, rest) => Member(k, w, Appended(rest, key, v))
  }

  /** A manifest without a type field is published as a module. */
  function WithModule(members: Members, defaultModule: bool): Members {
    if !defaultModule || HasKey(members, "type") then members else Appended(members, "type", Str("module"))
  }

  lemma {:induction false} AppendedPrints(members: Members, key: string, v: Value, count: nat)
    ensures PrintedMembers(Appended(members, key, v), count)
         == PrintedMembers(members, count) + Separator(count + Size(members)) + [Tok(Text(key)), Colon] + Printed(v)
    decreases members
  {
    if members.Member? {
      AppendedPrints(members.rest, key, v, count + 1);
    }
  }

  lemma {:induction false} CopiedSize(f: Transform, members: Members, role: Role, path: string, taken: set<string>)
    requires CopiedMembers(f, members, role, path, taken).Some?
    ensures Size(CopiedMembers(f, members, role, path, taken).value.to) == Size(members)
    decreases members
  {
    if members.Member? {
      CopiedSize(f, members.rest, role, path, Taken(path, taken, CopiedKey(f, members.key, path, taken).value));
    }
  }

  /** What the walk makes of a whole document. */
  function Manifested(f: Transform, defaultModule: bool, members: Members): Option<Copy<Value>> {
    var copy := Copied(f, Obj(members), Root, "");
    if copy.None? then None else Some(Copy(Obj(WithModule(copy.value.to.members, defaultModule)), copy.value.visits))
  }

  lemma DocumentTokens(f: Transform, dm: bool, contents: seq<Token>) returns (inner: State)
    ensures inner == State([Frame(true, Root, true, 0, false, "", "", {})], Root, "", [Tok(Open(true))],
                           [Visit(Open(true), "", false)], false)
    ensures Run(f, dm, START, [Open(true)] + contents + [Close(true)])
            == Next(f, dm, Run(f, dm, inner, contents), Close(true))
  {
    inner := Next(f, dm, START, Open(true));
    RunJoin(f, dm, START, [Open(true)] + contents, [Close(true)]);
    RunJoin(f, dm, START, [Open(true)], contents);
    assert Run(f, dm, START, [Open(true)]) == inner;
    var end := Run(f, dm, inner, contents);
    assert Run(f, dm, end, [Close(true)]) == Next(f, dm, end, Close(true));
  }

  lemma DocumentRun(f: Transform, dm: bool, members: Members)
    ensures var copy, end := Manifested(f, dm, members), Run(f, dm, START, Tokens(Obj(members)));
      if copy.None? then end.failed
      else !end.failed && end.stack == [] && end.out == Printed(copy.value.to) && end.visits == copy.value.visits
  {
    var inner := DocumentTokens(f, dm, MemberTokens(members));
    var end := Run(f, dm, inner, MemberTokens(members));
    MembersRun(f, dm, inner, members);
    if !end.failed {
      DocumentCloses(f, dm, members, inner, end);
    }
  }

  lemma DocumentCloses(f: Transform, dm: bool, members: Members, inner: State, end: State)
    requires inner == State([Frame(true, Root, true, 0, false, "", "", {})], Root, "", [Tok(Open(true))],
                            [Visit(Open(true), "", false)], false)
    requires RunsMembers(f, inner, members, end) && !end.failed
    ensures var copy, closed := Manifested(f, dm, members), Next(f, dm, end, Close(true));
      copy.Some? && !closed.failed && closed.stack == [] && closed.out == Printed(copy.value.to)
      && closed.visits == copy.value.visits
  {
    var copy := CopiedMembers(f, members, Root, "", {}).value;
    CopiedSize(f, members, Root, "", {});
    assert end.stack == [Top(end)];
    RootCloses(dm, end, copy);
  }

  lemma RootCloses(dm: bool, st: State, copy: Copy<Members>)
    requires !st.failed && |st.stack| == 1 && Top(st).path == ""
    requires st.out == [Tok(Open(true))] + PrintedMembers(copy.to, 0)
    requires st.visits == [Visit(Open(true), "", false)] + copy.visits
    requires Top(st).count == Size(copy.to) && Top(st).sawType == HasKey(copy.to, "type")
    ensures var end := Closed(st, dm, Close(true));
      end.stack == [] && end.out == Printed(Obj(WithModule(copy.to, dm)))
      && end.visits == [Visit(Open(true), "", false)] + copy.visits + [Visit(Close(true), "", false)]
  {
    AppendedPrints(copy.to, "type", Str("module"), 0);
    var more := Separator(Size(copy.to)) + TYPE_MODULE;
    assert TYPE_MODULE == [Tok(Text("type")), Colon] + Printed(Str("module"));
    assert PrintedMembers(copy.to, 0) + more == PrintedMembers(Appended(copy.to, "type", Str("module")), 0);
  }

  lemma StepRuns(f: Transform, dm: bool, st: State, tokens: seq<Token>, i: nat)
    requires i < |tokens|
    ensures Run(f, dm, st, tokens[i..]) == Run(f, dm, Next(f, dm, st, tokens[i]), tokens[i + 1..])
    ensures Next(f, dm, st, tokens[i]).failed ==> Run(f, dm, st, tokens[i..]).failed
  {
    assert tokens[i..][1..] == tokens[i + 1..];
    if Next(f, dm, st, tokens[i]).failed {
      FailedStays(f, dm, Next(f, dm, st, tokens[i]), tokens[i + 1..]);
    }
  }

  /** The walk over a manifest's tokens; None is any of its errors. */
  method WalkManifest(f: Transform, defaultModule: bool, tokens: seq<Token>)
    returns (result: Option<(seq<Lexeme>, seq<Visit>)>)
    ensures var end := Run(f, defaultModule, START, tokens);
      result == if end.failed || end.stack != [] then None else Some((end.out, end.visits))
  {
    var stack, role, valuePath, out, visits := [], Root, "", [], [];
    for i := 0 to |tokens|
      invariant Run(f, defaultModule, START, tokens)
                == Run(f, defaultModule, State(stack, role, valuePath, out, visits, false), tokens[i..])
    {
      var token := tokens[i];
      ghost var st := State(stack, role, valuePath, out, visits, false);
      StepRuns(f, defaultModule, st, tokens, i);
      if stack == [] && token != Open(true) {
        return None;
      }
      if token.Close? {
        stack, out, visits := CloseFrame(stack, role, valuePath, out, visits, defaultModule, token);
        continue;
      }
      if stack != [] && stack[|stack| - 1].key {
        if !token.Text? {
          return None;
        }
        var key := CopiedKey(f, token.text, stack[|stack| - 1].path, stack[|stack| - 1].browserKeys);
        if key.None? {
          return None;
        }
        stack, role, out, visits := TakeKey(f, token.text, key.value, stack, role, valuePath, out, visits);
        continue;
      }
      var written := WriteValue(f, token, State(stack, role, valuePath, out, visits, false));
      if written.None? {
        return None;
      }
      var to := written.value;
      stack, role, valuePath, out, visits := to.stack, to.role, to.valuePath, to.out, to.visits;
    }
    if stack != [] {
      return None;
    }
    return Some((out, visits));
  }

  method WriteValue(f: Transform, token: Token, from: State) returns (to: Option<State>)
    requires !from.failed
    ensures var next := Valued(f, from, token); to == if next.failed then None else Some(next)
  {
    var stack, role, valuePath, out := Place(from.stack, from.role, from.valuePath, from.out, from.visits);
    var visits := from.visits + [Visit(token, valuePath, false)];
    if token.Open? {
      stack := stack + [Frame(token.isObject, role, token.isObject, 0, false, valuePath, "", {})];
      return Some(State(stack, role, valuePath, out + [Tok(token)], visits, false));
    }
    if token.Text? {
      var mapped := f(token.text, role, valuePath, false);
      if mapped.None? {
        return None;
      }
      out := out + [Tok(Text(mapped.value))];
    } else {
      out := out + [Tok(token)];
    }
    var n := |stack|;
    if n > 0 && stack[n - 1].isObject {
      stack := stack[n - 1 := stack[n - 1].(key := true)];
    }
    return Some(State(stack, role, valuePath, out, visits, false));
  }

  method CloseFrame(stack: seq<Frame>, ghost role: Role, ghost valuePath: string, out: seq<Lexeme>, visits: seq<Visit>,
                    defaultModule: bool, token: Token)
    returns (stack': seq<Frame>, out': seq<Lexeme>, visits': seq<Visit>)
    requires stack != []
    ensures State(stack', role, valuePath, out', visits', false)
            == Closed(State(stack, role, valuePath, out, visits, false), defaultModule, token)
  {
    var top := stack[|stack| - 1];
    visits' := visits + [Visit(token, top.path, false)];
    stack', out' := stack[..|stack| - 1], out;
    if stack' == [] && !top.sawType && defaultModule {
      if top.count > 0 {
        out' := out' + [Comma];
      }
      out' := out' + TYPE_MODULE;
    }
    out' := out' + [Tok(token)];
    var n := |stack'|;
    if n > 0 {
      stack' := stack'[n - 1 := stack'[n - 1].(key := stack'[n - 1].isObject)];
    }
  }

  method TakeKey(ghost f: Transform, ghost text: string, key: string, stack: seq<Frame>, ghost role: Role,
                 ghost valuePath: string, out: seq<Lexeme>, visits: seq<Visit>)
    returns (stack': seq<Frame>, role': Role, out': seq<Lexeme>, visits': seq<Visit>)
    requires stack != [] && CopiedKey(f, text, stack[|stack| - 1].path, stack[|stack| - 1].browserKeys) == Some(key)
    ensures State(stack', role', valuePath, out', visits', false)
            == Keyed(f, State(stack, role, valuePath, out, visits, false), text)
  {
    var n := |stack|;
    var top := stack[n - 1];
    if top.path == BROWSER_POINTER {
      top := top.(browserKeys := top.browserKeys + {key});
    }
    visits' := visits + [Visit(Text(key), top.path, true)];
    out' := out;
    if top.count > 0 {
      out' := out' + [Comma];
    }
    out' := out' + [Tok(Text(key)), Colon];
    role' := ChildRole(top.role, key);
    top := top.(count := top.count + 1, valuePath := top.path + "/" + Escape(key));
    if n == 1 && key == "type" {
      top := top.(sawType := true);
    }
    stack' := stack[n - 1 := top.(key := false)];
  }

  method Place(stack: seq<Frame>, role: Role, valuePath: string, out: seq<Lexeme>, ghost visits: seq<Visit>)
    returns (stack': seq<Frame>, role': Role, valuePath': string, out': seq<Lexeme>)
    ensures State(stack', role', valuePath', out', visits, false)
            == Placed(State(stack, role, valuePath, out, visits, false))
  {
    stack', role', valuePath', out' := stack, role, valuePath, out;
    var n := |stack|;
    if n > 0 && !stack[n - 1].isObject {
      var top := stack[n - 1];
      if top.count > 0 {
        out' := out' + [Comma];
      }
      stack' := stack[n - 1 := top.(valuePath := top.path + "/" + Decimal(top.count), count := top.count + 1)];
      role' := top.role;
    }
    if n > 0 {
      valuePath' := stack'[n - 1].valuePath;
    }
  }

  /** Walking a document writes its copy's text, which reads back as the copy. */
  lemma WalkedReadsBack(f: Transform, dm: bool, members: Members)
    ensures var copy, end := Manifested(f, dm, members), Run(f, dm, START, Tokens(Obj(members)));
      if copy.None? then end.failed
      else !end.failed && end.stack == [] && Read(end.out) == Tokens(copy.value.to) && end.visits == copy.value.visits
  {
    DocumentRun(f, dm, members);
    var copy := Manifested(f, dm, members);
    if copy.Some? {
      PrintedReads(copy.value.to);
    }
  }

  // ---- Copies that change nothing, and what a transform may change ----

  const IDENTITY: Transform := (text: string, role: Role, pointer: string, key: bool) => Some(text)

  predicate RepeatsKey(members: Members, taken: set<string>) {
    members.Member? && (members.key in taken || RepeatsKey(members.rest, taken + {members.key}))
  }

  /** Whether some object at the browser field itself holds a key twice. */
  predicate BrowserRepeats(members: Members) {
    members.Member?
    && ((members.key == BROWSER && members.value.Obj? && RepeatsKey(members.value.members, {}))
        || BrowserRepeats(members.rest))
  }

  /** A pointer below some field: its object is not the browser map itself. */
  predicate IsBelow(path: string) {
    path != "" && path[0] == '/'
  }

  lemma {:induction false} EscapeHasNoSlash(key: string)
    ensures '/' !in Escape(key)
  {
    if key != "" {
      EscapeHasNoSlash(key[1..]);
    }
  }

  lemma BelowIsNotBrowser(path: string, step: string)
    requires IsBelow(path)
    ensures IsBelow(path + "/" + step) && path + "/" + step != BROWSER_POINTER
  {
    var deeper := path + "/" + step;
    assert deeper[1..] == path[1..] + "/" + step;
    assert '/' in deeper[1..] && BROWSER_POINTER[1..] == BROWSER;
  }

  lemma {:induction false} IdentityBelow(v: Value, role: Role, path: string)
    requires IsBelow(path) && path != BROWSER_POINTER
    ensures Copied(IDENTITY, v, role, path).Some? && Copied(IDENTITY, v, role, path).value.to == v
    decreases v
  {
    match v
    case Arr(items) => IdentityItems(items, role, path, 0);
    case Obj(members) => IdentityMembers(members, role, path, {});
    case _ =>
  }

  lemma {:induction false} IdentityItems(items: Values, role: Role, path: string, index: nat)
    requires IsBelow(path)
    ensures CopiedItems(IDENTITY, items, role, path, index).Some?
    ensures CopiedItems(IDENTITY, items, role, path, index).value.to == items
    decreases items
  {
    if items.Item? {
      BelowIsNotBrowser(path, Decimal(index));
      IdentityBelow(items.first, role, path + "/" + Decimal(index));
      IdentityItems(items.others, role, path, index + 1);
    }
  }

  /** Copying members unchanged fails on a browser map's repeated key and on nothing else. */
  lemma {:induction false} IdentityMembers(members: Members, role: Role, path: string, taken: set<string>)
    requires IsBelow(path)
    ensures var copy := CopiedMembers(IDENTITY, members, role, path, taken);
      if path == BROWSER_POINTER && RepeatsKey(members, taken) then copy.None?
          else copy.Some? && copy.value.to == members
    decreases members
  {
    if members.Member? {
      var key := members.key;
      if path != BROWSER_POINTER || key !in taken {
        BelowIsNotBrowser(path, Escape(key));
        IdentityBelow(members.value, ChildRole(role, key), path + "/" + Escape(key));
        IdentityMembers(members.rest, role, path, Taken(path, taken, key));
      }
    }
  }

  lemma {:induction false} EscapePlain(key: string)
    requires '~' !in Escape(key)
    ensures Escape(key) == key
  {
    if key != "" {
      assert Escape(key)[0] in Escape(key);
      assert forall c :: c in Escape(key[1..]) ==> c in Escape(key);
      EscapePlain(key[1..]);
    }
  }

  lemma {:induction false} PlainEscape(key: string)
    requires '~' !in key && '/' !in key
    ensures Escape(key) == key
  {
    if key != "" {
      assert key[0] in key;
      PlainEscape(key[1..]);
    }
  }

  lemma SlashInjective(a: string, b: string)
    ensures "" + "/" + a == "/" + b <==> a == b
  {
    assert ("" + "/" + a)[1..] == a && ("/" + b)[1..] == b;
  }

  lemma BrowserField(key: string)
    ensures "" + "/" + Escape(key) == BROWSER_POINTER <==> key == BROWSER
  {
    SlashInjective(Escape(key), BROWSER);
    if Escape(key) == BROWSER {
      EscapePlain(key);
    }
    PlainEscape(BROWSER);
  }

  lemma IdentityField(v: Value, role: Role, path: string)
    requires IsBelow(path)
    ensures var copy := Copied(IDENTITY, v, role, path);
      if path == BROWSER_POINTER && v.Obj? && RepeatsKey(v.members, {}) then copy.None?
          else copy.Some? && copy.value.to == v
  {
    match v
    case Obj(members) => IdentityMembers(members, role, path, {});
    case Arr(items) => IdentityItems(items, role, path, 0);
    case _ =>
  }

  lemma {:induction false} IdentityFields(members: Members, taken: set<string>)
    ensures var copy := CopiedMembers(IDENTITY, members, Root, "", taken);
      if BrowserRepeats(members) then copy.None? else copy.Some? && copy.value.to == members
    decreases members
  {
    if members.Member? {
      BrowserField(members.key);
      IdentityField(members.value, ChildRole(Root, members.key), "" + "/" + Escape(members.key));
      IdentityFields(members.rest, taken);
    }
  }

  /**
   * Copying a manifest unchanged, with no default module, writes text that reads back as the tokens it
   * was given; the one document it refuses is one whose browser map repeats a key.
   */
  lemma IdentityReadsBack(members: Members)
    ensures var end := Run(IDENTITY, false, START, Tokens(Obj(members)));
      if BrowserRepeats(members) then end.failed
      else !end.failed && end.stack == [] && Read(end.out) == Tokens(Obj(members))
  {
    IdentityFields(members, {});
    WalkedReadsBack(IDENTITY, false, members);
  }

  /** A browser map with one key twice, which even an unchanged copy refuses. */
  lemma RepeatedBrowserKeyFails()
    ensures var browser := Obj(Member("a", Str("x"), Member("a", Str("y"), NoMembers)));
      Run(IDENTITY, false, START, Tokens(Obj(Member(BROWSER, browser, NoMembers)))).failed
  {
    var keys := Member("a", Str("x"), Member("a", Str("y"), NoMembers));
    assert RepeatsKey(keys, {});
    IdentityReadsBack(Member(BROWSER, Obj(keys), NoMembers));
  }
}
