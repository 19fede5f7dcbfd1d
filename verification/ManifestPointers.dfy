/** JSON Pointers: how the copier writes them, and the values its visits name. */
module ManifestPointers {
  import opened Manifest
  import opened Wrappers

  // ---- Every value is visited at its pointer ----

  /** A reference token read back, after section 4 of RFC 6901. */
  function Unescape(token: string): Option<string> {
    if token == "" then Some("")
    else if token[0] != '~' then
      var rest := Unescape(token[1..]);
      if rest.None? then None else Some([token[0]] + rest.value)
    else if |token| < 2 || (token[1] != '0' && token[1] != '1') then None
    else
      var rest := Unescape(token[2..]);
      if rest.None? then None else Some([if token[1] == '0' then '~' else '/'] + rest.value)
  }

  lemma {:induction false} UnescapeEscape(key: string)
    ensures Unescape(Escape(key)) == Some(key)
  {
    if key != "" {
      UnescapeEscape(key[1..]);
      var rest := Escape(key[1..]);
      if key[0] == '~' {
        assert Escape(key) == "~0" + rest && ("~0" + rest)[2..] == rest;
      } else if key[0] == '/' {
        assert Escape(key) == "~1" + rest && ("~1" + rest)[2..] == rest;
      } else {
        assert Escape(key)[1..] == rest;
      }
      assert key == [key[0]] + key[1..];
    }
  }

  function TokenEnd(s: string, i: nat): (end: nat)
    requires i <= |s|
    ensures i <= end <= |s| && '/' !in s[i..end] && (end < |s| ==> s[end] == '/')
    decreases |s| - i
  {
    if i < |s| && s[i] != '/' then
      var end := TokenEnd(s, i + 1);
      assert s[i..end] == [s[i]] + s[i + 1..end];
      end
    else i
  }

  function Lookup(members: Members, key: string): Option<Value> {
    match members
    case NoMembers => None
    case Member(k, v, rest) => if k == key then Some(v) else Lookup(rest, key)
  }

  /** The element whose index is written so; leading zeros write none. */
  function Element(items: Values, token: string, index: nat): Option<Value> {
    match items
    case NoValues => None
    case Item(v, rest) => if Decimal(index) == token then Some(v) else Element(rest, token, index + 1)
  }

  /** The value a pointer names, after section 4 of RFC 6901. */
  function Resolve(v: Value, pointer: string): Option<Value>
    decreases |pointer|
  {
    if pointer == "" then Some(v)
    else if pointer[0] != '/' then None
    else
      var end := TokenEnd(pointer, 1);
      var token, rest := pointer[1..end], pointer[end..];
      match v
      case Obj(members) =>
        var key := Unescape(token);
        var member := if key.None? then None else Lookup(members, key.value);
        if member.None? then None else Resolve(member.value, rest)
      case Arr(items) =>
        var element := Element(items, token, 0);
        if element.None? then None else Resolve(element.value, rest)
      case _ => None
  }

  /** RFC 6901 names members of objects whose names are unique. */
  predicate Unique(v: Value) {
    match v
    case Arr(items) => UniqueItems(items)
    case Obj(members) => !RepeatsKey(members, {}) && UniqueMembers(members)
    case _ => true
  }

  predicate UniqueItems(items: Values) {
    items.Item? ==> Unique(items.first) && UniqueItems(items.others)
  }

  predicate UniqueMembers(members: Members) {
    members.Member? ==> Unique(members.value) && UniqueMembers(members.rest)
  }

  lemma TokenSplits(token: string, rest: string)
    requires '/' !in token && (rest != "" ==> rest[0] == '/')
    ensures var pointer := "/" + token + rest;
      pointer[0] == '/' && pointer[1..TokenEnd(pointer, 1)] == token && pointer[TokenEnd(pointer, 1)..] == rest
  {
    var pointer := "/" + token + rest;
    var end := TokenEnd(pointer, 1);
    assert pointer[1..1 + |token|] == token && pointer[1 + |token|..] == rest;
    assert rest != "" ==> pointer[1 + |token|] == '/';
    assert forall k :: 1 <= k < 1 + |token| ==> pointer[k] == token[k - 1] && pointer[k] in token;
  }

  lemma {:induction false} DecimalInjective(a: nat, b: nat)
    ensures Decimal(a) == Decimal(b) ==> a == b
    decreases a
  {
    var x, y := Decimal(a), Decimal(b);
    if x == y {
      assert x[|x| - 1] == y[|y| - 1];
      assert a % 10 == b % 10;
      if a >= 10 && b >= 10 {
        assert x[..|x| - 1] == Decimal(a / 10) && y[..|y| - 1] == Decimal(b / 10);
        DecimalInjective(a / 10, b / 10);
      }
    }
  }

  lemma {:induction false} EscapeUnescape(token: string)
    requires '/' !in token && Unescape(token).Some?
    ensures Escape(Unescape(token).value) == token
    decreases |token|
  {
    if token != "" {
      assert token[0] in token && token == [token[0]] + token[1..];
      if token[0] != '~' {
        EscapeUnescape(token[1..]);
      } else {
        assert token == [token[0], token[1]] + token[2..];
        EscapeUnescape(token[2..]);
      }
      var key := Unescape(token).value;
      assert key[1..] == Unescape(if token[0] != '~' then token[1..] else token[2..]).value;
    }
  }

  /** What a visit says of the value it names: a key of it, its end, or its first token. */
  predicate Announces(visit: Visit, before: Value, after: Value) {
    if visit.key then after.Obj? && visit.token.Text? && Lookup(after.members, visit.token.text).Some?
    else if visit.token.Close? then (if visit.token.isObject then before.Obj? else before.Arr?)
    else visit.token == Tokens(before)[0]
  }

  /** The visit's pointer names, in the copied document, the copy of the value the visit announces. */
  predicate Names(f: Transform, to: Value, rel: string, visit: Visit, before: Value, role: Role) {
    var copy := Copied(f, before, role, visit.pointer);
    copy.Some? && Resolve(to, rel) == Some(copy.value.to) && Announces(visit, before, copy.value.to)
  }

  lemma {:induction false} Untaken(members: Members, taken: set<string>, key: string)
    requires !RepeatsKey(members, taken) && key in taken
    ensures Lookup(members, key).None?
    decreases members
  {
    if members.Member? {
      Untaken(members.rest, taken + {members.key}, key);
    }
  }

  lemma {:induction false} FewerTaken(members: Members, taken: set<string>, fewer: set<string>)
    requires !RepeatsKey(members, taken) && fewer <= taken
    ensures !RepeatsKey(members, fewer)
    decreases members
  {
    if members.Member? {
      FewerTaken(members.rest, taken + {members.key}, fewer + {members.key});
    }
  }

  lemma ResolveElement(items: Values, index: nat, rel: string)
    requires Element(items, Decimal(index), 0).Some? && (rel != "" ==> rel[0] == '/')
    ensures Resolve(Arr(items), "/" + Decimal(index) + rel) == Resolve(Element(items, Decimal(index), 0).value, rel)
  {
    TokenSplits(Decimal(index), rel);
  }

  lemma ResolveMember(members: Members, key: string, rel: string)
    requires Lookup(members, key).Some? && (rel != "" ==> rel[0] == '/')
    ensures Resolve(Obj(members), "/" + Escape(key) + rel) == Resolve(Lookup(members, key).value, rel)
  {
    EscapeHasNoSlash(key);
    UnescapeEscape(key);
    TokenSplits(Escape(key), rel);
  }

  lemma NamesBelow(f: Transform, to: Value, part: Value, path: string, step: string, rel: string, visit: Visit,
                   before: Value, role: Role)
    requires Names(f, part, rel, visit, before, role) && Resolve(to, "/" + step + rel) == Resolve(part, rel)
    ensures Names(f, to, "/" + step + rel, visit, before, role)
    ensures path + "/" + step + rel == path + ("/" + step + rel) && ("/" + step + rel)[0] == '/'
  {
  }

  // ---- What the input held there ----

  /** The value whose key was copied to this one. */
  function SourceMember(f: Transform, members: Members, path: string, taken: set<string>, key: string): Option<Value> {
    match members
    case NoMembers => None
    case Member(k, v, rest) =>
      var copied := CopiedKey(f, k, path, taken);
      if copied.None? then None
      else if copied.value == key then Some(v)
      else SourceMember(f, rest, path, Taken(path, taken, copied.value), key)
  }

  /** The value and role of the input at a pointer of the copy: each key of it read as the one copied to it. */
  function Source(f: Transform, v: Value, role: Role, path: string, pointer: string): Option<(Value, Role)>
    decreases |pointer|
  {
    if pointer == "" then Some((v, role))
    else if pointer[0] != '/' then None
    else
      var end := TokenEnd(pointer, 1);
      var token, rest := pointer[1..end], pointer[end..];
      match v
      case Obj(members) =>
        var key := Unescape(token);
        var member := if key.None? then None else SourceMember(f, members, path, {}, key.value);
        if member.None? then None
        else Source(f, member.value, ChildRole(role, key.value), path + "/" + token, rest)
      case Arr(items) =>
        var element := Element(items, token, 0);
        if element.None? then None else Source(f, element.value, role, path + "/" + token, rest)
      case _ => None
  }

  lemma SourceElement(f: Transform, items: Values, role: Role, path: string, index: nat, rel: string)
    requires Element(items, Decimal(index), 0).Some? && (rel != "" ==> rel[0] == '/')
    ensures Source(f, Arr(items), role, path, "/" + Decimal(index) + rel)
            == Source(f, Element(items, Decimal(index), 0).value, role, path + "/" + Decimal(index), rel)
  {
    TokenSplits(Decimal(index), rel);
  }

  lemma SourceBelow(f: Transform, members: Members, role: Role, path: string, key: string, rel: string)
    requires SourceMember(f, members, path, {}, key).Some? && (rel != "" ==> rel[0] == '/')
    ensures Source(f, Obj(members), role, path, "/" + Escape(key) + rel)
            == Source(f, SourceMember(f, members, path, {}, key).value, ChildRole(role, key), path + "/" + Escape(key),
                      rel)
  {
    EscapeHasNoSlash(key);
    UnescapeEscape(key);
    TokenSplits(Escape(key), rel);
  }

  lemma {:induction false} KeptMember(f: Transform, members: Members, path: string, taken: set<string>, key: string)
    requires forall text, role, pointer :: f(text, role, pointer, true) == Some(text)
    ensures var source := SourceMember(f, members, path, taken, key); source.Some? ==> source == Lookup(members, key)
    decreases members
  {
    if members.Member? {
      KeptMember(f, members.rest, path, Taken(path, taken, members.key), key);
    }
  }

  /** When no key is rewritten, that is the value at the same place of the input itself. */
  lemma {:induction false} SourceIsNamed(f: Transform, v: Value, role: Role, path: string, pointer: string)
    requires forall text, role, pointer :: f(text, role, pointer, true) == Some(text)
    ensures var source := Source(f, v, role, path, pointer); source.Some? ==>
      Resolve(v, pointer) == Some(source.value.0)
    decreases |pointer|
  {
    if Source(f, v, role, path, pointer).Some? && pointer != "" {
      var end := TokenEnd(pointer, 1);
      var token, rest := pointer[1..end], pointer[end..];
      match v
      case Obj(members) =>
        KeptMember(f, members, path, {}, Unescape(token).value);
        SourceIsNamed(f, Lookup(members, Unescape(token).value).value, ChildRole(role, Unescape(token).value),
                      path + "/" + token, rest);
      case Arr(items) => SourceIsNamed(f, Element(items, token, 0).value, role, path + "/" + token, rest);
    }
  }

  /** Every visit's pointer names the copy of what it announces, and reads in the input as that very value. */
  lemma {:induction false} ValueVisits(f: Transform, v: Value, role: Role, path: string, visit: Visit)
    returns (rel: string, before: Value, under: Role)
    requires Copied(f, v, role, path).Some? && Unique(Copied(f, v, role, path).value.to)
    requires visit in Copied(f, v, role, path).value.visits
    ensures visit.pointer == path + rel && Names(f, Copied(f, v, role, path).value.to, rel, visit, before, under)
    ensures Source(f, v, role, path, rel) == Some((before, under))
    ensures rel != "" ==> rel[0] == '/'
    decreases v, 1
  {
    match v
    case Arr(items) => rel, before, under := ArrayVisits(f, items, role, path, visit);
    case Obj(members) => rel, before, under := ObjectVisits(f, members, role, path, visit);
    case _ =>
      rel, before, under := "", v, role;
      assert path + "" == path;
  }

  lemma {:induction false} ArrayVisits(f: Transform, items: Values, role: Role, path: string, visit: Visit)
    returns (rel: string, before: Value, under: Role)
    requires var copy := Copied(f, Arr(items), role, path);
            copy.Some? && Unique(copy.value.to) && visit in copy.value.visits
    ensures visit.pointer == path + rel
    ensures Names(f, Copied(f, Arr(items), role, path).value.to, rel, visit, before, under)
    ensures Source(f, Arr(items), role, path, rel) == Some((before, under))
    ensures rel != "" ==> rel[0] == '/'
    decreases items, 2
  {
    var inner := CopiedItems(f, items, role, path, 0).value;
    if visit in inner.visits {
      var index;
      index, rel, before, under := ItemVisits(f, items, role, path, 0, visit);
      ResolveElement(inner.to, index, rel);
      SourceElement(f, items, role, path, index, rel);
      NamesBelow(f, Arr(inner.to), Element(inner.to, Decimal(index), 0).value, path, Decimal(index), rel, visit, before,
                 under);
      rel := "/" + Decimal(index) + rel;
    } else {
      rel, before, under := "", Arr(items), role;
      assert path + "" == path;
    }
  }

  lemma {:induction false} ObjectVisits(f: Transform, members: Members, role: Role, path: string, visit: Visit)
    returns (rel: string, before: Value, under: Role)
    requires var copy := Copied(f, Obj(members), role, path);
            copy.Some? && Unique(copy.value.to) && visit in copy.value.visits
    ensures visit.pointer == path + rel
    ensures Names(f, Copied(f, Obj(members), role, path).value.to, rel, visit, before, under)
    ensures Source(f, Obj(members), role, path, rel) == Some((before, under))
    ensures rel != "" ==> rel[0] == '/'
    decreases members, 2
  {
    var inner := CopiedMembers(f, members, role, path, {}).value;
    assert path + "" == path;
    if visit in inner.visits {
      var here, key;
      here, key, rel, before, under := MemberVisits(f, members, role, path, {}, visit);
      if here {
        rel, before, under := "", Obj(members), role;
      } else {
        ResolveMember(inner.to, key, rel);
        SourceBelow(f, members, role, path, key, rel);
        NamesBelow(f, Obj(inner.to), Lookup(inner.to, key).value, path, Escape(key), rel, visit, before, under);
        rel := "/" + Escape(key) + rel;
      }
    } else {
      rel, before, under := "", Obj(members), role;
    }
  }

  lemma {:induction false} ItemVisits(f: Transform, items: Values, role: Role, path: string, index: nat, visit: Visit)
    returns (at: nat, rel: string, before: Value, under: Role)
    requires CopiedItems(f, items, role, path, index).Some?
    requires UniqueItems(CopiedItems(f, items, role, path, index).value.to)
    requires visit in CopiedItems(f, items, role, path, index).value.visits
    ensures at >= index && visit.pointer == path + "/" + Decimal(at) + rel && (rel != "" ==> rel[0] == '/')
    ensures var element := Element(CopiedItems(f, items, role, path, index).value.to, Decimal(at), index);
      element.Some? && Names(f, element.value, rel, visit, before, under)
    ensures var source := Element(items, Decimal(at), index);
      source.Some? && Source(f, source.value, role, path + "/" + Decimal(at), rel) == Some((before, under))
    decreases items, 1
  {
    var step := path + "/" + Decimal(index);
    var first := Copied(f, items.first, role, step).value;
    if visit in first.visits {
      at := index;
      rel, before, under := ValueVisits(f, items.first, role, step, visit);
    } else {
      at, rel, before, under := ItemVisits(f, items.others, role, path, index + 1, visit);
      DecimalInjective(index, at);
    }
  }

  lemma {:induction false} MemberVisits(f: Transform, members: Members, role: Role, path: string, taken: set<string>,
                                        visit: Visit)
    returns (here: bool, key: string, rel: string, before: Value, under: Role)
    requires CopiedMembers(f, members, role, path, taken).Some?
    requires var to := CopiedMembers(f, members, role, path, taken).value.to; !RepeatsKey(to, {}) && UniqueMembers(to)
    requires visit in CopiedMembers(f, members, role, path, taken).value.visits
    ensures var to := CopiedMembers(f, members, role, path, taken).value.to;
      && Lookup(to, key).Some?
      && if here then visit == Visit(Text(key), path, true)
         else visit.pointer == path + "/" + Escape(key) + rel
              && Names(f, Lookup(to, key).value, rel, visit, before, under)
    ensures !here ==> var source := SourceMember(f, members, path, taken, key);
      source.Some?
      && Source(f, source.value, ChildRole(role, key), path + "/" + Escape(key), rel) == Some((before, under))
    ensures rel != "" ==> rel[0] == '/'
    decreases members, 1
  {
    var first := CopiedKey(f, members.key, path, taken).value;
    var under1, step := ChildRole(role, first), path + "/" + Escape(first);
    var value := Copied(f, members.value, under1, step).value;
    var to := CopiedMembers(f, members, role, path, taken).value.to;
    here, key, rel, before, under := true, first, "", members.value, under1;
    if visit == Visit(Text(first), path, true) {
    } else if visit in value.visits {
      here := false;
      rel, before, under := ValueVisits(f, members.value, under1, step, visit);
    } else {
      assert {} + {to.key} == {first};
      FewerTaken(to.rest, {first}, {});
      here, key, rel, before, under := MemberVisits(f, members.rest, role, path, Taken(path, taken, first), visit);
      if key == first {
        Untaken(to.rest, {first}, first);
      }
    }
  }

  /** Every value of the copied document is visited at every pointer that names it. */
  lemma {:induction false} ValueIsVisited(f: Transform, v: Value, role: Role, path: string, rel: string)
    returns (visit: Visit)
    requires Copied(f, v, role, path).Some? && Resolve(Copied(f, v, role, path).value.to, rel).Some?
    ensures visit in Copied(f, v, role, path).value.visits && visit.pointer == path + rel && !visit.key
    ensures !visit.token.Close?
    decreases v
  {
    var copy := Copied(f, v, role, path).value;
    if rel == "" {
      visit := Visit(Tokens(v)[0], path, false);
      assert path + rel == path;
    } else {
      var end := TokenEnd(rel, 1);
      var token, rest := rel[1..end], rel[end..];
      assert rel == "/" + token + rest;
      assert path + rel == path + "/" + token + rest;
      match v
      case Arr(items) =>
        visit := ItemIsVisited(f, items, role, path, 0, token, rest);
      case Obj(members) =>
        EscapeUnescape(token);
        visit := MemberIsVisited(f, members, role, path, {}, Unescape(token).value, rest);
    }
  }

  lemma {:induction false} ItemIsVisited(f: Transform, items: Values, role: Role, path: string, index: nat,
                                         token: string, rest: string) returns (visit: Visit)
    requires CopiedItems(f, items, role, path, index).Some?
    requires var element := Element(CopiedItems(f, items, role, path, index).value.to, token, index);
      element.Some? && Resolve(element.value, rest).Some?
    ensures visit in CopiedItems(f, items, role, path, index).value.visits && visit.pointer == path + "/" + token + rest
    ensures !visit.key && !visit.token.Close?
    decreases items
  {
    if Decimal(index) == token {
      visit := ValueIsVisited(f, items.first, role, path + "/" + Decimal(index), rest);
    } else {
      visit := ItemIsVisited(f, items.others, role, path, index + 1, token, rest);
    }
  }

  lemma {:induction false} MemberIsVisited(f: Transform, members: Members, role: Role, path: string, taken: set<string>,
                                           key: string, rest: string) returns (visit: Visit)
    requires CopiedMembers(f, members, role, path, taken).Some?
    requires var member := Lookup(CopiedMembers(f, members, role, path, taken).value.to, key);
      member.Some? && Resolve(member.value, rest).Some?
    ensures visit in CopiedMembers(f, members, role, path, taken).value.visits
    ensures visit.pointer == path + "/" + Escape(key) + rest && !visit.key && !visit.token.Close?
    decreases members
  {
    var first := CopiedKey(f, members.key, path, taken).value;
    if first == key {
      visit := ValueIsVisited(f, members.value, ChildRole(role, key), path + "/" + Escape(key), rest);
    } else {
      visit := MemberIsVisited(f, members.rest, role, path, Taken(path, taken, first), key, rest);
    }
  }

  // ---- What a transform may change ----

  /** Same tokens, but for strings the transform was handed and answered. */
  predicate Answered(f: Transform, before: Token, after: Token, role: Role, pointer: string, key: bool) {
    before.Text? && after.Text? && f(before.text, role, pointer, key) == Some(after.text)
  }

  ghost predicate ChangesOnly(f: Transform, before: seq<Token>, after: seq<Token>) {
    |before| == |after| && forall i :: 0 <= i < |before| ==>
        before[i] == after[i] || exists role, pointer, key :: Answered(f, before[i], after[i], role, pointer, key)
  }

  lemma ChangesJoin(f: Transform, a: seq<Token>, a': seq<Token>, b: seq<Token>, b': seq<Token>)
    requires ChangesOnly(f, a, a') && ChangesOnly(f, b, b')
    ensures ChangesOnly(f, a + b, a' + b')
  {
  }

  /** A transform changes only the strings it is handed. */
  lemma {:induction false} ValueChanges(f: Transform, v: Value, role: Role, path: string)
    requires Copied(f, v, role, path).Some?
    ensures ChangesOnly(f, Tokens(v), Tokens(Copied(f, v, role, path).value.to))
    decreases v
  {
    match v
    case Str(s) => assert Answered(f, Text(s), Tokens(Copied(f, v, role, path).value.to)[0], role, path, false);
    case Arr(items) =>
      ItemChanges(f, items, role, path, 0);
      var to := CopiedItems(f, items, role, path, 0).value.to;
      ChangesJoin(f, [Open(false)], [Open(false)], ItemTokens(items), ItemTokens(to));
      ChangesJoin(f, [Open(false)] + ItemTokens(items), [Open(false)] + ItemTokens(to), [Close(false)], [Close(false)]);
    case Obj(members) =>
      MemberChanges(f, members, role, path, {});
      var to := CopiedMembers(f, members, role, path, {}).value.to;
      ChangesJoin(f, [Open(true)], [Open(true)], MemberTokens(members), MemberTokens(to));
      ChangesJoin(f, [Open(true)] + MemberTokens(members), [Open(true)] + MemberTokens(to), [Close(true)],
                  [Close(true)]);
    case _ =>
  }

  lemma {:induction false} ItemChanges(f: Transform, items: Values, role: Role, path: string, index: nat)
    requires CopiedItems(f, items, role, path, index).Some?
    ensures ChangesOnly(f, ItemTokens(items), ItemTokens(CopiedItems(f, items, role, path, index).value.to))
    decreases items
  {
    if items.Item? {
      var step := path + "/" + Decimal(index);
      ValueChanges(f, items.first, role, step);
      ItemChanges(f, items.others, role, path, index + 1);
      ChangesJoin(f, Tokens(items.first), Tokens(Copied(f, items.first, role, step).value.to),
                  ItemTokens(items.others), ItemTokens(CopiedItems(f, items.others, role, path, index + 1).value.to));
    }
  }

  lemma {:induction false} MemberChanges(f: Transform, members: Members, role: Role, path: string, taken: set<string>)
    requires CopiedMembers(f, members, role, path, taken).Some?
    ensures ChangesOnly(f, MemberTokens(members), MemberTokens(CopiedMembers(f, members, role, path, taken).value.to))
    decreases members
  {
    if members.Member? {
      var key := CopiedKey(f, members.key, path, taken).value;
      var under, step := ChildRole(role, key), path + "/" + Escape(key);
      var value := Copied(f, members.value, under, step).value.to;
      var rest := CopiedMembers(f, members.rest, role, path, Taken(path, taken, key)).value.to;
      assert key == members.key || Answered(f, Text(members.key), Text(key), Js, path, true);
      assert ChangesOnly(f, [Text(members.key)], [Text(key)]);
      ValueChanges(f, members.value, under, step);
      MemberChanges(f, members.rest, role, path, Taken(path, taken, key));
      ChangesJoin(f, [Text(members.key)], [Text(key)], Tokens(members.value), Tokens(value));
      ChangesJoin(f, [Text(members.key)] + Tokens(members.value), [Text(key)] + Tokens(value),
                  MemberTokens(members.rest), MemberTokens(rest));
    }
  }
}
