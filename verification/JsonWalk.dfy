/**
 * The walker that reads one JSON value from a token cursor, rejecting repeated keys, nulls and deep nesting before any
 * decoder can discard them; and what the token streams it accepts are.
 */
module JsonWalk {
  import opened Prelude

  /** What the lexer hands out. `Bad` stands for text that is not a token: reading it is an error, not the end. */
  datatype Token = ObjectOpen | ObjectClose | ArrayOpen | ArrayClose
                 | Text(text: string) | Number(literal: string) | Boolean(flag: bool) | Null | Bad

  datatype Tree = Leaf(token: Token) | List(items: seq<Tree>) | Object(members: seq<Member>)
  datatype Member = Member(key: string, value: Tree)

  predicate IsLeaf(t: Token) {
    t.Text? || t.Number? || t.Boolean? || t.Null?
  }

  // ---------------------------------------------------------------- serialisation

  function Serialize(t: Tree): seq<Token> {
    match t
    case Leaf(token) => [token]
    case List(items) => [ArrayOpen] + SerializeItems(items) + [ArrayClose]
    case Object(members) => [ObjectOpen] + SerializeMembers(members) + [ObjectClose]
  }

  function SerializeItems(items: seq<Tree>): seq<Token> {
    if items == [] then [] else Serialize(items[0]) + SerializeItems(items[1..])
  }

  function SerializeMembers(members: seq<Member>): seq<Token> {
    if members == [] then []
    else [Text(members[0].key)] + Serialize(members[0].value) + SerializeMembers(members[1..])
  }

  predicate DistinctKeys(members: seq<Member>) {
    forall i, j :: 0 <= i < j < |members| ==> members[i].key != members[j].key
  }

  /** No repeated key in any object, nulls only where allowed, and nesting within the room that is left. */
  predicate Acceptable(t: Tree, nulls: bool, room: int)
    decreases t
  {
    && room >= 0
    && match t
       case Leaf(token) => IsLeaf(token) && (token.Null? ==> nulls)
       case List(items) => forall item | item in items :: Acceptable(item, nulls, room - 1)
       case Object(members) => DistinctKeys(members) && forall m | m in members :: Acceptable(m.value, nulls, room - 1)
  }

  // ---------------------------------------------------------------- reading

  /** Read one value: the tree, and the tokens after it. */
  function Read(ts: seq<Token>, nulls: bool, room: int): (r: Option<(Tree, seq<Token>)>)
    ensures r.Some? ==> |r.value.1| < |ts|
    decreases |ts|, 0
  {
    if room < 0 || ts == [] then None
    else if IsLeaf(ts[0]) then (if ts[0].Null? && !nulls then None else Some((Leaf(ts[0]), ts[1..])))
    else if ts[0] == ObjectOpen then
      var r := ReadMembers(ts[1..], nulls, room - 1, {});
      if r.Some? then Some((Object(r.value.0), r.value.1)) else None
    else if ts[0] == ArrayOpen then
      var r := ReadItems(ts[1..], nulls, room - 1);
      if r.Some? then Some((List(r.value.0), r.value.1)) else None
    else None
  }

  function ReadItems(ts: seq<Token>, nulls: bool, room: int): (r: Option<(seq<Tree>, seq<Token>)>)
    ensures r.Some? ==> |r.value.1| < |ts|
    decreases |ts|, 1
  {
    if ts == [] || ts[0] == ObjectClose then None
    else if ts[0] == ArrayClose then Some(([], ts[1..]))
    else
      var first := Read(ts, nulls, room);
      if first.None? then None else
        var rest := ReadItems(first.value.1, nulls, room);
        if rest.None? then None else Some(([first.value.0] + rest.value.0, rest.value.1))
  }

  function ReadMembers(ts: seq<Token>, nulls: bool, room: int, seen: set<string>): (r: Option<(seq<Member>, seq<Token>)>)
    ensures r.Some? ==> |r.value.1| < |ts|
    decreases |ts|, 1
  {
    if ts == [] || ts[0] == ArrayClose then None
    else if ts[0] == ObjectClose then Some(([], ts[1..]))
    else if !ts[0].Text? || ts[0].text in seen then None
    else
      var value := Read(ts[1..], nulls, room);
      if value.None? then None else
        var rest := ReadMembers(value.value.1, nulls, room, seen + {ts[0].text});
        if rest.None? then None else Some(([Member(ts[0].text, value.value.0)] + rest.value.0, rest.value.1))
  }

  lemma LeafWhole(ts: seq<Token>)
    requires ts != []
    ensures ts == Serialize(Leaf(ts[0])) + ts[1..]
  {
  }

  lemma ListWhole(ts: seq<Token>, items: seq<Tree>, rest: seq<Token>)
    requires ts != [] && ts[0] == ArrayOpen && ts[1..] == SerializeItems(items) + [ArrayClose] + rest
    ensures ts == Serialize(List(items)) + rest
  {
    hide SerializeItems;
    assert ts == [ts[0]] + ts[1..];
  }

  lemma ObjectWhole(ts: seq<Token>, members: seq<Member>, rest: seq<Token>)
    requires ts != [] && ts[0] == ObjectOpen && ts[1..] == SerializeMembers(members) + [ObjectClose] + rest
    ensures ts == Serialize(Object(members)) + rest
  {
    hide SerializeMembers;
    assert ts == [ts[0]] + ts[1..];
  }

  /** What is read is an acceptable tree, and the tokens consumed are its serialisation. */
  lemma {:induction false} ReadIsSound(ts: seq<Token>, nulls: bool, room: int)
    requires Read(ts, nulls, room).Some?
    ensures var r := Read(ts, nulls, room).value; Acceptable(r.0, nulls, room) && ts == Serialize(r.0) + r.1
    decreases |ts|, 0
  {
    hide Serialize, SerializeItems, SerializeMembers, ReadItems, ReadMembers, DistinctKeys;
    if ts[0] == ObjectOpen {
      ReadMembersIsSound(ts[1..], nulls, room - 1, {});
      var r := ReadMembers(ts[1..], nulls, room - 1, {}).value;
      ObjectWhole(ts, r.0, r.1);
    } else if ts[0] == ArrayOpen {
      ReadItemsIsSound(ts[1..], nulls, room - 1);
      var r := ReadItems(ts[1..], nulls, room - 1).value;
      ListWhole(ts, r.0, r.1);
    } else {
      LeafWhole(ts);
    }
  }

  lemma {:induction false} ReadItemsIsSound(ts: seq<Token>, nulls: bool, room: int)
    requires ReadItems(ts, nulls, room).Some?
    ensures var r := ReadItems(ts, nulls, room).value;
            (forall item | item in r.0 :: Acceptable(item, nulls, room)) && ts == SerializeItems(r.0) + [ArrayClose] + r.1
    decreases |ts|, 1
  {
    hide Serialize, Read, Acceptable;
    if ts[0] == ArrayClose {
      assert ts == [ts[0]] + ts[1..];
    } else {
      var first := Read(ts, nulls, room).value;
      ReadIsSound(ts, nulls, room);
      ReadItemsIsSound(first.1, nulls, room);
      var rest := ReadItems(first.1, nulls, room).value;
      hide SerializeItems;
      PrependItem(first.0, rest.0, ts, first.1, rest.1);
    }
  }

  lemma PrependItem(item: Tree, rest: seq<Tree>, ts: seq<Token>, middle: seq<Token>, after: seq<Token>)
    requires ts == Serialize(item) + middle && middle == SerializeItems(rest) + [ArrayClose] + after
    ensures ts == SerializeItems([item] + rest) + [ArrayClose] + after
  {
    hide Serialize;
    var all := [item] + rest;
    assert all[0] == item && all[1..] == rest;
    assert SerializeItems(all) == Serialize(item) + SerializeItems(rest);
  }

  lemma {:induction false} ReadMembersIsSound(ts: seq<Token>, nulls: bool, room: int, seen: set<string>)
    requires ReadMembers(ts, nulls, room, seen).Some?
    ensures var r := ReadMembers(ts, nulls, room, seen).value;
            && DistinctKeys(r.0) && (forall m | m in r.0 :: m.key !in seen && Acceptable(m.value, nulls, room))
            && ts == SerializeMembers(r.0) + [ObjectClose] + r.1
    decreases |ts|, 1
  {
    if ts[0] != ObjectClose {
      var value := Read(ts[1..], nulls, room).value;
      ReadIsSound(ts[1..], nulls, room);
      ReadMembersIsSound(value.1, nulls, room, seen + {ts[0].text});
      var rest := ReadMembers(value.1, nulls, room, seen + {ts[0].text}).value;
      PrependMember(Member(ts[0].text, value.0), rest.0, ts, value.1, rest.1);
    }
  }

  lemma PrependMember(m: Member, rest: seq<Member>, ts: seq<Token>, middle: seq<Token>, after: seq<Token>)
    requires DistinctKeys(rest) && (forall r | r in rest :: r.key != m.key)
    requires ts != [] && ts[0] == Text(m.key) && ts[1..] == Serialize(m.value) + middle
    requires middle == SerializeMembers(rest) + [ObjectClose] + after
    ensures DistinctKeys([m] + rest)
    ensures ts == SerializeMembers([m] + rest) + [ObjectClose] + after
  {
    var all := [m] + rest;
    assert all[0] == m && all[1..] == rest && ts == [ts[0]] + ts[1..];
    assert SerializeMembers(all) == [Text(m.key)] + Serialize(m.value) + SerializeMembers(rest);
  }

  /** Every acceptable tree is read back from its serialisation, whatever follows it. */
  lemma {:induction false} ReadIsComplete(t: Tree, rest: seq<Token>, nulls: bool, room: int)
    requires Acceptable(t, nulls, room)
    ensures Read(Serialize(t) + rest, nulls, room) == Some((t, rest))
    decreases t, 1, 0
  {
    match t
    case Leaf(token) =>
      assert ([token] + rest)[1..] == rest;
    case List(items) =>
      ReadItemsIsComplete(t, items, rest, nulls, room - 1);
      ListReadsOn(items, rest, nulls, room);
    case Object(members) =>
      ReadMembersIsComplete(t, members, rest, nulls, room - 1, {});
      ObjectReadsOn(members, rest, nulls, room);
  }

  lemma ListReadsOn(items: seq<Tree>, rest: seq<Token>, nulls: bool, room: int)
    requires room >= 0 && ReadItems(SerializeItems(items) + [ArrayClose] + rest, nulls, room - 1) == Some((items, rest))
    ensures Read(Serialize(List(items)) + rest, nulls, room) == Some((List(items), rest))
  {
    hide SerializeItems, ReadItems;
    var ts := Serialize(List(items)) + rest;
    assert ts[1..] == SerializeItems(items) + [ArrayClose] + rest;
  }

  lemma ObjectReadsOn(members: seq<Member>, rest: seq<Token>, nulls: bool, room: int)
    requires room >= 0
    requires ReadMembers(SerializeMembers(members) + [ObjectClose] + rest, nulls, room - 1, {}) == Some((members, rest))
    ensures Read(Serialize(Object(members)) + rest, nulls, room) == Some((Object(members), rest))
  {
    hide SerializeMembers, ReadMembers;
    var ts := Serialize(Object(members)) + rest;
    assert ts[1..] == SerializeMembers(members) + [ObjectClose] + rest;
  }

  lemma NoItems(rest: seq<Token>, nulls: bool, room: int)
    ensures ReadItems(SerializeItems([]) + [ArrayClose] + rest, nulls, room) == Some(([], rest))
  {
    assert (SerializeItems([]) + [ArrayClose] + rest)[1..] == rest;
  }

  lemma NoMembers(rest: seq<Token>, nulls: bool, room: int, seen: set<string>)
    ensures ReadMembers(SerializeMembers([]) + [ObjectClose] + rest, nulls, room, seen) == Some(([], rest))
  {
    assert (SerializeMembers([]) + [ObjectClose] + rest)[1..] == rest;
  }

  lemma SplitItems(items: seq<Tree>, rest: seq<Token>)
    requires items != []
    ensures SerializeItems(items) + [ArrayClose] + rest
            == Serialize(items[0]) + (SerializeItems(items[1..]) + [ArrayClose] + rest)
  {
  }

  lemma DropHead<T>(head: T, a: seq<T>, b: seq<T>, c: seq<T>, d: seq<T>)
    ensures var s := [head] + a + b + c + d; s[0] == head && s[1..] == a + (b + c + d)
  {
    var s, tail := [head] + a + b + c + d, a + (b + c + d);
    assert s == [head] + tail;
  }

  lemma SplitMembers(members: seq<Member>, rest: seq<Token>)
    requires members != []
    ensures var ts := SerializeMembers(members) + [ObjectClose] + rest;
            && ts != [] && ts[0] == Text(members[0].key)
            && ts[1..] == Serialize(members[0].value) + (SerializeMembers(members[1..]) + [ObjectClose] + rest)
  {
    hide Serialize;
    DropHead(Text(members[0].key), Serialize(members[0].value), SerializeMembers(members[1..]), [ObjectClose], rest);
  }

  lemma {:induction false} ReadItemsIsComplete(parent: Tree, items: seq<Tree>, rest: seq<Token>, nulls: bool, room: int)
    requires forall item | item in items :: item < parent && Acceptable(item, nulls, room)
    ensures ReadItems(SerializeItems(items) + [ArrayClose] + rest, nulls, room) == Some((items, rest))
    decreases parent, 0, |items|
  {
    hide Serialize, SerializeItems, Acceptable, Read, ReadItems;
    var ts := SerializeItems(items) + [ArrayClose] + rest;
    if items == [] {
      NoItems(rest, nulls, room);
    } else {
      var after := SerializeItems(items[1..]) + [ArrayClose] + rest;
      SplitItems(items, rest);
      assert items[0] in items && forall item | item in items[1..] :: item in items;
      ReadIsComplete(items[0], after, nulls, room);
      ReadItemsIsComplete(parent, items[1..], rest, nulls, room);
      ItemsReadOn(ts, nulls, room, items[0], after);
      assert items == [items[0]] + items[1..];
    }
  }

  lemma ItemsReadOn(ts: seq<Token>, nulls: bool, room: int, item: Tree, after: seq<Token>)
    requires Read(ts, nulls, room) == Some((item, after))
    ensures var rest := ReadItems(after, nulls, room);
            ReadItems(ts, nulls, room) == if rest.None? then None else Some(([item] + rest.value.0, rest.value.1))
  {
  }

  lemma MembersReadOn(ts: seq<Token>, nulls: bool, room: int, seen: set<string>, m: Member, after: seq<Token>)
    requires ts != [] && ts[0] == Text(m.key) && m.key !in seen && Read(ts[1..], nulls, room) == Some((m.value, after))
    ensures var rest := ReadMembers(after, nulls, room, seen + {m.key});
            ReadMembers(ts, nulls, room, seen) == if rest.None? then None else Some(([m] + rest.value.0, rest.value.1))
  {
  }

  lemma {:induction false} ReadMembersIsComplete(parent: Tree, members: seq<Member>, rest: seq<Token>, nulls: bool,
                                                 room: int, seen: set<string>)
    requires DistinctKeys(members)
    requires forall m | m in members :: m.key !in seen && m.value < parent && Acceptable(m.value, nulls, room)
    ensures ReadMembers(SerializeMembers(members) + [ObjectClose] + rest, nulls, room, seen) == Some((members, rest))
    decreases parent, 0, |members|
  {
    hide Serialize, SerializeMembers, Acceptable, Read, ReadMembers;
    var ts := SerializeMembers(members) + [ObjectClose] + rest;
    if members == [] {
      NoMembers(rest, nulls, room, seen);
    } else {
      var after := SerializeMembers(members[1..]) + [ObjectClose] + rest;
      SplitMembers(members, rest);
      assert members[0] in members && forall m | m in members[1..] :: m in members;
      ReadIsComplete(members[0].value, after, nulls, room);
      ReadMembersIsComplete(parent, members[1..], rest, nulls, room, seen + {members[0].key});
      MembersReadOn(ts, nulls, room, seen, members[0], after);
      assert members == [members[0]] + members[1..];
    }
  }

  /** A value's tokens determine the value and where it ends: no serialisation is a prefix of another. */
  lemma SerialisationIsPrefixFree(a: Tree, b: Tree, after: seq<Token>, beyond: seq<Token>, room: int)
    requires Acceptable(a, true, room) && Acceptable(b, true, room)
    requires Serialize(a) + after == Serialize(b) + beyond
    ensures a == b && after == beyond
  {
    ReadIsComplete(a, after, true, room);
    ReadIsComplete(b, beyond, true, room);
  }

  /** The token stream is exactly one acceptable value. */
  ghost predicate IsDocument(ts: seq<Token>, nulls: bool, bound: nat) {
    exists t :: Acceptable(t, nulls, bound) && Serialize(t) == ts
  }

  lemma DocumentsAreRead(ts: seq<Token>, nulls: bool, bound: nat)
    ensures IsDocument(ts, nulls, bound) <==> Read(ts, nulls, bound).Some? && Read(ts, nulls, bound).value.1 == []
  {
    if Read(ts, nulls, bound).Some? {
      ReadIsSound(ts, nulls, bound);
      var r := Read(ts, nulls, bound).value;
      if r.1 == [] {
        assert Serialize(r.0) + [] == Serialize(r.0);
      }
    }
    if IsDocument(ts, nulls, bound) {
      var t :| Acceptable(t, nulls, bound) && Serialize(t) == ts;
      ReadIsComplete(t, [], nulls, bound);
      assert Serialize(t) + [] == ts;
    }
  }

  // ---------------------------------------------------------------- the cursor

  class Decoder {
    const tokens: seq<Token>
    var position: nat

    ghost predicate Valid()
      reads this
    {
      position <= |tokens|
    }

    function Rest(): seq<Token>
      requires Valid()
      reads this
    {
      tokens[position..]
    }

    constructor (tokens: seq<Token>)
      ensures Valid() && this.tokens == tokens && Rest() == tokens
    {
      this.tokens := tokens;
      position := 0;
    }

    /** The next token; nothing at the end of the input and nothing at text that is not a token. */
    method Next() returns (token: Option<Token>)
      requires Valid()
      modifies this
      ensures Valid()
      ensures token.Some? <==> old(Rest()) != [] && old(Rest())[0] != Bad
      ensures token.Some? ==> token.value == old(Rest())[0] && Rest() == old(Rest())[1..]
      ensures token.None? ==> Rest() == old(Rest())
    {
      if position == |tokens| || tokens[position] == Bad {
        return None;
      }
      token := Some(tokens[position]);
      position := position + 1;
    }

    function AtEnd(): (r: bool)
      requires Valid()
      reads this
      ensures r <==> Rest() == []
    {
      position == |tokens|
    }

    /** Whether another element follows in the container being read. */
    function More(): bool
      requires Valid()
      reads this
    {
      position < |tokens| && tokens[position] != ObjectClose && tokens[position] != ArrayClose
    }

    /** Consume exactly one value, accepting just what `Read` accepts. */
    method Walk(nulls: bool, bound: nat, depth: nat) returns (ok: bool)
      requires Valid()
      modifies this
      ensures Valid()
      ensures ok <==> Read(old(Rest()), nulls, bound - depth).Some?
      ensures ok ==> Rest() == Read(old(Rest()), nulls, bound - depth).value.1
      decreases |Rest()|, 0
    {
      if depth > bound {
        return false;
      }
      var token := Next();
      if token.None? || (token.value.Null? && !nulls) {
        return false;
      }
      if IsLeaf(token.value) {
        return true;
      }
      match token.value {
        case ObjectOpen =>
          ok := WalkMembers(nulls, bound, depth);
        case ArrayOpen =>
          ok := WalkItems(nulls, bound, depth);
        case _ =>
          ok := false;
      }
    }

    method WalkMembers(nulls: bool, bound: nat, depth: nat) returns (ok: bool)
      requires Valid()
      modifies this
      ensures Valid()
      ensures ok <==> ReadMembers(old(Rest()), nulls, bound - depth - 1, {}).Some?
      ensures ok ==> Rest() == ReadMembers(old(Rest()), nulls, bound - depth - 1, {}).value.1
      decreases |Rest()|, 1
    {
      var seen: set<string> := {};
      var more := More();
      while more
        invariant Valid() && more == More() && |Rest()| <= |old(Rest())|
        invariant ReadMembers(old(Rest()), nulls, bound - depth - 1, {}).Some?
                  <==> ReadMembers(Rest(), nulls, bound - depth - 1, seen).Some?
        invariant ReadMembers(Rest(), nulls, bound - depth - 1, seen).Some? ==>
                    ReadMembers(Rest(), nulls, bound - depth - 1, seen).value.1
                    == ReadMembers(old(Rest()), nulls, bound - depth - 1, {}).value.1
        decreases |Rest()|
      {
        var key := Next();
        if key.None? || !key.value.Text? || key.value.text in seen {
          return false;
        }
        seen := seen + {key.value.text};
        var inner := Walk(nulls, bound, depth + 1);
        if !inner {
          return false;
        }
        more := More();
      }
      var closing := Next();
      ok := closing == Some(ObjectClose);
    }

    method WalkItems(nulls: bool, bound: nat, depth: nat) returns (ok: bool)
      requires Valid()
      modifies this
      ensures Valid()
      ensures ok <==> ReadItems(old(Rest()), nulls, bound - depth - 1).Some?
      ensures ok ==> Rest() == ReadItems(old(Rest()), nulls, bound - depth - 1).value.1
      decreases |Rest()|, 1
    {
      var more := More();
      while more
        invariant Valid() && more == More() && |Rest()| <= |old(Rest())|
        invariant ReadItems(old(Rest()), nulls, bound - depth - 1).Some?
                  <==> ReadItems(Rest(), nulls, bound - depth - 1).Some?
        invariant ReadItems(Rest(), nulls, bound - depth - 1).Some? ==>
                    ReadItems(Rest(), nulls, bound - depth - 1).value.1
                    == ReadItems(old(Rest()), nulls, bound - depth - 1).value.1
        decreases |Rest()|
      {
        var inner := Walk(nulls, bound, depth + 1);
        if !inner {
          return false;
        }
        more := More();
      }
      var closing := Next();
      ok := closing == Some(ArrayClose);
    }
  }

  /**
   * The whole input is one value with nothing after it: accepted if and only if the tokens are the serialisation of one
   * tree with no repeated key in any object, no null unless allowed, and nesting within the bound.
   */
  method InspectJson(tokens: seq<Token>, nulls: bool, bound: nat) returns (ok: bool)
    ensures ok <==> IsDocument(tokens, nulls, bound)
  {
    DocumentsAreRead(tokens, nulls, bound);
    hide IsDocument, Read, Acceptable, Serialize, IsLeaf, Decoder.AtEnd, Decoder.Rest;
    var decoder := new Decoder(tokens);
    ok := decoder.Walk(nulls, bound, 0);
    if ok {
      ok := decoder.AtEnd();
    }
  }

  /** The members of an object are exactly the required keys. */
  method RequireExactKeys(present: set<string>, required: seq<string>) returns (ok: bool)
    ensures ok <==> present == set key | key in required
  {
    var wanted: set<string> := {};
    var all := set key | key in required;
    for i := 0 to |required|
      invariant wanted == set k | 0 <= k < i :: required[k]
      invariant wanted <= present
    {
      wanted := wanted + {required[i]};
      if required[i] !in present {
        assert required[i] in all;
        return false;
      }
    }
    assert wanted == all;
    var unknown := present - wanted;
    ok := unknown == {};
    if ok {
      assert forall key | key in present :: key !in unknown;
    }
  }
}
