/**
 * Validation of member names against a destination type, and why it makes a case-folding, last-wins decoder safe: on a
 * document that passes, folding never decides anything.
 */
module ExactJson {
  import opened Prelude
  import opened JsonWalk

  const MAXIMUM_DEPTH: nat := 128

  /** A destination type. `Opaque` types decode themselves; `Other` kinds (interfaces) are not looked into. */
  datatype Type = Pointer(elem: Type) | Opaque | Struct(fields: seq<Field>) | Bytes | Array(elem: Type) | Map(elem: Type)
                | Bool | String | Numeric | Other

  /** A field of a struct: its Go name, whether it is exported or embedded, and the name and option of its json tag. */
  datatype Field = Field(goName: string, exported: bool, embedded: bool, tag: string, omitEmpty: bool, typ: Type)

  datatype Definition = Definition(typ: Type, optional: bool)
  datatype Flat = Flat(name: string, definition: Definition)

  type Table = map<string, Definition>

  // ---------------------------------------------------------------- fields

  function Stripped(t: Type): (r: Type)
    ensures !r.Pointer?
    ensures r == t || r < t
  {
    if t.Pointer? then Stripped(t.elem) else t
  }

  /** The members a struct accepts, embedded structs spread out in place. */
  function Flatten(fields: seq<Field>): seq<Flat> {
    if fields == [] then []
    else
      var f := fields[0];
      (if !f.exported || f.tag == "-" then []
       else if f.embedded && f.tag == "" && Stripped(f.typ).Struct? then Flatten(Stripped(f.typ).fields)
       else [Flat(if f.tag == "" then f.goName else f.tag, Definition(f.typ, f.omitEmpty))])
      + Flatten(fields[1..])
  }

  /** Add members one by one; a name that is already there is ambiguous. */
  function Extend(table: Table, flats: seq<Flat>): Option<Table>
    decreases |flats|
  {
    if flats == [] then Some(table)
    else if flats[0].name in table then None
    else Extend(table[flats[0].name := flats[0].definition], flats[1..])
  }

  lemma {:induction false} ExtendAppends(table: Table, a: seq<Flat>, b: seq<Flat>)
    ensures Extend(table, a + b)
            == if Extend(table, a).Some? then Extend(Extend(table, a).value, b) else None
    decreases |a|
  {
    if a == [] {
      assert a + b == b;
    } else {
      assert (a + b)[0] == a[0] && (a + b)[1..] == a[1..] + b;
      if a[0].name !in table {
        ExtendAppends(table[a[0].name := a[0].definition], a[1..], b);
      }
    }
  }

  predicate DistinctNames(flats: seq<Flat>) {
    forall i, j :: 0 <= i < j < |flats| ==> flats[i].name != flats[j].name
  }

  /** The table exists exactly for unambiguous names. */
  lemma {:induction false} TableExists(table: Table, flats: seq<Flat>)
    ensures Extend(table, flats).Some? <==> DistinctNames(flats) && forall f | f in flats :: f.name !in table
    decreases |flats|
  {
    if flats != [] {
      assert forall f | f in flats :: f == flats[0] || f in flats[1..];
      if flats[0].name !in table {
        TableExists(table[flats[0].name := flats[0].definition], flats[1..]);
        assert DistinctNames(flats) <==>
               DistinctNames(flats[1..]) && forall f | f in flats[1..] :: f.name != flats[0].name;
      }
    }
  }

  /** The table holds exactly the members listed, besides what was in it. */
  lemma {:induction false} TableMeaning(table: Table, flats: seq<Flat>)
    requires Extend(table, flats).Some?
    ensures var all := Extend(table, flats).value;
            && (forall name | name in all :: name in table || exists f :: f in flats && f.name == name)
            && (forall f | f in flats :: f.name in all && all[f.name] == f.definition)
            && (forall name | name in table :: name in all && all[name] == table[name])
    decreases |flats|
  {
    if flats != [] {
      assert forall f | f in flats :: f == flats[0] || f in flats[1..];
      TableMeaning(table[flats[0].name := flats[0].definition], flats[1..]);
    }
  }

  class FieldTable {
    var fields: Table

    constructor ()
      ensures fields == map[]
    {
      fields := map[];
    }

    /** Fill the table in place, descending into embedded structs; fails on the first ambiguous name. */
    method Collect(all: seq<Field>) returns (ok: bool)
      modifies this
      ensures ok <==> Extend(old(fields), Flatten(all)).Some?
      ensures ok ==> Some(fields) == Extend(old(fields), Flatten(all))
      decreases all
    {
      for i := 0 to |all|
        invariant Extend(old(fields), Flatten(all)) == Extend(fields, Flatten(all[i..]))
      {
        var f := all[i];
        assert all[i..][0] == f && all[i..][1..] == all[i + 1..];
        if !f.exported || f.tag == "-" {
          assert Flatten(all[i..]) == Flatten(all[i + 1..]);
          continue;
        }
        var embedded := Stripped(f.typ);
        if f.embedded && f.tag == "" && embedded.Struct? {
          ExtendAppends(fields, Flatten(embedded.fields), Flatten(all[i + 1..]));
          var inner := Collect(embedded.fields);
          if !inner {
            return false;
          }
          continue;
        }
        var name := if f.tag == "" then f.goName else f.tag;
        ghost var flat := Flat(name, Definition(f.typ, f.omitEmpty));
        assert Flatten(all[i..]) == [flat] + Flatten(all[i + 1..]);
        if name in fields {
          return false;
        }
        fields := fields[name := Definition(f.typ, f.omitEmpty)];
      }
      ok := true;
    }
  }

  // ---------------------------------------------------------------- validation

  predicate IsNull(v: Tree) {
    v == Leaf(Null)
  }

  /** An object as a generic decoder holds it: the last member of a name wins. */
  function Collapse(members: seq<Member>): (r: map<string, Tree>)
    ensures forall key :: key in r <==> exists m :: m in members && m.key == key
    ensures forall key | key in r :: Member(key, r[key]) in members
  {
    if members == [] then map[]
    else Collapse(members[..|members| - 1])[members[|members| - 1].key := members[|members| - 1].value]
  }

  lemma CollapsedIsSmaller(v: Tree, key: string)
    requires v.Object? && key in Collapse(v.members)
    ensures Collapse(v.members)[key] < v
  {
    assert Member(key, Collapse(v.members)[key]) in v.members;
  }

  function FieldsOf(fields: seq<Field>): Option<Table> {
    Extend(map[], Flatten(fields))
  }

  /** What it means for a document to fit a destination type, within the nesting that is left. */
  predicate Conforms(v: Tree, t: Type, room: int)
    decreases v, t
  {
    && room >= 0
    && match t
       case Pointer(elem) => IsNull(v) || Conforms(v, elem, room)
       case Opaque => !IsNull(v)
       case Other => !IsNull(v)
       case Bytes => v.Leaf? && v.token.Text?
       case String => v.Leaf? && v.token.Text?
       case Bool => v.Leaf? && v.token.Boolean?
       case Numeric => v.Leaf? && v.token.Number?
       case Array(elem) => v.List? && forall item | item in v.items :: Conforms(item, elem, room - 1)
       case Map(elem) => v.Object? && forall key | key in Collapse(v.members) ::
                           CollapsedIsSmaller(v, key); Conforms(Collapse(v.members)[key], elem, room - 1)
       case Struct(fields) =>
         && v.Object? && FieldsOf(fields).Some?
         && var table := FieldsOf(fields).value;
         && (forall key | key in Collapse(v.members) :: key in table &&
               (CollapsedIsSmaller(v, key); Conforms(Collapse(v.members)[key], table[key].typ, room - 1)))
         && forall name | name in table && !table[name].optional :: name in Collapse(v.members)
  }

  /** The validator: members are visited in whatever order the map yields them. */
  method ValidateValue(v: Tree, t: Type, depth: nat) returns (ok: bool)
    ensures ok <==> Conforms(v, t, MAXIMUM_DEPTH - depth)
    decreases v, 1
  {
    if depth > MAXIMUM_DEPTH {
      return false;
    }
    var destination := t;
    while destination.Pointer?
      invariant Conforms(v, t, MAXIMUM_DEPTH - depth) <==> Conforms(v, destination, MAXIMUM_DEPTH - depth)
      decreases destination
    {
      if IsNull(v) {
        return true;
      }
      destination := destination.elem;
    }
    if IsNull(v) {
      return false;
    }
    match destination
    case Opaque => ok := true;
    case Other => ok := true;
    case Bytes => ok := v.Leaf? && v.token.Text?;
    case String => ok := v.Leaf? && v.token.Text?;
    case Bool => ok := v.Leaf? && v.token.Boolean?;
    case Numeric => ok := v.Leaf? && v.token.Number?;
    case Array(elem) =>
      if !v.List? {
        return false;
      }
      for i := 0 to |v.items|
        invariant forall k | 0 <= k < i :: Conforms(v.items[k], elem, MAXIMUM_DEPTH - depth - 1)
      {
        var inner := ValidateValue(v.items[i], elem, depth + 1);
        if !inner {
          assert v.items[i] in v.items;
          return false;
        }
      }
      ok := true;
    case Map(elem) =>
      if !v.Object? {
        return false;
      }
      var types := map key | key in Collapse(v.members) :: elem;
      ok := ValidateChildren(v, types, depth);
    case Struct(fields) =>
      if !v.Object? {
        return false;
      }
      var table := new FieldTable();
      var unambiguous := table.Collect(fields);
      if !unambiguous {
        return false;
      }
      var types := map name | name in table.fields :: table.fields[name].typ;
      ok := ValidateChildren(v, types, depth);
      if ok {
        ok := forall name | name in table.fields && !table.fields[name].optional :: name in Collapse(v.members);
      }
  }

  /** One pass over the members of an object, in an arbitrary order, stopping at the first that does not fit. */
  method ValidateChildren(v: Tree, types: map<string, Type>, depth: nat) returns (ok: bool)
    requires v.Object?
    ensures ok <==> forall key | key in Collapse(v.members) ::
                      key in types && Conforms(Collapse(v.members)[key], types[key], MAXIMUM_DEPTH - depth - 1)
    decreases v, 0
  {
    hide Conforms, Collapse;
    var document := Collapse(v.members);
    var rest := document.Keys;
    while rest != {}
      invariant rest <= document.Keys
      invariant forall key | key in document && key !in rest ::
                  key in types && Conforms(document[key], types[key], MAXIMUM_DEPTH - depth - 1)
      decreases |rest|
    {
      var key :| key in rest;
      rest := rest - {key};
      if key !in types {
        return false;
      }
      CollapsedIsSmaller(v, key);
      var inner := ValidateValue(document[key], types[key], depth + 1);
      if !inner {
        return false;
      }
    }
    ok := true;
  }

  /** A whole document against a destination. */
  method ValidateKeys(document: Tree, destination: Type) returns (ok: bool)
    ensures ok <==> Conforms(document, destination, MAXIMUM_DEPTH)
  {
    ok := ValidateValue(document, destination, 0);
  }

  // ---------------------------------------------------------------- decoding

  /** Decoded values. A field that is absent from a record still has the zero value of its type. */
  datatype Data = Unset | Value(tree: Tree) | Record(fields: map<string, Data>) | Items(items: seq<Data>)
                | Entries(entries: map<string, Data>) | Ref(target: Data)

  function Zero(t: Type): Data {
    match t
    case Struct(_) => Record(map[])
    case Map(_) => Entries(map[])
    case _ => Unset
  }

  function FirstFolding(flats: seq<Flat>, key: string, fold: string -> string): Option<Flat> {
    if flats == [] then None
    else if fold(flats[0].name) == fold(key) then Some(flats[0])
    else FirstFolding(flats[1..], key, fold)
  }

  function Exactly(flats: seq<Flat>, key: string): (r: Option<Flat>)
    ensures r.Some? ==> r.value in flats && r.value.name == key
    ensures r.None? ==> forall f | f in flats :: f.name != key
  {
    if flats == [] then None
    else if flats[0].name == key then Some(flats[0])
    else Exactly(flats[1..], key)
  }

  /** The field a member lands in: the exact name if there is one, else the first that differs only in case. */
  function Landing(flats: seq<Flat>, key: string, fold: string -> string): Option<Flat> {
    if Exactly(flats, key).Some? then Exactly(flats, key) else FirstFolding(flats, key, fold)
  }

  /** Go's decoder: members in order, landing by folded name, merged into what is already there. */
  function FoldDecode(v: Tree, t: Type, before: Data, fold: string -> string): Data
    decreases v, 1, t
  {
    match t
    case Pointer(elem) =>
      if IsNull(v) then Unset
      else Ref(FoldDecode(v, elem, if before.Ref? then before.target else Zero(elem), fold))
    case Opaque => Value(v)
    case Other => Value(v)
    case Struct(fields) =>
      if v.Object? then
        Record(FoldMembers(v, |v.members|, Flatten(fields), if before.Record? then before.fields else map[], fold))
      else before
    case Map(elem) =>
      if v.Object? then Entries(FoldEntries(v, |v.members|, elem, if before.Entries? then before.entries else map[], fold))
      else before
    case Array(elem) =>
      if v.List? then Items(seq(|v.items|, i requires 0 <= i < |v.items| => FoldDecode(v.items[i], elem, Zero(elem), fold)))
      else before
    case _ => if IsNull(v) then before else Value(v)
  }

  function FoldMembers(v: Tree, n: nat, flats: seq<Flat>, record: map<string, Data>, fold: string -> string)
    : map<string, Data>
    requires v.Object? && n <= |v.members|
    decreases v, 0, n
  {
    if n == 0 then record
    else
      var before := FoldMembers(v, n - 1, flats, record, fold);
      var m := v.members[n - 1];
      var landing := Landing(flats, m.key, fold);
      if landing.None? then before
      else
        var name, typ := landing.value.name, landing.value.definition.typ;
        before[name := FoldDecode(m.value, typ, if name in before then before[name] else Zero(typ), fold)]
  }

  function FoldEntries(v: Tree, n: nat, elem: Type, entries: map<string, Data>, fold: string -> string): map<string, Data>
    requires v.Object? && n <= |v.members|
    decreases v, 0, n
  {
    if n == 0 then entries
    else
      var m := v.members[n - 1];
      FoldEntries(v, n - 1, elem, entries, fold)[m.key := FoldDecode(m.value, elem, Zero(elem), fold)]
  }

  /** The decoder a schema promises: every field from the member of exactly its name. */
  function ExactDecode(v: Tree, t: Type): Data
    decreases v, t
  {
    match t
    case Pointer(elem) => if IsNull(v) then Unset else Ref(ExactDecode(v, elem))
    case Opaque => Value(v)
    case Other => Value(v)
    case Struct(fields) =>
      if v.Object? && FieldsOf(fields).Some? then
        var table, document := FieldsOf(fields).value, Collapse(v.members);
        Record(map name | name in document && name in table ::
          CollapsedIsSmaller(v, name); ExactDecode(document[name], table[name].typ))
      else Zero(t)
    case Map(elem) =>
      if v.Object? then
        var document := Collapse(v.members);
        Entries(map name | name in document :: CollapsedIsSmaller(v, name); ExactDecode(document[name], elem))
      else Zero(t)
    case Array(elem) =>
      if v.List? then Items(seq(|v.items|, i requires 0 <= i < |v.items| => ExactDecode(v.items[i], elem)))
      else Zero(t)
    case _ => if IsNull(v) then Zero(t) else Value(v)
  }

  lemma LandsExactly(fields: seq<Field>, key: string, fold: string -> string)
    requires FieldsOf(fields).Some? && key in FieldsOf(fields).value
    ensures Landing(Flatten(fields), key, fold) == Some(Flat(key, FieldsOf(fields).value[key]))
  {
    TableMeaning(map[], Flatten(fields));
  }

  /** A decoded record holds the first `n` members of an object, each decoded exactly. */
  ghost predicate HoldsExactly(record: map<string, Data>, v: Tree, n: nat, types: map<string, Type>)
    requires v.Object? && n <= |v.members|
  {
    && (forall key | key in record :: exists i :: 0 <= i < n && v.members[i].key == key)
    && forall i | 0 <= i < n :: v.members[i].key in record && v.members[i].key in types
                                && record[v.members[i].key] == ExactDecode(v.members[i].value, types[v.members[i].key])
  }

  lemma CollapseOfDistinct(members: seq<Member>, m: Member)
    requires DistinctKeys(members) && m in members
    ensures m.key in Collapse(members) && Collapse(members)[m.key] == m.value
  {
    var other := Member(m.key, Collapse(members)[m.key]);
    var i :| 0 <= i < |members| && members[i] == m;
    var j :| 0 <= j < |members| && members[j] == other;
  }

  predicate MemberAgrees(v: Tree, i: nat, t: Type, fold: string -> string)
    requires v.Object? && i < |v.members|
  {
    FoldDecode(v.members[i].value, t, Zero(t), fold) == ExactDecode(v.members[i].value, t)
  }

  lemma NextIsNew(record: map<string, Data>, v: Tree, n: nat, types: map<string, Type>)
    requires v.Object? && n < |v.members| && DistinctKeys(v.members) && HoldsExactly(record, v, n, types)
    ensures v.members[n].key !in record
  {
  }

  lemma HoldsOneMore(record: map<string, Data>, v: Tree, n: nat, types: map<string, Type>, data: Data)
    requires v.Object? && n < |v.members| && DistinctKeys(v.members) && HoldsExactly(record, v, n, types)
    requires v.members[n].key in types && data == ExactDecode(v.members[n].value, types[v.members[n].key])
    ensures HoldsExactly(record[v.members[n].key := data], v, n + 1, types)
  {
    hide ExactDecode;
  }

  lemma {:induction false} MembersAgree(v: Tree, n: nat, fields: seq<Field>, types: map<string, Type>, fold: string -> string)
    requires v.Object? && n <= |v.members| && DistinctKeys(v.members) && FieldsOf(fields).Some?
    requires types == TypesOf(FieldsOf(fields).value)
    requires forall i | 0 <= i < |v.members| ::
               v.members[i].key in types && MemberAgrees(v, i, types[v.members[i].key], fold)
    ensures HoldsExactly(FoldMembers(v, n, Flatten(fields), map[], fold), v, n, types)
  {
    hide Flatten, FieldsOf, Landing, ExactDecode, FoldDecode, Zero, DistinctKeys, MemberAgrees, HoldsExactly;
    if n == 0 {
      NothingHeld(v, types);
    } else {
      MembersAgree(v, n - 1, fields, types, fold);
      var record := FoldMembers(v, n - 1, Flatten(fields), map[], fold);
      var m := v.members[n - 1];
      LandsExactly(fields, m.key, fold);
      NextIsNew(record, v, n - 1, types);
      EntryIsHeld(record, v, n - 1, types[m.key], types, fold);
    }
  }

  lemma {:induction false} EntriesAgree(v: Tree, n: nat, elem: Type, types: map<string, Type>, fold: string -> string)
    requires v.Object? && n <= |v.members| && DistinctKeys(v.members)
    requires forall i | 0 <= i < |v.members| ::
               v.members[i].key in types && types[v.members[i].key] == elem && MemberAgrees(v, i, elem, fold)
    ensures HoldsExactly(FoldEntries(v, n, elem, map[], fold), v, n, types)
  {
    hide ExactDecode, FoldDecode, Zero, DistinctKeys, MemberAgrees, HoldsExactly;
    if n == 0 {
      NothingHeld(v, types);
    } else {
      EntriesAgree(v, n - 1, elem, types, fold);
      EntryIsHeld(FoldEntries(v, n - 1, elem, map[], fold), v, n - 1, elem, types, fold);
    }
  }

  lemma NothingHeld(v: Tree, types: map<string, Type>)
    requires v.Object?
    ensures HoldsExactly(map[], v, 0, types)
  {
  }

  lemma EntryIsHeld(record: map<string, Data>, v: Tree, n: nat, elem: Type, types: map<string, Type>, fold: string -> string)
    requires v.Object? && n < |v.members| && DistinctKeys(v.members) && HoldsExactly(record, v, n, types)
    requires v.members[n].key in types && types[v.members[n].key] == elem && MemberAgrees(v, n, elem, fold)
    ensures HoldsExactly(record[v.members[n].key := FoldDecode(v.members[n].value, elem, Zero(elem), fold)], v, n + 1, types)
  {
    hide ExactDecode, FoldDecode, Zero, DistinctKeys, HoldsExactly;
    HoldsOneMore(record, v, n, types, FoldDecode(v.members[n].value, elem, Zero(elem), fold));
  }

  lemma HeldIsEverything(record: map<string, Data>, v: Tree, types: map<string, Type>, exact: map<string, Data>)
    requires v.Object? && DistinctKeys(v.members) && HoldsExactly(record, v, |v.members|, types)
    requires exact.Keys == Collapse(v.members).Keys && exact.Keys <= types.Keys
    requires forall key | key in exact :: exact[key] == ExactDecode(Collapse(v.members)[key], types[key])
    ensures record == exact
  {
    hide ExactDecode, Collapse, DistinctKeys;
    CollapseIsMembers(v.members);
    forall key | key in exact
      ensures key in record && record[key] == exact[key]
    {
      var i :| 0 <= i < |v.members| && v.members[i].key == key;
    }
    forall key | key in record
      ensures key in exact
    {
      var i :| 0 <= i < |v.members| && v.members[i].key == key;
    }
  }

  /** Without repeated keys the generic object holds exactly the members. */
  lemma CollapseIsMembers(members: seq<Member>)
    requires DistinctKeys(members)
    ensures forall i | 0 <= i < |members| ::
              members[i].key in Collapse(members) && Collapse(members)[members[i].key] == members[i].value
    ensures forall key | key in Collapse(members) :: exists i :: 0 <= i < |members| && members[i].key == key
  {
    hide Collapse, DistinctKeys;
    forall i | 0 <= i < |members|
      ensures members[i].key in Collapse(members) && Collapse(members)[members[i].key] == members[i].value
    {
      CollapseOfDistinct(members, members[i]);
    }
    forall key | key in Collapse(members)
      ensures exists i :: 0 <= i < |members| && members[i].key == key
    {
      var i :| 0 <= i < |members| && members[i] == Member(key, Collapse(members)[key]);
    }
  }

  /**
   * On every document without repeated keys that passes validation, the case-folding, last-wins, merging decoder and the
   * exact-name decoder build the same value, at every level of nesting.
   */
  lemma {:induction false} DecodersAgree(v: Tree, t: Type, fold: string -> string, nulls: bool, space: int, room: int)
    requires Acceptable(v, nulls, space) && Conforms(v, t, room)
    ensures FoldDecode(v, t, Zero(t), fold) == ExactDecode(v, t)
    decreases v, 1, t
  {
    match t
    case Pointer(elem) =>
      if !IsNull(v) {
        DecodersAgree(v, elem, fold, nulls, space, room);
      }
    case Struct(fields) =>
      RecordsAgree(v, fields, fold, nulls, space, room);
    case Map(elem) =>
      MapsAgree(v, elem, fold, nulls, space, room);
    case Array(elem) =>
      forall i | 0 <= i < |v.items|
        ensures FoldDecode(v.items[i], elem, Zero(elem), fold) == ExactDecode(v.items[i], elem)
      {
        assert v.items[i] in v.items;
        DecodersAgree(v.items[i], elem, fold, nulls, space - 1, room - 1);
      }
    case _ =>
  }

  function TypesOf(table: Table): map<string, Type> {
    map name | name in table :: table[name].typ
  }

  lemma FieldFits(v: Tree, i: nat, fields: seq<Field>, nulls: bool, space: int, room: int)
    requires Acceptable(v, nulls, space) && Conforms(v, Struct(fields), room) && i < |v.members|
    ensures FieldsOf(fields).Some? && v.members[i].key in FieldsOf(fields).value && v.members[i].value < v
    ensures Acceptable(v.members[i].value, nulls, space - 1)
    ensures Conforms(v.members[i].value, FieldsOf(fields).value[v.members[i].key].typ, room - 1)
  {
    hide FieldsOf, Collapse;
    assert v.members[i] in v.members;
    CollapseOfDistinct(v.members, v.members[i]);
  }

  lemma ExactRecord(v: Tree, fields: seq<Field>, room: int)
    requires Conforms(v, Struct(fields), room)
    ensures v.Object? && FieldsOf(fields).Some? && ExactDecode(v, Struct(fields)).Record?
    ensures var exact, types := ExactDecode(v, Struct(fields)).fields, TypesOf(FieldsOf(fields).value);
            && exact.Keys == Collapse(v.members).Keys && exact.Keys <= types.Keys
            && forall key | key in exact :: exact[key] == ExactDecode(Collapse(v.members)[key], types[key])
  {
    hide FieldsOf, Collapse;
  }

  lemma {:induction false} RecordsAgree(v: Tree, fields: seq<Field>, fold: string -> string, nulls: bool, space: int, room: int)
    requires Acceptable(v, nulls, space) && Conforms(v, Struct(fields), room)
    ensures FoldDecode(v, Struct(fields), Zero(Struct(fields)), fold) == ExactDecode(v, Struct(fields))
    decreases v, 0, 2
  {
    hide FieldsOf, Flatten, Collapse, HoldsExactly, FoldMembers;
    ExactRecord(v, fields, room);
    var types := TypesOf(FieldsOf(fields).value);
    RecordMembersAgree(v, fields, fold, nulls, space, room);
    hide ExactDecode, Conforms, MemberAgrees;
    MembersAgree(v, |v.members|, fields, types, fold);
    HeldIsEverything(FoldMembers(v, |v.members|, Flatten(fields), map[], fold), v, types,
                     ExactDecode(v, Struct(fields)).fields);
  }

  lemma {:induction false} RecordMembersAgree(v: Tree, fields: seq<Field>, fold: string -> string, nulls: bool,
                                              space: int, room: int)
    requires Acceptable(v, nulls, space) && Conforms(v, Struct(fields), room)
    ensures v.Object? && FieldsOf(fields).Some?
    ensures var types := TypesOf(FieldsOf(fields).value); forall i | 0 <= i < |v.members| ::
              v.members[i].key in types && MemberAgrees(v, i, types[v.members[i].key], fold)
    decreases v, 0, 1
  {
    hide FieldsOf, Flatten, Collapse, FoldDecode, ExactDecode, Acceptable, Conforms, MemberAgrees;
    ExactRecord(v, fields, room);
    var types := TypesOf(FieldsOf(fields).value);
    forall i | 0 <= i < |v.members|
      ensures v.members[i].key in types && MemberAgrees(v, i, types[v.members[i].key], fold)
    {
      FieldAgrees(v, i, fields, fold, nulls, space, room);
    }
  }

  lemma {:induction false} FieldAgrees(v: Tree, i: nat, fields: seq<Field>, fold: string -> string, nulls: bool,
                                       space: int, room: int)
    requires Acceptable(v, nulls, space) && Conforms(v, Struct(fields), room) && v.Object? && i < |v.members|
    ensures FieldsOf(fields).Some? && v.members[i].key in FieldsOf(fields).value
    ensures MemberAgrees(v, i, FieldsOf(fields).value[v.members[i].key].typ, fold)
    decreases v, 0, 0
  {
    hide FieldsOf, FoldDecode, ExactDecode, Acceptable, Conforms;
    FieldFits(v, i, fields, nulls, space, room);
    DecodersAgree(v.members[i].value, FieldsOf(fields).value[v.members[i].key].typ, fold, nulls, space - 1, room - 1);
  }

  lemma EntryFits(v: Tree, i: nat, elem: Type, nulls: bool, space: int, room: int)
    requires Acceptable(v, nulls, space) && Conforms(v, Map(elem), room) && i < |v.members|
    ensures v.members[i].key in Collapse(v.members) && v.members[i].value < v
    ensures Acceptable(v.members[i].value, nulls, space - 1)
    ensures Conforms(v.members[i].value, elem, room - 1)
  {
    hide Collapse;
    CollapseOfDistinct(v.members, v.members[i]);
  }

  lemma ExactEntries(v: Tree, elem: Type)
    requires v.Object?
    ensures ExactDecode(v, Map(elem)).Entries?
    ensures var exact := ExactDecode(v, Map(elem)).entries;
            && exact.Keys == Collapse(v.members).Keys
            && forall key | key in exact :: exact[key] == ExactDecode(Collapse(v.members)[key], elem)
  {
    hide Collapse;
  }

  lemma {:induction false} MapsAgree(v: Tree, elem: Type, fold: string -> string, nulls: bool, space: int, room: int)
    requires Acceptable(v, nulls, space) && Conforms(v, Map(elem), room)
    ensures FoldDecode(v, Map(elem), Zero(Map(elem)), fold) == ExactDecode(v, Map(elem))
    decreases v, 0
  {
    hide Collapse, HoldsExactly, FoldEntries;
    var types := map key | key in Collapse(v.members) :: elem;
    ExactEntries(v, elem);
    MapMembersAgree(v, elem, fold, nulls, space, room);
    hide ExactDecode, Conforms, MemberAgrees;
    EntriesAgree(v, |v.members|, elem, types, fold);
    HeldIsEverything(FoldEntries(v, |v.members|, elem, map[], fold), v, types, ExactDecode(v, Map(elem)).entries);
  }

  lemma {:induction false} MapMembersAgree(v: Tree, elem: Type, fold: string -> string, nulls: bool, space: int, room: int)
    requires Acceptable(v, nulls, space) && Conforms(v, Map(elem), room)
    ensures v.Object?
    ensures forall i | 0 <= i < |v.members| ::
              v.members[i].key in Collapse(v.members) && MemberAgrees(v, i, elem, fold)
    decreases v, 0, 0
  {
    hide Collapse, FoldDecode, ExactDecode, Acceptable;
    forall i | 0 <= i < |v.members|
      ensures v.members[i].key in Collapse(v.members) && MemberAgrees(v, i, elem, fold)
    {
      EntryFits(v, i, elem, nulls, space, room);
      DecodersAgree(v.members[i].value, elem, fold, nulls, space - 1, room - 1);
    }
  }

  // ---------------------------------------------------------------- why validation is needed

  /** Without validation folding does decide: a member that differs only in case lands in the field, exact lookup finds none. */
  lemma FoldingDecidesOtherwise(fold: string -> string)
    requires fold("Host") == fold("host")
    ensures var t := Struct([Field("Host", true, false, "host", false, String)]);
            var v := Object([Member("Host", Leaf(Text("a")))]);
            && Acceptable(v, false, 1) && !Conforms(v, t, MAXIMUM_DEPTH)
            && FoldDecode(v, t, Zero(t), fold) != ExactDecode(v, t)
  {
    var fields := [Field("Host", true, false, "host", false, String)];
    var v := Object([Member("Host", Leaf(Text("a")))]);
    var flats := [Flat("host", Definition(String, false))];
    assert Flatten(fields[1..]) == [] && Flatten(fields) == flats;
    assert FieldsOf(fields) == Some(map["host" := Definition(String, false)]) by {
      assert Extend(map["host" := Definition(String, false)], flats[1..]) == Some(map["host" := Definition(String, false)]);
    }
    assert Exactly(flats[1..], "Host") == None;
    assert "Host" in Collapse(v.members);
    assert "host" !in Collapse(v.members);
    assert Landing(flats, "Host", fold) == Some(flats[0]);
    var folded := FoldMembers(v, 1, flats, map[], fold);
    assert FoldMembers(v, 0, flats, map[], fold) == map[];
    assert "host" in folded;
  }
}
