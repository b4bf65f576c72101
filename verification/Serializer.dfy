/**
 object_serializer of serializers.py: event objects, in graphs that may be
 cyclic, turned into JSON trees of bounded depth.
 */
module Serializer {
  import opened Options
  import opened PayloadPaths

  const MAX_SERIALIZATION_DEPTH: nat := 15

  const LIMIT_TEXT := "! Depth limit reached !"

  /** int, float, str, bool or None. */
  type Primitive = j: Json | !j.Object? && !j.Array? witness Null

  /** A dict key or attribute name; only strings can appear in the result. */
  datatype Name = Str(s: string) | Other(id: nat)

  /** An object, by the branch of the serializer that it takes. The other objects it holds are named by `Id`. */
  datatype Node<Id> =
    | Prim(value: Primitive)
    | Scope(blockType: Primitive, defId: string, usageId: string, userId: Primitive)
    | Printed(text: string)                    // opaque keys, and objects without __dict__
    | Listing(items: seq<Id>)                  // list, tuple, set
    | Attributes(entries: map<Name, Id>)       // dict, or an object's __dict__

  /** A graph of objects. Nothing forbids cycles. */
  type Graph<!Id> = Id -> Node<Id>

  predicate Shown(name: Name) {
    name.Str? && !("_" <= name.s)
  }

  function ScopeFields<Id>(node: Node<Id>): (fields: map<string, Json>)
    requires node.Scope?
    ensures forall key :: key in fields ==> !("_" <= key) && !fields[key].Object? && !fields[key].Array?
  {
    assert "block_type"[0] == 'b' && "def_id"[0] == 'd' && "usage_id"[0] == 'u' && "user_id"[0] == 'u';
    map["block_type" := node.blockType, "def_id" := Text(node.defId),
        "usage_id" := Text(node.usageId), "user_id" := node.userId]
  }

  function ShownFields<Id>(entries: map<Name, Id>): (shown: map<string, Id>)
    ensures forall key :: key in shown <==> Str(key) in entries && !("_" <= key)
    ensures forall key :: key in shown ==> shown[key] == entries[Str(key)]
  {
    map name | name in entries && Shown(name) :: name.s := entries[name]
  }

  // ----- the recursion

  function Serialized<Id>(g: Graph<Id>, id: Id, depth: nat): Json
    decreases MAX_SERIALIZATION_DEPTH + 1 - depth
  {
    if depth > MAX_SERIALIZATION_DEPTH then Text(LIMIT_TEXT)
    else match g(id)
         case Prim(value) => value
         case Scope(_, _, _, _) => Object(ScopeFields(g(id)))
         case Printed(text) => Text(text)
         case Listing(items) => Array(seq(|items|, i requires 0 <= i < |items| => Serialized(g, items[i], depth + 1)))
         case Attributes(entries) =>
           var shown := ShownFields(entries);
           Object(map key | key in shown :: Serialized(g, shown[key], depth + 1))
  }

  function SerializedFields<Id>(g: Graph<Id>, shown: map<string, Id>, depth: nat): map<string, Json> {
    map key | key in shown :: Serialized(g, shown[key], depth)
  }

  lemma SerializedObject<Id>(g: Graph<Id>, id: Id, depth: nat)
    requires depth <= MAX_SERIALIZATION_DEPTH && g(id).Attributes?
    ensures Serialized(g, id, depth) == Object(SerializedFields(g, ShownFields(g(id).entries), depth + 1))
  {
    var shown := ShownFields(g(id).entries);
    assert SerializedFields(g, shown, depth + 1) == (map key | key in shown :: Serialized(g, shown[key], depth + 1));
  }

  // ----- the code

  method ObjectSerializer<Id(==)>(g: Graph<Id>, id: Id, depth: nat) returns (result: Json)
    ensures result == Serialized(g, id, depth)
    decreases MAX_SERIALIZATION_DEPTH + 1 - depth, 0
  {
    if depth > MAX_SERIALIZATION_DEPTH {
      return Text(LIMIT_TEXT);
    }
    match g(id)
    case Prim(value) => return value;
    case Scope(_, _, _, _) => return Object(ScopeFields(g(id)));
    case Printed(text) => return Text(text);
    case Listing(items) =>
      var values := SerializeItems(g, items, depth + 1);
      return Array(values);
    case Attributes(entries) =>
      var fields := SerializeEntries(g, entries, depth + 1);
      SerializedObject(g, id, depth);
      return Object(fields);
  }

  /** The list comprehension. */
  method SerializeItems<Id(==)>(g: Graph<Id>, items: seq<Id>, depth: nat) returns (values: seq<Json>)
    ensures |values| == |items| && forall i :: 0 <= i < |items| ==> values[i] == Serialized(g, items[i], depth)
    decreases MAX_SERIALIZATION_DEPTH + 1 - depth, 1
  {
    values := [];
    while |values| < |items|
      invariant |values| <= |items|
      invariant forall i :: 0 <= i < |values| ==> values[i] == Serialized(g, items[i], depth)
    {
      var value := ObjectSerializer(g, items[|values|], depth);
      values := values + [value];
    }
  }

  /** The loop over the items of a dict, in whatever order they come. */
  method SerializeEntries<Id(==)>(g: Graph<Id>, entries: map<Name, Id>, depth: nat) returns (fields: map<string, Json>)
    ensures fields == SerializedFields(g, ShownFields(entries), depth)
    decreases MAX_SERIALIZATION_DEPTH + 1 - depth, 1
  {
    ghost var shown := ShownFields(entries);
    fields := map[];
    var todo := entries.Keys;
    while todo != {}
      invariant todo <= entries.Keys
      invariant forall key :: key in fields <==> key in shown && Str(key) !in todo
      invariant forall key :: key in fields ==> fields[key] == Serialized(g, shown[key], depth)
      decreases |todo|
    {
      var name :| name in todo;
      if Shown(name) {
        var value := ObjectSerializer(g, entries[name], depth);
        fields := fields[name.s := value];
      }
      todo := todo - {name};
    }
  }
}

/** What is lost by the depth limit, and nothing else. */
module SerializerTheorems {
  import opened Options
  import opened PayloadPaths
  import opened Serializer

  datatype Hop = Index(i: nat) | Field(key: string)

  /** The value at a place in a JSON tree. */
  function At(j: Json, place: seq<Hop>): Option<Json>
    decreases |place|
  {
    if place == [] then Some(j)
    else match place[0]
         case Index(i) => if j.Array? && i < |j.items| then At(j.items[i], place[1..]) else None
         case Field(key) => if j.Object? && key in j.fields then At(j.fields[key], place[1..]) else None
  }

  /** What shows at a place without looking further down. */
  datatype Shape = Value(v: Primitive) | Items(count: nat) | Keys(keys: set<string>)

  function ShapeOf(j: Json): Shape {
    match j
    case Array(items) => Items(|items|)
    case Object(fields) => Keys(fields.Keys)
    case _ => Value(j)
  }

  function ShapeAt(j: Json, place: seq<Hop>): Option<Shape> {
    if At(j, place).Some? then Some(ShapeOf(At(j, place).value)) else None
  }

  /** The object that the graph holds at a place, however deep; the parts of ScopeIds are values, not objects. */
  function ObjectAt<Id>(g: Graph<Id>, id: Id, place: seq<Hop>): Option<Id>
    decreases |place|
  {
    if place == [] then Some(id)
    else match (g(id), place[0])
         case (Listing(items), Index(i)) => if i < |items| then ObjectAt(g, items[i], place[1..]) else None
         case (Attributes(entries), Field(key)) =>
           if key in ShownFields(entries) then ObjectAt(g, ShownFields(entries)[key], place[1..]) else None
         case _ => None
  }

  function NodeShape<Id>(node: Node<Id>): Shape {
    match node
    case Prim(value) => Value(value)
    case Scope(_, _, _, _) => Keys(ScopeFields(node).Keys)
    case Printed(text) => Value(Text(text))
    case Listing(items) => Items(|items|)
    case Attributes(entries) => Keys(ShownFields(entries).Keys)
  }

  /** What serialization without a limit would show at a place: on a cyclic graph, at places of any depth. */
  function Unbounded<Id>(g: Graph<Id>, id: Id, place: seq<Hop>): Option<Shape> {
    if ObjectAt(g, id, place).Some? then Some(NodeShape(g(ObjectAt(g, id, place).value)))
    else ScopePart(g, id, place)
  }

  function ScopePart<Id>(g: Graph<Id>, id: Id, place: seq<Hop>): Option<Shape> {
    if place == [] || !place[|place| - 1].Field? then None
    else
      var holder, key := ObjectAt(g, id, place[..|place| - 1]), place[|place| - 1].key;
      if holder.Some? && g(holder.value).Scope? && key in ScopeFields(g(holder.value))
      then Some(ShapeOf(ScopeFields(g(holder.value))[key])) else None
  }

  lemma ObjectBelow<Id>(g: Graph<Id>, id: Id, place: seq<Hop>)
    requires place != []
    ensures ScopePart(g, id, place) ==
              if |place| == 1 then (if g(id).Scope? && place[0].Field? && place[0].key in ScopeFields(g(id))
                                    then Some(ShapeOf(ScopeFields(g(id))[place[0].key])) else None)
              else match (g(id), place[0])
                   case (Listing(items), Index(i)) => if i < |items| then ScopePart(g, items[i], place[1..]) else None
                   case (Attributes(entries), Field(key)) =>
                     if key in ShownFields(entries) then ScopePart(g, ShownFields(entries)[key], place[1..]) else None
                   case _ => None
  {
    if |place| > 1 {
      assert place[..|place| - 1][1..] == place[1..][..|place| - 2];
    }
  }

  lemma RootShape<Id>(g: Graph<Id>, id: Id, depth: nat)
    requires depth <= MAX_SERIALIZATION_DEPTH
    ensures ShapeAt(Serialized(g, id, depth), []) == Unbounded(g, id, [])
  {
    var j := Serialized(g, id, depth);
    if g(id).Attributes? {
      assert j.fields.Keys == ShownFields(g(id).entries).Keys;
    }
  }

  /** ScopeIds have parts one hop down, and no further. */
  lemma ScopeTruncation<Id>(g: Graph<Id>, id: Id, depth: nat, place: seq<Hop>)
    requires depth <= MAX_SERIALIZATION_DEPTH && place != [] && g(id).Scope?
    ensures ShapeAt(Serialized(g, id, depth), place) == Unbounded(g, id, place) == ScopePart(g, id, place)
    ensures |place| > 1 ==> ScopePart(g, id, place) == None
  {
    ObjectBelow(g, id, place);
    if place[0].Field? && place[0].key in ScopeFields(g(id)) {
      var part := ScopeFields(g(id))[place[0].key];
      assert At(Serialized(g, id, depth), place) == At(part, place[1..]);
    }
  }

  /** What is cut off where, for a place seen from an object at that depth. */
  ghost predicate CutOff<Id>(g: Graph<Id>, id: Id, depth: nat, place: seq<Hop>) {
    var shown, below := ShapeAt(Serialized(g, id, depth), place), depth + |place|;
    && (below <= MAX_SERIALIZATION_DEPTH ==> shown == Unbounded(g, id, place))
    && (below == MAX_SERIALIZATION_DEPTH + 1 ==>
          shown == if ObjectAt(g, id, place).Some? then Some(Value(Text(LIMIT_TEXT))) else ScopePart(g, id, place))
    && (below > MAX_SERIALIZATION_DEPTH + 1 ==> shown == None)
  }

  /**
   The serializer stops on every graph, and its result is the unbounded one cut
   off: equal at every place down to depth 15, the limit text in place of every
   object at depth 16, and nothing further down.
   */
  lemma {:induction false} Truncation<Id>(g: Graph<Id>, id: Id, depth: nat, place: seq<Hop>)
    requires depth <= MAX_SERIALIZATION_DEPTH + 1
    ensures CutOff(g, id, depth, place)
    decreases |place|
  {
    hide *;
    if depth > MAX_SERIALIZATION_DEPTH {
      CutOffAtLimit(g, id, place);
    } else if place == [] {
      CutOffRoot(g, id, depth);
    } else if g(id).Scope? {
      CutOffScope(g, id, depth, place);
    } else {
      var part := ObjectAt(g, id, [place[0]]);
      if part.Some? {
        Truncation(g, part.value, depth + 1, place[1..]);
        CutOffBelow(g, id, part.value, depth, place);
      } else {
        CutOffNothing(g, id, depth, place);
      }
    }
  }

  lemma CutOffAtLimit<Id>(g: Graph<Id>, id: Id, place: seq<Hop>)
    ensures CutOff(g, id, MAX_SERIALIZATION_DEPTH + 1, place)
  {
    assert Serialized(g, id, MAX_SERIALIZATION_DEPTH + 1) == Text(LIMIT_TEXT);
  }

  lemma CutOffRoot<Id>(g: Graph<Id>, id: Id, depth: nat)
    requires depth <= MAX_SERIALIZATION_DEPTH
    ensures CutOff(g, id, depth, [])
  {
    RootShape(g, id, depth);
  }

  lemma CutOffScope<Id>(g: Graph<Id>, id: Id, depth: nat, place: seq<Hop>)
    requires depth <= MAX_SERIALIZATION_DEPTH && place != [] && g(id).Scope?
    ensures CutOff(g, id, depth, place)
  {
    ScopeTruncation(g, id, depth, place);
    assert ObjectAt(g, id, place) == None;
  }

  lemma CutOffNothing<Id>(g: Graph<Id>, id: Id, depth: nat, place: seq<Hop>)
    requires depth <= MAX_SERIALIZATION_DEPTH && place != [] && !g(id).Scope? && ObjectAt(g, id, [place[0]]) == None
    ensures CutOff(g, id, depth, place)
  {
    NothingThere(g, id, depth, place);
  }

  /** A place below an object is a place of the part it leads through. */
  lemma CutOffBelow<Id>(g: Graph<Id>, id: Id, part: Id, depth: nat, place: seq<Hop>)
    requires depth <= MAX_SERIALIZATION_DEPTH && place != [] && !g(id).Scope?
    requires ObjectAt(g, id, [place[0]]) == Some(part) && CutOff(g, part, depth + 1, place[1..])
    ensures CutOff(g, id, depth, place)
  {
    HopDown(g, id, part, depth, place);
  }

  lemma HopDown<Id>(g: Graph<Id>, id: Id, part: Id, depth: nat, place: seq<Hop>)
    requires depth <= MAX_SERIALIZATION_DEPTH && place != [] && !g(id).Scope?
    requires ObjectAt(g, id, [place[0]]) == Some(part)
    ensures ShapeAt(Serialized(g, id, depth), place) == ShapeAt(Serialized(g, part, depth + 1), place[1..])
    ensures ObjectAt(g, id, place) == ObjectAt(g, part, place[1..])
    ensures ScopePart(g, id, place) == ScopePart(g, part, place[1..])
  {
    ObjectBelow(g, id, place);
    assert [place[0]][1..] == [];
  }

  lemma NothingThere<Id>(g: Graph<Id>, id: Id, depth: nat, place: seq<Hop>)
    requires depth <= MAX_SERIALIZATION_DEPTH && place != [] && !g(id).Scope? && ObjectAt(g, id, [place[0]]) == None
    ensures ShapeAt(Serialized(g, id, depth), place) == None && ObjectAt(g, id, place) == None &&
        ScopePart(g, id, place) == None
  {
    ObjectBelow(g, id, place);
    assert [place[0]][1..] == [];
  }

  /** An object reached within the limit is serialized at the depth of its place. */
  lemma {:induction false} SerializedAt<Id>(g: Graph<Id>, id: Id, depth: nat, place: seq<Hop>)
    requires depth + |place| <= 16 && ObjectAt(g, id, place).Some?
    ensures At(Serialized(g, id, depth), place)
              == Some(Serialized(g, ObjectAt(g, id, place).value, depth + |place|))
    decreases |place|
  {
    if place == [] {
      hide Serialized;
    } else {
      hide *;
      ThroughFirstHop(g, id, place);
      var part := ObjectAt(g, id, [place[0]]).value;
      SerializedAt(g, part, depth + 1, place[1..]);
      HopAt(g, id, part, depth, place);
    }
  }

  lemma HopAt<Id>(g: Graph<Id>, id: Id, part: Id, depth: nat, place: seq<Hop>)
    requires depth <= 15 && place != [] && ObjectAt(g, id, [place[0]]) == Some(part)
    ensures At(Serialized(g, id, depth), place) == At(Serialized(g, part, depth + 1), place[1..])
  {
    assert [place[0]][1..] == [];
  }

  /** What stands for an object in the result, by the kind of the object. */
  ghost predicate Stands<Id>(node: Node<Id>, j: Json) {
    match node
    case Prim(value) => j == value
    case Printed(text) => j == Text(text)
    case Scope(blockType, defId, usageId, userId) =>
      j == Object(map["block_type" := blockType, "def_id" := Text(defId), "usage_id" := Text(usageId),
                      "user_id" := userId])
    case Listing(items) => j.Array? && |j.items| == |items|
    case Attributes(entries) =>
      j.Object? && forall key: string :: key in j.fields <==> Str(key) in entries && (key == "" || key[0] != '_')
  }

  /**
   Every object that the graph holds at a place of at most 15 hops, through list
   positions and public names, is there in the result, by its own kind: a
   primitive as it is, an opaque key as its text, ScopeIds as their four parts
   under their names, a list of the same length, a dict with the public names.
   At 16 hops there is the limit text instead.
   */
  lemma ShownExactly<Id>(g: Graph<Id>, id: Id, place: seq<Hop>)
    requires ObjectAt(g, id, place).Some?
    ensures |place| <= 15 ==>
              var j := At(Serialized(g, id, 0), place);
              j.Some? && Stands(g(ObjectAt(g, id, place).value), j.value)
    ensures |place| == 16 ==> At(Serialized(g, id, 0), place) == Some(Text("! Depth limit reached !"))
  {
    if |place| <= 16 {
      SerializedAt(g, id, 0, place);
    }
  }

  /** Height at most 16, on any graph. */
  lemma HeightIsBounded<Id>(g: Graph<Id>, id: Id, place: seq<Hop>)
    ensures At(Serialized(g, id, 0), place).Some? ==> |place| <= MAX_SERIALIZATION_DEPTH + 1
  {
    Truncation(g, id, 0, place);
  }

  /** No key at any level starts with an underscore. */
  lemma NoPrivateKeys<Id>(g: Graph<Id>, id: Id, place: seq<Hop>, key: string)
    ensures var shape := ShapeAt(Serialized(g, id, 0), place);
            shape.Some? && shape.value.Keys? && key in shape.value.keys ==> !("_" <= key)
  {
    Truncation(g, id, 0, place);
  }

  // ----- serializing the result again

  function Names(fields: map<string, Json>): (names: set<Name>)
    ensures forall name :: name in names <==> name.Str? && name.s in fields
  {
    set key | key in fields :: Str(key)
  }

  /** A JSON value, as the serializer meets it: dicts, lists and primitives. */
  function JsonNode(j: Json): Node<Json> {
    match j
    case Array(items) => Listing(items)
    case Object(fields) => Attributes(map name | name in Names(fields) :: fields[name.s])
    case _ => Prim(j)
  }

  /** Serializing this value again, at that depth, changes nothing. */
  predicate Stable(j: Json, depth: nat)
    decreases MAX_SERIALIZATION_DEPTH + 1 - depth
  {
    if depth > MAX_SERIALIZATION_DEPTH then j == Text(LIMIT_TEXT)
    else match j
         case Array(items) => forall i :: 0 <= i < |items| ==> Stable(items[i], depth + 1)
         case Object(fields) => forall key :: key in fields ==> !("_" <= key) && Stable(fields[key], depth + 1)
         case _ => true
  }

  lemma {:induction false} StableIff(j: Json, depth: nat)
    ensures Serialized(JsonNode, j, depth) == j <==> Stable(j, depth)
    decreases MAX_SERIALIZATION_DEPTH + 1 - depth, 1
  {
    if depth <= MAX_SERIALIZATION_DEPTH {
      match j {
        case Array(items) => StableArrayIff(items, depth);
        case Object(fields) => StableObjectIff(fields, depth);
        case _ =>
      }
    }
  }

  lemma {:induction false} StableArrayIff(items: seq<Json>, depth: nat)
    requires depth <= MAX_SERIALIZATION_DEPTH
    ensures Serialized(JsonNode, Array(items), depth) == Array(items) <==> Stable(Array(items), depth)
    decreases MAX_SERIALIZATION_DEPTH + 1 - depth, 0
  {
    forall i | 0 <= i < |items|
      ensures Serialized(JsonNode, items[i], depth + 1) == items[i] <==> Stable(items[i], depth + 1)
    {
      StableIff(items[i], depth + 1);
    }
    ItemsAgain(items, depth);
  }

  ghost predicate FieldsStay(fields: map<string, Json>, depth: nat) {
    forall key :: key in fields ==> !("_" <= key) && Serialized(JsonNode, fields[key], depth) == fields[key]
  }

  ghost predicate FieldsLast(fields: map<string, Json>, depth: nat) {
    forall key :: key in fields ==> !("_" <= key) && Stable(fields[key], depth)
  }

  lemma {:induction false} FieldsStayIff(fields: map<string, Json>, depth: nat)
    ensures FieldsStay(fields, depth) <==> FieldsLast(fields, depth)
    decreases MAX_SERIALIZATION_DEPTH + 1 - depth, 2
  {
    forall key | key in fields
      ensures Serialized(JsonNode, fields[key], depth) == fields[key] <==> Stable(fields[key], depth)
    {
      StableIff(fields[key], depth);
    }
  }

  lemma {:induction false} StableObjectIff(fields: map<string, Json>, depth: nat)
    requires depth <= MAX_SERIALIZATION_DEPTH
    ensures Serialized(JsonNode, Object(fields), depth) == Object(fields) <==> Stable(Object(fields), depth)
    decreases MAX_SERIALIZATION_DEPTH + 1 - depth, 0
  {
    ObjectStaysIff(fields, depth);
    FieldsStayIff(fields, depth + 1);
    assert Stable(Object(fields), depth) <==> FieldsLast(fields, depth + 1);
  }

  lemma ObjectStaysIff(fields: map<string, Json>, depth: nat)
    requires depth <= MAX_SERIALIZATION_DEPTH
    ensures Serialized(JsonNode, Object(fields), depth) == Object(fields) <==> FieldsStay(fields, depth + 1)
  {
    ObjectAgain(fields, depth);
    AgainIsSame(fields, depth + 1);
  }

  lemma ItemsAgain(items: seq<Json>, depth: nat)
    requires depth <= MAX_SERIALIZATION_DEPTH
    ensures Serialized(JsonNode, Array(items), depth) == Array(items)
       <==> forall i :: 0 <= i < |items| ==> Serialized(JsonNode, items[i], depth + 1) == items[i]
  {
    var again := Serialized(JsonNode, Array(items), depth).items;
    assert |again| == |items| && forall i :: 0 <= i < |items| ==> again[i] == Serialized(JsonNode, items[i], depth + 1);
    assert again == items <==> forall i :: 0 <= i < |items| ==> again[i] == items[i];
  }

  function Public(fields: map<string, Json>): map<string, Json> {
    map key | key in fields && !("_" <= key) :: fields[key]
  }

  function Again(fields: map<string, Json>, depth: nat): map<string, Json> {
    SerializedFields(JsonNode, Public(fields), depth)
  }

  lemma PublicIsShown(fields: map<string, Json>)
    ensures ShownFields(JsonNode(Object(fields)).entries) == Public(fields)
  {
    var entries := JsonNode(Object(fields)).entries;
    forall key: string ensures Str(key) in entries <==> key in fields {}
  }

  lemma ObjectAgain(fields: map<string, Json>, depth: nat)
    requires depth <= MAX_SERIALIZATION_DEPTH
    ensures Serialized(JsonNode, Object(fields), depth) == Object(Again(fields, depth + 1))
  {
    PublicIsShown(fields);
    SerializedObject(JsonNode, Object(fields), depth);
  }

  lemma AgainIsSame(fields: map<string, Json>, depth: nat)
    ensures Again(fields, depth) == fields <==> FieldsStay(fields, depth)
  {
    var again := Again(fields, depth);
    if again == fields {
      forall key | key in fields ensures !("_" <= key) && Serialized(JsonNode, fields[key], depth) == fields[key] {
        assert key in again && again[key] == fields[key];
      }
    }
  }

  /** ScopeIds whose four values all happen to be the limit text. */
  predicate AllLimit<Id>(node: Node<Id>)
    requires node.Scope?
  {
    node.blockType == Text(LIMIT_TEXT) && node.defId == LIMIT_TEXT && node.usageId == LIMIT_TEXT &&
        node.userId == Text(LIMIT_TEXT)
  }

  /** ScopeIds sit at depth 15, so that their values come to lie below the limit. */
  ghost predicate ScopeAtLimit<Id(!new)>(g: Graph<Id>, id: Id, depth: nat) {
    exists place :: depth + |place| == MAX_SERIALIZATION_DEPTH && ScopeHere(g, id, place)
  }

  predicate ScopeHere<Id>(g: Graph<Id>, id: Id, place: seq<Hop>) {
    var held := ObjectAt(g, id, place);
    held.Some? && g(held.value).Scope? && !AllLimit(g(held.value))
  }

  lemma ScopeBelow<Id(!new)>(g: Graph<Id>, id: Id, depth: nat)
    requires depth < MAX_SERIALIZATION_DEPTH
    ensures ScopeAtLimit(g, id, depth) <==> !PartsClear(g, id, depth + 1)
  {
    if ScopeAtLimit(g, id, depth) {
      var place :| depth + |place| == MAX_SERIALIZATION_DEPTH && ScopeHere(g, id, place);
      ThroughFirstHop(g, id, place);
      assert depth + 1 + |place[1..]| == MAX_SERIALIZATION_DEPTH &&
          ScopeHere(g, ObjectAt(g, id, [place[0]]).value, place[1..]);
    }
    if hop :| ObjectAt(g, id, [hop]).Some? && ScopeAtLimit(g, ObjectAt(g, id, [hop]).value, depth + 1) {
      var part := ObjectAt(g, id, [hop]).value;
      var rest :| depth + 1 + |rest| == MAX_SERIALIZATION_DEPTH && ScopeHere(g, part, rest);
      var place := [hop] + rest;
      assert place[0] == hop && place[1..] == rest;
      ThroughFirstHop(g, id, place);
      assert depth + |place| == MAX_SERIALIZATION_DEPTH && ScopeHere(g, id, place);
    }
  }

  lemma ThroughFirstHop<Id>(g: Graph<Id>, id: Id, place: seq<Hop>)
    requires place != []
    ensures ObjectAt(g, id, place) ==
              match ObjectAt(g, id, [place[0]]) case None => None case Some(part) => ObjectAt(g, part, place[1..])
  {
    assert [place[0]][1..] == [];
  }

  ghost predicate PartsStable<Id(!new)>(g: Graph<Id>, id: Id, depth: nat) {
    forall hop :: ObjectAt(g, id, [hop]).Some? ==> Stable(Serialized(g, ObjectAt(g, id, [hop]).value, depth), depth)
  }

  ghost predicate PartsClear<Id(!new)>(g: Graph<Id>, id: Id, depth: nat) {
    forall hop :: ObjectAt(g, id, [hop]).Some? ==> !ScopeAtLimit(g, ObjectAt(g, id, [hop]).value, depth)
  }

  lemma {:induction false} PartsAgree<Id(!new)>(g: Graph<Id>, id: Id, depth: nat)
    requires depth <= MAX_SERIALIZATION_DEPTH
    ensures PartsStable(g, id, depth) <==> PartsClear(g, id, depth)
    decreases MAX_SERIALIZATION_DEPTH + 1 - depth, 1
  {
    forall hop | ObjectAt(g, id, [hop]).Some?
      ensures var part := ObjectAt(g, id, [hop]).value;
              Stable(Serialized(g, part, depth), depth) <==> !ScopeAtLimit(g, part, depth)
    {
      ResultIsStableIff(g, ObjectAt(g, id, [hop]).value, depth);
    }
  }

  lemma {:induction false} ResultIsStableIff<Id(!new)>(g: Graph<Id>, id: Id, depth: nat)
    requires depth <= MAX_SERIALIZATION_DEPTH
    ensures Stable(Serialized(g, id, depth), depth) <==> !ScopeAtLimit(g, id, depth)
    decreases MAX_SERIALIZATION_DEPTH + 1 - depth, 0
  {
    if depth == MAX_SERIALIZATION_DEPTH {
      StableAtLimit(g, id);
    } else {
      PartsAgree(g, id, depth + 1);
      ScopeBelow(g, id, depth);
      StableBelow(g, id, depth);
    }
  }

  /** At depth 15, all parts of the result lie at depth 16. */
  lemma StableAtLimit<Id(!new)>(g: Graph<Id>, id: Id)
    ensures Stable(Serialized(g, id, MAX_SERIALIZATION_DEPTH), MAX_SERIALIZATION_DEPTH) <==>
        !ScopeAtLimit(g, id, MAX_SERIALIZATION_DEPTH)
  {
    var d := MAX_SERIALIZATION_DEPTH;
    assert ScopeAtLimit(g, id, d) <==> ScopeHere(g, id, []) by {
      forall place: seq<Hop> | d + |place| == d ensures place == [] {}
    }
    if g(id).Scope? {
      var fields := ScopeFields(g(id));
      assert Stable(Object(fields), d) <==>
          forall key :: key in fields ==> !("_" <= key) && fields[key] == Text(LIMIT_TEXT);
      assert "block_type" in fields && "def_id" in fields && "usage_id" in fields && "user_id" in fields;
      assert fields["block_type"] == g(id).blockType && fields["def_id"] == Text(g(id).defId);
      assert fields["usage_id"] == Text(g(id).usageId) && fields["user_id"] == g(id).userId;
    }
  }

  /** The result is stable exactly if all its parts are. */
  lemma StableBelow<Id(!new)>(g: Graph<Id>, id: Id, depth: nat)
    requires depth < MAX_SERIALIZATION_DEPTH
    ensures Stable(Serialized(g, id, depth), depth) <==> PartsStable(g, id, depth + 1)
  {
    match g(id) {
      case Listing(items) => StableItems(g, id, depth);
      case Attributes(entries) => StableEntries(g, id, depth);
      case _ =>
    }
  }

  lemma StableItems<Id(!new)>(g: Graph<Id>, id: Id, depth: nat)
    requires depth < MAX_SERIALIZATION_DEPTH && g(id).Listing?
    ensures Stable(Serialized(g, id, depth), depth) <==> PartsStable(g, id, depth + 1)
  {
    var items, j := g(id).items, Serialized(g, id, depth);
    forall i: nat | i < |items|
      ensures ObjectAt(g, id, [Index(i)]) == Some(items[i]) && j.items[i] == Serialized(g, items[i], depth + 1)
    {
      assert [Index(i)][1..] == [];
    }
  }

  ghost predicate FieldsStable<Id>(g: Graph<Id>, shown: map<string, Id>, depth: nat) {
    forall key :: key in shown ==> Stable(Serialized(g, shown[key], depth), depth)
  }

  lemma StableEntries<Id(!new)>(g: Graph<Id>, id: Id, depth: nat)
    requires depth < MAX_SERIALIZATION_DEPTH && g(id).Attributes?
    ensures Stable(Serialized(g, id, depth), depth) <==> PartsStable(g, id, depth + 1)
  {
    FieldsOfResult(g, id, depth);
    FieldsAreParts(g, id, depth + 1);
  }

  lemma FieldsOfResult<Id>(g: Graph<Id>, id: Id, depth: nat)
    requires depth < MAX_SERIALIZATION_DEPTH && g(id).Attributes?
    ensures Stable(Serialized(g, id, depth), depth) <==> FieldsStable(g, ShownFields(g(id).entries), depth + 1)
  {
    var shown, j := ShownFields(g(id).entries), Serialized(g, id, depth);
    assert j.fields.Keys == shown.Keys;
    assert forall key :: key in shown ==> j.fields[key] == Serialized(g, shown[key], depth + 1);
  }

  lemma FieldsAreParts<Id(!new)>(g: Graph<Id>, id: Id, depth: nat)
    requires g(id).Attributes?
    ensures FieldsStable(g, ShownFields(g(id).entries), depth) <==> PartsStable(g, id, depth)
  {
    var shown := ShownFields(g(id).entries);
    forall key ensures ObjectAt(g, id, [Field(key)]) == if key in shown then Some(shown[key]) else None {
      assert [Field(key)][1..] == [];
    }
  }

  /**
   Serializing the result again changes nothing, exactly if no ScopeIds sit at
   depth 15; on graphs without ScopeIds it thus never does.
   */
  lemma IdempotentIff<Id(!new)>(g: Graph<Id>, id: Id)
    ensures Serialized(JsonNode, Serialized(g, id, 0), 0) == Serialized(g, id, 0) <==> !ScopeAtLimit(g, id, 0)
  {
    StableIff(Serialized(g, id, 0), 0);
    ResultIsStableIff(g, id, 0);
  }

  /** Fifteen lists inside each other, around ScopeIds. */
  function NestedScope(n: nat): Node<nat> {
    if n < 15 then Listing([n + 1]) else Scope(Null, "block", "usage", Null)
  }

  function Inward(n: nat): (place: seq<Hop>)
    ensures |place| == n
  {
    if n == 0 then [] else [Index(0)] + Inward(n - 1)
  }

  lemma {:induction false} InwardLeads(n: nat, k: nat)
    requires n + k <= 15
    ensures ObjectAt(NestedScope, n, Inward(k)) == Some(n + k)
    decreases k
  {
    if k > 0 {
      InwardLeads(n + 1, k - 1);
      assert Inward(k)[1..] == Inward(k - 1);
    }
  }

  lemma NotAlwaysIdempotent()
    ensures Serialized(JsonNode, Serialized(NestedScope, 0, 0), 0) != Serialized(NestedScope, 0, 0)
  {
    InwardLeads(0, 15);
    assert ScopeHere(NestedScope, 0, Inward(15)) && 0 + |Inward(15)| == MAX_SERIALIZATION_DEPTH;
    IdempotentIff(NestedScope, 0);
  }
}
