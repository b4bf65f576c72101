/**
 The shaping code itself, in place and over shared dicts: _event_data_key,
 apply_allowlist, apply_denylist and should_send_passing_event of security.py,
 and _shape_and_check of tasks.py.
 */
module Shaping {
  import opened Options
  import opened PayloadPaths
  import opened ShapeSpec
  import opened DictHeap
  import opened NestedPaths
  import opened AllowSharing
  import opened DenySharing
  import opened EntryLaws

  /** A payload in a labelled store: at the root, with one event, and its key order in agreement with its keys. */
  ghost predicate IsPayload(d: Dict, dataKey: string, dicts: set<Dict>, pos: map<Dict, Path>)
    reads dicts
  {
    && d in dicts && Labelled(Snap(dicts), pos) && pos[d] == []
    && Keyed(d, dataKey)
  }

  ghost predicate Keyed(d: Dict, dataKey: string)
    reads d
  {
    && dataKey != META
    && (forall k :: k in d.order <==> k in d.fields)
    && Distinct(d.order)
    && (forall k :: k in d.order ==> k in {dataKey, META})
  }

  lemma PayloadIsOneEvent(d: Dict, dataKey: string, dicts: set<Dict>, pos: map<Dict, Path>)
    requires IsPayload(d, dataKey, dicts, pos)
    ensures OneEvent(ViewOf(Snap(dicts), d), d.order, dataKey) && TreeView(ViewOf(Snap(dicts), d))
  {
    ViewIsTree(Snap(dicts), d);
    forall k: string ensures ViewOf(Snap(dicts), d)([k]).Some? <==> k in d.fields {
      TopCell(Snap(dicts), d, k);
    }
  }

  /** The first top-level key that is not the metadata, in any payload. */
  method EventDataKey(payload: Dict) returns (found: Option<string>)
    ensures FirstOther(payload.order, found)
  {
    var i := 0;
    while i < |payload.order|
      invariant 0 <= i <= |payload.order|
      invariant forall j :: 0 <= j < i ==> payload.order[j] == META
    {
      if payload.order[i] != META {
        return Some(payload.order[i]);
      }
      i := i + 1;
    }
    return None;
  }

  /** The metadata key comes first, if it comes at all, and then this one. */
  ghost predicate FirstOther(order: seq<string>, found: Option<string>) {
    match found
    case None => forall j :: 0 <= j < |order| ==> order[j] == META
    case Some(key) =>
      exists i :: 0 <= i < |order| && order[i] == key && key != META && forall j :: 0 <= j < i ==> order[j] == META
  }

  /** In a payload with one event, that is its data key, if it is there. */
  lemma OtherIsDataKey(payload: Dict, dataKey: string, found: Option<string>)
    requires Keyed(payload, dataKey) && FirstOther(payload.order, found)
    ensures found == if dataKey in payload.fields then Some(dataKey) else None
  {
    if found.Some? {
      assert found.value in payload.order;
    }
  }

  // ----- the allowlist

  /** The state of apply_allowlist after the entries ts. */
  ghost predicate Allowing(h0: Store, pos0: map<Dict, Path>, payload: Dict, result: Dict, ts: seq<Target>,
                           dicts: set<Dict>, pos: map<Dict, Path>)
    reads dicts
  {
    && payload in dicts && result in dicts && result != payload
    && Labelled(Snap(dicts), pos) && pos[payload] == pos[result] == []
    && Kept(h0, Snap(dicts), payload, result, ts)
    && (forall d :: d in h0 ==> d in pos0 && pos[d] == pos0[d])
    && result.order == AllowOrder(ViewOf(h0, payload), ts)
    && (forall k :: k in result.order <==> k in result.fields)
  }

  lemma AllowOrderSnoc(view: View, ts: seq<Target>, t: Target)
    ensures AllowOrder(view, ts + [t])
         == if Enters(view, t) then Append(AllowOrder(view, ts), EntryKey(t)) else AllowOrder(view, ts)
  {
    assert (ts + [t])[..|ts|] == ts;
  }

  lemma AllowSkip(h0: Store, pos0: map<Dict, Path>, payload: Dict, result: Dict, ts: seq<Target>, t: Target,
                  dicts: set<Dict>, pos: map<Dict, Path>)
    requires Allowing(h0, pos0, payload, result, ts, dicts, pos) && !Enters(ViewOf(h0, payload), t)
    ensures Allowing(h0, pos0, payload, result, ts + [t], dicts, pos)
  {
    KeptSkip(h0, Snap(dicts), payload, result, ts, t);
    AllowOrderSnoc(ViewOf(h0, payload), ts, t);
  }

  lemma TopCell(h0: Store, payload: Dict, k: string)
    requires payload in h0
    ensures ViewOf(h0, payload)([k]) == if k in h0[payload] then Some(CellOf(h0[payload][k])) else None
  {
    assert ViewOf(h0, payload)([k]) == CellAt(h0, Ref(payload), [k]);
    assert [k] == [] + [k];
    ValAtSnoc(h0, Ref(payload), [], k);
  }

  /** `if key in payload: result[key] = payload[key]` */
  method KeepWhole(payload: Dict, result: Dict, key: string,
                   ghost h0: Store, ghost pos0: map<Dict, Path>, ghost ts: seq<Target>, ghost dicts: set<Dict>,
                   ghost pos: map<Dict, Path>)
    requires Allowing(h0, pos0, payload, result, ts, dicts, pos)
    modifies result
    ensures Allowing(h0, pos0, payload, result, ts + [At([key])], dicts, pos)
  {
    TopCell(h0, payload, key);
    ghost var h := Snap(dicts);
    if key in payload.fields {
      Assign(result, key, payload.fields[key], dicts);
      KeptWhole(h0, h, Snap(dicts), pos, payload, result, ts, key);
      AllowOrderSnoc(ViewOf(h0, payload), ts, At([key]));
    } else {
      AllowSkip(h0, pos0, payload, result, ts, At([key]), dicts, pos);
    }
  }

  /** `result.setdefault(key, {})`, reached only if the payload has something under key. */
  method SetDefault(payload: Dict, result: Dict, key: string,
                    ghost h0: Store, ghost pos0: map<Dict, Path>, ghost ts: seq<Target>, ghost dicts: set<Dict>,
                    ghost pos: map<Dict, Path>)
    returns (ghost dicts2: set<Dict>, ghost pos2: map<Dict, Path>)
    requires Allowing(h0, pos0, payload, result, ts, dicts, pos) && Touched(ViewOf(h0, payload), Touch(key))
    modifies result
    ensures Allowing(h0, pos0, payload, result, ts + [Touch(key)], dicts2, pos2)
    ensures dicts <= dicts2 && (forall d :: d in dicts2 ==> d in dicts || fresh(d))
  {
    dicts2, pos2 := dicts, pos;
    ghost var h := Snap(dicts);
    AllowOrderSnoc(ViewOf(h0, payload), ts, Touch(key));
    if key !in result.fields {
      var created;
      created, dicts2, pos2 := Enter(result, key, dicts, pos);
      KeptDefault(h0, h, Snap(dicts2), pos, pos2, payload, result, ts, key, created);
    } else {
      KeptDefault(h0, h, h, pos, pos, payload, result, ts, key, payload);
    }
  }

  /** What _get_nested_value finds in the payload, in terms of the payload's view. */
  lemma NestedValue(h0: Store, payload: Dict, top: Val, key: string, sub: string)
    requires payload in h0
    requires top == if key in h0[payload] then h0[payload][key] else Atomic(Null)
    ensures sub == "" ==> (GetSpec(h0, top, sub) != Atomic(Null) <==> Touched(ViewOf(h0, payload), Touch(key)))
    ensures sub != "" ==> (GetSpec(h0, top, sub) != Atomic(Null) <==> Hit(ViewOf(h0, payload), Nested(key, sub)))
    ensures sub != "" && GetSpec(h0, top, sub) != Atomic(Null) ==>
              && ValAt(h0, Ref(payload), Nested(key, sub).path) == Some(GetSpec(h0, top, sub))
              && Touched(ViewOf(h0, payload), Touch(key))
  {
    TopCell(h0, payload, key);
    if sub != "" {
      var p := Nested(key, sub).path;
      assert p[1..] == Split(sub) && p[0] == key;
      assert ViewOf(h0, payload)(p) == CellAt(h0, Ref(payload), p);
      if key in h0[payload] {
        assert ValAt(h0, Ref(payload), p) == ValAt(h0, top, Split(sub));
      }
    }
  }

  /** `_get_nested_value(payload.get(key), sub)`: None exactly if the entry keeps nothing. */
  method FindNested(payload: Dict, result: Dict, key: string, sub: string,
                    ghost h0: Store, ghost pos0: map<Dict, Path>, ghost ts: seq<Target>, ghost dicts: set<Dict>,
                    ghost pos: map<Dict, Path>)
    returns (value: Val)
    requires Allowing(h0, pos0, payload, result, ts, dicts, pos)
    ensures value == Atomic(Null) <==> !Enters(ViewOf(h0, payload), Nested(key, sub))
    ensures value != Atomic(Null) ==> Touched(ViewOf(h0, payload), Touch(key))
    ensures value != Atomic(Null) && sub != "" ==> ValAt(h0, Ref(payload), Nested(key, sub).path) == Some(value)
  {
    value := GetNested(payload.Get(key), sub, dicts);
    OriginalValue(h0, Snap(dicts), payload, result, ts, payload.Get(key), sub);
    NestedValue(h0, payload, payload.Get(key), key, sub);
  }

  /** get, setdefault and set for one entry below a top-level key. */
  method KeepNested(payload: Dict, result: Dict, key: string, sub: string,
                    ghost h0: Store, ghost pos0: map<Dict, Path>, ghost ts: seq<Target>, ghost dicts: set<Dict>,
                    ghost pos: map<Dict, Path>)
    returns (ghost dicts2: set<Dict>, ghost pos2: map<Dict, Path>)
    requires Allowing(h0, pos0, payload, result, ts, dicts, pos)
    modifies dicts
    ensures Allowing(h0, pos0, payload, result, ts + [Nested(key, sub)], dicts2, pos2)
    ensures dicts <= dicts2 && (forall d :: d in dicts2 ==> d in dicts || fresh(d))
    ensures forall d :: d in h0 && pos0[d] == [] ==> d.order == old(d.order)
  {
    var value := FindNested(payload, result, key, sub, h0, pos0, ts, dicts, pos);
    if value == Atomic(Null) {
      AllowSkip(h0, pos0, payload, result, ts, Nested(key, sub), dicts, pos);
      return dicts, pos;
    }
    dicts2, pos2 := SetDefault(payload, result, key, h0, pos0, ts, dicts, pos);
    if sub != "" {
      dicts2, pos2 := KeepBelow(payload, result, key, sub, value, h0, pos0, ts, dicts2, pos2);
    }
  }

  /** Reading the payload's dicts gives what the original store gives. */
  lemma OriginalValue(h0: Store, h: Store, payload: Dict, result: Dict, ts: seq<Target>, top: Val, sub: string)
    requires Kept(h0, h, payload, result, ts) && (top.Ref? ==> top.node in h0)
    ensures GetSpec(h, top, sub) == GetSpec(h0, top, sub)
  {
    OldLookup(h0, h, top, Split(sub));
  }

  /** Where the entry is going to be written, the result holds a dict at its own position. */
  lemma ReadyBelow(h0: Store, h: Store, pos: map<Dict, Path>, payload: Dict, result: Dict, ts: seq<Target>,
                   key: string, segments: Path, value: Val)
    requires Kept(h0, h, payload, result, ts) && Labelled(h, pos) && pos[payload] == pos[result] == []
    requires segments != [] && Touch(key) in ts && Touched(ViewOf(h0, payload), Touch(key))
    requires ValAt(h0, Ref(payload), [key] + segments) == Some(value)
    ensures key in h[result] && h[result][key].Ref?
    ensures SetReady(h, pos, result, [key], h[result][key].node, segments, value)
  {
    var p := [key] + segments;
    assert KeptAt(h0, h, payload, result, ts, [key]);
    PathContinues(h0, Ref(payload), p, 1);
    assert p[..1] == [key];
    assert [] + [key] == [key];
    ValAtSnoc(h, Ref(result), [], key);
    assert ValAt(h, Ref(result), [key]).Some?;
    if value.Ref? {
      FoundInStore(h0, Ref(payload), p);
      OldLookup(h0, h, Ref(payload), p);
      LabelOf(h, pos, payload, p, value.node);
      assert [] + p == p;
    }
  }

  /**
   `_set_nested_value(result[key], sub, value)` for a value found in the payload;
   with an empty sub-path it does nothing.
   */
  method KeepBelow(payload: Dict, result: Dict, key: string, sub: string, value: Val,
                   ghost h0: Store, ghost pos0: map<Dict, Path>, ghost ts: seq<Target>, ghost dicts: set<Dict>,
                   ghost pos: map<Dict, Path>)
    returns (ghost dicts2: set<Dict>, ghost pos2: map<Dict, Path>)
    requires Allowing(h0, pos0, payload, result, ts + [Touch(key)], dicts, pos)
    requires sub != "" && Touched(ViewOf(h0, payload), Touch(key)) && Hit(ViewOf(h0, payload), Nested(key, sub))
    requires ValAt(h0, Ref(payload), Nested(key, sub).path) == Some(value)
    modifies dicts
    ensures Allowing(h0, pos0, payload, result, ts + [Nested(key, sub)], dicts2, pos2)
    ensures dicts <= dicts2 && (forall d :: d in dicts2 ==> d in dicts || fresh(d))
    ensures forall d :: d in h0 && pos0[d] == [] ==> d.order == old(d.order)
  {
    ghost var h, t, touch := Snap(dicts), Nested(key, sub), Touch(key);
    ghost var order := result.order;
    ReadyBelow(h0, h, pos, payload, result, ts + [touch], key, Split(sub), value);
    dicts2, pos2 := SetNested(result.fields[key], sub, value, result, [key], dicts, pos);
    ghost var h2 := Snap(dicts2);
    SameKeys(h, h2, pos, result, t.path, value);
    KeptNested(h0, h, h2, payload, result, ts + [touch], t, value);
    KeptAbsorb(h0, h2, payload, result, ts, t);
    AllowOrderSnoc(ViewOf(h0, payload), ts, touch);
    AllowOrderSnoc(ViewOf(h0, payload), ts, t);
  }

  /** Writing below an existing dict adds no key to the root. */
  lemma SameKeys(h: Store, h2: Store, pos: map<Dict, Path>, root: Dict, p: Path, value: Val)
    requires Labelled(h, pos) && root in h && SetFrame(h, h2, root, p, value) && |p| > 1
    requires HasDict(h, root, p[0])
    ensures root in h2 && h2[root] == h[root]
  {
    forall i | 0 <= i < |p| && ValAt(h, Ref(root), p[..i]) == Some(Ref(root)) ensures i == 0 {
      LabelOf(h, pos, root, p[..i], root);
    }
  }

  // ----- the loop over the configured entries

  /** `data_key`, where a missing or empty key counts as none. */
  ghost predicate IsDataKey(found: Option<string>, payload: Dict, dataKey: string)
    reads payload
  {
    Keyed(payload, dataKey) && found == if dataKey in payload.fields then Some(dataKey) else None
  }

  /** What a key missing from the payload means for an entry. */
  lemma MissingKey(h0: Store, payload: Dict, key: string, sub: string)
    requires payload in h0 && key !in h0[payload]
    ensures !Enters(ViewOf(h0, payload), At([key])) && !Enters(ViewOf(h0, payload), Nested(key, sub))
  {
    TopCell(h0, payload, key);
    ViewIsTree(h0, payload);
    if sub != "" {
      assert [key] < [key] + Split(sub);
    }
  }

  /** One turn of the loop of apply_allowlist. */
  method AllowEntry(payload: Dict, result: Dict, path: string, found: Option<string>, ghost dataKey: string,
                    ghost h0: Store, ghost pos0: map<Dict, Path>, ghost ts: seq<Target>,
                    ghost dicts: set<Dict>, ghost pos: map<Dict, Path>)
    returns (ghost dicts2: set<Dict>, ghost pos2: map<Dict, Path>)
    requires Allowing(h0, pos0, payload, result, ts, dicts, pos) && IsDataKey(found, payload, dataKey)
    modifies dicts
    ensures IsDataKey(found, payload, dataKey)
    ensures Allowing(h0, pos0, payload, result, ts + [Resolve(path, dataKey)], dicts2, pos2)
    ensures dicts <= dicts2 && (forall d :: d in dicts2 ==> d in dicts || fresh(d))
    ensures forall d :: d in h0 && pos0[d] == [] ==> d.order == old(d.order)
  {
    dicts2, pos2 := dicts, pos;
    ghost var t := Resolve(path, dataKey);
    if path == META {
      KeepWhole(payload, result, META, h0, pos0, ts, dicts, pos);
    } else if META + "." <= path {
      dicts2, pos2 := KeepNested(payload, result, META, path[|META| + 1..], h0, pos0, ts, dicts, pos);
    } else if path == "data" {
      if found.Some? && found.value != "" {
        KeepWhole(payload, result, found.value, h0, pos0, ts, dicts, pos);
      } else {
        MissingAlias(h0, payload, dataKey, path, found);
        AllowSkip(h0, pos0, payload, result, ts, t, dicts, pos);
      }
    } else if "data." <= path {
      if found.None? || found.value == "" {
        MissingAlias(h0, payload, dataKey, path, found);
        AllowSkip(h0, pos0, payload, result, ts, t, dicts, pos);
      } else {
        dicts2, pos2 := KeepNested(payload, result, found.value, path[5..], h0, pos0, ts, dicts, pos);
      }
    } else if path in payload.fields {
      assert path in payload.order;
      KeepWhole(payload, result, path, h0, pos0, ts, dicts, pos);
    } else {
      dicts2, pos2 := AllowLiteral(payload, result, path, found, dataKey, h0, pos0, ts, dicts, pos);
    }
  }

  lemma MissingAlias(h0: Store, payload: Dict, dataKey: string, path: string, found: Option<string>)
    requires payload in h0 && h0[payload] == payload.fields && IsDataKey(found, payload, dataKey)
    requires found.None? || found.value == ""
    requires path == "data" || ("data." <= path && path != META && !(META + "." <= path))
    ensures !Enters(ViewOf(h0, payload), Resolve(path, dataKey))
  {
    if dataKey != "" {
      MissingKey(h0, payload, dataKey, if path == "data" then "" else path[5..]);
    }
  }

  lemma LiteralResolves(path: string, key: string, dataKey: string)
    requires key in {dataKey, META} && key + "." <= path
    requires path != META && !(META + "." <= path) && path != "data" && !("data." <= path)
    ensures Resolve(path, dataKey) == Nested(key, path[|key| + 1..])
  {
    assert path != dataKey;
  }

  lemma MissingLiteral(h0: Store, payload: Dict, path: string, dataKey: string)
    requires payload in h0 && h0[payload] == payload.fields && Keyed(payload, dataKey)
    requires path != META && !(META + "." <= path) && path != "data" && !("data." <= path) && path !in payload.fields
    requires forall k :: k in payload.order ==> !(k + "." <= path)
    ensures !Enters(ViewOf(h0, payload), Resolve(path, dataKey))
  {
    if path == dataKey || dataKey + "." <= path {
      assert dataKey !in payload.order;
      MissingKey(h0, payload, dataKey, if path == dataKey then "" else path[|dataKey| + 1..]);
    }
  }

  /** `for key in payload: if path.startswith(f"{key}."): ...; break` */
  method AllowLiteral(payload: Dict, result: Dict, path: string, found: Option<string>, ghost dataKey: string,
                      ghost h0: Store, ghost pos0: map<Dict, Path>, ghost ts: seq<Target>,
                      ghost dicts: set<Dict>, ghost pos: map<Dict, Path>)
    returns (ghost dicts2: set<Dict>, ghost pos2: map<Dict, Path>)
    requires Allowing(h0, pos0, payload, result, ts, dicts, pos) && IsDataKey(found, payload, dataKey)
    requires path != META && !(META + "." <= path) && path != "data" && !("data." <= path) && path !in payload.fields
    modifies dicts
    ensures Allowing(h0, pos0, payload, result, ts + [Resolve(path, dataKey)], dicts2, pos2)
    ensures dicts <= dicts2 && (forall d :: d in dicts2 ==> d in dicts || fresh(d))
    ensures forall d :: d in h0 && pos0[d] == [] ==> d.order == old(d.order)
  {
    var i := 0;
    while i < |payload.order|
      invariant 0 <= i <= |payload.order|
      invariant forall j :: 0 <= j < i ==> !(payload.order[j] + "." <= path)
    {
      var key := payload.order[i];
      assert key in payload.order;
      if key + "." <= path {
        LiteralResolves(path, key, dataKey);
        dicts2, pos2 := KeepNested(payload, result, key, path[|key| + 1..], h0, pos0, ts, dicts, pos);
        return;
      }
      i := i + 1;
    }
    MissingLiteral(h0, payload, path, dataKey);
    AllowSkip(h0, pos0, payload, result, ts, Resolve(path, dataKey), dicts, pos);
    return dicts, pos;
  }

  /** `result = {}` */
  method NewResult(payload: Dict, ghost dicts: set<Dict>, ghost pos: map<Dict, Path>)
    returns (result: Dict, ghost dicts2: set<Dict>, ghost pos2: map<Dict, Path>)
    requires payload in dicts && Labelled(Snap(dicts), pos) && pos[payload] == []
    ensures fresh(result) && dicts2 == dicts + {result}
    ensures Allowing(old(Snap(dicts)), pos, payload, result, [], dicts2, pos2)
  {
    ghost var h0 := Snap(dicts);
    result := new Dict();
    dicts2, pos2 := dicts + {result}, pos[result := []];
    assert Snap(dicts2) == h0[result := map[]];
    KeptNothing(h0, Snap(dicts2), payload, result);
  }

  /** Keep only the configured paths. An empty list keeps the payload itself. */
  method ApplyAllowlist(payload: Dict, allowlist: seq<string>, ghost dataKey: string, ghost dicts: set<Dict>,
                        ghost pos: map<Dict, Path>)
    returns (result: Dict, ghost dicts2: set<Dict>, ghost pos2: map<Dict, Path>)
    requires IsPayload(payload, dataKey, dicts, pos)
    modifies dicts
    ensures dicts <= dicts2 && (forall d :: d in dicts2 ==> d in dicts || fresh(d))
    ensures allowlist == [] ==> result == payload && dicts2 == dicts && pos2 == pos && Snap(dicts) == old(Snap(dicts))
    ensures allowlist != [] ==>
        Allowing(old(Snap(dicts)), pos, payload, result, ResolveAll(allowlist, dataKey), dicts2, pos2)
    ensures allowlist != [] ==>
        KeptByEntries(old(Snap(dicts)), Snap(dicts2), payload, result, allowlist, dataKey)
    ensures forall d :: d in dicts && pos[d] == [] ==> d.order == old(d.order)
  {
    if allowlist == [] {
      return payload, dicts, pos;
    }
    hide Resolve, Allowing, Labelled;
    ghost var h0, done: seq<Target> := Snap(dicts), [];
    result, dicts2, pos2 := NewResult(payload, dicts, pos);
    var found := EventDataKey(payload);
    OtherIsDataKey(payload, dataKey, found);
    var i := 0;
    while i < |allowlist|
      invariant 0 <= i <= |allowlist|
      invariant dicts <= dicts2 && (forall d :: d in dicts2 ==> d in dicts || fresh(d))
      invariant |done| == i && forall j :: 0 <= j < i ==> done[j] == Resolve(allowlist[j], dataKey)
      invariant Allowing(h0, pos, payload, result, done, dicts2, pos2)
      invariant IsDataKey(found, payload, dataKey) && forall d :: d in dicts && pos[d] == [] ==> d.order == old(d.order)
    {
      dicts2, pos2 := AllowEntry(payload, result, allowlist[i], found, dataKey, h0, pos, done, dicts2, pos2);
      i, done := i + 1, done + [Resolve(allowlist[i], dataKey)];
    }
    assert done == ResolveAll(allowlist, dataKey);
    AllowingEntries(h0, pos, payload, result, allowlist, dataKey, dicts2, pos2);
  }

  lemma AllowingEntries(h0: Store, pos0: map<Dict, Path>, payload: Dict, result: Dict, allowlist: seq<string>,
                        dataKey: string, dicts: set<Dict>, pos: map<Dict, Path>)
    requires Allowing(h0, pos0, payload, result, ResolveAll(allowlist, dataKey), dicts, pos)
    requires dataKey != META && allowlist != []
    ensures KeptByEntries(h0, Snap(dicts), payload, result, allowlist, dataKey)
  {
    KeptEntries(h0, Snap(dicts), payload, result, allowlist, dataKey);
  }

  // ----- the denylist

  ghost function DenyTarget(h: Store, a: Dict, t: Target): Store {
    if t.At? && t.path != [] then DelStore(h, Ref(a), t.path) else h
  }

  function DenyKey(order: seq<string>, t: Target): seq<string> {
    if t.At? && |t.path| == 1 then Without(order, t.path[0]) else order
  }

  /** `payload.pop(key, None)` */
  method DenyWhole(payload: Dict, key: string, ghost dataKey: string, ghost dicts: set<Dict>,
                   ghost pos: map<Dict, Path>)
    requires IsPayload(payload, dataKey, dicts, pos)
    modifies payload
    ensures IsPayload(payload, dataKey, dicts, pos)
    ensures Snap(dicts) == DenyTarget(old(Snap(dicts)), payload, At([key]))
    ensures payload.order == Without(old(payload.order), key)
    ensures payload.fields.Keys <= old(payload.fields).Keys
  {
    ghost var h, order := Snap(dicts), payload.order;
    payload.Pop(key);
    assert Parent([key]) == [];
    assert Snap(dicts) == DenyTarget(h, payload, At([key]));
    DelLabelled(h, pos, payload, [key]);
    WithoutKeepsDistinct(order, key);
  }

  /** `_delete_nested_path(payload.get(key), sub)` */
  method DenyNested(payload: Dict, key: string, sub: string, ghost dataKey: string, ghost dicts: set<Dict>,
                    ghost pos: map<Dict, Path>)
    requires IsPayload(payload, dataKey, dicts, pos)
    modifies dicts
    ensures IsPayload(payload, dataKey, dicts, pos)
    ensures Snap(dicts) == DenyTarget(old(Snap(dicts)), payload, Nested(key, sub))
    ensures forall d :: d in dicts && pos[d] == [] ==> d.order == old(d.order)
    ensures payload.fields.Keys <= old(payload.fields).Keys
  {
    ghost var h := Snap(dicts);
    DelBelow(h, pos, payload, payload.Get(key), key, sub);
    DeleteNested(payload.Get(key), sub, dicts);
  }

  /** Deleting below a top-level value is deleting below the payload, and leaves the top level alone. */
  lemma DelBelow(h: Store, pos: map<Dict, Path>, payload: Dict, top: Val, key: string, sub: string)
    requires Labelled(h, pos) && payload in h && pos[payload] == []
    requires top == if key in h[payload] then h[payload][key] else Atomic(Null)
    ensures sub != "" ==> DelStore(h, top, Split(sub)) == DenyTarget(h, payload, Nested(key, sub))
    ensures sub != "" ==> forall d :: ValAt(h, top, Parent(Split(sub))) == Some(Ref(d)) ==> d in h && pos[d] != []
    ensures DenyTarget(h, payload, Nested(key, sub))[payload] == h[payload]
    ensures Labelled(DenyTarget(h, payload, Nested(key, sub)), pos)
  {
    if sub != "" {
      DelBelowAt(h, pos, payload, top, key, Split(sub));
    }
  }

  lemma DelBelowAt(h: Store, pos: map<Dict, Path>, payload: Dict, top: Val, key: string, segments: Path)
    requires Labelled(h, pos) && payload in h && pos[payload] == [] && segments != []
    requires top == if key in h[payload] then h[payload][key] else Atomic(Null)
    ensures var h2 := DelStore(h, Ref(payload), [key] + segments);
            DelStore(h, top, segments) == h2 && h2[payload] == h[payload] && Labelled(h2, pos)
    ensures forall d :: ValAt(h, top, Parent(segments)) == Some(Ref(d)) ==> d in h && pos[d] != []
  {
    var p := [key] + segments;
    TopLookup(h, payload, top, key, segments);
    NotARoot(h, pos, payload, Parent(p));
    DelLabelled(h, pos, payload, p);
    DelRootKept(h, payload, p);
    if key !in h[payload] {
      assert DelStore(h, top, segments) == h && DelStore(h, Ref(payload), p) == h;
    }
  }

  lemma DelRootKept(h: Store, payload: Dict, p: Path)
    requires payload in h && p != [] && ValAt(h, Ref(payload), Parent(p)) != Some(Ref(payload))
    ensures DelStore(h, Ref(payload), p)[payload] == h[payload]
  {}

  /** Lookups below a top-level value; a missing key gives None, which has nothing below it. */
  lemma TopLookup(h: Store, payload: Dict, top: Val, key: string, segments: Path)
    requires payload in h && segments != []
    requires top == if key in h[payload] then h[payload][key] else Atomic(Null)
    ensures var p := [key] + segments;
            && p[|p| - 1] == segments[|segments| - 1] && |Parent(p)| > 0
            && ValAt(h, Ref(payload), Parent(p)) == if key in h[payload] then ValAt(h, top, Parent(segments)) else None
  {
    var p := [key] + segments;
    assert Parent(p) == [key] + Parent(segments);
    assert Parent(p)[1..] == Parent(segments);
  }

  lemma NotARoot(h: Store, pos: map<Dict, Path>, payload: Dict, p: Path)
    requires Labelled(h, pos) && payload in h && pos[payload] == [] && p != []
    ensures forall d :: ValAt(h, Ref(payload), p) == Some(Ref(d)) ==> d in h && pos[d] != []
  {
    forall d | ValAt(h, Ref(payload), p) == Some(Ref(d)) ensures d in h && pos[d] != [] {
      LabelOf(h, pos, payload, p, d);
    }
  }

  /** `data_key` as computed before the loop: the key may have been popped since. */
  ghost predicate StillDataKey(found: Option<string>, payload: Dict, dataKey: string)
    reads payload
  {
    if found.Some? then found.value == dataKey else dataKey !in payload.fields
  }

  /** One turn of the loop of apply_denylist. `found` was computed before the loop. */
  method DenyEntry(payload: Dict, path: string, found: Option<string>, ghost dataKey: string, ghost dicts: set<Dict>,
                   ghost pos: map<Dict, Path>)
    requires IsPayload(payload, dataKey, dicts, pos)
    requires StillDataKey(found, payload, dataKey)
    modifies dicts
    ensures StillDataKey(found, payload, dataKey)
    ensures IsPayload(payload, dataKey, dicts, pos)
    ensures Snap(dicts) == DenyTarget(old(Snap(dicts)), payload, Resolve(path, dataKey))
    ensures payload.order == DenyKey(old(payload.order), Resolve(path, dataKey))
    ensures forall d :: d in dicts && pos[d] == [] && d != payload ==> d.order == old(d.order)
  {
    if path == META {
      DenyWhole(payload, META, dataKey, dicts, pos);
    } else if META + "." <= path {
      DenyNested(payload, META, path[|META| + 1..], dataKey, dicts, pos);
    } else if path == "data" {
      if found.Some? && found.value != "" {
        DenyWhole(payload, found.value, dataKey, dicts, pos);
      } else if dataKey != "" {
        DenyAbsent(payload, dataKey, "", dicts);
      }
    } else if "data." <= path {
      if found.Some? && found.value != "" {
        DenyNested(payload, found.value, path[5..], dataKey, dicts, pos);
      } else if dataKey != "" {
        DenyAbsent(payload, dataKey, path[5..], dicts);
      }
    } else if path in payload.fields {
      assert path in payload.order;
      DenyWhole(payload, path, dataKey, dicts, pos);
    } else {
      DenyLiteral(payload, path, dataKey, dicts, pos);
    }
  }

  /** Deleting under a key that is not there does nothing. */
  lemma DenyAbsent(payload: Dict, key: string, sub: string, dicts: set<Dict>)
    requires payload in dicts && key !in payload.fields && forall k :: k in payload.order <==> k in payload.fields
    ensures DenyTarget(Snap(dicts), payload, At([key])) == Snap(dicts)
    ensures DenyTarget(Snap(dicts), payload, Nested(key, sub)) == Snap(dicts)
    ensures Without(payload.order, key) == payload.order
  {
    var h := Snap(dicts);
    assert Parent([key]) == [] && h[payload] - {key} == h[payload];
    if sub != "" {
      var p := Nested(key, sub).path;
      assert Parent(p) == [key] + Parent(Split(sub));
      assert ValAt(h, Ref(payload), [key]) == None;
      ValAtPrefix(h, Ref(payload), [key], Parent(p));
    }
    WithoutAbsent(payload.order, key);
  }

  lemma {:induction false} WithoutAbsent(order: seq<string>, key: string)
    requires key !in order
    ensures Without(order, key) == order
  {
    if order != [] {
      WithoutAbsent(order[1..], key);
    }
  }

  /** `for key in list(payload.keys()): if path.startswith(f"{key}."): ...; break` */
  method DenyLiteral(payload: Dict, path: string, ghost dataKey: string, ghost dicts: set<Dict>,
                     ghost pos: map<Dict, Path>)
    requires IsPayload(payload, dataKey, dicts, pos)
    requires path != META && !(META + "." <= path) && path != "data" && !("data." <= path) && path !in payload.fields
    modifies dicts
    ensures IsPayload(payload, dataKey, dicts, pos)
    ensures Snap(dicts) == DenyTarget(old(Snap(dicts)), payload, Resolve(path, dataKey))
    ensures payload.order == DenyKey(old(payload.order), Resolve(path, dataKey))
    ensures payload.fields.Keys <= old(payload.fields).Keys
    ensures forall d :: d in dicts && pos[d] == [] && d != payload ==> d.order == old(d.order)
  {
    var keys := payload.order;
    var i := 0;
    while i < |keys|
      invariant 0 <= i <= |keys|
      invariant forall j :: 0 <= j < i ==> !(keys[j] + "." <= path)
    {
      var key := keys[i];
      assert key in keys;
      if key + "." <= path {
        LiteralResolves(path, key, dataKey);
        DenyNested(payload, key, path[|key| + 1..], dataKey, dicts, pos);
        return;
      }
      i := i + 1;
    }
    DenyLiteralAbsent(payload, path, dataKey, dicts);
  }

  lemma DenyLiteralAbsent(payload: Dict, path: string, dataKey: string, dicts: set<Dict>)
    requires payload in dicts && Keyed(payload, dataKey) && path !in payload.fields
    requires path != META && !(META + "." <= path) && path != "data" && !("data." <= path)
    requires forall k :: k in payload.order ==> !(k + "." <= path)
    ensures DenyTarget(Snap(dicts), payload, Resolve(path, dataKey)) == Snap(dicts)
    ensures DenyKey(payload.order, Resolve(path, dataKey)) == payload.order
  {
    if path == dataKey || dataKey + "." <= path {
      assert dataKey !in payload.order;
      DenyAbsent(payload, dataKey, if path == dataKey then "" else path[|dataKey| + 1..], dicts);
    }
  }

  /** Remove the configured paths, in place. */
  method ApplyDenylist(payload: Dict, denylist: seq<string>, ghost dataKey: string, ghost dicts: set<Dict>,
                       ghost pos: map<Dict, Path>)
    requires IsPayload(payload, dataKey, dicts, pos)
    modifies dicts
    ensures IsPayload(payload, dataKey, dicts, pos)
    ensures Snap(dicts) == DenyStore(old(Snap(dicts)), payload, ResolveAll(denylist, dataKey))
    ensures DeniedByEntries(old(Snap(dicts)), Snap(dicts), payload, denylist, dataKey)
    ensures payload.order == DenyOrder(old(payload.order), ResolveAll(denylist, dataKey))
    ensures forall d :: d in dicts && pos[d] == [] && d != payload ==> d.order == old(d.order)
  {
    hide Resolve;
    ghost var h0, order, done: seq<Target> := Snap(dicts), payload.order, [];
    var found := EventDataKey(payload);
    OtherIsDataKey(payload, dataKey, found);
    var i := 0;
    while i < |denylist|
      invariant 0 <= i <= |denylist|
      invariant IsPayload(payload, dataKey, dicts, pos)
      invariant StillDataKey(found, payload, dataKey)
      invariant |done| == i && forall j :: 0 <= j < i ==> done[j] == Resolve(denylist[j], dataKey)
      invariant Snap(dicts) == DenyStore(h0, payload, done)
      invariant payload.order == DenyOrder(order, done)
      invariant forall d :: d in dicts && pos[d] == [] && d != payload ==> d.order == old(d.order)
    {
      ghost var t := Resolve(denylist[i], dataKey);
      DenySnoc(h0, payload, order, done, t);
      DenyEntry(payload, denylist[i], found, dataKey, dicts, pos);
      i, done := i + 1, done + [t];
    }
    assert done == ResolveAll(denylist, dataKey);
    DeniedEntries(h0, pos, payload, denylist, dataKey);
  }

  lemma DenySnoc(h: Store, a: Dict, order: seq<string>, done: seq<Target>, t: Target)
    ensures DenyStore(h, a, done + [t]) == DenyTarget(DenyStore(h, a, done), a, t)
    ensures DenyOrder(order, done + [t]) == DenyKey(DenyOrder(order, done), t)
  {
    assert (done + [t])[..|done|] == done;
  }
}
