/**
 Reading, writing and deleting at a dotted path, in place:
 _get_nested_value, _set_nested_value and _delete_nested_path of security.py.
 The ghost parameter `dicts` is the set of dicts in play and `pos` their
 position labels.
 */
module NestedPaths {
  import opened Options
  import opened PayloadPaths
  import opened ShapeSpec
  import opened DictHeap

  /** Every reference from a dict of the store leads to a dict of the store. */
  ghost predicate Closed(h: Store) {
    forall d, k :: d in h && k in h[d] && h[d][k].Ref? ==> h[d][k].node in h
  }

  ghost function GetSpec(h: Store, root: Val, path: string): Val {
    if root == Atomic(Null) then Atomic(Null)
    else if path == "" then root
    else match ValAt(h, root, Split(path)) case None => Atomic(Null) case Some(v) => v
  }

  /** None for anything missing, and the root itself for the empty path. */
  method GetNested(root: Val, path: string, ghost dicts: set<Dict>) returns (value: Val)
    requires Closed(Snap(dicts)) && (root.Ref? ==> root.node in dicts)
    ensures value == GetSpec(Snap(dicts), root, path)
  {
    if root == Atomic(Null) {
      return root;
    }
    if path == "" {
      return root;
    }
    var segments := Split(path);
    ghost var h := Snap(dicts);
    value := root;
    var i := 0;
    while i < |segments|
      invariant 0 <= i <= |segments|
      invariant ValAt(h, root, segments[..i]) == Some(value)
      invariant value.Ref? ==> value.node in dicts
    {
      assert segments[..i + 1] == segments[..i] + [segments[i]];
      ValAtSnoc(h, root, segments[..i], segments[i]);
      if !value.Ref? || segments[i] !in value.node.fields {
        ValAtPrefix(h, root, segments[..i + 1], segments);
        return Atomic(Null);
      }
      value := value.node.fields[segments[i]];
      i := i + 1;
    }
    assert segments[..i] == segments;
  }

  // ----- deletion

  /** The store after removing the key at the end of a non-empty path below v. */
  ghost function DelStore(h: Store, v: Val, p: Path): (h2: Store)
    requires p != []
    ensures h2.Keys == h.Keys
  {
    match ValAt(h, v, Parent(p))
    case None => h
    case Some(w) => if w.Ref? && w.node in h then h[w.node := h[w.node] - {p[|p| - 1]}] else h
  }

  /** The loop of _delete_nested_path: the value that holds the last segment, or None where the path breaks off. */
  method FindHolder(root: Val, segments: Path, ghost dicts: set<Dict>) returns (found: Option<Val>)
    requires Closed(Snap(dicts)) && (root.Ref? ==> root.node in dicts) && segments != []
    ensures found == ValAt(Snap(dicts), root, Parent(segments))
    ensures found.Some? && found.value.Ref? ==> found.value.node in dicts
  {
    ghost var h := Snap(dicts);
    var current := root;
    var i := 0;
    while i < |segments| - 1
      invariant 0 <= i <= |segments| - 1
      invariant ValAt(h, root, segments[..i]) == Some(current)
      invariant current.Ref? ==> current.node in dicts
    {
      assert segments[..i + 1] == segments[..i] + [segments[i]];
      ValAtSnoc(h, root, segments[..i], segments[i]);
      if !current.Ref? || segments[i] !in current.node.fields {
        ValAtPrefix(h, root, segments[..i + 1], Parent(segments));
        return None;
      }
      current := current.node.fields[segments[i]];
      i := i + 1;
    }
    return Some(current);
  }

  method DeleteNested(root: Val, path: string, ghost dicts: set<Dict>)
    requires Closed(Snap(dicts)) && (root.Ref? ==> root.node in dicts)
    modifies dicts
    ensures Snap(dicts) == if path == "" then old(Snap(dicts)) else DelStore(old(Snap(dicts)), root, Split(path))
    ensures forall d :: d in dicts && d.order != old(d.order) ==>
              path != "" && ValAt(old(Snap(dicts)), root, Parent(Split(path))) == Some(Ref(d))
  {
    hide ValAt, Split;
    if root == Atomic(Null) || path == "" {
      if path != "" {
        NothingToDelete(Snap(dicts), Split(path));
      }
      return;
    }
    var segments := Split(path);
    ghost var h := Snap(dicts);
    var holder := FindHolder(root, segments, dicts);
    if holder.Some? && holder.value.Ref? {
      holder.value.node.Pop(segments[|segments| - 1]);
      assert Snap(dicts) == h[holder.value.node := h[holder.value.node] - {segments[|segments| - 1]}];
    }
  }

  lemma NothingToDelete(h: Store, p: Path)
    requires p != []
    ensures DelStore(h, Atomic(Null), p) == h
  {}

  // ----- assignment

  /** How assigning `value` at a non-empty path below root changes what lookups find. */
  ghost predicate SetEffect(h: Store, h2: Store, root: Dict, p: Path, value: Val) {
    && (forall q :: p <= q ==> ValAt(h2, Ref(root), q) == ValAt(h, value, q[|p|..]))
    && (forall q :: !(p <= q) && !(q < p) ==> ValAt(h2, Ref(root), q) == ValAt(h, Ref(root), q))
    && (forall q :: q < p ==> Container(h, h2, ValAt(h, Ref(root), q), ValAt(h2, Ref(root), q)))
  }

  /** An existing dict is walked through; anything else is replaced by a new dict. */
  ghost predicate Container(h: Store, h2: Store, before: Option<Val>, after: Option<Val>) {
    && after.Some? && after.value.Ref?
    && (if before.Some? && before.value.Ref? then after == before else after.value.node in h2.Keys - h.Keys)
  }

  /** A dict that existed before changes only if it lies on the path, and then at one key. */
  ghost predicate SetFrame(h: Store, h2: Store, root: Dict, p: Path, value: Val) {
    forall d :: d in h ==> d in h2 && (h2[d] == h[d] || ChangedOnPath(h, h2, root, p, value, d))
  }

  ghost predicate ChangedOnPath(h: Store, h2: Store, root: Dict, p: Path, value: Val, d: Dict)
    requires d in h && d in h2
  {
    exists i :: 0 <= i < |p| && ValAt(h, Ref(root), p[..i]) == Some(Ref(d)) &&
      if i == |p| - 1 then h2[d] == h[d][p[i] := value]
      else !(p[i] in h[d] && h[d][p[i]].Ref?)
  }

  /** The store after making sure that n holds a dict under k. */
  ghost function EnterStore(h: Store, n: Dict, k: string, next: Dict): Store
    requires n in h
  {
    if HasDict(h, n, k) then h else h[next := map[]][n := h[n][k := Ref(next)]]
  }

  ghost predicate HasDict(h: Store, n: Dict, k: string)
    requires n in h
  {
    k in h[n] && h[n][k].Ref?
  }

  /** The outcome of stepping into the dict under k of n, creating it if need be. */
  ghost predicate Entered(h: Store, h2: Store, pos: map<Dict, Path>, pos2: map<Dict, Path>, n: Dict, k: string,
                          next: Dict) {
    && n in h && n in pos
    && h2 == EnterStore(h, n, k, next)
    && if HasDict(h, n, k) then next == h[n][k].node && pos2 == pos
       else next !in h && pos2 == pos[next := pos[n] + [k]]
  }

  /** One turn of the loop of _set_nested_value. */
  method Enter(current: Dict, segment: string, ghost dicts: set<Dict>, ghost pos: map<Dict, Path>)
    returns (next: Dict, ghost dicts2: set<Dict>, ghost pos2: map<Dict, Path>)
    requires current in dicts && current in pos && Closed(Snap(dicts))
    modifies current
    ensures Entered(old(Snap(dicts)), Snap(dicts2), pos, pos2, current, segment, next)
    ensures next in dicts2 && dicts <= dicts2 && (forall d :: d in dicts2 ==> d in dicts || fresh(d))
    ensures current.order == if segment in old(current.fields)
                             then old(current.order) else old(current.order) + [segment]
  {
    dicts2, pos2 := dicts, pos;
    ghost var h := Snap(dicts);
    if segment !in current.fields || !current.fields[segment].Ref? {
      var created: Dict := new Dict();
      next := created;
      current.Put(segment, Ref(next));
      dicts2, pos2 := dicts + {next}, pos[next := pos[current] + [segment]];
      assert Snap(dicts2) == EnterStore(h, current, segment, next);
    } else {
      next := current.fields[segment].node;
    }
  }

  /** `current[key] = value`, seen from the whole store. */
  method Assign(current: Dict, key: string, value: Val, ghost dicts: set<Dict>)
    requires current in dicts
    modifies current
    ensures Snap(dicts) == old(Snap(dicts))[current := old(current.fields)[key := value]]
    ensures current.order == if key in old(current.fields) then old(current.order) else old(current.order) + [key]
  {
    current.Put(key, value);
  }

  /**
   The loop of _set_nested_value: the dict that is to receive the last segment.
   Lookups are accounted for from `top`, above which `root` sits at `prefix`.
   */
  method Descend(root: Dict, segments: Path, ghost top: Dict, ghost prefix: Path, ghost value: Val,
                 ghost dicts: set<Dict>, ghost pos: map<Dict, Path>)
    returns (current: Dict, ghost dicts2: set<Dict>, ghost pos2: map<Dict, Path>)
    requires segments != [] && SetReady(Snap(dicts), pos, top, prefix, root, segments, value)
    modifies dicts
    ensures dicts <= dicts2 && (forall d :: d in dicts2 ==> d in dicts || fresh(d))
    ensures WalkedFrom(old(Snap(dicts)), Snap(dicts2), pos, pos2, top, prefix, segments, |segments| - 1, value, current)
    ensures forall d :: d in dicts && |pos[d]| < |prefix| ==> d.order == old(d.order)
  {
    ghost var h0, h := Snap(dicts), Snap(dicts);
    current, dicts2, pos2 := root, dicts, pos;
    var i := 0;
    WalkStart(h0, pos, top, prefix, root, segments, value);
    while i < |segments| - 1
      invariant 0 <= i <= |segments| - 1
      invariant dicts <= dicts2 && (forall d :: d in dicts2 ==> d in dicts || fresh(d)) && h == Snap(dicts2)
      invariant WalkedFrom(h0, h, pos, pos2, top, prefix, segments, i, value, current)
      invariant forall d :: d in dicts && |pos[d]| < |prefix| ==> d.order == old(d.order)
    {
      ghost var h1, pos1, from := h, pos2, current;
      WalkedAt(h0, h, pos, pos2, top, prefix, segments, i, value, current);
      current, dicts2, pos2 := Enter(current, segments[i], dicts2, pos2);
      h := Snap(dicts2);
      EnterStep(h0, h1, h, pos, pos1, pos2, top, prefix, segments, i, value, from, current);
      i := i + 1;
    }
  }

  /** What assigning at prefix + segments relies on: a labelled store, and a value that belongs at that position. */
  ghost predicate SetReady(h: Store, pos: map<Dict, Path>, top: Dict, prefix: Path, root: Dict, segments: Path,
                           value: Val) {
    && Labelled(h, pos) && top in h && pos[top] == []
    && ValAt(h, Ref(top), prefix) == Some(Ref(root)) && root in h && pos[root] == prefix
    && (value.Ref? ==> value.node in h && pos[value.node] == prefix + segments)
  }

  /** A scalar root is tolerated only with the empty path, where the source returns at once. */
  method SetNested(root: Val, path: string, value: Val, ghost top: Dict, ghost prefix: Path,
                   ghost dicts: set<Dict>, ghost pos: map<Dict, Path>)
    returns (ghost dicts2: set<Dict>, ghost pos2: map<Dict, Path>)
    requires Labelled(Snap(dicts), pos)
    requires path != "" ==> root.Ref? && SetReady(Snap(dicts), pos, top, prefix, root.node, Split(path), value)
    modifies dicts
    ensures dicts <= dicts2 && (forall d :: d in dicts2 ==> d in dicts || fresh(d))
    ensures Labelled(Snap(dicts2), pos2) && forall d :: d in dicts ==> pos2[d] == pos[d]
    ensures path == "" ==> dicts2 == dicts && Snap(dicts) == old(Snap(dicts))
    ensures path == "" ==> forall d :: d in dicts ==> d.order == old(d.order)
    ensures path != "" ==> SetEffect(old(Snap(dicts)), Snap(dicts2), top, prefix + Split(path), value)
    ensures path != "" ==> SetFrame(old(Snap(dicts)), Snap(dicts2), top, prefix + Split(path), value)
    ensures path != "" ==> forall d :: d in dicts && |pos[d]| < |prefix| ==> d.order == old(d.order)
  {
    dicts2, pos2 := dicts, pos;
    if path == "" {
      return;
    }
    var segments := Split(path);
    ghost var h0 := Snap(dicts);
    var current;
    current, dicts2, pos2 := Descend(root.node, segments, top, prefix, value, dicts, pos);
    ghost var h := Snap(dicts2);
    WalkedAt(h0, h, pos, pos2, top, prefix, segments, |segments| - 1, value, current);
    Assign(current, segments[|segments| - 1], value, dicts2);
    AssignStep(h0, h, Snap(dicts2), pos, pos2, top, prefix, segments, value, current);
  }

  /** The loop of SetNested after i steps: the path up to i exists, nothing else has changed. */
  ghost predicate Walked(h0: Store, h: Store, pos0: map<Dict, Path>, pos: map<Dict, Path>,
                         root: Dict, p: Path, i: nat, value: Val, current: Dict)
  {
    && root in h0 && i < |p|
    && Labelled(h0, pos0) && Labelled(h, pos) && h0.Keys <= h.Keys
    && current in h && ValAt(h, Ref(root), p[..i]) == Some(Ref(current)) && pos[current] == pos0[root] + p[..i]
    && (forall d :: d in h0 ==> pos[d] == pos0[d])
    && (value.Ref? ==> value.node in h0 && pos0[value.node] == pos0[root] + p)
    && (forall q :: !(q <= p[..i]) ==> ValAt(h, Ref(root), q) == ValAt(h0, Ref(root), q))
    && (forall q :: q <= p[..i] ==> Container(h0, h, ValAt(h0, Ref(root), q), ValAt(h, Ref(root), q)))
    && (forall q :: ValAt(h, value, q) == ValAt(h0, value, q))
    && (forall d :: d in h0 && h[d] != h0[d] ==> ReplacedOnPath(h0, root, p, i, d))
  }

  /** d lies on the path before step i, and held no dict at the next segment. */
  ghost predicate ReplacedOnPath(h: Store, root: Dict, p: Path, i: nat, d: Dict)
    requires d in h && i <= |p|
  {
    exists j :: 0 <= j < i && ValAt(h, Ref(root), p[..j]) == Some(Ref(d)) && !HasDict(h, d, p[j])
  }

  lemma WalkStart(h: Store, pos: map<Dict, Path>, top: Dict, prefix: Path, root: Dict, segments: Path, value: Val)
    requires SetReady(h, pos, top, prefix, root, segments, value) && segments != []
    ensures WalkedFrom(h, h, pos, pos, top, prefix, segments, 0, value, root)
  {
    var p := prefix + segments;
    assert p[..|prefix|] == prefix;
    assert pos[top] + prefix == prefix && pos[top] + p == p;
    forall q | q <= prefix
      ensures Container(h, h, ValAt(h, Ref(top), q), ValAt(h, Ref(top), q))
    {
      PrefixRest(q, prefix);
      ValAtConcat(h, Ref(top), q, prefix[|q|..]);
    }
  }

  ghost predicate WalkedFrom(h0: Store, h: Store, pos0: map<Dict, Path>, pos: map<Dict, Path>,
                             top: Dict, prefix: Path, segments: Path, i: nat, value: Val, current: Dict)
  {
    && pos0.Keys >= h0.Keys && top in h0 && pos0[top] == []
    && i < |segments|
    && Walked(h0, h, pos0, pos, top, prefix + segments, |prefix| + i, value, current)
  }

  lemma WalkedAt(h0: Store, h: Store, pos0: map<Dict, Path>, pos: map<Dict, Path>,
                 top: Dict, prefix: Path, segments: Path, i: nat, value: Val, current: Dict)
    requires WalkedFrom(h0, h, pos0, pos, top, prefix, segments, i, value, current)
    ensures current in h && current in pos && Closed(h)
    ensures forall d :: d in h0 && |pos0[d]| < |prefix| ==> d != current
    ensures forall d :: d in h0 ==> d in h && d in pos && d in pos0 && pos[d] == pos0[d]
  {}

  lemma EnterStep(h0: Store, h: Store, h2: Store, pos0: map<Dict, Path>, pos: map<Dict, Path>, pos2: map<Dict, Path>,
                  top: Dict, prefix: Path, segments: Path, i: nat, value: Val, current: Dict, next: Dict)
    requires WalkedFrom(h0, h, pos0, pos, top, prefix, segments, i, value, current) && i + 1 < |segments|
    requires Entered(h, h2, pos, pos2, current, segments[i], next)
    ensures WalkedFrom(h0, h2, pos0, pos2, top, prefix, segments, i + 1, value, next)
  {
    hide Walked, Entered;
    EnterAt(h0, h, h2, pos0, pos, pos2, top, prefix + segments, segments[i], |prefix| + i, |prefix| + (i + 1),
            value, current, next);
  }

  lemma EnterAt(h0: Store, h: Store, h2: Store, pos0: map<Dict, Path>, pos: map<Dict, Path>, pos2: map<Dict, Path>,
                top: Dict, p: Path, segment: string, i: nat, j: nat, value: Val, current: Dict, next: Dict)
    requires Walked(h0, h, pos0, pos, top, p, i, value, current) && i + 1 == j < |p| && p[i] == segment
    requires Entered(h, h2, pos, pos2, current, segment, next)
    ensures Walked(h0, h2, pos0, pos2, top, p, j, value, next)
  {
    EnterOnPath(h0, h, h2, pos0, pos, pos2, top, p, i, value, current, next);
  }

  lemma EnterOnPath(h0: Store, h: Store, h2: Store, pos0: map<Dict, Path>, pos: map<Dict, Path>, pos2: map<Dict, Path>,
                    root: Dict, p: Path, i: nat, value: Val, current: Dict, next: Dict)
    requires Walked(h0, h, pos0, pos, root, p, i, value, current) && i + 1 < |p|
    requires Entered(h, h2, pos, pos2, current, p[i], next)
    ensures Walked(h0, h2, pos0, pos2, root, p, i + 1, value, next)
  {
    if HasDict(h, current, p[i]) {
      EnterExisting(h0, h, pos0, pos, root, p, i, value, current);
    } else {
      EnterCreated(h0, h, h2, pos0, pos, pos2, root, p, i, value, current, next);
    }
  }

  lemma EnterExisting(h0: Store, h: Store, pos0: map<Dict, Path>, pos: map<Dict, Path>,
                      root: Dict, p: Path, i: nat, value: Val, current: Dict)
    requires Walked(h0, h, pos0, pos, root, p, i, value, current) && i + 1 < |p|
    requires HasDict(h, current, p[i])
    ensures Walked(h0, h, pos0, pos, root, p, i + 1, value, h[current][p[i]].node)
  {
    assert p[..i + 1] == p[..i] + [p[i]];
    assert pos0[root] + p[..i] + [p[i]] == pos0[root] + p[..i + 1];
    ValAtSnoc(h, Ref(root), p[..i], p[i]);
    forall q | q <= p[..i + 1]
      ensures Container(h0, h, ValAt(h0, Ref(root), q), ValAt(h, Ref(root), q))
    {
      assert q <= p[..i] || q == p[..i + 1];
    }
    forall d | d in h0 && h[d] != h0[d] ensures ReplacedOnPath(h0, root, p, i + 1, d) {
      assert ReplacedOnPath(h0, root, p, i, d);
    }
  }

  lemma EnterCreated(h0: Store, h: Store, h2: Store, pos0: map<Dict, Path>, pos: map<Dict, Path>, pos2: map<Dict, Path>,
                     root: Dict, p: Path, i: nat, value: Val, current: Dict, next: Dict)
    requires Walked(h0, h, pos0, pos, root, p, i, value, current) && i + 1 < |p|
    requires !HasDict(h, current, p[i]) && Entered(h, h2, pos, pos2, current, p[i], next)
    ensures Walked(h0, h2, pos0, pos2, root, p, i + 1, value, next)
  {
    hide ValAt;
    assert p[..i + 1] == p[..i] + [p[i]];
    assert pos0[root] + p[..i] + [p[i]] == pos0[root] + p[..i + 1];
    CreateLabelled(h, h2, pos, pos2, current, p[i], next);
    EnterNew(h0, h, h2, pos0, pos, root, p, i, value, current, next);
    EnterFrame(h0, h, h2, pos0, pos, root, p, i, value, current, next);
  }

  /** Lookups after creating the dict for segment i. */
  lemma EnterNew(h0: Store, h: Store, h2: Store, pos0: map<Dict, Path>, pos: map<Dict, Path>,
                 root: Dict, p: Path, i: nat, value: Val, current: Dict, next: Dict)
    requires Walked(h0, h, pos0, pos, root, p, i, value, current) && i + 1 < |p|
    requires next !in h && !HasDict(h, current, p[i]) && h2 == EnterStore(h, current, p[i], next)
    requires ChangedAt(h, h2, current, p[i])
    ensures ValAt(h2, Ref(root), p[..i + 1]) == Some(Ref(next))
    ensures forall q :: !(q <= p[..i + 1]) ==> ValAt(h2, Ref(root), q) == ValAt(h0, Ref(root), q)
    ensures forall q :: q <= p[..i + 1] ==> Container(h0, h2, ValAt(h0, Ref(root), q), ValAt(h2, Ref(root), q))
    ensures forall q :: ValAt(h2, value, q) == ValAt(h0, value, q)
  {
    assert p[..i + 1] == p[..i] + [p[i]];
    ValAtSnoc(h, Ref(root), p[..i], p[i]);
    forall q
      ensures ValAt(h2, Ref(root), q) == if q == p[..i + 1] then Some(Ref(next)) else ValAt(h, Ref(root), q)
    {
      CreateLookup(h, h2, pos, root, p[..i], p[i], current, next, q);
    }
    forall q | q <= p[..i + 1]
      ensures Container(h0, h2, ValAt(h0, Ref(root), q), ValAt(h2, Ref(root), q))
    {
      assert q <= p[..i] || q == p[..i + 1];
    }
    forall q ensures ValAt(h2, value, q) == ValAt(h0, value, q) {
      BelowUnchanged(h, h2, pos, current, p[i], value, q);
    }
  }

  lemma EnterFrame(h0: Store, h: Store, h2: Store, pos0: map<Dict, Path>, pos: map<Dict, Path>,
                   root: Dict, p: Path, i: nat, value: Val, current: Dict, next: Dict)
    requires Walked(h0, h, pos0, pos, root, p, i, value, current) && i + 1 < |p|
    requires h2 == EnterStore(h, current, p[i], next) && next in h2 && (!HasDict(h, current, p[i]) ==> next !in h)
    ensures forall d :: d in h0 && h2[d] != h0[d] ==> ReplacedOnPath(h0, root, p, i + 1, d)
  {
    forall d | d in h0 && h2[d] != h0[d]
      ensures ReplacedOnPath(h0, root, p, i + 1, d)
    {
      if h[d] != h0[d] {
        assert ReplacedOnPath(h0, root, p, i, d);
      } else {
        assert d == current && Container(h0, h, ValAt(h0, Ref(root), p[..i]), ValAt(h, Ref(root), p[..i]));
      }
    }
  }

  lemma PrefixRest(p: Path, q: Path)
    requires p <= q
    ensures q == p + q[|p|..]
  {}

  lemma CreateLabelled(h: Store, h2: Store, pos: map<Dict, Path>, pos2: map<Dict, Path>, n: Dict, k: string,
                       created: Dict)
    requires Labelled(h, pos) && n in h && created !in h && !HasDict(h, n, k)
    requires h2 == EnterStore(h, n, k, created) && pos2 == pos[created := pos[n] + [k]]
    ensures Labelled(h2, pos2) && ChangedAt(h, h2, n, k)
  {}

  /** A new dict under k of n, seen from the root: that position, and nothing else. */
  lemma CreateLookup(h: Store, h2: Store, pos: map<Dict, Path>, root: Dict, p: Path, k: string, n: Dict, created: Dict,
                     q: Path)
    requires Labelled(h, pos) && root in h && ValAt(h, Ref(root), p) == Some(Ref(n))
    requires n in h && created !in h && !HasDict(h, n, k) && h2 == EnterStore(h, n, k, created)
    ensures ValAt(h2, Ref(root), q) == if q == p + [k] then Some(Ref(created)) else ValAt(h, Ref(root), q)
  {
    assert ChangedAt(h, h2, n, k);
    PositionOf(h, pos, root, p, n);
    if p + [k] <= q {
      ElsewhereUnchanged(h, h2, pos, n, k, root, p);
      CreateBelow(h, h2, root, p, k, n, created, q[|p + [k]|..]);
      PrefixRest(p + [k], q);
    } else {
      ElsewhereUnchanged(h, h2, pos, n, k, root, q);
    }
  }

  lemma PositionOf(h: Store, pos: map<Dict, Path>, root: Dict, p: Path, n: Dict)
    requires Labelled(h, pos) && root in h && ValAt(h, Ref(root), p) == Some(Ref(n))
    ensures n in h && pos[root] <= pos[n] && pos[n][|pos[root]|..] == p
  {
    LabelOf(h, pos, root, p, n);
  }

  lemma CreateBelow(h: Store, h2: Store, root: Dict, p: Path, k: string, n: Dict, created: Dict, rest: Path)
    requires n in h && created !in h && !HasDict(h, n, k) && h2 == EnterStore(h, n, k, created)
    requires ValAt(h, Ref(root), p) == ValAt(h2, Ref(root), p) == Some(Ref(n))
    ensures ValAt(h2, Ref(root), p + [k] + rest) == if rest == [] then Some(Ref(created)) else None
    ensures rest != [] ==> ValAt(h, Ref(root), p + [k] + rest) == None
  {
    ValAtSnoc(h, Ref(root), p, k);
    ValAtSnoc(h2, Ref(root), p, k);
    ValAtConcat(h, Ref(root), p + [k], rest);
    ValAtConcat(h2, Ref(root), p + [k], rest);
  }

  lemma AssignLabelled(h: Store, h2: Store, pos: map<Dict, Path>, n: Dict, k: string, value: Val)
    requires Labelled(h, pos) && n in h && h2 == h[n := h[n][k := value]]
    requires value.Ref? ==> value.node in h && pos[value.node] == pos[n] + [k]
    ensures Labelled(h2, pos) && ChangedAt(h, h2, n, k)
  {}

  /** Assigning a value under k of n, seen from the root. */
  lemma AssignLookup(h: Store, h2: Store, pos: map<Dict, Path>, root: Dict, p: Path, k: string, n: Dict, value: Val,
                     q: Path)
    requires Labelled(h, pos) && root in h && ValAt(h, Ref(root), p) == Some(Ref(n))
    requires n in h && h2 == h[n := h[n][k := value]]
    requires value.Ref? ==> value.node in h && pos[value.node] == pos[n] + [k]
    ensures ValAt(h2, Ref(root), q)
         == if p + [k] <= q then ValAt(h, value, q[|p + [k]|..]) else ValAt(h, Ref(root), q)
  {
    AssignLabelled(h, h2, pos, n, k, value);
    PositionOf(h, pos, root, p, n);
    if p + [k] <= q {
      ElsewhereUnchanged(h, h2, pos, n, k, root, p);
      AssignBelow(h, h2, pos, root, p, k, n, value, q[|p + [k]|..]);
      PrefixRest(p + [k], q);
    } else {
      ElsewhereUnchanged(h, h2, pos, n, k, root, q);
    }
  }

  lemma AssignBelow(h: Store, h2: Store, pos: map<Dict, Path>, root: Dict, p: Path, k: string, n: Dict, value: Val,
                    rest: Path)
    requires Labelled(h, pos) && ChangedAt(h, h2, n, k) && k in h2[n] && h2[n][k] == value
    requires ValAt(h2, Ref(root), p) == Some(Ref(n))
    requires value.Ref? ==> value.node in h && pos[value.node] == pos[n] + [k]
    ensures ValAt(h2, Ref(root), p + [k] + rest) == ValAt(h, value, rest)
  {
    ValAtSnoc(h2, Ref(root), p, k);
    ValAtConcat(h2, Ref(root), p + [k], rest);
    BelowUnchanged(h, h2, pos, n, k, value, rest);
  }

  lemma AssignStep(h0: Store, h: Store, h2: Store, pos0: map<Dict, Path>, pos: map<Dict, Path>,
                   top: Dict, prefix: Path, segments: Path, value: Val, current: Dict)
    requires segments != []
    requires WalkedFrom(h0, h, pos0, pos, top, prefix, segments, |segments| - 1, value, current)
    requires h2 == h[current := h[current][segments[|segments| - 1] := value]]
    ensures Labelled(h2, pos)
    ensures SetEffect(h0, h2, top, prefix + segments, value) && SetFrame(h0, h2, top, prefix + segments, value)
  {
    AssignOnPath(h0, h, h2, pos0, pos, top, prefix + segments, value, current);
  }

  lemma AssignOnPath(h0: Store, h: Store, h2: Store, pos0: map<Dict, Path>, pos: map<Dict, Path>,
                     root: Dict, p: Path, value: Val, current: Dict)
    requires p != [] && Walked(h0, h, pos0, pos, root, p, |p| - 1, value, current)
    requires h2 == h[current := h[current][p[|p| - 1] := value]]
    ensures Labelled(h2, pos)
    ensures SetEffect(h0, h2, root, p, value) && SetFrame(h0, h2, root, p, value)
  {
    var k := p[|p| - 1];
    assert p == Parent(p) + [k];
    assert pos0[root] + Parent(p) + [k] == pos0[root] + p;
    AssignLabelled(h, h2, pos, current, k, value);
    forall q
      ensures p <= q ==> ValAt(h2, Ref(root), q) == ValAt(h0, value, q[|p|..])
      ensures !(p <= q) && !(q < p) ==> ValAt(h2, Ref(root), q) == ValAt(h0, Ref(root), q)
      ensures q < p ==> Container(h0, h2, ValAt(h0, Ref(root), q), ValAt(h2, Ref(root), q))
    {
      AssignLookup(h, h2, pos, root, Parent(p), k, current, value, q);
      assert q < p <==> q <= Parent(p);
    }
    forall d | d in h0
      ensures d in h2 && (h2[d] == h0[d] || ChangedOnPath(h0, h2, root, p, value, d))
    {
      AssignFrame(h0, h, h2, pos0, pos, root, p, value, current, d);
    }
  }

  lemma AssignFrame(h0: Store, h: Store, h2: Store, pos0: map<Dict, Path>, pos: map<Dict, Path>,
                    root: Dict, p: Path, value: Val, current: Dict, d: Dict)
    requires p != [] && Walked(h0, h, pos0, pos, root, p, |p| - 1, value, current) && d in h0
    requires h2 == h[current := h[current][p[|p| - 1] := value]]
    ensures h2[d] == h0[d] || ChangedOnPath(h0, h2, root, p, value, d)
  {
    if h[d] != h0[d] {
      assert ReplacedOnPath(h0, root, p, |p| - 1, d);
      var j :| 0 <= j < |p| - 1 && ValAt(h0, Ref(root), p[..j]) == Some(Ref(d)) && !HasDict(h0, d, p[j]);
      assert ChangedOnPath(h0, h2, root, p, value, d);
    } else if d == current {
      var i := |p| - 1;
      assert Container(h0, h, ValAt(h0, Ref(root), p[..i]), ValAt(h, Ref(root), p[..i]));
      assert h2[d] == h0[d][p[i] := value];
      assert ChangedOnPath(h0, h2, root, p, value, d);
    }
  }
}
