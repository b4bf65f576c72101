/**
 What apply_allowlist builds, dict by dict: kept values are the payload's own
 dicts, the containers above them are new, and the payload is not changed by
 writing through what is shared.
 */
module AllowSharing {
  import opened Options
  import opened PayloadPaths
  import opened ShapeSpec
  import opened DictHeap
  import opened NestedPaths

  ghost predicate HitCovers(view: View, ts: seq<Target>, p: Path) {
    exists t :: t in ts && Hit(view, t) && t.path <= p
  }

  /** What is found at p in the result, after the entries ts, given the store h0 before. */
  ghost predicate KeptAt(h0: Store, h: Store, payload: Dict, result: Dict, ts: seq<Target>, p: Path) {
    var found := ValAt(h, Ref(result), p);
    if HitCovers(ViewOf(h0, payload), ts, p) then found == ValAt(h0, Ref(payload), p)
    else if Stub(ViewOf(h0, payload), ts, p) then found.Some? && found.value.Ref? && found.value.node !in h0
    else found == None
  }

  ghost predicate Kept(h0: Store, h: Store, payload: Dict, result: Dict, ts: seq<Target>) {
    && payload in h0 && Closed(h0)
    && result in h && result !in h0
    && (forall d :: d in h0 ==> d in h && h[d] == h0[d])
    && (forall p :: p != [] ==> KeptAt(h0, h, payload, result, ts, p))
  }

  lemma KeptNothing(h0: Store, h: Store, payload: Dict, result: Dict)
    requires payload in h0 && Closed(h0) && result !in h0 && h == h0[result := map[]]
    ensures Kept(h0, h, payload, result, [])
  {}

  lemma EntrySnoc(view: View, ts: seq<Target>, t: Target, p: Path)
    ensures HitCovers(view, ts + [t], p) <==> HitCovers(view, ts, p) || (Hit(view, t) && t.path <= p)
    ensures Stub(view, ts + [t], p) <==>
            (Stub(view, ts, p) || (Hit(view, t) && p < t.path) || (Touched(view, t) && p == [t.key]))
  {
    assert forall s :: s in ts + [t] <==> s in ts || s == t;
  }

  /** An entry that matches nothing changes nothing. */
  lemma KeptSkip(h0: Store, h: Store, payload: Dict, result: Dict, ts: seq<Target>, t: Target)
    requires Kept(h0, h, payload, result, ts) && !Enters(ViewOf(h0, payload), t)
    ensures Kept(h0, h, payload, result, ts + [t])
  {
    forall p | p != [] ensures KeptAt(h0, h, payload, result, ts + [t], p) {
      EntrySnoc(ViewOf(h0, payload), ts, t, p);
      assert KeptAt(h0, h, payload, result, ts, p);
    }
  }

  /** Lookups that start in the payload's dicts are those of the original store. */
  lemma {:induction false} OldLookup(h0: Store, h: Store, v: Val, p: Path)
    requires Closed(h0) && (v.Ref? ==> v.node in h0)
    requires forall d :: d in h0 ==> d in h && h[d] == h0[d]
    ensures ValAt(h, v, p) == ValAt(h0, v, p)
    decreases |p|
  {
    if p != [] && v.Ref? && p[0] in h0[v.node] {
      OldLookup(h0, h, h0[v.node][p[0]], p[1..]);
    }
  }

  lemma {:induction false} FoundInStore(h: Store, v: Val, p: Path)
    requires Closed(h) && (v.Ref? ==> v.node in h)
    ensures var w := ValAt(h, v, p); w.Some? && w.value.Ref? ==> w.value.node in h
    decreases |p|
  {
    if p != [] && v.Ref? && p[0] in h[v.node] {
      FoundInStore(h, h[v.node][p[0]], p[1..]);
    }
  }

  /** `result[k] = payload[k]` */
  lemma KeptWhole(h0: Store, h: Store, h2: Store, pos: map<Dict, Path>, payload: Dict, result: Dict, ts: seq<Target>,
                  k: string)
    requires Kept(h0, h, payload, result, ts) && Labelled(h, pos) && pos[result] == pos[payload] == []
    requires k in h0[payload] && h2 == h[result := h[result][k := h0[payload][k]]]
    ensures Labelled(h2, pos) && Kept(h0, h2, payload, result, ts + [At([k])])
  {
    var value, t := h0[payload][k], At([k]);
    assert ValAt(h0, Ref(payload), [k]) == Some(value);
    assert Hit(ViewOf(h0, payload), t);
    AssignLabelled(h, h2, pos, result, k, value);
    forall p | p != [] ensures KeptAt(h0, h2, payload, result, ts + [t], p) {
      EntrySnoc(ViewOf(h0, payload), ts, t, p);
      assert [] + [k] == [k];
      AssignLookup(h, h2, pos, result, [], k, result, value, p);
      assert KeptAt(h0, h, payload, result, ts, p);
      if [k] <= p {
        OldLookup(h0, h, value, p[|[] + [k]|..]);
        assert p[0] == k;
      }
    }
  }

  /** `result.setdefault(k, {})` where the payload has something under k. */
  lemma KeptDefault(h0: Store, h: Store, h2: Store, pos: map<Dict, Path>, pos2: map<Dict, Path>,
                    payload: Dict, result: Dict, ts: seq<Target>, k: string, created: Dict)
    requires Kept(h0, h, payload, result, ts) && Labelled(h, pos) && pos[result] == pos[payload] == []
    requires Touched(ViewOf(h0, payload), Touch(k))
    requires if k in h[result] then h2 == h && pos2 == pos
             else created !in h && h2 == EnterStore(h, result, k, created) && pos2 == pos[created := pos[result] + [k]]
    ensures Labelled(h2, pos2) && Kept(h0, h2, payload, result, ts + [Touch(k)])
  {
    var t := Touch(k);
    if k !in h[result] {
      CreateLabelled(h, h2, pos, pos2, result, k, created);
    }
    forall p | p != [] ensures KeptAt(h0, h2, payload, result, ts + [t], p) {
      EntrySnoc(ViewOf(h0, payload), ts, t, p);
      assert KeptAt(h0, h, payload, result, ts, p);
      if k in h[result] {
        assert p == [k] ==> ValAt(h, Ref(result), p) == Some(h[result][k]);
      } else {
        assert [] + [k] == [k];
        CreateLookup(h, h2, pos, result, [], k, result, created, p);
        assert p == [k] ==> ValAt(h, Ref(result), p) == None;
        assert ViewOf(h0, payload)([k]) == CellAt(h0, Ref(payload), [k]);
      }
    }
  }

  /** Writing through what is shared with the payload writes what is already there. */
  lemma PayloadUnharmed(h0: Store, h: Store, h2: Store, payload: Dict, result: Dict, ts: seq<Target>, p: Path,
                        value: Val, d: Dict)
    requires Kept(h0, h, payload, result, ts) && p != [] && d in h0
    requires ValAt(h0, Ref(payload), p) == Some(value)
    requires SetFrame(h, h2, result, p, value)
    ensures d in h2 && h2[d] == h0[d]
  {
    forall i | 0 <= i < |p| && ValAt(h, Ref(result), p[..i]) == Some(Ref(d))
      ensures p[i] in h[d] && (if i == |p| - 1 then h[d][p[i]] == value else h[d][p[i]].Ref?)
    {
      assert i > 0;
      assert KeptAt(h0, h, payload, result, ts, p[..i]);
      PathContinues(h0, Ref(payload), p, i);
      assert i == |p| - 1 ==> p[..i + 1] == p;
    }
    assert h2[d] != h[d] ==> ChangedOnPath(h, h2, result, p, value, d);
  }

  /**
   Along a path that leads somewhere, every dict before the end has the next
   segment, and a dict under it unless it is the last.
   */
  lemma PathContinues(h: Store, v: Val, p: Path, i: nat)
    requires i < |p| && ValAt(h, v, p).Some?
    ensures var w := ValAt(h, v, p[..i]);
            && w.Some? && w.value.Ref? && w.value.node in h && p[i] in h[w.value.node]
            && ValAt(h, v, p[..i + 1]) == Some(h[w.value.node][p[i]])
            && (i + 1 < |p| ==> h[w.value.node][p[i]].Ref?)
  {
    assert p[..i + 1] == p[..i] + [p[i]];
    ValAtSnoc(h, v, p[..i], p[i]);
    PrefixRest(p[..i + 1], p);
    ValAtConcat(h, v, p[..i + 1], p[i + 1..]);
  }

  /**
   On the way to a value found in the payload, the result holds dicts or nothing
   yet: `_set_nested_value` never meets a scalar that it would replace by a dict.
   */
  lemma ScalarNeverReplaced(h0: Store, h: Store, payload: Dict, result: Dict, ts: seq<Target>, t: Target, q: Path)
    requires Kept(h0, h, payload, result, ts) && Hit(ViewOf(h0, payload), t) && q != [] && q < t.path
    ensures ValAt(h, Ref(result), q).Some? ==> ValAt(h, Ref(result), q).value.Ref?
  {
    assert KeptAt(h0, h, payload, result, ts, q);
    PathContinues(h0, Ref(payload), t.path, |q|);
    assert t.path[..|q|] == q;
  }

  /** The positions on the way to the new entry. */
  lemma KeptOnTheWay(h0: Store, h: Store, h2: Store, payload: Dict, result: Dict, ts: seq<Target>, t: Target, q: Path)
    requires Kept(h0, h, payload, result, ts)
    requires Hit(ViewOf(h0, payload), t) && q != [] && q < t.path && result in h2 && h.Keys <= h2.Keys
    requires Container(h, h2, ValAt(h, Ref(result), q), ValAt(h2, Ref(result), q))
    ensures KeptAt(h0, h2, payload, result, ts + [t], q)
  {
    EntrySnoc(ViewOf(h0, payload), ts, t, q);
    assert KeptAt(h0, h, payload, result, ts, q);
    PathContinues(h0, Ref(payload), t.path, |q|);
    assert t.path[..|q|] == q;
    assert forall d :: d in h2.Keys - h.Keys ==> d !in h0;
  }

  /** `_set_nested_value(result[k], sub, value)` */
  lemma KeptNested(h0: Store, h: Store, h2: Store, payload: Dict, result: Dict, ts: seq<Target>, t: Target, value: Val)
    requires Kept(h0, h, payload, result, ts) && h.Keys <= h2.Keys
    requires Hit(ViewOf(h0, payload), t) && ValAt(h0, Ref(payload), t.path) == Some(value)
    requires SetEffect(h, h2, result, t.path, value) && SetFrame(h, h2, result, t.path, value)
    ensures Kept(h0, h2, payload, result, ts + [t])
  {
    forall d | d in h0 ensures d in h2 && h2[d] == h0[d] {
      PayloadUnharmed(h0, h, h2, payload, result, ts, t.path, value, d);
    }
    FoundInStore(h0, Ref(payload), t.path);
    forall p | p != [] ensures KeptAt(h0, h2, payload, result, ts + [t], p) {
      EntrySnoc(ViewOf(h0, payload), ts, t, p);
      if t.path <= p {
        OldLookup(h0, h, value, p[|t.path|..]);
        PrefixRest(t.path, p);
        ValAtConcat(h0, Ref(payload), t.path, p[|t.path|..]);
      } else if p < t.path {
        KeptOnTheWay(h0, h, h2, payload, result, ts, t, p);
      } else {
        KeptElsewhere(h0, h, h2, payload, result, ts, t, p);
      }
    }
  }

  lemma KeptElsewhere(h0: Store, h: Store, h2: Store, payload: Dict, result: Dict, ts: seq<Target>, t: Target, p: Path)
    requires Kept(h0, h, payload, result, ts) && t.At?
    requires p != [] && !(t.path <= p) && !(p < t.path)
    requires ValAt(h2, Ref(result), p) == ValAt(h, Ref(result), p)
    ensures KeptAt(h0, h2, payload, result, ts + [t], p)
  {
    EntrySnoc(ViewOf(h0, payload), ts, t, p);
    assert KeptAt(h0, h, payload, result, ts, p);
  }

  /** The container made by setdefault is on the way to the entry anyway. */
  lemma KeptAbsorb(h0: Store, h: Store, payload: Dict, result: Dict, ts: seq<Target>, t: Target)
    requires t.At? && |t.path| > 1 && Hit(ViewOf(h0, payload), t)
    requires Kept(h0, h, payload, result, ts + [Touch(t.path[0])] + [t])
    ensures Kept(h0, h, payload, result, ts + [t])
  {
    var view, touch := ViewOf(h0, payload), Touch(t.path[0]);
    forall p | p != [] ensures KeptAt(h0, h, payload, result, ts + [t], p) {
      EntrySnoc(view, ts, touch, p);
      EntrySnoc(view, ts + [touch], t, p);
      EntrySnoc(view, ts, t, p);
      assert [t.path[0]] < t.path;
      assert KeptAt(h0, h, payload, result, ts + [touch] + [t], p);
    }
  }

  // ----- the result as a whole

  /**
   Which positions of the outgoing payload hold the raw payload's own dicts:
   exactly the covered ones. This is what lets the denylist reach the raw payload.
   */
  lemma SharedIsCovered(h0: Store, h: Store, payload: Dict, result: Dict, ts: seq<Target>, u: Path)
    requires Kept(h0, h, payload, result, ts) && ts != []
    ensures ValAt(h, Ref(result), u).Some? && ValAt(h, Ref(result), u).value.Ref?
            && ValAt(h, Ref(result), u) == ValAt(h0, Ref(payload), u)
       <==> Covered(ViewOf(h0, payload), ts, u) && ViewOf(h0, payload)(u) == Some(Node)
  {
    if u != [] {
      assert KeptAt(h0, h, payload, result, ts, u);
      FoundInStore(h0, Ref(payload), u);
    }
  }

  /** The result, before the denylist, looks as the specification says. */
  lemma KeptView(h0: Store, h: Store, payload: Dict, result: Dict, ts: seq<Target>)
    requires Kept(h0, h, payload, result, ts) && ts != []
    ensures Same(ViewOf(h, result), OutView(ViewOf(h0, payload), ts, []))
  {
    forall p ensures ViewOf(h, result)(p) == OutView(ViewOf(h0, payload), ts, [])(p) {
      if p != [] {
        assert KeptAt(h0, h, payload, result, ts, p);
        assert Covered(ViewOf(h0, payload), ts, p) <==> HitCovers(ViewOf(h0, payload), ts, p);
        assert ViewOf(h, result)(p) == CellAt(h, Ref(result), p);
        assert ViewOf(h0, payload)(p) == CellAt(h0, Ref(payload), p);
        assert !Denied([], p);
      }
    }
  }
}
