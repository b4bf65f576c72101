/**
 What in-place deletion does to every payload that shares dicts with the one
 being filtered: the store-level account of apply_denylist.
 */
module DenySharing {
  import opened Options
  import opened PayloadPaths
  import opened ShapeSpec
  import opened DictHeap
  import opened NestedPaths

  /** Roots a and r hold the very same dict at position u. */
  ghost predicate Shared(h: Store, a: Dict, r: Dict, u: Path) {
    && ValAt(h, Ref(a), u).Some?
    && ValAt(h, Ref(a), u).value.Ref?
    && ValAt(h, Ref(r), u) == ValAt(h, Ref(a), u)
  }

  lemma DelLabelled(h: Store, pos: map<Dict, Path>, a: Dict, p: Path)
    requires Labelled(h, pos) && a in h && p != []
    ensures Labelled(DelStore(h, Ref(a), p), pos)
  {}

  /** One deletion at p through root a, seen from root r. */
  lemma DelLookup(h: Store, pos: map<Dict, Path>, a: Dict, r: Dict, p: Path, q: Path)
    requires Labelled(h, pos) && a in h && r in h && pos[a] == pos[r] == [] && p != []
    ensures ValAt(DelStore(h, Ref(a), p), Ref(r), q)
         == if p <= q && Shared(h, a, r, Parent(p)) then None else ValAt(h, Ref(r), q)
  {
    var h2, k := DelStore(h, Ref(a), p), p[|p| - 1];
    var target := ValAt(h, Ref(a), Parent(p));
    assert p == Parent(p) + [k];
    if target.Some? && target.value.Ref? {
      var n := target.value.node;
      LabelOf(h, pos, a, Parent(p), n);
      assert pos[n][0..] == Parent(p);
      assert ChangedAt(h, h2, n, k);
      if p <= q && Shared(h, a, r, Parent(p)) {
        ElsewhereUnchanged(h, h2, pos, n, k, r, Parent(p));
        ValAtSnoc(h2, Ref(r), Parent(p), k);
        ValAtPrefix(h2, Ref(r), p, q);
      } else {
        ElsewhereUnchanged(h, h2, pos, n, k, r, q);
      }
    }
  }

  /** apply_denylist on the store: one deletion after another, through the same root. */
  ghost function DenyStore(h: Store, a: Dict, deny: seq<Target>): (h2: Store)
    ensures h2.Keys == h.Keys
  {
    if deny == [] then h
    else
      var before := DenyStore(h, a, deny[..|deny| - 1]);
      var t := deny[|deny| - 1];
      if t.At? && t.path != [] then DelStore(before, Ref(a), t.path) else before
  }

  /** Entry i deletes from a dict shared with r: no earlier entry has cut the way to it. */
  ghost predicate StoreReaches(h: Store, a: Dict, r: Dict, deny: seq<Target>, i: int) {
    && 0 <= i < |deny|
    && deny[i].At?
    && deny[i].path != []
    && Shared(h, a, r, Parent(deny[i].path))
    && forall j :: 0 <= j < i && deny[j].At? ==> !(deny[j].path <= Parent(deny[i].path))
  }

  ghost predicate StoreErased(h: Store, a: Dict, r: Dict, deny: seq<Target>, q: Path) {
    exists i :: StoreReaches(h, a, r, deny, i) && deny[i].path <= q
  }

  /** The whole denylist, seen from the filtered root and from any root beside it. */
  lemma {:induction false} DenyLookup(h: Store, pos: map<Dict, Path>, a: Dict, r: Dict, deny: seq<Target>)
    requires Labelled(h, pos) && a in h && r in h && pos[a] == pos[r] == [] && Proper(deny)
    ensures Labelled(DenyStore(h, a, deny), pos)
    ensures forall q :: ValAt(DenyStore(h, a, deny), Ref(a), q) == if Denied(deny, q) then None else ValAt(h, Ref(a), q)
    ensures forall q ::
              ValAt(DenyStore(h, a, deny), Ref(r), q)
              == if StoreErased(h, a, r, deny, q) then None else ValAt(h, Ref(r), q)
  {
    if deny != [] {
      var init, t := deny[..|deny| - 1], deny[|deny| - 1];
      assert deny == init + [t];
      assert t in deny && forall s :: s in init ==> s in deny;
      DenyLookup(h, pos, a, r, init);
      var h1, h2 := DenyStore(h, a, init), DenyStore(h, a, deny);
      if t.At? {
        DelLabelled(h1, pos, a, t.path);
      }
      forall q
        ensures ValAt(h2, Ref(a), q) == if Denied(deny, q) then None else ValAt(h, Ref(a), q)
        ensures ValAt(h2, Ref(r), q) == if StoreErased(h, a, r, deny, q) then None else ValAt(h, Ref(r), q)
      {
        DeniedSnoc(init, t, q);
        ErasedSnoc(h, a, r, init, t, q);
        if t.At? {
          DelLookup(h1, pos, a, a, t.path, q);
          DelLookup(h1, pos, a, r, t.path, q);
          SharedAfter(h, h1, a, r, init, Parent(t.path));
          if t.path <= q && !Shared(h1, a, a, Parent(t.path)) {
            NothingBelow(h1, a, t.path, q);
          }
        }
      }
    }
  }

  lemma DeniedSnoc(init: seq<Target>, t: Target, q: Path)
    ensures Denied(init + [t], q) <==> Denied(init, q) || (t.At? && t.path <= q)
  {
    assert forall s :: s in init + [t] <==> s in init || s == t;
  }

  lemma ErasedSnoc(h: Store, a: Dict, r: Dict, init: seq<Target>, t: Target, q: Path)
    requires Proper(init + [t])
    ensures StoreErased(h, a, r, init + [t], q) <==>
            (StoreErased(h, a, r, init, q)
             || (t.At? && t.path <= q && Shared(h, a, r, Parent(t.path)) && !Denied(init, Parent(t.path))))
  {
    var deny := init + [t];
    assert deny[|init|] == t && t in deny;
    assert forall i :: 0 <= i < |init| ==> deny[i] == init[i];
    assert forall i :: 0 <= i < |init| ==> (StoreReaches(h, a, r, deny, i) <==> StoreReaches(h, a, r, init, i));
    if t.At? {
      assert Denied(init, Parent(t.path)) <==>
          exists j :: 0 <= j < |init| && init[j].At? && init[j].path <= Parent(t.path);
      assert StoreReaches(h, a, r, deny, |init|) <==> Shared(h, a, r, Parent(t.path)) && !Denied(init, Parent(t.path));
    }
  }

  /** After some deletions, a dict is still shared exactly if it still can be reached. */
  lemma SharedAfter(h: Store, h1: Store, a: Dict, r: Dict, deny: seq<Target>, u: Path)
    requires ValAt(h1, Ref(a), u) == if Denied(deny, u) then None else ValAt(h, Ref(a), u)
    requires ValAt(h1, Ref(r), u) == if StoreErased(h, a, r, deny, u) then None else ValAt(h, Ref(r), u)
    ensures Shared(h1, a, r, u) <==> Shared(h, a, r, u) && !Denied(deny, u)
  {
    if StoreErased(h, a, r, deny, u) {
      var i :| StoreReaches(h, a, r, deny, i) && deny[i].path <= u;
      assert deny[i] in deny;
    }
  }

  lemma NothingBelow(h: Store, a: Dict, p: Path, q: Path)
    requires p != [] && p <= q && !Shared(h, a, a, Parent(p))
    ensures ValAt(h, Ref(a), q) == None
  {
    assert p == Parent(p) + [p[|p| - 1]];
    ValAtSnoc(h, Ref(a), Parent(p), p[|p| - 1]);
    ValAtPrefix(h, Ref(a), p, q);
  }
}
