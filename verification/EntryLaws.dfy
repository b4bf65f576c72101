/**
 What a list of configured strings does to a payload, on views and on dicts: the
 specification by targets, put back into the words of the configuration.
 */
module EntryLaws {
  import opened Options
  import opened PayloadPaths
  import opened ShapeSpec
  import opened DictHeap
  import opened NestedPaths
  import opened AllowSharing
  import opened DenySharing

  /** The entry finds something at this position: a top-level key, or a value below one that is not null. */
  ghost predicate Finds(before: View, entry: string, dataKey: string, p: Path) {
    && Names(entry, dataKey, p)
    && before(p).Some?
    && (|p| == 1 || before(p) != Some(Leaf(Null)))
  }

  /** The entry keeps what lies at or below what it finds. */
  ghost predicate Keeps(before: View, entry: string, dataKey: string, p: Path) {
    exists q: Path :: Finds(before, entry, dataKey, q) && q <= p
  }

  /**
   The position is on the way to what the entry finds; or the entry ends in a dot,
   and the key is there and not null.
   */
  ghost predicate Opens(before: View, entry: string, dataKey: string, p: Path) {
    || (exists q: Path :: Finds(before, entry, dataKey, q) && p < q)
    || (exists key :: Spells(entry, dataKey, key, "") && p == [key] && before(p).Some? && before(p) != Some(Leaf(Null)))
  }

  ghost predicate Removes(entry: string, dataKey: string, p: Path) {
    exists q: Path :: Names(entry, dataKey, q) && q <= p
  }

  lemma ResolvedEntries(entries: seq<string>, dataKey: string)
    ensures forall t :: t in ResolveAll(entries, dataKey) ==>
              exists entry :: entry in entries && Resolve(entry, dataKey) == t
    ensures forall entry :: entry in entries ==> Resolve(entry, dataKey) in ResolveAll(entries, dataKey)
  {
    forall t | t in ResolveAll(entries, dataKey)
      ensures exists entry :: entry in entries && Resolve(entry, dataKey) == t
    {
      var i :| 0 <= i < |entries| && t == Resolve(entries[i], dataKey);
      assert entries[i] in entries;
    }
    forall entry | entry in entries ensures Resolve(entry, dataKey) in ResolveAll(entries, dataKey) {
      var i :| 0 <= i < |entries| && entries[i] == entry;
      assert ResolveAll(entries, dataKey)[i] == Resolve(entry, dataKey);
    }
  }

  lemma ResolvedIsProper(paths: seq<string>, dataKey: string)
    ensures Proper(ResolveAll(paths, dataKey))
  {
    forall t | t in ResolveAll(paths, dataKey) && t.At? ensures t.path != [] {
      var i :| 0 <= i < |paths| && t == Resolve(paths[i], dataKey);
      ResolveIsBelowRoot(paths[i], dataKey);
    }
  }

  lemma DeniedExactly(denylist: seq<string>, dataKey: string, p: Path)
    requires dataKey != META
    ensures Denied(ResolveAll(denylist, dataKey), p)
       <==> exists entry :: entry in denylist && Removes(entry, dataKey, p)
  {
    var deny := ResolveAll(denylist, dataKey);
    ResolvedEntries(denylist, dataKey);
    if Denied(deny, p) {
      var t :| t in deny && t.At? && t.path <= p;
      var entry :| entry in denylist && Resolve(entry, dataKey) == t;
      EntryNames(entry, dataKey, t.path);
      assert Removes(entry, dataKey, p);
    }
    if entry :| entry in denylist && Removes(entry, dataKey, p) {
      var q: Path :| Names(entry, dataKey, q) && q <= p;
      EntryNames(entry, dataKey, q);
      assert At(q) in deny;
    }
  }

  lemma FindsIsHit(before: View, entry: string, dataKey: string, q: Path)
    requires dataKey != META
    ensures Finds(before, entry, dataKey, q) <==> Resolve(entry, dataKey) == At(q) && Hit(before, At(q))
  {
    EntryNames(entry, dataKey, q);
  }

  lemma CoveredExactly(before: View, allowlist: seq<string>, dataKey: string, p: Path)
    requires dataKey != META && allowlist != []
    ensures Covered(before, ResolveAll(allowlist, dataKey), p)
       <==> exists entry :: entry in allowlist && Keeps(before, entry, dataKey, p)
  {
    var allow := ResolveAll(allowlist, dataKey);
    ResolvedEntries(allowlist, dataKey);
    if Covered(before, allow, p) {
      var t :| t in allow && Hit(before, t) && t.path <= p;
      var entry :| entry in allowlist && Resolve(entry, dataKey) == t;
      FindsIsHit(before, entry, dataKey, t.path);
      assert Keeps(before, entry, dataKey, p);
    }
    if entry :| entry in allowlist && Keeps(before, entry, dataKey, p) {
      var q: Path :| Finds(before, entry, dataKey, q) && q <= p;
      FindsIsHit(before, entry, dataKey, q);
      assert At(q) in allow;
    }
  }

  lemma OpenedExactly(before: View, allowlist: seq<string>, dataKey: string, p: Path)
    requires dataKey != META && p != []
    ensures Stub(before, ResolveAll(allowlist, dataKey), p)
       <==> exists entry :: entry in allowlist && Opens(before, entry, dataKey, p)
  {
    hide Resolve, Split;
    var allow := ResolveAll(allowlist, dataKey);
    ResolvedEntries(allowlist, dataKey);
    if t :| t in allow && Hit(before, t) && p < t.path {
      var entry :| entry in allowlist && Resolve(entry, dataKey) == t;
      FindsIsHit(before, entry, dataKey, t.path);
      assert Opens(before, entry, dataKey, p);
    }
    if t :| t in allow && Touched(before, t) && p == [t.key] {
      var entry :| entry in allowlist && Resolve(entry, dataKey) == t;
      EntryNames(entry, dataKey, p);
      assert Opens(before, entry, dataKey, p);
    }
    if entry :| entry in allowlist && Opens(before, entry, dataKey, p) {
      if q: Path :| Finds(before, entry, dataKey, q) && p < q {
        FindsIsHit(before, entry, dataKey, q);
        assert At(q) in allow;
      } else {
        var key :| Spells(entry, dataKey, key, "") && p == [key] && before(p).Some? && before(p) != Some(Leaf(Null));
        EntryNames(entry, dataKey, p);
        assert Touch(key) in allow && Touched(before, Touch(key));
      }
    }
  }

  // ----- on the dicts

  /**
   What a lookup from the filtered payload finds: the payload's own value at and
   below what an entry finds, a new dict on the way there, and nothing elsewhere.
   */
  ghost predicate KeptThere(h0: Store, h: Store, payload: Dict, result: Dict, allowlist: seq<string>, dataKey: string,
                            p: Path)
  {
    var found := ValAt(h, Ref(result), p);
    if exists entry :: entry in allowlist && Keeps(ViewOf(h0, payload), entry, dataKey, p) then
      found == ValAt(h0, Ref(payload), p)
    else if exists entry :: entry in allowlist && Opens(ViewOf(h0, payload), entry, dataKey, p) then
      found.Some? && found.value.Ref? && found.value.node !in h0
    else
      found == None
  }

  ghost predicate KeptByEntries(h0: Store, h: Store, payload: Dict, result: Dict, allowlist: seq<string>,
                                dataKey: string)
  {
    forall p :: p != [] ==> KeptThere(h0, h, payload, result, allowlist, dataKey, p)
  }

  lemma KeptEntries(h0: Store, h: Store, payload: Dict, result: Dict, allowlist: seq<string>, dataKey: string)
    requires Kept(h0, h, payload, result, ResolveAll(allowlist, dataKey)) && dataKey != META && allowlist != []
    ensures KeptByEntries(h0, h, payload, result, allowlist, dataKey)
  {
    hide ValAt, ViewOf, Keeps, Opens, Hit, Stub;
    var ts, view := ResolveAll(allowlist, dataKey), ViewOf(h0, payload);
    forall p: Path | p != [] ensures KeptThere(h0, h, payload, result, allowlist, dataKey, p) {
      CoveredExactly(view, allowlist, dataKey, p);
      OpenedExactly(view, allowlist, dataKey, p);
      assert KeptAt(h0, h, payload, result, ts, p);
      assert HitCovers(view, ts, p) <==> Covered(view, ts, p);
    }
  }

  /** What a lookup finds after a denylist: nothing at or below what an entry names, and all else as before. */
  ghost predicate DeniedByEntries(h: Store, h2: Store, payload: Dict, denylist: seq<string>, dataKey: string) {
    forall p :: ValAt(h2, Ref(payload), p) ==
      if exists entry :: entry in denylist && Removes(entry, dataKey, p) then None else ValAt(h, Ref(payload), p)
  }

  lemma DeniedEntries(h: Store, pos: map<Dict, Path>, payload: Dict, denylist: seq<string>, dataKey: string)
    requires Labelled(h, pos) && payload in h && pos[payload] == [] && dataKey != META
    ensures DeniedByEntries(h, DenyStore(h, payload, ResolveAll(denylist, dataKey)), payload, denylist, dataKey)
  {
    hide ValAt, Removes, Labelled;
    var deny := ResolveAll(denylist, dataKey);
    ResolvedIsProper(denylist, dataKey);
    DenyLookup(h, pos, payload, payload, deny);
    forall p: Path
      ensures Denied(deny, p) <==> exists entry :: entry in denylist && Removes(entry, dataKey, p)
    {
      DeniedExactly(denylist, dataKey, p);
    }
  }
}
