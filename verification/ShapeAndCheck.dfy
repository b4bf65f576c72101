/**
 _shape_and_check of tasks.py, and the chain of attempts that runs it again and
 again on the same raw payload object.
 */
module ShapeAndCheck {
  import opened Options
  import opened PayloadPaths
  import opened ShapeSpec
  import opened ShapeTheorems
  import opened DictHeap
  import opened NestedPaths
  import opened AllowSharing
  import opened DenySharing
  import opened EntryLaws
  import opened Shaping
  import opened PassDecision

  /** `bool(v)` for a value of a payload. */
  function TruthyVal(v: Val): bool
    reads if v.Ref? then {v.node} else {}
  {
    match v
    case Atomic(a) => Truthy(a)
    case Ref(d) => d.fields != map[]
  }

  /** The verdict of one top-level object, read from the dicts, is the one in the view. */
  lemma VoteRead(payload: Dict, key: string, dicts: set<Dict>)
    requires Closed(Snap(dicts)) && payload in dicts && key in payload.fields
    ensures var v := payload.fields[key];
            Vote(ViewOf(Snap(dicts), payload), key)
              == if v.Ref? && v.node.Get("is_passing") != Atomic(Null)
                 then Some(TruthyVal(v.node.Get("is_passing"))) else None
  {
    var h, view, v := Snap(dicts), ViewOf(Snap(dicts), payload), payload.fields[key];
    var p := [key, "is_passing"];
    assert p == [key] + ["is_passing"] && [key] == [] + [key];
    ValAtSnoc(h, Ref(payload), [], key);
    ValAtSnoc(h, Ref(payload), [key], "is_passing");
    assert view(p) == CellAt(h, Ref(payload), p);
    if v.Ref? && v.node.Get("is_passing").Ref? {
      var inner := v.node.Get("is_passing").node;
      forall k: string ensures view([key, "is_passing", k]).Some? <==> k in inner.fields {
        assert [key, "is_passing", k] == p + [k];
        ValAtSnoc(h, Ref(payload), p, k);
        assert view(p + [k]) == CellAt(h, Ref(payload), p + [k]);
      }
      if inner.fields != map[] {
        var k :| k in inner.fields;
        assert view([key, "is_passing", k]).Some?;
      }
    }
  }

  /** False exactly if the first top-level object with a verdict says "not passing". */
  method ShouldSendPassingEvent(payload: Dict, onlyOnPassing: bool, ghost dicts: set<Dict>) returns (send: bool)
    requires Closed(Snap(dicts)) && payload in dicts && forall k :: k in payload.order ==> k in payload.fields
    ensures send <==> ShouldSend(ViewOf(Snap(dicts), payload), payload.order, onlyOnPassing)
    ensures !onlyOnPassing ==> send
  {
    if !onlyOnPassing {
      return true;
    }
    ghost var view := ViewOf(Snap(dicts), payload);
    var i := 0;
    while i < |payload.order|
      invariant 0 <= i <= |payload.order|
      invariant Decide(view, payload.order) == Decide(view, payload.order[i..])
    {
      var key := payload.order[i];
      assert key in payload.order;
      VoteRead(payload, key, dicts);
      var value := payload.fields[key];
      if value.Ref? {
        var isPassing := value.node.Get("is_passing");
        if isPassing != Atomic(Null) {
          return TruthyVal(isPassing);
        }
      }
      assert payload.order[i..][1..] == payload.order[i + 1..];
      i := i + 1;
    }
    return true;
  }

  /** What one call returns and leaves behind, in terms of views. */
  ghost predicate Shaped(before: View, rawOrder: seq<string>, after: View, out: View, outOrder: seq<string>, send: bool,
                         allow: seq<Target>, deny: seq<Target>, onlyOnPassing: bool)
  {
    && Same(out, OutView(before, allow, deny))
    && Same(after, RawAfter(before, allow, deny))
    && outOrder == OutOrder(before, rawOrder, allow, deny)
    && (send <==> ShouldSend(out, outOrder, onlyOnPassing))
  }

  /**
   The store between allowlist and denylist: what the outgoing payload shows,
   what it shares with the raw one, and that the raw one is as it was.
   */
  ghost predicate Allowed(before: View, h: Store, raw: Dict, payload: Dict, allow: seq<Target>) {
    && raw in h && payload in h && raw != payload && TreeView(before)
    && Same(ViewOf(h, raw), before)
    && Same(ViewOf(h, payload), OutView(before, allow, []))
    && forall u :: Shared(h, payload, raw, u) <==> Covered(before, allow, u) && before(u) == Some(Node)
  }

  /** `raw_payload.copy()`, kept whole. */
  lemma CopyAllowed(h0: Store, h: Store, raw: Dict, copy: Dict)
    requires Closed(h0) && raw in h0 && copy !in h0 && h == h0[copy := h0[raw]]
    ensures Allowed(ViewOf(h0, raw), h, raw, copy, [])
  {
    var before := ViewOf(h0, raw);
    ViewIsTree(h0, raw);
    forall p ensures ViewOf(h, raw)(p) == before(p) {
      OldLookup(h0, h, Ref(raw), p);
      assert ViewOf(h, raw)(p) == CellAt(h, Ref(raw), p);
    }
    forall p | p != [] ensures ValAt(h, Ref(copy), p) == ValAt(h, Ref(raw), p) {}
    forall p ensures ViewOf(h, copy)(p) == OutView(before, [], [])(p) {
      assert ViewOf(h, copy)(p) == CellAt(h, Ref(copy), p);
      assert ViewOf(h, raw)(p) == CellAt(h, Ref(raw), p);
    }
    forall u ensures Shared(h, copy, raw, u) <==> u != [] && before(u) == Some(Node) {
      assert ViewOf(h, raw)(u) == CellAt(h, Ref(raw), u);
    }
  }

  /** The copy, filtered by a non-empty allowlist. */
  lemma ListAllowed(h0: Store, h1: Store, h: Store, raw: Dict, copy: Dict, result: Dict, allow: seq<Target>)
    requires Closed(h0) && raw in h0 && copy !in h0 && h1 == h0[copy := h0[raw]]
    requires Kept(h1, h, copy, result, allow) && allow != []
    ensures Allowed(ViewOf(h0, raw), h, raw, result, allow)
  {
    var before := ViewOf(h0, raw);
    CopyAllowed(h0, h1, raw, copy);
    forall p ensures ViewOf(h1, copy)(p) == before(p) {
      assert ViewOf(h1, copy)(p) == OutView(before, [], [])(p);
    }
    SameShaping(ViewOf(h1, copy), before, allow, []);
    KeptView(h1, h, copy, result, allow);
    forall p ensures ViewOf(h, raw)(p) == before(p) {
      OldLookup(h1, h, Ref(raw), p);
      assert ViewOf(h, raw)(p) == CellAt(h, Ref(raw), p);
      assert ViewOf(h1, raw)(p) == CellAt(h1, Ref(raw), p);
    }
    forall u ensures Shared(h, result, raw, u) <==> Covered(before, allow, u) && before(u) == Some(Node) {
      SharedIsCovered(h1, h, copy, result, allow, u);
      OldLookup(h1, h, Ref(raw), u);
      if u == [] {
        assert !Covered(before, allow, u);
      } else {
        assert ValAt(h1, Ref(copy), u) == ValAt(h1, Ref(raw), u);
      }
    }
  }

  /** After the denylist, both payloads look as specified. */
  lemma DenyAllowed(before: View, h: Store, h2: Store, pos: map<Dict, Path>, raw: Dict, payload: Dict,
                    allow: seq<Target>, deny: seq<Target>)
    requires Allowed(before, h, raw, payload, allow) && Proper(deny)
    requires Labelled(h, pos) && pos[raw] == pos[payload] == [] && h2 == DenyStore(h, payload, deny)
    ensures Same(ViewOf(h2, payload), OutView(before, allow, deny))
    ensures Same(ViewOf(h2, raw), RawAfter(before, allow, deny))
  {
    DenyLookup(h, pos, payload, raw, deny);
    forall p ensures ViewOf(h2, payload)(p) == OutView(before, allow, deny)(p) {
      assert ViewOf(h2, payload)(p) == CellAt(h2, Ref(payload), p);
      assert ViewOf(h, payload)(p) == CellAt(h, Ref(payload), p) == OutView(before, allow, [])(p);
      assert !Denied([], p);
    }
    forall p ensures ViewOf(h2, raw)(p) == RawAfter(before, allow, deny)(p) {
      assert ViewOf(h2, raw)(p) == CellAt(h2, Ref(raw), p);
      assert ViewOf(h, raw)(p) == CellAt(h, Ref(raw), p) == before(p);
      if before(p).Some? {
        ErasureAgrees(before, h, raw, payload, allow, deny, p);
      }
    }
  }

  /** Where there is something to erase, the store and the specification erase alike. */
  lemma ErasureAgrees(before: View, h: Store, raw: Dict, payload: Dict, allow: seq<Target>, deny: seq<Target>, p: Path)
    requires Allowed(before, h, raw, payload, allow) && before(p).Some?
    ensures StoreErased(h, payload, raw, deny, p) <==> Erased(before, allow, deny, p)
  {
    if Erased(before, allow, deny, p) {
      var i :| Reaches(before, allow, deny, i) && deny[i].path <= p;
      assert Parent(deny[i].path) < p;
      assert before(Parent(deny[i].path)) == Some(Node);
      assert StoreReaches(h, payload, raw, deny, i);
    }
    if StoreErased(h, payload, raw, deny, p) {
      var i :| StoreReaches(h, payload, raw, deny, i) && deny[i].path <= p;
      assert Reaches(before, allow, deny, i);
    }
  }

  /** The outgoing payload before the denylist: a copy of the raw one, or what the allowlist keeps of it. */
  method CopyAndAllow(raw: Dict, allowlist: seq<string>, ghost dataKey: string, ghost dicts: set<Dict>,
                      ghost pos: map<Dict, Path>)
    returns (payload: Dict, ghost dicts2: set<Dict>, ghost pos2: map<Dict, Path>)
    requires IsPayload(raw, dataKey, dicts, pos)
    modifies dicts
    ensures dicts <= dicts2 && (forall d :: d in dicts2 ==> d in dicts || fresh(d))
    ensures raw in dicts2 && payload in dicts2 && pos2.Keys >= dicts2 && pos2[raw] == pos2[payload] == []
    ensures Labelled(Snap(dicts2), pos2) && raw.order == old(raw.order)
    ensures forall k :: k in payload.order <==> k in payload.fields
    ensures payload.order == KeptOrder(old(ViewOf(Snap(dicts), raw)), raw.order, ResolveAll(allowlist, dataKey))
    ensures Allowed(old(ViewOf(Snap(dicts), raw)), Snap(dicts2), raw, payload, ResolveAll(allowlist, dataKey))
  {
    hide ValAt, ViewOf, OutView, Allowed, AllowOrder, Same;
    ghost var h0 := Snap(dicts);
    var copy := raw.Copy();
    payload := copy;
    dicts2, pos2 := dicts + {copy}, pos[copy := []];
    ghost var h1 := Snap(dicts2);
    assert h1 == h0[copy := h0[raw]];
    CopyAllowed(h0, h1, raw, copy);
    if allowlist != [] {
      payload, dicts2, pos2 := ApplyAllowlist(copy, allowlist, dataKey, dicts2, pos2);
      ghost var ts := ResolveAll(allowlist, dataKey);
      ListAllowed(h0, h1, Snap(dicts2), raw, copy, payload, ts);
      CopyLooksTheSame(h0, h1, raw, copy);
      SameAllowOrder(ViewOf(h1, copy), ViewOf(h0, raw), ts);
    }
  }

  ghost function KeptOrder(view: View, order: seq<string>, allow: seq<Target>): seq<string> {
    if allow == [] then order else AllowOrder(view, allow)
  }

  lemma CopyLooksTheSame(h0: Store, h1: Store, raw: Dict, copy: Dict)
    requires Closed(h0) && raw in h0 && copy !in h0 && h1 == h0[copy := h0[raw]]
    ensures Same(ViewOf(h1, copy), ViewOf(h0, raw))
  {
    CopyAllowed(h0, h1, raw, copy);
    forall p ensures ViewOf(h1, copy)(p) == ViewOf(h0, raw)(p) {
      assert ViewOf(h1, copy)(p) == OutView(ViewOf(h0, raw), [], [])(p);
    }
  }

  /**
   Shape the raw payload for one endpoint. The outgoing dicts may be the raw
   payload's own, so the raw payload can come back changed; `Shaped` says how.
   */
  method Shape(raw: Dict, allowlist: seq<string>, denylist: seq<string>, onlyOnPassing: bool,
               ghost dataKey: string, ghost dicts: set<Dict>, ghost pos: map<Dict, Path>)
    returns (payload: Dict, send: bool, ghost dicts2: set<Dict>, ghost pos2: map<Dict, Path>)
    requires IsPayload(raw, dataKey, dicts, pos)
    modifies dicts
    ensures dicts <= dicts2 && (forall d :: d in dicts2 ==> d in dicts || fresh(d))
    ensures IsPayload(raw, dataKey, dicts2, pos2) && raw.order == old(raw.order)
    ensures IsPayload(payload, dataKey, dicts2, pos2)
    ensures Shaped(old(ViewOf(Snap(dicts), raw)), raw.order, ViewOf(Snap(dicts2), raw),
                   ViewOf(Snap(dicts2), payload), payload.order, send,
                   ResolveAll(allowlist, dataKey), ResolveAll(denylist, dataKey), onlyOnPassing)
    ensures !onlyOnPassing ==> send
  {
    ghost var before := ViewOf(Snap(dicts), raw);
    ghost var allow, deny := ResolveAll(allowlist, dataKey), ResolveAll(denylist, dataKey);
    PayloadIsOneEvent(raw, dataKey, dicts, pos);
    ResolvedIsProper(denylist, dataKey);
    payload, dicts2, pos2 := CopyAndAllow(raw, allowlist, dataKey, dicts, pos);
    ghost var h := Snap(dicts2);
    KeptPayload(before, raw.order, dataKey, h, raw, payload, payload.order, allow);
    if denylist != [] {
      ApplyDenylist(payload, denylist, dataKey, dicts2, pos2);
    }
    DenyAllowed(before, h, Snap(dicts2), pos2, raw, payload, allow, deny);
    RawKeepsKeys(before, Snap(dicts2), raw, allow, deny);
    send := ShouldSendPassingEvent(payload, onlyOnPassing, dicts2);
  }

  /** The kept keys are again keys of one event, in an order without repetition. */
  lemma KeptPayload(before: View, rawOrder: seq<string>, dataKey: string, h: Store, raw: Dict, payload: Dict,
                    order: seq<string>, allow: seq<Target>)
    requires OneEvent(before, rawOrder, dataKey) && Allowed(before, h, raw, payload, allow)
    requires order == KeptOrder(before, rawOrder, allow)
    ensures Distinct(order) && forall k :: k in order ==> k in {dataKey, META}
  {
    OutIsOneEvent(before, rawOrder, dataKey, allow, []);
    assert OutOrder(before, rawOrder, allow, []) == order;
  }

  /** The raw payload keeps its top-level keys. */
  lemma RawKeepsKeys(before: View, h: Store, raw: Dict, allow: seq<Target>, deny: seq<Target>)
    requires raw in h && Same(ViewOf(h, raw), RawAfter(before, allow, deny))
    ensures forall k :: k in h[raw] <==> before([k]).Some?
  {
    forall k: string ensures k in h[raw] <==> before([k]).Some? {
      TopCell(h, raw, k);
      TopLevelSurvives(before, allow, deny, k);
      assert ViewOf(h, raw)([k]) == RawAfter(before, allow, deny)([k]);
    }
  }

  /**
   What goes out, position by position, in terms of the configured strings: what
   no entry of the denylist removes, and some entry of the allowlist keeps, is as
   it was; what entries only open is an object; everything else is gone. An empty
   allowlist keeps everything, and the denylist wins.
   */
  lemma ShapedExactly(before: View, rawOrder: seq<string>, after: View, out: View, outOrder: seq<string>, send: bool,
                      allowlist: seq<string>, denylist: seq<string>, onlyOnPassing: bool, dataKey: string, p: Path)
    requires p != [] && dataKey != META
    requires Shaped(before, rawOrder, after, out, outOrder, send, ResolveAll(allowlist, dataKey),
                    ResolveAll(denylist, dataKey), onlyOnPassing)
    ensures out(p) ==
              if exists entry :: entry in denylist && Removes(entry, dataKey, p) then None
              else if allowlist == [] || (exists entry :: entry in allowlist && Keeps(before, entry, dataKey, p))
              then before(p)
              else if exists entry :: entry in allowlist && Opens(before, entry, dataKey, p) then Some(Node)
              else None
  {
    DeniedExactly(denylist, dataKey, p);
    if allowlist != [] {
      CoveredExactly(before, allowlist, dataKey, p);
      OpenedExactly(before, allowlist, dataKey, p);
    }
  }

  /**
   The leaves that go out: those of the raw payload, with their values, that some
   entry of the allowlist keeps, if there is one, and no entry of the denylist
   removes.
   */
  lemma ShapedLeaves(before: View, rawOrder: seq<string>, after: View, out: View, outOrder: seq<string>, send: bool,
                     allowlist: seq<string>, denylist: seq<string>, onlyOnPassing: bool, dataKey: string, p: Path,
                     v: Atom)
    requires TreeView(before) && dataKey != META
    requires Shaped(before, rawOrder, after, out, outOrder, send, ResolveAll(allowlist, dataKey),
                    ResolveAll(denylist, dataKey), onlyOnPassing)
    ensures out(p) == Some(Leaf(v)) <==>
              && before(p) == Some(Leaf(v))
              && (allowlist == [] || exists entry :: entry in allowlist && Keeps(before, entry, dataKey, p))
              && !exists entry :: entry in denylist && Removes(entry, dataKey, p)
  {
    if p != [] {
      ShapedExactly(before, rawOrder, after, out, outOrder, send, allowlist, denylist, onlyOnPassing, dataKey, p);
    }
  }

  /** A denied field is not sent, an allowed one is: for a field of the metadata, of any depth. */
  lemma MetadataField(before: View, rawOrder: seq<string>, after: View, out: View, outOrder: seq<string>, send: bool,
                      allowlist: seq<string>, denylist: seq<string>, onlyOnPassing: bool, dataKey: string, sub: string,
                      q: Path)
    requires dataKey != META && sub != "" && ["event_metadata"] + Split(sub) <= q
    requires Shaped(before, rawOrder, after, out, outOrder, send, ResolveAll(allowlist, dataKey),
                    ResolveAll(denylist, dataKey), onlyOnPassing)
    ensures "event_metadata." + sub in denylist ==> out(q) == None
    ensures var field := ["event_metadata"] + Split(sub);
            && denylist == [] && "event_metadata." + sub in allowlist
            && before(field).Some? && before(field) != Some(Leaf(Null))
            ==> out(q) == before(q)
  {
    var entry, field := "event_metadata." + sub, ["event_metadata"] + Split(sub);
    assert Spells(entry, dataKey, "event_metadata", sub) && Names(entry, dataKey, field);
    ShapedExactly(before, rawOrder, after, out, outOrder, send, allowlist, denylist, onlyOnPassing, dataKey, q);
    assert entry in denylist ==> Removes(entry, dataKey, q);
    if before(field).Some? && before(field) != Some(Leaf(Null)) {
      assert Finds(before, entry, dataKey, field) && Keeps(before, entry, dataKey, q);
    }
  }

  /**
   Attempt i + 1 of a chain, on the raw payload object as attempt i left it: the
   dicts it is to post show what the first attempt's showed, and the raw
   payload is as attempt i + 2 must find it.
   */
  method NextAttempt(raw: Dict, allowlist: seq<string>, denylist: seq<string>, onlyOnPassing: bool,
                     ghost dataKey: string, ghost dicts: set<Dict>, ghost pos: map<Dict, Path>,
                     ghost first: View, ghost i: nat)
    returns (payload: Dict, send: bool, ghost dicts2: set<Dict>, ghost pos2: map<Dict, Path>)
    requires IsPayload(raw, dataKey, dicts, pos)
    requires TreeView(first) && OneEvent(first, raw.order, dataKey)
    requires Same(ViewOf(Snap(dicts), raw),
        RawAt(first, ResolveAll(allowlist, dataKey), ResolveAll(denylist, dataKey), i))
    modifies dicts
    ensures dicts <= dicts2 && (forall d :: d in dicts2 ==> d in dicts || fresh(d))
    ensures IsPayload(raw, dataKey, dicts2, pos2) && raw.order == old(raw.order)
    ensures IsPayload(payload, dataKey, dicts2, pos2)
    ensures var allow, deny := ResolveAll(allowlist, dataKey), ResolveAll(denylist, dataKey);
            && Same(ViewOf(Snap(dicts2), payload), OutView(first, allow, deny))
            && Same(ViewOf(Snap(dicts2), raw), RawAt(first, allow, deny, i + 1))
            && Decided(first, raw.order, allow, deny, onlyOnPassing, i, send)
    ensures !onlyOnPassing ==> send
  {
    ghost var before, order := ViewOf(Snap(dicts), raw), raw.order;
    ghost var allow, deny := ResolveAll(allowlist, dataKey), ResolveAll(denylist, dataKey);
    ResolvedIsProper(denylist, dataKey);
    payload, send, dicts2, pos2 := Shape(raw, allowlist, denylist, onlyOnPassing, dataKey, dicts, pos);
    ghost var after, out := ViewOf(Snap(dicts2), raw), ViewOf(Snap(dicts2), payload);
    AttemptViews(first, before, order, after, out, payload.order, send, allow, deny, onlyOnPassing, i);
    AttemptDecides(first, before, order, after, out, payload.order, send, allow, deny, onlyOnPassing, i);
    if first([META, "is_passing"]) == None {
      AttemptDecision(first, order, dataKey, allow, deny, onlyOnPassing, i);
    }
  }

  /** The order of the keys that attempt i + 1 sends. */
  ghost function AttemptOrder(first: View, order: seq<string>, allow: seq<Target>, deny: seq<Target>,
                              i: nat): seq<string> {
    OutOrder(RawAt(first, allow, deny, i), order, allow, deny)
  }

  /**
   A chain of attempts: Celery hands the same raw payload object to every
   retry. However many there are, the last one's dicts show what the first one
   sent, and each decision is the one the views call for.
   */
  method Attempts(raw: Dict, allowlist: seq<string>, denylist: seq<string>, onlyOnPassing: bool, count: nat,
                  ghost dataKey: string, ghost dicts: set<Dict>, ghost pos: map<Dict, Path>)
    returns (decisions: seq<bool>, last: Dict, ghost dicts2: set<Dict>, ghost pos2: map<Dict, Path>)
    requires IsPayload(raw, dataKey, dicts, pos)
    modifies dicts
    ensures dicts <= dicts2 && (forall d :: d in dicts2 ==> d in dicts || fresh(d))
    ensures IsPayload(raw, dataKey, dicts2, pos2) && IsPayload(last, dataKey, dicts2, pos2) &&
        raw.order == old(raw.order)
    ensures |decisions| == count
    ensures Progress(old(ViewOf(Snap(dicts), raw)), raw.order, ViewOf(Snap(dicts2), raw), ViewOf(Snap(dicts2), last),
                     ResolveAll(allowlist, dataKey), ResolveAll(denylist, dataKey), onlyOnPassing, decisions)
  {
    ghost var first, order := ViewOf(Snap(dicts), raw), raw.order;
    ghost var allow, deny := ResolveAll(allowlist, dataKey), ResolveAll(denylist, dataKey);
    PayloadIsOneEvent(raw, dataKey, dicts, pos);
    decisions, last, dicts2, pos2 := [], raw, dicts, pos;
    var i := 0;
    while i < count
      invariant 0 <= i <= count && |decisions| == i
      invariant dicts <= dicts2 && (forall d :: d in dicts2 ==> d in dicts || fresh(d))
      invariant IsPayload(raw, dataKey, dicts2, pos2) && IsPayload(last, dataKey, dicts2, pos2) && raw.order == order
      invariant Progress(first, order, ViewOf(Snap(dicts2), raw), ViewOf(Snap(dicts2), last), allow, deny,
          onlyOnPassing, decisions)
    {
      ghost var before, sent := ViewOf(Snap(dicts2), raw), ViewOf(Snap(dicts2), last);
      var send;
      last, send, dicts2, pos2 := NextAttempt(raw, allowlist, denylist, onlyOnPassing, dataKey, dicts2, pos2, first, i);
      ProgressSnoc(first, order, before, sent, ViewOf(Snap(dicts2), raw), ViewOf(Snap(dicts2), last),
                   allow, deny, onlyOnPassing, decisions, send);
      decisions, i := decisions + [send], i + 1;
    }
  }

  /**
   A chain after |decisions| attempts: what the raw payload and the last posted
   payload show, and what was decided. Every decision is that of the outgoing
   view, in the order of its attempt; and that of the first attempt, when the
   metadata carries no verdict.
   */
  ghost predicate Progress(first: View, order: seq<string>, raw: View, last: View, allow: seq<Target>,
                           deny: seq<Target>, onlyOnPassing: bool, decisions: seq<bool>)
  {
    && Same(raw, RawAt(first, allow, deny, |decisions|))
    && (decisions != [] ==> Same(last, OutView(first, allow, deny)))
    && (forall j :: 0 <= j < |decisions| ==> Decided(first, order, allow, deny, onlyOnPassing, j, decisions[j]))
  }

  ghost predicate Decided(first: View, order: seq<string>, allow: seq<Target>, deny: seq<Target>, onlyOnPassing: bool,
                          j: nat, send: bool)
  {
    var out := OutView(first, allow, deny);
    && (!onlyOnPassing ==> send)
    && (send <==> ShouldSend(out, AttemptOrder(first, order, allow, deny, j), onlyOnPassing))
    && (first([META, "is_passing"]) == None ==>
        (send <==> ShouldSend(out, OutOrder(first, order, allow, deny), onlyOnPassing)))
  }

  lemma ProgressSnoc(first: View, order: seq<string>, before: View, sent: View, raw: View, last: View,
                     allow: seq<Target>, deny: seq<Target>, onlyOnPassing: bool, decisions: seq<bool>, send: bool)
    requires Progress(first, order, before, sent, allow, deny, onlyOnPassing, decisions)
    requires Same(raw, RawAt(first, allow, deny, |decisions| + 1)) && Same(last, OutView(first, allow, deny))
    requires Decided(first, order, allow, deny, onlyOnPassing, |decisions|, send)
    ensures Progress(first, order, raw, last, allow, deny, onlyOnPassing, decisions + [send])
  {}

  /** Attempt i + 1 sends what the first attempt sends, and leaves the raw payload to the next. */
  lemma AttemptViews(first: View, before: View, order: seq<string>, after: View, out: View, outOrder: seq<string>,
                     send: bool,
                     allow: seq<Target>, deny: seq<Target>, onlyOnPassing: bool, i: nat)
    requires Same(before, RawAt(first, allow, deny, i))
    requires Shaped(before, order, after, out, outOrder, send, allow, deny, onlyOnPassing)
    ensures Same(out, OutView(first, allow, deny)) && Same(after, RawAt(first, allow, deny, i + 1))
  {
    SameShaping(before, RawAt(first, allow, deny, i), allow, deny);
    SameDamage(before, RawAt(first, allow, deny, i), allow, deny);
    EveryAttemptSendsTheSame(first, allow, deny, i);
  }

  /** ... decides by that view, in the order its own raw payload gives */
  lemma AttemptDecides(first: View, before: View, order: seq<string>, after: View, out: View, outOrder: seq<string>,
                       send: bool, allow: seq<Target>, deny: seq<Target>, onlyOnPassing: bool, i: nat)
    requires Same(before, RawAt(first, allow, deny, i)) && Same(out, OutView(first, allow, deny))
    requires Shaped(before, order, after, out, outOrder, send, allow, deny, onlyOnPassing)
    ensures send <==> ShouldSend(OutView(first, allow, deny), AttemptOrder(first, order, allow, deny, i), onlyOnPassing)
  {
    SameAllowOrder(before, RawAt(first, allow, deny, i), allow);
    SameDecision(out, OutView(first, allow, deny), outOrder);
  }

  /** ... and thereby as the first attempt decides, when the metadata carries no verdict. */
  lemma AttemptDecision(first: View, order: seq<string>, dataKey: string, allow: seq<Target>, deny: seq<Target>,
                        onlyOnPassing: bool, i: nat)
    requires TreeView(first) && OneEvent(first, order, dataKey) && Proper(deny)
    requires first([META, "is_passing"]) == None
    ensures ShouldSend(OutView(first, allow, deny), AttemptOrder(first, order, allow, deny, i), onlyOnPassing)
       <==> ShouldSend(OutView(first, allow, deny), OutOrder(first, order, allow, deny), onlyOnPassing)
  {
    if i >= 1 {
      var raw := RawAt(first, allow, deny, i);
      EveryAttemptSendsTheSame(first, allow, deny, i);
      SameDecision(OutView(raw, allow, deny), OutView(first, allow, deny), AttemptOrder(first, order, allow, deny, i));
      NothingIsInvented(first, allow, deny, [META, "is_passing"]);
      RetryDecision(first, order, dataKey, allow, deny, i);
    }
  }
}
