/**
 What shaping means, independently of how dicts are shared: the outgoing view,
 the damage one attempt does to the raw payload, the order of top-level keys,
 and the passing decision. Specifies apply_allowlist, apply_denylist,
 should_send_passing_event and _shape_and_check.
 */
module ShapeSpec {
  import opened Options
  import opened PayloadPaths

  /** Every configured target lies strictly below the root. */
  ghost predicate Proper(ts: seq<Target>) {
    forall t :: t in ts && t.At? ==> t.path != []
  }

  /** The entry keeps something: a whole key that is present, or a nested value that is not null. */
  ghost predicate Hit(view: View, t: Target) {
    && t.At?
    && t.path != []
    && view(t.path).Some?
    && (|t.path| == 1 || view(t.path).value != Leaf(Null))
  }

  /** A trailing-dot entry only creates an empty object. */
  ghost predicate Touched(view: View, t: Target) {
    t.Touch? && view([t.key]).Some? && view([t.key]).value != Leaf(Null)
  }

  /** An empty allowlist keeps every top-level key. */
  ghost predicate Covered(view: View, allow: seq<Target>, p: Path) {
    if allow == [] then p != [] else exists t :: t in allow && Hit(view, t) && t.path <= p
  }

  /** Positions that exist only as containers on the way to a kept value. */
  ghost predicate Stub(view: View, allow: seq<Target>, p: Path) {
    || (exists t :: t in allow && Hit(view, t) && p < t.path)
    || (exists t :: t in allow && Touched(view, t) && p == [t.key])
  }

  ghost predicate Denied(deny: seq<Target>, p: Path) {
    exists t :: t in deny && t.At? && t.path <= p
  }

  /** The view of the payload that is sent. */
  ghost function OutView(view: View, allow: seq<Target>, deny: seq<Target>): View {
    p =>
      if p == [] then Some(Node)
      else if Denied(deny, p) then None
      else if Covered(view, allow, p) then view(p)
      else if Stub(view, allow, p) then Some(Node)
      else None
  }

  function Parent(p: Path): Path
    requires p != []
  {
    p[..|p| - 1]
  }

  /**
   Deny entry i deletes from a dict that the raw payload shares: its parent
   was kept whole, and no earlier entry has already cut the way to it.
   */
  ghost predicate Reaches(view: View, allow: seq<Target>, deny: seq<Target>, i: int) {
    && 0 <= i < |deny|
    && deny[i].At?
    && deny[i].path != []
    && Covered(view, allow, Parent(deny[i].path))
    && forall j :: 0 <= j < i && deny[j].At? ==> !(deny[j].path <= Parent(deny[i].path))
  }

  ghost predicate Erased(view: View, allow: seq<Target>, deny: seq<Target>, p: Path) {
    exists i :: Reaches(view, allow, deny, i) && deny[i].path <= p
  }

  /** The raw payload as one attempt leaves it for the next. */
  ghost function RawAfter(view: View, allow: seq<Target>, deny: seq<Target>): View {
    p => if Erased(view, allow, deny, p) then None else view(p)
  }

  /** The raw payload before attempt n + 1. */
  ghost function RawAt(view: View, allow: seq<Target>, deny: seq<Target>, n: nat): View {
    if n == 0 then view else RawAfter(RawAt(view, allow, deny, n - 1), allow, deny)
  }

  // ----- the order of top-level keys, and the decision that depends on it

  ghost predicate Enters(view: View, t: Target) {
    Hit(view, t) || Touched(view, t)
  }

  function EntryKey(t: Target): string
    requires t.Touch? || (t.At? && t.path != [])
  {
    if t.Touch? then t.key else t.path[0]
  }

  function Append(order: seq<string>, key: string): seq<string> {
    if key in order then order else order + [key]
  }

  function Without(order: seq<string>, key: string): (rest: seq<string>)
    ensures forall k :: k in rest <==> k in order && k != key
  {
    if order == [] then []
    else
      var rest := Without(order[1..], key);
      if order[0] == key then rest else [order[0]] + rest
  }

  ghost predicate Distinct(order: seq<string>) {
    forall i, j :: 0 <= i < j < |order| ==> order[i] != order[j]
  }

  lemma {:induction false} WithoutKeepsDistinct(order: seq<string>, key: string)
    requires Distinct(order)
    ensures Distinct(Without(order, key))
    ensures key !in order ==> Without(order, key) == order
  {
    if order != [] {
      assert Distinct(order[1..]);
      WithoutKeepsDistinct(order[1..], key);
      assert order[0] !in order[1..];
    }
  }

  ghost function AllowOrder(view: View, allow: seq<Target>): seq<string> {
    if allow == [] then []
    else
      var before := AllowOrder(view, allow[..|allow| - 1]);
      var t := allow[|allow| - 1];
      if Enters(view, t) then Append(before, EntryKey(t)) else before
  }

  function DenyOrder(order: seq<string>, deny: seq<Target>): seq<string> {
    if deny == [] then order
    else
      var before := DenyOrder(order, deny[..|deny| - 1]);
      var t := deny[|deny| - 1];
      if t.At? && |t.path| == 1 then Without(before, t.path[0]) else before
  }

  ghost function OutOrder(view: View, order: seq<string>, allow: seq<Target>, deny: seq<Target>): seq<string> {
    DenyOrder(if allow == [] then order else AllowOrder(view, allow), deny)
  }

  /** Python truthiness. */
  predicate Truthy(v: Json) {
    match v
    case Null => false
    case Bool(b) => b
    case Num(r) => r != 0.0
    case Text(s) => s != ""
    case Array(items) => items != []
    case Object(fields) => fields != map[]
  }

  /** What the object under `key` says about passing, if anything. */
  ghost function Vote(view: View, key: string): Option<bool> {
    match view([key, "is_passing"])
    case None => None
    case Some(Leaf(v)) => if v == Null then None else Some(Truthy(v))
    case Some(Node) => Some(exists k: string :: view([key, "is_passing", k]).Some?)
  }

  /** The first object that votes decides; no vote means send. */
  ghost function Decide(view: View, order: seq<string>): bool {
    if order == [] then true
    else if Vote(view, order[0]).Some? then Vote(view, order[0]).value
    else Decide(view, order[1..])
  }

  ghost predicate ShouldSend(view: View, order: seq<string>, onlyOnPassing: bool) {
    onlyOnPassing ==> Decide(view, order)
  }

  // ----- views that come from dicts

  /** Nothing is seen below a leaf or below an absent position. */
  ghost predicate TreeView(view: View) {
    view([]) == Some(Node) && forall p: Path, q: Path :: p < q && view(q).Some? ==> view(p) == Some(Node)
  }

  ghost predicate Same(a: View, b: View) {
    forall p :: a(p) == b(p)
  }

  /** The order lists exactly the top-level keys, once each, and there is one event. */
  ghost predicate OneEvent(view: View, order: seq<string>, dataKey: string) {
    && dataKey != META
    && (forall k :: k in order <==> view([k]).Some?)
    && Distinct(order)
    && (forall k :: k in order ==> k in {dataKey, META})
  }
}

/** Theorems about shaping: for all payload views and all configured lists. */
module ShapeTheorems {
  import opened Options
  import opened PayloadPaths
  import opened ShapeSpec

  // ----- the outgoing leaves

  /** The leaf specification, both directions: kept, not denied, and with the raw value. */
  lemma LeavesExactly(view: View, allow: seq<Target>, deny: seq<Target>, p: Path, v: Atom)
    requires p != []
    ensures OutView(view, allow, deny)(p) == Some(Leaf(v))
       <==> view(p) == Some(Leaf(v)) && Covered(view, allow, p) && !Denied(deny, p)
  {}

  /** Shaping a tree gives a tree. */
  lemma OutIsTree(view: View, allow: seq<Target>, deny: seq<Target>)
    requires TreeView(view)
    ensures TreeView(OutView(view, allow, deny))
  {
    var out := OutView(view, allow, deny);
    forall p: Path, q: Path | p < q && out(q).Some?
      ensures out(p) == Some(Node)
    {
      if p != [] {
        DenialIsUpwardClosed(deny, p, q);
        if Covered(view, allow, p) {
          CoverageIsUpwardClosed(view, allow, p, q);
          assert view(q).Some? && view(p) == Some(Node);
        } else if Covered(view, allow, q) {
          var t :| t in allow && Hit(view, t) && t.path <= q;
          assert p < t.path;
          assert Stub(view, allow, p);
        } else {
          assert |q| > 1 && Stub(view, allow, q);
          var t :| t in allow && Hit(view, t) && q < t.path;
          assert p < t.path;
          assert Stub(view, allow, p);
        }
      }
    }
  }

  lemma DenialIsUpwardClosed(deny: seq<Target>, p: Path, q: Path)
    requires p <= q
    ensures Denied(deny, p) ==> Denied(deny, q)
  {
    if Denied(deny, p) {
      var t :| t in deny && t.At? && t.path <= p;
      assert t.path <= q;
    }
  }

  lemma CoverageIsUpwardClosed(view: View, allow: seq<Target>, p: Path, q: Path)
    requires p <= q && Covered(view, allow, p)
    ensures Covered(view, allow, q)
  {
    if allow != [] {
      var t :| t in allow && Hit(view, t) && t.path <= p;
      assert t.path <= q;
    }
  }

  // ----- retries: what one attempt does to the raw payload does not show in the next

  /** Only what is denied is ever erased. */
  lemma ErasedIsDenied(view: View, allow: seq<Target>, deny: seq<Target>, p: Path)
    ensures Erased(view, allow, deny, p) ==> Denied(deny, p)
  {
    if Erased(view, allow, deny, p) {
      var i :| Reaches(view, allow, deny, i) && deny[i].path <= p;
      assert deny[i] in deny;
    }
  }

  /** Below the erased position lies an allow entry that matched, strictly above it. */
  lemma ErasedBelowHit(view: View, allow: seq<Target>, deny: seq<Target>, p: Path)
    requires allow != [] && Erased(view, allow, deny, p)
    ensures exists t :: t in allow && Hit(view, t) && t.path < p
  {
    var i :| Reaches(view, allow, deny, i) && deny[i].path <= p;
    var t :| t in allow && Hit(view, t) && t.path <= Parent(deny[i].path);
    assert Parent(deny[i].path) < deny[i].path;
  }

  /** Top-level keys of the raw payload are never erased. */
  lemma TopLevelSurvives(view: View, allow: seq<Target>, deny: seq<Target>, key: string)
    ensures RawAfter(view, allow, deny)([key]) == view([key])
  {
    if allow != [] && Erased(view, allow, deny, [key]) {
      ErasedBelowHit(view, allow, deny, [key]);
    }
    assert forall i :: Reaches(view, allow, deny, i) && deny[i].path <= [key] ==> Parent(deny[i].path) == [];
  }

  /** Above every matching allow entry there is a shortest one, and it survives the attempt. */
  lemma {:induction false} ShortestHitSurvives(view: View, allow: seq<Target>, deny: seq<Target>, m: Target)
    requires m in allow && Hit(view, m)
    ensures exists s :: s in allow && Hit(view, s) && s.path <= m.path && Hit(RawAfter(view, allow, deny), s)
    decreases |m.path|
  {
    if Erased(view, allow, deny, m.path) {
      ErasedBelowHit(view, allow, deny, m.path);
      var t :| t in allow && Hit(view, t) && t.path < m.path;
      ShortestHitSurvives(view, allow, deny, t);
      var s :| s in allow && Hit(view, s) && s.path <= t.path && Hit(RawAfter(view, allow, deny), s);
      assert s.path <= m.path;
    } else {
      assert m.path <= m.path;
    }
  }

  /** Coverage of the next attempt: smaller in general, the same wherever nothing is denied. */
  lemma NextCoverage(view: View, allow: seq<Target>, deny: seq<Target>, p: Path)
    ensures Covered(RawAfter(view, allow, deny), allow, p) ==> Covered(view, allow, p)
    ensures !Denied(deny, p) && Covered(view, allow, p) ==> Covered(RawAfter(view, allow, deny), allow, p)
  {
    var next := RawAfter(view, allow, deny);
    if allow != [] {
      if Covered(next, allow, p) {
        var t :| t in allow && Hit(next, t) && t.path <= p;
        assert Hit(view, t);
      }
      if !Denied(deny, p) && Covered(view, allow, p) {
        var t :| t in allow && Hit(view, t) && t.path <= p;
        DenialIsUpwardClosed(deny, t.path, p);
        ErasedIsDenied(view, allow, deny, t.path);
        assert Hit(next, t);
      }
    }
  }

  /** Containers of the next attempt, wherever neither coverage nor denial settles the matter. */
  lemma NextStub(view: View, allow: seq<Target>, deny: seq<Target>, p: Path)
    requires p != [] && !Covered(view, allow, p)
    ensures Stub(RawAfter(view, allow, deny), allow, p) <==> Stub(view, allow, p)
  {
    var next := RawAfter(view, allow, deny);
    forall k: string ensures next([k]) == view([k]) {
      TopLevelSurvives(view, allow, deny, k);
    }
    if Stub(view, allow, p) {
      if m :| m in allow && Hit(view, m) && p < m.path {
        ShortestHitSurvives(view, allow, deny, m);
        var s :| s in allow && Hit(view, s) && s.path <= m.path && Hit(next, s);
        PrefixesOfOnePath(p, s.path, m.path);
        assert p < s.path;
      } else {
        var t :| t in allow && Touched(view, t) && p == [t.key];
        assert Touched(next, t);
      }
    }
    if Stub(next, allow, p) {
      if m :| m in allow && Hit(next, m) && p < m.path {
        assert Hit(view, m);
      } else {
        var t :| t in allow && Touched(next, t) && p == [t.key];
        assert Touched(view, t);
      }
    }
  }

  lemma PrefixesOfOnePath(p: Path, q: Path, whole: Path)
    requires p <= whole && q <= whole
    ensures p <= q || q < p
  {}

  /** One attempt: shaping the raw payload it leaves behind gives the same outgoing view. */
  lemma RetryStableStep(view: View, allow: seq<Target>, deny: seq<Target>)
    ensures Same(OutView(RawAfter(view, allow, deny), allow, deny), OutView(view, allow, deny))
  {
    var next := RawAfter(view, allow, deny);
    forall p: Path
      ensures OutView(next, allow, deny)(p) == OutView(view, allow, deny)(p)
    {
      if p != [] && !Denied(deny, p) {
        NextCoverage(view, allow, deny, p);
        ErasedIsDenied(view, allow, deny, p);
        if !Covered(view, allow, p) {
          NextStub(view, allow, deny, p);
        }
      }
    }
  }

  /** The first attempt does all the damage: a further one leaves the raw payload as it is. */
  lemma DamageIsIdempotent(view: View, allow: seq<Target>, deny: seq<Target>)
    ensures Same(RawAfter(RawAfter(view, allow, deny), allow, deny), RawAfter(view, allow, deny))
  {
    var next := RawAfter(view, allow, deny);
    forall p: Path
      ensures RawAfter(next, allow, deny)(p) == next(p)
    {
      if Erased(next, allow, deny, p) {
        var i :| Reaches(next, allow, deny, i) && deny[i].path <= p;
        NextCoverage(view, allow, deny, Parent(deny[i].path));
        assert Reaches(view, allow, deny, i);
        assert Erased(view, allow, deny, p);
      }
    }
  }

  /** Every attempt of a chain, however long, sends the same view. */
  lemma {:induction false} EveryAttemptSendsTheSame(view: View, allow: seq<Target>, deny: seq<Target>, n: nat)
    ensures Same(OutView(RawAt(view, allow, deny, n), allow, deny), OutView(view, allow, deny))
  {
    if n > 0 {
      EveryAttemptSendsTheSame(view, allow, deny, n - 1);
      RetryStableStep(RawAt(view, allow, deny, n - 1), allow, deny);
    }
  }

  // ----- the allowlist as a set of paths

  /** Order and repetition of entries do not matter, only which entries there are. */
  lemma AllowlistIsASet(view: View, a: seq<Target>, b: seq<Target>, deny: seq<Target>)
    requires a != [] && b != [] && forall t :: t in a <==> t in b
    ensures Same(OutView(view, a, deny), OutView(view, b, deny))
  {
    forall p: Path ensures OutView(view, a, deny)(p) == OutView(view, b, deny)(p) {
      assert Covered(view, a, p) <==> Covered(view, b, p);
      assert Stub(view, a, p) <==> Stub(view, b, p);
    }
  }

  /**
   A key that holds no object in the payload: the one list keeps it whole, the
   other only has a trailing-dot entry for it, which makes an empty object.
   */
  ghost predicate Clash(view: View, a: seq<Target>, b: seq<Target>, p: Path) {
    && |p| == 1 && view(p).Some? && view(p) != Some(Node)
    && Touch(p[0]) in a && Touched(view, Touch(p[0])) && !Covered(view, a, p) && Covered(view, b, p)
  }

  /**
   The projection on a list is the union of the projections on its parts, at every
   position without such a clash and at no other. Where the top-level values are
   objects, as the receiver builds them, there is none.
   */
  lemma AllowlistIsAUnion(view: View, a: seq<Target>, b: seq<Target>, deny: seq<Target>, p: Path)
    requires TreeView(view) && a != [] && b != []
    ensures OutView(view, a + b, deny)(p)
              == (if OutView(view, a, deny)(p).Some? then OutView(view, a, deny)(p) else OutView(view, b, deny)(p))
       <==> p == [] || Denied(deny, p) || !Clash(view, a, b, p)
  {
    if p != [] && !Denied(deny, p) {
      assert forall t :: t in a + b <==> t in a || t in b;
      assert Covered(view, a + b, p) <==> Covered(view, a, p) || Covered(view, b, p);
      assert Stub(view, a + b, p) <==> Stub(view, a, p) || Stub(view, b, p);
      HitsAreInTheView(view, a, p);
      HitsAreInTheView(view, b, p);
      if view(p) != Some(Node) {
        StubOfLeaf(view, a, p);
      }
    }
  }

  /** A position that holds no object is a container only for a trailing-dot entry. */
  lemma StubOfLeaf(view: View, a: seq<Target>, p: Path)
    requires TreeView(view) && p != [] && view(p) != Some(Node)
    ensures Stub(view, a, p) ==> |p| == 1 && Touch(p[0]) in a && Touched(view, Touch(p[0]))
  {
    HitsAreInTheView(view, a, p);
    if t :| t in a && Touched(view, t) && p == [t.key] {
      assert t == Touch(p[0]);
    }
  }

  /** A covered position that something else needs as a container is a dict in the payload too. */
  lemma HitsAreInTheView(view: View, allow: seq<Target>, p: Path)
    requires TreeView(view)
    ensures forall t :: t in allow && Hit(view, t) && p < t.path ==> view(p) == Some(Node)
  {}

  /** A longer allowlist never hides a leaf. */
  lemma AllowlistIsMonotone(view: View, a: seq<Target>, b: seq<Target>, deny: seq<Target>, p: Path, v: Atom)
    requires a != [] && forall t :: t in a ==> t in b
    requires p != [] && OutView(view, a, deny)(p) == Some(Leaf(v))
    ensures OutView(view, b, deny)(p) == Some(Leaf(v))
  {
    LeavesExactly(view, a, deny, p, v);
    LeavesExactly(view, b, deny, p, v);
  }

  // ----- redelivery of a stored snapshot

  /**
   Shaping a payload that was already shaped under the same lists: nothing
   changes, except that containers with no leaf below them may vanish.
   */
  lemma SnapshotRedelivery(view: View, allow: seq<Target>, deny: seq<Target>, p: Path)
    requires TreeView(view)
    ensures var out := OutView(view, allow, deny);
            var again := OutView(out, allow, deny);
            || again(p) == out(p)
            || (again(p) == None && out(p) == Some(Node) && NoLeafBelow(out, p))
  {
    var out := OutView(view, allow, deny);
    if allow != [] && p != [] && !Denied(deny, p) {
      if Covered(view, allow, p) {
        HitsSurviveShaping(view, allow, deny, p);
      } else {
        ShapedHitsAreHits(view, allow, deny);
        assert !Covered(out, allow, p);
        if t :| t in allow && Hit(out, t) && p < t.path {
          assert Hit(view, t);
          assert Stub(view, allow, p);
        }
        if !NoLeafBelow(out, p) {
          var q: Path, v: Atom :| p <= q && out(q) == Some(Leaf(v));
          LeavesExactly(view, allow, deny, q, v);
          HitsSurviveShaping(view, allow, deny, q);
          var t :| t in allow && Hit(out, t) && t.path <= q;
          PrefixesOfOnePath(p, t.path, q);
          assert p < t.path && Stub(out, allow, p);
        }
      }
    }
  }

  ghost predicate NoLeafBelow(view: View, p: Path) {
    forall q: Path, v: Atom :: p <= q ==> view(q) != Some(Leaf(v))
  }

  /** What was kept and not denied is kept again. */
  lemma HitsSurviveShaping(view: View, allow: seq<Target>, deny: seq<Target>, q: Path)
    requires allow != [] && Covered(view, allow, q) && !Denied(deny, q)
    ensures exists t :: t in allow && Hit(OutView(view, allow, deny), t) && t.path <= q
  {
    var t :| t in allow && Hit(view, t) && t.path <= q;
    DenialIsUpwardClosed(deny, t.path, q);
    assert t.path <= t.path;
    assert Covered(view, allow, t.path);
  }

  /** Nothing matches in the shaped payload that did not match in the raw one. */
  lemma ShapedHitsAreHits(view: View, allow: seq<Target>, deny: seq<Target>)
    requires TreeView(view) && allow != []
    ensures forall t :: t in allow && Hit(OutView(view, allow, deny), t) ==> Hit(view, t)
  {
    forall t | t in allow && Hit(OutView(view, allow, deny), t)
      ensures Hit(view, t)
    {
      if !Covered(view, allow, t.path) {
        if m :| m in allow && Hit(view, m) && t.path < m.path {
          assert view(t.path) == Some(Node);
        }
      }
    }
  }
}
