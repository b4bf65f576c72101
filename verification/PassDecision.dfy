/**
 When the only-on-passing decision can be relied on: across retries, across a
 redelivery, and against the payload as it was before shaping.
 */
module PassDecision {
  import opened Options
  import opened PayloadPaths
  import opened ShapeSpec
  import opened ShapeTheorems

  // ----- everything here depends on views pointwise

  lemma SameVotes(a: View, b: View, key: string)
    requires Same(a, b)
    ensures Vote(a, key) == Vote(b, key)
  {
    assert a([key, "is_passing"]) == b([key, "is_passing"]);
    assert forall k: string :: a([key, "is_passing", k]) == b([key, "is_passing", k]);
  }

  lemma {:induction false} SameDecision(a: View, b: View, order: seq<string>)
    requires Same(a, b)
    ensures Decide(a, order) == Decide(b, order)
  {
    if order != [] {
      SameVotes(a, b, order[0]);
      SameDecision(a, b, order[1..]);
    }
  }

  lemma {:induction false} SameAllowOrder(a: View, b: View, allow: seq<Target>)
    requires Same(a, b)
    ensures AllowOrder(a, allow) == AllowOrder(b, allow)
  {
    if allow != [] {
      SameAllowOrder(a, b, allow[..|allow| - 1]);
    }
  }

  lemma SameDamage(a: View, b: View, allow: seq<Target>, deny: seq<Target>)
    requires Same(a, b)
    ensures Same(RawAfter(a, allow, deny), RawAfter(b, allow, deny))
  {
    forall p: Path ensures Covered(a, allow, p) <==> Covered(b, allow, p) {
      assert forall t: Target :: Hit(a, t) <==> Hit(b, t);
    }
    assert forall i: int :: Reaches(a, allow, deny, i) <==> Reaches(b, allow, deny, i);
    forall p: Path ensures RawAfter(a, allow, deny)(p) == RawAfter(b, allow, deny)(p) {
      assert Erased(a, allow, deny, p) <==> Erased(b, allow, deny, p);
    }
  }

  lemma SameShaping(a: View, b: View, allow: seq<Target>, deny: seq<Target>)
    requires Same(a, b)
    ensures Same(OutView(a, allow, deny), OutView(b, allow, deny))
    ensures forall p :: Covered(a, allow, p) <==> Covered(b, allow, p)
  {
    assert forall t: Target :: Hit(a, t) <==> Hit(b, t);
    assert forall t: Target :: Touched(a, t) <==> Touched(b, t);
    forall p: Path ensures Covered(a, allow, p) <==> Covered(b, allow, p) {}
    forall p: Path ensures OutView(a, allow, deny)(p) == OutView(b, allow, deny)(p) {
      assert Stub(a, allow, p) <==> Stub(b, allow, p);
    }
  }

  /** From the second attempt on, the raw payload no longer changes. */
  lemma {:induction false} RawSettles(view: View, allow: seq<Target>, deny: seq<Target>, n: nat)
    requires n >= 1
    ensures Same(RawAt(view, allow, deny, n), RawAfter(view, allow, deny))
  {
    if n == 1 {
      assert RawAt(view, allow, deny, 0) == view;
    } else {
      RawSettles(view, allow, deny, n - 1);
      SameDamage(RawAt(view, allow, deny, n - 1), RawAfter(view, allow, deny), allow, deny);
      DamageIsIdempotent(view, allow, deny);
    }
  }

  // ----- top-level order

  /** The key of the first allow entry that keeps anything. */
  ghost function Lead(view: View, allow: seq<Target>): Option<string> {
    if allow == [] then None
    else
      var before := Lead(view, allow[..|allow| - 1]);
      var t := allow[|allow| - 1];
      if before.Some? then before else if Enters(view, t) then Some(EntryKey(t)) else None
  }

  lemma {:induction false} LeadComesFirst(view: View, allow: seq<Target>)
    ensures AllowOrder(view, allow) == [] <==> Lead(view, allow) == None
    ensures AllowOrder(view, allow) != [] ==> Lead(view, allow) == Some(AllowOrder(view, allow)[0])
  {
    if allow != [] {
      LeadComesFirst(view, allow[..|allow| - 1]);
    }
  }

  lemma {:induction false} AllowOrderKeys(view: View, allow: seq<Target>)
    ensures Distinct(AllowOrder(view, allow))
    ensures forall k :: k in AllowOrder(view, allow) <==> exists t :: t in allow && Enters(view, t) && EntryKey(t) == k
  {
    if allow != [] {
      var init, last := allow[..|allow| - 1], allow[|allow| - 1];
      AllowOrderKeys(view, init);
      assert allow == init + [last];
      assert forall t :: t in allow <==> t in init || t == last;
    }
  }

  lemma {:induction false} DenyOrderKeys(order: seq<string>, deny: seq<Target>)
    requires Distinct(order)
    ensures Distinct(DenyOrder(order, deny))
    ensures forall k :: k in DenyOrder(order, deny) <==> k in order && At([k]) !in deny
    ensures (forall k :: k in order ==> At([k]) !in deny) ==> DenyOrder(order, deny) == order
  {
    if deny != [] {
      var init, last := deny[..|deny| - 1], deny[|deny| - 1];
      DenyOrderKeys(order, init);
      assert deny == init + [last];
      assert forall t :: t in deny <==> t in init || t == last;
      if last.At? && |last.path| == 1 {
        assert last == At([last.path[0]]);
        WithoutKeepsDistinct(DenyOrder(order, init), last.path[0]);
      }
    }
  }

  /** The outgoing payload is again one event with its keys listed in order. */
  lemma OutIsOneEvent(view: View, order: seq<string>, dataKey: string, allow: seq<Target>, deny: seq<Target>)
    requires TreeView(view) && OneEvent(view, order, dataKey) && Proper(deny)
    ensures OneEvent(OutView(view, allow, deny), OutOrder(view, order, allow, deny), dataKey)
  {
    var out := OutView(view, allow, deny);
    var kept := if allow == [] then order else AllowOrder(view, allow);
    AllowOrderKeys(view, allow);
    assert Distinct(kept);
    DenyOrderKeys(kept, deny);
    forall k: string
      ensures k in OutOrder(view, order, allow, deny) <==> out([k]).Some?
      ensures k in OutOrder(view, order, allow, deny) ==> k in {dataKey, META}
    {
      TopLevelDenial(deny, k);
      KeptKeys(view, order, dataKey, allow, k);
    }
  }

  lemma TopLevelDenial(deny: seq<Target>, k: string)
    requires Proper(deny)
    ensures Denied(deny, [k]) <==> At([k]) in deny
  {
    if Denied(deny, [k]) {
      var t :| t in deny && t.At? && t.path <= [k];
      assert t == At([k]);
    }
    if At([k]) in deny {
      assert At([k]).path <= [k];
    }
  }

  lemma KeptKeys(view: View, order: seq<string>, dataKey: string, allow: seq<Target>, k: string)
    requires TreeView(view) && OneEvent(view, order, dataKey)
    ensures var kept := if allow == [] then order else AllowOrder(view, allow);
            && (k in kept <==> OutView(view, allow, [])([k]).Some?)
            && (k in kept ==> k in {dataKey, META})
  {
    if allow != [] {
      AllowOrderKeys(view, allow);
      forall t | t in allow && Enters(view, t) ensures view([EntryKey(t)]).Some? {
        if Hit(view, t) && |t.path| > 1 {
          assert [t.path[0]] < t.path;
        } else if Hit(view, t) {
          assert t.path == [t.path[0]];
        }
      }
      if OutView(view, allow, [])([k]).Some? {
        if t :| t in allow && Hit(view, t) && t.path <= [k] {
          assert t.path == [k] && EntryKey(t) == k;
        } else if t :| t in allow && Hit(view, t) && [k] < t.path {
          assert EntryKey(t) == k;
        } else {
          var t :| t in allow && Touched(view, t) && [k] == [t.key];
          assert EntryKey(t) == k;
        }
      }
      if k in AllowOrder(view, allow) {
        var t :| t in allow && Enters(view, t) && EntryKey(t) == k;
        if Hit(view, t) {
          if |t.path| == 1 { assert t.path == [k]; assert Covered(view, allow, [k]); }
          else { assert [k] < t.path; assert Stub(view, allow, [k]); }
        } else {
          assert Touched(view, t) && [k] == [t.key];
          assert Stub(view, allow, [k]);
        }
      }
    }
  }

  // ----- how one event is decided

  /** Both objects vote, and they disagree. */
  ghost predicate Conflict(view: View, dataKey: string) {
    Vote(view, dataKey).Some? && Vote(view, META).Some? && Vote(view, dataKey) != Vote(view, META)
  }

  /** The order matters only under a conflict, and then the first key decides. */
  lemma DecisionOfOneEvent(view: View, order: seq<string>, dataKey: string)
    requires TreeView(view) && OneEvent(view, order, dataKey)
    ensures Conflict(view, dataKey) ==> order != [] && Vote(view, order[0]) == Some(Decide(view, order))
    ensures !Conflict(view, dataKey) ==>
              Decide(view, order) == (if Vote(view, dataKey).Some? then Vote(view, dataKey).value
                                      else if Vote(view, META).Some? then Vote(view, META).value else true)
  {
    VotersArePresent(view, dataKey);
    VotersArePresent(view, META);
    if order != [] {
      assert order[0] in order;
    }
    if Vote(view, META) == None {
      OnlyVoter(view, order, dataKey);
    } else if Vote(view, dataKey) == None {
      OnlyVoter(view, order, META);
    }
  }

  lemma {:induction false} OnlyVoter(view: View, order: seq<string>, voter: string)
    requires forall k :: k in order && k != voter ==> Vote(view, k) == None
    ensures Decide(view, order) == if voter in order && Vote(view, voter).Some? then Vote(view, voter).value else true
  {
    if order != [] {
      OnlyVoter(view, order[1..], voter);
    }
  }

  lemma VotersArePresent(view: View, key: string)
    requires TreeView(view)
    ensures Vote(view, key).Some? ==> view([key]).Some?
  {
    assert [key] < [key, "is_passing"];
  }

  /** The entry keeps something, and no entry of the denylist reaches it through the raw payload. */
  ghost predicate Lasts(view: View, allow: seq<Target>, deny: seq<Target>, t: Target) {
    Enters(view, t) && (t.At? ==> !Erased(view, allow, deny, t.path))
  }

  /**
   Among the allow entries that match, the denylist reaches the first ones, up to
   one for the object that did not lead.
   */
  ghost predicate Overtaken(view: View, allow: seq<Target>, deny: seq<Target>) {
    exists m :: 0 <= m < |allow| && Overtakes(view, allow, deny, m)
  }

  ghost predicate Overtakes(view: View, allow: seq<Target>, deny: seq<Target>, m: nat)
    requires m < |allow|
  {
    && Lasts(view, allow, deny, allow[m])
    && Lead(view, allow) != Some(EntryKey(allow[m]))
    && forall j :: 0 <= j < m ==> !Lasts(view, allow, deny, allow[j])
  }

  /** The lead, found from the front. */
  lemma {:induction false} LeadIsFirst(view: View, allow: seq<Target>, m: nat)
    requires m < |allow| && Enters(view, allow[m]) && forall j :: 0 <= j < m ==> !Enters(view, allow[j])
    ensures Lead(view, allow) == Some(EntryKey(allow[m]))
    decreases |allow|
  {
    var init := allow[..|allow| - 1];
    if m < |init| {
      LeadIsFirst(view, init, m);
    } else {
      NoLead(view, init);
    }
  }

  lemma {:induction false} NoLead(view: View, allow: seq<Target>)
    requires forall t :: t in allow ==> !Enters(view, t)
    ensures Lead(view, allow) == None
  {
    if allow != [] {
      NoLead(view, allow[..|allow| - 1]);
    }
  }

  lemma {:induction false} FirstEntering(view: View, allow: seq<Target>) returns (m: nat)
    ensures m <= |allow| && (forall j :: 0 <= j < m ==> !Enters(view, allow[j]))
    ensures m < |allow| ==> Enters(view, allow[m])
  {
    if allow == [] || Enters(view, allow[0]) {
      m := 0;
    } else {
      var rest := FirstEntering(view, allow[1..]);
      m := rest + 1;
    }
  }

  /** What enters the next attempt is what lasts. */
  lemma EntersNext(view: View, allow: seq<Target>, deny: seq<Target>, t: Target)
    ensures Enters(RawAfter(view, allow, deny), t) <==> Lasts(view, allow, deny, t)
  {
    if t.Touch? {
      TopLevelSurvives(view, allow, deny, t.key);
    }
  }

  /** The lead of the next attempt, in terms of this one. */
  lemma LeadOvertaken(view: View, allow: seq<Target>, deny: seq<Target>)
    ensures Lead(RawAfter(view, allow, deny), allow) != Lead(view, allow) <==> Overtaken(view, allow, deny)
  {
    var next := RawAfter(view, allow, deny);
    forall t ensures Enters(next, t) <==> Lasts(view, allow, deny, t) {
      EntersNext(view, allow, deny, t);
    }
    var m := FirstEntering(next, allow);
    if m < |allow| {
      LeadIsFirst(next, allow, m);
      assert Lead(view, allow) != Some(EntryKey(allow[m])) ==> Overtakes(view, allow, deny, m);
      assert forall k :: 0 <= k < |allow| && Overtakes(view, allow, deny, k) ==> k == m;
    } else {
      NoLead(next, allow);
      NothingLeadsNothing(view, allow, deny);
    }
  }

  /** Something that matches always lasts: the shortest matching entry does. */
  lemma NothingLeadsNothing(view: View, allow: seq<Target>, deny: seq<Target>)
    requires forall t :: t in allow ==> !Lasts(view, allow, deny, t)
    ensures Lead(view, allow) == None
  {
    forall t | t in allow ensures !Enters(view, t) {
      if Hit(view, t) {
        ShortestHitSurvives(view, allow, deny, t);
        var s :| s in allow && Hit(view, s) && s.path <= t.path && Hit(RawAfter(view, allow, deny), s);
        EntersNext(view, allow, deny, s);
        assert false;
      }
    }
    NoLead(view, allow);
  }

  /**
   The decision of a retry is that of the first attempt, unless the data object
   and the metadata are both sent with a verdict and disagree, and the denylist
   reaches the entries that gave the leading object its place.
   */
  lemma RetryDecision(view: View, order: seq<string>, dataKey: string, allow: seq<Target>, deny: seq<Target>, n: nat)
    requires TreeView(view) && OneEvent(view, order, dataKey) && Proper(deny) && n >= 1
    ensures var raw := RawAt(view, allow, deny, n);
            var out := OutView(view, allow, deny);
            Decide(OutView(raw, allow, deny), OutOrder(raw, order, allow, deny))
              == Decide(out, OutOrder(view, order, allow, deny))
            <==> !Conflict(out, dataKey) || allow == [] || !Overtaken(view, allow, deny)
  {
    var raw, next := RawAt(view, allow, deny, n), RawAfter(view, allow, deny);
    var out := OutView(view, allow, deny);
    var first, later := OutOrder(view, order, allow, deny), OutOrder(raw, order, allow, deny);
    RawSettles(view, allow, deny, n);
    EveryAttemptSendsTheSame(view, allow, deny, n);
    SameAllowOrder(raw, next, allow);
    SameDecision(OutView(raw, allow, deny), out, later);
    OutIsTree(view, allow, deny);
    OutIsOneEvent(view, order, dataKey, allow, deny);
    RetryIsOneEvent(view, order, dataKey, allow, deny, n);
    DecisionOfOneEvent(out, first, dataKey);
    DecisionOfOneEvent(out, later, dataKey);
    LeadOvertaken(view, allow, deny);
    if Conflict(out, dataKey) && allow != [] {
      VotersArePresent(out, dataKey);
      VotersArePresent(out, META);
      TopLevelDenial(deny, dataKey);
      TopLevelDenial(deny, META);
      AllowOrderKeys(view, allow);
      AllowOrderKeys(next, allow);
      LeadComesFirst(view, allow);
      LeadComesFirst(next, allow);
      ConflictKeepsOrder(view, order, dataKey, allow, deny);
      RawAtIsTree(view, order, dataKey, allow, deny, n);
      ConflictKeepsOrder(raw, order, dataKey, allow, deny);
      assert first[0] in first && later[0] in later;
    }
  }

  /** When both objects are sent, the denylist drops no top-level key. */
  lemma ConflictKeepsOrder(view: View, order: seq<string>, dataKey: string, allow: seq<Target>, deny: seq<Target>)
    requires TreeView(view) && OneEvent(view, order, dataKey) && Proper(deny) && allow != []
    requires At([dataKey]) !in deny && At([META]) !in deny
    ensures OutOrder(view, order, allow, deny) == AllowOrder(view, allow)
  {
    AllowOrderKeys(view, allow);
    DenyOrderKeys(AllowOrder(view, allow), deny);
    forall k | k in AllowOrder(view, allow) ensures At([k]) !in deny {
      KeptKeys(view, order, dataKey, allow, k);
    }
  }

  /** Raw payloads stay trees with the same top-level keys. */
  lemma {:induction false} RawAtIsTree(view: View, order: seq<string>, dataKey: string, allow: seq<Target>,
                                       deny: seq<Target>, n: nat)
    requires TreeView(view) && OneEvent(view, order, dataKey)
    ensures TreeView(RawAt(view, allow, deny, n)) && OneEvent(RawAt(view, allow, deny, n), order, dataKey)
  {
    if n > 0 {
      RawAtIsTree(view, order, dataKey, allow, deny, n - 1);
      DamageKeepsTree(RawAt(view, allow, deny, n - 1), allow, deny);
      forall k: string ensures RawAt(view, allow, deny, n)([k]) == RawAt(view, allow, deny, n - 1)([k]) {
        TopLevelSurvives(RawAt(view, allow, deny, n - 1), allow, deny, k);
      }
    }
  }

  lemma DamageKeepsTree(view: View, allow: seq<Target>, deny: seq<Target>)
    requires TreeView(view)
    ensures TreeView(RawAfter(view, allow, deny))
  {
    var next := RawAfter(view, allow, deny);
    forall p: Path, q: Path | p < q && next(q).Some?
      ensures next(p) == Some(Node)
    {
      ErasureIsUpwardClosed(view, allow, deny, p, q);
    }
    assert !Erased(view, allow, deny, []);
  }

  lemma ErasureIsUpwardClosed(view: View, allow: seq<Target>, deny: seq<Target>, p: Path, q: Path)
    requires p <= q
    ensures Erased(view, allow, deny, p) ==> Erased(view, allow, deny, q)
  {
    if Erased(view, allow, deny, p) {
      var i :| Reaches(view, allow, deny, i) && deny[i].path <= p;
      assert deny[i].path <= q;
    }
  }

  lemma RetryIsOneEvent(view: View, order: seq<string>, dataKey: string, allow: seq<Target>, deny: seq<Target>, n: nat)
    requires TreeView(view) && OneEvent(view, order, dataKey) && Proper(deny)
    ensures OneEvent(OutView(view, allow, deny), OutOrder(RawAt(view, allow, deny, n), order, allow, deny), dataKey)
  {
    var raw := RawAt(view, allow, deny, n);
    RawAtIsTree(view, order, dataKey, allow, deny, n);
    OutIsOneEvent(raw, order, dataKey, allow, deny);
    EveryAttemptSendsTheSame(view, allow, deny, n);
    var a, b := OutView(raw, allow, deny), OutView(view, allow, deny);
    assert forall k: string :: a([k]) == b([k]);
  }

  // ----- the filter against the payload as it arrived

  /** The verdict of this object is kept by the allowlist and not denied. */
  ghost predicate VerdictKept(view: View, allow: seq<Target>, deny: seq<Target>, key: string) {
    Covered(view, allow, [key, "is_passing"]) && !Denied(deny, [key, "is_passing"])
  }

  ghost predicate SaysNo(view: View, allow: seq<Target>, deny: seq<Target>, key: string) {
    Vote(view, key) == Some(false) && VerdictKept(view, allow, deny, key)
  }

  /**
   Because the filter reads the shaped payload, a payload in which no object says
   "passing" is held back if and only if an object says "not passing" and its
   verdict is kept by the allowlist and not denied.
   */
  lemma FilterHonoured(view: View, order: seq<string>, dataKey: string, allow: seq<Target>, deny: seq<Target>)
    requires TreeView(view) && OneEvent(view, order, dataKey) && Proper(deny)
    requires Vote(view, dataKey) != Some(true) && Vote(view, META) != Some(true)
    ensures !ShouldSend(OutView(view, allow, deny), OutOrder(view, order, allow, deny), true)
       <==> SaysNo(view, allow, deny, dataKey) || SaysNo(view, allow, deny, META)
  {
    var out := OutView(view, allow, deny);
    OutIsTree(view, allow, deny);
    OutIsOneEvent(view, order, dataKey, allow, deny);
    DecisionOfOneEvent(out, OutOrder(view, order, allow, deny), dataKey);
    ShapedVote(view, allow, deny, dataKey);
    ShapedVote(view, allow, deny, META);
  }

  /** What is left of a verdict that is not "passing". */
  lemma ShapedVote(view: View, allow: seq<Target>, deny: seq<Target>, key: string)
    requires TreeView(view) && Vote(view, key) != Some(true)
    ensures Vote(OutView(view, allow, deny), key) ==
              if VerdictKept(view, allow, deny, key) then Vote(view, key) else None
  {
    var p := [key, "is_passing"];
    forall k: string
      ensures view([key, "is_passing", k]) == None ==> OutView(view, allow, deny)([key, "is_passing", k]) == None
    {
      NothingIsInvented(view, allow, deny, [key, "is_passing", k]);
    }
    forall t | t in allow && Hit(view, t) ensures !(p < t.path) {
      if p < t.path {
        EntryBelow(view, key, t);
      }
    }
  }

  /** Where an entry keeps something below the verdict, the verdict is an object that is not empty, hence "passing". */
  lemma EntryBelow(view: View, key: string, t: Target)
    requires TreeView(view) && Hit(view, t) && [key, "is_passing"] < t.path
    ensures Vote(view, key) == Some(true)
  {
    var q := [key, "is_passing", t.path[2]];
    assert q == t.path || q < t.path;
    assert view(q).Some?;
  }

  /** The position is shown: kept, or on the way to something kept, and not denied. */
  ghost predicate ShownAt(view: View, allow: seq<Target>, deny: seq<Target>, p: Path) {
    !Denied(deny, p) && (Covered(view, allow, p) || Stub(view, allow, p))
  }

  /** The verdict is an object that is shown, but none of its entries is. */
  ghost predicate Emptied(view: View, allow: seq<Target>, deny: seq<Target>, key: string) {
    && view([key, "is_passing"]) == Some(Node)
    && ShownAt(view, allow, deny, [key, "is_passing"])
    && forall k: string :: view([key, "is_passing", k]).Some? ==> !ShownAt(view, allow, deny, [key, "is_passing", k])
  }

  /**
   The filter decides on the shaped payload as it would on the raw one, if and
   only if the data object carries no verdict, or says "passing" by anything but
   an object that the lists empty, or says "not passing" by a verdict that the
   lists keep. The metadata carries none, as the receiver builds it.
   */
  lemma ShapingKeepsDecisionIff(view: View, order: seq<string>, dataKey: string, allow: seq<Target>, deny: seq<Target>)
    requires TreeView(view) && OneEvent(view, order, dataKey) && Proper(deny)
    requires view([META, "is_passing"]) == None
    ensures Decide(OutView(view, allow, deny), OutOrder(view, order, allow, deny)) == Decide(view, order)
       <==> match Vote(view, dataKey)
            case None => true
            case Some(true) => !Emptied(view, allow, deny, dataKey)
            case Some(false) => VerdictKept(view, allow, deny, dataKey)
  {
    var out := OutView(view, allow, deny);
    OutIsTree(view, allow, deny);
    OutIsOneEvent(view, order, dataKey, allow, deny);
    DecisionOfOneEvent(view, order, dataKey);
    DecisionOfOneEvent(out, OutOrder(view, order, allow, deny), dataKey);
    NothingIsInvented(view, allow, deny, [META, "is_passing"]);
    if Vote(view, dataKey) == Some(true) {
      ShapedYes(view, allow, deny, dataKey);
    } else {
      ShapedVote(view, allow, deny, dataKey);
    }
  }

  /** A verdict of "passing" turns into "not passing" exactly if it is emptied. */
  lemma ShapedYes(view: View, allow: seq<Target>, deny: seq<Target>, key: string)
    requires TreeView(view) && Vote(view, key) == Some(true)
    ensures Vote(OutView(view, allow, deny), key) == Some(false) <==> Emptied(view, allow, deny, key)
  {
    var out, p := OutView(view, allow, deny), [key, "is_passing"];
    forall k: string
      ensures out([key, "is_passing", k]).Some? <==>
                view([key, "is_passing", k]).Some? && ShownAt(view, allow, deny, [key, "is_passing", k])
    {
      if view([key, "is_passing", k]) == None {
        NothingIsInvented(view, allow, deny, [key, "is_passing", k]);
      }
    }
    if view(p).value.Leaf? {
      LeafIsNoStub(view, allow, p);
    }
  }

  /** Data object {"is_passing": {"a": 1}}. */
  function ObjectVerdict(): View {
    p =>
      if p == [] || p == ["d"] || p == ["d", "is_passing"] then Some(Node)
      else if p == ["d", "is_passing", "a"] then Some(Leaf(Num(1.0)))
      else None
  }

  lemma ObjectVerdictIsOneEvent()
    ensures TreeView(ObjectVerdict()) && OneEvent(ObjectVerdict(), ["d"], "d")
    ensures Vote(ObjectVerdict(), "d") == Some(true)
  {
    var view := ObjectVerdict();
    forall p: Path, q: Path | p < q && view(q).Some? ensures view(p) == Some(Node) {
      if |p| == 1 { assert p == [q[0]]; }
      if |p| == 2 { assert p == [q[0], q[1]]; }
    }
    forall k: string ensures k in ["d"] <==> view([k]).Some? {
      assert [k] == ["d"] <==> k == "d";
    }
    assert view(["d", "is_passing", "a"]).Some?;
    assert "d" != META;
  }

  /** With denylist ["data.is_passing.a"], a payload that says "passing" is held back. */
  lemma PassingCanBeFiltered()
    ensures var view, deny := ObjectVerdict(), ResolveAll(["data.is_passing.a"], "d");
            && TreeView(view) && OneEvent(view, ["d"], "d") && Decide(view, ["d"])
            && !ShouldSend(OutView(view, [], deny), OutOrder(view, ["d"], [], deny), true)
  {
    var view, deny := ObjectVerdict(), [At(["d", "is_passing", "a"])];
    ObjectVerdictIsOneEvent();
    DenyVerdictEntry();
    forall k: string ensures view(["d", "is_passing", k]).Some? ==> !ShownAt(view, [], deny, ["d", "is_passing", k]) {
      assert ["d", "is_passing", k] == ["d", "is_passing", "a"] ==> deny[0].path <= ["d", "is_passing", k];
    }
    assert !Denied(deny, ["d", "is_passing"]);
    assert [META, "is_passing"][0] != ["d", "is_passing"][0] by {
      assert |META| != |"d"|;
    }
    DecisionOfOneEvent(view, ["d"], "d");
    ShapingKeepsDecisionIff(view, ["d"], "d", [], deny);
  }

  lemma DenyVerdictEntry()
    ensures ResolveAll(["data.is_passing.a"], "d") == [At(["d", "is_passing", "a"])]
  {
    hide Split, Join, Resolve;
    SplitVerdictEntry();
    AliasAgrees("is_passing.a", "d");
    assert "data." + "is_passing.a" == "data.is_passing.a";
    assert ["d"] + ["is_passing", "a"] == ["d", "is_passing", "a"];
  }

  lemma SplitVerdictEntry()
    ensures Split("is_passing.a") == ["is_passing", "a"]
  {
    SplitJoin(["is_passing", "a"]);
    assert ["is_passing", "a"][1..] == ["a"];
    assert Join(["is_passing", "a"]) == "is_passing.a";
  }

  /** Below the top level, shaping adds nothing that was not there. */
  lemma NothingIsInvented(view: View, allow: seq<Target>, deny: seq<Target>, p: Path)
    requires TreeView(view) && |p| > 1 && view(p) == None
    ensures OutView(view, allow, deny)(p) == None
  {
    HitsAreInTheView(view, allow, p);
  }

  lemma LeafIsNoStub(view: View, allow: seq<Target>, p: Path)
    requires TreeView(view) && |p| > 1 && view(p).Some? && view(p).value.Leaf?
    ensures !Stub(view, allow, p)
  {
    HitsAreInTheView(view, allow, p);
  }

  /**
   Redelivering a snapshot, whatever order its keys come back in: when only the
   data object can carry a verdict and that verdict is not an object, the
   decision is the one already taken, so a delivered payload is not skipped.
   */
  lemma RedeliveryDecision(view: View, order: seq<string>, stored: seq<string>, dataKey: string,
                           allow: seq<Target>, deny: seq<Target>)
    requires TreeView(view) && OneEvent(view, order, dataKey) && Proper(deny)
    requires OneEvent(OutView(view, allow, deny), stored, dataKey)
    requires view([META, "is_passing"]) == None && view([dataKey, "is_passing"]) != Some(Node)
    ensures var out := OutView(view, allow, deny);
            Decide(OutView(out, allow, deny), OutOrder(out, stored, allow, deny))
              == Decide(out, OutOrder(view, order, allow, deny))
  {
    var out := OutView(view, allow, deny);
    var again := OutView(out, allow, deny);
    OutIsTree(view, allow, deny);
    OutIsTree(out, allow, deny);
    OutIsOneEvent(view, order, dataKey, allow, deny);
    OutIsOneEvent(out, stored, dataKey, allow, deny);
    VerdictRedelivered(view, allow, deny, META);
    VerdictRedelivered(view, allow, deny, dataKey);
    DecisionOfOneEvent(out, OutOrder(view, order, allow, deny), dataKey);
    DecisionOfOneEvent(again, OutOrder(out, stored, allow, deny), dataKey);
  }

  /** A verdict that is not an object stays what shaping has made of it. */
  lemma VerdictRedelivered(view: View, allow: seq<Target>, deny: seq<Target>, key: string)
    requires TreeView(view) && view([key, "is_passing"]) != Some(Node)
    ensures var out := OutView(view, allow, deny);
            && Vote(OutView(out, allow, deny), key) == Vote(out, key)
            && (view([key, "is_passing"]) == None ==> Vote(out, key) == None)
  {
    var out, p := OutView(view, allow, deny), [key, "is_passing"];
    OutIsTree(view, allow, deny);
    SnapshotRedelivery(view, allow, deny, p);
    if view(p) == None {
      NothingIsInvented(view, allow, deny, p);
    } else {
      LeafIsNoStub(view, allow, p);
    }
    assert out(p) != Some(Node);
  }

  // ----- both properties do fail somewhere

  /** Data object {"x": 1, "is_passing": dataVerdict}, metadata {"is_passing": metaVerdict}. */
  function TwoVerdicts(dataVerdict: bool, metaVerdict: bool): View {
    p =>
      if p == [] || p == ["d"] || p == [META] then Some(Node)
      else if p == ["d", "x"] then Some(Leaf(Num(1.0)))
      else if p == ["d", "is_passing"] then Some(Leaf(Bool(dataVerdict)))
      else if p == [META, "is_passing"] then Some(Leaf(Bool(metaVerdict)))
      else None
  }

  lemma TwoVerdictsIsOneEvent(dataVerdict: bool, metaVerdict: bool)
    ensures TreeView(TwoVerdicts(dataVerdict, metaVerdict))
    ensures OneEvent(TwoVerdicts(dataVerdict, metaVerdict), ["d", META], "d")
  {
    var view := TwoVerdicts(dataVerdict, metaVerdict);
    forall p: Path, q: Path | p < q && view(q).Some? ensures view(p) == Some(Node) {
      assert |p| <= 1;
      if |p| == 1 { assert p == [q[0]]; }
    }
    forall k: string ensures k in ["d", META] <==> view([k]).Some? {
      assert [k] != [] && [k] != ["d", "x"] && [k] != ["d", "is_passing"] && [k] != [META, "is_passing"];
      assert [k] == ["d"] <==> k == "d";
      assert [k] == [META] <==> k == META;
    }
  }

  lemma ExampleLists()
    ensures ResolveAll(["data.x", "event_metadata", "data"], "d") == [At(["d", "x"]), At([META]), At(["d"])]
    ensures ResolveAll(["data.x"], "d") == [At(["d", "x"])]
  {
    assert "data.x"[5..] == "x" && "x"[1..] == "" && Split("") == [""] && ['x'] + "" == "x";
    assert Split("x") == ["x"];
    assert ["d"] + ["x"] == ["d", "x"];
  }

  lemma ExampleDamage(view: View, allow: seq<Target>, deny: seq<Target>)
    requires view == TwoVerdicts(true, false)
    requires allow == [At(["d", "x"]), At([META]), At(["d"])] && deny == [At(["d", "x"])]
    ensures Lead(view, allow) == Some("d")
    ensures Lead(RawAfter(view, allow, deny), allow) == Some(META)
  {
    var x, meta, data := At(["d", "x"]), At([META]), At(["d"]);
    var next := RawAfter(view, allow, deny);
    assert Hit(view, x) && Hit(view, meta) && Hit(view, data);
    assert data in allow && data.path <= Parent(x.path);
    assert Reaches(view, allow, deny, 0) && deny[0].path <= x.path;
    assert next(x.path) == None;
    TopLevelSurvives(view, allow, deny, META);
    assert !Enters(next, x) && Enters(next, meta);
    LeadIsFirst(view, allow, 0);
    LeadIsFirst(next, allow, 1);
  }

  lemma ExampleConflict(view: View, allow: seq<Target>, deny: seq<Target>)
    requires view == TwoVerdicts(true, false)
    requires allow == [At(["d", "x"]), At([META]), At(["d"])] && deny == [At(["d", "x"])]
    ensures Vote(OutView(view, allow, deny), "d") == Some(true)
    ensures Vote(OutView(view, allow, deny), META) == Some(false)
  {
    var meta, data := At([META]), At(["d"]);
    assert Hit(view, meta) && Hit(view, data);
    assert data in allow && data.path <= ["d", "is_passing"];
    assert meta in allow && meta.path <= [META, "is_passing"];
    assert ["d", "x"][1] != ["d", "is_passing"][1] && ["d", "x"][1] != [META, "is_passing"][1];
    assert !Denied(deny, ["d", "is_passing"]) && !Denied(deny, [META, "is_passing"]);
    assert Covered(view, allow, ["d", "is_passing"]) && Covered(view, allow, [META, "is_passing"]);
    assert |META| != |"d"| && [META, "is_passing"][0] != ["d", "is_passing"][0];
    assert [META, "is_passing"][0] != ["d", "x"][0];
    assert view(["d", "is_passing"]) == Some(Leaf(Bool(true)));
    assert view([META, "is_passing"]) == Some(Leaf(Bool(false)));
  }

  /**
   With allowlist ["data.x", "event_metadata", "data"] and denylist ["data.x"]
   the first attempt is sent and its retry is filtered.
   */
  lemma RetryCanBeFiltered()
    ensures var view := TwoVerdicts(true, false);
            var allow := ResolveAll(["data.x", "event_metadata", "data"], "d");
            var deny := ResolveAll(["data.x"], "d");
            var next := RawAfter(view, allow, deny);
            && TreeView(view) && OneEvent(view, ["d", META], "d")
            && ShouldSend(OutView(view, allow, deny), OutOrder(view, ["d", META], allow, deny), true)
            && !ShouldSend(OutView(next, allow, deny), OutOrder(next, ["d", META], allow, deny), true)
  {
    var view, order := TwoVerdicts(true, false), ["d", META];
    var allow := [At(["d", "x"]), At([META]), At(["d"])];
    var deny := [At(["d", "x"])];
    TwoVerdictsIsOneEvent(true, false);
    ExampleLists();
    ExampleDamage(view, allow, deny);
    ExampleConflict(view, allow, deny);
    ExampleFirstAttempt(view, order, allow, deny);
    assert RawAt(view, allow, deny, 0) == view;
    assert RawAt(view, allow, deny, 1) == RawAfter(view, allow, deny);
    LeadOvertaken(view, allow, deny);
    RetryDecision(view, order, "d", allow, deny, 1);
  }

  lemma ExampleFirstAttempt(view: View, order: seq<string>, allow: seq<Target>, deny: seq<Target>)
    requires TreeView(view) && OneEvent(view, order, "d")
    requires allow != [] && deny == [At(["d", "x"])]
    requires Lead(view, allow) == Some("d")
    requires Vote(OutView(view, allow, deny), "d") == Some(true)
    ensures Decide(OutView(view, allow, deny), OutOrder(view, order, allow, deny))
  {
    LeadComesFirst(view, allow);
    ConflictKeepsOrder(view, order, "d", allow, deny);
  }
}
