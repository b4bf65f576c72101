/** The passing filter in plain values: what counts as a verdict, whose verdict counts, and in which order they come. */
module VerdictLaws {
  import opened Options
  import opened PayloadPaths
  import opened ShapeSpec
  import opened PassDecision

  /** Without only_on_passing, everything is sent, whatever the payload says. */
  lemma SwitchedOffSends(view: View, order: seq<string>)
    ensures ShouldSend(view, order, false)
  {}

  /**
   What an object says about passing, for every value that can stand under
   is_passing: null and absence say nothing, false, zero, the empty string and
   what is empty say "not passing", and everything else says "passing".
   */
  lemma VerdictExactly(view: View, key: string)
    ensures match view([key, "is_passing"])
            case None => Vote(view, key) == None
            case Some(Leaf(Null)) => Vote(view, key) == None
            case Some(Leaf(Bool(b))) => Vote(view, key) == Some(b)
            case Some(Leaf(Num(r))) => Vote(view, key) == Some(r < 0.0 || 0.0 < r)
            case Some(Leaf(Text(s))) => Vote(view, key) == Some(|s| > 0)
            case Some(Leaf(Array(items))) => Vote(view, key) == Some(|items| > 0)
            case Some(Leaf(Object(_))) => true // no atom
            case Some(Node) => Vote(view, key) != None
                               && (Vote(view, key) == Some(false)
                                   <==> forall k: string :: view([key, "is_passing", k]) == None)
  {}

  /** This object is the first to have a verdict, and this is what it says. */
  ghost predicate Rules(view: View, order: seq<string>, i: nat, verdict: bool) {
    && i < |order|
    && Vote(view, order[i]) == Some(verdict)
    && forall j :: 0 <= j < i ==> Vote(view, order[j]) == None
  }

  /** With only_on_passing, a payload is held back exactly if the first object with a verdict says "not passing". */
  lemma {:induction false} FirstVerdictDecides(view: View, order: seq<string>)
    ensures !ShouldSend(view, order, true) <==> exists i :: Rules(view, order, i, false)
    ensures (exists i :: Rules(view, order, i, true)) ==> ShouldSend(view, order, true)
  {
    if order != [] {
      var rest := order[1..];
      FirstVerdictDecides(view, rest);
      if Vote(view, order[0]) == None {
        forall i: nat, verdict | Rules(view, rest, i, verdict) ensures Rules(view, order, i + 1, verdict) {
          assert forall j :: 0 < j < i + 1 ==> order[j] == rest[j - 1];
        }
        forall i: nat, verdict | Rules(view, order, i, verdict) ensures i > 0 && Rules(view, rest, i - 1, verdict) {
          assert forall j :: 0 <= j < i - 1 ==> rest[j] == order[j + 1];
        }
      } else {
        assert Rules(view, order, 0, Vote(view, order[0]).value);
        forall i: nat, verdict | Rules(view, order, i, verdict) ensures i == 0 {}
      }
    }
  }

  // ----- the order in which objects are asked

  ghost predicate Before(order: seq<string>, a: string, b: string) {
    exists i, j :: 0 <= i < j < |order| && order[i] == a && order[j] == b
  }

  /** Some entry keeps or opens something under the key. */
  ghost predicate Brought(view: View, allow: seq<Target>, key: string) {
    exists t :: t in allow && Enters(view, t) && EntryKey(t) == key
  }

  /** Going through the list, the one key is brought while the other is not yet. */
  ghost predicate BroughtFirst(view: View, allow: seq<Target>, a: string, b: string) {
    exists n :: 0 <= n <= |allow| && Brought(view, allow[..n], a) && !Brought(view, allow[..n], b)
  }

  /**
   The kept keys come in the order in which entries of the allowlist bring them,
   not in that of the payload.
   */
  lemma {:induction false} AllowedInOrder(view: View, allow: seq<Target>, a: string, b: string)
    requires a != b
    ensures Before(AllowOrder(view, allow), a, b) <==> Brought(view, allow, b) && BroughtFirst(view, allow, a, b)
  {
    if allow != [] {
      var init, last := allow[..|allow| - 1], allow[|allow| - 1];
      AllowedInOrder(view, init, a, b);
      BroughtNext(view, init, last, a, b);
      AllowOrderKeys(view, init);
      AllowOrderKeys(view, allow);
      assert allow == init + [last];
      if Enters(view, last) {
        AppendBefore(AllowOrder(view, init), EntryKey(last), a, b);
      }
    }
  }

  lemma BroughtNext(view: View, init: seq<Target>, last: Target, a: string, b: string)
    ensures Brought(view, init + [last], b) <==> Brought(view, init, b) || (Enters(view, last) && EntryKey(last) == b)
    ensures Brought(view, init + [last], b) ==>
              (BroughtFirst(view, init + [last], a, b) <==> BroughtFirst(view, init, a, b))
    ensures !Brought(view, init, b) ==> (BroughtFirst(view, init, a, b) <==> Brought(view, init, a))
  {
    var allow := init + [last];
    assert forall t :: t in allow <==> t in init || t == last;
    assert forall n :: 0 <= n <= |init| ==> allow[..n] == init[..n];
    assert allow[..|allow|] == allow && init[..|init|] == init;
  }

  lemma AppendBefore(order: seq<string>, key: string, a: string, b: string)
    requires a != b
    ensures Before(Append(order, key), a, b) <==> Before(order, a, b) || (key == b && b !in order && a in order)
  {
    var longer := order + [key];
    if Before(order, a, b) {
      var i, j :| 0 <= i < j < |order| && order[i] == a && order[j] == b;
      assert longer[i] == a && longer[j] == b;
    }
    if key == b && b !in order && a in order {
      var i :| 0 <= i < |order| && order[i] == a;
      assert longer[i] == a && longer[|order|] == b;
    }
  }

  /** A denylist leaves the others in the order it finds them. */
  lemma {:induction false} DeniedInOrder(order: seq<string>, deny: seq<Target>, a: string, b: string)
    requires a != b && Distinct(order)
    ensures Before(DenyOrder(order, deny), a, b)
       <==> Before(order, a, b) && At([a]) !in deny && At([b]) !in deny
  {
    if deny != [] {
      var init, last := deny[..|deny| - 1], deny[|deny| - 1];
      DeniedInOrder(order, init, a, b);
      assert deny == init + [last];
      if last.At? && |last.path| == 1 {
        assert last == At([last.path[0]]);
        WithoutBefore(DenyOrder(order, init), last.path[0], a, b);
      }
    }
  }

  lemma {:induction false} WithoutBefore(order: seq<string>, key: string, a: string, b: string)
    requires a != b
    ensures Before(Without(order, key), a, b) <==> Before(order, a, b) && a != key && b != key
  {
    if order != [] {
      WithoutBefore(order[1..], key, a, b);
      ConsBefore(order[0], order[1..], a, b);
      ConsBefore(order[0], Without(order[1..], key), a, b);
      assert order == [order[0]] + order[1..];
    }
  }

  lemma ConsBefore(key: string, rest: seq<string>, a: string, b: string)
    requires a != b
    ensures Before([key] + rest, a, b) <==> Before(rest, a, b) || (key == a && b in rest)
  {
    var longer := [key] + rest;
    if Before(rest, a, b) {
      var i, j :| 0 <= i < j < |rest| && rest[i] == a && rest[j] == b;
      assert longer[i + 1] == a && longer[j + 1] == b;
    }
    if key == a && b in rest {
      var j :| 0 <= j < |rest| && rest[j] == b;
      assert longer[0] == a && longer[j + 1] == b;
    }
    if Before(longer, a, b) {
      var i, j :| 0 <= i < j < |longer| && longer[i] == a && longer[j] == b;
      assert rest[j - 1] == b && (i > 0 ==> rest[i - 1] == a);
    }
  }

  /** Without lists, the payload goes out as it is, its keys in their order, and its own verdict decides. */
  lemma NothingConfigured(view: View, order: seq<string>, onlyOnPassing: bool)
    requires TreeView(view)
    ensures Same(OutView(view, [], []), view) && OutOrder(view, order, [], []) == order
    ensures ShouldSend(OutView(view, [], []), OutOrder(view, order, [], []), onlyOnPassing)
       <==> ShouldSend(view, order, onlyOnPassing)
  {
    SameDecision(OutView(view, [], []), view, order);
  }
}
