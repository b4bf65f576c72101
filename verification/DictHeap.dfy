/**
 Python dicts as heap objects, and what nested lookups see through them.
 `Snap` freezes the fields of a set of dicts into a value, so that every
 statement about aliasing is a statement about values of type `Store`.
 */
module DictHeap {
  import opened Options
  import opened PayloadPaths
  import opened ShapeSpec

  datatype Val = Atomic(v: Atom) | Ref(node: Dict)

  type Store = map<Dict, map<string, Val>>

  class Dict {
    var fields: map<string, Val>
    var order: seq<string>  // keys in insertion order

    constructor ()
      ensures fields == map[] && order == []
    {
      fields, order := map[], [];
    }

    /** `d[key] = value`: a new key goes last, an existing one keeps its place. */
    method Put(key: string, value: Val)
      modifies this
      ensures fields == old(fields)[key := value]
      ensures order == if key in old(fields) then old(order) else old(order) + [key]
    {
      if key !in fields {
        order := order + [key];
      }
      fields := fields[key := value];
    }

    /** `d.pop(key, None)` */
    method Pop(key: string)
      modifies this
      ensures fields == old(fields) - {key}
      ensures order == Without(old(order), key)
    {
      order := Without(order, key);
      fields := fields - {key};
    }

    /** `d.copy()`: the sub-dicts stay shared. */
    method Copy() returns (d: Dict)
      ensures fresh(d) && d.fields == fields && d.order == order
    {
      d := new Dict();
      d.fields, d.order := fields, order;
    }

    /** `d.get(key)` */
    function Get(key: string): (v: Val)
      reads this
      ensures key in fields ==> v == fields[key]
      ensures key !in fields ==> v == Atomic(Null)
    {
      if key in fields then fields[key] else Atomic(Null)
    }
  }

  ghost function Snap(dicts: set<Dict>): Store
    reads dicts
  {
    map d | d in dicts :: d.fields
  }

  /** The value reached from v by following p through dicts. */
  ghost function ValAt(h: Store, v: Val, p: Path): Option<Val>
    decreases |p|
  {
    if p == [] then Some(v)
    else if v.Ref? && v.node in h && p[0] in h[v.node] then ValAt(h, h[v.node][p[0]], p[1..])
    else None
  }

  function CellOf(v: Val): Cell {
    match v
    case Atomic(a) => Leaf(a)
    case Ref(_) => Node
  }

  ghost function CellAt(h: Store, v: Val, p: Path): Option<Cell> {
    match ValAt(h, v, p)
    case None => None
    case Some(w) => Some(CellOf(w))
  }

  ghost function ViewOf(h: Store, root: Dict): View {
    p => CellAt(h, Ref(root), p)
  }

  /**
   Every reference is to a dict of the store that is labelled with its own
   position: one position per dict, hence no cycles and no sharing below a root.
   */
  ghost predicate Labelled(h: Store, pos: map<Dict, Path>) {
    && h.Keys <= pos.Keys
    && forall d, k :: d in h && k in h[d] && h[d][k].Ref? ==>
         h[d][k].node in h && pos[h[d][k].node] == pos[d] + [k]
  }

  // ----- lookups

  lemma {:induction false} ValAtConcat(h: Store, v: Val, p: Path, q: Path)
    ensures ValAt(h, v, p + q) == match ValAt(h, v, p) case None => None case Some(w) => ValAt(h, w, q)
    decreases |p|
  {
    if p == [] {
      assert p + q == q;
    } else if v.Ref? && v.node in h && p[0] in h[v.node] {
      assert (p + q)[1..] == p[1..] + q;
      ValAtConcat(h, h[v.node][p[0]], p[1..], q);
    }
  }

  lemma ValAtSnoc(h: Store, v: Val, p: Path, k: string)
    ensures ValAt(h, v, p + [k])
         == match ValAt(h, v, p)
            case None => None
            case Some(w) => if w.Ref? && w.node in h && k in h[w.node] then Some(h[w.node][k]) else None
  {
    ValAtConcat(h, v, p, [k]);
    match ValAt(h, v, p) {
      case None =>
      case Some(w) =>
        assert [k][1..] == [];
        if w.Ref? && w.node in h && k in h[w.node] {
          assert ValAt(h, h[w.node][k], []) == Some(h[w.node][k]);
        }
    }
  }

  /** Where a lookup fails, every longer one fails. */
  lemma ValAtPrefix(h: Store, v: Val, p: Path, q: Path)
    requires p <= q && ValAt(h, v, p) == None
    ensures ValAt(h, v, q) == None
  {
    assert q == p + q[|p|..];
    ValAtConcat(h, v, p, q[|p|..]);
  }

  /** Labels tell positions. */
  lemma {:induction false} LabelOf(h: Store, pos: map<Dict, Path>, d: Dict, p: Path, e: Dict)
    requires Labelled(h, pos) && d in h && ValAt(h, Ref(d), p) == Some(Ref(e))
    ensures e in h && pos[e] == pos[d] + p
    decreases |p|
  {
    if p != [] {
      var next := h[d][p[0]];
      assert next.Ref?;
      LabelOf(h, pos, next.node, p[1..], e);
      assert pos[d] + [p[0]] + p[1..] == pos[d] + p;
    }
  }

  /** What dicts show is a tree. */
  lemma ViewIsTree(h: Store, root: Dict)
    ensures TreeView(ViewOf(h, root))
  {
    var view := ViewOf(h, root);
    forall p: Path, q: Path | p < q && view(q).Some?
      ensures view(p) == Some(Node)
    {
      assert q == p + q[|p|..];
      ValAtConcat(h, Ref(root), p, q[|p|..]);
    }
  }

  // ----- one dict changes at one key

  /** h2 is h, possibly with new dicts, changed at most at key k of dict n. */
  ghost predicate ChangedAt(h: Store, h2: Store, n: Dict, k: string) {
    && n in h && h.Keys <= h2.Keys
    && (forall d :: d in h && d != n ==> h2[d] == h[d])
    && (forall j :: j != k ==> (j in h[n] <==> j in h2[n]) && (j in h[n] ==> h[n][j] == h2[n][j]))
  }

  /** A lookup that does not pass through n at k sees no change. */
  lemma {:induction false} LookupUnchanged(h: Store, h2: Store, n: Dict, k: string, v: Val, p: Path)
    requires ChangedAt(h, h2, n, k)
    requires forall d, j :: d in h && j in h[d] && h[d][j].Ref? ==> h[d][j].node in h
    requires v.Ref? ==> v.node in h
    requires forall i :: 0 <= i < |p| && p[i] == k ==> ValAt(h, v, p[..i]) != Some(Ref(n))
    ensures ValAt(h2, v, p) == ValAt(h, v, p)
    decreases |p|
  {
    if p != [] && v.Ref? {
      if v.node == n {
        assert p[..0] == [] && ValAt(h, v, p[..0]) == Some(v);
        assert p[0] != k;
      }
      if p[0] in h[v.node] {
        var next := h[v.node][p[0]];
        forall i | 0 <= i < |p[1..]| && p[1..][i] == k
          ensures ValAt(h, next, p[1..][..i]) != Some(Ref(n))
        {
          assert p[..i + 1][1..] == p[1..][..i];
          assert ValAt(h, v, p[..i + 1]) == ValAt(h, next, p[1..][..i]);
        }
        LookupUnchanged(h, h2, n, k, next, p[1..]);
      }
    }
  }

  /** In a labelled store, only paths that go through position pos[n] + [k] can see the change. */
  lemma ElsewhereUnchanged(h: Store, h2: Store, pos: map<Dict, Path>, n: Dict, k: string, root: Dict, p: Path)
    requires Labelled(h, pos) && ChangedAt(h, h2, n, k) && root in h && pos[root] <= pos[n]
    requires !(pos[n][|pos[root]|..] + [k] <= p) || ValAt(h, Ref(root), pos[n][|pos[root]|..]) != Some(Ref(n))
    ensures ValAt(h2, Ref(root), p) == ValAt(h, Ref(root), p)
  {
    forall i | 0 <= i < |p| && ValAt(h, Ref(root), p[..i]) == Some(Ref(n))
      ensures p[..i] == pos[n][|pos[root]|..]
      ensures pos[n][|pos[root]|..] + [p[i]] <= p
    {
      LabelOf(h, pos, root, p[..i], n);
      assert p[..i] + [p[i]] == p[..i + 1];
    }
    LookupUnchanged(h, h2, n, k, Ref(root), p);
  }

  /** A value that sits at or below position pos[n] + [k] does not see the change. */
  lemma BelowUnchanged(h: Store, h2: Store, pos: map<Dict, Path>, n: Dict, k: string, v: Val, p: Path)
    requires Labelled(h, pos) && ChangedAt(h, h2, n, k)
    requires v.Ref? ==> v.node in h && |pos[v.node]| > |pos[n]|
    ensures ValAt(h2, v, p) == ValAt(h, v, p)
  {
    forall i, e | 0 <= i < |p| && v.Ref? && ValAt(h, v, p[..i]) == Some(Ref(e))
      ensures e in h && |pos[e]| >= |pos[v.node]|
    {
      LabelOf(h, pos, v.node, p[..i], e);
    }
    LookupUnchanged(h, h2, n, k, v, p);
  }
}
