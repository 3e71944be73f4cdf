/**
 * The category entity and the persisted store of categories, as values.
 *
 * A Category row holds a name and an optional parent id. The store is an
 * arena: a map from id to row, plus the next id the store will assign
 * (identity generation). The children collection of the entity is not
 * stored: it is derived from the parent links, in ascending id order.
 */
module Categories {
  import opened Wrappers
  import opened Seqs

  type Id = nat

  /** One persisted row: the `name` and `parent` columns of a category. */
  datatype Category = Category(name: string, parent: Option<Id>)

  /** All persisted categories and the next identity value. */
  datatype Store = Store(cats: map<Id, Category>, nextId: Id)

  /** A category as `findAll` yields it: id, name and its populated children. */
  datatype Tree = Tree(id: Id, name: string, children: seq<Tree>)

  /** The empty store. */
  function EmptyStore(): Store
  {
    Store(map[], 0)
  }

  /** `new Category(name)`: a category with a name and no parent. */
  function NewCategory(name: string): Category
  {
    Category(name, None)
  }

  /** `setParent`: the same category with its parent link replaced. */
  function SetParent(c: Category, parent: Option<Id>): (r: Category)
    ensures r.parent == parent
    ensures r.name == c.name
  {
    c.(parent := parent)
  }

  /**
   * The store invariant: every id was assigned by the store (is below
   * `nextId`), and every parent link points at a stored category created
   * earlier. The second half means there are no orphans and no cycles.
   */
  ghost predicate Valid(s: Store)
  {
    && (forall k | k in s.cats :: k < s.nextId)
    && (forall k {:trigger s.cats[k]} | k in s.cats && s.cats[k].parent.Some? ::
          s.cats[k].parent.value in s.cats && s.cats[k].parent.value < k)
  }

  /** The stored ids below `n`, in ascending order. */
  function IdsBelow(cats: map<Id, Category>, n: nat): (r: seq<Id>)
    ensures forall i | 0 <= i < |r| :: r[i] in cats && r[i] < n
    ensures forall k {:trigger k in r} | k in cats && k < n :: k in r
    ensures forall i, j | 0 <= i < j < |r| :: r[i] < r[j]
  {
    if n == 0 then []
    else IdsBelow(cats, n - 1) + (if n - 1 in cats then [n - 1] else [])
  }

  /** The stored ids below `n` whose parent is `p`, in ascending order. */
  function ChildrenBelow(cats: map<Id, Category>, p: Id, n: nat): (r: seq<Id>)
    ensures forall i | 0 <= i < |r| :: r[i] in cats && r[i] < n && cats[r[i]].parent == Some(p)
    ensures forall k {:trigger k in r} | k in cats && k < n && cats[k].parent == Some(p) :: k in r
    ensures forall i, j | 0 <= i < j < |r| :: r[i] < r[j]
  {
    if n == 0 then []
    else
      ChildrenBelow(cats, p, n - 1)
      + (if n - 1 in cats && cats[n - 1].parent == Some(p) then [n - 1] else [])
  }

  /** Every stored id, ascending: the order `findAll` is taken to return. */
  function AllIds(s: Store): seq<Id>
  {
    IdsBelow(s.cats, s.nextId)
  }

  /**
   * The `children` of category `p`: the inverse side of the parent link,
   * exactly the stored categories whose parent is `p`, ascending by id.
   */
  function ChildIds(s: Store, p: Id): (r: seq<Id>)
    requires Valid(s)
    ensures forall k {:trigger k in r} :: k in r <==> k in s.cats && s.cats[k].parent == Some(p)
    ensures forall i, j | 0 <= i < j < |r| :: r[i] < r[j]
  {
    ChildrenBelow(s.cats, p, s.nextId)
  }

  /** The lowest stored id below `n` whose name is `name`, if any. */
  function FirstNamed(cats: map<Id, Category>, name: string, n: nat): (r: Option<Id>)
    ensures r.None? <==> forall k | k in cats && k < n :: cats[k].name != name
    ensures r.Some? ==> r.value in cats && r.value < n && cats[r.value].name == name
    ensures r.Some? ==> forall k | k in cats && k < r.value :: cats[k].name != name
  {
    if n == 0 then None
    else
      match FirstNamed(cats, name, n - 1)
      case Some(k) => Some(k)
      case None => if n - 1 in cats && cats[n - 1].name == name then Some(n - 1) else None
  }

  /**
   * `findByName`: exact, case-sensitive match. Where several categories
   * share the name, the one with the lowest id is returned.
   */
  function FindByName(s: Store, name: string): (r: Option<Id>)
    requires Valid(s)
    ensures r.None? <==> forall k | k in s.cats :: s.cats[k].name != name
    ensures r.Some? ==> r.value in s.cats && s.cats[r.value].name == name
    ensures r.Some? ==> forall k | k in s.cats && k < r.value :: s.cats[k].name != name
  {
    FirstNamed(s.cats, name, s.nextId)
  }

  /** `save` of a new category: it is stored under the next identity value. */
  function Save(s: Store, c: Category): Store
  {
    Store(s.cats[s.nextId := c], s.nextId + 1)
  }

  /** Is `k` the category `a` itself or one of its descendants? */
  function InSubtree(cats: map<Id, Category>, k: Id, a: Id): bool
    requires k in cats
    decreases k
  {
    k == a
    || match cats[k].parent
       case None => false
       case Some(p) => p in cats && p < k && InSubtree(cats, p, a)
  }

  /** `delete` with cascade ALL and orphan removal: `a` and its whole subtree go. */
  function Delete(s: Store, a: Id): Store
  {
    Store(map k | k in s.cats && !InSubtree(s.cats, k, a) :: s.cats[k], s.nextId)
  }

  /** The category `k` with its children populated, recursively. */
  function BuildTree(s: Store, k: Id): (t: Tree)
    requires Valid(s) && k in s.cats
    ensures t.id == k && t.name == s.cats[k].name
    ensures |t.children| == |ChildIds(s, k)|
    ensures forall i | 0 <= i < |t.children| ::
      ChildIds(s, k)[i] in s.cats && t.children[i] == BuildTree(s, ChildIds(s, k)[i])
    decreases s.nextId - k
  {
    var cs := ChildIds(s, k);
    Tree(k, s.cats[k].name, seq(|cs|, i requires 0 <= i < |cs| => BuildTree(s, cs[i])))
  }

  /** `findAll`: every stored category, roots and children alike, each populated. */
  function FindAll(s: Store): seq<Tree>
    requires Valid(s)
  {
    TreesOf(s, AllIds(s))
  }

  /** The populated trees of the given stored categories, in the given order. */
  function TreesOf(s: Store, ids: seq<Id>): (r: seq<Tree>)
    requires Valid(s) && forall i | 0 <= i < |ids| :: ids[i] in s.cats
    ensures |r| == |ids|
  {
    if ids == [] then []
    else TreesOf(s, ids[..|ids| - 1]) + [BuildTree(s, ids[|ids| - 1])]
  }

  // ---- Properties of the store operations ----

  /** The empty store satisfies the invariant and `findAll` on it is empty. */
  lemma EmptyStoreValid()
    ensures Valid(EmptyStore()) && FindAll(EmptyStore()) == []
  {
  }

  /**
   * `save`: the new category gets a fresh id, every existing category is
   * unchanged and the invariant is kept.
   */
  lemma SaveFacts(s: Store, c: Category)
    requires Valid(s)
    requires c.parent.Some? ==> c.parent.value in s.cats
    ensures s.nextId !in s.cats
    ensures Valid(Save(s, c))
    ensures Save(s, c).cats.Keys == s.cats.Keys + {s.nextId}
    ensures Save(s, c).cats[s.nextId] == c
    ensures forall k | k in s.cats :: Save(s, c).cats[k] == s.cats[k]
  {
    var r := Save(s, c);
    forall k | k in r.cats && r.cats[k].parent.Some?
      ensures r.cats[k].parent.value in r.cats && r.cats[k].parent.value < k
    {
      if k != s.nextId {
        assert r.cats[k] == s.cats[k];
      }
    }
  }

  /** `findAll` after `save` lists the earlier categories, then the new one. */
  lemma SaveAppendsToFindAll(s: Store, c: Category)
    requires Valid(s)
    ensures AllIds(Save(s, c)) == AllIds(s) + [s.nextId]
  {
    var r := Save(s, c);
    IdsBelowUnchanged(s.cats, r.cats, s.nextId);
  }

  /** `findAll` lists every stored category exactly once. */
  lemma AllIdsComplete(s: Store)
    requires Valid(s)
    ensures |AllIds(s)| == |s.cats|
    ensures forall k {:trigger k in AllIds(s)} :: k in AllIds(s) <==> k in s.cats
  {
    var ids := AllIds(s);
    var asSet := set i | 0 <= i < |ids| :: ids[i];
    forall k | k in s.cats ensures k in asSet {
      assert k in ids;
    }
    assert asSet == s.cats.Keys;
    DistinctCard(ids);
  }

  /** Tree `i` of `TreesOf` is the populated tree of the `i`-th id. */
  lemma {:induction false} TreesOfAt(s: Store, ids: seq<Id>, i: nat)
    requires Valid(s) && forall j | 0 <= j < |ids| :: ids[j] in s.cats
    requires i < |ids|
    ensures TreesOf(s, ids)[i] == BuildTree(s, ids[i])
  {
    if i < |ids| - 1 {
      TreesOfAt(s, ids[..|ids| - 1], i);
    }
  }

  /**
   * `findAll` yields one populated tree per stored category, roots and
   * non-roots alike, in ascending id order.
   */
  lemma FindAllTrees(s: Store)
    requires Valid(s)
    ensures |FindAll(s)| == |s.cats|
    ensures forall i | 0 <= i < |FindAll(s)| ::
              AllIds(s)[i] in s.cats && FindAll(s)[i] == BuildTree(s, AllIds(s)[i])
    ensures forall k | k in s.cats :: exists i | 0 <= i < |FindAll(s)| :: FindAll(s)[i].id == k
  {
    var ids := AllIds(s);
    AllIdsComplete(s);
    forall i | 0 <= i < |ids|
      ensures FindAll(s)[i] == BuildTree(s, ids[i])
    {
      TreesOfAt(s, ids, i);
    }
    forall k | k in s.cats
      ensures exists i | 0 <= i < |FindAll(s)| :: FindAll(s)[i].id == k
    {
      assert k in ids;
      var i :| 0 <= i < |ids| && ids[i] == k;
      assert FindAll(s)[i].id == k;
    }
  }

  /** A strictly ascending sequence has as many elements as its set of elements. */
  lemma {:induction false} DistinctCard(ids: seq<Id>)
    requires forall i, j | 0 <= i < j < |ids| :: ids[i] < ids[j]
    ensures |set i | 0 <= i < |ids| :: ids[i]| == |ids|
  {
    if ids != [] {
      var front := ids[..|ids| - 1];
      DistinctCard(front);
      var a := set i | 0 <= i < |front| :: front[i];
      var b := set i | 0 <= i < |ids| :: ids[i];
      assert b == a + {ids[|ids| - 1]};
      assert ids[|ids| - 1] !in a;
    }
  }

  /** Ids below `n` do not see entries at or above `n`. */
  lemma {:induction false} IdsBelowUnchanged(a: map<Id, Category>, b: map<Id, Category>, n: nat)
    requires forall k | k < n :: (k in a <==> k in b)
    ensures IdsBelow(a, n) == IdsBelow(b, n)
  {
    if n > 0 {
      IdsBelowUnchanged(a, b, n - 1);
    }
  }

  /** A freshly saved category has an empty children list. */
  lemma SavedHasNoChildren(s: Store, c: Category)
    requires Valid(s)
    requires c.parent.Some? ==> c.parent.value in s.cats
    ensures Valid(Save(s, c)) && ChildIds(Save(s, c), s.nextId) == []
  {
    SaveFacts(s, c);
    var r := Save(s, c);
    NoChildrenBelow(r.cats, s.nextId, r.nextId);
  }

  /** Where no category below `n` names `p` as parent, `p` has no children below `n`. */
  lemma {:induction false} NoChildrenBelow(cats: map<Id, Category>, p: Id, n: nat)
    requires forall k | k in cats && k < n :: cats[k].parent != Some(p)
    ensures ChildrenBelow(cats, p, n) == []
  {
    if n > 0 {
      NoChildrenBelow(cats, p, n - 1);
    }
  }

  /** Only a stored category has a subtree: `delete` of an unknown id changes nothing. */
  lemma {:induction false} SubtreeRootStored(cats: map<Id, Category>, k: Id, a: Id)
    requires k in cats && InSubtree(cats, k, a)
    ensures a in cats
    decreases k
  {
    if k != a {
      SubtreeRootStored(cats, cats[k].parent.value, a);
    }
  }

  /** `delete` of an id that is not stored leaves the store as it was. */
  lemma DeleteAbsent(s: Store, a: Id)
    requires a !in s.cats
    ensures Delete(s, a) == s
  {
    forall k | k in s.cats ensures !InSubtree(s.cats, k, a) {
      if InSubtree(s.cats, k, a) {
        SubtreeRootStored(s.cats, k, a);
      }
    }
  }

  /** Being in the subtree of `c` whose parent is `a` puts `k` in the subtree of `a`. */
  lemma {:induction false} SubtreeOfChild(cats: map<Id, Category>, k: Id, c: Id, a: Id)
    requires k in cats && c in cats && cats[c].parent == Some(a) && a in cats && a < c
    requires InSubtree(cats, k, c)
    ensures InSubtree(cats, k, a)
    decreases k
  {
    if k != c {
      var p := cats[k].parent.value;
      SubtreeOfChild(cats, p, c, a);
    }
  }

  /**
   * The subtree of `a` is `a` together with the subtrees of its children:
   * the cascade through `children` reaches exactly the categories whose parent
   * chain reaches `a`.
   */
  lemma {:induction false} SubtreeStep(s: Store, k: Id, a: Id)
    requires Valid(s) && k in s.cats && a in s.cats
    ensures InSubtree(s.cats, k, a) <==>
      (k == a || exists c | c in ChildIds(s, a) :: InSubtree(s.cats, k, c))
    decreases k
  {
    if k != a && InSubtree(s.cats, k, a) {
      var p := s.cats[k].parent.value;
      if p == a {
        assert k in ChildIds(s, a) && InSubtree(s.cats, k, k);
      } else {
        SubtreeStep(s, p, a);
        var c :| c in ChildIds(s, a) && InSubtree(s.cats, p, c);
        assert InSubtree(s.cats, k, c);
      }
    }
    if k != a && (exists c | c in ChildIds(s, a) :: InSubtree(s.cats, k, c)) {
      var c :| c in ChildIds(s, a) && InSubtree(s.cats, k, c);
      SubtreeOfChild(s.cats, k, c, a);
    }
  }

  /**
   * `delete(a)` with the cascade: exactly `a` and its descendants leave the
   * store, everything else stays unchanged, and no orphan remains.
   */
  lemma DeleteFacts(s: Store, a: Id)
    requires Valid(s) && a in s.cats
    ensures var r := Delete(s, a);
      && Valid(r)
      && a !in r.cats
      && (forall k :: k in r.cats <==> k in s.cats && !InSubtree(s.cats, k, a))
      && (forall k | k in r.cats :: r.cats[k] == s.cats[k])
      && (forall k | k in s.cats && s.cats[k].parent == Some(a) :: k !in r.cats)
  {
    var r := Delete(s, a);
    forall k | k in r.cats && r.cats[k].parent.Some?
      ensures r.cats[k].parent.value in r.cats
    {
      var p := s.cats[k].parent.value;
      assert !InSubtree(s.cats, k, a);
    }
  }

  // ---- Properties of the populated trees ----

  /** The number of categories in a populated tree: the node and all its descendants. */
  function Size(t: Tree): nat
  {
    1 + Sum(seq(|t.children|, i requires 0 <= i < |t.children| => Size(t.children[i])))
  }

  /** Does category `k` occur in the populated tree `t`? */
  predicate InTree(t: Tree, k: Id)
  {
    t.id == k || exists i | 0 <= i < |t.children| :: InTree(t.children[i], k)
  }

  /**
   * The tree that `findAll` yields for `a` holds exactly the subtree of `a`:
   * the categories whose parent chain reaches `a`.
   */
  lemma {:induction false} BuildTreeIsSubtree(s: Store, a: Id, k: Id)
    requires Valid(s) && a in s.cats
    ensures InTree(BuildTree(s, a), k) <==> k in s.cats && InSubtree(s.cats, k, a)
    decreases s.nextId - a
  {
    var t := BuildTree(s, a);
    var cs := ChildIds(s, a);
    forall i | 0 <= i < |cs|
      ensures InTree(t.children[i], k) <==> k in s.cats && InSubtree(s.cats, k, cs[i])
    {
      assert t.children[i] == BuildTree(s, cs[i]);
      BuildTreeIsSubtree(s, cs[i], k);
    }
    if k in s.cats {
      SubtreeStep(s, k, a);
      if InSubtree(s.cats, k, a) && k != a {
        var c :| c in cs && InSubtree(s.cats, k, c);
        var i :| 0 <= i < |cs| && cs[i] == c;
        assert InTree(t.children[i], k);
      }
    }
    if InTree(t, k) && k != a {
      var i :| 0 <= i < |t.children| && InTree(t.children[i], k);
      assert cs[i] in cs;
    }
  }
}
