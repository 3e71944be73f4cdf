/**
 * A worked scenario: a root "A" with one child "B". `findAll` returns both
 * categories as trees, so "B" is rendered and exported twice: once under
 * "A" and once as a tree of its own.
 */
module Scenario {
  import opened Wrappers
  import opened Seqs
  import opened Categories
  import opened Service
  import opened ViewTree

  /** The store after `/addElement A`. */
  function RootOnly(): Store
  {
    Store(map[0 := Category("A", None)], 1)
  }

  /** The store after `/addElement A` then `/addElement A B`. */
  function RootAndChild(): Store
  {
    Store(map[0 := Category("A", None), 1 := Category("B", Some(0))], 2)
  }

  /** The two commands produce exactly these stores. */
  lemma CommandsBuildStores()
    ensures AddCategoryOp(EmptyStore(), "A") == RootOnly()
    ensures Valid(RootOnly())
    ensures AddChildOp(RootOnly(), "A", "B") == (RootAndChild(), true)
  {
    EmptyStoreValid();
    var s := RootOnly();
    assert s.cats[0].name == "A";
    assert FindByName(s, "A") == Some(0);
  }

  /** The ids and children of the root-and-child store. */
  lemma IdsOfRootAndChild()
    ensures Valid(RootAndChild())
    ensures AllIds(RootAndChild()) == [0, 1]
    ensures ChildIds(RootAndChild(), 0) == [1]
    ensures ChildIds(RootAndChild(), 1) == []
  {
    var s := RootAndChild();
    assert IdsBelow(s.cats, 1) == [0];
    assert ChildrenBelow(s.cats, 1, 1) == [];
    assert ChildrenBelow(s.cats, 0, 1) == [];
  }

  /** The trees `findAll` yields for the root-and-child store. */
  lemma TreesOfRootAndChild()
    ensures Valid(RootAndChild())
    ensures FindAll(RootAndChild())
         == [Tree(0, "A", [Tree(1, "B", [])]), Tree(1, "B", [])]
  {
    var s := RootAndChild();
    IdsOfRootAndChild();
    assert BuildTree(s, 1) == Tree(1, "B", []);
    assert BuildTree(s, 0) == Tree(0, "A", [Tree(1, "B", [])]);
    assert TreesOf(s, [0]) == [Tree(0, "A", [Tree(1, "B", [])])];
    assert [0, 1][..1] == [0];
  }

  /** A category without children is rendered as its line alone. */
  lemma FormatLeaf(t: Tree, level: nat)
    requires t.children == []
    ensures Format(t, level) == Line(level, t.name)
  {
    assert ChildBlocks(t, level) == [];
  }

  /** The rendering of "A" with its child "B". */
  lemma FormatRoot()
    ensures Format(Tree(0, "A", [Tree(1, "B", [])]), 0) == "- A\n  - B\n"
  {
    var b := Tree(1, "B", []);
    var a := Tree(0, "A", [b]);
    FormatLeaf(b, 1);
    assert Line(1, "B") == "  - B\n";
    assert ChildBlocks(a, 0) == ["  - B\n"];
    assert Flatten(["  - B\n"]) == "  - B\n";
  }

  /** `/viewTree` shows "B" under "A" and again as a tree of its own. */
  lemma ViewTreeShowsChildTwice()
    ensures Valid(RootAndChild())
    ensures Render(FindAll(RootAndChild())) == "Категории:\n- A\n  - B\n- B\n"
  {
    TreesOfRootAndChild();
    RenderRootAndChild();
    assert Title + "- A\n  - B\n- B\n" == "Категории:\n- A\n  - B\n- B\n";
  }

  /** The rendering of the two trees `findAll` yields for the root-and-child store. */
  lemma RenderRootAndChild()
    ensures Render([Tree(0, "A", [Tree(1, "B", [])]), Tree(1, "B", [])]) == Title + "- A\n  - B\n- B\n"
  {
    var b := Tree(1, "B", []);
    var a := Tree(0, "A", [b]);
    FormatRoot();
    FormatLeaf(b, 0);
    assert Line(0, "B") == "- B\n";
    assert Blocks([a, b]) == [Format(a, 0), Format(b, 0)];
    FlattenPair("- A\n  - B\n", "- B\n");
  }

  /** Two blocks flatten to their concatenation. */
  lemma FlattenPair(p: string, q: string)
    ensures Flatten([p, q]) == p + q
  {
    assert [p, q][..1] == [p];
    assert Flatten([p]) == p by {
      assert [p][..0] == [];
    }
  }

  /** The export has the header, "A" as a root, "B" under "A", and "B" again as a root. */
  lemma ExportShowsChildTwice()
    ensures Valid(RootAndChild())
    ensures ExportTable(FindAll(RootAndChild()))
         == [Header, SheetRow("A", "Root"), SheetRow("B", "A"), SheetRow("B", "Root")]
  {
    TreesOfRootAndChild();
    var b := Tree(1, "B", []);
    var a := Tree(0, "A", [b]);
    assert CategoryRows(b, Some("A")) == [SheetRow("B", "A")] by {
      assert ChildRows(b) == [];
    }
    assert CategoryRows(b, None) == [SheetRow("B", "Root")] by {
      assert ChildRows(b) == [];
    }
    assert CategoryRows(a, None) == [SheetRow("A", "Root"), SheetRow("B", "A")] by {
      assert ChildRows(a) == [[SheetRow("B", "A")]];
    }
    assert ForestRows([a, b]) == [[SheetRow("A", "Root"), SheetRow("B", "A")], [SheetRow("B", "Root")]];
  }

  // ---- A root with two children, one of which is removed ----

  /** The root `e` alone. */
  function Shop1(e: string): Store
  {
    Store(map[0 := Category(e, None)], 1)
  }

  /** The root `e` and its child `p`. */
  function Shop2(e: string, p: string): Store
  {
    Store(map[0 := Category(e, None), 1 := Category(p, Some(0))], 2)
  }

  /** The root `e` with the children `p` and `l`, added in that order. */
  function Shop(e: string, p: string, l: string): Store
  {
    Store(map[0 := Category(e, None), 1 := Category(p, Some(0)), 2 := Category(l, Some(0))], 3)
  }

  /** The same store once `p` is removed. */
  function ShopWithout(e: string, l: string): Store
  {
    Store(map[0 := Category(e, None), 2 := Category(l, Some(0))], 3)
  }

  /** `addCategory(e)` on the empty store. */
  lemma RootIsAdded(e: string)
    ensures Valid(Shop1(e)) && AddCategoryOp(EmptyStore(), e) == Shop1(e)
  {
    EmptyStoreValid();
  }

  /** `addChild(e, p)` finds the root and answers true. */
  lemma FirstChildIsAdded(e: string, p: string)
    ensures Valid(Shop1(e)) && Valid(Shop2(e, p))
    ensures AddChildOp(Shop1(e), e, p) == (Shop2(e, p), true)
  {
    RootIsAdded(e);
    assert FindByName(Shop1(e), e) == Some(0);
  }

  /** `addChild(e, l)` finds the root, the lowest id named `e`, and answers true. */
  lemma SecondChildIsAdded(e: string, p: string, l: string)
    ensures Valid(Shop2(e, p)) && Valid(Shop(e, p, l))
    ensures AddChildOp(Shop2(e, p), e, l) == (Shop(e, p, l), true)
  {
    FirstChildIsAdded(e, p);
    var s := Shop2(e, p);
    var found := FindByName(s, e);
    assert s.cats[0].name == e;
    assert found == Some(0);
  }

  /** In the full store, `p` names category 1 only when the root has another name. */
  lemma ChildIsFound(e: string, p: string, l: string)
    requires e != p
    ensures Valid(Shop(e, p, l))
    ensures FindByName(Shop(e, p, l), p) == Some(1)
  {
    SecondChildIsAdded(e, p, l);
    var s := Shop(e, p, l);
    assert s.cats[0].name != p && s.cats[1].name == p;
  }

  /** Category 1 has no children, so deleting it deletes it alone. */
  lemma ChildIsDeleted(e: string, p: string, l: string)
    ensures Delete(Shop(e, p, l), 1) == ShopWithout(e, l)
  {
    var s := Shop(e, p, l);
    assert !InSubtree(s.cats, 0, 1);
    assert !InSubtree(s.cats, 2, 1);
    assert InSubtree(s.cats, 1, 1);
    assert Delete(s, 1).cats.Keys == {0, 2};
  }

  /** `removeCategory(p)` answers true and deletes category `p` alone. */
  lemma ChildIsRemoved(e: string, p: string, l: string)
    requires e != p
    ensures Valid(Shop(e, p, l))
    ensures RemoveCategoryOp(Shop(e, p, l), p) == (ShopWithout(e, l), true)
  {
    ChildIsFound(e, p, l);
    ChildIsDeleted(e, p, l);
  }

  /** The ids and children of the store without `p`. */
  lemma IdsWithout(e: string, l: string)
    ensures Valid(ShopWithout(e, l))
    ensures AllIds(ShopWithout(e, l)) == [0, 2]
    ensures ChildIds(ShopWithout(e, l), 0) == [2]
    ensures ChildIds(ShopWithout(e, l), 2) == []
  {
    var s := ShopWithout(e, l);
    assert IdsBelow(s.cats, 1) == [0];
    assert IdsBelow(s.cats, 2) == [0];
    assert ChildrenBelow(s.cats, 2, 1) == [];
    assert ChildrenBelow(s.cats, 2, 2) == [];
    assert ChildrenBelow(s.cats, 0, 1) == [];
    assert ChildrenBelow(s.cats, 0, 2) == [];
  }

  /** The trees `findAll` yields once `p` is gone: `l` under `e`, and `l` again. */
  lemma TreesWithout(e: string, l: string)
    ensures Valid(ShopWithout(e, l))
    ensures FindAll(ShopWithout(e, l)) == [Tree(0, e, [Tree(2, l, [])]), Tree(2, l, [])]
  {
    var s := ShopWithout(e, l);
    IdsWithout(e, l);
    assert BuildTree(s, 2) == Tree(2, l, []);
    assert BuildTree(s, 0) == Tree(0, e, [Tree(2, l, [])]);
    assert TreesOf(s, [0]) == [Tree(0, e, [Tree(2, l, [])])];
    assert [0, 2][..1] == [0];
  }
}
