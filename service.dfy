/**
 * The category service: the tree operations the commands call, and the
 * spreadsheet export. Each operation is specified by a pure function on the
 * store value, and the methods of CategoryService perform it on the
 * repository.
 */
module Service {
  import opened Wrappers
  import opened Seqs
  import opened Categories
  import opened Repository

  /** The message of the exception `findCategoryByName` throws. */
  const NotFoundMessage := "Category not found"

  /** The message of the exception `Optional.get()` throws on an empty Optional. */
  const NoValueMessage := "No value present"

  /** The cell written in the parent column for a null parent. */
  const RootMarker := "Root"

  // ---- The operations, on the store value ----

  /** `addCategory`: one new parentless category, with no uniqueness check. */
  function AddCategoryOp(s: Store, name: string): (r: Store)
    requires Valid(s)
    ensures Valid(r)
    ensures r.cats.Keys == s.cats.Keys + {s.nextId} && s.nextId !in s.cats
    ensures r.cats[s.nextId] == Category(name, None)
    ensures forall k | k in s.cats :: r.cats[k] == s.cats[k]
  {
    SaveFacts(s, NewCategory(name));
    Save(s, NewCategory(name))
  }

  /**
   * `addChild`: false and no change when no category is named `parentName`;
   * otherwise one new category under the one found, and true.
   */
  function AddChildOp(s: Store, parentName: string, childName: string): (r: (Store, bool))
    requires Valid(s)
    ensures Valid(r.0)
    ensures r.1 <==> exists k | k in s.cats :: s.cats[k].name == parentName
    ensures !r.1 ==> r.0 == s
    ensures r.1 ==> r.0.cats.Keys == s.cats.Keys + {s.nextId} && s.nextId !in s.cats
    ensures r.1 ==> r.0.cats[s.nextId].name == childName && r.0.cats[s.nextId].parent.Some?
    ensures r.1 ==> r.0.cats[s.nextId].parent.value in s.cats
                    && s.cats[r.0.cats[s.nextId].parent.value].name == parentName
    ensures r.1 ==> forall k | k in s.cats :: r.0.cats[k] == s.cats[k]
  {
    match FindByName(s, parentName)
    case None => (s, false)
    case Some(p) =>
      var child := SetParent(NewCategory(childName), Some(p));
      SaveFacts(s, child);
      (Save(s, child), true)
  }

  /**
   * `removeCategory`: false and no change when no category is named `name`;
   * otherwise the category found and its whole subtree are deleted, and true.
   */
  function RemoveCategoryOp(s: Store, name: string): (r: (Store, bool))
    requires Valid(s)
    ensures Valid(r.0)
    ensures r.1 <==> exists k | k in s.cats :: s.cats[k].name == name
    ensures !r.1 ==> r.0 == s
    ensures r.1 ==> exists a | a in s.cats && s.cats[a].name == name :: r.0 == Delete(s, a)
  {
    match FindByName(s, name)
    case None => (s, false)
    case Some(a) =>
      DeleteFacts(s, a);
      (Delete(s, a), true)
  }

  /** `findCategoryByName`: the category, or the "Category not found" failure. */
  function FindCategoryByNameOp(s: Store, name: string): (r: Result<Id>)
    requires Valid(s)
    ensures r.Err? <==> forall k | k in s.cats :: s.cats[k].name != name
    ensures r.Err? ==> r.message == NotFoundMessage
    ensures r.Ok? ==> r.value in s.cats && s.cats[r.value].name == name
  {
    match FindByName(s, name)
    case None => Err(NotFoundMessage)
    case Some(k) => Ok(k)
  }

  /**
   * `saveCategory`: with no parent name, a new root; with a parent name that
   * is found, a new child of it; with one that is not found, the failure of
   * `Optional.get()` before anything is saved.
   */
  function SaveCategoryOp(s: Store, categoryName: string, parentCategory: Option<string>): (r: Result<Store>)
    requires Valid(s)
    ensures r.Ok? ==> Valid(r.value)
    ensures r.Err? <==> parentCategory.Some? &&
                        forall k | k in s.cats :: s.cats[k].name != parentCategory.value
    ensures r.Err? ==> r.message == NoValueMessage
    ensures r.Ok? && parentCategory.None? ==> r.value == AddCategoryOp(s, categoryName)
    ensures r.Ok? && parentCategory.Some? ==> r.value == AddChildOp(s, parentCategory.value, categoryName).0
  {
    var category := NewCategory(categoryName);
    match parentCategory
    case None => Ok(AddCategoryOp(s, categoryName))
    case Some(parentName) =>
      match FindByName(s, parentName)
      case None => Err(NoValueMessage)
      case Some(p) =>
        SaveFacts(s, SetParent(category, Some(p)));
        Ok(Save(s, SetParent(category, Some(p))))
  }

  /**
   * A successful `saveCategory` adds exactly one category under a fresh id
   * and keeps every existing one as it was.
   */
  lemma SaveCategoryGrows(s: Store, categoryName: string, parentCategory: Option<string>)
    requires Valid(s)
    requires SaveCategoryOp(s, categoryName, parentCategory).Ok?
    ensures var r := SaveCategoryOp(s, categoryName, parentCategory).value;
      && |r.cats| == |s.cats| + 1
      && r.nextId == s.nextId + 1
      && r.cats[s.nextId].name == categoryName
      && (forall k | k in s.cats :: k in r.cats && r.cats[k] == s.cats[k])
  {
    var r := SaveCategoryOp(s, categoryName, parentCategory).value;
    assert r.cats.Keys == s.cats.Keys + {s.nextId} && s.nextId !in s.cats;
    assert |r.cats.Keys| == |s.cats.Keys| + 1;
  }

  // ---- The export rows ----

  /** One spreadsheet row: the name cell and the parent-name cell. */
  datatype SheetRow = SheetRow(name: string, parentName: string)

  /** Row 0 of the export. */
  const Header := SheetRow("Category Name", "Parent Name")

  /** The parent cell: the parent's name, or "Root" for a null parent. */
  function ParentCell(parentName: Option<string>): string
  {
    match parentName
    case None => RootMarker
    case Some(n) => n
  }

  /**
   * The rows `addCategoryToSheet` writes for `t`: its own row, then the rows
   * of each child's subtree in children order, each child with `t`'s name as
   * parent.
   */
  function CategoryRows(t: Tree, parentName: Option<string>): seq<SheetRow>
    decreases t, 1
  {
    [SheetRow(t.name, ParentCell(parentName))] + Flatten(ChildRows(t))
  }

  /** The rows of each child's subtree, each child with `t`'s name as parent. */
  function ChildRows(t: Tree): (r: seq<seq<SheetRow>>)
    ensures |r| == |t.children|
    ensures forall i | 0 <= i < |t.children| :: r[i] == CategoryRows(t.children[i], Some(t.name))
    decreases t, 0
  {
    seq(|t.children|, i requires 0 <= i < |t.children| => CategoryRows(t.children[i], Some(t.name)))
  }

  /** The rows of each category of `trees`, each started with a null parent. */
  function ForestRows(trees: seq<Tree>): (r: seq<seq<SheetRow>>)
    ensures |r| == |trees|
    ensures forall i | 0 <= i < |trees| :: r[i] == CategoryRows(trees[i], None)
  {
    seq(|trees|, i requires 0 <= i < |trees| => CategoryRows(trees[i], None))
  }

  /** The whole sheet: the header, then the rows of every category `findAll` returns. */
  function ExportTable(trees: seq<Tree>): seq<SheetRow>
  {
    [Header] + Flatten(ForestRows(trees))
  }

  /** One step of the export loops: the rows of part `i` follow those of the parts before it. */
  lemma RowsStep(head: seq<SheetRow>, parts: seq<seq<SheetRow>>, i: nat)
    requires i < |parts|
    ensures head + Flatten(parts[..i]) + parts[i] == head + Flatten(parts[..i + 1])
  {
    FlattenSnoc(parts, i);
  }

  /** One more part of a flattening. */
  lemma FlattenSnoc<T>(parts: seq<seq<T>>, i: nat)
    requires i < |parts|
    ensures Flatten(parts[..i + 1]) == Flatten(parts[..i]) + parts[i]
  {
    assert parts[..i + 1][..i] == parts[..i];
  }

  /** The rows of `t` are one per category of its subtree, `t`'s own row first. */
  lemma {:induction false} CategoryRowsSize(t: Tree, parentName: Option<string>)
    ensures |CategoryRows(t, parentName)| == Size(t)
    ensures CategoryRows(t, parentName)[0] == SheetRow(t.name, ParentCell(parentName))
    decreases t
  {
    var parts := ChildRows(t);
    var sizes := seq(|t.children|, i requires 0 <= i < |t.children| => Size(t.children[i]));
    forall i | 0 <= i < |t.children|
      ensures |parts[i]| == sizes[i]
    {
      CategoryRowsSize(t.children[i], Some(t.name));
    }
    FlattenLength(parts);
    assert Lengths(parts) == sizes;
  }

  /**
   * Child `i` of `t` has its row right after the rows of the children
   * before it, with `t`'s name in the parent cell.
   */
  lemma ChildRowAt(t: Tree, parentName: Option<string>, i: nat)
    requires i < |t.children|
    ensures var at := 1 + |Flatten(ChildRows(t)[..i])|;
      at < |CategoryRows(t, parentName)| &&
      CategoryRows(t, parentName)[at] == SheetRow(t.children[i].name, t.name)
  {
    FlattenAt(ChildRows(t), i);
    CategoryRowsSize(t.children[i], Some(t.name));
  }

  /** The sizes of the given trees. */
  function Sizes(trees: seq<Tree>): (r: seq<nat>)
    ensures |r| == |trees|
    ensures forall i | 0 <= i < |trees| :: r[i] == Size(trees[i])
  {
    seq(|trees|, i requires 0 <= i < |trees| => Size(trees[i]))
  }

  /** The export is the header row, then one row per category of every tree. */
  lemma ExportSize(trees: seq<Tree>)
    ensures |ExportTable(trees)| == 1 + Sum(Sizes(trees))
    ensures ExportTable(trees)[0] == Header
  {
    var parts := ForestRows(trees);
    forall i | 0 <= i < |trees|
      ensures |parts[i]| == Sizes(trees)[i]
    {
      CategoryRowsSize(trees[i], None);
    }
    FlattenLength(parts);
    assert Lengths(parts) == Sizes(trees);
  }

  /**
   * Tree `i` of the export starts right after the rows of the trees before it,
   * with "Root" in its parent cell.
   */
  lemma ExportRootRow(trees: seq<Tree>, i: nat)
    requires i < |trees|
    ensures var at := 1 + |Flatten(ForestRows(trees)[..i])|;
      at < |ExportTable(trees)| && ExportTable(trees)[at] == SheetRow(trees[i].name, RootMarker)
  {
    FlattenAt(ForestRows(trees), i);
    CategoryRowsSize(trees[i], None);
  }

  /**
   * A spreadsheet sheet, as far as the export uses it: rows in row-number
   * order. A row can only be created at the next free row number, so a caller
   * that verifies against it never leaves a gap and never overwrites a row.
   */
  class Sheet {
    var rows: seq<SheetRow>

    constructor ()
      ensures rows == []
    {
      rows := [];
    }

    /** `createRow(n)` followed by setting both cells. */
    method CreateRow(n: int, row: SheetRow)
      requires n == |rows|
      modifies this
      ensures rows == old(rows) + [row]
    {
      rows := rows + [row];
    }
  }

  class CategoryService {
    const repository: CategoryRepository

    constructor (repository: CategoryRepository)
      ensures this.repository == repository
    {
      this.repository := repository;
    }

    /** `viewTree`: what `findAll` returns. */
    method ViewTree() returns (r: seq<Tree>)
      requires repository.Valid()
      ensures r == Categories.FindAll(repository.State())
    {
      r := repository.FindAll();
    }

    method AddCategory(name: string)
      requires repository.Valid()
      modifies repository
      ensures repository.Valid()
      ensures repository.State() == AddCategoryOp(old(repository.State()), name)
    {
      var category := NewCategory(name);
      var _ := repository.Save(category);
    }

    method AddChild(parentName: string, childName: string) returns (added: bool)
      requires repository.Valid()
      modifies repository
      ensures repository.Valid()
      ensures (repository.State(), added) == AddChildOp(old(repository.State()), parentName, childName)
    {
      var parent := repository.FindByName(parentName);
      if parent.Some? {
        var child := NewCategory(childName);
        child := SetParent(child, Some(parent.value));
        var _ := repository.Save(child);
        return true;
      }
      return false;
    }

    method RemoveCategory(name: string) returns (removed: bool)
      requires repository.Valid()
      modifies repository
      ensures repository.Valid()
      ensures (repository.State(), removed) == RemoveCategoryOp(old(repository.State()), name)
    {
      var category := repository.FindByName(name);
      if category.Some? {
        repository.Delete(category.value);
        return true;
      }
      return false;
    }

    method FindCategoryByName(name: string) returns (r: Result<Id>)
      requires repository.Valid()
      ensures r == FindCategoryByNameOp(repository.State(), name)
    {
      var found := repository.FindByName(name);
      if found.None? {
        return Err(NotFoundMessage);
      }
      return Ok(found.value);
    }

    method SaveCategory(categoryName: string, parentCategory: Option<string>) returns (r: Result<()>)
      requires repository.Valid()
      modifies repository
      ensures repository.Valid()
      ensures var spec := SaveCategoryOp(old(repository.State()), categoryName, parentCategory);
        && (r.Ok? <==> spec.Ok?)
        && (r.Err? ==> r.message == spec.message && repository.State() == old(repository.State()))
        && (r.Ok? ==> repository.State() == spec.value)
    {
      var category := NewCategory(categoryName);
      if parentCategory.Some? {
        var parent := repository.FindByName(parentCategory.value);
        if parent.None? {
          return Err(NoValueMessage);
        }
        category := SetParent(category, Some(parent.value));
      }
      var _ := repository.Save(category);
      return Ok(());
    }

    /**
     * `addCategoryToSheet`: writes `t`'s rows from `rowNum` onwards and
     * returns the row number after the last one written.
     */
    method AddCategoryToSheet(sheet: Sheet, t: Tree, rowNum: int, parentName: Option<string>) returns (next: int)
      requires rowNum == |sheet.rows|
      modifies sheet
      ensures sheet.rows == old(sheet.rows) + CategoryRows(t, parentName)
      ensures next == |sheet.rows|
      decreases t
    {
      ghost var start := sheet.rows;
      ghost var parts := ChildRows(t);
      var first := SheetRow(t.name, ParentCell(parentName));
      sheet.CreateRow(rowNum, first);
      next := rowNum + 1;
      var i := 0;
      while i < |t.children|
        invariant 0 <= i <= |t.children|
        invariant sheet.rows == start + [first] + Flatten(parts[..i])
        invariant next == |sheet.rows|
      {
        var child := t.children[i];
        next := AddCategoryToSheet(sheet, child, next, Some(t.name));
        RowsStep(start + [first], parts, i);
        i := i + 1;
      }
      assert parts[..i] == parts;
    }

    /**
     * The row logic of `generateCategoryTreeExcel`: the header at row 0,
     * then, for every category `findAll` returns, its rows started with a
     * null parent, one after another from row 1.
     */
    method GenerateCategoryTreeExcel() returns (rows: seq<SheetRow>)
      requires repository.Valid()
      ensures rows == ExportTable(Categories.FindAll(repository.State()))
    {
      var categories := repository.FindAll();
      var sheet := new Sheet();
      sheet.CreateRow(0, Header);
      var rowNum := 1;
      ghost var parts := ForestRows(categories);
      var i := 0;
      while i < |categories|
        invariant 0 <= i <= |categories|
        invariant sheet.rows == [Header] + Flatten(parts[..i])
        invariant rowNum == |sheet.rows|
      {
        rowNum := AddCategoryToSheet(sheet, categories[i], rowNum, None);
        RowsStep([Header], parts, i);
        i := i + 1;
      }
      assert parts[..i] == parts;
      rows := sheet.rows;
    }
  }
}
