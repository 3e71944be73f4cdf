/**
 * The `/addElement` and `/removeElement` commands: a branch on the number of
 * arguments, at most one service call, and a reply text.
 */
module Commands {
  import opened Wrappers
  import opened Categories
  import opened Repository
  import opened Service

  // ---- /addElement ----

  /** The reply after adding a root; it has no closing quote. */
  function AddedRootText(elementName: string): string
  {
    "Добавлен корневой элемент '" + elementName
  }

  /** The reply after adding a child under a found parent. */
  function AddedChildText(childName: string, parentName: string): string
  {
    "Дочерний элемент '" + childName + "' добавлен к родительскому '" + parentName + "'."
  }

  /** The reply when the parent name matches no category. */
  function ParentNotFoundText(parentName: string): string
  {
    "Родительский элемент '" + parentName + "' не найден."
  }

  /** The reply for any other number of arguments. */
  const AddUsageText := "Неверное количество аргументов. Использование: /addElement <parent> <child> или /addElement <element>"

  /**
   * `/addElement`: the store afterwards and the reply. One argument adds a
   * root, two add a child under the named parent when it exists, and any
   * other count changes nothing.
   */
  function AddElement(s: Store, args: seq<string>): (r: (Store, string))
    requires Valid(s)
    ensures Valid(r.0)
    ensures |args| == 1 ==>
      && r.0.cats.Keys == s.cats.Keys + {s.nextId} && s.nextId !in s.cats
      && r.0.cats[s.nextId] == Category(args[0], None)
      && (forall k | k in s.cats :: r.0.cats[k] == s.cats[k])
      && r.1 == AddedRootText(args[0])
    ensures |args| == 2 && (exists k | k in s.cats :: s.cats[k].name == args[0]) ==>
      && r.0.cats.Keys == s.cats.Keys + {s.nextId} && s.nextId !in s.cats
      && r.0.cats[s.nextId].name == args[1]
      && r.0.cats[s.nextId].parent.Some?
      && r.0.cats[s.nextId].parent.value in s.cats
      && s.cats[r.0.cats[s.nextId].parent.value].name == args[0]
      && (forall k | k in s.cats :: r.0.cats[k] == s.cats[k])
      && r.1 == AddedChildText(args[1], args[0])
    ensures |args| == 2 && (forall k | k in s.cats :: s.cats[k].name != args[0]) ==>
      r == (s, ParentNotFoundText(args[0]))
    ensures |args| != 1 && |args| != 2 ==> r == (s, AddUsageText)
  {
    if |args| == 1 then
      (AddCategoryOp(s, args[0]), AddedRootText(args[0]))
    else if |args| == 2 then
      var (after, added) := AddChildOp(s, args[0], args[1]);
      (after, if added then AddedChildText(args[1], args[0]) else ParentNotFoundText(args[0]))
    else
      (s, AddUsageText)
  }

  /** The two replies of the two-argument form tell success from failure. */
  lemma ChildRepliesDiffer(childName: string, parentName: string, otherParent: string)
    ensures AddedChildText(childName, parentName) != ParentNotFoundText(otherParent)
  {
    assert AddedChildText(childName, parentName)[0] == 'Д';
    assert ParentNotFoundText(otherParent)[0] == 'Р';
  }

  // ---- /removeElement ----

  /** The reply after a removal. */
  function RemovedText(elementName: string): string
  {
    "Element '" + elementName + "' removed along with its children."
  }

  /** The reply when the name matches no category. */
  function NotFoundText(elementName: string): string
  {
    "Element '" + elementName + "' not found."
  }

  /** The reply for any other number of arguments. */
  const RemoveUsageText := "Invalid number of arguments. Usage: /removeElement <element>"

  /**
   * `/removeElement`: the store afterwards and the reply. One argument that
   * names a category deletes that category's subtree; otherwise nothing changes.
   */
  function RemoveElement(s: Store, args: seq<string>): (r: (Store, string))
    requires Valid(s)
    ensures Valid(r.0)
    ensures |args| == 1 && (exists k | k in s.cats :: s.cats[k].name == args[0]) ==>
      && r.1 == RemovedText(args[0])
      && exists a | a in s.cats && s.cats[a].name == args[0] :: r.0 == Delete(s, a)
    ensures |args| == 1 && (forall k | k in s.cats :: s.cats[k].name != args[0]) ==>
      r == (s, NotFoundText(args[0]))
    ensures |args| != 1 ==> r == (s, RemoveUsageText)
  {
    if |args| == 1 then
      var (after, removed) := RemoveCategoryOp(s, args[0]);
      (after, if removed then RemovedText(args[0]) else NotFoundText(args[0]))
    else
      (s, RemoveUsageText)
  }

  /**
   * A successful `/removeElement name` deletes a category with that name and
   * every descendant of it, and keeps every other category as it was.
   */
  lemma RemoveElementDropsSubtree(s: Store, name: string)
    requires Valid(s)
    requires exists k | k in s.cats :: s.cats[k].name == name
    ensures var r := RemoveElement(s, [name]).0;
      exists a | a in s.cats && s.cats[a].name == name ::
        && a !in r.cats
        && (forall k | k in s.cats :: k in r.cats <==> !InSubtree(s.cats, k, a))
        && (forall k | k in r.cats :: r.cats[k] == s.cats[k])
  {
    var r := RemoveElement(s, [name]).0;
    var a :| a in s.cats && s.cats[a].name == name && r == Delete(s, a);
    DeleteFacts(s, a);
  }

  class AddElementCommand {
    const service: CategoryService

    constructor (service: CategoryService)
      ensures this.service == service
    {
      this.service := service;
    }

    /** `execute(args)`. */
    method Execute(args: seq<string>) returns (reply: string)
      requires service.repository.Valid()
      modifies service.repository
      ensures service.repository.Valid()
      ensures (service.repository.State(), reply) == AddElement(old(service.repository.State()), args)
    {
      if |args| == 1 {
        var elementName := args[0];
        service.AddCategory(elementName);
        return AddedRootText(elementName);
      } else if |args| == 2 {
        var parentName := args[0];
        var childName := args[1];
        var result := service.AddChild(parentName, childName);
        return if result then AddedChildText(childName, parentName) else ParentNotFoundText(parentName);
      } else {
        return AddUsageText;
      }
    }
  }

  class RemoveElementCommand {
    const service: CategoryService

    constructor (service: CategoryService)
      ensures this.service == service
    {
      this.service := service;
    }

    /** `execute(args)`. */
    method Execute(args: seq<string>) returns (reply: string)
      requires service.repository.Valid()
      modifies service.repository
      ensures service.repository.Valid()
      ensures (service.repository.State(), reply) == RemoveElement(old(service.repository.State()), args)
    {
      if |args| == 1 {
        var elementName := args[0];
        var result := service.RemoveCategory(elementName);
        return if result then RemovedText(elementName) else NotFoundText(elementName);
      } else {
        return RemoveUsageText;
      }
    }
  }
}
