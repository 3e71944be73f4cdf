/**
 * The category repository: the persisted collection of categories, updated
 * in place by `save` and `delete` and read by `findByName` and `findAll`.
 */
module Repository {
  import opened Wrappers
  import opened Categories

  class CategoryRepository {
    var cats: map<Id, Category>
    var nextId: Id

    /** The persisted state, as a value. */
    function State(): Store
      reads this
    {
      Store(cats, nextId)
    }

    ghost predicate Valid()
      reads this
    {
      Categories.Valid(State())
    }

    /** An empty repository. */
    constructor ()
      ensures Valid() && State() == EmptyStore()
    {
      cats := map[];
      nextId := 0;
    }

    /**
     * `save` of a new category (inherited from the JPA repository): the
     * category is stored under a fresh identity value, which is returned.
     */
    method Save(c: Category) returns (id: Id)
      requires Valid()
      requires c.parent.Some? ==> c.parent.value in cats
      modifies this
      ensures Valid()
      ensures id == old(nextId) && id !in old(cats)
      ensures State() == Categories.Save(old(State()), c)
    {
      SaveFacts(State(), c);
      id := nextId;
      cats := cats[id := c];
      nextId := nextId + 1;
    }

    /** `findByName`: the stored category with exactly this name, if any. */
    function FindByName(name: string): (r: Option<Id>)
      reads this
      requires Valid()
      ensures r.None? <==> forall k | k in cats :: cats[k].name != name
      ensures r.Some? ==> r.value in cats && cats[r.value].name == name
    {
      Categories.FindByName(State(), name)
    }

    /** `findAll`: every stored category, in id order, with its children populated. */
    function FindAll(): (r: seq<Tree>)
      reads this
      requires Valid()
      ensures r == Categories.FindAll(State())
    {
      Categories.FindAll(State())
    }

    /** `delete` with the cascade: the category and all its descendants are removed. */
    method Delete(id: Id)
      requires Valid()
      modifies this
      ensures Valid()
      ensures State() == Categories.Delete(old(State()), id)
    {
      if id in cats {
        DeleteFacts(State(), id);
      } else {
        DeleteAbsent(State(), id);
      }
      cats := Categories.Delete(State(), id).cats;
    }
  }
}
