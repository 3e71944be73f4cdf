/**
 * The `/viewTree` command: the indented text rendering of the categories
 * `findAll` returns.
 */
module ViewTree {
  import opened Seqs
  import opened Categories
  import opened Repository
  import opened Service

  /** The first line of every rendering. */
  const Title := "Категории:\n"

  /** `"  ".repeat(level)`. */
  function Indent(level: nat): string
  {
    if level == 0 then "" else Indent(level - 1) + "  "
  }

  /** The indent of `level` is `2 * level` spaces. */
  lemma {:induction false} IndentSpaces(level: nat)
    ensures |Indent(level)| == 2 * level
    ensures forall i | 0 <= i < |Indent(level)| :: Indent(level)[i] == ' '
  {
    if level > 0 {
      IndentSpaces(level - 1);
    }
  }

  /** The line of one category at nesting `level`, built one indent step at a time. */
  function Line(level: nat, name: string): string
  {
    if level == 0 then "- " + name + "\n" else "  " + Line(level - 1, name)
  }

  /** A line is the indent of its level, then "- ", the name and a newline. */
  lemma {:induction false} LineShape(level: nat, name: string)
    ensures Line(level, name) == Indent(level) + "- " + name + "\n"
  {
    if level > 0 {
      LineShape(level - 1, name);
      IndentFront(level - 1);
    }
  }

  /** One more indent step can be put in front instead of at the end. */
  lemma {:induction false} IndentFront(level: nat)
    ensures Indent(level + 1) == "  " + Indent(level)
  {
    if level > 0 {
      IndentFront(level - 1);
    }
  }

  /** `formatCategory(t, level)`: `t`'s line, then each child's block one level deeper. */
  function Format(t: Tree, level: nat): string
    decreases t, 1
  {
    Line(level, t.name) + Flatten(ChildBlocks(t, level))
  }

  /** The blocks of `t`'s children, in children order. */
  function ChildBlocks(t: Tree, level: nat): (r: seq<string>)
    ensures |r| == |t.children|
    ensures forall i | 0 <= i < |t.children| :: r[i] == Format(t.children[i], level + 1)
    decreases t, 0
  {
    seq(|t.children|, i requires 0 <= i < |t.children| => Format(t.children[i], level + 1))
  }

  /** The blocks of the given categories, each rendered from level 0. */
  function Blocks(trees: seq<Tree>): (r: seq<string>)
    ensures |r| == |trees|
    ensures forall i | 0 <= i < |trees| :: r[i] == Format(trees[i], 0)
  {
    seq(|trees|, i requires 0 <= i < |trees| => Format(trees[i], 0))
  }

  /** What `/viewTree` replies for the categories `findAll` returned. */
  function Render(trees: seq<Tree>): string
  {
    Title + Flatten(Blocks(trees))
  }

  // ---- An independent description of the same output: the outline ----

  /** One visited category: its nesting level and its name. */
  datatype Entry = Entry(level: nat, name: string)

  /** The categories a pre-order walk of `t` visits, with their levels. */
  function Outline(t: Tree, level: nat): seq<Entry>
    decreases t, 1
  {
    [Entry(level, t.name)] + Flatten(ChildOutlines(t, level))
  }

  function ChildOutlines(t: Tree, level: nat): (r: seq<seq<Entry>>)
    ensures |r| == |t.children|
    ensures forall i | 0 <= i < |t.children| :: r[i] == Outline(t.children[i], level + 1)
    decreases t, 0
  {
    seq(|t.children|, i requires 0 <= i < |t.children| => Outline(t.children[i], level + 1))
  }

  /** The text lines of an outline. */
  function Lines(es: seq<Entry>): (r: seq<string>)
    ensures |r| == |es|
    ensures forall i | 0 <= i < |es| :: r[i] == Line(es[i].level, es[i].name)
  {
    seq(|es|, i requires 0 <= i < |es| => Line(es[i].level, es[i].name))
  }

  lemma LinesAppend(a: seq<Entry>, b: seq<Entry>)
    ensures Lines(a + b) == Lines(a) + Lines(b)
  {
  }

  /** The joined lines of each part of an outline. */
  function JoinedParts(xs: seq<seq<Entry>>): (r: seq<string>)
    ensures |r| == |xs|
    ensures forall i | 0 <= i < |xs| :: r[i] == Flatten(Lines(xs[i]))
  {
    seq(|xs|, i requires 0 <= i < |xs| => Flatten(Lines(xs[i])))
  }

  /** The lines of a flattened outline are the flattened lines of its parts. */
  lemma {:induction false} LinesFlatten(xs: seq<seq<Entry>>)
    ensures Flatten(Lines(Flatten(xs))) == Flatten(JoinedParts(xs))
  {
    if xs != [] {
      var n := |xs| - 1;
      var front, last := xs[..n], xs[n];
      calc {
        Flatten(Lines(Flatten(xs)));
        Flatten(Lines(Flatten(front) + last));
        { LinesAppend(Flatten(front), last); }
        Flatten(Lines(Flatten(front)) + Lines(last));
        { FlattenAppend(Lines(Flatten(front)), Lines(last)); }
        Flatten(Lines(Flatten(front))) + Flatten(Lines(last));
        { LinesFlatten(front); }
        Flatten(JoinedParts(front)) + Flatten(Lines(last));
        { assert JoinedParts(xs)[..n] == JoinedParts(front); }
        Flatten(JoinedParts(xs));
      }
    }
  }

  /** The joined lines of an outline: the root's line, then each child outline's lines. */
  lemma OutlineText(t: Tree, level: nat)
    ensures Flatten(Lines(Outline(t, level)))
         == Line(level, t.name) + Flatten(JoinedParts(ChildOutlines(t, level)))
  {
    var xs := ChildOutlines(t, level);
    var line := Line(level, t.name);
    var rest := Lines(Flatten(xs));
    LinesAppend([Entry(level, t.name)], Flatten(xs));
    assert Lines([Entry(level, t.name)]) == [line];
    FlattenAppend([line], rest);
    assert Flatten([line]) == line by {
      assert [line][..0] == [];
    }
    LinesFlatten(xs);
  }

  /**
   * `formatCategory(t, level)` is the lines of the pre-order outline of `t`
   * joined: one line per visited category, indented by its level.
   */
  lemma {:induction false} FormatIsOutline(t: Tree, level: nat)
    ensures Format(t, level) == Flatten(Lines(Outline(t, level)))
    decreases t
  {
    var xs := ChildOutlines(t, level);
    forall i | 0 <= i < |t.children|
      ensures ChildBlocks(t, level)[i] == JoinedParts(xs)[i]
    {
      FormatIsOutline(t.children[i], level + 1);
    }
    assert ChildBlocks(t, level) == JoinedParts(xs);
    OutlineText(t, level);
  }

  /**
   * The outline of `t` has exactly one entry per category of the subtree,
   * and the first is `t` itself at `level`.
   */
  lemma {:induction false} OutlineSize(t: Tree, level: nat)
    ensures |Outline(t, level)| == Size(t)
    ensures Outline(t, level)[0] == Entry(level, t.name)
    decreases t
  {
    var xs: seq<seq<Entry>> := ChildOutlines(t, level);
    var sizes := seq(|t.children|, i requires 0 <= i < |t.children| => Size(t.children[i]));
    forall i | 0 <= i < |t.children|
      ensures |xs[i]| == sizes[i]
    {
      OutlineSize(t.children[i], level + 1);
    }
    FlattenLength(xs);
    assert Lengths(xs) == sizes;
  }

  /** Every entry of the outline of `t` is at `level` or deeper. */
  lemma {:induction false} OutlineLevels(t: Tree, level: nat)
    ensures forall i | 0 <= i < |Outline(t, level)| :: Outline(t, level)[i].level >= level
    decreases t
  {
    var xs: seq<seq<Entry>> := ChildOutlines(t, level);
    forall i | 0 <= i < |t.children|
      ensures forall j: int | 0 <= j < |xs[i]| :: xs[i][j].level > level
    {
      OutlineLevels(t.children[i], level + 1);
    }
    FlattenLevels(xs, level);
  }

  /** Every entry of a flattening of deeper outlines is deeper. */
  lemma {:induction false} FlattenLevels(xs: seq<seq<Entry>>, level: nat)
    requires forall i, j | 0 <= i < |xs| && 0 <= j < |xs[i]| :: xs[i][j].level > level
    ensures forall j | 0 <= j < |Flatten(xs)| :: Flatten(xs)[j].level > level
  {
    if xs != [] {
      FlattenLevels(xs[..|xs| - 1], level);
    }
  }

  /** The rendering of an empty store is exactly the title line. */
  lemma RenderEmpty()
    ensures Render([]) == Title
  {
  }

  /** Every rendering begins with the title line. */
  lemma RenderStartsWithTitle(trees: seq<Tree>)
    ensures |Render(trees)| >= |Title| && Render(trees)[..|Title|] == Title
  {
  }

  class ViewTreeCommand {
    const service: CategoryService

    constructor (service: CategoryService)
      ensures this.service == service
    {
      this.service := service;
    }

    /** `execute(args)`: the title, then every category `viewTree` returns rendered from level 0. */
    method Execute(args: seq<string>) returns (reply: string)
      requires service.repository.Valid()
      ensures reply == Render(Categories.FindAll(service.repository.State()))
    {
      var tree := service.ViewTree();
      ghost var blocks := Blocks(tree);
      reply := Title;
      var i := 0;
      while i < |tree|
        invariant 0 <= i <= |tree|
        invariant reply == Title + Flatten(blocks[..i])
      {
        var block := FormatCategory(tree[i], 0);
        TextStep(Title, blocks, i);
        reply := reply + block;
        i := i + 1;
      }
      assert blocks[..i] == blocks;
    }

    /** `formatCategory(t, level)`. */
    method FormatCategory(t: Tree, level: nat) returns (text: string)
      ensures text == Format(t, level)
      decreases t
    {
      ghost var blocks := ChildBlocks(t, level);
      text := Indent(level) + "- " + t.name + "\n";
      LineShape(level, t.name);
      var i := 0;
      while i < |t.children|
        invariant 0 <= i <= |t.children|
        invariant text == Line(level, t.name) + Flatten(blocks[..i])
      {
        var block := FormatCategory(t.children[i], level + 1);
        TextStep(Line(level, t.name), blocks, i);
        text := text + block;
        i := i + 1;
      }
      assert blocks[..i] == blocks;
    }
  }

  /** One step of the rendering loops: block `i` follows the blocks before it. */
  lemma TextStep(head: string, blocks: seq<string>, i: nat)
    requires i < |blocks|
    ensures head + Flatten(blocks[..i]) + blocks[i] == head + Flatten(blocks[..i + 1])
  {
    assert blocks[..i + 1][..i] == blocks[..i];
  }
}
