/**
 * The recipe data model: a recipe holds a title, its ingredients grouped
 * into titled sections, and an ordered list of instruction steps. All
 * containers are mutable and grow by appending, so each is a class whose
 * methods reassign `seq` fields.
 */
module Recipes {

  /** One ingredient line. The constructor takes the substance first and
      the amount second, as the Python constructor does. */
  datatype Ingredient = Ingredient(substance: string, amount: string)

  /** The value held by a section object at one moment. */
  datatype SectionView = SectionView(title: string, ingredients: seq<Ingredient>)

  /** The section list after `x` is appended to the last section: the only
      change is at the last position. */
  function AppendToLast(secs: seq<SectionView>, x: Ingredient): (r: seq<SectionView>)
    requires |secs| > 0
    ensures |r| == |secs|
    ensures r[..|secs| - 1] == secs[..|secs| - 1]
    ensures r[|secs| - 1].title == secs[|secs| - 1].title
    ensures r[|secs| - 1].ingredients == secs[|secs| - 1].ingredients + [x]
  {
    var last := secs[|secs| - 1];
    secs[..|secs| - 1] + [SectionView(last.title, last.ingredients + [x])]
  }

  /** A titled, growing list of ingredients (the title '' means untitled). */
  class RecipeIngredientSection {
    var title: string
    var ingredients: seq<Ingredient>
    /** The position of the section in the recipe that holds it. */
    ghost var Position: nat

    constructor (title: string := "")
      ensures this.title == title && ingredients == []
    {
      this.title := title;
      ingredients := [];
    }

    function View(): SectionView
      reads this
    {
      SectionView(title, ingredients)
    }

    method AddIngredient(substance: string, amount: string)
      modifies this
      ensures title == old(title) && Position == old(Position)
      ensures ingredients == old(ingredients) + [Ingredient(substance, amount)]
    {
      ingredients := ingredients + [Ingredient(substance, amount)];
    }
  }

  /** The ordered list of sections of one recipe. */
  class RecipeIngredients {
    var sections: seq<RecipeIngredientSection>
    /** The abstract value: the sections' titles and ingredients, in order. */
    ghost var Contents: seq<SectionView>
    ghost var Repr: set<object>

    ghost predicate Valid()
      reads this, Repr
      ensures Valid() ==> this in Repr
    {
      this in Repr && |Contents| == |sections| &&
      forall i :: 0 <= i < |sections| ==>
        sections[i] in Repr && sections[i].Position == i && Contents[i] == sections[i].View()
    }

    constructor ()
      ensures Valid() && fresh(Repr)
      ensures Contents == []
    {
      sections := [];
      Contents := [];
      Repr := {this};
    }

    /** Appends one new, empty section and returns the receiver. */
    method AddSection(title: string := "") returns (r: RecipeIngredients)
      requires Valid()
      modifies this
      ensures Valid() && fresh(Repr - old(Repr))
      ensures r == this
      ensures Contents == old(Contents) + [SectionView(title, [])]
      ensures sections[..|old(sections)|] == old(sections) && fresh(sections[|old(sections)|])
    {
      var s := new RecipeIngredientSection(title);
      s.Position := |sections|;
      sections := sections + [s];
      Repr := Repr + {s};
      Contents := Contents + [s.View()];
      r := this;
    }

    /** Appends an ingredient to the last section; with no section at all the
        source fails on `sections[-1]`, which is why a section must exist. */
    method AddIngredient(substance: string, amount: string)
      requires Valid() && |Contents| > 0
      modifies this, sections[|sections| - 1]
      ensures Valid() && Repr == old(Repr) && sections == old(sections)
      ensures Contents == AppendToLast(old(Contents), Ingredient(substance, amount))
    {
      var last := sections[|sections| - 1];
      last.AddIngredient(substance, amount);
      Contents := AppendToLast(Contents, Ingredient(substance, amount));
    }
  }

  /** A recipe: title, sectioned ingredients and instruction steps. */
  class Recipe {
    var title: string
    var ingredients: RecipeIngredients
    var instructions: seq<string>
    ghost var Repr: set<object>

    ghost predicate Valid()
      reads this, Repr
      ensures Valid() ==> this in Repr
    {
      this in Repr &&
      ingredients in Repr && ingredients.Repr <= Repr && this !in ingredients.Repr &&
      ingredients.Valid()
    }

    /** The sections of the recipe, as values. */
    ghost function Sections(): seq<SectionView>
      reads this, ingredients
    {
      ingredients.Contents
    }

    /** A fresh recipe has an empty title, no section and no instruction. */
    constructor ()
      ensures Valid() && fresh(Repr)
      ensures title == "" && Sections() == [] && instructions == []
    {
      title := "";
      var ri := new RecipeIngredients();
      ingredients := ri;
      instructions := [];
      Repr := {this} + ri.Repr;
    }

    method SetTitle(title: string)
      requires Valid()
      modifies this
      ensures Valid() && Repr == old(Repr)
      ensures this.title == title
      ensures Sections() == old(Sections()) && instructions == old(instructions)
      ensures ingredients == old(ingredients)
    {
      this.title := title;
    }

    method AddIngredientSection(title: string := "")
      requires Valid()
      modifies Repr
      ensures Valid() && fresh(Repr - old(Repr))
      ensures Sections() == old(Sections()) + [SectionView(title, [])]
      ensures this.title == old(this.title) && instructions == old(instructions)
      ensures ingredients == old(ingredients)
    {
      var _ := ingredients.AddSection(title);
      Repr := Repr + ingredients.Repr;
    }

    /** Takes the amount first and hands it on second; the section then
        builds `Ingredient(substance, amount)`, so the two swaps cancel. */
    method AddIngredient(amount: string, substance: string)
      requires Valid() && |Sections()| > 0
      modifies Repr
      ensures Valid() && Repr == old(Repr)
      ensures Sections() == AppendToLast(old(Sections()), Ingredient(substance, amount))
      ensures var added := Sections()[|Sections()| - 1].ingredients;
              added[|added| - 1].amount == amount && added[|added| - 1].substance == substance
      ensures title == old(title) && instructions == old(instructions)
      ensures ingredients == old(ingredients)
    {
      ingredients.AddIngredient(substance, amount);
    }

    method AddInstruction(instruction: string)
      requires Valid()
      modifies this
      ensures Valid() && Repr == old(Repr)
      ensures instructions == old(instructions) + [instruction]
      ensures title == old(title) && Sections() == old(Sections())
      ensures ingredients == old(ingredients)
    {
      instructions := instructions + [instruction];
    }

    method AddInstructions(instructions: seq<string>)
      requires Valid()
      modifies this
      ensures Valid() && Repr == old(Repr)
      ensures this.instructions == old(this.instructions) + instructions
      ensures title == old(title) && Sections() == old(Sections())
      ensures ingredients == old(ingredients)
    {
      this.instructions := this.instructions + instructions;
    }
  }
}
