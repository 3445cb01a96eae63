/** The brain-module picker of src/components/ModuleSelector.tsx: the search filter, the
    per-category view that shows five modules and a "+N more" line, and the select handler that
    only lets accessible modules through. The catalogue, the category list, the category labels
    and `toLowerCase` are parameters. */
module ModuleSelector {
  import opened Text
  import opened Subscription

  /** An entry of the module catalogue. */
  datatype BrainModule = BrainModule(id: string, name: string, nameHi: string, description: string,
                                     category: string, icon: string, systemPrompt: string)

  /** A module is kept by a search when the lower-cased search occurs in its lower-cased name,
      Hindi name or description. */
  predicate Matches(m: BrainModule, search: string, lower: string -> string) {
    Contains(lower(m.name), lower(search)) || Contains(lower(m.nameHi), lower(search))
    || Contains(lower(m.description), lower(search))
  }

  /** `brainModules.filter(...)` for the search. */
  function Filtered(modules: seq<BrainModule>, search: string, lower: string -> string): seq<BrainModule>
    decreases |modules|
  {
    if modules == [] then []
    else (if Matches(modules[0], search, lower) then [modules[0]] else [])
         + Filtered(modules[1..], search, lower)
  }

  /** `xs` is `ys` with some elements left out and the rest in their order. */
  predicate SubsequenceOf<T(==)>(xs: seq<T>, ys: seq<T>)
    decreases |ys|
  {
    if xs == [] then true
    else if ys == [] then false
    else (xs[0] == ys[0] && SubsequenceOf(xs[1..], ys[1..])) || SubsequenceOf(xs, ys[1..])
  }

  /** The search results are exactly the matching modules of the catalogue... */
  lemma {:induction false} FilteredIff(modules: seq<BrainModule>, search: string, lower: string -> string,
                                       m: BrainModule)
    ensures m in Filtered(modules, search, lower) <==> m in modules && Matches(m, search, lower)
    decreases |modules|
  {
    if modules != [] {
      FilteredIff(modules[1..], search, lower, m);
      assert modules == [modules[0]] + modules[1..];
    }
  }

  /** ...in the catalogue's order. */
  lemma {:induction false} FilteredInOrder(modules: seq<BrainModule>, search: string, lower: string -> string)
    ensures SubsequenceOf(Filtered(modules, search, lower), modules)
    decreases |modules|
  {
    if modules != [] {
      var rest := Filtered(modules[1..], search, lower);
      FilteredInOrder(modules[1..], search, lower);
      if Matches(modules[0], search, lower) {
        assert ([modules[0]] + rest)[1..] == rest;
      } else {
        assert Filtered(modules, search, lower) == rest;
      }
    }
  }

  /** `brainModules.filter(m => m.category === category)`. */
  function InCategory(modules: seq<BrainModule>, category: string): (r: seq<BrainModule>)
    ensures |r| <= |modules|
    ensures forall k :: 0 <= k < |r| ==> r[k].category == category
    decreases |modules|
  {
    if modules == [] then []
    else (if modules[0].category == category then [modules[0]] else [])
         + InCategory(modules[1..], category)
  }

  /** A category's modules are exactly the catalogue's modules of that category. */
  lemma {:induction false} InCategoryIff(modules: seq<BrainModule>, category: string, m: BrainModule)
    ensures m in InCategory(modules, category) <==> m in modules && m.category == category
    decreases |modules|
  {
    if modules != [] {
      InCategoryIff(modules[1..], category, m);
      assert modules == [modules[0]] + modules[1..];
    }
  }

  const ShownPerCategory: nat := 5

  /** One category block: its heading label and count, the modules listed and the number in the
      "+N more" line, if there is one. */
  datatype Section = Section(category: string, heading: string, count: nat,
                             shown: seq<BrainModule>, more: Option<nat>)

  /** `categoryNames[category] || category`. */
  function Label(names: map<string, string>, category: string): (heading: string)
    ensures category in names && names[category] != "" ==> heading == names[category]
    ensures !(category in names && names[category] != "") ==> heading == category
  {
    if category in names && names[category] != "" then names[category] else category
  }

  /** The block a category gets: nothing for an empty category, else its first five modules
      and "+N more" for the rest. */
  function SectionOf(modules: seq<BrainModule>, names: map<string, string>, category: string): Option<Section> {
    var cms := InCategory(modules, category);
    if |cms| == 0 then None
    else Some(Section(category, Label(names, category), |cms|,
                      cms[..if |cms| < ShownPerCategory then |cms| else ShownPerCategory],
                      if |cms| > ShownPerCategory then Some(|cms| - ShownPerCategory) else None))
  }

  /** A category renders a block iff it has modules; the block lists at most five of them, the
      first ones in catalogue order, and "+N more" appears iff there are more than five, with N
      the number not listed. */
  lemma SectionSpec(modules: seq<BrainModule>, names: map<string, string>, category: string)
    ensures SectionOf(modules, names, category).Some? <==> InCategory(modules, category) != []
    ensures SectionOf(modules, names, category).Some? ==>
              var sec := SectionOf(modules, names, category).value;
              var cms := InCategory(modules, category);
              && sec.count == |cms|
              && |sec.shown| <= ShownPerCategory
              && StartsWithSeq(cms, sec.shown)
              && (|cms| <= ShownPerCategory ==> sec.shown == cms)
              && (sec.more.Some? <==> |cms| > ShownPerCategory)
              && (sec.more.Some? ==> sec.more.value == |cms| - |sec.shown|)
  {
  }

  predicate StartsWithSeq<T(==)>(s: seq<T>, prefix: seq<T>) {
    |prefix| <= |s| && s[..|prefix|] == prefix
  }

  /** The category blocks in category order, leaving out empty categories. */
  function Sections(modules: seq<BrainModule>, names: map<string, string>, categories: seq<string>): seq<Section>
    decreases |categories|
  {
    if categories == [] then []
    else
      (match SectionOf(modules, names, categories[0])
       case Some(sec) => [sec]
       case None => [])
      + Sections(modules, names, categories[1..])
  }

  /** No block the category view draws is empty. */
  lemma {:induction false} SectionsNonEmpty(modules: seq<BrainModule>, names: map<string, string>,
                                            categories: seq<string>)
    ensures forall k :: 0 <= k < |Sections(modules, names, categories)| ==>
              Sections(modules, names, categories)[k].count > 0
    decreases |categories|
  {
    if categories != [] {
      SectionsNonEmpty(modules, names, categories[1..]);
    }
  }

  /** What the scroll area shows. */
  datatype Listing = SearchResults(results: seq<BrainModule>) | ByCategory(sections: seq<Section>)

  /** A non-empty search shows the filtered list; an empty one the category view. */
  function ListingFor(modules: seq<BrainModule>, names: map<string, string>, categories: seq<string>,
                      search: string, lower: string -> string): (l: Listing)
    ensures l.SearchResults? <==> search != ""
  {
    if search != "" then SearchResults(Filtered(modules, search, lower))
    else ByCategory(Sections(modules, names, categories))
  }

  class Selector {
    var search: string
    var open: bool

    constructor()
      ensures search == "" && !open
    {
      search := "";
      open := false;
    }

    /** `handleSelect`: an accessible module is handed to the parent, the menu closes and the
        search is cleared; a locked one changes nothing. */
    method HandleSelect(choice: BrainModule, currentPlan: Option<Plan>) returns (selected: Option<BrainModule>)
      modifies this
      ensures CanAccessModule(currentPlan, choice.id) ==>
                selected == Some(choice) && !open && search == ""
      ensures !CanAccessModule(currentPlan, choice.id) ==>
                selected.None? && open == old(open) && search == old(search)
    {
      if CanAccessModule(currentPlan, choice.id) {
        selected := Some(choice);
        open := false;
        search := "";
      } else {
        selected := None;
      }
    }
  }
}
