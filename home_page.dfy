/**
  The tag filter of the home page: the list of selected tags, the handler
  that toggles one tag in it, the handler that clears it, and the parts of
  the page whose display depends on it.
 */
module HomePage {
  import Sequences

  type Tag = string

  /** `selected.filter(t => t !== tag)`: every occurrence of `tag` removed. */
  function Remove(selected: seq<Tag>, tag: Tag): (r: seq<Tag>)
    ensures tag !in r
    ensures forall t :: t != tag ==> (t in r <==> t in selected)
  {
    Sequences.Filter(selected, t => t != tag)
  }

  /** The new selection `handleTagFilter(tag)` hands to `setSelectedTags`:
      without `tag` if it was selected, with `tag` appended otherwise. */
  function Toggle(selected: seq<Tag>, tag: Tag): (r: seq<Tag>)
    ensures tag in selected ==> tag !in r
    ensures tag !in selected ==> r == selected + [tag]
    ensures forall t :: t != tag ==> (t in r <==> t in selected)
  {
    if tag in selected then Remove(selected, tag) else selected + [tag]
  }

  /** Removing a tag keeps every other occurrence of every other tag, in order. */
  lemma RemoveKeepsOthers(selected: seq<Tag>, tag: Tag, t: Tag)
    ensures Sequences.IsSubsequence(Remove(selected, tag), selected)
    ensures multiset(Remove(selected, tag))[t] == if t == tag then 0 else multiset(selected)[t]
  {
    Sequences.FilterIsSubsequence(selected, u => u != tag);
    Sequences.FilterCount(selected, u => u != tag, t);
  }

  /** Removing a tag that is not selected leaves the selection as it was. */
  lemma RemoveAbsent(selected: seq<Tag>, tag: Tag)
    requires tag !in selected
    ensures Remove(selected, tag) == selected
  {
    Sequences.FilterAllKept(selected, t => t != tag);
  }

  /** Toggling an unselected tag twice restores exactly the original selection. */
  lemma ToggleTwiceAbsent(selected: seq<Tag>, tag: Tag)
    requires tag !in selected
    ensures Toggle(Toggle(selected, tag), tag) == selected
  {
    Sequences.FilterAppend(selected, [tag], t => t != tag);
    RemoveAbsent(selected, tag);
  }

  /** Toggling a selected tag twice restores the set of selected tags, but the
      tag moves to the end (and any duplicates of it collapse into one). */
  lemma ToggleTwicePresent(selected: seq<Tag>, tag: Tag)
    requires tag in selected
    ensures Toggle(Toggle(selected, tag), tag) == Remove(selected, tag) + [tag]
    ensures forall t :: t in Toggle(Toggle(selected, tag), tag) <==> t in selected
  {
  }

  /** A selection without duplicates stays without duplicates. */
  lemma ToggleNoDuplicates(selected: seq<Tag>, tag: Tag)
    requires Sequences.NoDuplicates(selected)
    ensures Sequences.NoDuplicates(Toggle(selected, tag))
  {
    if tag in selected {
      Sequences.FilterNoDuplicates(selected, t => t != tag);
    } else {
      var r := selected + [tag];
      forall i, j | 0 <= i < j < |r| ensures r[i] != r[j] {
        if j == |selected| {
          assert r[i] == selected[i];
        }
      }
    }
  }

  /** Tags are toggled from the buttons of the available tags, so a selection
      drawn from the available tags stays drawn from them. */
  lemma ToggleWithinAvailable(selected: seq<Tag>, available: seq<Tag>, tag: Tag)
    requires forall t :: t in selected ==> t in available
    requires tag in available
    ensures forall t :: t in Toggle(selected, tag) ==> t in available
  {
  }

  /** How a tag button is drawn. */
  datatype TagButton = TagButton(tag: Tag, selectedStyle: bool)

  /** The filter bar: one button per available tag, in the order of the
      vocabulary, and "Clear all" beside the heading. */
  datatype FilterBar = FilterBar(clearAll: bool, buttons: seq<TagButton>)

  /** "Clear all" is offered iff a tag is selected; a tag's button is drawn in
      the selected style iff the tag is selected. */
  function FilterBarView(available: seq<Tag>, selected: seq<Tag>): (v: FilterBar)
    ensures v.clearAll <==> |selected| > 0
    ensures |v.buttons| == |available|
    ensures forall i :: 0 <= i < |available| ==>
      v.buttons[i].tag == available[i] && (v.buttons[i].selectedStyle <==> available[i] in selected)
  {
    FilterBar(|selected| > 0, seq(|available|, i requires 0 <= i < |available| => TagButton(available[i], available[i] in selected)))
  }

  /** What the page shows below the filter. */
  datatype ListView<Q> =
    | NoQuestionsFound(offerClearFilters: bool)
    | Cards(shown: seq<Q>)

  /** The question list: the questions, unfiltered and in store order, or, when
      there are none, "No questions found." with a "Clear filters" button that
      appears iff a tag is selected. */
  function QuestionList<Q>(questions: seq<Q>, selected: seq<Tag>): (v: ListView<Q>)
    ensures v.NoQuestionsFound? <==> questions == []
    ensures v.NoQuestionsFound? ==> (v.offerClearFilters <==> |selected| > 0)
    ensures v.Cards? ==> v.shown == questions
  {
    if |questions| == 0 then NoQuestionsFound(|selected| > 0) else Cards(questions)
  }

  /** The selection state that the page reads and replaces. */
  class TagFilterState {
    var selected: seq<Tag>

    constructor (initial: seq<Tag>)
      ensures selected == initial
    {
      selected := initial;
    }

    /** `handleTagFilter(tag)` */
    method HandleTagFilter(tag: Tag)
      modifies this
      ensures selected == Toggle(old(selected), tag)
      ensures tag in selected <==> tag !in old(selected)
    {
      if tag in selected {
        selected := Remove(selected, tag);
      } else {
        selected := selected + [tag];
      }
    }

    /** `clearFilters()`: whatever was selected, nothing is afterwards, so
        clearing twice is the same as clearing once. */
    method ClearFilters()
      modifies this
      ensures selected == []
    {
      selected := [];
    }
  }
}
