/**
 * The memory diary page of client/src/components/pages/BabyProfile.jsx: the
 * list of memories it edits, its filter, and the tag set of the memory being
 * edited. Every handler computes a new list or draft from the old one.
 */
module BabyProfile {
  import opened Wrappers
  import opened Text
  import opened Lists

  /** A memory in the page's list. */
  datatype Memory = Memory(
    id: int, title: string, text: string, date: string, category: string, mood: string,
    location: string, tags: seq<string>, isFavorite: bool, weather: string, image: Option<string>)

  /** `currentMemory`: the memory in the form; a new one has no `id` yet. */
  datatype Draft = Draft(
    id: Option<int>, title: string, text: string, date: string, category: string, mood: string,
    location: string, tags: seq<string>, isFavorite: bool, weather: string, image: Option<string>)

  /** The form's fields as `formData.get` returns them. */
  datatype Form = Form(
    title: string, text: string, date: string, category: string, mood: string, location: string, weather: string)

  const AllCategories := "Todos"

  /** `if (currentMemory.id)`: a present, non-zero id. */
  predicate HasId(d: Draft)
  {
    d.id.Some? && d.id.value != 0
  }

  /** `{ ...currentMemory, <form fields>, tags, id }`. */
  function Saved(d: Draft, form: Form, id: int): (m: Memory)
    ensures m.id == id && m.title == form.title && m.text == form.text && m.category == form.category
    ensures m.tags == d.tags && m.isFavorite == d.isFavorite && m.image == d.image
  {
    Memory(id, form.title, form.text, form.date, form.category, form.mood, form.location,
           d.tags, d.isFavorite, form.weather, d.image)
  }

  /** `handleSaveMemory`: an edited memory replaces the ones with its id; a new one goes first with id `now`. */
  function SaveMemory(memories: seq<Memory>, d: Draft, form: Form, now: int): seq<Memory>
  {
    if HasId(d) then
      MapSeq(memories, (m: Memory) => if m.id == d.id.value then Saved(d, form, d.id.value) else m)
    else
      [Saved(d, form, now)] + memories
  }

  /**
   * Saving an edited memory keeps the list's length and order: the entries
   * with its id take the form's values and keep the id, the others stay.
   */
  lemma SaveExisting(memories: seq<Memory>, d: Draft, form: Form, now: int)
    requires HasId(d)
    ensures var r := SaveMemory(memories, d, form, now);
            |r| == |memories| &&
            forall i :: 0 <= i < |r| ==>
              r[i] == if memories[i].id == d.id.value then Saved(d, form, d.id.value) else memories[i]
    ensures var r := SaveMemory(memories, d, form, now);
            forall i :: 0 <= i < |r| ==> r[i].id == memories[i].id
  {
  }

  /** Saving a new memory puts it in front with id `now`, and the list grows by one. */
  lemma SaveNew(memories: seq<Memory>, d: Draft, form: Form, now: int)
    requires !HasId(d)
    ensures var r := SaveMemory(memories, d, form, now);
            |r| == |memories| + 1 && r[0] == Saved(d, form, now) && r[0].id == now && r[1..] == memories
  {
  }

  function NotWithId(id: int): Memory -> bool
  {
    (m: Memory) => m.id != id
  }

  /** `handleDeleteMemory`: only after `window.confirm` says yes are the memories with that id dropped. */
  function DeleteMemory(memories: seq<Memory>, id: int, confirmed: bool): seq<Memory>
  {
    if confirmed then Filter(memories, NotWithId(id)) else memories
  }

  lemma DeleteMemoryFacts(memories: seq<Memory>, id: int, confirmed: bool, x: Memory)
    ensures !confirmed ==> DeleteMemory(memories, id, confirmed) == memories
    ensures confirmed ==> (x in DeleteMemory(memories, id, confirmed) <==> x in memories && x.id != id)
    ensures IsSubsequence(DeleteMemory(memories, id, confirmed), memories)
  {
    FilterMembership(memories, NotWithId(id), x);
    FilterIsSubsequence(memories, NotWithId(id));
    if !confirmed {
      SubsequenceReflexive(memories);
    }
  }

  function Flip(id: int): Memory -> Memory
  {
    (m: Memory) => if m.id == id then m.(isFavorite := !m.isFavorite) else m
  }

  /** `toggleFavorite`. */
  function ToggleFavorite(memories: seq<Memory>, id: int): seq<Memory>
  {
    MapSeq(memories, Flip(id))
  }

  /** Only the memories with the id change, only in `isFavorite`; toggling twice gives the list back. */
  lemma ToggleFavoriteFacts(memories: seq<Memory>, id: int)
    ensures var r := ToggleFavorite(memories, id);
            |r| == |memories| &&
            forall i :: 0 <= i < |r| ==>
              r[i] == if memories[i].id == id then memories[i].(isFavorite := !memories[i].isFavorite) else memories[i]
    ensures ToggleFavorite(ToggleFavorite(memories, id), id) == memories
  {
    var once := ToggleFavorite(memories, id);
    var twice := ToggleFavorite(once, id);
    assert forall i :: 0 <= i < |twice| ==> twice[i] == memories[i];
  }

  /** The test of `filteredMemories`, with `toLowerCase` as the parameter `lower`. */
  function Shows(filter: string, term: string, lower: string -> string): Memory -> bool
  {
    (m: Memory) =>
      (filter == AllCategories || m.category == filter) &&
      (Contains(lower(m.title), lower(term)) || Contains(lower(m.text), lower(term)))
  }

  function FilteredMemories(memories: seq<Memory>, filter: string, term: string, lower: string -> string): seq<Memory>
  {
    Filter(memories, Shows(filter, term, lower))
  }

  /**
   * The shown memories are those of the category (any, for `Todos`) whose
   * lowercased title or text contains the lowercased term, in list order.
   */
  lemma FilteredMemoriesFacts(memories: seq<Memory>, filter: string, term: string, lower: string -> string, x: Memory)
    ensures x in FilteredMemories(memories, filter, term, lower) <==>
            x in memories && (filter == AllCategories || x.category == filter) &&
            (Contains(lower(x.title), lower(term)) || Contains(lower(x.text), lower(term)))
    ensures IsSubsequence(FilteredMemories(memories, filter, term, lower), memories)
  {
    FilterMembership(memories, Shows(filter, term, lower), x);
    FilterIsSubsequence(memories, Shows(filter, term, lower));
  }

  /** With `Todos` and an empty search every memory is shown. */
  lemma FilteredMemoriesAll(memories: seq<Memory>, lower: string -> string)
    requires lower("") == ""
    ensures FilteredMemories(memories, AllCategories, "", lower) == memories
  {
    forall i | 0 <= i < |memories| ensures Shows(AllCategories, "", lower)(memories[i]) {
      ContainsEmpty(lower(memories[i].title));
    }
    FilterKeepsAll(memories, Shows(AllCategories, "", lower));
  }

  /** `addTag`: a non-empty tag the draft does not have yet is appended. */
  function AddTag(d: Draft, tag: string): (r: Draft)
    ensures r == d.(tags := r.tags)
    ensures r.tags == d.tags || r.tags == d.tags + [tag]
  {
    if tag != "" && tag !in d.tags then d.(tags := d.tags + [tag]) else d
  }

  /** `addTag` never introduces a duplicate. */
  lemma AddTagKeepsDistinct(d: Draft, tag: string)
    requires NoDuplicates(d.tags)
    ensures NoDuplicates(AddTag(d, tag).tags)
    ensures tag != "" ==> tag in AddTag(d, tag).tags
    ensures tag == "" || tag in d.tags ==> AddTag(d, tag) == d
  {
  }

  function NotTag(tag: string): string -> bool
  {
    (t: string) => t != tag
  }

  /** `removeTag`: every copy of the tag goes, the rest keep their order. */
  function RemoveTag(d: Draft, tag: string): (r: Draft)
    ensures r == d.(tags := r.tags)
  {
    d.(tags := Filter(d.tags, NotTag(tag)))
  }

  lemma RemoveTagFacts(d: Draft, tag: string, t: string)
    ensures t in RemoveTag(d, tag).tags <==> t in d.tags && t != tag
    ensures IsSubsequence(RemoveTag(d, tag).tags, d.tags)
    ensures NoDuplicates(d.tags) ==> NoDuplicates(RemoveTag(d, tag).tags)
  {
    FilterMembership(d.tags, NotTag(tag), t);
    FilterIsSubsequence(d.tags, NotTag(tag));
    if NoDuplicates(d.tags) {
      FilterNoDuplicates(d.tags, NotTag(tag));
    }
  }
}
