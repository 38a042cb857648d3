/**
  The memories page: the list of memories filtered by class year, the class years the filter
  offers, and the external-link lists of the create form and of the memory being edited.
*/
module Memories {
  import opened Common
  import opened JsString
  import opened Lists
  import Sorting

  /** The filter value that shows every memory. */
  const AllClasses: string := "all"

  /** A stored memory (its photos, author and timestamps are not modelled). */
  datatype Memory = Memory(
    id: string, title: string, description: Option<string>, links: Option<seq<string>>, classYear: string)

  /** The create form, `newMemory`. */
  datatype MemoryForm = MemoryForm(title: string, description: string, classYear: string, links: seq<string>)

  const BlankForm: MemoryForm := MemoryForm("", "", "", [])

  // ---------------------------------------------------------------------------------------------
  // Filtering

  predicate InClass(m: Memory, year: string) {
    m.classYear == year
  }

  /** `filteredMemories` */
  function FilteredMemories(ms: seq<Memory>, selected: string): seq<Memory> {
    if selected == AllClasses then ms else Filter(ms, m => InClass(m, selected))
  }

  /**
    "all" shows every memory; any other value shows exactly the memories of that class, each as
    often as it is loaded, and filtering the two halves of a list gives the two halves of the
    result, so the loaded order is kept.
  */
  lemma FilteredMemoriesSpec(ms: seq<Memory>, selected: string)
    ensures selected == AllClasses ==> FilteredMemories(ms, selected) == ms
    ensures selected != AllClasses ==>
      && (forall m :: m in FilteredMemories(ms, selected) <==> m in ms && m.classYear == selected)
      && (forall m :: multiset(FilteredMemories(ms, selected))[m] ==
                      if m.classYear == selected then multiset(ms)[m] else 0)
    ensures forall a, b :: ms == a + b ==>
      FilteredMemories(ms, selected) == FilteredMemories(a, selected) + FilteredMemories(b, selected)
  {
    if selected != AllClasses {
      var keep := m => InClass(m, selected);
      FilterMembers(ms, keep);
      FilterMultiset(ms, keep);
      forall a, b | ms == a + b
        ensures FilteredMemories(ms, selected) == FilteredMemories(a, selected) + FilteredMemories(b, selected)
      {
        FilterConcat(a, b, keep);
      }
    }
  }

  /** The classes of the loaded memories without repeats, in the order they first occur. */
  function YearsOf(ms: seq<Memory>): seq<string> {
    Distinct(Map(ms, (m: Memory) => m.classYear))
  }

  /** `classYears`: `Array.from(new Set(years)).sort((a, b) => b.localeCompare(a))` */
  function ClassYears(ms: seq<Memory>): seq<string> {
    Sorting.Sort(YearsOf(ms), Descending)
  }

  /** The filter offers the class of every loaded memory and nothing else, once each, latest first. */
  lemma ClassYearsSpec(ms: seq<Memory>)
    ensures forall y :: y in ClassYears(ms) <==> exists m :: m in ms && m.classYear == y
    ensures NoDuplicates(ClassYears(ms))
    ensures forall i, j :: 0 <= i < j < |ClassYears(ms)| ==> Less(ClassYears(ms)[j], ClassYears(ms)[i])
  {
    var f := (m: Memory) => m.classYear;
    var ys := YearsOf(ms);
    DistinctSpec(Map(ms, f));
    MapFilterMembers(ms, (m: Memory) => true, f);
    FilterAll(ms, (m: Memory) => true);
    DescendingPreorder();
    Sorting.SortSorted(ys, Descending);
    PermutationDistinct(ys, ClassYears(ms));
    forall y ensures y in ClassYears(ms) <==> y in ys {
      assert y in ClassYears(ms) <==> y in multiset(ClassYears(ms));
    }
    DescendingStrictly(ClassYears(ms));
  }

  /** Choosing any class the filter offers shows at least one memory. */
  lemma OfferedClassesAreNonEmpty(ms: seq<Memory>, y: string)
    requires y in ClassYears(ms)
    ensures FilteredMemories(ms, y) != []
  {
    ClassYearsSpec(ms);
    var m :| m in ms && m.classYear == y;
    FilteredMemoriesSpec(ms, y);
    assert m in FilteredMemories(ms, y);
  }

  // ---------------------------------------------------------------------------------------------
  // Link lists

  /** `addLink`'s guard: the trimmed text, when it is non-empty and not listed yet. */
  function LinkToAdd(links: seq<string>, input: string): Option<string> {
    var t := Trim(input);
    if t != "" && t !in links then Some(t) else None
  }

  /** The list after `addLink`. */
  function WithLink(links: seq<string>, input: string): seq<string> {
    match LinkToAdd(links, input)
    case Some(t) => links + [t]
    case None => links
  }

  /** A link list as the forms build it: every link trimmed and non-empty, none twice. */
  predicate CleanLinks(links: seq<string>) {
    NoDuplicates(links) && forall i :: 0 <= i < |links| ==> links[i] != "" && Trim(links[i]) == links[i]
  }

  /**
    A non-blank link ends up listed, appended at the end unless it already was; a blank one
    changes nothing; a clean list stays clean, and adding the same text twice adds it once.
  */
  lemma WithLinkSpec(links: seq<string>, input: string)
    ensures !IsBlank(input) ==> Trim(input) in WithLink(links, input)
    ensures !IsBlank(input) && Trim(input) !in links ==> WithLink(links, input) == links + [Trim(input)]
    ensures IsBlank(input) || Trim(input) in links ==> WithLink(links, input) == links
    ensures CleanLinks(links) ==> CleanLinks(WithLink(links, input))
    ensures WithLink(WithLink(links, input), input) == WithLink(links, input)
  {
    var t := Trim(input);
    if t != "" && t !in links {
      var r := links + [t];
      TrimIdempotent(input);
      if NoDuplicates(links) {
        forall i, j | 0 <= i < j < |r| ensures r[i] != r[j] {
          if j == |links| { assert r[i] in links; }
        }
      }
    }
  }

  /** Removing the last link after adding one gives the list back. */
  lemma RemoveAddedLink(links: seq<string>, input: string)
    requires LinkToAdd(links, input).Some?
    ensures RemoveAt(WithLink(links, input), |links|) == links
  {
    assert (links + [Trim(input)])[..|links|] == links;
  }

  /** Removing a link keeps a clean list clean and the other links in order. */
  lemma RemoveLinkSpec(links: seq<string>, index: int)
    ensures CleanLinks(links) ==> CleanLinks(RemoveAt(links, index))
    ensures 0 <= index < |links| ==>
      && |RemoveAt(links, index)| == |links| - 1
      && (forall i :: 0 <= i < index ==> RemoveAt(links, index)[i] == links[i])
      && (forall i :: index <= i < |links| - 1 ==> RemoveAt(links, index)[i] == links[i + 1])
    ensures !(0 <= index < |links|) ==> RemoveAt(links, index) == links
  {
    if 0 <= index < |links| {
      RemoveAtKeepsOthers(links, index);
      var r := RemoveAt(links, index);
      if CleanLinks(links) {
        forall i, j | 0 <= i < j < |r| ensures r[i] != r[j] {
          var i' := if i < index then i else i + 1;
          var j' := if j < index then j else j + 1;
          assert r[i] == links[i'] && r[j] == links[j'];
        }
        forall i | 0 <= i < |r| ensures r[i] != "" && Trim(r[i]) == r[i] {
          var i' := if i < index then i else i + 1;
          assert r[i] == links[i'];
        }
      }
    }
  }

  /** `startEditing`: the memory's links, `[]` when it has none. */
  function EditedLinks(m: Memory): seq<string> {
    if m.links.Some? then m.links.value else []
  }

  /** The copy `startEditing` puts in the edit form. */
  function Edited(m: Memory): Memory {
    m.(links := Some(EditedLinks(m)))
  }

  /** The copy differs from the memory only in that a missing link list reads as empty. */
  lemma EditedSpec(m: Memory)
    ensures Edited(m).links.Some?
    ensures m.links.None? ==> Edited(m).links == Some([])
    ensures m.links.Some? ==> Edited(m) == m
    ensures Edited(m).(links := m.links) == m
    ensures Edited(Edited(m)) == Edited(m)
  {
  }

  /**
    The edit form's Add button (and its Enter key) as the page wires it: it runs `addLink`, which
    checks the text against, and appends it to, the create form's list; the memory being edited
    is left as it was.
  */
  function EditFormAddAsWritten(form: MemoryForm, editing: Memory, input: string): (MemoryForm, Memory) {
    (form.(links := WithLink(form.links, input)), editing)
  }

  /** A link typed into the edit form and added there never reaches the memory being edited. */
  lemma EditFormAddLosesLink()
    ensures var editing := Edited(Memory("m1", "Reunion", None, None, "2025"));
      var (form, edited) := EditFormAddAsWritten(BlankForm, editing, "https://photos.example");
      && edited.links == Some([])
      && form.links == ["https://photos.example"]
  {
    var input := "https://photos.example";
    assert !IsSpace(input[0]) && !IsSpace(input[|input| - 1]);
    TrimNoOuterSpace(input);
  }

  /** The edit form's Add as intended: the link goes to the memory being edited. */
  function EditFormAdd(editing: Memory, input: string): Memory {
    editing.(links := Some(WithLink(EditedLinks(editing), input)))
  }

  /**
    After the intended Add a non-blank link is among the edited memory's links, whose list stays
    clean; nothing else about the memory changes.
  */
  lemma EditFormAddSpec(editing: Memory, input: string)
    ensures EditFormAdd(editing, input).links.Some?
    ensures !IsBlank(input) ==> Trim(input) in EditFormAdd(editing, input).links.value
    ensures CleanLinks(EditedLinks(editing)) ==> CleanLinks(EditFormAdd(editing, input).links.value)
    ensures EditFormAdd(editing, input).(links := editing.links) == editing
  {
    WithLinkSpec(EditedLinks(editing), input);
  }

  // ---------------------------------------------------------------------------------------------
  // The page

  class MemoriesView {
    var memories: seq<Memory>
    var newMemory: MemoryForm
    var newLink: string
    var selectedClassYear: string
    var editingMemory: Option<Memory>
    var showCreateForm: bool

    constructor ()
      ensures memories == [] && newMemory == BlankForm && newLink == ""
      ensures selectedClassYear == AllClasses && editingMemory.None? && !showCreateForm
    {
      memories, newMemory, newLink := [], BlankForm, "";
      selectedClassYear, editingMemory, showCreateForm := AllClasses, None, false;
    }

    /** The memories shown under the current filter. */
    function Shown(): seq<Memory>
      reads this
    {
      FilteredMemories(memories, selectedClassYear)
    }

    method SetNewLink(text: string)
      modifies this
      ensures newLink == text && newMemory == old(newMemory) && editingMemory == old(editingMemory)
      ensures memories == old(memories) && selectedClassYear == old(selectedClassYear)
      ensures showCreateForm == old(showCreateForm)
    {
      newLink := text;
    }

    /** `addLink`: the create form's list gains the link; the input is emptied only when it did. */
    method AddLink()
      modifies this
      ensures newMemory == old(newMemory).(links := WithLink(old(newMemory).links, old(newLink)))
      ensures newLink == if LinkToAdd(old(newMemory).links, old(newLink)).Some? then "" else old(newLink)
      ensures editingMemory == old(editingMemory) && memories == old(memories)
      ensures selectedClassYear == old(selectedClassYear) && showCreateForm == old(showCreateForm)
    {
      var t := Trim(newLink);
      if t != "" && t !in newMemory.links {
        newMemory := newMemory.(links := newMemory.links + [t]);
        newLink := "";
      }
    }

    /** `removeLink(index)` */
    method RemoveLink(index: int)
      modifies this
      ensures newMemory == old(newMemory).(links := RemoveAt(old(newMemory).links, index))
      ensures newLink == old(newLink) && editingMemory == old(editingMemory) && memories == old(memories)
      ensures selectedClassYear == old(selectedClassYear) && showCreateForm == old(showCreateForm)
    {
      newMemory := newMemory.(links := RemoveAt(newMemory.links, index));
    }

    /** The filter's `onChange`. */
    method SelectClassYear(year: string)
      modifies this
      ensures selectedClassYear == year && Shown() == FilteredMemories(memories, year)
      ensures memories == old(memories) && newMemory == old(newMemory) && newLink == old(newLink)
      ensures editingMemory == old(editingMemory) && showCreateForm == old(showCreateForm)
    {
      selectedClassYear := year;
    }

    /** `startEditing(memory)`: the edit form gets the memory's copy and the create form closes. */
    method StartEditing(memory: Memory)
      modifies this
      ensures editingMemory == Some(Edited(memory)) && !showCreateForm
      ensures memories == old(memories) && newMemory == old(newMemory) && newLink == old(newLink)
      ensures selectedClassYear == old(selectedClassYear)
    {
      editingMemory := Some(memory.(links := Some(if memory.links.Some? then memory.links.value else [])));
      showCreateForm := false;
    }

    /** `cancelEditing` */
    method CancelEditing()
      modifies this
      ensures editingMemory.None?
      ensures memories == old(memories) && newMemory == old(newMemory) && newLink == old(newLink)
      ensures selectedClassYear == old(selectedClassYear) && showCreateForm == old(showCreateForm)
    {
      editingMemory := None;
    }

    /** The edit form's Add, wired to the memory being edited. */
    method AddEditedLink()
      requires editingMemory.Some?
      modifies this
      ensures editingMemory == Some(EditFormAdd(old(editingMemory).value, old(newLink)))
      ensures newLink == if LinkToAdd(EditedLinks(old(editingMemory).value), old(newLink)).Some? then "" else old(newLink)
      ensures newMemory == old(newMemory) && memories == old(memories)
      ensures selectedClassYear == old(selectedClassYear) && showCreateForm == old(showCreateForm)
    {
      var links := if editingMemory.value.links.Some? then editingMemory.value.links.value else [];
      var t := Trim(newLink);
      if t != "" && t !in links {
        links := links + [t];
        newLink := "";
      }
      editingMemory := Some(editingMemory.value.(links := Some(links)));
    }

    /** The edit form's remove button: `editingMemory.links?.filter((_, i) => i !== index) || []`. */
    method RemoveEditedLink(index: int)
      requires editingMemory.Some?
      modifies this
      ensures editingMemory == Some(old(editingMemory).value.(links :=
        Some(RemoveAt(EditedLinks(old(editingMemory).value), index))))
      ensures newMemory == old(newMemory) && newLink == old(newLink) && memories == old(memories)
      ensures selectedClassYear == old(selectedClassYear) && showCreateForm == old(showCreateForm)
    {
      var links := if editingMemory.value.links.Some? then RemoveAt(editingMemory.value.links.value, index) else [];
      editingMemory := Some(editingMemory.value.(links := Some(links)));
    }
  }
}
