/**
  The class chooser: the list of class years (read from the `classes` collection, or the five
  default years when there are none, in which case those are inserted, or when the read fails),
  the choice of a year, and the form that adds a new year.
*/
module ClassSelection {
  import opened Common
  import opened JsString
  import opened JsValues
  import opened Firestore
  import opened Lists
  import Sorting

  const DefaultYears: seq<string> := ["2025", "2026", "2027", "2028", "2029"]
  const ClassesCollection: string := "classes"
  const LoadError: string := "Error loading class years"
  const AddError: string := "Error adding new class. Please try again."

  /** The document inserted for a class year (the creation date is not modelled). */
  function ClassDoc(year: string): Doc {
    map["year" := Str(year)]
  }

  // ---------------------------------------------------------------------------------------------
  // The default classes

  /** The `classes` collection after inserting `years[k]` under `ids[k]`, in order. */
  function ClassesAdded(cols: Collections, ids: seq<string>, years: seq<string>): Collections
    requires |ids| == |years|
  {
    if ids == [] then cols
    else
      var n := |ids| - 1;
      Stored(ClassesAdded(cols, ids[..n], years[..n]), ClassesCollection, ids[n], ClassDoc(years[n]))
  }

  /** The inserts add one document per id, with its year, and change nothing else. */
  lemma {:induction false} ClassesAddedSpec(cols: Collections, ids: seq<string>, years: seq<string>)
    requires |ids| == |years| && NoDuplicates(ids)
    ensures forall n :: n != ClassesCollection ==> CollOf(ClassesAdded(cols, ids, years), n) == CollOf(cols, n)
    ensures forall id :: id in CollOf(ClassesAdded(cols, ids, years), ClassesCollection) <==>
      id in CollOf(cols, ClassesCollection) || id in ids
    ensures forall k :: 0 <= k < |ids| ==> CollOf(ClassesAdded(cols, ids, years), ClassesCollection)[ids[k]] == ClassDoc(years[k])
    ensures forall id :: id in CollOf(cols, ClassesCollection) && id !in ids ==>
      CollOf(ClassesAdded(cols, ids, years), ClassesCollection)[id] == CollOf(cols, ClassesCollection)[id]
    decreases |ids|
  {
    if ids != [] {
      var n := |ids| - 1;
      ClassesAddedSpec(cols, ids[..n], years[..n]);
      assert ids == ids[..n] + [ids[n]];
      forall k | 0 <= k < n ensures ids[k] != ids[n] {
      }
    }
  }

  /** One more insert extends the prefix inserted so far. */
  lemma ClassesAddedStep(cols: Collections, ids: seq<string>, years: seq<string>, n: nat)
    requires n < |ids| == |years|
    ensures ClassesAdded(cols, ids[..n + 1], years[..n + 1]) ==
      Stored(ClassesAdded(cols, ids[..n], years[..n]), ClassesCollection, ids[n], ClassDoc(years[n]))
  {
    assert ids[..n + 1][..n] == ids[..n];
    assert years[..n + 1][..n] == years[..n];
  }

  /**
    `createDefaultClasses`, called with `DefaultYears`: the years are inserted one after the other
    under the store's fresh ids; the first failed insert ends the loop (the error is only logged),
    so exactly the years before it are stored. `added` is how many were.
  */
  method CreateDefaultClasses(db: Db, years: seq<string>, ids: seq<string>, oks: seq<bool>) returns (added: nat)
    requires |ids| == |years| && |oks| == |years| && NoDuplicates(ids)
    requires forall id :: id in ids ==> id !in db.Coll(ClassesCollection)
    modifies db
    ensures added <= |years|
    ensures forall k :: 0 <= k < added ==> oks[k]
    ensures added < |years| ==> !oks[added]
    ensures db.collections == ClassesAdded(old(db.collections), ids[..added], years[..added])
  {
    added := 0;
    var failed := false;
    while added < |years| && !failed
      invariant added <= |years|
      invariant forall k :: 0 <= k < added ==> oks[k]
      invariant failed ==> added < |years| && !oks[added]
      invariant db.collections == ClassesAdded(old(db.collections), ids[..added], years[..added])
      invariant forall k :: added <= k < |ids| ==> ids[k] !in db.Coll(ClassesCollection)
      decreases |years| - added, !failed
    {
      var ok := db.AddDoc(ClassesCollection, ids[added], ClassDoc(years[added]), oks[added]);
      if ok {
        assert oks[added];
        ClassesAddedStep(old(db.collections), ids, years, added);
        added := added + 1;
      } else {
        failed := true;
      }
    }
  }

  // ---------------------------------------------------------------------------------------------
  // Adding a year

  /** `handleSubmitNewClass`'s guard. */
  predicate CanAddYear(newClassYear: string, classYears: seq<string>) {
    newClassYear != "" && newClassYear !in classYears
  }

  /** The submit button's `disabled` expression. */
  predicate SubmitDisabled(newClassYear: string, classYears: seq<string>) {
    newClassYear == "" || newClassYear in classYears
  }

  /** The button is disabled exactly when submitting would do nothing. */
  lemma SubmitDisabledIffGuardFails(newClassYear: string, classYears: seq<string>)
    ensures SubmitDisabled(newClassYear, classYears) <==> !CanAddYear(newClassYear, classYears)
  {
  }

  /** `[...classYears, newClassYear].sort()` */
  function WithYear(classYears: seq<string>, year: string): seq<string> {
    Sorting.Sort(classYears + [year], Ascending)
  }

  /**
    The new list holds the old years and the new one, each as often as before, one longer, in
    ascending order; a duplicate-free list stays duplicate-free.
  */
  lemma WithYearSpec(classYears: seq<string>, year: string)
    ensures multiset(WithYear(classYears, year)) == multiset(classYears) + multiset{year}
    ensures |WithYear(classYears, year)| == |classYears| + 1
    ensures year in WithYear(classYears, year)
    ensures forall y :: y in classYears ==> y in WithYear(classYears, year)
    ensures forall i, j :: 0 <= i < j < |WithYear(classYears, year)| ==>
      !Less(WithYear(classYears, year)[j], WithYear(classYears, year)[i])
    ensures NoDuplicates(classYears) && year !in classYears ==>
      && NoDuplicates(WithYear(classYears, year))
      && forall i, j :: 0 <= i < j < |WithYear(classYears, year)| ==>
           Less(WithYear(classYears, year)[i], WithYear(classYears, year)[j])
  {
    var r := WithYear(classYears, year);
    assert multiset(r) == multiset(classYears + [year]);
    assert |r| == |multiset(r)|;
    assert year in multiset(r);
    forall y | y in classYears ensures y in r {
      assert y in multiset(r);
    }
    AscendingPreorder();
    Sorting.SortSorted(classYears + [year], Ascending);
    if NoDuplicates(classYears) && year !in classYears {
      forall i, j | 0 <= i < j < |classYears + [year]| ensures (classYears + [year])[i] != (classYears + [year])[j] {
        if j == |classYears| {
          assert (classYears + [year])[i] in classYears;
        }
      }
      PermutationDistinct(classYears + [year], r);
      AscendingStrictly(r);
    }
  }

  // ---------------------------------------------------------------------------------------------
  // The component

  class ClassChooser {
    var selectedClass: string
    var showAddClassModal: bool
    var newClassYear: string
    var classYears: seq<string>
    var loading: bool
    var error: string

    constructor ()
      ensures selectedClass == "" && !showAddClassModal && newClassYear == ""
      ensures classYears == [] && loading && error == ""
    {
      selectedClass, showAddClassModal, newClassYear := "", false, "";
      classYears, loading, error := [], true, "";
    }

    /**
      `fetchClassYears`: `years` is the `year` of every stored class in ascending order (None when
      the read failed). No classes: the defaults are inserted and listed; a failed read: the
      defaults are listed and the error is shown; otherwise the stored years are listed.
    */
    method FetchClassYears(db: Db, years: Option<seq<string>>, ids: seq<string>, oks: seq<bool>)
      requires |ids| == |DefaultYears| && |oks| == |DefaultYears| && NoDuplicates(ids)
      requires forall id :: id in ids ==> id !in db.Coll(ClassesCollection)
      modifies this, db
      ensures years == Some([]) || years.None? ==> classYears == DefaultYears
      ensures years.Some? && years.value != [] ==> classYears == years.value
      ensures years.None? ==> error == LoadError
      ensures years.Some? ==> error == old(error)
      ensures years != Some([]) ==> db.collections == old(db.collections)
      ensures years == Some([]) ==>
        exists added :: 0 <= added <= |DefaultYears| &&
          (forall k :: 0 <= k < added ==> oks[k]) && (added < |DefaultYears| ==> !oks[added]) &&
          db.collections == ClassesAdded(old(db.collections), ids[..added], DefaultYears[..added])
      ensures !loading && selectedClass == old(selectedClass) && newClassYear == old(newClassYear)
      ensures showAddClassModal == old(showAddClassModal)
    {
      loading := true;
      if years.None? {
        error := LoadError;
        classYears := DefaultYears;
      } else if years.value == [] {
        var added := CreateDefaultClasses(db, DefaultYears, ids, oks);
        classYears := DefaultYears;
      } else {
        classYears := years.value;
      }
      loading := false;
    }

    /** `handleClassSelect`: the year is selected and reported (returned). */
    method HandleClassSelect(classYear: string) returns (reported: string)
      modifies this
      ensures selectedClass == classYear && reported == classYear
      ensures classYears == old(classYears) && newClassYear == old(newClassYear)
      ensures showAddClassModal == old(showAddClassModal) && error == old(error) && loading == old(loading)
    {
      selectedClass := classYear;
      reported := classYear;
    }

    method HandleAddNewClass()
      modifies this
      ensures showAddClassModal && classYears == old(classYears) && newClassYear == old(newClassYear)
      ensures selectedClass == old(selectedClass) && error == old(error) && loading == old(loading)
    {
      showAddClassModal := true;
    }

    method EditNewClassYear(text: string)
      modifies this
      ensures newClassYear == text && classYears == old(classYears) && selectedClass == old(selectedClass)
      ensures showAddClassModal == old(showAddClassModal) && error == old(error) && loading == old(loading)
    {
      newClassYear := text;
    }

    /**
      `handleSubmitNewClass`: an empty or already listed year does nothing. Otherwise the year is
      inserted under the store's fresh id; on success it joins the sorted list, is selected and
      reported (to both callbacks), and the form closes and empties; a failed insert only shows the
      error.
    */
    method HandleSubmitNewClass(db: Db, newId: string, reachable: bool) returns (reported: Option<string>)
      requires newId !in db.Coll(ClassesCollection)
      modifies this, db
      ensures !CanAddYear(old(newClassYear), old(classYears)) ==>
        db.collections == old(db.collections) && reported.None? && classYears == old(classYears) &&
        selectedClass == old(selectedClass) && newClassYear == old(newClassYear) &&
        showAddClassModal == old(showAddClassModal) && error == old(error)
      ensures CanAddYear(old(newClassYear), old(classYears)) && reachable ==>
        && db.collections == Stored(old(db.collections), ClassesCollection, newId, ClassDoc(old(newClassYear)))
        && classYears == WithYear(old(classYears), old(newClassYear))
        && selectedClass == old(newClassYear) && reported == Some(old(newClassYear))
        && !showAddClassModal && newClassYear == "" && error == old(error)
      ensures CanAddYear(old(newClassYear), old(classYears)) && !reachable ==>
        db.collections == old(db.collections) && reported.None? && error == AddError &&
        classYears == old(classYears) && selectedClass == old(selectedClass) &&
        newClassYear == old(newClassYear) && showAddClassModal == old(showAddClassModal)
      ensures loading == old(loading)
    {
      reported := None;
      if CanAddYear(newClassYear, classYears) {
        var ok := db.AddDoc(ClassesCollection, newId, ClassDoc(newClassYear), reachable);
        if ok {
          classYears := WithYear(classYears, newClassYear);
          selectedClass := newClassYear;
          reported := Some(newClassYear);
          showAddClassModal := false;
          newClassYear := "";
        } else {
          error := AddError;
        }
      }
    }

    /** `handleCancelAddClass` */
    method HandleCancelAddClass()
      modifies this
      ensures !showAddClassModal && newClassYear == ""
      ensures classYears == old(classYears) && selectedClass == old(selectedClass) && error == old(error)
      ensures loading == old(loading)
    {
      showAddClassModal := false;
      newClassYear := "";
    }
  }
}
