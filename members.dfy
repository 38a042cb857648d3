/**
  The members directory: each `members` document is loaded and, when it is claimed, its six
  profile fields fall back to its owner's `users` document; the list is then ordered by class year
  (latest first) and last name, grouped by class year, and the groups are shown latest year first.
*/
module MembersPage {
  import opened Common
  import opened JsString
  import opened JsValues
  import opened Lists
  import Sorting
  import Firestore

  // ---------------------------------------------------------------------------------------------
  // Loading and the profile fallback

  /** A document of the `members` snapshot. */
  datatype MemberDoc = MemberDoc(id: string, data: Doc)

  /** The fields a claimed member takes from its owner's profile when its own value is falsy. */
  const FallbackFields: seq<string> := ["profilePicture", "bio", "username", "hometown", "currentLocation", "email"]

  /** `memberData.isClaimed && memberData.claimedBy`: the loop looks the owner up. */
  predicate LooksUpOwner(data: Doc) {
    Truthy(Get(data, "isClaimed")) && Truthy(Get(data, "claimedBy"))
  }

  /**
    The owner's profile the loop obtains: the `users` document named by `claimedBy`, when the
    member looks its owner up, the read goes through (`reachable`) and the document exists. A
    `claimedBy` that is not a string cannot name a document, and the failed lookup is only logged.
  */
  function OwnerProfile(data: Doc, users: Firestore.Collection, reachable: bool): Option<Doc> {
    if LooksUpOwner(data) && reachable then
      match Get(data, "claimedBy")
      case Str(uid) => if uid in users then Some(users[uid]) else None
      case _ => None
    else None
  }

  /** The six fallback fields as the loop leaves them. */
  function ProfileOverlay(data: Doc, owner: Option<Doc>): Doc {
    map f | f in FallbackFields :: if owner.Some? then Or(Get(data, f), Get(owner.value, f)) else Get(data, f)
  }

  /** `{ id: memberDoc.id, ...memberData, <the six fields> }`: a stored `id` field wins over the document id. */
  function MergedMember(id: string, data: Doc, owner: Option<Doc>): Doc {
    map["id" := Str(id)] + data + ProfileOverlay(data, owner)
  }

  /**
    With an owner profile each fallback field is the member's value when truthy and the owner's
    otherwise; without one the member keeps its own; every other field is the member's own.
  */
  lemma MergedMemberFields(id: string, data: Doc, owner: Option<Doc>)
    ensures forall f :: f in FallbackFields ==>
      Get(MergedMember(id, data, owner), f) ==
        if owner.Some? then (if Truthy(Get(data, f)) then Get(data, f) else Get(owner.value, f)) else Get(data, f)
    ensures forall k :: k !in FallbackFields && k != "id" ==> Get(MergedMember(id, data, owner), k) == Get(data, k)
    ensures Get(MergedMember(id, data, owner), "id") == if "id" in data then data["id"] else Str(id)
  {
  }

  /** A member that is not both claimed and bound to an account keeps all its own fields. */
  lemma UnclaimedKeepsOwnFields(id: string, data: Doc, users: Firestore.Collection, reachable: bool)
    requires !LooksUpOwner(data)
    ensures forall k :: k != "id" ==> Get(MergedMember(id, data, OwnerProfile(data, users, reachable)), k) == Get(data, k)
  {
    MergedMemberFields(id, data, None);
  }

  /** The entries the loop pushes, in snapshot order. */
  function MergedAll(snapshot: seq<MemberDoc>, users: Firestore.Collection, reachable: seq<bool>): (r: seq<Doc>)
    requires |reachable| == |snapshot|
  {
    seq(|snapshot|, i requires 0 <= i < |snapshot| =>
      MergedMember(snapshot[i].id, snapshot[i].data, OwnerProfile(snapshot[i].data, users, reachable[i])))
  }

  /**
    The loop of `fetchMembers`: one entry per document, in order; `reachable[i]` is whether the
    owner lookup of the i-th member went through.
  */
  method CollectMembers(snapshot: seq<MemberDoc>, users: Firestore.Collection, reachable: seq<bool>)
    returns (membersData: seq<Doc>)
    requires |reachable| == |snapshot|
    ensures membersData == MergedAll(snapshot, users, reachable)
  {
    membersData := [];
    for i := 0 to |snapshot|
      invariant |membersData| == i
      invariant forall j :: 0 <= j < i ==>
        membersData[j] == MergedMember(snapshot[j].id, snapshot[j].data, OwnerProfile(snapshot[j].data, users, reachable[j]))
    {
      var memberData := snapshot[i].data;
      var owner: Option<Doc> := None;
      if LooksUpOwner(memberData) && reachable[i] {
        match Get(memberData, "claimedBy") {
          case Str(uid) =>
            if uid in users {
              owner := Some(users[uid]);
            }
          case _ =>
        }
      }
      membersData := membersData + [MergedMember(snapshot[i].id, memberData, owner)];
    }
  }

  // ---------------------------------------------------------------------------------------------
  // Ordering

  /**
    The entry's class year as the comparator reads it, on the assumption that it is a string; any
    other value reads as "" (README, "Left out", says what the page does with one).
  */
  function YearOf(m: Doc): string {
    match Get(m, "classYear")
    case Str(s) => s
    case _ => ""
  }

  /** The entry's last name, on the same assumption. */
  function LastNameOf(m: Doc): string {
    match Get(m, "lastName")
    case Str(s) => s
    case _ => ""
  }

  /**
    The comparator `b.classYear.localeCompare(a.classYear) || a.lastName.localeCompare(b.lastName)`
    returns at most 0: `a` has the later year, or the same year and a last name not after `b`'s.
  */
  predicate DirectoryOrder(a: Doc, b: Doc) {
    Less(YearOf(b), YearOf(a)) || (YearOf(a) == YearOf(b) && !Less(LastNameOf(b), LastNameOf(a)))
  }

  lemma DirectoryOrderPreorder()
    ensures Sorting.TotalPreorder(DirectoryOrder)
  {
    forall a, b ensures DirectoryOrder(a, b) || DirectoryOrder(b, a) {
      LessTotal(YearOf(a), YearOf(b));
      if YearOf(a) == YearOf(b) {
        if Less(LastNameOf(a), LastNameOf(b)) {
          LessAsymmetric(LastNameOf(a), LastNameOf(b));
          assert DirectoryOrder(a, b);
        } else {
          assert DirectoryOrder(b, a);
        }
      }
    }
    forall a, b, c | DirectoryOrder(a, b) && DirectoryOrder(b, c) ensures DirectoryOrder(a, c) {
      if Less(YearOf(b), YearOf(a)) && Less(YearOf(c), YearOf(b)) {
        LessTransitive(YearOf(c), YearOf(b), YearOf(a));
      }
      if YearOf(a) == YearOf(b) == YearOf(c) {
        LessTotal(LastNameOf(a), LastNameOf(b));
        LessTotal(LastNameOf(b), LastNameOf(c));
        if Less(LastNameOf(c), LastNameOf(a)) {
          if Less(LastNameOf(a), LastNameOf(b)) {
            LessTransitive(LastNameOf(c), LastNameOf(a), LastNameOf(b));
          } else if Less(LastNameOf(b), LastNameOf(c)) {
            LessTransitive(LastNameOf(b), LastNameOf(c), LastNameOf(a));
          }
        }
      }
    }
  }

  /** `membersData.sort(...)`: the engine's stable sort. */
  function SortedMembers(ms: seq<Doc>): (sorted: seq<Doc>)
    ensures multiset(sorted) == multiset(ms)
  {
    Sorting.Sort(ms, DirectoryOrder)
  }

  /**
    The directory is a permutation of the loaded entries, ordered by class year, latest first, and
    within a year by last name; entries that tie on both keep their loaded order.
  */
  lemma SortedMembersSpec(ms: seq<Doc>)
    ensures multiset(SortedMembers(ms)) == multiset(ms)
    ensures forall i, j :: 0 <= i < j < |SortedMembers(ms)| ==>
      var a, b := SortedMembers(ms)[i], SortedMembers(ms)[j];
      !Less(YearOf(a), YearOf(b)) && (YearOf(a) == YearOf(b) ==> !Less(LastNameOf(b), LastNameOf(a)))
    ensures forall z :: Sorting.TiedWith(SortedMembers(ms), z, DirectoryOrder) == Sorting.TiedWith(ms, z, DirectoryOrder)
  {
    DirectoryOrderPreorder();
    Sorting.SortSorted(ms, DirectoryOrder);
    forall z ensures Sorting.TiedWith(SortedMembers(ms), z, DirectoryOrder) == Sorting.TiedWith(ms, z, DirectoryOrder) {
      Sorting.SortStable(ms, z, DirectoryOrder);
    }
    forall i, j | 0 <= i < j < |SortedMembers(ms)|
      ensures !Less(YearOf(SortedMembers(ms)[i]), YearOf(SortedMembers(ms)[j]))
    {
      var a, b := SortedMembers(ms)[i], SortedMembers(ms)[j];
      assert DirectoryOrder(a, b);
      if Less(YearOf(b), YearOf(a)) {
        LessAsymmetric(YearOf(b), YearOf(a));
      } else {
        LessIrreflexive(YearOf(a));
      }
    }
  }

  // ---------------------------------------------------------------------------------------------
  // Grouping

  /** The group map the `reduce` builds: each year to its members, in list order. */
  function GroupsOf(ms: seq<Doc>): map<string, seq<Doc>> {
    if ms == [] then map[]
    else
      var p := GroupsOf(ms[..|ms| - 1]);
      var m := ms[|ms| - 1];
      p[YearOf(m) := (if YearOf(m) in p then p[YearOf(m)] else []) + [m]]
  }

  /** The group keys in the order the `reduce` creates them (first appearance). */
  function YearsInOrder(ms: seq<Doc>): seq<string> {
    if ms == [] then []
    else
      var p := YearsInOrder(ms[..|ms| - 1]);
      var y := YearOf(ms[|ms| - 1]);
      if y in p then p else p + [y]
  }

  function HasYear(y: string): Doc -> bool {
    (m: Doc) => YearOf(m) == y
  }

  /**
    `membersByClass`, with the loop the `reduce` stands for: `keys` are the map's keys in
    insertion order. `Object.keys` lists integer-like keys such as "2025" in ascending numeric
    order instead, which makes no difference here: the keys are sorted before they are used.
  */
  method GroupByClass(members: seq<Doc>) returns (groups: map<string, seq<Doc>>, keys: seq<string>)
    ensures groups == GroupsOf(members) && keys == YearsInOrder(members)
  {
    groups, keys := map[], [];
    for i := 0 to |members|
      invariant groups == GroupsOf(members[..i]) && keys == YearsInOrder(members[..i])
    {
      assert members[..i + 1][..i] == members[..i];
      var year := YearOf(members[i]);
      if year !in groups {
        groups := groups[year := []];
      }
      groups := groups[year := groups[year] + [members[i]]];
      if year !in keys {
        keys := keys + [year];
      }
    }
    assert members[..|members|] == members;
  }

  /** The insertion-ordered keys are exactly the group keys, each once. */
  lemma {:induction false} YearsInOrderSpec(ms: seq<Doc>)
    ensures NoDuplicates(YearsInOrder(ms))
    ensures forall y :: y in YearsInOrder(ms) <==> y in GroupsOf(ms)
    decreases |ms|
  {
    if ms != [] {
      YearsInOrderSpec(ms[..|ms| - 1]);
    }
  }

  /** The group keys are the years of the members. */
  lemma {:induction false} GroupKeys(ms: seq<Doc>)
    ensures forall y :: y in GroupsOf(ms) <==> exists m :: m in ms && YearOf(m) == y
    decreases |ms|
  {
    if ms != [] {
      var p, m := ms[..|ms| - 1], ms[|ms| - 1];
      GroupKeys(p);
      assert ms == p + [m];
      forall y ensures y in GroupsOf(ms) <==> exists x :: x in ms && YearOf(x) == y {
        if y in GroupsOf(ms) && y != YearOf(m) {
          assert y in GroupsOf(p);
          var x :| x in p && YearOf(x) == y;
          assert x in ms;
        }
        if (exists x :: x in ms && YearOf(x) == y) && y != YearOf(m) {
          var x :| x in ms && YearOf(x) == y;
          assert x in p;
        }
      }
    }
  }

  /**
    Each group holds exactly the members of its year, in list order, so every member is in
    exactly one group: the one of its own year.
  */
  lemma {:induction false} GroupsAreFilters(ms: seq<Doc>)
    ensures forall y :: y in GroupsOf(ms) ==> GroupsOf(ms)[y] == Filter(ms, HasYear(y))
    decreases |ms|
  {
    if ms != [] {
      var p, m := ms[..|ms| - 1], ms[|ms| - 1];
      GroupsAreFilters(p);
      GroupKeys(p);
      assert ms == p + [m];
      forall y | y in GroupsOf(ms) ensures GroupsOf(ms)[y] == Filter(ms, HasYear(y)) {
        FilterConcat(p, [m], HasYear(y));
        if y !in GroupsOf(p) {
          forall i | 0 <= i < |p| ensures !HasYear(y)(p[i]) {
            assert p[i] in p;
          }
          FilterNone(p, HasYear(y));
        }
      }
    }
  }

  /** The total size of the groups named in `ys`. */
  function SizeOf(groups: map<string, seq<Doc>>, ys: seq<string>): nat {
    if ys == [] then 0
    else SizeOf(groups, ys[..|ys| - 1]) + (if ys[|ys| - 1] in groups then |groups[ys[|ys| - 1]]| else 0)
  }

  /** Groups that agree on every listed year have the same total size. */
  lemma {:induction false} SizeOfAgree(g: map<string, seq<Doc>>, h: map<string, seq<Doc>>, ys: seq<string>)
    requires forall y :: y in ys ==> (y in g <==> y in h) && (y in g ==> |g[y]| == |h[y]|)
    ensures SizeOf(g, ys) == SizeOf(h, ys)
    decreases |ys|
  {
    if ys != [] {
      SizeOfAgree(g, h, ys[..|ys| - 1]);
    }
  }

  /** Growing one listed group by one grows the total by one. */
  lemma {:induction false} SizeOfBump(g: map<string, seq<Doc>>, h: map<string, seq<Doc>>, ys: seq<string>, z: string)
    requires NoDuplicates(ys) && z in ys && z in g && z in h && |h[z]| == |g[z]| + 1
    requires forall y :: y in ys && y != z ==> (y in g <==> y in h) && (y in g ==> |g[y]| == |h[y]|)
    ensures SizeOf(h, ys) == SizeOf(g, ys) + 1
    decreases |ys|
  {
    var n := |ys| - 1;
    if ys[n] == z {
      assert z !in ys[..n];
      SizeOfAgree(g, h, ys[..n]);
    } else {
      assert z in ys[..n];
      SizeOfBump(g, h, ys[..n], z);
    }
  }

  /** The group sizes add up to the number of members. */
  lemma {:induction false} GroupSizesSum(ms: seq<Doc>)
    ensures SizeOf(GroupsOf(ms), YearsInOrder(ms)) == |ms|
    decreases |ms|
  {
    if ms != [] {
      var p, m := ms[..|ms| - 1], ms[|ms| - 1];
      GroupSizesSum(p);
      YearsInOrderSpec(p);
      var y := YearOf(m);
      if y in YearsInOrder(p) {
        SizeOfBump(GroupsOf(p), GroupsOf(ms), YearsInOrder(p), y);
      } else {
        SizeOfAgree(GroupsOf(p), GroupsOf(ms), YearsInOrder(p));
      }
    }
  }

  /** `Object.keys(membersByClass).sort((a, b) => b.localeCompare(a))` */
  function ClassYears(ms: seq<Doc>): seq<string> {
    Sorting.Sort(YearsInOrder(ms), Descending)
  }

  /** The year headings are the group keys, each once, strictly latest first. */
  lemma ClassYearsSpec(ms: seq<Doc>)
    ensures forall y :: y in ClassYears(ms) <==> y in GroupsOf(ms)
    ensures NoDuplicates(ClassYears(ms))
    ensures forall i, j :: 0 <= i < j < |ClassYears(ms)| ==> Less(ClassYears(ms)[j], ClassYears(ms)[i])
  {
    var ys := YearsInOrder(ms);
    YearsInOrderSpec(ms);
    DescendingPreorder();
    Sorting.SortSorted(ys, Descending);
    PermutationDistinct(ys, ClassYears(ms));
    forall y ensures y in ClassYears(ms) <==> y in ys {
      assert y in ClassYears(ms) <==> y in multiset(ClassYears(ms));
    }
    DescendingStrictly(ClassYears(ms));
  }

  // ---------------------------------------------------------------------------------------------
  // The page

  class MembersDirectory {
    var members: seq<Doc>
    var loading: bool

    constructor ()
      ensures members == [] && loading
    {
      members, loading := [], true;
    }

    /**
      `fetchMembers`: `snapshot` is the `members` collection as read (None when the read failed,
      which leaves the list as it was), `users` the `users` collection the owner lookups read and
      `reachable[i]` whether the i-th lookup went through. Loading ends either way.
    */
    method FetchMembers(snapshot: Option<seq<MemberDoc>>, users: Firestore.Collection, reachable: seq<bool>)
      requires snapshot.Some? ==> |reachable| == |snapshot.value|
      modifies this
      ensures snapshot.Some? ==> members == SortedMembers(MergedAll(snapshot.value, users, reachable))
      ensures snapshot.None? ==> members == old(members)
      ensures !loading
    {
      if snapshot.Some? {
        var membersData := CollectMembers(snapshot.value, users, reachable);
        members := SortedMembers(membersData);
      }
      loading := false;
    }
  }
}
