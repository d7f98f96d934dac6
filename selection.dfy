/** The selection store (`selection/selectionAtom.ts`): an ordered list of
    selected todo ids, replaced by each toggle, and the queries that drive
    the three-state "select all" checkbox. */
module Selection {
  import opened Seqs

  /** Every id of `ids` occurs in `selected` (`ids.every(id => prev.includes(id))`). */
  predicate AllIn(ids: seq<string>, selected: seq<string>) {
    forall x :: x in ids ==> x in selected
  }

  /** None of `ids` occurs in `selected`. */
  predicate NoneIn(ids: seq<string>, selected: seq<string>) {
    forall x :: x in ids ==> x !in selected
  }

  /** `toggleSelection(id)`: an absent id is appended, a present one is
      removed everywhere, and the other ids keep their order. */
  function Toggled(prev: seq<string>, id: string): (r: seq<string>)
    ensures id !in prev ==> r == prev + [id]
    ensures id in prev ==> id !in r && IsSubsequence(r, prev) && forall x :: x != id ==> (x in r <==> x in prev)
    ensures id in prev ==> forall x :: multiset(r)[x] == if x == id then 0 else multiset(prev)[x]
    ensures NoDup(prev) ==> NoDup(r)
  {
    if id in prev then
      FilterIsSubsequence(prev, NonMember([id]));
      FilterCounts(prev, NonMember([id]));
      assert NoDup(prev) ==> NoDup(Filter(prev, NonMember([id]))) by {
        if NoDup(prev) {
          FilterNoDup(prev, NonMember([id]));
        }
      }
      Filter(prev, NonMember([id]))
    else
      assert NoDup(prev) ==> NoDup(prev + [id]) by {
        if NoDup(prev) {
          NoDupConcat(prev, [id]);
        }
      }
      prev + [id]
  }

  /** A single toggle flips whether the id is selected. */
  lemma ToggledFlips(prev: seq<string>, id: string)
    ensures id in Toggled(prev, id) <==> id !in prev
  {
  }

  /** `toggleMultipleSelection(ids)`: when all of `ids` are selected they
      are all removed; otherwise the ones not yet selected are appended in
      argument order. */
  function ToggledMany(prev: seq<string>, ids: seq<string>): (r: seq<string>)
    ensures AllIn(ids, prev) ==>
      IsSubsequence(r, prev) && forall x :: x in r <==> x in prev && x !in ids
    ensures AllIn(ids, prev) ==> forall x :: multiset(r)[x] == if x in ids then 0 else multiset(prev)[x]
    ensures !AllIn(ids, prev) ==>
      |prev| <= |r| && r[..|prev|] == prev && r[|prev|..] == Filter(ids, NonMember(prev)) && AllIn(ids, r)
    ensures NoDup(prev) && NoDup(ids) ==> NoDup(r)
  {
    if AllIn(ids, prev) then
      FilterIsSubsequence(prev, NonMember(ids));
      FilterCounts(prev, NonMember(ids));
      assert NoDup(prev) ==> NoDup(Filter(prev, NonMember(ids))) by {
        if NoDup(prev) {
          FilterNoDup(prev, NonMember(ids));
        }
      }
      Filter(prev, NonMember(ids))
    else
      var added := Filter(ids, NonMember(prev));
      assert NoDup(prev) && NoDup(ids) ==> NoDup(prev + added) by {
        if NoDup(prev) && NoDup(ids) {
          FilterNoDup(ids, NonMember(prev));
          NoDupConcat(prev, added);
        }
      }
      assert (prev + added)[..|prev|] == prev && (prev + added)[|prev|..] == added;
      prev + added
  }

  /** With an empty `ids` the bulk toggle changes nothing. */
  lemma ToggledManyEmpty(prev: seq<string>)
    ensures ToggledMany(prev, []) == prev
  {
    FilterAll(prev, NonMember([]));
  }

  /** The bulk toggle undoes itself when none of `ids` was selected. */
  lemma ToggledManyTwiceFromNone(prev: seq<string>, ids: seq<string>)
    requires NoneIn(ids, prev)
    ensures ToggledMany(ToggledMany(prev, ids), ids) == prev
  {
    if ids == [] {
      ToggledManyEmpty(prev);
    } else {
      assert ids[0] in ids;
      FilterAll(ids, NonMember(prev));
      var once := prev + ids;
      assert ToggledMany(prev, ids) == once;
      FilterConcat(prev, ids, NonMember(ids));
      FilterAll(prev, NonMember(ids));
      FilterNone(ids, NonMember(ids));
      assert Filter(once, NonMember(ids)) == prev;
    }
  }

  /** When only some of `ids` were selected, toggling twice deselects all of
      `ids`, so the original selection is lost. */
  lemma ToggledManyTwiceFromSome(prev: seq<string>, ids: seq<string>)
    requires !AllIn(ids, prev) && !NoneIn(ids, prev)
    ensures ToggledMany(ToggledMany(prev, ids), ids) == Filter(prev, NonMember(ids))
    ensures ToggledMany(ToggledMany(prev, ids), ids) != prev
  {
    var once := ToggledMany(prev, ids);
    var added := Filter(ids, NonMember(prev));
    assert once == prev + added;
    FilterConcat(prev, added, NonMember(ids));
    FilterNone(added, NonMember(ids));
    assert Filter(once, NonMember(ids)) == Filter(prev, NonMember(ids));
    var x :| x in ids && x in prev;
    assert x !in Filter(prev, NonMember(ids));
  }

  /** When all of a non-empty `ids` were selected, toggling twice moves them
      to the end of the selection, in argument order. */
  lemma ToggledManyTwiceFromAll(prev: seq<string>, ids: seq<string>)
    requires ids != [] && AllIn(ids, prev)
    ensures ToggledMany(ToggledMany(prev, ids), ids) == Filter(prev, NonMember(ids)) + ids
  {
    var once := Filter(prev, NonMember(ids));
    assert ids[0] in ids && ids[0] !in once;
    assert !AllIn(ids, once);
    FilterAll(ids, NonMember(once));
  }

  /** The bulk toggle is not its own inverse: a concrete selection it loses. */
  lemma ToggledManyNotSelfInverse()
    ensures ToggledMany(ToggledMany(["a"], ["a", "b"]), ["a", "b"]) == []
  {
    assert !AllIn(["a", "b"], ["a"]) by {
      assert "b" in ["a", "b"] && "b" !in ["a"];
    }
    assert !NoneIn(["a", "b"], ["a"]) by {
      assert "a" in ["a", "b"] && "a" in ["a"];
    }
    ToggledManyTwiceFromSome(["a"], ["a", "b"]);
    FilterNone(["a"], NonMember(["a", "b"]));
  }

  class SelectionStore {
    var selectedIds: seq<string>

    constructor ()
      ensures selectedIds == []
    {
      selectedIds := [];
    }

    method ToggleSelection(id: string)
      modifies this
      ensures selectedIds == Toggled(old(selectedIds), id)
    {
      selectedIds := Toggled(selectedIds, id);
    }

    method ClearSelection()
      modifies this
      ensures selectedIds == []
    {
      selectedIds := [];
    }

    method ToggleMultipleSelection(ids: seq<string>)
      modifies this
      ensures selectedIds == ToggledMany(old(selectedIds), ids)
    {
      selectedIds := ToggledMany(selectedIds, ids);
    }

    /** `isSelected(id)`. */
    predicate IsSelected(id: string)
      reads this
      ensures IsSelected(id) <==> AllIn([id], selectedIds)
    {
      id in selectedIds
    }

    /** `areAllSelected(ids)`: false for no ids, else every id is selected. */
    predicate AreAllSelected(ids: seq<string>)
      reads this
      ensures AreAllSelected(ids) <==> ids != [] && forall i :: 0 <= i < |ids| ==> IsSelected(ids[i])
    {
      if |ids| == 0 then false
      else AllIn(ids, selectedIds)
    }

    /** How many of `ids` are selected, counting repeats. */
    function SelectedCount(ids: seq<string>): (n: nat)
      reads this
      ensures n <= |ids|
      ensures n > 0 <==> exists i :: 0 <= i < |ids| && IsSelected(ids[i])
      ensures n < |ids| <==> exists i :: 0 <= i < |ids| && !IsSelected(ids[i])
    {
      var n := |Filter(ids, Member(selectedIds))|;
      assert n > 0 <==> exists i :: 0 <= i < |ids| && IsSelected(ids[i]) by {
        if n > 0 {
          var f := Filter(ids, Member(selectedIds));
          assert f[0] in f;
        }
        if exists i :: 0 <= i < |ids| && IsSelected(ids[i]) {
          var i :| 0 <= i < |ids| && IsSelected(ids[i]);
          assert ids[i] in Filter(ids, Member(selectedIds));
        }
      }
      assert n < |ids| <==> exists i :: 0 <= i < |ids| && !IsSelected(ids[i]) by {
        FilterSplitsLength(ids, Member(selectedIds), NonMember(selectedIds));
        var g := Filter(ids, NonMember(selectedIds));
        if n < |ids| {
          assert g[0] in g;
        }
        if exists i :: 0 <= i < |ids| && !IsSelected(ids[i]) {
          var i :| 0 <= i < |ids| && !IsSelected(ids[i]);
          assert ids[i] in g;
        }
      }
      n
    }

    /** `areSomeSelected(ids)`: some, but not all, of `ids` are selected. */
    predicate AreSomeSelected(ids: seq<string>)
      reads this
      ensures AreSomeSelected(ids) <==>
        (exists i :: 0 <= i < |ids| && IsSelected(ids[i])) &&
        (exists j :: 0 <= j < |ids| && !IsSelected(ids[j]))
    {
      if |ids| == 0 then false
      else 0 < SelectedCount(ids) < |ids|
    }

    /** The checkbox is never both checked and indeterminate. */
    lemma AllExcludesSome(ids: seq<string>)
      ensures !(AreAllSelected(ids) && AreSomeSelected(ids))
    {
    }
  }
}
