/**
 * The project filter's selection list: `toggleProject` adds a project id that
 * is not selected and removes one that is; `isSelected` is membership.
 */
module ProjectFilter {
  import opened Seqs

  /** `prev.filter(x => x !== id)` */
  function RemoveAll(prev: seq<int>, id: int): (r: seq<int>)
    ensures id !in r
    ensures forall x :: x != id ==> (x in r <==> x in prev)
  {
    if prev == [] then []
    else (if prev[0] != id then [prev[0]] else []) + RemoveAll(prev[1..], id)
  }

  /** The functional update passed to `setSelectedProjects` by `toggleProject`. */
  function Toggle(prev: seq<int>, id: int): seq<int> {
    if id in prev then RemoveAll(prev, id) else prev + [id]
  }

  /** `selectedProjects.includes(id)` */
  predicate IsSelected(selected: seq<int>, id: int) {
    id in selected
  }

  /** Removing drops exactly the occurrences of `id`: every other id keeps its
      number of occurrences. */
  lemma {:induction false} RemoveAllCounts(prev: seq<int>, id: int)
    ensures multiset(RemoveAll(prev, id)) == multiset(prev)[id := 0]
  {
    if prev != [] {
      var p, t := prev[0], prev[1..];
      RemoveAllCounts(t, id);
      assert prev == [p] + t;
      assert multiset(prev) == multiset{p} + multiset(t);
    }
  }

  /** The ids that survive a removal keep their order. */
  lemma {:induction false} RemoveAllIsSubsequence(prev: seq<int>, id: int)
    ensures IsSubsequence(RemoveAll(prev, id), prev)
  {
    if prev != [] {
      var p, t := prev[0], prev[1..];
      RemoveAllIsSubsequence(t, id);
      var rest := RemoveAll(t, id);
      if p != id {
        assert RemoveAll(prev, id) == [p] + rest;
        assert ([p] + rest)[1..] == rest;
      } else {
        assert RemoveAll(prev, id) == rest;
      }
    }
  }

  /** Toggling an id that is not selected appends it at the end; toggling one
      that is selected removes all of its occurrences. */
  lemma ToggleCases(prev: seq<int>, id: int)
    ensures id !in prev ==> Toggle(prev, id) == prev + [id]
    ensures id in prev ==> Toggle(prev, id) == RemoveAll(prev, id)
  {
  }

  /** A toggle flips the selection of its id and of no other id. */
  lemma ToggleFlipsSelection(prev: seq<int>, id: int)
    ensures IsSelected(Toggle(prev, id), id) == !IsSelected(prev, id)
    ensures forall x :: x != id ==> (IsSelected(Toggle(prev, id), x) == IsSelected(prev, x))
  {
  }

  lemma {:induction false} RemoveAllKeepsNoDuplicates(prev: seq<int>, id: int)
    requires NoDuplicates(prev)
    ensures NoDuplicates(RemoveAll(prev, id))
  {
    if prev != [] {
      assert NoDuplicates(prev[1..]) by {
        forall i, j | 0 <= i < j < |prev[1..]| ensures prev[1..][i] != prev[1..][j] {
          assert prev[1..][i] == prev[i + 1] && prev[1..][j] == prev[j + 1];
        }
      }
      RemoveAllKeepsNoDuplicates(prev[1..], id);
      var rest := RemoveAll(prev[1..], id);
      if prev[0] != id {
        assert prev[0] !in prev[1..];
        var r := [prev[0]] + rest;
        forall i, j | 0 <= i < j < |r| ensures r[i] != r[j] {
          assert r[j] == rest[j - 1];
          if i > 0 {
            assert r[i] == rest[i - 1];
          }
        }
      }
    }
  }

  /** A list without repeated ids stays so under toggling. */
  lemma ToggleKeepsNoDuplicates(prev: seq<int>, id: int)
    requires NoDuplicates(prev)
    ensures NoDuplicates(Toggle(prev, id))
  {
    if id in prev {
      RemoveAllKeepsNoDuplicates(prev, id);
    } else {
      var r := prev + [id];
      forall i, j | 0 <= i < j < |r| ensures r[i] != r[j] {
        if j == |prev| {
          assert r[i] == prev[i];
        }
      }
    }
  }

  lemma {:induction false} RemoveAllOfAbsent(prev: seq<int>, id: int)
    requires id !in prev
    ensures RemoveAll(prev, id) == prev
  {
    if prev != [] {
      RemoveAllOfAbsent(prev[1..], id);
    }
  }

  lemma {:induction false} RemoveAllAppend(prev: seq<int>, id: int)
    ensures RemoveAll(prev + [id], id) == RemoveAll(prev, id)
  {
    if prev == [] {
      assert [id][1..] == [];
    } else {
      assert (prev + [id])[1..] == prev[1..] + [id];
      RemoveAllAppend(prev[1..], id);
    }
  }

  /** Toggling twice selects the same ids as before; an id that was absent
      leaves the list exactly as it was, and an id that was present ends up
      once, at the end. */
  lemma ToggleTwice(prev: seq<int>, id: int)
    ensures forall x :: IsSelected(Toggle(Toggle(prev, id), id), x) == IsSelected(prev, x)
    ensures id !in prev ==> Toggle(Toggle(prev, id), id) == prev
    ensures id in prev ==> Toggle(Toggle(prev, id), id) == RemoveAll(prev, id) + [id]
  {
    if id !in prev {
      RemoveAllAppend(prev, id);
      RemoveAllOfAbsent(prev, id);
    }
  }
}
