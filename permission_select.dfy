/** The permission picker: a search box over the catalogue and a selection
    that each click toggles by identifier. */
module PermissionSelect {
  import opened Types
  import opened Seqs
  import opened Text

  /** `selectedPermissions.some(p => p.permission === id)`: whether the entry
      for `id` shows a ticked checkbox. `find` is truthy in exactly the same
      cases, since catalogue entries are objects. */
  predicate IsSelected(selected: seq<Permission>, id: string) {
    exists i :: 0 <= i < |selected| && selected[i].permission == id
  }

  /** `selected.filter(p => p.permission !== id)`: no entry for `id` is
      left, every other entry stays, and nothing new comes in. */
  function Without(selected: seq<Permission>, id: string): (r: seq<Permission>)
    ensures !IsSelected(r, id)
    ensures forall i :: 0 <= i < |selected| && selected[i].permission != id ==> selected[i] in r
    ensures forall i :: 0 <= i < |r| ==> r[i] in selected
  {
    Filter(selected, (q: Permission) => q.permission != id)
  }

  /** `togglePermission`: remove every entry with the clicked identifier when
      one is there, otherwise append the clicked entry; either way the clicked
      entry's checkbox flips. */
  function TogglePermission(selected: seq<Permission>, p: Permission): (r: seq<Permission>)
    ensures IsSelected(r, p.permission) <==> !IsSelected(selected, p.permission)
    ensures IsSelected(selected, p.permission) ==> r == Without(selected, p.permission)
    ensures !IsSelected(selected, p.permission) ==>
      |r| == |selected| + 1 && r[..|selected|] == selected && r[|selected|] == p
  {
    if IsSelected(selected, p.permission) then Without(selected, p.permission)
    else
      assert (selected + [p])[|selected|] == p;
      selected + [p]
  }

  /** No two entries share an identifier. */
  ghost predicate UniqueIds(selected: seq<Permission>) {
    forall i, j :: 0 <= i < j < |selected| ==> selected[i].permission != selected[j].permission
  }

  /** Clicking an entry flips its own checkbox and no other. */
  lemma ToggleFlipsOnlyItsCheckbox(selected: seq<Permission>, p: Permission, id: string)
    ensures IsSelected(TogglePermission(selected, p), id)
      == if id == p.permission then !IsSelected(selected, id) else IsSelected(selected, id)
  {
    var r := TogglePermission(selected, p);
    if IsSelected(selected, p.permission) {
      if IsSelected(selected, id) && id != p.permission {
        var i :| 0 <= i < |selected| && selected[i].permission == id;
        assert selected[i] in r;
      }
    } else {
      assert r[|selected|] == p;
      if IsSelected(selected, id) {
        var i :| 0 <= i < |selected| && selected[i].permission == id;
        assert r[i] == selected[i];
      }
      if IsSelected(r, id) && id != p.permission {
        var i :| 0 <= i < |r| && r[i].permission == id;
        assert selected[i] == r[i];
      }
    }
  }


  /** Toggling a selected identifier drops every entry with it and keeps the
      others in order: the result splits along any split of the selection. */
  lemma TogglePresentRemoves(s: seq<Permission>, t: seq<Permission>, p: Permission)
    requires IsSelected(s + t, p.permission)
    ensures var r := TogglePermission(s + t, p);
      && !IsSelected(r, p.permission)
      && (forall i :: 0 <= i < |s + t| && (s + t)[i].permission != p.permission ==> (s + t)[i] in r)
      && r == Without(s, p.permission) + Without(t, p.permission)
  {
    FilterAppend(s, t, (q: Permission) => q.permission != p.permission);
  }

  /** Toggling the same unselected entry twice restores the selection. */
  lemma ToggleTwiceRestores(selected: seq<Permission>, p: Permission)
    requires !IsSelected(selected, p.permission)
    ensures TogglePermission(TogglePermission(selected, p), p) == selected
  {
    var keep := (q: Permission) => q.permission != p.permission;
    assert (selected + [p])[|selected|] == p;
    assert IsSelected(selected + [p], p.permission);
    FilterAppend(selected, [p], keep);
    FilterKeepsAll(selected, keep);
    assert Filter([p], keep) == [];
  }

  lemma ConsKeepsUnique(head: Permission, rest: seq<Permission>)
    requires UniqueIds(rest)
    requires forall j :: 0 <= j < |rest| ==> rest[j].permission != head.permission
    ensures UniqueIds([head] + rest)
  {
    var r := [head] + rest;
    forall a, b | 0 <= a < b < |r| ensures r[a].permission != r[b].permission {
      assert r[b] == rest[b - 1];
      if a > 0 {
        assert r[a] == rest[a - 1];
      }
    }
  }

  lemma {:induction false} WithoutKeepsUnique(selected: seq<Permission>, id: string)
    requires UniqueIds(selected)
    ensures UniqueIds(Without(selected, id))
  {
    if |selected| > 0 {
      var keep := (q: Permission) => q.permission != id;
      var tail := selected[1..];
      WithoutKeepsUnique(tail, id);
      var rest := Without(tail, id);
      if keep(selected[0]) {
        forall j | 0 <= j < |rest| ensures rest[j].permission != selected[0].permission {
          var k :| 0 <= k < |tail| && tail[k] == rest[j];
          assert selected[k + 1] == tail[k];
        }
        ConsKeepsUnique(selected[0], rest);
        assert Without(selected, id) == [selected[0]] + rest;
      } else {
        assert Without(selected, id) == rest;
      }
    }
  }

  /** A selection without repeated identifiers keeps that property. */
  lemma ToggleKeepsUnique(selected: seq<Permission>, p: Permission)
    requires UniqueIds(selected)
    ensures UniqueIds(TogglePermission(selected, p))
  {
    if IsSelected(selected, p.permission) {
      WithoutKeepsUnique(selected, p.permission);
    } else {
      var r := selected + [p];
      forall i, j | 0 <= i < j < |r| ensures r[i].permission != r[j].permission {
        if j == |selected| {
          assert r[i] == selected[i];
        }
      }
    }
  }

  /** The search test: the identifier or the description contains the search
      text, ignoring ASCII case. */
  predicate Matches(p: Permission, search: string) {
    || Includes(ToLower(p.permission), ToLower(search))
    || Includes(ToLower(p.description), ToLower(search))
  }

  /** `filteredPermissions`: only catalogue entries that match, and every
      one that matches. */
  function FilterPermissions(catalogue: seq<Permission>, search: string): (r: seq<Permission>)
    ensures forall i :: 0 <= i < |r| ==> r[i] in catalogue && Matches(r[i], search)
    ensures forall i :: 0 <= i < |catalogue| && Matches(catalogue[i], search) ==> catalogue[i] in r
  {
    Filter(catalogue, (p: Permission) => Matches(p, search))
  }

  /** The filter keeps exactly the matching entries, in catalogue order. */
  lemma FilterKeepsMatching(catalogue: seq<Permission>, more: seq<Permission>, search: string)
    ensures forall i :: 0 <= i < |catalogue| ==>
      (catalogue[i] in FilterPermissions(catalogue, search) <==> Matches(catalogue[i], search))
    ensures FilterPermissions(catalogue + more, search)
      == FilterPermissions(catalogue, search) + FilterPermissions(more, search)
  {
    FilterAppend(catalogue, more, (p: Permission) => Matches(p, search));
  }

  /** The search ignores the ASCII case of the search text. */
  lemma SearchIgnoresCase(p: Permission, search: string)
    ensures Matches(p, ToUpper(search)) == Matches(p, search)
  {
    ToLowerIgnoresCase(search);
  }

  /** An empty search shows the whole catalogue. */
  lemma EmptySearchKeepsAll(catalogue: seq<Permission>)
    ensures FilterPermissions(catalogue, "") == catalogue
  {
    forall i | 0 <= i < |catalogue| ensures Matches(catalogue[i], "") {
      assert OccursAt(ToLower(catalogue[i].permission), "", 0);
    }
    FilterKeepsAll(catalogue, (p: Permission) => Matches(p, ""));
  }
}
