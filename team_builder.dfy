/** The selection logic of the team builder view
    (frontend/src/app/components/team-builder/team-builder.component.ts):
    a list of at most six distinct combatant ids, a team name, and a flag
    that freezes both while a create request is in flight. */
module TeamBuilder {
  import opened Wrappers
  import TeamRoutes

  /** The size of a team, both in the view and on the server. */
  const TeamSize := 6

  predicate NoDuplicates(s: seq<string>)
  {
    forall i, j :: 0 <= i < j < |s| ==> s[i] != s[j]
  }

  /** `Array.prototype.filter(x => x !== id)`: every occurrence of `id`
      removed, the rest kept in order. */
  function Without(s: seq<string>, id: string): (r: seq<string>)
    ensures |r| <= |s|
    ensures forall x :: x in r <==> x in s && x != id
    ensures id !in s ==> r == s
    ensures NoDuplicates(s) ==> NoDuplicates(r)
    ensures NoDuplicates(s) && id in s ==> |r| == |s| - 1
  {
    if |s| == 0 then []
    else
      assert NoDuplicates(s) ==> NoDuplicates(s[1..]) && s[0] !in s[1..];
      assert s == [s[0]] + s[1..];
      if s[0] == id then Without(s[1..], id)
      else [s[0]] + Without(s[1..], id)
  }

  /** The selection a click on `id` produces when no create is in flight:
      a selected id is removed; an unselected one is appended while fewer
      than six are selected, and ignored otherwise. */
  function Toggled(selection: seq<string>, id: string): (r: seq<string>)
    ensures id in r <==> id !in selection && |selection| < TeamSize
    ensures forall x :: x != id ==> (x in r <==> x in selection)
    ensures id !in selection && |selection| < TeamSize ==> r == selection + [id]
    ensures id !in selection && |selection| >= TeamSize ==> r == selection
  {
    if id in selection then Without(selection, id)
    else if |selection| < TeamSize then selection + [id]
    else selection
  }

  /** The view's invariant on the selection. */
  predicate ValidSelection(s: seq<string>)
  {
    NoDuplicates(s) && |s| <= TeamSize
  }

  /** A click keeps the selection free of duplicates and at most six long. */
  lemma ToggledKeepsValid(s: seq<string>, id: string)
    requires ValidSelection(s)
    ensures ValidSelection(Toggled(s, id))
  {
    if id !in s && |s| < TeamSize {
      var r := s + [id];
      forall i, j | 0 <= i < j < |r| ensures r[i] != r[j] {
        if j == |s| {
          assert r[i] == s[i];
        }
      }
    }
  }

  /** In a duplicate-free list, removing the id at position `k` leaves the
      ids before it and the ids after it, each in their order. */
  lemma {:induction false} WithoutKeepsOrder(s: seq<string>, id: string, k: nat)
    requires NoDuplicates(s) && k < |s| && s[k] == id
    ensures Without(s, id) == s[..k] + s[k + 1..]
  {
    assert NoDuplicates(s[1..]) && s[0] !in s[1..];
    if k == 0 {
      assert id !in s[1..];
    } else {
      assert s[0] != id;
      WithoutKeepsOrder(s[1..], id, k - 1);
      assert s[..k] == [s[0]] + s[1..][..k - 1];
      assert s[k + 1..] == s[1..][k..];
    }
  }

  /** Removal and concatenation commute. */
  lemma {:induction false} WithoutAppend(s: seq<string>, t: seq<string>, id: string)
    ensures Without(s + t, id) == Without(s, id) + Without(t, id)
  {
    if |s| == 0 {
      assert s + t == t;
    } else {
      assert (s + t)[1..] == s[1..] + t;
      WithoutAppend(s[1..], t, id);
    }
  }

  /** Clicking an unselected id twice, with room for it, gives back the
      selection unchanged. */
  lemma ToggleTwiceRestores(s: seq<string>, id: string)
    requires id !in s && |s| < TeamSize
    ensures Toggled(Toggled(s, id), id) == s
  {
    WithoutAppend(s, [id], id);
  }

  /** Deselecting keeps the order of the other ids: clicking a selected id
      twice moves it to the end. */
  lemma ReselectMovesToEnd(s: seq<string>, id: string)
    requires ValidSelection(s) && id in s
    ensures Toggled(Toggled(s, id), id) == Without(s, id) + [id]
    ensures forall k :: 0 <= k < |s| && s[k] == id ==>
              Toggled(Toggled(s, id), id) == s[..k] + s[k + 1..] + [id]
  {
    forall k | 0 <= k < |s| && s[k] == id
      ensures Toggled(Toggled(s, id), id) == s[..k] + s[k + 1..] + [id]
    {
      WithoutKeepsOrder(s, id, k);
    }
  }

  /** The create button's enabled condition, the negation of its
      `[disabled]` binding. */
  predicate CreateEnabled(selection: seq<string>, newTeamName: string, isCreating: bool)
    ensures CreateEnabled(selection, newTeamName, isCreating) <==>
              |selection| == TeamSize && |newTeamName| > 0 && !isCreating
  {
    !(|selection| != TeamSize || newTeamName == "" || isCreating)
  }

  /** Whenever the button is enabled, the request it sends passes the
      server's checks; and a request the server accepts from an idle view
      is one the button allows. */
  lemma EnabledMatchesServer(selection: seq<string>, newTeamName: string, isCreating: bool)
    ensures CreateEnabled(selection, newTeamName, isCreating) <==>
              !isCreating && TeamRoutes.ValidateCreate(Some(newTeamName), Some(selection)).Ok?
    ensures CreateEnabled(selection, newTeamName, isCreating) ==>
              TeamRoutes.ValidateCreate(Some(newTeamName), Some(selection))
              == Ok(TeamRoutes.CreateTeam(newTeamName, selection))
  {
  }

  /** The view's selection state. */
  class TeamBuilderComponent {
    var selection: seq<string>
    var newTeamName: string
    var isCreating: bool

    ghost predicate Valid()
      reads this
    {
      ValidSelection(selection)
    }

    constructor()
      ensures Valid()
      ensures selection == [] && newTeamName == "" && !isCreating
    {
      selection := [];
      newTeamName := "";
      isCreating := false;
    }

    /** A click on a list item. */
    method ToggleSelection(id: string)
      requires Valid()
      modifies this
      ensures Valid()
      ensures selection == if old(isCreating) then old(selection) else Toggled(old(selection), id)
      ensures newTeamName == old(newTeamName) && isCreating == old(isCreating)
    {
      if isCreating {
        return;
      }
      if id in selection {
        selection := Without(selection, id);
      } else {
        if |selection| < TeamSize {
          selection := selection + [id];
        }
      }
      ToggledKeepsValid(old(selection), id);
    }

    /** The name input, bound two-way; the template disables it while a
        create is in flight. */
    method SetTeamName(name: string)
      modifies this
      ensures newTeamName == if old(isCreating) then old(newTeamName) else name
      ensures selection == old(selection) && isCreating == old(isCreating)
    {
      if !isCreating {
        newTeamName := name;
      }
    }

    /** The create click: the request goes out with the current name and
        selection, and both are frozen until it settles. */
    method BeginCreate() returns (request: TeamRoutes.CreateTeam)
      requires Valid()
      modifies this
      ensures Valid()
      ensures isCreating
      ensures selection == old(selection) && newTeamName == old(newTeamName)
      ensures request == TeamRoutes.CreateTeam(old(newTeamName), old(selection))
    {
      isCreating := true;
      request := TeamRoutes.CreateTeam(newTeamName, selection);
    }

    /** The success callback: the form is cleared. */
    method CreateSucceeded()
      modifies this
      ensures Valid()
      ensures newTeamName == "" && selection == []
      ensures isCreating == old(isCreating)
    {
      newTeamName := "";
      selection := [];
    }

    /** The `finalize` hook, on success and on error alike. */
    method CreateSettled()
      requires Valid()
      modifies this
      ensures Valid()
      ensures !isCreating
      ensures selection == old(selection) && newTeamName == old(newTeamName)
    {
      isCreating := false;
    }
  }
}
