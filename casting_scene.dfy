/**
 * The casting screen of enigma 3 on the client,
 * public/assets/scenes/enigma3.js: the `assignments` object that maps each
 * character key to the role shown on it, kept in step with drag-and-drop
 * and with the server's `roles` array.
 */
module CastingScene {
  import opened Wrappers
  import Enigma3Puzzle

  /** The character keys, in display order. */
  const CharacterKeys: seq<string> := ["rose", "caledon", "fabrizio", "molly", "lovejoy", "jack"]

  /** The role names; a role's position is the index sent to the server. */
  const Roles: seq<string> := ["H\U{E9}ros", "Mentor", "Antagoniste", "Alli\U{E9}", "H\U{E9}ro\U{EF}ne", "Sbire"]

  /** A value of `assignments`: `null`, `undefined` (a role index past the sixth) or a role name. */
  datatype Cell = Null | Undefined | Role(name: string)

  /** What the scene sends to the server. */
  datatype Outgoing = Update(index: nat, role: string) | SubmitRequest

  /** The modals the scene opens. */
  datatype Notice = Success | TryAgain | AssignEveryRole

  lemma RolesDistinct()
    ensures forall x, y :: 0 <= x < y < |Roles| ==> Roles[x] != Roles[y]
  {
  }

  /** A JavaScript truthiness test on a stored entry: neither `null` nor `""`. */
  predicate Truthy(e: Option<string>) {
    e.Some? && e.value != ""
  }

  /** `this.roles[i]`: `undefined` past the end. */
  function CellAt(i: nat): (c: Cell)
    ensures i < |Roles| <==> c.Role?
    ensures c.Role? ==> c.name == Roles[i]
  {
    if i < |Roles| then Role(Roles[i]) else Undefined
  }

  /** The map the constructor builds: every character on `null`. */
  function Fresh(): (a: map<string, Cell>)
    ensures a.Keys == set k | k in CharacterKeys
    ensures forall k :: k in a ==> a[k] == Null
  {
    map k | k in CharacterKeys :: Null
  }

  /** No two characters show the same role. */
  predicate Injective(a: map<string, Cell>) {
    forall k1, k2 :: k1 in a && k2 in a && k1 != k2 && a[k1].Role? ==> a[k1] != a[k2]
  }

  /** Every key shows a role. `undefined` passes the `!== null` test too. */
  predicate AllAssigned(a: map<string, Cell>) {
    forall k :: k in a ==> a[k] != Null
  }

  /** One key's value after the clearing pass for `v` in favour of `key`. */
  function Cleared(c: Cell, k: string, key: string, v: Cell): Cell {
    if c == v && k != key then Null else c
  }

  /**
   * Give `v` to `key`: first every other key showing `v` is set to `null`,
   * then `key` is set. Afterwards `key` is the only key showing `v`.
   */
  function Claimed(a: map<string, Cell>, key: string, v: Cell): (r: map<string, Cell>)
    ensures r.Keys == a.Keys + {key}
    ensures r[key] == v
    ensures v != Null ==> forall k :: k in r && k != key ==> r[k] != v
    ensures forall k :: k in a && k != key ==> r[k] == a[k] || (a[k] == v && r[k] == Null)
  {
    var m := map k | k in a :: Cleared(a[k], k, key, v);
    assert m.Keys == a.Keys;
    m[key := v]
  }

  /** Claiming keeps the map injective, whatever is claimed. */
  lemma ClaimKeepsInjective(a: map<string, Cell>, key: string, v: Cell)
    requires Injective(a)
    ensures Injective(Claimed(a, key, v))
  {
  }

  /** The effect of one server entry during sync: truthy entries are claimed with the role at their index. */
  function SyncOne(a: map<string, Cell>, i: nat, e: Option<string>): map<string, Cell> {
    if Truthy(e) then Claimed(a, e.value, CellAt(i)) else a
  }

  /** The sync of the whole server array, entry by entry in index order. */
  function Synced(a: map<string, Cell>, roles: seq<Option<string>>): (r: map<string, Cell>)
    ensures a.Keys <= r.Keys
    ensures forall k :: k in r && k !in a ==> Some(k) in roles
    decreases |roles|
  {
    if |roles| == 0 then a
    else SyncOne(Synced(a, roles[..|roles| - 1]), |roles| - 1, roles[|roles| - 1])
  }

  /** The sync never makes two characters share a role. */
  lemma {:induction false} SyncKeepsInjective(a: map<string, Cell>, roles: seq<Option<string>>)
    requires Injective(a)
    ensures Injective(Synced(a, roles))
  {
    if |roles| > 0 {
      SyncKeepsInjective(a, roles[..|roles| - 1]);
      var prev := Synced(a, roles[..|roles| - 1]);
      var e := roles[|roles| - 1];
      if Truthy(e) {
        ClaimKeepsInjective(prev, e.value, CellAt(|roles| - 1));
      }
    }
  }

  /**
   * The sync agrees with the server's array on every character it names:
   * a character stored at role index `i`, and at no later index, shows
   * role `i` afterwards.
   */
  lemma {:induction false} SyncShowsLastClaim(a: map<string, Cell>, roles: seq<Option<string>>, i: nat)
    requires i < |roles| && i < |Roles| && Truthy(roles[i])
    requires forall j :: i < j < |roles| ==> roles[j] != roles[i]
    ensures var r := Synced(a, roles); roles[i].value in r && r[roles[i].value] == CellAt(i)
  {
    var n := |roles| - 1;
    var prefix := roles[..n];
    if i < n {
      assert prefix[i] == roles[i];
      SyncShowsLastClaim(a, prefix, i);
      var prev := Synced(a, prefix);
      var e := roles[n];
      if Truthy(e) {
        assert e.value != roles[i].value;
        RolesDistinct();
        assert CellAt(i) != CellAt(n);
      }
    }
  }

  /**
   * A character no entry names keeps its value through a sync, as long as
   * no entry claims the role it shows.
   */
  lemma {:induction false} SyncKeepsUnclaimed(a: map<string, Cell>, roles: seq<Option<string>>, k: string)
    requires k in a && Some(k) !in roles
    requires forall i :: 0 <= i < |roles| && Truthy(roles[i]) ==> a[k] != CellAt(i)
    ensures k in Synced(a, roles) && Synced(a, roles)[k] == a[k]
    decreases |roles|
  {
    if |roles| > 0 {
      var n := |roles| - 1;
      var prefix := roles[..n];
      forall i | 0 <= i < |prefix| && Truthy(prefix[i])
        ensures a[k] != CellAt(i)
      {
        assert prefix[i] == roles[i];
      }
      SyncKeepsUnclaimed(a, prefix, k);
      assert roles[n] != Some(k);
    }
  }

  /** Entries that are not truthy at the end of the array change nothing in a sync. */
  lemma {:induction false} SyncSkipsTrailing(a: map<string, Cell>, roles: seq<Option<string>>, m: nat)
    requires m <= |roles|
    requires forall j :: m <= j < |roles| ==> !Truthy(roles[j])
    ensures Synced(a, roles) == Synced(a, roles[..m])
    decreases |roles|
  {
    if |roles| > m {
      var n := |roles| - 1;
      assert roles[..n][..m] == roles[..m];
      SyncSkipsTrailing(a, roles[..n], m);
    } else {
      assert roles[..m] == roles;
    }
  }

  /** A server array longer than six leaves `undefined` on the character it names past the sixth slot. */
  lemma OverlongSyncLeavesUndefined()
    ensures var roles := [None, None, None, None, None, None, Some("rose")];
            var r := Synced(Fresh(), roles);
            r["rose"] == Undefined && AllAssigned(r) == false
  {
    var roles: seq<Option<string>> := [None, None, None, None, None, None, Some("rose")];
    var prefix := roles[..6];
    SyncSkipsTrailing(Fresh(), prefix, 0);
    assert prefix[..0] == [];
    assert Synced(Fresh(), prefix) == Fresh();
    var r := Synced(Fresh(), roles);
    assert r == Claimed(Fresh(), "rose", Undefined);
    assert "jack" in Fresh();
    assert r["jack"] == Null;
  }

  /** What `init` restores: each truthy saved entry `i` shows role `i`; nothing is cleared first. */
  function Restored(a: map<string, Cell>, roles: seq<Option<string>>): (r: map<string, Cell>)
    requires |roles| <= |Roles|
    ensures a.Keys <= r.Keys
    ensures |roles| > 0 && Truthy(roles[|roles| - 1]) ==>
              roles[|roles| - 1].value in r && r[roles[|roles| - 1].value] == Role(Roles[|roles| - 1])
    decreases |roles|
  {
    if |roles| == 0 then a
    else
      var prev := Restored(a, roles[..|roles| - 1]);
      var e := roles[|roles| - 1];
      if Truthy(e) then prev[e.value := Role(Roles[|roles| - 1])] else prev
  }

  /** The restore adds only keys a saved entry names, and each key keeps its value or shows a role. */
  lemma {:induction false} RestoredKeys(a: map<string, Cell>, roles: seq<Option<string>>)
    requires |roles| <= |Roles|
    ensures forall k :: k in Restored(a, roles) && k !in a ==> Some(k) in roles
    ensures forall k :: k in Restored(a, roles) ==> (k in a && Restored(a, roles)[k] == a[k]) || Restored(a, roles)[k].Role?
    decreases |roles|
  {
    if |roles| > 0 {
      var init := roles[..|roles| - 1];
      RestoredKeys(a, init);
      forall k | k in Restored(a, init) && k !in a
        ensures Some(k) in roles
      {
        var x :| x in init && x == Some(k);
      }
    }
  }

  /** A character no saved entry names keeps its value through a restore. */
  lemma {:induction false} RestoreKeepsUnnamed(a: map<string, Cell>, roles: seq<Option<string>>, k: string)
    requires |roles| <= |Roles| && k in a && Some(k) !in roles
    ensures k in Restored(a, roles) && Restored(a, roles)[k] == a[k]
    decreases |roles|
  {
    if |roles| > 0 {
      var n := |roles| - 1;
      var prefix := roles[..n];
      RestoreKeepsUnnamed(a, prefix, k);
      assert roles[n] != Some(k);
    }
  }

  /** A truthy saved entry at index i, named at no later index, shows role i after the restore. */
  lemma {:induction false} RestoreShowsLastClaim(a: map<string, Cell>, roles: seq<Option<string>>, i: nat)
    requires |roles| <= |Roles| && i < |roles| && Truthy(roles[i])
    requires forall j :: i < j < |roles| ==> roles[j] != roles[i]
    ensures var r := Restored(a, roles); roles[i].value in r && r[roles[i].value] == Role(Roles[i])
    decreases |roles|
  {
    var n := |roles| - 1;
    var prefix := roles[..n];
    if i < n {
      assert prefix[i] == roles[i];
      RestoreShowsLastClaim(a, prefix, i);
      assert roles[n] != roles[i];
    }
  }

  /** `null`, or one of the first `n` roles. */
  predicate ShowsEarlyRole(c: Cell, n: nat)
    requires n <= |Roles|
  {
    c == Null || (c.Role? && c.name in Roles[..n])
  }

  /** From the constructor's map, a restore gives an injective map showing only the first roles. */
  lemma {:induction false} RestoreFromFreshIsInjective(roles: seq<Option<string>>)
    requires |roles| <= |Roles|
    ensures Injective(Restored(Fresh(), roles))
    ensures forall k :: k in Restored(Fresh(), roles) ==> ShowsEarlyRole(Restored(Fresh(), roles)[k], |roles|)
  {
    if |roles| > 0 {
      var n := |roles| - 1;
      RestoreFromFreshIsInjective(roles[..n]);
      var prev := Restored(Fresh(), roles[..n]);
      var r := Restored(Fresh(), roles);
      assert |roles[..n]| == n;
      assert forall k :: k in prev ==> ShowsEarlyRole(prev[k], n);
      assert forall x :: x in Roles[..n] ==> x in Roles[..n + 1] by {
        forall x | x in Roles[..n] ensures x in Roles[..n + 1] {
          var j :| 0 <= j < n && Roles[..n][j] == x;
          assert Roles[..n + 1][j] == x;
        }
      }
      assert Roles[..n + 1][n] == Roles[n];
      assert Roles[n] !in Roles[..n] by {
        RolesDistinct();
      }
      var e := roles[n];
      if Truthy(e) {
        assert r == prev[e.value := Role(Roles[n])];
        forall k1, k2 | k1 in r && k2 in r && k1 != k2 && r[k1].Role?
          ensures r[k1] != r[k2]
        {
          if k1 == e.value {
            assert r[k2] == prev[k2];
            assert ShowsEarlyRole(prev[k2], n);
          } else if k2 == e.value {
            assert r[k1] == prev[k1];
            assert ShowsEarlyRole(prev[k1], n);
          } else {
            assert r[k1] == prev[k1] && r[k2] == prev[k2];
          }
        }
      } else {
        assert r == prev;
      }
    }
  }

  /** Entries that are not truthy at the end of the saved array change nothing in a restore. */
  lemma {:induction false} RestoreSkipsTrailing(a: map<string, Cell>, roles: seq<Option<string>>, m: nat)
    requires m <= |roles| <= |Roles|
    requires forall j :: m <= j < |roles| ==> !Truthy(roles[j])
    ensures Restored(a, roles) == Restored(a, roles[..m])
    decreases |roles|
  {
    if |roles| > m {
      var n := |roles| - 1;
      assert roles[..n][..m] == roles[..m];
      RestoreSkipsTrailing(a, roles[..n], m);
    } else {
      assert roles[..m] == roles;
    }
  }

  /**
   * On a map that already shows a role, `init` can give that role to a
   * second character: the restore does not clear.
   */
  lemma RestoreDoesNotClear()
    ensures var a := Fresh()["rose" := Role(Roles[0])];
            var r := Restored(a, [Some("jack"), None, None, None, None, None]);
            "rose" in r && "jack" in r && r["rose"] == r["jack"] == Role(Roles[0]) && !Injective(r)
  {
    var a := Fresh()["rose" := Role(Roles[0])];
    var roles: seq<Option<string>> := [Some("jack"), None, None, None, None, None];
    RestoreSkipsTrailing(a, roles, 1);
    assert roles[..1][..0] == [];
    var r := Restored(a, roles);
    assert r == a["jack" := Role(Roles[0])];
    assert r["rose"] == r["jack"] == Role(Roles[0]);
  }

  class Casting {
    var assignments: map<string, Cell>
    /** Set once the success modal has been opened. */
    var successModalShown: bool
    var outbox: seq<Outgoing>
    var notices: seq<Notice>

    /** The success modal is open at most once, and exactly when the flag is set. */
    ghost predicate Valid()
      reads this
    {
      && (successModalShown <==> Success in notices)
      && (forall i, j :: 0 <= i < j < |notices| && notices[i] == Success ==> notices[j] != Success)
    }

    constructor ()
      ensures Valid()
      ensures assignments == Fresh() && Injective(assignments)
      ensures !successModalShown && outbox == [] && notices == []
    {
      assignments := Fresh();
      successModalShown := false;
      outbox := [];
      notices := [];
    }

    /** The clearing pass over `Object.keys(this.assignments)`, then the assignment to `key`. */
    method Claim(key: string, v: Cell)
      modifies this
      ensures assignments == Claimed(old(assignments), key, v)
      ensures successModalShown == old(successModalShown) && outbox == old(outbox) && notices == old(notices)
    {
      var before := assignments;
      var pending := assignments.Keys;
      while pending != {}
        invariant pending <= before.Keys
        invariant assignments.Keys == before.Keys
        invariant forall k :: k in before ==>
                    assignments[k] == if k in pending then before[k] else Cleared(before[k], k, key, v)
        invariant successModalShown == old(successModalShown) && outbox == old(outbox) && notices == old(notices)
        decreases pending
      {
        var k :| k in pending;
        if assignments[k] == v && k != key {
          assignments := assignments[k := Null];
        }
        pending := pending - {k};
      }
      assert assignments == map k | k in before :: Cleared(before[k], k, key, v);
      assignments := assignments[key := v];
    }

    /**
     * `init`: with a room row whose `roles` has exactly six entries, each
     * truthy entry `i` makes that character show role `i`; otherwise the
     * map is left alone.
     */
    method Init(row: Option<Enigma3Puzzle.Enigma3Row>)
      requires Valid()
      modifies this
      ensures Valid()
      ensures row.Some? && |row.value.roles| == |Roles| ==> assignments == Restored(old(assignments), row.value.roles)
      ensures !(row.Some? && |row.value.roles| == |Roles|) ==> assignments == old(assignments)
      ensures successModalShown == old(successModalShown) && outbox == old(outbox) && notices == old(notices)
    {
      if row.None? || |row.value.roles| != |Roles| {
        return;
      }
      var roles := row.value.roles;
      var i := 0;
      while i < |roles|
        invariant 0 <= i <= |roles|
        invariant assignments == Restored(old(assignments), roles[..i])
        invariant successModalShown == old(successModalShown) && outbox == old(outbox) && notices == old(notices)
      {
        assert roles[..i + 1][..i] == roles[..i];
        if Truthy(roles[i]) {
          assignments := assignments[roles[i].value := Role(Roles[i])];
        }
        i := i + 1;
      }
      assert roles[..|roles|] == roles;
    }

    /**
     * A role dropped on a character: the role leaves every other character,
     * the character shows it, and the server is told the role's index and
     * the character's key.
     */
    method Drop(roleIndex: nat, characterKey: string)
      requires roleIndex < |Roles| && characterKey in CharacterKeys
      modifies this
      ensures assignments == Claimed(old(assignments), characterKey, Role(Roles[roleIndex]))
      ensures outbox == old(outbox) + [Update(roleIndex, characterKey)]
      ensures successModalShown == old(successModalShown) && notices == old(notices)
    {
      Claim(characterKey, Role(Roles[roleIndex]));
      outbox := outbox + [Update(roleIndex, characterKey)];
    }

    /** The `roles.forEach` of `game:update`: every truthy server entry is claimed in index order. */
    method SyncFromServer(roles: seq<Option<string>>)
      modifies this
      ensures assignments == Synced(old(assignments), roles)
      ensures successModalShown == old(successModalShown) && outbox == old(outbox) && notices == old(notices)
    {
      var i := 0;
      while i < |roles|
        invariant 0 <= i <= |roles|
        invariant assignments == Synced(old(assignments), roles[..i])
        invariant successModalShown == old(successModalShown) && outbox == old(outbox) && notices == old(notices)
      {
        assert roles[..i + 1][..i] == roles[..i];
        if Truthy(roles[i]) {
          Claim(roles[i].value, CellAt(i));
        }
        i := i + 1;
      }
      assert roles[..|roles|] == roles;
    }

    /**
     * `game:update`: the sync; then the success modal opens if the row is
     * completed and it has not opened yet, or a failed submission is reported.
     */
    method OnGameUpdate(row: Enigma3Puzzle.Enigma3Row, eventKind: Option<string>)
      requires Valid()
      modifies this
      ensures Valid()
      ensures assignments == Synced(old(assignments), row.roles)
      ensures outbox == old(outbox)
      ensures row.completed && !old(successModalShown) ==> successModalShown && notices == old(notices) + [Success]
      ensures !(row.completed && !old(successModalShown)) ==>
                && successModalShown == old(successModalShown)
                && notices == old(notices) + (if eventKind == Some("enigma3:submit-result") && !row.completed then [TryAgain] else [])
    {
      SyncFromServer(row.roles);
      if row.completed && !successModalShown {
        successModalShown := true;
        notices := notices + [Success];
      } else if eventKind == Some("enigma3:submit-result") && !row.completed {
        notices := notices + [TryAgain];
      }
    }

    /**
     * `submitSolution`: nothing once completed; a warning unless every key
     * shows something; otherwise the submission is sent.
     */
    method SubmitSolution(completed: bool)
      requires Valid()
      modifies this
      ensures Valid()
      ensures completed ==> outbox == old(outbox) && notices == old(notices)
      ensures !completed && !AllAssigned(assignments) ==> outbox == old(outbox) && notices == old(notices) + [AssignEveryRole]
      ensures !completed && AllAssigned(assignments) ==> outbox == old(outbox) + [SubmitRequest] && notices == old(notices)
      ensures assignments == old(assignments) && successModalShown == old(successModalShown)
    {
      if completed {
        return;
      }
      if !AllAssigned(assignments) {
        notices := notices + [AssignEveryRole];
        return;
      }
      outbox := outbox + [SubmitRequest];
    }
  }
}
