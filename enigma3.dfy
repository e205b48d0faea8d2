/**
 * Enigma 3 (server/enigmas/enigma3.js): cast six narrative roles. Slot `i`
 * of `roles` holds the key of the character given role `i`; `None` is a
 * JSON `null`.
 */
module Enigma3Puzzle {
  import opened Wrappers
  import JsArrays

  /** The expected character for each role index. */
  const Solution: seq<string> := ["jack", "molly", "caledon", "fabrizio", "rose", "lovejoy"]

  datatype Enigma3Row = Enigma3Row(roles: seq<Option<string>>, completed: bool)

  /** The row created with the room: no roles, not completed. */
  const EmptyRow: Enigma3Row := Enigma3Row([], false)

  /** `enigma3:update`: `newRoles[index] = role` on a copy of `roles`. */
  function Updated(roles: seq<Option<string>>, index: int, role: Option<string>): (r: seq<Option<string>>)
    ensures index < 0 ==> r == roles
    ensures 0 <= index ==> |r| == if index < |roles| then |roles| else index + 1
    ensures 0 <= index ==> r[index] == role
    ensures 0 <= index ==> forall i :: 0 <= i < |r| && i != index ==> r[i] == if i < |roles| then roles[i] else None
  {
    JsArrays.Assign(roles, index, role, None)
  }

  /**
   * `roles.every((role, i) => role === solution[i])`: there is no length
   * check, and past the sixth slot `solution[i]` is `undefined`, which no
   * stored value equals.
   */
  predicate EveryMatches(roles: seq<Option<string>>)
    ensures EveryMatches(roles) ==> forall i :: 0 <= i < |roles| ==> roles[i].Some? && roles[i].value in Solution
  {
    forall i :: 0 <= i < |roles| ==> i < |Solution| && roles[i] == Some(Solution[i])
  }

  /** `enigma3:submit`: a passing check latches `completed`; a failing one leaves it as it was. */
  function Submit(row: Enigma3Row): (r: Enigma3Row)
    ensures r.roles == row.roles
    ensures r.completed <==> row.completed || EveryMatches(row.roles)
  {
    if EveryMatches(row.roles) then row.(completed := true) else row
  }

  /** The check passes exactly on the prefixes of the solution, the empty list included. */
  lemma EveryMatchesIffPrefix(roles: seq<Option<string>>)
    ensures EveryMatches(roles) <==>
              |roles| <= |Solution| && forall i :: 0 <= i < |roles| ==> roles[i] == Some(Solution[i])
  {
    if |roles| > |Solution| {
      // the slot just past the solution has no expected character
      var k := |Solution|;
      assert roles[k] == roles[k];
    }
  }

  /** So a room whose roles were never written completes the enigma on its first submit. */
  lemma EmptyRolesComplete()
    ensures Submit(EmptyRow).completed
  {
  }

  /** A single correct slot is enough as long as it is the first one. */
  lemma OneCorrectSlotCompletes()
    ensures Submit(Enigma3Row(Updated([], 0, Some("jack")), false)).completed
  {
    var r := Updated([], 0, Some("jack"));
    assert r == [Some("jack")];
  }

  /** A slot written past the end leaves `null` holes, which fail the check. */
  lemma HoleFailsCheck(role: string)
    ensures !EveryMatches(Updated([], 1, Some(role)))
  {
    assert Updated([], 1, Some(role))[0] == None;
  }

  /** An update touches only its own slot (and the holes it opens). */
  lemma UpdateIsLocal(roles: seq<Option<string>>, index: int, role: Option<string>, i: nat)
    requires i < |roles| && i != index
    ensures i < |Updated(roles, index, role)| && Updated(roles, index, role)[i] == roles[i]
  {
  }

  /** Whatever the roles, `completed` never goes back to false. */
  lemma LatchHolds(row: Enigma3Row, index: int, role: Option<string>)
    requires row.completed
    ensures Submit(row).completed && Submit(row.(roles := Updated(row.roles, index, role))).completed
  {
  }
}
