/**
 * Enigma 1 (server/enigmas/enigma1.js): storyboards the players drag around
 * and drop into numbered slots. Positions are stored as given; the only
 * arithmetic on them happens in the client.
 */
module Enigma1Puzzle {
  import opened Wrappers
  import JsArrays

  datatype Position = Position(x: real, y: real)
  datatype Storyboard = Storyboard(name: string, position: Position, index: int)
  /** One entry of an `enigma1:move` payload. */
  datatype Move = Move(key: string, x: real, y: real)

  datatype Enigma1Row = Enigma1Row(storyboards: seq<Storyboard>, completed: bool)

  /** The row created with the room: no storyboards, not completed. */
  const EmptyRow: Enigma1Row := Enigma1Row([], false)

  /** `storyboards.find(s => s.name === key)`, as an index. */
  function FindName(sbs: seq<Storyboard>, key: string): (r: Option<nat>)
    ensures r.Some? ==> r.value < |sbs| && sbs[r.value].name == key
    ensures r.Some? ==> forall j :: 0 <= j < r.value ==> sbs[j].name != key
    ensures r.None? <==> forall j :: 0 <= j < |sbs| ==> sbs[j].name != key
  {
    JsArrays.FindIndex(sbs, (s: Storyboard) => s.name == key)
  }

  predicate HasName(sbs: seq<Storyboard>, key: string) {
    exists j :: 0 <= j < |sbs| && sbs[j].name == key
  }

  /** Same names and slot indices, element by element. */
  predicate SameShape(a: seq<Storyboard>, b: seq<Storyboard>) {
    |a| == |b| && forall j :: 0 <= j < |a| ==> a[j].name == b[j].name && a[j].index == b[j].index
  }

  // ---------------------------------------------------------------- move

  /** The moves applied left to right; `None` as soon as a key names no storyboard. */
  function Moved(sbs: seq<Storyboard>, moves: seq<Move>): (r: Option<seq<Storyboard>>)
    ensures r.Some? ==> |r.value| == |sbs|
    ensures r.Some? ==> forall i :: 0 <= i < |sbs| ==> r.value[i].name == sbs[i].name && r.value[i].index == sbs[i].index
    decreases |moves|
  {
    if |moves| == 0 then Some(sbs)
    else match FindName(sbs, moves[0].key)
      case None => None
      case Some(i) => Moved(sbs[i := sbs[i].(position := Position(moves[0].x, moves[0].y))], moves[1..])
  }

  /**
   * The loop of `enigma1:move`: each entry's storyboard (the first with that
   * name) takes the entry's position; a key naming no storyboard ends the
   * handler with nothing to persist.
   */
  method ApplyMoves(sbs: seq<Storyboard>, moves: seq<Move>) returns (r: Option<seq<Storyboard>>)
    ensures r == Moved(sbs, moves)
  {
    var current := sbs;
    var i := 0;
    while i < |moves|
      invariant 0 <= i <= |moves|
      invariant Moved(sbs, moves) == Moved(current, moves[i..])
    {
      assert moves[i..][0] == moves[i] && moves[i..][1..] == moves[i + 1..];
      var found := FindName(current, moves[i].key);
      if found.None? {
        return None;
      }
      var k := found.value;
      current := current[k := current[k].(position := Position(moves[i].x, moves[i].y))];
      i := i + 1;
    }
    assert moves[i..] == [];
    r := Some(current);
  }

  /** The position the last entry for `key` asks for, if any entry names it. */
  function LastMoveFor(moves: seq<Move>, key: string): Option<Position>
    decreases |moves|
  {
    if |moves| == 0 then None
    else match LastMoveFor(moves[1..], key)
      case Some(p) => Some(p)
      case None => if moves[0].key == key then Some(Position(moves[0].x, moves[0].y)) else None
  }

  /** A storyboard is the one `find` returns for its name. */
  predicate IsFirstOfName(sbs: seq<Storyboard>, j: nat) {
    j < |sbs| && forall i :: 0 <= i < j ==> sbs[i].name != sbs[j].name
  }

  /** A move fails exactly when one of its keys names no storyboard. */
  lemma {:induction false} MovedFailsIff(sbs: seq<Storyboard>, moves: seq<Move>)
    ensures Moved(sbs, moves).None? <==> exists m :: 0 <= m < |moves| && !HasName(sbs, moves[m].key)
    decreases |moves|
  {
    if |moves| > 0 {
      match FindName(sbs, moves[0].key)
      case None =>
        assert !HasName(sbs, moves[0].key);
      case Some(i) =>
        var next := sbs[i := sbs[i].(position := Position(moves[0].x, moves[0].y))];
        MovedFailsIff(next, moves[1..]);
        forall key ensures HasName(next, key) <==> HasName(sbs, key) {
          if HasName(sbs, key) {
            var j :| 0 <= j < |sbs| && sbs[j].name == key;
            assert next[j].name == key;
          }
        }
        assert HasName(sbs, moves[0].key);
        if exists m :: 0 <= m < |moves| && !HasName(sbs, moves[m].key) {
          var m :| 0 <= m < |moves| && !HasName(sbs, moves[m].key);
          assert m > 0 && moves[1..][m - 1] == moves[m];
        }
        if exists m :: 0 <= m < |moves[1..]| && !HasName(next, moves[1..][m].key) {
          var m :| 0 <= m < |moves[1..]| && !HasName(next, moves[1..][m].key);
          assert moves[1..][m] == moves[m + 1];
        }
    }
  }

  /**
   * After a successful move the storyboards keep their names and slot
   * indices; the storyboard `find` returns for a name stands where the last
   * entry for that name put it, and every other storyboard has not moved.
   */
  lemma {:induction false} MovedPositions(sbs: seq<Storyboard>, moves: seq<Move>)
    requires Moved(sbs, moves).Some?
    ensures SameShape(sbs, Moved(sbs, moves).value)
    ensures forall j :: 0 <= j < |sbs| ==>
              Moved(sbs, moves).value[j].position ==
                if IsFirstOfName(sbs, j) && LastMoveFor(moves, sbs[j].name).Some?
                then LastMoveFor(moves, sbs[j].name).value else sbs[j].position
    decreases |moves|
  {
    if |moves| > 0 {
      var i := FindName(sbs, moves[0].key).value;
      var next := sbs[i := sbs[i].(position := Position(moves[0].x, moves[0].y))];
      MovedPositions(next, moves[1..]);
      assert forall k :: 0 <= k < |sbs| ==> next[k].name == sbs[k].name;
      forall j | 0 <= j < |sbs| ensures IsFirstOfName(next, j) == IsFirstOfName(sbs, j) {
      }
      var r := Moved(sbs, moves).value;
      forall j | 0 <= j < |sbs|
        ensures r[j].position ==
                if IsFirstOfName(sbs, j) && LastMoveFor(moves, sbs[j].name).Some?
                then LastMoveFor(moves, sbs[j].name).value else sbs[j].position
      {
        if j == i {
          assert IsFirstOfName(sbs, j);
        } else if IsFirstOfName(sbs, j) && sbs[j].name == moves[0].key {
          assert false;
        }
      }
    }
  }

  /** Moving a storyboard with no entry in the list leaves its position alone. */
  lemma UnnamedStaysPut(sbs: seq<Storyboard>, moves: seq<Move>, j: nat)
    requires Moved(sbs, moves).Some? && j < |sbs|
    requires forall m :: 0 <= m < |moves| ==> moves[m].key != sbs[j].name
    ensures |Moved(sbs, moves).value| == |sbs| && Moved(sbs, moves).value[j] == sbs[j]
  {
    MovedPositions(sbs, moves);
    NoEntryNoMove(moves, sbs[j].name);
  }

  lemma {:induction false} NoEntryNoMove(moves: seq<Move>, key: string)
    requires forall m :: 0 <= m < |moves| ==> moves[m].key != key
    ensures LastMoveFor(moves, key).None?
    decreases |moves|
  {
    if |moves| > 0 {
      NoEntryNoMove(moves[1..], key);
    }
  }

  // ---------------------------------------------------------------- swap

  /**
   * `enigma1:swap-slots`: the storyboards named `slot1` and `slot2` exchange
   * their `index` fields; either name missing is an error.
   */
  function Swapped(sbs: seq<Storyboard>, slot1: string, slot2: string): (r: Option<seq<Storyboard>>)
    ensures r.Some? ==> |r.value| == |sbs|
    ensures r.Some? ==> forall i :: 0 <= i < |sbs| ==> r.value[i].name == sbs[i].name && r.value[i].position == sbs[i].position
  {
    match (FindName(sbs, slot1), FindName(sbs, slot2))
    case (Some(i), Some(j)) =>
      // `[s1.index, s2.index] = [s2.index, s1.index]`: both right-hand values are read first
      var (a, b) := (sbs[i].index, sbs[j].index);
      var first := sbs[i := sbs[i].(index := b)];
      Some(first[j := first[j].(index := a)])
    case _ => None
  }

  /** A swap fails exactly when one of the two names is unknown. */
  lemma SwapFailsIff(sbs: seq<Storyboard>, slot1: string, slot2: string)
    ensures Swapped(sbs, slot1, slot2).None? <==> !HasName(sbs, slot1) || !HasName(sbs, slot2)
  {
  }

  /**
   * A swap exchanges the slot indices of the two named storyboards and
   * changes nothing else: names and positions stay, other storyboards stay.
   */
  lemma SwapEffect(sbs: seq<Storyboard>, slot1: string, slot2: string)
    requires Swapped(sbs, slot1, slot2).Some?
    ensures var r := Swapped(sbs, slot1, slot2).value;
            var i, j := FindName(sbs, slot1).value, FindName(sbs, slot2).value;
            && |r| == |sbs|
            && r[i].index == sbs[j].index && r[j].index == sbs[i].index
            && (forall k :: 0 <= k < |sbs| ==> r[k].name == sbs[k].name && r[k].position == sbs[k].position)
            && (forall k :: 0 <= k < |sbs| && k != i && k != j ==> r[k] == sbs[k])
  {
  }

  /** Swapping a storyboard with itself changes nothing. */
  lemma SwapSelf(sbs: seq<Storyboard>, slot: string)
    requires HasName(sbs, slot)
    ensures Swapped(sbs, slot, slot) == Some(sbs)
  {
    var i := FindName(sbs, slot).value;
    assert sbs[i := sbs[i]] == sbs;
  }

  /** Issuing the same swap twice restores the original arrangement. */
  lemma SwapInvolution(sbs: seq<Storyboard>, slot1: string, slot2: string)
    requires Swapped(sbs, slot1, slot2).Some?
    ensures Swapped(Swapped(sbs, slot1, slot2).value, slot1, slot2) == Some(sbs)
  {
    var r := Swapped(sbs, slot1, slot2).value;
    SwapEffect(sbs, slot1, slot2);
    var i, j := FindName(sbs, slot1).value, FindName(sbs, slot2).value;
    assert FindName(r, slot1) == FindName(sbs, slot1) by {
      assert forall k :: 0 <= k < |sbs| ==> r[k].name == sbs[k].name;
    }
    assert FindName(r, slot2) == FindName(sbs, slot2) by {
      assert forall k :: 0 <= k < |sbs| ==> r[k].name == sbs[k].name;
    }
    var r2 := Swapped(r, slot1, slot2).value;
    SwapEffect(r, slot1, slot2);
    forall k | 0 <= k < |sbs| ensures r2[k] == sbs[k] {
      if k == i || k == j {
        assert r2[k].index == sbs[k].index;
      }
    }
    assert r2 == sbs;
  }
}
