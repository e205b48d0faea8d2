/**
 * Enigma 2 (server/enigmas/enigma2.js): five photos, each to be given a
 * lighting style. Stored slots are strings; a slot that JSON brought back
 * as `null` (a hole left by writing past the end) is `None`.
 */
module Enigma2Puzzle {
  import opened Wrappers
  import JsArrays

  const SlotCount: nat := 5

  /** The expected lighting for each photo, in order. */
  const Solution: seq<string> := [
    "\U{C9}clairage 3 points",
    "Low-key (film noir)",
    "High-key",
    "Contre-jour",
    "Lumi\U{E8}re naturelle"
  ]

  datatype Enigma2Row = Enigma2Row(photos: seq<Option<string>>, completed: bool)

  /** The row created with the room: no photos, not completed. */
  const EmptyRow: Enigma2Row := Enigma2Row([], false)

  /** `lighting || ""`: a missing or empty lighting is stored as the empty string. */
  function StoredLighting(lighting: Option<string>): string {
    if lighting.Some? then lighting.value else ""
  }

  /** The slot an `update` leaves at position `i` other than the written one. */
  function Padded(photos: seq<Option<string>>, i: nat): Option<string> {
    if i < |photos| then photos[i] else if i < SlotCount then Some("") else None
  }

  /** `photos` padded with `""` up to five entries. */
  function PadTo5(photos: seq<Option<string>>): (r: seq<Option<string>>)
    ensures |r| == if |photos| > SlotCount then |photos| else SlotCount
    ensures forall i :: 0 <= i < |r| ==> r[i] == Padded(photos, i)
  {
    seq(if |photos| > SlotCount then |photos| else SlotCount, (i: int) requires 0 <= i => Padded(photos, i))
  }

  /**
   * The photos after `enigma2:update`: padded to five entries, then the
   * lighting (or `""`) written at `index`; every other slot is the old one
   * or a padding `""`.
   */
  function Updated(photos: seq<Option<string>>, index: int, lighting: Option<string>): (r: seq<Option<string>>)
    ensures |r| == if 0 <= index && index >= |photos| && index >= SlotCount then index + 1
                   else if |photos| > SlotCount then |photos| else SlotCount
    ensures 0 <= index ==> r[index] == Some(StoredLighting(lighting))
    ensures forall i :: 0 <= i < |r| && i != index ==> r[i] == Padded(photos, i)
  {
    JsArrays.Assign(PadTo5(photos), index, Some(StoredLighting(lighting)), None)
  }

  /** The handler's own steps: copy, pad in a loop, assign. */
  method PadAndWrite(photos: seq<Option<string>>, index: int, lighting: Option<string>) returns (r: seq<Option<string>>)
    ensures r == Updated(photos, index, lighting)
  {
    var padded := photos;
    while |padded| < SlotCount
      invariant |photos| <= |padded| && (|padded| <= SlotCount || padded == photos)
      invariant forall i :: 0 <= i < |padded| ==> padded[i] == Padded(photos, i)
      decreases SlotCount - |padded|
    {
      padded := padded + [Some("")];
    }
    assert padded == PadTo5(photos);
    r := JsArrays.Assign(padded, index, Some(StoredLighting(lighting)), None);
  }

  /** `enigma2:reset`: five empty slots; `completed` is untouched. */
  function Reset(row: Enigma2Row): (r: Enigma2Row)
    ensures r.completed == row.completed
    ensures |r.photos| == SlotCount && forall i :: 0 <= i < SlotCount ==> r.photos[i] == Some("")
  {
    row.(photos := JsArrays.Repeat(Some(""), SlotCount))
  }

  /** The submit test: exactly five photos, each with the expected lighting. */
  predicate IsCorrect(photos: seq<Option<string>>)
    ensures IsCorrect(photos) ==> forall i :: 0 <= i < |photos| ==> photos[i].Some? && photos[i] != Some("")
  {
    |photos| == |Solution| && forall i :: 0 <= i < |photos| ==> photos[i] == Some(Solution[i])
  }

  /** `enigma2:submit`: a correct arrangement latches `completed`; nothing ever clears it. */
  function Submit(row: Enigma2Row): (r: Enigma2Row)
    ensures r.photos == row.photos
    ensures r.completed <==> row.completed || IsCorrect(row.photos)
  {
    if IsCorrect(row.photos) then row.(completed := true) else row
  }

  /** The only arrangement that completes the enigma is the solution itself. */
  lemma CorrectIsSolution(photos: seq<Option<string>>)
    ensures IsCorrect(photos) <==> photos == seq(|Solution|, i requires 0 <= i < |Solution| => Some(Solution[i]))
  {
  }

  /** Reset after a success: slots empty again, `completed` still true (the latch of the game's design). */
  lemma ResetAfterSuccess(row: Enigma2Row)
    requires IsCorrect(row.photos)
    ensures var r := Reset(Submit(row)); r.completed && !IsCorrect(r.photos)
  {
    var r := Reset(Submit(row));
    assert r.photos[0] != Some(Solution[0]);
  }

  /** A wrong submit after a success still reports completed. */
  lemma LatchHolds(row: Enigma2Row)
    requires row.completed
    ensures Submit(row).completed && Reset(row).completed
  {
  }

  /** One of the three handlers, with its payload. */
  datatype Action = Update(index: int, lighting: Option<string>) | ResetAll | SubmitAll

  /** The row after one handler. */
  function Step(row: Enigma2Row, a: Action): Enigma2Row {
    match a
    case Update(index, lighting) => row.(photos := Updated(row.photos, index, lighting))
    case ResetAll => Reset(row)
    case SubmitAll => Submit(row)
  }

  function Replay(row: Enigma2Row, actions: seq<Action>): Enigma2Row
    decreases |actions|
  {
    if |actions| == 0 then row else Replay(Step(row, actions[0]), actions[1..])
  }

  /** Any sequence of updates, resets and submits never turns `completed` back to false. */
  lemma {:induction false} CompletedIsMonotone(row: Enigma2Row, actions: seq<Action>)
    requires row.completed
    ensures Replay(row, actions).completed
    decreases |actions|
  {
    if |actions| > 0 {
      CompletedIsMonotone(Step(row, actions[0]), actions[1..]);
    }
  }
}
