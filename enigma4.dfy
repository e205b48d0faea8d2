/**
 * Enigma 4 (server/enigmas/enigma4.js): a stub that only stores an
 * ambiance; its submit has no solution test.
 */
module Enigma4Puzzle {
  import opened Wrappers

  datatype Enigma4Row = Enigma4Row(ambiance: Option<string>, completed: bool)

  /** The row created with the room: `ambiance` null, not completed. */
  const EmptyRow: Enigma4Row := Enigma4Row(None, false)

  /**
   * The `ambiance` field of an update payload: absent (`undefined`, which
   * the store's update skips), `null`, or a value.
   */
  datatype PayloadField = Absent | Null | Given(value: string)

  /** The update handler: writes the payload's `ambiance` and nothing else. */
  function UpdateAmbiance(row: Enigma4Row, ambiance: PayloadField): (r: Enigma4Row)
    ensures r.completed == row.completed
    ensures ambiance.Absent? ==> r == row
    ensures ambiance.Null? ==> r.ambiance.None?
    ensures ambiance.Given? ==> r.ambiance == Some(ambiance.value)
  {
    match ambiance
    case Absent => row
    case Null => row.(ambiance := None)
    case Given(v) => row.(ambiance := Some(v))
  }

  /** The submit handler: its solution test is the literal `false`, so the row never changes. */
  function Submit(row: Enigma4Row): (r: Enigma4Row)
    ensures r == row
  {
    row
  }

  /** No sequence of ambiance updates and submits ever completes enigma 4. */
  lemma {:induction false} NeverCompletes(row: Enigma4Row, updates: seq<PayloadField>)
    requires !row.completed
    ensures !Apply(row, updates).completed
    decreases |updates|
  {
    if |updates| > 0 {
      NeverCompletes(Submit(UpdateAmbiance(row, updates[0])), updates[1..]);
    }
  }

  /** Each entry: one update followed by one submit, as a client's `enigma3:update` and `enigma3:submit` fire them. */
  function Apply(row: Enigma4Row, updates: seq<PayloadField>): Enigma4Row
    decreases |updates|
  {
    if |updates| == 0 then row else Apply(Submit(UpdateAmbiance(row, updates[0])), updates[1..])
  }
}
