/**
 * Room codes: six characters drawn from an alphabet without the glyphs that
 * are easy to confuse (no I, no O, no 0). The three server variants carry
 * the same generator; the random draws are the `picks` parameter.
 */
module RoomCodes {

  const Alphabet: string := "ABCDEFGHJKLMNPQRSTUVWXYZ123456789"
  const CodeLength: nat := 6

  /** A well-formed room code. */
  predicate IsRoomCode(code: string) {
    |code| == CodeLength && forall i :: 0 <= i < |code| ==> code[i] in Alphabet
  }

  /** One random draw: `Math.floor(Math.random() * chars.length)` is an index into the alphabet. */
  predicate ValidPicks(picks: seq<nat>) {
    |picks| == CodeLength && forall i :: 0 <= i < |picks| ==> picks[i] < |Alphabet|
  }

  /** `generateRoomCode`: append the character at each drawn index, six times. */
  method GenerateRoomCode(picks: seq<nat>) returns (code: string)
    requires ValidPicks(picks)
    ensures IsRoomCode(code)
    ensures forall i :: 0 <= i < CodeLength ==> code[i] == Alphabet[picks[i]]
  {
    code := "";
    var i := 0;
    while i < CodeLength
      invariant 0 <= i <= CodeLength
      invariant |code| == i
      invariant forall j :: 0 <= j < i ==> code[j] == Alphabet[picks[j]]
    {
      code := code + [Alphabet[picks[i]]];
      i := i + 1;
    }
  }

  /** The four runs the alphabet is made of: A-H, J-N, P-Z and 1-9. */
  predicate InRuns(c: char) {
    ('A' <= c <= 'H') || ('J' <= c <= 'N') || ('P' <= c <= 'Z') || ('1' <= c <= '9')
  }

  /** The alphabet has 33 characters and leaves out I, O and 0. */
  lemma AlphabetShape()
    ensures |Alphabet| == 33
    ensures 'I' !in Alphabet && 'O' !in Alphabet && '0' !in Alphabet
  {
    forall i | 0 <= i < |Alphabet|
      ensures InRuns(Alphabet[i])
    {
    }
  }

  /** A room code never contains I, O or 0. */
  lemma {:induction false} NoConfusableGlyphs(code: string)
    requires IsRoomCode(code)
    ensures forall i :: 0 <= i < |code| ==> code[i] != 'I' && code[i] != 'O' && code[i] != '0'
  {
    AlphabetShape();
  }

  /** The position of a character in the alphabet: the draw that produced it. */
  function PickOf(c: char): (k: nat)
    requires c in Alphabet
    ensures k < |Alphabet| && Alphabet[k] == c
  {
    PickFrom(Alphabet, c)
  }

  function PickFrom(s: string, c: char): (k: nat)
    requires c in s
    ensures k < |s| && s[k] == c
    ensures forall j :: 0 <= j < k ==> s[j] != c
  {
    if s[0] == c then 0 else 1 + PickFrom(s[1..], c)
  }

  /** The alphabet has no repeated character. */
  lemma AlphabetDistinct()
    ensures forall i, j :: 0 <= i < j < |Alphabet| ==> Alphabet[i] != Alphabet[j]
  {
    forall i | 0 <= i < |Alphabet|
      ensures Rank(Alphabet[i]) == i
    {
    }
  }

  /** Where a character of the four runs stands in the alphabet. */
  function Rank(c: char): int {
    if c <= '9' then 24 + (c as int - '1' as int)
    else if c <= 'H' then c as int - 'A' as int
    else if c <= 'N' then c as int - 'A' as int - 1
    else c as int - 'A' as int - 2
  }

  /** The code determines the draws: distinct draws give distinct codes (33^6 codes in all). */
  lemma {:induction false} CodeDeterminesPicks(picks: seq<nat>, code: string)
    requires ValidPicks(picks) && |code| == CodeLength
    requires forall i :: 0 <= i < CodeLength ==> code[i] == Alphabet[picks[i]]
    ensures IsRoomCode(code)
    ensures forall i :: 0 <= i < CodeLength ==> picks[i] == PickOf(code[i])
  {
    AlphabetDistinct();
    forall i | 0 <= i < CodeLength
      ensures picks[i] == PickOf(code[i])
    {
      var k := PickOf(code[i]);
      assert Alphabet[k] == Alphabet[picks[i]];
    }
  }
}
