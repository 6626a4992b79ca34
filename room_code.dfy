/**
 * Room codes (server/src/utils/generateCode.ts): a fixed-length string over a
 * 32-symbol alphabet without the look-alike characters 0, 1, I and O. Each
 * character costs one `Math.floor(Math.random() * 32)`; here those draws are
 * supplied by the caller as a sequence of indices into the alphabet.
 */
module RoomCode {
  import Types

  const ALPHANUM: string := "ABCDEFGHJKLMNPQRSTUVWXYZ23456789"

  /** `generateRoomCode()`'s default length. */
  const DEFAULT_LENGTH: nat := 6

  /** One random draw: an index into ALPHANUM. */
  type Draw = i: int | 0 <= i < 32

  /** The code that the draws `draws` spell, one character per draw. */
  function CodeFor(length: nat, draws: seq<Draw>): (code: string)
    requires |draws| >= length
  {
    seq(length, i requires 0 <= i < length => ALPHANUM[draws[i]])
  }

  /** generateRoomCode(length): appends one alphabet symbol per loop iteration. */
  method GenerateRoomCode(length: nat, draws: seq<Draw>) returns (code: string)
    requires |draws| >= length
    ensures |code| == length
    ensures forall i :: 0 <= i < length ==> code[i] == ALPHANUM[draws[i]]
  {
    code := "";
    for i := 0 to length
      invariant |code| == i
      invariant forall k :: 0 <= k < i ==> code[k] == ALPHANUM[draws[k]]
    {
      var index := draws[i];
      code := code + [ALPHANUM[index]];
    }
  }

  /** The method computes exactly the specification function. */
  lemma GeneratedIsCodeFor(length: nat, draws: seq<Draw>, code: string)
    requires |draws| >= length
    requires |code| == length && forall i :: 0 <= i < length ==> code[i] == ALPHANUM[draws[i]]
    ensures code == CodeFor(length, draws)
  {
  }

  /** A code has the requested length (so length 0 gives ""), over ALPHANUM only. */
  lemma CodeForShape(length: nat, draws: seq<Draw>)
    requires |draws| >= length
    ensures |CodeFor(length, draws)| == length
    ensures length == 0 ==> CodeFor(length, draws) == ""
    ensures forall c :: c in CodeFor(length, draws) ==> c in ALPHANUM
  {
    var code := CodeFor(length, draws);
    forall c | c in code ensures c in ALPHANUM {
      var i :| 0 <= i < |code| && code[i] == c;
      assert ALPHANUM[draws[i]] == c;
    }
  }

  /** Increasing neighbours make a strictly increasing stretch. */
  lemma {:induction false} IncreasingStretch(s: string, lo: nat, hi: nat)
    requires lo <= hi <= |s|
    requires forall i :: lo <= i && i + 1 < hi ==> s[i] < s[i + 1]
    ensures forall i, j :: lo <= i < j < hi ==> s[i] < s[j]
  {
    if hi > lo + 1 {
      IncreasingStretch(s, lo, hi - 1);
      forall i | lo <= i < hi - 1 ensures s[i] < s[hi - 1] {
        if i < hi - 2 { assert s[i] < s[hi - 2]; }
      }
    }
  }

  /** The alphabet has 32 distinct symbols and none of 0, 1, I and O. */
  lemma AlphabetFacts()
    ensures |ALPHANUM| == 32
    ensures forall i, j :: 0 <= i < j < |ALPHANUM| ==> ALPHANUM[i] != ALPHANUM[j]
    ensures '0' !in ALPHANUM && '1' !in ALPHANUM && 'I' !in ALPHANUM && 'O' !in ALPHANUM
  {
    NoLookAlikes();
    // the letters come first, then the digits, each run in increasing order
    LettersThenDigits();
    IncreasingStretch(ALPHANUM, 0, 24);
    IncreasingStretch(ALPHANUM, 24, 32);
    forall i, j | 0 <= i < j < 32 ensures ALPHANUM[i] != ALPHANUM[j] {
      if j < 24 || 24 <= i {
        assert ALPHANUM[i] < ALPHANUM[j];
      } else {
        assert ALPHANUM[j] <= '9' < 'A' <= ALPHANUM[i];
      }
    }
  }

  lemma NoLookAlikes()
    ensures '0' !in ALPHANUM && '1' !in ALPHANUM && 'I' !in ALPHANUM && 'O' !in ALPHANUM
  {
    forall i | 0 <= i < |ALPHANUM|
      ensures ALPHANUM[i] != '0' && ALPHANUM[i] != '1' && ALPHANUM[i] != 'I' && ALPHANUM[i] != 'O'
    {
      if i < 24 { LetterAt(i); } else { DigitAt(i); }
    }
  }

  lemma LetterAt(i: nat)
    requires i < 24
    ensures ALPHANUM[i] in "ABCDEFGHJKLMNPQRSTUVWXYZ"
  {
  }

  lemma DigitAt(i: nat)
    requires 24 <= i < 32
    ensures '2' <= ALPHANUM[i] <= '9'
  {
  }

  lemma LettersThenDigits()
    ensures |ALPHANUM| == 32
    ensures forall i :: 0 <= i && i + 1 < 24 ==> ALPHANUM[i] < ALPHANUM[i + 1]
    ensures forall i :: 24 <= i && i + 1 < 32 ==> ALPHANUM[i] < ALPHANUM[i + 1]
    ensures forall i :: 0 <= i < 24 ==> ALPHANUM[i] >= 'A'
    ensures forall i :: 24 <= i < 32 ==> ALPHANUM[i] <= '9'
  {
  }

  /** Every default-length code passes the `z.string().length(6)` room code check. */
  lemma DefaultCodeIsRoomCode(draws: seq<Draw>)
    requires |draws| >= DEFAULT_LENGTH
    ensures Types.IsRoomCode(CodeFor(DEFAULT_LENGTH, draws))
  {
  }
}
