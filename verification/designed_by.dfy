/**
 * The "Made by" footer of `DesignedBy.tsx`: a word from a fixed list is shown
 * scrambled, revealed one letter per tick from the left, held in full for a
 * while, and then replaced by the next word of the list, cyclically.
 *
 * The timers are replaced by explicit steps (`Tick` for the 100 ms re-run,
 * `Resume` for the 4 s pause callback) and `Math.random` by an oracle: the
 * sequence of indices into `Characters` that the step draws, one per
 * position that is not yet revealed.
 */
module DesignedBy {

  /** The alphabet the hidden positions are drawn from. */
  const Characters: string := "ABCDEFGHIJKLMNOPQRSTUVWXYZabcdefghijklmnopqrstuvwxyz"

  /** The words shown in turn. */
  const Words: seq<string> :=
    ["Made", "Built", "Created", "Composed", "Hacked", "Brewed", "Crafted", "Forged", "Designed", "Developed", "Produced"]

  /** `Math.floor(Math.random() * characters.length)`: an index in [0, 52). */
  type LetterIndex = k: int | 0 <= k < 52

  lemma WordsAreNonEmpty()
    ensures |Words| == 11
    ensures forall k :: 0 <= k < |Words| ==> |Words[k]| > 0
  {
  }

  /**
   * The string one step shows for `word` when `iteration` letters are
   * revealed: the word's own prefix, then one drawn letter per remaining
   * position.
   */
  function Scrambled(word: string, iteration: nat, picks: seq<LetterIndex>): (r: string)
    requires iteration <= |word| && |picks| == |word| - iteration
    ensures |r| == |word|
    ensures forall i :: 0 <= i < iteration ==> r[i] == word[i]
    ensures forall i :: iteration <= i < |word| ==>
      r[i] == Characters[picks[i - iteration]] && r[i] in Characters
    ensures iteration == |word| ==> r == word
  {
    word[..iteration] + seq(|picks|, j requires 0 <= j < |picks| => Characters[picks[j]])
  }

  /**
   * The `for` loop of `scrambleText`: `scrambled` grows by one character per
   * position, the word's own while `i < iteration`, a drawn letter after.
   */
  method BuildScrambled(word: string, iteration: nat, picks: seq<LetterIndex>) returns (scrambled: string)
    requires iteration <= |word| && |picks| == |word| - iteration
    ensures scrambled == Scrambled(word, iteration, picks)
  {
    ghost var target := Scrambled(word, iteration, picks);
    scrambled := "";
    for i := 0 to |word|
      invariant |scrambled| == i
      invariant forall k :: 0 <= k < i ==> scrambled[k] == target[k]
    {
      if i < iteration {
        scrambled := scrambled + [word[i]];
      } else {
        scrambled := scrambled + [Characters[picks[i - iteration]]];
      }
    }
  }

  /**
   * The closure state of the effect (`wordIndex`, `iteration`), the shown
   * `text`, and whether the 4 s pause after a fully revealed word is pending
   * instead of the 100 ms tick.
   */
  class Scrambler {
    var wordIndex: nat
    var iteration: nat
    var text: string
    var paused: bool

    function Word(): string
      reads this
      requires wordIndex < |Words|
    {
      Words[wordIndex]
    }

    /**
     * The index stays in the list and `iteration` within the word; a
     * pending pause follows a step that showed the whole word; otherwise,
     * once a step has run, the shown text has the word's length and the
     * letters revealed by that step.
     */
    predicate Valid()
      reads this
    {
      && wordIndex < |Words|
      && iteration <= |Word()|
      && (paused ==> iteration == |Word()| && text == Word())
      && (!paused && iteration > 0 ==>
            |text| == |Word()| && text[..iteration - 1] == Word()[..iteration - 1])
    }

    /** The state the effect starts from, before its first `scrambleText()`. */
    constructor()
      ensures Valid()
      ensures wordIndex == 0 && iteration == 0 && text == "" && !paused
    {
      wordIndex, iteration, text, paused := 0, 0, "", false;
    }

    /**
     * One run of `scrambleText` for the current word: it shows the scrambled
     * word, then either reveals one more letter for the next tick or, when
     * the word was already shown in full, waits for the pause.
     */
    method Tick(picks: seq<LetterIndex>) returns (shown: string)
      requires Valid() && !paused && |picks| == |Word()| - iteration
      modifies this
      ensures Valid()
      ensures shown == text == Scrambled(old(Word()), old(iteration), picks)
      ensures wordIndex == old(wordIndex)
      ensures old(iteration) < |Word()| ==> iteration == old(iteration) + 1 && !paused
      ensures old(iteration) == |Word()| ==> iteration == old(iteration) && paused && shown == Word()
    {
      WordsAreNonEmpty();
      var fullText := Words[wordIndex];
      shown := BuildScrambled(fullText, iteration, picks);
      text := shown;
      if iteration < |fullText| {
        iteration := iteration + 1;
      } else {
        paused := true;
      }
    }

    /**
     * The callback of the 4 s pause: `iteration` restarts, the next word of
     * the list is chosen, wrapping after the last, and `scrambleText` runs
     * for it.
     */
    method Resume(picks: seq<LetterIndex>) returns (shown: string)
      requires Valid() && paused
      requires |picks| == |Words[(wordIndex + 1) % |Words|]|
      modifies this
      ensures Valid()
      ensures wordIndex == (old(wordIndex) + 1) % |Words|
      ensures shown == text == Scrambled(Word(), 0, picks)
      ensures iteration == 1 && !paused
    {
      WordsAreNonEmpty();
      iteration := 0;
      wordIndex := (wordIndex + 1) % |Words|;
      paused := false;
      shown := Tick(picks);
    }
  }
}
