/**
 * The easter-egg key detector of js/main.js (lines 269-298).
 *
 * Every keydown appends the event's key to a module-level buffer, which is
 * then cut back to its last ten entries (`slice(-10)`). The effect fires when
 * the buffer, joined into ONE string, equals the joined target sequence: the
 * comparison is on the concatenation, not entry by entry. On firing the body
 * gets the rainbow animation and a style element with id `rainbow-style` is
 * appended unless the document already has an element with that id.
 */
module Konami {

  /** The number of keys the buffer keeps. */
  const BufferSize: nat := 10

  /** The target key sequence. */
  const KonamiSequence: seq<string> :=
    ["ArrowUp", "ArrowUp", "ArrowDown", "ArrowDown", "ArrowLeft",
     "ArrowRight", "ArrowLeft", "ArrowRight", "b", "a"]

  /** The id of the injected style element. */
  const RainbowStyleId: string := "rainbow-style"

  /** The value given to `document.body.style.animation` on firing. */
  const RainbowAnimation: string := "rainbow 2s linear infinite"

  /** `Array.prototype.join('')` on an array of strings. */
  function Join(keys: seq<string>): string
  {
    if keys == [] then "" else keys[0] + Join(keys[1..])
  }

  /** Joining distributes over concatenation. */
  lemma {:induction false} JoinAppend(a: seq<string>, b: seq<string>)
    ensures Join(a + b) == Join(a) + Join(b)
  {
    if a == [] {
      assert a + b == b;
    } else {
      assert (a + b)[0] == a[0];
      assert (a + b)[1..] == a[1..] + b;
      JoinAppend(a[1..], b);
    }
  }

  /** The last `min(BufferSize, |history|)` entries of `history`, in order. */
  function LastKeys(history: seq<string>): (r: seq<string>)
    ensures |r| == if |history| < BufferSize then |history| else BufferSize
    ensures forall i :: 0 <= i < |r| ==> r[i] == history[|history| - |r| + i]
  {
    if |history| <= BufferSize then history else history[|history| - BufferSize..]
  }

  /** One keydown: `push(key)`, then `slice(-10)`. */
  function Step(buffer: seq<string>, key: string): seq<string>
  {
    var pushed := buffer + [key];
    pushed[if |pushed| > BufferSize then |pushed| - BufferSize else 0..]
  }

  /** The buffer after the keys of `history`, pressed one by one from load. */
  function BufferAfter(history: seq<string>): seq<string>
  {
    if history == [] then []
    else Step(BufferAfter(history[..|history| - 1]), history[|history| - 1])
  }

  /** The firing test against a target: the joined buffer equals the joined
      target. The source's target is `KonamiSequence`. */
  predicate Matches(buffer: seq<string>, target: seq<string>)
  {
    Join(buffer) == Join(target)
  }

  /** The source's firing test. */
  predicate Fires(buffer: seq<string>)
  {
    Matches(buffer, KonamiSequence)
  }

  /** Every key of a target is a non-empty string. */
  predicate NonEmptyKeys(target: seq<string>)
  {
    forall i :: 0 <= i < |target| ==> |target[i]| > 0
  }

  /** One step of the rolling buffer keeps it equal to the last keys of the history. */
  lemma StepKeepsLastKeys(history: seq<string>, key: string)
    ensures Step(LastKeys(history), key) == LastKeys(history + [key])
  {
  }

  /** Buffer bound: after any history the buffer holds at most ten entries and
      is exactly the last `min(10, n)` keys pressed, in order. */
  lemma {:induction false} BufferIsLastKeys(history: seq<string>)
    ensures BufferAfter(history) == LastKeys(history)
    ensures |BufferAfter(history)| <= BufferSize
  {
    if history != [] {
      var init, last := history[..|history| - 1], history[|history| - 1];
      assert init + [last] == history;
      BufferIsLastKeys(init);
      calc {
        BufferAfter(history);
        Step(BufferAfter(init), last);
        Step(LastKeys(init), last);
        { StepKeepsLastKeys(init, last); }
        LastKeys(history);
      }
    }
  }

  /** After a full-length target has been pressed, the buffer is that target,
      whatever was pressed before it. */
  lemma TargetFillsBuffer(earlier: seq<string>, target: seq<string>)
    requires |target| == BufferSize
    ensures BufferAfter(earlier + target) == target
  {
    var h := earlier + target;
    BufferIsLastKeys(h);
    assert LastKeys(h) == target;
  }

  /** Pressing the Konami sequence fires, whatever was pressed before it: with
      one extra leading key (eleven in all) the buffer has dropped that key. */
  lemma TargetFiresAfterAnyKeys(earlier: seq<string>)
    ensures Fires(BufferAfter(earlier + KonamiSequence))
  {
    TargetFillsBuffer(earlier, KonamiSequence);
  }

  /** The join of a proper prefix of a target with non-empty keys is strictly shorter. */
  lemma PrefixJoinShorter(target: seq<string>, k: nat)
    requires k < |target| && NonEmptyKeys(target)
    ensures |Join(target[..k])| < |Join(target)|
  {
    assert target == target[..k] + target[k..];
    JoinAppend(target[..k], target[k..]);
    assert target[k..][0] == target[k];
  }

  /** From load, pressing a proper prefix of a target with non-empty keys never matches. */
  lemma ProperPrefixNeverMatches(target: seq<string>, k: nat)
    requires k < |target| <= BufferSize && NonEmptyKeys(target)
    ensures !Matches(BufferAfter(target[..k]), target)
  {
    BufferIsLastKeys(target[..k]);
    PrefixJoinShorter(target, k);
  }

  /** Pressing only the first `k < 10` keys of the Konami sequence from load does not fire. */
  lemma ProperPrefixDoesNotFire(k: nat)
    requires k < |KonamiSequence|
    ensures !Fires(BufferAfter(KonamiSequence[..k]))
  {
    ProperPrefixNeverMatches(KonamiSequence, k);
  }

  /** A target whose last key is one character long and whose join starts with
      two different characters is not matched after only its first nine keys,
      even with any keys in front: the single key left over in the buffer would
      have to supply the missing last character at the front. */
  lemma NineOfTenNeverMatch(earlier: seq<string>, target: seq<string>)
    requires |target| == BufferSize && |target[9]| == 1
    requires |Join(target[..9])| >= 2 && Join(target[..9])[0] != Join(target[..9])[1]
    ensures !Matches(BufferAfter(earlier + target[..9]), target)
  {
    var nine := target[..9];
    var h := earlier + nine;
    BufferIsLastKeys(h);
    assert target == nine + [target[9]];
    JoinAppend(nine, [target[9]]);
    assert Join([target[9]]) == target[9] + Join([]);
    if earlier == [] {
      assert h == nine;
    } else {
      var x := earlier[|earlier| - 1];
      assert LastKeys(h) == [x] + nine;
      JoinAppend([x], nine);
      assert Join([x]) == x + Join([]);
      if |x| == 1 {
        assert (x + Join(nine))[1] == Join(nine)[0];
        assert Join(target)[1] == Join(nine)[1];
      }
    }
  }

  /** Pressing the first nine Konami keys never fires, whatever came before. */
  lemma NineKeysNeverFire(earlier: seq<string>)
    ensures !Fires(BufferAfter(earlier + KonamiSequence[..9]))
  {
    var nine := KonamiSequence[..9];
    JoinFrom(nine, 0);
    assert nine[0..] == nine;
    assert Join(nine)[0] == 'A' && Join(nine)[1] == 'r';
    NineOfTenNeverMatch(earlier, KonamiSequence);
  }

  /** Unfolding `Join` at position `k`. */
  lemma JoinFrom(keys: seq<string>, k: nat)
    requires k < |keys|
    ensures Join(keys[k..]) == keys[k] + Join(keys[k + 1..])
  {
  }

  /** The join of two keys is their concatenation. */
  lemma JoinPair(a: string, b: string)
    ensures Join([a, b]) == a + b && Join([a + b]) == a + b
  {
    assert [a, b][1..] == [b];
    assert Join([b]) == b + Join([]);
    assert Join([a + b]) == a + b + Join([]);
  }

  /** Merging two adjacent keys into one string leaves the join unchanged. */
  lemma MergeKeepsJoin(pre: seq<string>, a: string, b: string, post: seq<string>)
    ensures Join(pre + [a + b] + post) == Join(pre + [a, b] + post)
  {
    JoinPair(a, b);
    JoinAppend(pre + [a + b], post);
    JoinAppend(pre, [a + b]);
    JoinAppend(pre + [a, b], post);
    JoinAppend(pre, [a, b]);
  }

  /** The comparison is on the concatenation: merging a full-length target's
      first two keys, and its last two, gives an eight-entry buffer that
      differs from the target and still matches it. */
  lemma MergedTargetMatches(target: seq<string>)
    requires |target| == BufferSize
    ensures var keys := [target[0] + target[1]] + target[2..8] + [target[8] + target[9]];
            keys != target && BufferAfter(keys) == keys && Matches(keys, target)
  {
    var middle := target[2..8];
    var keys := [target[0] + target[1]] + middle + [target[8] + target[9]];
    assert |keys| == 8;
    BufferIsLastKeys(keys);
    MergeKeepsJoin([target[0], target[1]] + middle, target[8], target[9], []);
    MergeKeepsJoin([], target[0], target[1], middle + [target[8] + target[9]]);
    assert target == [target[0], target[1]] + middle + [target[8], target[9]] + [];
    assert [] + [target[0], target[1]] + (middle + [target[8] + target[9]])
        == [target[0], target[1]] + middle + [target[8] + target[9]] + [];
    assert keys == [] + [target[0] + target[1]] + (middle + [target[8] + target[9]]);
  }

  /** The Konami instance: an eight-key buffer with "ArrowUpArrowUp" in front
      and "ba" at the end fires. */
  lemma JoinedMatchIsNotElementwise()
    ensures var keys := ["ArrowUp" + "ArrowUp", "ArrowDown", "ArrowDown", "ArrowLeft",
                         "ArrowRight", "ArrowLeft", "ArrowRight", "b" + "a"];
            keys != KonamiSequence && BufferAfter(keys) == keys && Fires(keys)
  {
    var t := KonamiSequence;
    MergedTargetMatches(t);
    var keys := ["ArrowUp" + "ArrowUp", "ArrowDown", "ArrowDown", "ArrowLeft",
                 "ArrowRight", "ArrowLeft", "ArrowRight", "b" + "a"];
    assert t[2..8] == keys[1..7];
    assert [t[0] + t[1]] + t[2..8] + [t[8] + t[9]] == keys;
  }

  /** The number of keydowns along `history` on which the buffer matched `target`. */
  function MatchCount(history: seq<string>, target: seq<string>): nat
  {
    if history == [] then 0
    else MatchCount(history[..|history| - 1], target)
         + (if Matches(BufferAfter(history), target) then 1 else 0)
  }

  /** Pressing a full-length target with non-empty keys once, from load,
      matches exactly once: on its last key. */
  lemma {:induction false} TargetMatchesExactlyOnce(target: seq<string>)
    requires |target| == BufferSize && NonEmptyKeys(target)
    ensures MatchCount(target, target) == 1
  {
    var k := 0;
    while k < BufferSize - 1
      invariant 0 <= k <= BufferSize - 1
      invariant MatchCount(target[..k], target) == 0
    {
      var p := target[..k + 1];
      assert p[..|p| - 1] == target[..k];
      ProperPrefixNeverMatches(target, k + 1);
      k := k + 1;
    }
    assert target[..|target| - 1] == target[..BufferSize - 1];
    TargetFillsBuffer([], target);
    assert [] + target == target;
  }

  /** Pressing the Konami sequence once, from load, fires exactly once. */
  lemma TargetFiresExactlyOnce()
    ensures MatchCount(KonamiSequence, KonamiSequence) == 1
  {
    TargetMatchesExactlyOnce(KonamiSequence);
  }

  /** Injecting the style element, guarded by the `getElementById` check. */
  function InjectRainbowStyle(ids: seq<string>): (r: seq<string>)
    ensures RainbowStyleId in r
    ensures multiset(r)[RainbowStyleId] == if RainbowStyleId in ids then multiset(ids)[RainbowStyleId] else 1
    ensures ids <= r && |r| <= |ids| + 1
    ensures RainbowStyleId in ids ==> r == ids
    ensures RainbowStyleId !in ids ==> r == ids + [RainbowStyleId]
  {
    if RainbowStyleId in ids then ids else ids + [RainbowStyleId]
  }

  /** `InjectRainbowStyle` applied `n` times. */
  function InjectTimes(ids: seq<string>, n: nat): seq<string>
  {
    if n == 0 then ids else InjectRainbowStyle(InjectTimes(ids, n - 1))
  }

  /** However often the effect fires, the style element is added at most once:
      a document without one ends with exactly one. */
  lemma {:induction false} StyleInjectedAtMostOnce(ids: seq<string>, n: nat)
    requires n > 0
    ensures InjectTimes(ids, n) == InjectRainbowStyle(ids)
  {
    if n > 1 {
      StyleInjectedAtMostOnce(ids, n - 1);
    }
  }

  /** The detector: the module-level buffer and the parts of the page it changes. */
  class KonamiDetector {
    /** `konamiSequence`. */
    const target: seq<string>
    /** `konamiCode`, the rolling buffer. */
    var code: seq<string>
    /** Every key pressed since load. */
    ghost var history: seq<string>
    /** `document.body.style.animation`. */
    var bodyAnimation: string
    /** The ids present in the document. */
    var documentIds: seq<string>

    ghost predicate Valid()
      reads this
    {
      code == LastKeys(history)
    }

    constructor (ids: seq<string>, animation: string)
      ensures Valid()
      ensures target == KonamiSequence
      ensures code == [] && history == []
      ensures documentIds == ids && bodyAnimation == animation
    {
      target := KonamiSequence;
      code := [];
      history := [];
      documentIds := ids;
      bodyAnimation := animation;
    }

    /** The guarded `appendChild` of the style element. */
    method AddStyleIfMissing()
      modifies this`documentIds
      ensures documentIds == InjectRainbowStyle(old(documentIds))
    {
      if RainbowStyleId !in documentIds {
        documentIds := documentIds + [RainbowStyleId];
      }
    }

    /** The keydown listener. */
    method OnKeyDown(key: string)
      requires Valid()
      modifies this
      ensures Valid()
      ensures history == old(history) + [key]
      ensures code == Step(old(code), key) && |code| <= BufferSize
      ensures bodyAnimation == if Matches(code, target) then RainbowAnimation else old(bodyAnimation)
      ensures documentIds == if Matches(code, target) then InjectRainbowStyle(old(documentIds)) else old(documentIds)
    {
      StepKeepsLastKeys(history, key);
      code := code + [key];
      code := code[if |code| > BufferSize then |code| - BufferSize else 0..];
      history := history + [key];
      if Join(code) == Join(target) {
        bodyAnimation := RainbowAnimation;
        AddStyleIfMissing();
      }
    }
  }
}
