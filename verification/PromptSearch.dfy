/** Constructing chat prompts of an exact token count: a binary search over the
    padding, then a scan around its end. Each prompt starts with the number of
    its request. */
module PromptSearch {
  import opened Decimal
  import opened Wrappers

  const HEAD := "Unique request nonce: request-"
  const TAIL := " Analyze this retained KV context and continue deterministically."

  function Padding(repetitions: nat): string {
    if repetitions == 0 then "" else Padding(repetitions - 1) + " kv"
  }

  /** The content for request `index` with the given padding. */
  function Content(index: nat, repetitions: nat): string {
    HEAD + (Padded(index, 4) + (['.'] + (TAIL + Padding(repetitions))))
  }

  /** The text of a prompt: nonce, instruction, and one " kv" per repetition. */
  lemma {:induction false} ContentText(index: nat, n: nat)
    ensures Content(index, 0)
         == HEAD + Padded(index, 4) + ['.'] + TAIL
    ensures Content(index, n + 1) == Content(index, n) + " kv"
  {
    var nonce := Padded(index, 4);
    assert HEAD + (nonce + (['.'] + (TAIL + Padding(0)))) == HEAD + nonce + ['.'] + TAIL;
    assert HEAD + (nonce + (['.'] + (TAIL + (Padding(n) + " kv")))) == HEAD + (nonce + (['.'] + (TAIL + Padding(n)))) + " kv";
  }

  ghost predicate Monotone(count: nat -> nat) {
    forall a: nat, b: nat | a <= b :: count(a) <= count(b)
  }

  /** Whatever is returned has exactly the target count; and for a counter that
      never falls a solution is found exactly when there is one up to the end of
      the final scan. */
  method ExactChatPrompt(count: nat -> nat, target: nat) returns (r: Option<nat>)
    ensures r.Some? ==> count(r.value) == target
    ensures Monotone(count) ==> (r.Some? <==> exists n: nat | n <= 2 * target + 65 :: count(n) == target)
  {
    var low: int, high: int := 0, target * 2;
    while low <= high
      invariant 0 <= low <= high + 1 <= 2 * target + 1
      invariant Monotone(count) ==> forall n: nat | n < low :: count(n) < target
      invariant Monotone(count) ==> forall n: nat | high < n && high < 2 * target :: count(n) > target
      decreases high - low
    {
      var middle := (low + high) / 2;
      var observed := count(middle);
      if observed < target {
        low := middle + 1;
      } else if observed > target {
        high := middle - 1;
      } else {
        return Some(middle);
      }
    }
    var repetitions: nat := if high < 64 then 0 else high - 64;
    while repetitions < low + 65
      invariant forall n: nat | (high < 64 || high - 64 <= n) && n < repetitions :: count(n) != target
    {
      if count(repetitions) == target {
        return Some(repetitions);
      }
      repetitions := repetitions + 1;
    }
    return None;
  }

  /** The longest digit prefix. */
  function DigitPrefix(s: string): string {
    if s == [] || !IsDigit(s[0]) then [] else [s[0]] + DigitPrefix(s[1..])
  }

  lemma {:induction false} DigitsThenDot(a: string, x: string)
    requires AllDigits(a)
    ensures DigitPrefix(a + (['.'] + x)) == a
  {
    var s := a + (['.'] + x);
    if a == [] {
      assert s[0] == '.';
    } else {
      DigitsThenDot(a[1..], x);
      assert s[0] == a[0] && s[1..] == a[1..] + (['.'] + x);
    }
  }

  /** Prompts of different requests differ, whatever their padding and however
      many digits the index has. */
  lemma ContentInjective(i: nat, j: nat, m: nat, n: nat)
    requires Content(i, m) == Content(j, n)
    ensures i == j
  {
    var a := Padded(i, 4) + (['.'] + (TAIL + Padding(m)));
    var b := Padded(j, 4) + (['.'] + (TAIL + Padding(n)));
    assert a == (HEAD + a)[|HEAD|..] == (HEAD + b)[|HEAD|..] == b;
    DigitsThenDot(Padded(i, 4), TAIL + Padding(m));
    DigitsThenDot(Padded(j, 4), TAIL + Padding(n));
    PaddedInjective(i, j, 4);
  }

  /** More padding never means fewer tokens, for every request. */
  ghost predicate PaddingCounts(tokens: string -> nat) {
    forall i: nat, a: nat, b: nat | a <= b :: tokens(Content(i, a)) <= tokens(Content(i, b))
  }

  predicate Solvable(tokens: string -> nat, target: nat, index: nat) {
    exists n: nat | n <= 2 * target + 65 :: tokens(Content(index, n)) == target
  }

  lemma SameSolutions(tokens: string -> nat, counter: nat -> nat, target: nat, index: nat)
    requires forall n: nat :: counter(n) == tokens(Content(index, n))
    ensures Solvable(tokens, target, index) <==> exists n: nat | n <= 2 * target + 65 :: counter(n) == target
  {
    if Solvable(tokens, target, index) {
      var n: nat :| n <= 2 * target + 65 && tokens(Content(index, n)) == target;
      assert counter(n) == target;
    }
  }

  /** The prompts of a workload: all of the exact token count and pairwise
      different, so the uniqueness check after the loop cannot fail; with a
      counter that never falls they exist exactly when each request has a
      solution within the searched range. */
  method ExactChatPrompts(tokens: string -> nat, target: nat, count: nat) returns (prompts: Option<seq<string>>)
    ensures prompts.Some? ==>
              && |prompts.value| == count
              && (forall i | 0 <= i < count :: tokens(prompts.value[i]) == target)
              && (forall i, j | 0 <= i < j < count :: prompts.value[i] != prompts.value[j])
    ensures PaddingCounts(tokens) ==> (prompts.Some? <==> forall i | 0 <= i < count :: Solvable(tokens, target, i))
  {
    var made: seq<string> := [];
    ghost var paddings: seq<nat> := [];
    var index := 0;
    while index < count
      invariant 0 <= index == |made| == |paddings| <= count
      invariant forall i | 0 <= i < index :: made[i] == Content(i, paddings[i]) && tokens(made[i]) == target
      invariant PaddingCounts(tokens) ==> forall i | 0 <= i < index :: Solvable(tokens, target, i)
    {
      var counter := (n: nat) => tokens(Content(index, n));
      assert PaddingCounts(tokens) ==> Monotone(counter);
      var r := ExactChatPrompt(counter, target);
      SameSolutions(tokens, counter, target, index);
      if r.None? {
        return None;
      }
      made := made + [Content(index, r.value)];
      paddings := paddings + [r.value];
      index := index + 1;
    }
    forall i, j | 0 <= i < j < count ensures made[i] != made[j] {
      if made[i] == made[j] {
        ContentInjective(i, j, paddings[i], paddings[j]);
      }
    }
    return Some(made);
  }
}
