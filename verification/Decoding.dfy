/** Deterministic greedy decoding, which makes token replay a lossless recovery. */
module Decoding {
  type Token = nat
  type Decoder = seq<Token> -> Token

  /** The first `n` tokens that `next` produces after `prompt`: the
      uninterrupted reference stream. */
  function Generate(next: Decoder, prompt: seq<Token>, n: nat): (out: seq<Token>)
    ensures |out| == n
  {
    if n == 0 then []
    else
      var earlier := Generate(next, prompt, n - 1);
      earlier + [next(prompt + earlier)]
  }

  /** A shorter generation is a prefix of a longer one. */
  lemma {:induction false} GeneratePrefix(next: Decoder, prompt: seq<Token>, k: nat, n: nat)
    requires k <= n
    ensures Generate(next, prompt, n)[..k]
         == Generate(next, prompt, k)
  {
    if k < n {
      GeneratePrefix(next, prompt, k, n - 1);
      assert Generate(next, prompt, n)[..k] == Generate(next, prompt, n - 1)[..k];
    }
  }

  /** Replaying the first `k` tokens as part of the prompt and generating `m`
      more is the same as never having stopped. */
  lemma {:induction false} GenerateReplay(next: Decoder, prompt: seq<Token>, k: nat, m: nat)
    ensures Generate(next, prompt, k + m)
         == Generate(next, prompt, k) + Generate(next, prompt + Generate(next, prompt, k), m)
  {
    if m > 0 {
      GenerateReplay(next, prompt, k, m - 1);
      var head := Generate(next, prompt, k);
      var tail := Generate(next, prompt + head, m - 1);
      assert prompt + (head + tail) == (prompt + head) + tail;
      assert Generate(next, prompt, k + m) == head + tail + [next(prompt + (head + tail))];
    }
  }
}
