/** The prompt loop `startChat`: each prompt is compared, lower-cased, with
    the sentinel `"exit"`; the sentinel ends the session, any other prompt is
    answered by `chat` and the loop asks again. Prompts are given as a
    sequence instead of being read from the terminal. */
module Session {
  import opened Records
  import opened Responder

  /** `toLowerCase` on one character, for the ASCII letters; every other
      character is left as it is. */
  function LowerChar(c: char): char
  {
    if 'A' <= c <= 'Z' then (c as int - 'A' as int + 'a' as int) as char else c
  }

  function Lower(s: string): string
  {
    seq(|s|, i requires 0 <= i < |s| => LowerChar(s[i]))
  }

  /** `prompt.toLowerCase() === "exit"`. */
  predicate IsExit(prompt: string)
  {
    Lower(prompt) == "exit"
  }

  /** The sentinel is matched in any mix of cases, and nothing else matches:
      no padding, no other word. */
  lemma ExitSentinel(prompt: string)
    ensures IsExit(prompt) <==>
              |prompt| == 4 && prompt[0] in "eE" && prompt[1] in "xX"
              && prompt[2] in "iI" && prompt[3] in "tT"
  {
    if |prompt| == 4 {
      var l := Lower(prompt);
      assert l[0] == LowerChar(prompt[0]) && l[1] == LowerChar(prompt[1]);
      assert l[2] == LowerChar(prompt[2]) && l[3] == LowerChar(prompt[3]);
      if IsExit(prompt) {
        assert l[0] == 'e' && l[1] == 'x' && l[2] == 'i' && l[3] == 't';
      }
      if prompt[0] in "eE" && prompt[1] in "xX" && prompt[2] in "iI" && prompt[3] in "tT" {
        assert l == "exit";
      }
    }
  }

  /** Index of the first exit prompt, or the number of prompts: the session
      answers the prompts before it and stops there (see `ExitIndexSpec`). */
  function ExitIndex(prompts: seq<string>): (k: nat)
    ensures k <= |prompts|
    decreases |prompts|
  {
    if prompts == [] || IsExit(prompts[0]) then 0 else 1 + ExitIndex(prompts[1..])
  }

  /** No prompt before `ExitIndex` is the sentinel, and the prompt at it is. */
  lemma {:induction false} ExitIndexSpec(prompts: seq<string>)
    ensures forall i :: 0 <= i < ExitIndex(prompts) ==> !IsExit(prompts[i])
    ensures ExitIndex(prompts) < |prompts| ==> IsExit(prompts[ExitIndex(prompts)])
    decreases |prompts|
  {
    if prompts != [] && !IsExit(prompts[0]) {
      var rest := prompts[1..];
      ExitIndexSpec(rest);
      forall i | 0 <= i < ExitIndex(prompts)
        ensures !IsExit(prompts[i])
      {
        if i > 0 {
          assert prompts[i] == rest[i - 1];
        }
      }
    }
  }

  /** The prompt loop goes on past a prompt that is not the sentinel. */
  lemma ExitIndexStep(prompts: seq<string>, i: nat)
    requires i <= ExitIndex(prompts) && i < |prompts| && !IsExit(prompts[i])
    ensures i + 1 <= ExitIndex(prompts)
  {
    ExitIndexSpec(prompts);
  }

  /** The prompt loop stops at the first sentinel, or after the last prompt. */
  lemma ExitIndexAt(prompts: seq<string>, i: nat)
    requires i <= ExitIndex(prompts)
    requires i == |prompts| || IsExit(prompts[i])
    ensures i == ExitIndex(prompts)
  {
    ExitIndexSpec(prompts);
  }

  /** The answers to the first `k` prompts, over a fixed store. */
  function Answers(prompts: seq<string>, k: nat, store: Store, env: Env): (turns: seq<Turn>)
    requires k <= |prompts|
    ensures |turns| == k
    decreases k
  {
    if k == 0 then [] else Answers(prompts, k - 1, store, env) + [Chat(prompts[k - 1], store, env)]
  }

  /** The turns of a session over a fixed store: one `chat` per prompt up to,
      and not including, the first exit prompt. */
  function Conversation(prompts: seq<string>, store: Store, env: Env): seq<Turn>
  {
    Answers(prompts, ExitIndex(prompts), store, env)
  }
}
