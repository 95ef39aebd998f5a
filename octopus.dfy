/** The Octopus-v4 router chatbot of octopus_v4_chatbot.py: greedy decoding
    bounded by 200 new tokens and cut short by the `<nexa_end>` token, and
    the console loop that ends on `exit`.

    The language model with its argmax is the function `next` from the
    token ids seen so far to the next token id; the tokenizer is `tokenize`
    and `tokenizer.decode` is `decode`.  Each one is a parameter. */
module Octopus {

  type NextToken = seq<int> -> int
  type Tokenize = string -> seq<int>
  type Decode = seq<int> -> string

  /** The id of `<nexa_end>`. */
  const EndToken := 32041

  /** The loop `for _ in range(200)`. */
  const MaxNewTokens := 200

  const SystemHeader := "<|system|>You are a router. Below is the query from the users, please call the correct function and generate the parameters to call the function.<|end|><|user|>"

  const AssistantCue := "<|end|><|assistant|>"

  // ---------------------------------------------------------------------
  // generate_response

  /** The text given to the tokenizer: the question between the fixed
      system turn and the assistant cue. */
  function Prompt(question: string): string
  {
    SystemHeader + question + AssistantCue
  }

  /** The question sits unchanged between the two fixed markers. */
  lemma PromptFraming(question: string)
    ensures var p := Prompt(question);
      && |p| == |SystemHeader| + |question| + |AssistantCue|
      && p[..|SystemHeader|] == SystemHeader
      && p[|SystemHeader|..|SystemHeader| + |question|] == question
      && p[|SystemHeader| + |question|..] == AssistantCue
  {
  }

  /** Different questions give different prompts. */
  lemma {:induction false} PromptInjective(a: string, b: string)
    requires Prompt(a) == Prompt(b)
    ensures a == b
  {
    var h := |SystemHeader|;
    assert |a| == |b|;
    assert a == Prompt(a)[h..h + |a|];
    assert b == Prompt(b)[h..h + |b|];
  }

  /** The tokens greedy decoding produces from the running input `ids`
      with `budget` steps of the loop left: the reference definition. */
  function Continue(next: NextToken, ids: seq<int>, budget: nat): seq<int>
    decreases budget
  {
    if budget == 0 then []
    else
      var token := next(ids);
      if token == EndToken then [token] else [token] + Continue(next, ids + [token], budget - 1)
  }

  /** The token ids generated for the prompt ids `promptIds`. */
  function Generation(next: NextToken, promptIds: seq<int>): seq<int>
  {
    Continue(next, promptIds, MaxNewTokens)
  }

  /** The loop of generate_response: one token per step, appended both to
      the output and to the running input, until `<nexa_end>` or 200 steps. */
  method GenerateTokens(next: NextToken, promptIds: seq<int>) returns (generated: seq<int>, inputIds: seq<int>)
    ensures generated == Generation(next, promptIds)
    ensures inputIds == promptIds + generated
  {
    generated := [];
    inputIds := promptIds;
    var step := 0;
    while step < MaxNewTokens
      invariant 0 <= step <= MaxNewTokens
      invariant inputIds == promptIds + generated
      invariant Generation(next, promptIds) == generated + Continue(next, inputIds, MaxNewTokens - step)
    {
      var nextToken := next(inputIds);
      ghost var before := generated;
      ghost var rest := Continue(next, inputIds + [nextToken], MaxNewTokens - step - 1);
      assert Continue(next, inputIds, MaxNewTokens - step)
          == if nextToken == EndToken then [nextToken] else [nextToken] + rest;
      generated := generated + [nextToken];
      inputIds := inputIds + [nextToken];
      if nextToken == EndToken {
        break;
      }
      assert before + ([nextToken] + rest) == generated + rest;
      step := step + 1;
    }
  }

  /** generate_response: the decoded tokens generated for the tokenized
      prompt of `question`. */
  method GenerateResponse(question: string, tokenize: Tokenize, next: NextToken, decode: Decode)
    returns (response: string)
    ensures response == decode(Generation(next, tokenize(Prompt(question))))
  {
    var inputIds := tokenize(Prompt(question));
    var generated, _ := GenerateTokens(next, inputIds);
    response := decode(generated);
  }

  /** Generation from any budget: at most `budget` tokens; `<nexa_end>`
      appears only as the last token; a shorter output ends with it; and
      token `i` is what the model chose from the input plus tokens `..i`. */
  lemma {:induction false} ContinueShape(next: NextToken, ids: seq<int>, budget: nat)
    decreases budget
    ensures var g := Continue(next, ids, budget);
      && |g| <= budget
      && (forall i :: 0 <= i < |g| - 1 ==> g[i] != EndToken)
      && (|g| < budget ==> |g| > 0 && g[|g| - 1] == EndToken)
      && (forall i :: 0 <= i < |g| ==> g[i] == next(ids + g[..i]))
  {
    if budget > 0 {
      var token := next(ids);
      var g := Continue(next, ids, budget);
      assert g[..0] == [];
      assert ids + g[..0] == ids;
      if token != EndToken {
        var rest := Continue(next, ids + [token], budget - 1);
        ContinueShape(next, ids + [token], budget - 1);
        forall i | 1 <= i < |g|
          ensures g[i] == next(ids + g[..i])
        {
          assert g[i] == rest[i - 1];
          assert g[..i] == [token] + rest[..i - 1];
          assert ids + g[..i] == (ids + [token]) + rest[..i - 1];
        }
      }
    }
  }

  /** The output of generate_response has at most 200 tokens, holds
      `<nexa_end>` only at its end, ends with it when it is shorter than 200
      tokens, and each token was computed from the prompt plus the tokens
      before it, exactly as `input_ids == prompt_ids + generated` says. */
  lemma GenerationShape(next: NextToken, promptIds: seq<int>)
    ensures var g := Generation(next, promptIds);
      && |g| <= MaxNewTokens
      && (forall i :: 0 <= i < |g| - 1 ==> g[i] != EndToken)
      && (|g| < MaxNewTokens ==> |g| > 0 && g[|g| - 1] == EndToken)
      && (forall i :: 0 <= i < |g| ==> g[i] == next(promptIds + g[..i]))
  {
    ContinueShape(next, promptIds, MaxNewTokens);
  }

  /** Those properties pin the output down: a token list that each step
      derives from the prompt and the tokens before it, stops at the first
      `<nexa_end>` and otherwise runs to the budget is the generation. */
  lemma {:induction false} ContinueUnique(next: NextToken, ids: seq<int>, budget: nat, g: seq<int>)
    requires |g| <= budget
    requires forall i :: 0 <= i < |g| ==> g[i] == next(ids + g[..i])
    requires forall i :: 0 <= i < |g| - 1 ==> g[i] != EndToken
    requires |g| < budget ==> |g| > 0 && g[|g| - 1] == EndToken
    decreases budget
    ensures g == Continue(next, ids, budget)
  {
    if budget > 0 {
      assert ids + g[..0] == ids;
      var token := g[0];
      if token != EndToken {
        var rest := g[1..];
        forall i | 0 <= i < |rest|
          ensures rest[i] == next((ids + [token]) + rest[..i])
        {
          assert g[..i + 1] == [token] + rest[..i];
          assert ids + g[..i + 1] == (ids + [token]) + rest[..i];
        }
        ContinueUnique(next, ids + [token], budget - 1, rest);
        assert g == [token] + rest;
      }
    }
  }

  // ---------------------------------------------------------------------
  // chatbot

  /** Python's `lower()` on the characters that matter for the comparison
      with "exit": ASCII letters. */
  function Lower(s: string): (r: string)
    ensures |r| == |s|
    ensures forall i :: 0 <= i < |s| ==> r[i] == LowerChar(s[i])
  {
    if s == [] then [] else [LowerChar(s[0])] + Lower(s[1..])
  }

  function LowerChar(c: char): char
  {
    if 'A' <= c <= 'Z' then (c as int - 'A' as int + 'a' as int) as char else c
  }

  /** `user_input.lower() == 'exit'` */
  predicate IsExit(line: string)
  {
    Lower(line) == "exit"
  }

  /** The exit sentinel is "exit" in any mix of letter cases, and only that. */
  lemma ExitSpelling(line: string)
    ensures IsExit(line) <==>
      && |line| == 4
      && (line[0] == 'e' || line[0] == 'E')
      && (line[1] == 'x' || line[1] == 'X')
      && (line[2] == 'i' || line[2] == 'I')
      && (line[3] == 't' || line[3] == 'T')
  {
  }

  /** Why a chat session ended: the user typed the exit sentinel, or the
      console input ran out and `input()` raised EOFError. */
  datatype Ending = ExitTyped | InputClosed

  /** The answers printed in one session, in order, and how it ended. */
  datatype Session = Session(replies: seq<string>, ending: Ending)

  /** The answer generate_response gives to `question`. */
  function Reply(question: string, tokenize: Tokenize, next: NextToken, decode: Decode): string
  {
    decode(Generation(next, tokenize(Prompt(question))))
  }

  /** The session the console lines `lines` produce: the reference
      definition of the `while True` loop. */
  function Conversation(lines: seq<string>, tokenize: Tokenize, next: NextToken, decode: Decode): Session
  {
    if lines == [] then Session([], InputClosed)
    else if IsExit(lines[0]) then Session([], ExitTyped)
    else
      var rest := Conversation(lines[1..], tokenize, next, decode);
      Session([Reply(lines[0], tokenize, next, decode)] + rest.replies, rest.ending)
  }

  /** chatbot: reads lines until one is the exit sentinel, answering each
      other line with one generate_response call. */
  method Chatbot(lines: seq<string>, tokenize: Tokenize, next: NextToken, decode: Decode)
    returns (replies: seq<string>, ending: Ending)
    ensures Session(replies, ending) == Conversation(lines, tokenize, next, decode)
  {
    replies := [];
    var i := 0;
    ghost var whole := Conversation(lines, tokenize, next, decode);
    while true
      invariant 0 <= i <= |lines|
      invariant |replies| == i
      invariant whole.replies == replies + Conversation(lines[i..], tokenize, next, decode).replies
      invariant whole.ending == Conversation(lines[i..], tokenize, next, decode).ending
      decreases |lines| - i
    {
      ghost var here := Conversation(lines[i..], tokenize, next, decode);
      if i == |lines| {
        assert lines[i..] == [];
        assert replies + [] == replies;
        return replies, InputClosed;
      }
      var userInput := lines[i];
      assert lines[i..][0] == userInput;
      if IsExit(userInput) {
        assert here == Session([], ExitTyped);
        assert replies + [] == replies;
        return replies, ExitTyped;
      }
      var response := GenerateResponse(userInput, tokenize, next, decode);
      assert lines[i..][1..] == lines[i + 1..];
      ghost var later := Conversation(lines[i + 1..], tokenize, next, decode);
      assert here == Session([response] + later.replies, later.ending);
      assert replies + ([response] + later.replies) == (replies + [response]) + later.replies;
      replies := replies + [response];
      i := i + 1;
    }
  }

  /** A session answers exactly the lines before the first exit sentinel,
      one generate_response call each, in order; it ends on the sentinel
      when there is one, and otherwise when the input runs out. */
  lemma {:induction false} ConversationShape(lines: seq<string>, tokenize: Tokenize, next: NextToken, decode: Decode)
    ensures var s := Conversation(lines, tokenize, next, decode);
      && |s.replies| <= |lines|
      && (forall i :: 0 <= i < |s.replies| ==> !IsExit(lines[i]))
      && (forall i :: 0 <= i < |s.replies| ==>
            s.replies[i] == Reply(lines[i], tokenize, next, decode))
      && (s.ending == ExitTyped <==> |s.replies| < |lines|)
      && (s.ending == ExitTyped ==> IsExit(lines[|s.replies|]))
  {
    if lines != [] && !IsExit(lines[0]) {
      var tail := lines[1..];
      var rest := Conversation(tail, tokenize, next, decode);
      ConversationShape(tail, tokenize, next, decode);
      var first := Reply(lines[0], tokenize, next, decode);
      var s := Conversation(lines, tokenize, next, decode);
      assert s == Session([first] + rest.replies, rest.ending);
      forall i | 0 <= i < |s.replies|
        ensures !IsExit(lines[i]) && s.replies[i] == Reply(lines[i], tokenize, next, decode)
      {
        if i > 0 {
          assert s.replies[i] == rest.replies[i - 1];
          assert tail[i - 1] == lines[i];
        }
      }
      if s.ending == ExitTyped {
        assert tail[|rest.replies|] == lines[|s.replies|];
      }
    }
  }

  /** An exit sentinel as the first line ends the session before any
      generate_response call. */
  lemma ExitFirst(lines: seq<string>, tokenize: Tokenize, next: NextToken, decode: Decode)
    requires lines != [] && IsExit(lines[0])
    ensures Conversation(lines, tokenize, next, decode) == Session([], ExitTyped)
  {
  }
}
