# docotoc control logic in Dafny

This project models the local control logic of two demonstration scripts. The AI services themselves are not modelled.

- `open-ai-app.py` transcribes audio, corrects its medical spelling and drafts an email to a doctor. Each of these is one call to the OpenAI service. Each call is wrapped in the same bounded retry policy:
  - `for attempt in range(max_retries)` makes at most `max_retries` attempts;
  - the first success is returned;
  - a `RateLimitError` is followed by a sleep of `2 ** attempt` seconds, except on the last attempt, where the error is re-raised;
  - any other exception escapes at once.

  `get_api_key` refuses a missing or empty `OPENAI_API_KEY`.
- `octopus_v4_chatbot.py` routes a question through the Octopus-v4 model. It uses greedy decoding of at most 200 tokens and stops right after the `<nexa_end>` token (id 32041). A console loop answers lines until the user types `exit`, in any letter case.

## Modules

- `retry.dfy`, module `Retry`: the shared retry policy.
  - The OpenAI client is an oracle `service(request, attempt)` that answers `Success(text)`, `RateLimited(message)` or `Failed(message)`.
  - `time.sleep` is recorded: a `Run` lists the waits in order, together with the number of calls made and how the invocation ended. It ends with a returned text, a raised exception, or Python's implicit `None`.
  - `RunFrom`/`Policy` is the reference definition.
  - `RetryCall` is the loop, and it is proved equal to `Policy`.
  - The lemmas state what the policy does in every case.
- `openai_app.dfy`, module `OpenAiApp`:
  - `get_api_key` over an environment map;
  - Python's `str.strip()`, with Python's full set of whitespace code points;
  - the request each wrapper sends;
  - the three wrappers as calls of `RetryCall`.
- `octopus.dfy`, module `Octopus`:
  - The model plus argmax is a parameter `next: seq<int> -> int`. The tokenizer and `tokenizer.decode` are parameters too.
  - `Continue`/`Generation` is the reference definition of decoding, and `GenerateTokens` is the loop proved against it.
  - The console is a sequence of input lines. `Conversation` is the reference definition of the chat loop, and `Chatbot` is the loop proved against it.

Error handling, as the code does it:
- On the last rate-limited attempt, and on any other error, the original exception is re-raised unchanged (open-ai-app.py:29-36).
- `max_retries <= 0` is accepted. The loop body then never runs, and the function returns `None`.
- When console input runs out, `input()` raises `EOFError`, so the chat loop ends with that exception. The model calls this ending `InputClosed`.

## Model

| member | source | states |
|---|---|---|
| Retry.RetryCall | open-ai-app.py:20-36 | the retry loop makes exactly the calls, waits and ending of the reference policy `Policy` |
| Retry.RunFromShape | open-ai-app.py:21-36 | from any attempt inside the loop: between 1 and the remaining attempts are made; all calls but the last were rate-limited; the wait after the call at attempt a is 2^a; the last call's answer decides the ending; a rate limit escapes only at the last attempt |
| Retry.PolicyCharacterized | open-ai-app.py:21-36 | with max_retries >= 1: 1 <= calls <= max_retries; every call before the last was rate-limited; the waits are 1, 2, 4, … with one wait fewer than calls; the last call's text is returned or its exception raised; a RateLimitError escapes only after max_retries calls |
| Retry.ReturnedText | open-ai-app.py:24-28 | a returned text is exactly the answer of the last call made |
| Retry.FirstSuccess | open-ai-app.py:21-28 | if attempt k (1-based) is the first success, exactly k calls are made, its text is returned and the waits are 1, …, 2^(k-2), none after it |
| Retry.OtherErrorEscapes | open-ai-app.py:29 | an exception other than RateLimitError at attempt k escapes after exactly k calls, with no further call or wait |
| Retry.AllRateLimited | open-ai-app.py:29-36 | if every attempt is rate-limited: max_retries calls; max_retries - 1 waits totalling 2^(max_retries-1) - 1; the last attempt's RateLimitError is re-raised |
| Retry.NoBudget | open-ai-app.py:21 | with max_retries <= 0: no call, no wait, and the result is None |
| Retry.ReturnsNoneIff | open-ai-app.py:20-36 | the function returns None exactly when max_retries <= 0 |
| Retry.SkipRateLimited | open-ai-app.py:29-33 | k rate-limited attempts before the last one contribute k calls and the waits 1, …, 2^(k-1), and then the loop continues at attempt k |
| Retry.BackoffAt | open-ai-app.py:30-33 | the i-th recorded wait (0-based) is 2^i |
| Retry.BackoffTotal | open-ai-app.py:30-33 | n successive waits total 2^n - 1 seconds |
| Retry.BackoffDoubles | open-ai-app.py:30-33 | the first wait is one second and every later wait is twice the one before it |
| OpenAiApp.GetApiKey | open-ai-app.py:14-18 | a key is returned exactly when OPENAI_API_KEY is present and non-empty, and it is returned unchanged; otherwise a ValueError with the source's message |
| OpenAiApp.TranscribeWithRetry | open-ai-app.py:20-36 | transcription runs the retry policy on one transcription request for the file, and the transcript is returned unchanged |
| OpenAiApp.CorrectSpelling | open-ai-app.py:38-63 | correction runs the retry policy on a chat request whose user message is the transcription verbatim; the reply is returned unstripped |
| OpenAiApp.GenerateEmail | open-ai-app.py:65-91 | email drafting makes the same calls and waits as the policy on the email request; a successful reply is returned stripped; every other ending is unchanged |
| OpenAiApp.GenerateEmailOutcome | open-ai-app.py:73-91 | a successful email comes from the Success answer of the last call made, stripped; every call before it was rate-limited; the email has no whitespace at either end |
| OpenAiApp.EmailPromptContains | open-ai-app.py:66-71 | the email prompt contains corrected_text verbatim, at a fixed offset |
| OpenAiApp.EmailPromptInjective | open-ai-app.py:66-71 | different corrected texts give different email prompts |
| OpenAiApp.SkipSpace | open-ai-app.py:83 | the forward scan of `strip()` stops at the first non-whitespace character at or after its start, or at the end; everything it skipped is whitespace |
| OpenAiApp.BackSpace | open-ai-app.py:83 | the backward scan of `strip()` never passes the start found by the forward scan; everything it cut is whitespace; it stops after a non-whitespace character or at that start |
| OpenAiApp.Strip | open-ai-app.py:83 | the result of `strip()` neither starts nor ends with whitespace |
| OpenAiApp.StripSurrounded | open-ai-app.py:83 | any whitespace around a text with no whitespace at either end is exactly what `strip()` removes |
| OpenAiApp.StripIdempotent | open-ai-app.py:83 | stripping twice gives the same result as stripping once |
| Octopus.PromptFraming | octopus_v4_chatbot.py:15 | the prompt is the fixed system header, then the question unchanged, then the assistant cue |
| Octopus.PromptInjective | octopus_v4_chatbot.py:15 | different questions give different prompts |
| Octopus.GenerateTokens | octopus_v4_chatbot.py:16-24 | the decoding loop produces the reference generation, and the final input_ids equal prompt_ids + generated |
| Octopus.GenerateResponse | octopus_v4_chatbot.py:14-26 | the response is the decoding of the tokens generated from the tokenized prompt of the question |
| Octopus.ContinueShape | octopus_v4_chatbot.py:19-24 | with any step budget: at most budget tokens; 32041 appears only last; a shorter output ends with 32041; token i is next(input + tokens[..i]) |
| Octopus.GenerationShape | octopus_v4_chatbot.py:19-24 | at most 200 tokens; 32041 appears only as the last token; an output shorter than 200 ends with 32041; token i is next(prompt_ids + generated[..i]) |
| Octopus.ContinueUnique | octopus_v4_chatbot.py:19-24 | any token list with these properties is the generation, so they define it completely |
| Octopus.ExitSpelling | octopus_v4_chatbot.py:32 | a line is the exit sentinel exactly when it is "exit" in some mix of letter cases |
| Octopus.Chatbot | octopus_v4_chatbot.py:28-36 | the chat loop produces the replies and the ending of the reference session `Conversation` |
| Octopus.ConversationShape | octopus_v4_chatbot.py:30-35 | exactly the lines before the first exit sentinel are answered, in order, one generate_response each; the session ends on the sentinel when there is one, and otherwise when input runs out |
| Octopus.ExitFirst | octopus_v4_chatbot.py:32-34 | an exit sentinel as the first line ends the session with no generate_response call |

## Left out

- Logging (`logger.warning`, `logger.error`, `logging.basicConfig`) and `load_dotenv` are not modelled. They have no effect on results.
- The default argument `max_retries=3` of the three wrappers is not modelled as a default: every wrapper takes `maxRetries` explicitly, and a call with the default is a call with 3.
- `time.sleep` does not wait: each wait is recorded in `Run.delays`.
- The OpenAI client, Whisper and the chat-completion endpoint are an oracle. Opening the audio file (`open(file_path, "rb")`) is part of the transcription oracle's attempt. A failure to open is one more non-rate-limit exception.
- The model name, `response_format="text"` and `max_tokens=150` are not part of the modelled request. They are opaque service parameters.
- `response.choices[0].message.content` is modelled as text. A `None` content, and the `AttributeError` it would cause in `.strip()`, are not modelled.
- `main` is not modelled: the fixed list of audio files, path joining, printing and the catch-all `except Exception`. It is sequencing and I/O.
- Loading the Octopus-v4 model and tokenizer, bfloat16 logits, `argmax` and device placement are abstracted by `next`. `tokenizer` and `tokenizer.decode` are opaque parameters.
- The console `print` calls in `chatbot` are not modelled.
- Octopus.Lower: models Python's `str.lower()` for ASCII letters only. For the comparison with "exit" this agrees with full Unicode lowercasing, because no other code point lowercases to any of e, x, i or t.
