/** The three service wrappers of open-ai-app.py and the credential check
    that precedes them.  Each wrapper builds one request and hands it to the
    shared policy of module Retry; the OpenAI client is the `service` oracle. */
module OpenAiApp {
  import opened Retry

  // ---------------------------------------------------------------------
  // get_api_key

  const ApiKeyVariable := "OPENAI_API_KEY"

  /** The outcome of looking up the API key. */
  datatype KeyLookup = Key(value: string) | ValueError(message: string)

  /** Reads OPENAI_API_KEY from the environment `env`; a missing or empty
      value is a ValueError, any other value is returned unchanged. */
  function GetApiKey(env: map<string, string>): (r: KeyLookup)
    ensures r.Key? <==> ApiKeyVariable in env && env[ApiKeyVariable] != ""
    ensures r.Key? ==> r.value == env[ApiKeyVariable]
    ensures r.ValueError? ==> r.message == "OPENAI_API_KEY environment variable is not set"
  {
    if ApiKeyVariable !in env || env[ApiKeyVariable] == "" then
      ValueError("OPENAI_API_KEY environment variable is not set")
    else
      Key(env[ApiKeyVariable])
  }

  // ---------------------------------------------------------------------
  // Python's str.strip() with no argument

  /** Python's `str.isspace` for one code point: the characters `strip()`
      removes. */
  predicate IsSpace(c: char)
  {
    ('\t' <= c <= '\r') || ('\U{1C}' <= c <= ' ') || c == '\U{85}' || c == '\U{A0}'
    || c == '\U{1680}' || ('\U{2000}' <= c <= '\U{200A}') || c == '\U{2028}'
    || c == '\U{2029}' || c == '\U{202F}' || c == '\U{205F}' || c == '\U{3000}'
  }

  predicate AllSpace(s: string)
  {
    forall k :: 0 <= k < |s| ==> IsSpace(s[k])
  }

  /** The index of the first non-whitespace character of `s` at or after
      `i`, or `|s|` when there is none. */
  function SkipSpace(s: string, i: nat): (r: nat)
    requires i <= |s|
    ensures i <= r <= |s|
    ensures forall k :: i <= k < r ==> IsSpace(s[k])
    ensures r < |s| ==> !IsSpace(s[r])
    decreases |s| - i
  {
    if i < |s| && IsSpace(s[i]) then SkipSpace(s, i + 1) else i
  }

  /** Scanning down from `j` towards `lo`: the end of the text once the
      whitespace before `j` is cut. */
  function BackSpace(s: string, lo: nat, j: nat): (r: nat)
    requires lo <= j <= |s|
    ensures lo <= r <= j
    ensures forall k :: r <= k < j ==> IsSpace(s[k])
    ensures r > lo ==> !IsSpace(s[r - 1])
    decreases j
  {
    if j > lo && IsSpace(s[j - 1]) then BackSpace(s, lo, j - 1) else j
  }

  /** `s.strip()`: skip the whitespace at the start, then cut the whitespace
      at the end of what is left.  The result neither starts nor ends with
      whitespace. */
  function Strip(s: string): (r: string)
    ensures r != [] ==> !IsSpace(r[0]) && !IsSpace(r[|r| - 1])
  {
    var i := SkipSpace(s, 0);
    var j := BackSpace(s, i, |s|);
    assert i < j ==> s[i..j][0] == s[i] && s[i..j][j - i - 1] == s[j - 1];
    s[i..j]
  }

  /** The forward scan stops exactly at the first non-whitespace character. */
  lemma SkipSpaceStops(s: string, i: nat, stop: nat)
    requires i <= stop <= |s|
    requires forall k :: i <= k < stop ==> IsSpace(s[k])
    requires stop < |s| ==> !IsSpace(s[stop])
    ensures SkipSpace(s, i) == stop
  {
  }

  /** The backward scan stops exactly after the last non-whitespace character. */
  lemma BackSpaceStops(s: string, lo: nat, j: nat, stop: nat)
    requires lo <= stop <= j <= |s|
    requires forall k :: stop <= k < j ==> IsSpace(s[k])
    requires stop > lo ==> !IsSpace(s[stop - 1])
    ensures BackSpace(s, lo, j) == stop
  {
  }

  /** `strip()` is determined by the text between the whitespace it cuts:
      whatever whitespace surrounds a text without whitespace at either end,
      stripping gives back that text. */
  lemma StripSurrounded(lead: string, core: string, trail: string)
    requires AllSpace(lead) && AllSpace(trail)
    requires core != [] ==> !IsSpace(core[0]) && !IsSpace(core[|core| - 1])
    ensures Strip(lead + core + trail) == core
  {
    var s := lead + core + trail;
    var i := |lead|;
    var j := |lead| + |core|;
    if core == [] {
      assert forall k :: 0 <= k < |s| ==> IsSpace(s[k]) by {
        forall k | 0 <= k < |s| ensures IsSpace(s[k]) {
          if k < i { assert s[k] == lead[k]; } else { assert s[k] == trail[k - i]; }
        }
      }
      SkipSpaceStops(s, 0, |s|);
    } else {
      assert forall k :: 0 <= k < i ==> IsSpace(s[k]) by {
        forall k | 0 <= k < i ensures IsSpace(s[k]) { assert s[k] == lead[k]; }
      }
      assert s[i] == core[0];
      SkipSpaceStops(s, 0, i);
      assert forall k :: j <= k < |s| ==> IsSpace(s[k]) by {
        forall k | j <= k < |s| ensures IsSpace(s[k]) { assert s[k] == trail[k - j]; }
      }
      assert s[j - 1] == core[|core| - 1];
      BackSpaceStops(s, i, |s|, j);
      assert s[i..j] == core;
    }
  }

  /** Stripping twice is stripping once. */
  lemma StripIdempotent(s: string)
    ensures Strip(Strip(s)) == Strip(s)
  {
    var r := Strip(s);
    assert [] + r + [] == r;
    StripSurrounded([], r, []);
  }

  // ---------------------------------------------------------------------
  // The three wrappers

  const CorrectionSystemPrompt :=
    "\n    You are a helpful assistant specializing in medical terminology. "
    + "\n    Your task is to correct any spelling discrepancies in the transcribed text about blood sugar checks. "
    + "\n    Make sure that medical terms and procedures are spelled correctly. "
    + "\n    Only add necessary punctuation such as periods, commas, and capitalization, and use only the context provided."
    + "\n    "

  const EmailSystemPrompt := "You are a helpful assistant that writes concise emails."

  const EmailPromptHead :=
    "\n    Please use the following question to generate an email to my doctor. "
    + "\n    Please limit the message to 450 characters:\n\n    "

  const EmailPromptTail := "\n    "

  /** The user message of generate_email: `corrected_text` inside a fixed
      instruction. */
  function EmailPrompt(correctedText: string): string
  {
    EmailPromptHead + correctedText + EmailPromptTail
  }

  /** The corrected text appears verbatim in the email prompt, at a fixed
      offset, so that it can be read back from it. */
  lemma EmailPromptContains(correctedText: string)
    ensures var p := EmailPrompt(correctedText);
      |p| == |EmailPromptHead| + |correctedText| + |EmailPromptTail|
      && p[|EmailPromptHead|..|EmailPromptHead| + |correctedText|] == correctedText
  {
  }

  /** Two different corrected texts give two different email prompts. */
  lemma {:induction false} EmailPromptInjective(a: string, b: string)
    requires EmailPrompt(a) == EmailPrompt(b)
    ensures a == b
  {
    var h := |EmailPromptHead|;
    assert |a| == |b|;
    assert a == EmailPrompt(a)[h..h + |a|];
    assert b == EmailPrompt(b)[h..h + |b|];
  }

  function TranscriptionRequest(filePath: string): Request { Transcription(filePath) }

  function CorrectionRequest(transcription: string): Request
  {
    ChatCompletion(CorrectionSystemPrompt, transcription)
  }

  function EmailRequest(correctedText: string): Request
  {
    ChatCompletion(EmailSystemPrompt, EmailPrompt(correctedText))
  }

  /** transcribe_with_retry: opening the audio file and the Whisper call
      are one attempt of the oracle; the transcript comes back unchanged. */
  method TranscribeWithRetry(service: Service, filePath: string, maxRetries: int) returns (run: Run)
    ensures run == Policy(service, TranscriptionRequest(filePath), maxRetries)
  {
    run := RetryCall(service, TranscriptionRequest(filePath), maxRetries);
  }

  /** correct_spelling: the transcription is the user message, after the
      fixed system instruction; the reply is returned unstripped. */
  method CorrectSpelling(service: Service, transcription: string, maxRetries: int) returns (run: Run)
    ensures run == Policy(service, CorrectionRequest(transcription), maxRetries)
  {
    run := RetryCall(service, CorrectionRequest(transcription), maxRetries);
  }

  /** The ending of generate_email: a successful reply is stripped, every
      other ending is the policy's own. */
  function StripReturned(c: Completion): Completion
  {
    if c.Returned? then Returned(Strip(c.text)) else c
  }

  /** generate_email: the same calls and waits as the policy on the email
      request; a successful reply comes back stripped. */
  method GenerateEmail(service: Service, correctedText: string, maxRetries: int) returns (run: Run)
    ensures var p := Policy(service, EmailRequest(correctedText), maxRetries);
      && run.calls == p.calls && run.delays == p.delays
      && (p.completion.Returned? <==> run.completion.Returned?)
      && (p.completion.Returned? ==> run.completion.text == Strip(p.completion.text))
      && (!p.completion.Returned? ==> run.completion == p.completion)
  {
    var raw := RetryCall(service, EmailRequest(correctedText), maxRetries);
    run := Run(StripReturned(raw.completion), raw.calls, raw.delays);
  }

  /** A successful generate_email returns the last call's reply with no
      whitespace at either end, and every call before it hit the rate
      limit. */
  lemma GenerateEmailOutcome(service: Service, correctedText: string, maxRetries: int)
    ensures var p := Policy(service, EmailRequest(correctedText), maxRetries);
      var e := StripReturned(p.completion);
      && (e.Returned? ==> p.calls >= 1 && service(EmailRequest(correctedText), p.calls - 1) == Success(p.completion.text))
      && (e.Returned? ==> forall i :: 0 <= i < p.calls - 1 ==> service(EmailRequest(correctedText), i).RateLimited?)
      && (e.Returned? && e.text != [] ==> !IsSpace(e.text[0]) && !IsSpace(e.text[|e.text| - 1]))
  {
    var p := Policy(service, EmailRequest(correctedText), maxRetries);
    ReturnedText(service, EmailRequest(correctedText), maxRetries);
    if maxRetries >= 1 {
      PolicyCharacterized(service, EmailRequest(correctedText), maxRetries);
    }
  }
}
