/**
 Stop-sequence detection of the output sanitizer (app/engine/sanitizer.py).
 Every generated token is appended to a buffer, and generation stops once a
 stop token occurs in the text of the last twenty tokens, which also catches
 stop tokens split across several tokens. The regular-expression cleanup of
 the tokens that do not stop generation is a parameter.
 */
module Sanitizer {
  import opened Base
  import opened Text

  datatype OutputSanitizer = OutputSanitizer(stopTokens: seq<string>, buffer: seq<string>)

  /** How many of the most recent tokens the stop search looks at. */
  const LookBack: nat := 20

  function NewSanitizer(stopTokens: seq<string>): (s: OutputSanitizer)
    ensures s.stopTokens == stopTokens && s.buffer == []
  {
    OutputSanitizer(stopTokens, [])
  }

  /** `buffer[-20:]`: the last twenty tokens, or all of them when there are fewer. */
  function Recent(buffer: seq<string>): (r: seq<string>)
    ensures |r| == if |buffer| < LookBack then |buffer| else LookBack
    ensures r == buffer[|buffer| - |r|..]
  {
    if |buffer| < LookBack then buffer else buffer[|buffer| - LookBack..]
  }

  /** The `for stop in stop_tokens` loop: does any stop token occur in `text`? */
  function AnyStopIn(stops: seq<string>, text: string): (r: bool)
    ensures r <==> exists i :: 0 <= i < |stops| && Contains(text, stops[i])
    decreases |stops|
  {
    if |stops| == 0 then false
    else if Contains(text, stops[0]) then true
    else
      var rest := AnyStopIn(stops[1..], text);
      assert forall i :: 1 <= i < |stops| ==> stops[i] == stops[1..][i - 1];
      rest
  }

  /**
   `should_stop`: the token joins the buffer, then the verdict is whether a
   stop token occurs in the joined text of the last twenty tokens.
   */
  function ShouldStop(s: OutputSanitizer, token: string): (r: (OutputSanitizer, bool))
    ensures r.0.stopTokens == s.stopTokens && r.0.buffer == s.buffer + [token]
    ensures r.1 <==> exists i :: 0 <= i < |s.stopTokens| && Contains(Concat(Recent(r.0.buffer)), s.stopTokens[i])
    ensures |s.stopTokens| == 0 ==> !r.1
  {
    var buffer := s.buffer + [token];
    (s.(buffer := buffer), AnyStopIn(s.stopTokens, Concat(Recent(buffer))))
  }

  /**
   `sanitize_token`: a token that triggers a stop yields `None` before any
   cleanup runs; otherwise the opaque pattern cleanup decides.
   */
  function SanitizeToken(s: OutputSanitizer, token: string, cleanup: string -> Option<string>): (r: (OutputSanitizer, Option<string>))
    ensures r.0 == ShouldStop(s, token).0
    ensures ShouldStop(s, token).1 ==> r.1 == None
    ensures !ShouldStop(s, token).1 ==> r.1 == cleanup(token)
  {
    var (next, stop) := ShouldStop(s, token);
    if stop then (next, None) else (next, cleanup(token))
  }

  /** `reset`: an empty buffer for the next generation. */
  function Reset(s: OutputSanitizer): (r: OutputSanitizer)
    ensures r.buffer == [] && r.stopTokens == s.stopTokens
  {
    s.(buffer := [])
  }

  /** A token that itself holds a stop token always stops generation. */
  lemma TokenWithStopStops(s: OutputSanitizer, token: string, i: nat)
    requires i < |s.stopTokens| && Contains(token, s.stopTokens[i])
    ensures ShouldStop(s, token).1
  {
    var window := Recent(s.buffer + [token]);
    assert |window| >= 1 && window[|window| - 1] == token;
    assert Concat(window) == Concat(window[..|window| - 1]) + token;
    ContainsInfix(Concat(window[..|window| - 1]), token, "", s.stopTokens[i]);
    assert Concat(window[..|window| - 1]) + token + "" == Concat(window);
  }

  /**
   With stop tokens `</s>` and `STOP`, the tokens "Hello", " world" and
   "</s>" give the verdicts false, false and true: the buffer grows one
   token per call and only the third token holds a stop token.
   */
  lemma StopsOnEndOfSequence()
    ensures !ShouldStop(NewSanitizer(["</s>", "STOP"]), "Hello").1
    ensures ShouldStop(NewSanitizer(["</s>", "STOP"]), "Hello").0 == OutputSanitizer(["</s>", "STOP"], ["Hello"])
    ensures !ShouldStop(OutputSanitizer(["</s>", "STOP"], ["Hello"]), " world").1
    ensures ShouldStop(OutputSanitizer(["</s>", "STOP"], ["Hello"]), " world").0 == OutputSanitizer(["</s>", "STOP"], ["Hello", " world"])
    ensures ShouldStop(OutputSanitizer(["</s>", "STOP"], ["Hello", " world"]), "</s>").1
  {
    FirstTokenPasses();
    SecondTokenPasses();
    TokenWithStopStops(OutputSanitizer(["</s>", "STOP"], ["Hello", " world"]), "</s>", 0);
  }

  /** Stop tokens whose first characters are all missing from the text do not occur in it. */
  lemma NoStopStarts(stops: seq<string>, text: string)
    requires forall i :: 0 <= i < |stops| ==> |stops[i]| > 0 && stops[i][0] !in text
    ensures !AnyStopIn(stops, text)
  {
    forall i | 0 <= i < |stops|
      ensures !Contains(text, stops[i])
    {
      MissingFirstCharNotContains(text, stops[i]);
    }
  }

  /** "Hello" as the first token does not stop. */
  lemma FirstTokenPasses()
    ensures !ShouldStop(OutputSanitizer(["</s>", "STOP"], []), "Hello").1
  {
    ResetForgetsHistory(OutputSanitizer(["</s>", "STOP"], []), "Hello");
    NoStopStarts(["</s>", "STOP"], "Hello");
  }

  /** " world" after "Hello" does not stop. */
  lemma SecondTokenPasses()
    ensures !ShouldStop(OutputSanitizer(["</s>", "STOP"], ["Hello"]), " world").1
  {
    SecondVerdict(OutputSanitizer(["</s>", "STOP"], ["Hello"]), " world");
    NoStopStarts(["</s>", "STOP"], "Hello" + " world");
  }

  /** With one token buffered, the verdict looks at that token followed by the new one. */
  lemma SecondVerdict(s: OutputSanitizer, token: string)
    requires |s.buffer| == 1
    ensures ShouldStop(s, token).1 <==> AnyStopIn(s.stopTokens, s.buffer[0] + token)
  {
    var b := s.buffer + [token];
    assert Recent(b) == b;
    assert b[..1] == [s.buffer[0]] && [s.buffer[0]][..0] == [];
    assert Concat([s.buffer[0]]) == s.buffer[0];
    assert Concat(b) == Concat(b[..1]) + token;
  }

  /** After a reset the next verdict depends on the new token alone. */
  lemma ResetForgetsHistory(s: OutputSanitizer, token: string)
    ensures ShouldStop(Reset(s), token).1 <==> AnyStopIn(s.stopTokens, token)
  {
    assert Reset(s).buffer + [token] == [token];
    assert Recent([token]) == [token];
    assert Concat([token]) == token by {
      assert [token][..0] == [];
    }
  }
}
