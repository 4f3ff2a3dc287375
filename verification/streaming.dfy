/**
 Stream framing (app/engine/streaming.py). A token source yields its tokens
 and then either ends or raises; the stream it becomes is one token event per
 token followed by exactly one final event: the completion event with the
 whole text and the token count, or the error event. The JSON and
 `data: ...` text encoding of the events is left out; events are values.
 */
module Streaming {
  import opened Base
  import opened Text

  /** What a token generator produces: its tokens, then the error it raises, if any. */
  datatype TokenSource = TokenSource(tokens: seq<string>, failure: Option<Error>)

  datatype Event =
    | TokenEvent(token: string)
    | DoneEvent(fullText: string, tokenCount: nat, sessionId: Option<string>)
    | ErrorEvent(error: Error)
  {
    /** The event carries `"done": true`. */
    predicate Final()
    {
      !TokenEvent?
    }
  }

  /** `if session_id:` attaches the id only when it is given and non-empty. */
  function AttachedSession(sessionId: Option<string>): (r: Option<string>)
    ensures r.Some? <==> sessionId.Some? && sessionId.value != ""
    ensures r.Some? ==> r == sessionId
  {
    match sessionId
    case Some(id) => if id != "" then sessionId else None
    case None => None
  }

  /**
   `stream_tokens_as_sse`: the running text and count are accumulated token
   by token, one token event is emitted per token, and the final event is
   the completion event, or the error event when the source raised.
   */
  method StreamAsEvents(src: TokenSource, sessionId: Option<string>) returns (events: seq<Event>)
    ensures |events| == |src.tokens| + 1
    ensures forall i :: 0 <= i < |src.tokens| ==> events[i] == TokenEvent(src.tokens[i])
    ensures src.failure.None? ==>
      events[|src.tokens|] == DoneEvent(Concat(src.tokens), |src.tokens|, AttachedSession(sessionId))
    ensures src.failure.Some? ==> events[|src.tokens|] == ErrorEvent(src.failure.value)
    ensures forall i :: 0 <= i < |events| ==> (events[i].Final() <==> i == |src.tokens|)
  {
    var text := "";
    var count := 0;
    events := [];
    var i := 0;
    while i < |src.tokens|
      invariant 0 <= i <= |src.tokens|
      invariant text == Concat(src.tokens[..i]) && count == i
      invariant |events| == i
      invariant forall j :: 0 <= j < i ==> events[j] == TokenEvent(src.tokens[j])
    {
      assert src.tokens[..i + 1][..i] == src.tokens[..i];
      text := text + src.tokens[i];
      count := count + 1;
      events := events + [TokenEvent(src.tokens[i])];
      i := i + 1;
    }
    assert src.tokens[..i] == src.tokens;
    match src.failure
    case None =>
      events := events + [DoneEvent(text, count, AttachedSession(sessionId))];
    case Some(e) =>
      events := events + [ErrorEvent(e)];
  }

  /** The tokens a stream of events delivers, read back from its token events. */
  function TokensOf(events: seq<Event>): (r: seq<string>)
    ensures |r| <= |events|
    decreases |events|
  {
    if |events| == 0 then []
    else
      match events[|events| - 1]
      case TokenEvent(t) => TokensOf(events[..|events| - 1]) + [t]
      case _ => TokensOf(events[..|events| - 1])
  }

  /** Reading the token events of a stream gives back exactly the source's tokens. */
  lemma {:induction false} TokensRoundTrip(src: TokenSource, sessionId: Option<string>, events: seq<Event>)
    requires |events| == |src.tokens| + 1 && events[|src.tokens|].Final()
    requires forall i :: 0 <= i < |src.tokens| ==> events[i] == TokenEvent(src.tokens[i])
    ensures TokensOf(events) == src.tokens
  {
    TokenPrefix(src.tokens, events[..|src.tokens|]);
    assert events[..|events| - 1] == events[..|src.tokens|];
  }

  /** A run of token events reads back as its tokens. */
  lemma {:induction false} TokenPrefix(tokens: seq<string>, events: seq<Event>)
    requires |events| == |tokens|
    requires forall i :: 0 <= i < |tokens| ==> events[i] == TokenEvent(tokens[i])
    ensures TokensOf(events) == tokens
    decreases |tokens|
  {
    if |tokens| > 0 {
      TokenPrefix(tokens[..|tokens| - 1], events[..|events| - 1]);
    }
  }

  /**
   `stream_response_non_sse`: the text is accumulated token by token and the
   tokens are counted, so a source that ends normally yields the same text
   and count as the completion event of the streamed form; a source error is
   raised again unchanged.
   */
  method CollectResponse(src: TokenSource) returns (r: Result<(string, nat)>)
    ensures r.Err? <==> src.failure.Some?
    ensures r.Err? ==> r.error == src.failure.value
    ensures r.Ok? ==> r.value.0 == Concat(src.tokens) && r.value.1 == |src.tokens|
    ensures r.Ok? ==> forall i :: 0 <= i < |src.tokens| ==> Contains(r.value.0, src.tokens[i])
  {
    var text := "";
    var count := 0;
    var i := 0;
    while i < |src.tokens|
      invariant 0 <= i <= |src.tokens|
      invariant text == Concat(src.tokens[..i]) && count == i
    {
      assert src.tokens[..i + 1][..i] == src.tokens[..i];
      text := text + src.tokens[i];
      count := count + 1;
      i := i + 1;
    }
    assert src.tokens[..i] == src.tokens;
    match src.failure
    case Some(e) =>
      r := Err(e);
    case None =>
      TokensContained(src.tokens);
      r := Ok((text, count));
  }

  /** Every token is a substring of the joined text. */
  lemma TokensContained(tokens: seq<string>)
    ensures forall i :: 0 <= i < |tokens| ==> Contains(Concat(tokens), tokens[i])
  {
    forall i | 0 <= i < |tokens|
      ensures Contains(Concat(tokens), tokens[i])
    {
      assert tokens == tokens[..i] + [tokens[i]] + tokens[i + 1..];
      ConcatAppend(tokens[..i] + [tokens[i]], tokens[i + 1..]);
      ConcatAppend(tokens[..i], [tokens[i]]);
      assert Concat([tokens[i]]) == tokens[i] by {
        assert [tokens[i]][..0] == [];
      }
      PrefixContained(tokens[i], tokens[i]);
      ContainsInfix(Concat(tokens[..i]), tokens[i], Concat(tokens[i + 1..]), tokens[i]);
    }
  }

  /** `StreamAccumulator`: the tokens added so far and their count. */
  datatype Accumulator = Accumulator(tokens: seq<string>, tokenCount: nat)

  /** The count always equals the number of tokens held. */
  predicate Counted(a: Accumulator)
  {
    a.tokenCount == |a.tokens|
  }

  /** `__init__`: no tokens, a zero count and an empty full text. */
  function NewAccumulator(): (a: Accumulator)
    ensures Counted(a) && a.tokens == [] && FullText(a) == ""
  {
    Accumulator([], 0)
  }

  /** `add_token`. */
  function AddToken(a: Accumulator, token: string): (r: Accumulator)
    ensures Counted(a) ==> Counted(r)
    ensures r.tokens == a.tokens + [token]
  {
    Accumulator(a.tokens + [token], a.tokenCount + 1)
  }

  /** `get_full_text`. */
  function FullText(a: Accumulator): (r: string)
    ensures forall i :: 0 <= i < |a.tokens| ==> Contains(r, a.tokens[i])
  {
    TokensContained(a.tokens);
    Concat(a.tokens)
  }

  /** `reset`. */
  function ResetAccumulator(a: Accumulator): (r: Accumulator)
    ensures r == NewAccumulator()
  {
    Accumulator([], 0)
  }

  /** Adding tokens one by one from a fresh accumulator. */
  function AddAll(a: Accumulator, tokens: seq<string>): (r: Accumulator)
    decreases |tokens|
  {
    if |tokens| == 0 then a else AddToken(AddAll(a, tokens[..|tokens| - 1]), tokens[|tokens| - 1])
  }

  /**
   Feeding a fresh accumulator a sequence of tokens keeps the count equal to
   the number of tokens and its full text is their concatenation, the text
   the completion event carries.
   */
  lemma {:induction false} AccumulatesTokens(tokens: seq<string>)
    ensures Counted(AddAll(NewAccumulator(), tokens))
    ensures AddAll(NewAccumulator(), tokens).tokens == tokens
    ensures FullText(AddAll(NewAccumulator(), tokens)) == Concat(tokens)
    decreases |tokens|
  {
    if |tokens| > 0 {
      AccumulatesTokens(tokens[..|tokens| - 1]);
      assert tokens[..|tokens| - 1] + [tokens[|tokens| - 1]] == tokens;
    }
  }
}
