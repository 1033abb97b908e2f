/** The channel payload: the client joins its tokens with NUL bytes, the
    server splits the payload at every NUL and reads the tokens as the
    originating host, the program and its arguments. There is no length
    prefix and no escaping, so a token may not contain NUL. */
module Wire {
  import opened Runtime
  import opened GoStrings

  /** The value a listening server publishes on its window. The server
      hands over its one-byte buffer with a data length of 0, so nothing of
      it is stored: the value is empty, and only its non-zero format marks
      the window as a server's. */
  const PresenceMarker: string := []

  /** A command request as the server reads it. */
  datatype Command = Command(host: string, program: string, args: seq<string>)

  predicate NulFree(tokens: seq<string>)
  {
    forall k :: 0 <= k < |tokens| ==> Nul !in tokens[k]
  }

  /** The tokens a command travels as. */
  function CommandTokens(c: Command): seq<string>
  {
    [c.host, c.program] + c.args
  }

  /** The client's encoding of its tokens. */
  function EncodePayload(tokens: seq<string>): string
  {
    Join(tokens, [Nul])
  }

  /** The server's split of a payload into tokens. */
  function SplitPayload(payload: string): seq<string>
  {
    Split(payload, Nul)
  }

  /** The token decoding at the top of run: token 0 is the host, token 1
      the program and the rest its arguments. Fewer than two tokens index
      past the end of the slice. */
  function DecodeCommand(tokens: seq<string>): (r: Result<Command>)
    ensures r.Err? <==> |tokens| < 2
    ensures r.Err? ==> r.panic == IndexOutOfRange
    ensures r.Ok? ==> CommandTokens(r.value) == tokens
  {
    if |tokens| < 2 then Err(IndexOutOfRange)
    else Ok(Command(tokens[0], tokens[1], tokens[2..]))
  }

  /** Splitting an encoded, non-empty, NUL-free token list gives the list
      back. */
  lemma PayloadRoundTrip(tokens: seq<string>)
    requires |tokens| >= 1 && NulFree(tokens)
    ensures SplitPayload(EncodePayload(tokens)) == tokens
  {
    SplitOfJoin(tokens, Nul);
  }

  /** Joining the split of any payload gives the payload back. */
  lemma PayloadSplitRoundTrip(payload: string)
    ensures EncodePayload(SplitPayload(payload)) == payload
    ensures NulFree(SplitPayload(payload))
  {
  }

  /** A command whose parts hold no NUL reaches the server intact. */
  lemma CommandRoundTrip(c: Command)
    requires NulFree(CommandTokens(c))
    ensures DecodeCommand(SplitPayload(EncodePayload(CommandTokens(c)))) == Ok(c)
  {
    PayloadRoundTrip(CommandTokens(c));
  }

  /** A payload without a NUL is a single token, which the server cannot
      decode. */
  lemma NoSeparatorRejected(payload: string)
    requires Nul !in payload
    ensures DecodeCommand(SplitPayload(payload)) == Err(IndexOutOfRange)
  {
    SplitWithoutSeparator(payload, Nul);
  }

  /** Read back as a command, the presence marker is a single empty token,
      which the server cannot decode. */
  lemma PresenceMarkerRejected()
    ensures SplitPayload(PresenceMarker) == [""]
    ensures DecodeCommand(SplitPayload(PresenceMarker)) == Err(IndexOutOfRange)
  {
    NoSeparatorRejected(PresenceMarker);
    SplitWithoutSeparator(PresenceMarker, Nul);
  }
}
