/** The server's handling of one change notification on its window: the
    payload is split, decoded and its file arguments are rewritten; the
    result is the program and argument list to start. Starting the process
    and draining its output are not part of the model. */
module Server {
  import opened Runtime
  import opened GoStrings
  import opened Wire
  import opened Rewrite

  /** A program to start with its argument list. */
  datatype Exec = Exec(program: string, argv: seq<string>)

  /** run, applied to the payload read from the window. A panic here is
      raised on the event loop itself and so ends the server. */
  function Run(payload: string, resolvConf: Option<seq<string>>,
               sshConfig: Option<seq<string>>): (r: Result<Exec>)
    ensures Nul !in payload ==> r == Err(IndexOutOfRange)
    ensures var tokens := SplitPayload(payload);
            && (r.Ok? <==> |tokens| >= 2 && MappedHost(tokens[0], resolvConf, sshConfig).Ok?)
            && (r.Err? && |tokens| < 2 ==> r.panic == IndexOutOfRange)
            && (r.Err? && |tokens| >= 2 ==>
                  r.panic == MappedHost(tokens[0], resolvConf, sshConfig).panic)
    ensures r.Ok? ==>
              var tokens := SplitPayload(payload);
              && |tokens| >= 2
              && r.value.program == tokens[1]
              && |r.value.argv| == |tokens| - 2
              && (forall i :: 2 <= i < |tokens| && !HasPrefix(tokens[i], FilePrefix) ==>
                    r.value.argv[i - 2] == tokens[i])
              && (forall i :: 2 <= i < |tokens| && HasPrefix(tokens[i], FilePrefix) ==>
                    r.value.argv[i - 2]
                    == SftpScheme + MappedHost(tokens[0], resolvConf, sshConfig).value
                       + tokens[i][|FilePrefix|..])
  {
    if Nul !in payload then NoSeparatorRejected(payload); Err(IndexOutOfRange)
    else
      match DecodeCommand(SplitPayload(payload))
      case Err(p) => Err(p)
      case Ok(c) =>
        match MapFileArgs(c.host, c.program, c.args, resolvConf, sshConfig)
        case Err(p) => Err(p)
        case Ok(argv) => Ok(Exec(c.program, argv))
  }
}
