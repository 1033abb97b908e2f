/** The two rewrites of a command's arguments: the client tags local paths
    as `file:` URIs and prepends its host name (fixup_args); the server
    turns `file:` URIs into `sftp://` URIs on the host the command came
    from (map_file_args). The filesystem queries and the host name lookup
    of the client are parameters. */
module Rewrite {
  import opened Runtime
  import opened GoStrings
  import opened HostConfig

  const FilePrefix: string := "file:"
  const SftpScheme: string := "sftp://"

  // ---------------------------------------------------------------------
  // Server side (map_file_args)

  /** The host named in the rewritten URIs: the shortened host's alias in
      the SSH config table, or the shortened host itself when the table
      does not name it. */
  function MappedHost(host: string, resolvConf: Option<seq<string>>,
                      sshConfig: Option<seq<string>>): (r: Result<string>)
    ensures r.Ok? <==> ShortenHost(host, resolvConf).Ok? && ParseSshConfig(sshConfig).Ok?
    ensures ShortenHost(host, resolvConf).Err? ==> r == Err(SliceBoundsOutOfRange)
    ensures ShortenHost(host, resolvConf).Ok? && ParseSshConfig(sshConfig).Err? ==>
              r == Err(IndexOutOfRange)
  {
    match ShortenHost(host, resolvConf)
    case Err(p) => Err(p)
    case Ok(short) =>
      match ParseSshConfig(sshConfig)
      case Err(p) => Err(p)
      case Ok(mapping) =>
        if short in mapping then Ok(mapping[short]) else Ok(short)
  }

  /** map_file_args: every argument that starts with `file:` has that
      prefix replaced by `sftp://` and the mapped host; every other
      argument is left exactly as it was. The program name is not used. */
  function MapFileArgs(host: string, cmd: string, args: seq<string>,
                       resolvConf: Option<seq<string>>,
                       sshConfig: Option<seq<string>>): (r: Result<seq<string>>)
    ensures r.Ok? <==> MappedHost(host, resolvConf, sshConfig).Ok?
    ensures r.Err? ==> r.panic == MappedHost(host, resolvConf, sshConfig).panic
    ensures r.Ok? ==> |r.value| == |args|
    ensures r.Ok? ==>
              forall i :: 0 <= i < |args| && !HasPrefix(args[i], FilePrefix) ==> r.value[i] == args[i]
    ensures r.Ok? ==>
              forall i :: 0 <= i < |args| && HasPrefix(args[i], FilePrefix) ==>
                r.value[i] == SftpScheme + MappedHost(host, resolvConf, sshConfig).value
                              + args[i][|FilePrefix|..]
  {
    match MappedHost(host, resolvConf, sshConfig)
    case Err(p) => Err(p)
    case Ok(mapped) =>
      var replacement := SftpScheme + mapped;
      Ok(seq(|args|, i requires 0 <= i < |args| =>
               if HasPrefix(args[i], FilePrefix) then ReplaceFirst(args[i], FilePrefix, replacement)
               else args[i]))
  }

  /** With no `HostName` line naming the shortened host, the mapped host is
      the shortened host. */
  lemma MappedHostUnlisted(host: string, resolvConf: Option<seq<string>>, lines: seq<string>)
    requires ShortenHost(host, resolvConf).Ok?
    requires ParseSshConfig(Some(lines)).Ok?
    requires forall i :: 0 <= i < |lines| && HostNameLine(Fields(lines[i])) ==>
               Fields(lines[i])[1] != ShortenHost(host, resolvConf).value
    ensures MappedHost(host, resolvConf, Some(lines)) == ShortenHost(host, resolvConf)
  {
    var fs := FieldsOfLines(lines);
    SshTableKeys(fs);
  }

  /** When the last `HostName` line naming the shortened host sits below a
      `Host alias` line with no other `Host` line between them, the mapped
      host is that alias. */
  lemma MappedHostListed(host: string, resolvConf: Option<seq<string>>, lines: seq<string>,
                         j: nat, i: nat)
    requires ShortenHost(host, resolvConf).Ok?
    requires ParseSshConfig(Some(lines)).Ok?
    requires j < i < |lines|
    requires HostLine(Fields(lines[j]))
    requires HostNameLine(Fields(lines[i])) && Fields(lines[i])[1] == ShortenHost(host, resolvConf).value
    requires LastNaming(FieldsOfLines(lines), i)
    requires NoHostBetween(FieldsOfLines(lines), j, i)
    ensures MappedHost(host, resolvConf, Some(lines)) == Ok(Fields(lines[j])[1])
  {
    SshAliasOfHostName(FieldsOfLines(lines), i);
  }

  // ---------------------------------------------------------------------
  // Client side (fixup_args)

  /** The client's rewrite of one argument: a `file:` URI gets an absolute
      path; an existing local path becomes a `file:` URI of its absolute
      path; anything else is left alone. */
  function FixArg(arg: string, pathExists: string -> bool, abs: string -> string): string
  {
    if HasPrefix(arg, FilePrefix) then FilePrefix + abs(arg[|FilePrefix|..])
    else if pathExists(arg) then FilePrefix + abs(arg)
    else arg
  }

  /** fixup_args: the host name followed by every argument rewritten in
      place, so the result is one longer than the input. */
  function FixupArgs(args: seq<string>, pathExists: string -> bool, abs: string -> string,
                     hostname: string): (r: seq<string>)
    ensures |r| == |args| + 1
    ensures r[0] == hostname
    ensures forall i :: 0 <= i < |args| && HasPrefix(args[i], FilePrefix) ==>
              r[i + 1] == FilePrefix + abs(args[i][|FilePrefix|..])
    ensures forall i :: 0 <= i < |args| && !HasPrefix(args[i], FilePrefix) && pathExists(args[i]) ==>
              r[i + 1] == FilePrefix + abs(args[i])
    ensures forall i :: 0 <= i < |args| && !HasPrefix(args[i], FilePrefix) && !pathExists(args[i]) ==>
              r[i + 1] == args[i]
  {
    [hostname] + seq(|args|, i requires 0 <= i < |args| => FixArg(args[i], pathExists, abs))
  }

  /** An argument the client changed is a `file:` URI. */
  lemma FixArgTagsFiles(arg: string, pathExists: string -> bool, abs: string -> string)
    ensures FixArg(arg, pathExists, abs) != arg ==> HasPrefix(FixArg(arg, pathExists, abs), FilePrefix)
  {
  }

  /** With an absolute-path function that leaves absolute paths alone, the
      client rewrite is idempotent: a rewritten argument is rewritten to
      itself. */
  lemma FixArgIdempotent(arg: string, pathExists: string -> bool, abs: string -> string)
    requires forall p :: abs(abs(p)) == abs(p)
    ensures FixArg(FixArg(arg, pathExists, abs), pathExists, abs) == FixArg(arg, pathExists, abs)
  {
    var once := FixArg(arg, pathExists, abs);
    if once != arg {
      assert once[|FilePrefix|..] == abs(if HasPrefix(arg, FilePrefix) then arg[|FilePrefix|..] else arg);
    }
  }
}
