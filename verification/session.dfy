/** One command's journey from the client to the process the server starts,
    and the worked examples of that journey and of the host configuration
    parsers. */
module Session {
  import opened Runtime
  import opened GoStrings
  import opened HostConfig
  import opened Rewrite
  import opened Wire
  import opened Server

  /** What a client argument becomes in the server's argument list: a path
      the client tagged arrives as an `sftp://` URI of its absolute path on
      the mapped host, anything else arrives unchanged. */
  function Delivered(arg: string, pathExists: string -> bool, abs: string -> string,
                     mapped: string): string
  {
    if HasPrefix(arg, FilePrefix) then SftpScheme + mapped + abs(arg[|FilePrefix|..])
    else if pathExists(arg) then SftpScheme + mapped + abs(arg)
    else arg
  }

  /** The client's rewrite followed by the server's, across the channel:
      the server starts the client's (rewritten) program with each further
      argument delivered as above, unless the server's host configuration
      panics. Paths and names never hold NUL, and taking the absolute path
      of a NUL-free path adds none. */
  lemma {:induction false} ClientServerAgree(args: seq<string>, pathExists: string -> bool,
                                             abs: string -> string, hostname: string,
                                             resolvConf: Option<seq<string>>,
                                             sshConfig: Option<seq<string>>)
    requires |args| >= 1 && NulFree(args) && Nul !in hostname
    requires forall p :: Nul !in p ==> Nul !in abs(p)
    ensures var r := Run(EncodePayload(FixupArgs(args, pathExists, abs, hostname)), resolvConf, sshConfig);
            && (r.Ok? <==> MappedHost(hostname, resolvConf, sshConfig).Ok?)
            && (r.Err? ==> r.panic == MappedHost(hostname, resolvConf, sshConfig).panic)
            && (r.Ok? ==>
                  && r.value.program == FixArg(args[0], pathExists, abs)
                  && |r.value.argv| == |args| - 1
                  && forall i :: 1 <= i < |args| ==>
                       r.value.argv[i - 1]
                       == Delivered(args[i], pathExists, abs, MappedHost(hostname, resolvConf, sshConfig).value))
  {
    var tokens := FixupArgs(args, pathExists, abs, hostname);
    assert NulFree(tokens) by {
      forall k | 0 <= k < |tokens|
        ensures Nul !in tokens[k]
      {
        if k > 0 {
          var a := args[k - 1];
          assert Nul !in a;
          assert Nul !in FilePrefix;
          if HasPrefix(a, FilePrefix) {
            assert Nul !in a[|FilePrefix|..];
          }
        }
      }
    }
    PayloadRoundTrip(tokens);
    var payload := EncodePayload(tokens);
    assert Nul in payload by {
      assert payload == tokens[0] + [Nul] + Join(tokens[1..], [Nul]);
    }
    var c := Command(hostname, tokens[1], tokens[2..]);
    assert DecodeCommand(SplitPayload(payload)) == Ok(c);
    var m := MapFileArgs(c.host, c.program, c.args, resolvConf, sshConfig);
    if m.Ok? {
      forall i | 1 <= i < |args|
        ensures m.value[i - 1] == Delivered(args[i], pathExists, abs,
                                             MappedHost(hostname, resolvConf, sshConfig).value)
      {
        assert c.args[i - 1] == tokens[i + 1];
        var t := tokens[i + 1];
        if HasPrefix(args[i], FilePrefix) || pathExists(args[i]) {
          assert HasPrefix(t, FilePrefix);
          assert t[|FilePrefix|..] == abs(if HasPrefix(args[i], FilePrefix) then args[i][|FilePrefix|..] else args[i]);
        }
      }
    }
  }

  // ---------------------------------------------------------------------
  // Worked examples

  /** The resolver loop over the single line `search domain`, for a host
      whose character in front of `domain` is ASCII. */
  lemma SearchCutFields(name: string, c: char, domain: string)
    requires c < '\U{80}'
    ensures ShortenFields(name + [c] + domain, [["search", domain]]) == Ok(name)
  {
    var host := name + [c] + domain;
    var fs := [["search", domain]];
    assert fs[..0] == [];
    assert host[|host| - |domain|..] == domain;
    assert host[..|name|] == name;
  }

  /** A line whose fields are `search` and `domain` cuts `domain` and the
      one ASCII character before it from the host, whichever character that
      is: `foo.example.com` becomes `foo`, and so does `foo-example.com`. */
  lemma SearchDomainCut(name: string, c: char, domain: string, line: string)
    requires c < '\U{80}'
    requires Fields(line) == ["search", domain]
    ensures ShortenHost(name + [c] + domain, Some([line])) == Ok(name)
  {
    assert FieldsOfLines([line]) == [Fields(line)];
    SearchCutFields(name, c, domain);
  }

  /** The resolver loop over one line naming the whole host. */
  lemma WholeHostFields(host: string, keyword: string)
    requires keyword == "host" || keyword == "search"
    ensures ShortenFields(host, [[keyword, host]]) == Err(SliceBoundsOutOfRange)
  {
    var fs := [[keyword, host]];
    assert fs[..0] == [];
    assert host[|host| - |host|..] == host;
  }

  /** A `host` or `search` line naming the whole host name makes the slice
      bound negative. */
  lemma WholeHostPanics(host: string, keyword: string, line: string)
    requires keyword == "host" || keyword == "search"
    requires Fields(line) == [keyword, host]
    ensures ShortenHost(host, Some([line])) == Err(SliceBoundsOutOfRange)
  {
    assert FieldsOfLines([line]) == [Fields(line)];
    WholeHostFields(host, keyword);
  }

  /** The resolver loop over the single line `SEARCH domain`. */
  lemma UpperSearchFields(host: string, domain: string)
    ensures ShortenFields(host, [["SEARCH", domain]]) == Ok(host)
  {
    var fs := [["SEARCH", domain]];
    assert fs[..0] == [];
    assert "SEARCH"[0] != "search"[0] && "SEARCH"[0] != "host"[0];
  }

  /** The resolver keyword is compared case-sensitively: a `SEARCH` line
      leaves the host alone. */
  lemma ResolverKeywordIsCaseSensitive(host: string, domain: string, line: string)
    requires Fields(line) == ["SEARCH", domain]
    ensures ShortenHost(host, Some([line])) == Ok(host)
  {
    assert FieldsOfLines([line]) == [Fields(line)];
    UpperSearchFields(host, domain);
  }

  /** `HostName` lowers to the `HostName` keyword. */
  lemma LowerHostName()
    ensures ToLower("HostName") == "hostname"
  {
    assert "HostName" == "Host" + "Name";
    LowerAppend("Host", "Name");
    assert ToLower("Host") == "host";
    assert ToLower("Name") == "name";
  }

  /** `HOSTNAME` lowers to the `HostName` keyword. */
  lemma LowerUpperHostName()
    ensures ToLower("HOSTNAME") == "hostname"
  {
    assert "HOSTNAME" == "HOST" + "NAME";
    LowerAppend("HOST", "NAME");
    assert ToLower("HOST") == "host";
    assert ToLower("NAME") == "name";
  }

  /** The read loop over a `Host alias` line followed by a `HostName name`
      line. */
  lemma {:induction false} ScanAliasPair(hostKeyword: string, alias: string,
                                         nameKeyword: string, name: string)
    requires ToLower(hostKeyword) == "host" && ToLower(nameKeyword) == "hostname"
    ensures ScanSsh([[hostKeyword, alias], [nameKeyword, name]])
            == Ok(SshScan(alias, map[name := alias]))
  {
    var fs := [[hostKeyword, alias], [nameKeyword, name]];
    assert fs[..1] == [[hostKeyword, alias]];
    assert fs[..1][..0] == [];
    assert ScanSsh(fs[..1]) == Ok(SshScan(alias, map[]));
  }

  /** A two-line SSH config whose keyword fields lower to `host` and
      `hostname` maps the second line's name to the first line's alias. */
  lemma AliasPairParsed(first: string, second: string, hostKeyword: string, alias: string,
                        nameKeyword: string, name: string)
    requires ToLower(hostKeyword) == "host" && ToLower(nameKeyword) == "hostname"
    requires Fields(first) == [hostKeyword, alias] && Fields(second) == [nameKeyword, name]
    ensures ParseSshConfig(Some([first, second])) == Ok(map[name := alias])
  {
    assert FieldsOfLines([first, second]) == [Fields(first), Fields(second)];
    ScanAliasPair(hostKeyword, alias, nameKeyword, name);
  }

  /** `host alias` then `HOSTNAME name` maps `name` to `alias`: the SSH
      keywords are compared case-insensitively. */
  lemma SshAliasExample(first: string, second: string, alias: string, name: string)
    requires Fields(first) == ["host", alias] && Fields(second) == ["HOSTNAME", name]
    ensures ParseSshConfig(Some([first, second])) == Ok(map[name := alias])
  {
    assert ToLower("host") == "host";
    LowerUpperHostName();
    AliasPairParsed(first, second, "host", alias, "HOSTNAME", name);
  }

  /** A `Host` line without an alias indexes past the end of its fields. */
  lemma SshBareHostPanics(line: string)
    requires Fields(line) == ["Host"]
    ensures ParseSshConfig(Some([line])) == Err(IndexOutOfRange)
  {
    assert FieldsOfLines([line]) == [Fields(line)];
    assert ToLower("Host") == "host";
    var fs := [["Host"]];
    assert fs[..0] == [];
    assert ScanSsh(fs) == Err(IndexOutOfRange);
  }

  /** An SSH config of `Host alias` followed by `HostName hostname` maps
      `hostname` to `alias` when no resolver file is readable. */
  lemma MappedThroughAlias(hostname: string, alias: string, ssh: seq<string>)
    requires |ssh| == 2
    requires Fields(ssh[0]) == ["Host", alias] && Fields(ssh[1]) == ["HostName", hostname]
    ensures MappedHost(hostname, None, Some(ssh)) == Ok(alias)
  {
    assert ToLower("Host") == "host";
    LowerHostName();
    assert ssh == [ssh[0], ssh[1]];
    AliasPairParsed(ssh[0], ssh[1], "Host", alias, "HostName", hostname);
  }

  /** The read loop over a lone `HostName name` line: no `Host` line came
      before it, so the name is mapped to the empty alias. */
  lemma OrphanHostNameFields(name: string)
    ensures ScanSsh([["HostName", name]]) == Ok(SshScan("", map[name := ""]))
  {
    var fs := [["HostName", name]];
    assert fs[..0] == [];
    LowerHostName();
  }

  /** An SSH config whose only line is `HostName hostname` maps `hostname`
      to the empty string when no resolver file is readable. */
  lemma OrphanHostNameMapsToEmpty(hostname: string, line: string)
    requires Fields(line) == ["HostName", hostname]
    ensures MappedHost(hostname, None, Some([line])) == Ok("")
  {
    assert FieldsOfLines([line]) == [Fields(line)];
    OrphanHostNameFields(hostname);
  }

  /** The client's rewrite and the server's decoding of the two-argument
      command `program`, `file:` + `path`, for a host that maps to
      `alias`. */
  lemma OpenFileMapped(program: string, path: string, hostname: string, alias: string,
                       resolvConf: Option<seq<string>>, sshConfig: Option<seq<string>>,
                       pathExists: string -> bool, abs: string -> string)
    requires Nul !in program && Nul !in path && Nul !in hostname
    requires !HasPrefix(program, FilePrefix) && !pathExists(program)
    requires MappedHost(hostname, resolvConf, sshConfig) == Ok(alias)
    requires forall p :: Nul !in p ==> Nul !in abs(p)
    ensures Run(EncodePayload(FixupArgs([program, FilePrefix + path], pathExists, abs, hostname)),
                resolvConf, sshConfig)
            == Ok(Exec(program, [SftpScheme + alias + abs(path)]))
  {
    var args := [program, FilePrefix + path];
    assert Nul !in FilePrefix;
    assert NulFree(args);
    assert (FilePrefix + path)[..|FilePrefix|] == FilePrefix;
    assert (FilePrefix + path)[|FilePrefix|..] == path;
    ClientServerAgree(args, pathExists, abs, hostname, resolvConf, sshConfig);
    var r := Run(EncodePayload(FixupArgs(args, pathExists, abs, hostname)), resolvConf, sshConfig);
    assert r.Ok? && |r.value.argv| == 1;
    assert r.value.argv[0] == Delivered(args[1], pathExists, abs, alias);
    assert Delivered(args[1], pathExists, abs, alias) == SftpScheme + alias + abs(path);
    assert r.value.argv == [SftpScheme + alias + abs(path)];
  }

  /** A client on host `hostname` asks to open `file:` + `path` with
      `program`; the server's SSH config holds `Host alias` followed by
      `HostName hostname` and no resolver file is readable. The server
      starts `program` on `sftp://` + `alias` + the absolute path. With
      `gedit`, `///home/u/notes.txt`, `work` and `devbox` this is
      `gedit sftp://devbox/home/u/notes.txt`. */
  lemma OpenFileOverSsh(program: string, path: string, hostname: string, alias: string,
                        ssh: seq<string>, pathExists: string -> bool, abs: string -> string)
    requires Nul !in program && Nul !in path && Nul !in hostname
    requires !HasPrefix(program, FilePrefix) && !pathExists(program)
    requires |ssh| == 2
    requires Fields(ssh[0]) == ["Host", alias] && Fields(ssh[1]) == ["HostName", hostname]
    requires forall p :: Nul !in p ==> Nul !in abs(p)
    ensures Run(EncodePayload(FixupArgs([program, FilePrefix + path], pathExists, abs, hostname)),
                None, Some(ssh))
            == Ok(Exec(program, [SftpScheme + alias + abs(path)]))
  {
    MappedThroughAlias(hostname, alias, ssh);
    OpenFileMapped(program, path, hostname, alias, None, Some(ssh), pathExists, abs);
  }

  /** With a `HostName hostname` line before any `Host` line, a client's
      `file:` argument reaches the server's program as `sftp://` followed
      directly by the absolute path, with no host at all: `///home/u/x`
      becomes `sftp:///home/u/x`. */
  lemma OpenFileOrphanHostName(program: string, path: string, hostname: string, line: string,
                               pathExists: string -> bool, abs: string -> string)
    requires Nul !in program && Nul !in path && Nul !in hostname
    requires !HasPrefix(program, FilePrefix) && !pathExists(program)
    requires Fields(line) == ["HostName", hostname]
    requires forall p :: Nul !in p ==> Nul !in abs(p)
    ensures Run(EncodePayload(FixupArgs([program, FilePrefix + path], pathExists, abs, hostname)),
                None, Some([line]))
            == Ok(Exec(program, [SftpScheme + abs(path)]))
  {
    OrphanHostNameMapsToEmpty(hostname, line);
    OpenFileUnaliased(program, path, hostname, None, Some([line]), pathExists, abs);
  }

  /** A host that maps to the empty alias leaves `sftp://` directly in front
      of the absolute path. */
  lemma OpenFileUnaliased(program: string, path: string, hostname: string,
                          resolvConf: Option<seq<string>>, sshConfig: Option<seq<string>>,
                          pathExists: string -> bool, abs: string -> string)
    requires Nul !in program && Nul !in path && Nul !in hostname
    requires !HasPrefix(program, FilePrefix) && !pathExists(program)
    requires MappedHost(hostname, resolvConf, sshConfig) == Ok("")
    requires forall p :: Nul !in p ==> Nul !in abs(p)
    ensures Run(EncodePayload(FixupArgs([program, FilePrefix + path], pathExists, abs, hostname)),
                resolvConf, sshConfig)
            == Ok(Exec(program, [SftpScheme + abs(path)]))
  {
    OpenFileMapped(program, path, hostname, "", resolvConf, sshConfig, pathExists, abs);
    assert SftpScheme + "" + abs(path) == SftpScheme + abs(path);
  }
}
