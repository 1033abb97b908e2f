/** The two host configuration files main.go reads: the resolver
    configuration, used to strip a search domain from a host name, and the
    user's SSH client configuration, used to map a host name to the alias
    under which its files are reached. A file is given as its lines, with
    the line terminators removed; `None` stands for a file that cannot be
    opened. */
module HostConfig {
  import opened Runtime
  import opened GoStrings

  // ---------------------------------------------------------------------
  // Resolver configuration (try_shorten_host)

  /** The fields the read loops see on a line: the line is trimmed, a
      blank line is skipped (no fields), and the rest is split at white
      space. */
  function LineFields(line: string): (f: seq<string>)
    ensures f == Fields(line)
  {
    var t := TrimSpace(line);
    FieldsOfTrimmed(line);
    if |t| == 0 then [] else Fields(t)
  }

  /** A resolver line, given by its fields, whose first field is exactly
      `host` or `search` (compared case-sensitively) and whose second field
      is a suffix of `host`. */
  predicate SuffixDirective(host: string, f: seq<string>)
  {
    |f| > 1 && (f[0] == "host" || f[0] == "search") && HasSuffix(host, f[1])
  }

  /** `host` without `suffix` and without the one rune in front of it,
      which is not checked to be a dot. Go cuts one byte there; the two
      agree when that rune is ASCII. */
  function Shortened(host: string, suffix: string): (r: string)
    requires HasSuffix(host, suffix) && |suffix| < |host|
    ensures |r| + 1 + |suffix| == |host|
    ensures r + [host[|r|]] + suffix == host
  {
    host[..|host| - |suffix| - 1]
  }

  /** One pass of the read loop over the fields of a resolver line;
      `shortened` is the result so far. A match is cut from the original
      `host`, not from `shortened`. */
  function ResolvStep(host: string, shortened: string, fields: seq<string>): (r: Result<string>)
    requires fields != []
  {
    if fields[0] == "host" || fields[0] == "search" then
      if |fields| > 1 && HasSuffix(host, fields[1]) then
        if |host| - |fields[1]| - 1 < 0 then Err(SliceBoundsOutOfRange)
        else Ok(host[..|host| - |fields[1]| - 1])
      else Ok(shortened)
    else Ok(shortened)
  }

  /** The read loop over resolver lines, each given by its fields. */
  function ShortenFields(host: string, lines: seq<seq<string>>): Result<string>
    decreases |lines|
  {
    if lines == [] then Ok(host)
    else
      match ShortenFields(host, lines[..|lines| - 1])
      case Err(p) => Err(p)
      case Ok(h) =>
        var last := lines[|lines| - 1];
        if last == [] then Ok(h) else ResolvStep(host, h, last)
  }

  /** With no matching line the host comes back unchanged. */
  lemma {:induction false} ShortenNoMatch(host: string, lines: seq<seq<string>>)
    requires forall i :: 0 <= i < |lines| ==> !SuffixDirective(host, lines[i])
    ensures ShortenFields(host, lines) == Ok(host)
    decreases |lines|
  {
    if lines != [] {
      var prefix := lines[..|lines| - 1];
      assert forall i :: 0 <= i < |prefix| ==> prefix[i] == lines[i];
      ShortenNoMatch(host, prefix);
    }
  }

  /** A matching resolver line whose suffix is the whole host name. */
  predicate WholeHostLine(host: string, f: seq<string>)
  {
    SuffixDirective(host, f) && |f[1]| == |host|
  }

  /** The loop panics exactly when a matching line names the whole host as
      its suffix, and then the panic is the negative slice bound. */
  lemma {:induction false} ShortenPanics(host: string, lines: seq<seq<string>>)
    ensures ShortenFields(host, lines).Err? <==>
              exists i :: 0 <= i < |lines| && WholeHostLine(host, lines[i])
    ensures ShortenFields(host, lines).Err? ==>
              ShortenFields(host, lines).panic == SliceBoundsOutOfRange
    decreases |lines|
  {
    if lines != [] {
      var n := |lines| - 1;
      var prefix, last := lines[..n], lines[n];
      ShortenPanics(host, prefix);
      if ShortenFields(host, prefix).Err? {
        var i :| 0 <= i < |prefix| && WholeHostLine(host, prefix[i]);
        assert lines[i] == prefix[i];
      } else if last != [] && WholeHostLine(host, last) {
        assert ShortenFields(host, lines).Err?;
      } else {
        forall i | 0 <= i < |lines|
          ensures !WholeHostLine(host, lines[i])
        {
          if i < n {
            assert lines[i] == prefix[i];
          }
        }
      }
    }
  }

  /** When the loop does not panic, the last matching line decides the
      result, cut from the original host. */
  lemma {:induction false} ShortenLastMatchWins(host: string, lines: seq<seq<string>>, i: nat)
    requires i < |lines| && SuffixDirective(host, lines[i])
    requires forall j :: i < j < |lines| ==> !SuffixDirective(host, lines[j])
    requires ShortenFields(host, lines).Ok?
    ensures |lines[i][1]| < |host|
    ensures ShortenFields(host, lines).value == Shortened(host, lines[i][1])
    decreases |lines|
  {
    ShortenPanics(host, lines);
    var prefix, last := lines[..|lines| - 1], lines[|lines| - 1];
    assert forall j :: 0 <= j < |prefix| ==> prefix[j] == lines[j];
    if i < |prefix| {
      ShortenLastMatchWins(host, prefix, i);
    }
  }

  /** The fields of every line of a file, as the read loops see them:
      by LineFields, trimming a line and skipping it when blank comes to
      splitting it as it is. */
  function FieldsOfLines(lines: seq<string>): (r: seq<seq<string>>)
    ensures |r| == |lines|
    ensures forall i :: 0 <= i < |lines| ==> r[i] == Fields(lines[i])
  {
    seq(|lines|, i requires 0 <= i < |lines| => Fields(lines[i]))
  }

  /** try_shorten_host: a resolver file that cannot be opened leaves the
      host as it is; otherwise the read loop runs over its lines. */
  function ShortenHost(host: string, resolvConf: Option<seq<string>>): (r: Result<string>)
    ensures resolvConf.None? ==> r == Ok(host)
    ensures resolvConf.Some? ==> r == ShortenFields(host, FieldsOfLines(resolvConf.value))
    ensures r.Err? ==> r.panic == SliceBoundsOutOfRange
  {
    match resolvConf
    case None => Ok(host)
    case Some(lines) =>
      ShortenPanics(host, FieldsOfLines(lines));
      ShortenFields(host, FieldsOfLines(lines))
  }

  // ---------------------------------------------------------------------
  // SSH client configuration (parse_ssh_config)

  /** The state of the read loop: the alias of the latest `Host` line and
      the HostName-to-alias table built so far. */
  datatype SshScan = SshScan(currentHost: string, table: map<string, string>)

  /** A line, given by its fields, whose first field lowered is `keyword`. */
  predicate KeywordLine(f: seq<string>, keyword: string)
  {
    |f| > 0 && ToLower(f[0]) == keyword
  }

  /** A `Host alias ...` line, the keyword in any case. */
  predicate HostLine(f: seq<string>)
  {
    KeywordLine(f, "host") && |f| > 1
  }

  /** A `HostName name ...` line, the keyword in any case. */
  predicate HostNameLine(f: seq<string>)
  {
    KeywordLine(f, "hostname") && |f| > 1
  }

  /** A `Host` or `HostName` line without an argument. */
  predicate ArgumentMissing(f: seq<string>)
  {
    (KeywordLine(f, "host") || KeywordLine(f, "hostname")) && |f| == 1
  }

  /** One pass of the read loop over the fields of a non-blank SSH config
      line. */
  function SshStep(s: SshScan, fields: seq<string>): Result<SshScan>
    requires fields != []
  {
    if ToLower(fields[0]) == "host" then
      if |fields| < 2 then Err(IndexOutOfRange)
      else Ok(s.(currentHost := fields[1]))
    else if ToLower(fields[0]) == "hostname" then
      if |fields| < 2 then Err(IndexOutOfRange)
      else Ok(s.(table := s.table[fields[1] := s.currentHost]))
    else Ok(s)
  }

  /** The read loop over SSH config lines, each given by its fields. */
  function ScanSsh(lines: seq<seq<string>>): Result<SshScan>
    decreases |lines|
  {
    if lines == [] then Ok(SshScan("", map[]))
    else
      match ScanSsh(lines[..|lines| - 1])
      case Err(p) => Err(p)
      case Ok(s) =>
        var last := lines[|lines| - 1];
        if last == [] then Ok(s) else SshStep(s, last)
  }

  /** parse_ssh_config: a config file that cannot be opened gives an empty
      table; otherwise the read loop runs over its lines. */
  function ParseSshConfig(sshConfig: Option<seq<string>>): (r: Result<map<string, string>>)
    ensures sshConfig.None? ==> r == Ok(map[])
    ensures sshConfig.Some? ==> r.Ok? == ScanSsh(FieldsOfLines(sshConfig.value)).Ok?
    ensures sshConfig.Some? && r.Ok? ==> r.value == ScanSsh(FieldsOfLines(sshConfig.value)).value.table
    ensures r.Err? ==> r.panic == IndexOutOfRange
  {
    match sshConfig
    case None => Ok(map[])
    case Some(lines) =>
      SshPanics(FieldsOfLines(lines));
      match ScanSsh(FieldsOfLines(lines))
      case Err(p) => Err(p)
      case Ok(s) => Ok(s.table)
  }

  /** Line `i` is the last `HostName` line naming its host. */
  predicate LastNaming(lines: seq<seq<string>>, i: nat)
    requires i < |lines| && HostNameLine(lines[i])
  {
    forall j :: i < j < |lines| && HostNameLine(lines[j]) ==> lines[j][1] != lines[i][1]
  }

  /** No `Host` line lies strictly between positions `lo` and `hi`. */
  predicate NoHostBetween(lines: seq<seq<string>>, lo: int, hi: int)
    requires -1 <= lo && hi <= |lines|
  {
    forall m :: lo < m < hi ==> !HostLine(lines[m])
  }

  /** The loop panics exactly when some `Host` or `HostName` line has no
      argument, and the panic is an index past the end of the fields. */
  lemma {:induction false} SshPanics(lines: seq<seq<string>>)
    ensures ScanSsh(lines).Err? <==> exists i :: 0 <= i < |lines| && ArgumentMissing(lines[i])
    ensures ScanSsh(lines).Err? ==> ScanSsh(lines).panic == IndexOutOfRange
    decreases |lines|
  {
    if lines != [] {
      var prefix, last := lines[..|lines| - 1], lines[|lines| - 1];
      assert forall i :: 0 <= i < |prefix| ==> prefix[i] == lines[i];
      SshPanics(prefix);
      if ScanSsh(prefix).Ok? {
        assert ScanSsh(lines).Err? <==> ArgumentMissing(last);
      }
      if exists i :: 0 <= i < |lines| && ArgumentMissing(lines[i]) {
        var i :| 0 <= i < |lines| && ArgumentMissing(lines[i]);
        if i < |prefix| {
          assert ArgumentMissing(prefix[i]);
        }
      }
    }
  }

  /** After the loop, the current alias is that of the last `Host` line,
      or "" when there is none. */
  lemma {:induction false} SshCurrentHost(lines: seq<seq<string>>)
    requires ScanSsh(lines).Ok?
    ensures NoHostBetween(lines, -1, |lines|) ==> ScanSsh(lines).value.currentHost == ""
    ensures forall j :: 0 <= j < |lines| && HostLine(lines[j]) && NoHostBetween(lines, j, |lines|) ==>
              ScanSsh(lines).value.currentHost == lines[j][1]
    decreases |lines|
  {
    if lines != [] {
      var prefix, last := lines[..|lines| - 1], lines[|lines| - 1];
      assert forall i :: 0 <= i < |prefix| ==> prefix[i] == lines[i];
      SshCurrentHost(prefix);
    }
  }

  /** The table holds exactly the hosts that `HostName` lines name. */
  lemma {:induction false} SshTableKeys(lines: seq<seq<string>>)
    requires ScanSsh(lines).Ok?
    ensures forall k :: k in ScanSsh(lines).value.table <==>
              exists i :: 0 <= i < |lines| && HostNameLine(lines[i]) && lines[i][1] == k
    decreases |lines|
  {
    if lines != [] {
      var prefix, last := lines[..|lines| - 1], lines[|lines| - 1];
      assert forall i :: 0 <= i < |prefix| ==> prefix[i] == lines[i];
      SshTableKeys(prefix);
      forall k | exists i :: 0 <= i < |lines| && HostNameLine(lines[i]) && lines[i][1] == k
        ensures k in ScanSsh(lines).value.table
      {
        var i :| 0 <= i < |lines| && HostNameLine(lines[i]) && lines[i][1] == k;
        if i < |prefix| {
          assert HostNameLine(prefix[i]);
        }
      }
    }
  }

  /** A host named by `HostName` maps to the alias of the latest `Host`
      line above its last `HostName` line, or to "" when no `Host` line is
      above it; a later `HostName` line for the same host overwrites an
      earlier one. */
  lemma {:induction false} SshAliasOfHostName(lines: seq<seq<string>>, i: nat)
    requires i < |lines| && HostNameLine(lines[i]) && LastNaming(lines, i)
    requires ScanSsh(lines).Ok?
    ensures lines[i][1] in ScanSsh(lines).value.table
    ensures NoHostBetween(lines, -1, i) ==> ScanSsh(lines).value.table[lines[i][1]] == ""
    ensures forall j :: 0 <= j < i && HostLine(lines[j]) && NoHostBetween(lines, j, i) ==>
              ScanSsh(lines).value.table[lines[i][1]] == lines[j][1]
    decreases |lines|
  {
    var prefix, last := lines[..|lines| - 1], lines[|lines| - 1];
    assert forall j :: 0 <= j < |prefix| ==> prefix[j] == lines[j];
    if i < |prefix| {
      SshAliasOfHostName(prefix, i);
    } else {
      SshCurrentHost(prefix);
      assert lines[..i] == prefix;
    }
  }
}
