# runlocal, modelled in Dafny

runlocal lets a command typed in a remote shell open a program on the
user's local X11 desktop. On the local desktop a server (`runlocal -serve`)
creates a one-pixel window and publishes the `RUNLOCAL_EXECUTE` property on
it, with an empty value of format 8 (main.go:162-164). A client
(`runlocal program args...`) runs on the remote host and does the
following:

- it probes every top-level window for that property;
- it turns each argument that names a local path into a `file:` URI of the
  absolute path;
- it prepends its own host name;
- it writes the tokens, joined with NUL, into the property of every window
  that has one.

The server splits the payload at every NUL. It reads token 0 as the
originating host, token 1 as the program and the rest as arguments. Each
`file:` argument becomes an `sftp://<mapped host>` URI before the program
is started. The mapped host is the originating host with a resolver
`search`/`host` domain cut off. It is then replaced by the alias of the
`Host` block whose `HostName` is that name in the user's SSH config.

The model covers the pure logic of `main.go`: the two configuration
parsers, both argument rewrites, the wire encoding, the server's decoding
and the client's choice of the windows to write to. Go panics are values:
`Result<T>` is `Ok(value)` or `Err(panic)`. A panic is either
`IndexOutOfRange` or `SliceBoundsOutOfRange`, which are Go's two run-time
errors on these lines. A configuration file is its lines with the line
terminators removed, or `None` when it cannot be opened.

Modules, one per component:

- `Runtime`: `Panic`, `Option`, `Result`.
- `GoStrings`: the part of Go's `strings` package that `main.go` calls, on
  sequences of runes. This covers `TrimSpace`, `Fields`, `Split`, `Join`,
  `ToLower`, `HasPrefix`, `HasSuffix`, `Index` and `Replace(…, 1)`.
- `HostConfig`: `try_shorten_host` and `parse_ssh_config`.
- `Rewrite`: `map_file_args` and `fixup_args`.
- `Wire`: the NUL join/split encoding and the token decoding at the top of
  `run`.
- `Server`: `run` applied to the payload read from the window.
- `Client`: the reply loop of `connect`.
- `Session`: the client rewrite and the server rewrite composed across the
  channel, and worked examples.

Four behaviours of `main.go` that the model keeps:

- `main.go` compares the resolver keyword (`host`/`search`)
  case-sensitively (main.go:54). It lowers only the SSH keywords
  (main.go:96, 98).
- `main.go` keys the SSH table by the `HostName` value and stores the
  current `Host` alias under it (main.go:99).
- `main.go` reads `args[1]` without checking the token count
  (main.go:124), so a payload with fewer than two tokens panics on the
  server's event loop, and the panic ends the server. `Server.Run`
  returns `Err(IndexOutOfRange)` for it.
- `fixup_args` rewrites every token, the program name included
  (main.go:240-248).

## Model

| member | source | states |
|---|---|---|
| GoStrings.TrimSpace | main.go:48 | the result is a slice of the line preceded only and followed only by white space, and neither end of a non-empty result is white space |
| GoStrings.Fields | main.go:53 | every field is non-empty and free of white space, and there are no fields exactly when the line is all white space |
| GoStrings.FieldsOfTrimmed | main.go:48-53 | trimming a line and skipping it when blank yields the same fields as splitting the untrimmed line |
| GoStrings.FieldsOfJoin | main.go:53 | splitting words joined by single spaces gives the words back |
| GoStrings.Split | main.go:194 | at least one piece, no piece contains the separator, and joining the pieces with the separator rebuilds the input |
| GoStrings.SplitOfJoin | main.go:194 | splitting the join of a non-empty list of separator-free pieces gives the pieces back |
| GoStrings.Index | main.go:117 | the result is the first position where the pattern occurs, or -1 exactly when it occurs nowhere |
| GoStrings.LowerAppend | main.go:96 | lowering a concatenation lowers each part, so each spelling of a keyword lowers piece by piece |
| GoStrings.ReplaceFirst | main.go:117 | a string that starts with the pattern has that prefix replaced, and a string without the pattern is unchanged |
| HostConfig.LineFields | main.go:48-53 | the per-line trim, blank-line skip and split yields the fields of the raw line |
| HostConfig.Shortened | main.go:56 | the host is the result, one character (not checked to be a dot), then the suffix |
| HostConfig.ShortenNoMatch | main.go:54-57 | with no `host`/`search` line whose second field is a suffix of the host, the host is returned unchanged |
| HostConfig.ShortenPanics | main.go:56 | the loop panics exactly when some matching line's suffix is the whole host, and the panic is a slice-bounds error |
| HostConfig.ShortenLastMatchWins | main.go:54-57 | without a panic, the last matching line decides the result, cut from the original host |
| HostConfig.ShortenHost | main.go:26-30 | an unreadable resolver file leaves the host unchanged; otherwise the result is the loop over the lines' fields, and any panic is a slice-bounds error |
| HostConfig.SshPanics | main.go:96-99 | the SSH loop panics exactly when some `Host` or `HostName` line (keyword in any case) has no argument, with an index error |
| HostConfig.SshCurrentHost | main.go:96-97 | the current alias is empty before any `Host` line and is the argument of the latest `Host` line afterwards |
| HostConfig.SshTableKeys | main.go:98-99 | the table's keys are exactly the arguments of the `HostName` lines |
| HostConfig.SshAliasOfHostName | main.go:98-99 | a name is mapped to the alias of the latest `Host` line above its last `HostName` line, or to the empty string when no `Host` line precedes it |
| HostConfig.ParseSshConfig | main.go:63-71 | an unreadable SSH config gives the empty table; otherwise the table is the loop's, and any panic is an index error |
| Rewrite.MappedHost | main.go:107-113 | the mapped host is defined exactly when neither parser panics; a resolver panic comes first and then an SSH-config panic |
| Rewrite.MappedHostUnlisted | main.go:109-113 | a shortened host that no `HostName` line names is used as it is |
| Rewrite.MappedHostListed | main.go:109 | a shortened host named by a `HostName` line is replaced by the alias of the `Host` line governing its last naming |
| Rewrite.MapFileArgs | main.go:106-121 | the length is kept, arguments without the `file:` prefix are unchanged, and each `file:` argument becomes `sftp://`, the mapped host and the rest of the argument; it panics exactly when the host mapping does |
| Rewrite.FixupArgs | main.go:237-256 | the host name comes first, then each argument: a `file:` argument re-prefixed around the absolute path of its rest, an existing path prefixed around its absolute path, anything else unchanged |
| Rewrite.FixArgTagsFiles | main.go:236-248 | every argument the client changes comes out as a `file:` URI |
| Rewrite.FixArgIdempotent | main.go:240-248 | a property of the model rather than a promise of main.go: when taking the absolute path is idempotent, rewriting an already rewritten argument changes nothing |
| Wire.DecodeCommand | main.go:123-125 | decoding fails with an index error exactly when there are fewer than two tokens, and otherwise the command's tokens are the input tokens |
| Wire.PayloadRoundTrip | main.go:224 | the server's split of the client's NUL join gives back a non-empty list of NUL-free tokens |
| Wire.CommandRoundTrip | main.go:224 | a command whose parts hold no NUL decodes on the server to itself |
| Wire.NoSeparatorRejected | main.go:124 | a payload without NUL is one token, which the server cannot decode |
| Wire.PresenceMarkerRejected | main.go:162-164 | the server publishes its marker with a data length of 0, so the value is empty; read back it is one empty token and decoding it is an index error |
| Server.Run | main.go:123-130 | the program is started exactly when the payload has at least two tokens and the host mapping does not panic; too few tokens (in particular no NUL) is an index error, otherwise the mapping's panic; a started program is token 1 with the tokens after it as arguments, `file:` ones rewritten to `sftp://`, the mapped host and the rest, the others unchanged |
| Client.Connect | main.go:216-233 | one write of the encoded tokens per probe reply with a non-zero format, in probe order, duplicates included, and none for the others; "server not running" is reported exactly when no reply had a format |
| Session.ClientServerAgree | main.go:301 | the server starts the client's rewritten program with each further client argument delivered as a `sftp://` URI on the mapped host, or unchanged when it was no path, unless the host mapping panics |
| Session.SearchDomainCut | main.go:54-57 | `search domain` cuts the domain and the one ASCII character before it, whichever character that is |
| Session.WholeHostPanics | main.go:56 | a `host` or `search` line naming the whole host panics on the negative slice bound |
| Session.ResolverKeywordIsCaseSensitive | main.go:54 | a `SEARCH` line leaves the host alone |
| Session.SshAliasExample | main.go:95-100 | `host alias` followed by `HOSTNAME name` maps the name to the alias |
| Session.SshBareHostPanics | main.go:97 | a `Host` line without an argument panics with an index error |
| Session.MappedThroughAlias | main.go:108-113 | with no resolver file, `Host alias` then `HostName hostname` maps the host name to the alias |
| Session.OpenFileOverSsh | main.go:114-117 | a client's `file:` argument reaches the server's program as `sftp://`, the alias and the absolute path |
| Session.OrphanHostNameMapsToEmpty | main.go:75-99 | a `HostName` line before any `Host` line maps its name to the empty alias |
| Session.OpenFileOrphanHostName | main.go:109-117 | with a `HostName` line before any `Host` line, a client's `file:` argument reaches the server's program as `sftp://` followed directly by the absolute path |

## Left out

- X11: the connection, atoms, window creation, `QueryTree`, property
  reads and writes, and the event loop. The probe replies are `Probe`
  values. The window writes are `Write` values.
- Process spawning and the draining of the child's output (main.go:128-147).
  The model stops at the program and argument list to start.
- File reading: a configuration file is given as its lines. `os.Open`
  failure is `None`. The `log.Panic` on a read error or on a line over
  1 MiB (main.go:41-46, 83-88) is not modelled.
- `os.Stat`, `filepath.Abs` and `os.Hostname` are parameters of
  `FixupArgs` (`pathExists`, `abs`, `hostname`). `pathExists(p)` stands
  for `os.Stat(p)` returning a nil error, which is the existence test of
  main.go:244. The errors of `filepath.Abs` and `os.Hostname` are ignored
  by the source. Each then yields "", which the unconstrained `abs` and
  `hostname` parameters already cover.
- The 1024-unit limit on the property read (main.go:175): the server
  reads at most 4096 bytes of the payload, so a longer payload arrives
  cut short. `Server.Run` takes the whole payload.
- Flag parsing, `usage`, `main`'s `SSH_CONNECTION` branch and all logging.
- HostConfig.Shortened: main.go:56 cuts one byte in front of the suffix,
  the model one rune. The two agree when that character is ASCII. When it
  is not, Go keeps the leading bytes of its UTF-8 encoding and the model
  does not.
- Strings are sequences of runes, not bytes. `ToLower` lowers only ASCII
  letters. For the comparisons with `host` and `hostname` this agrees with
  Go: no non-ASCII rune lowercases into one of those letters.
- The `HOME` lookup for the SSH config path: the SSH config is passed in
  directly.
