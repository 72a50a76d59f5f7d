# starter: listen address, version and health-probe logic in Dafny

The starter is a Go HTTP server with one `/health` route and a
`--healthcheck` mode that probes a running instance. Its only decision logic
sits in `internal/server/server.go`:

- `AddrFromEnv` builds the listen address from `HOSTNAME` and `PORT`. An empty
  port becomes `8000`. An empty host gives the bare `:port` form.
- `VersionFromEnv` returns `APP_VERSION`, or `dev` when it is empty.
- `Probe` turns a listen address into the URL it requests. A leading `:` gets
  `127.0.0.1` in front. `http://` is added unless the address already starts
  with `http://` or `https://`. Every trailing `/` is removed and `/health` is
  appended.
- Once a response exists, `Probe` succeeds on status 200 and returns the
  sentinel `ErrProbeFailed` otherwise. A failed request gives a wrapped error.

The model has two modules:

- `Strings` (`strings.dfy`) holds `TrimRight` as a recursive function. Its
  contract characterises the result completely. The file also has the
  last-occurrence search used to split an address back into host and port.
- `Server` (`server.dfy`) holds the functions above. Environment values are
  parameters. The outcome of the HTTP exchange is a parameter too: a status
  code or a transport error.

Each function comes with lemmas that relate it to an independent
description. The address splits back into host and port
(`AddrSplitRoundTrip`). The version is characterised exactly
(`VersionResolution`). `TrimRight` is pinned down by a uniqueness lemma
(`TrimRightUnique`). The probe URL has lemmas for its shape, its scheme, its
loopback host and the inputs it leaves verbatim.

One might expect the probe URL always to start with `http://` or
`https://`. It does not. Take an address that names nothing after its
scheme: empty, only slashes, or `http://` or `https://` followed only by
slashes. Trimming then also removes the two slashes of the scheme. The empty
address and `http://` are both probed at `http:/health`.
`ProbeTargetSchemeIff` states exactly when the scheme survives, in both
directions. `HostlessTargets` gives the concrete cases. The model follows the
code here. The server's own address has this form only when its port is made
of slashes alone: HOSTNAME `http` with PORT `//` gives `http://`. Once the
port holds any other character the address is not hostless
(`OwnAddressNotHostless`).

## Model

| member | source | states |
|---|---|---|
| `Strings.TrimRight` | internal/server/server.go:80 | the result is a prefix of the input, everything cut off is in the cutset, and the result does not end in a cutset character |
| `Strings.TrimRightUnique` | internal/server/server.go:80 | those three facts determine the result: any prefix with them equals TrimRight |
| `Strings.TrimRightIdempotent` | internal/server/server.go:80 | trimming an already trimmed string changes nothing |
| `Strings.TrimRightNoTrailing` | internal/server/server.go:80 | a string whose last character is outside the cutset is returned unchanged |
| `Strings.TrimRightKeepsPrefix` | internal/server/server.go:80 | a prefix ending in a non-cutset character is never cut into |
| `Server.EffectivePort` | internal/server/server.go:34-36 | an empty PORT becomes "8000"; a non-empty PORT is used verbatim |
| `Server.AddrFromEnv` | internal/server/server.go:30-43 | the address is the host followed by ":" and the effective port; an empty host gives exactly ":" + port |
| `Server.AddrSplitRoundTrip` | internal/server/server.go:38-42 | splitting the address at its last colon gives back the host and the effective port, for any host, when the port has no colon |
| `Server.AddrTestVectors` | internal/server/server_test.go:47-62 | "0.0.0.0" and "9000" give "0.0.0.0:9000"; an empty host gives ":9000"; both empty give ":8000" |
| `Server.VersionFromEnv` | internal/server/server.go:46-53 | the version is never empty: APP_VERSION unchanged when non-empty, "dev" when empty |
| `Server.VersionResolution` | internal/server/server.go:46-53 | the result is "dev" exactly when APP_VERSION is empty or "dev"; resolving a resolved version is the identity |
| `Server.VersionTestVectors` | internal/server/server_test.go:64-78 | "1.2.3" is reported unchanged; an unset APP_VERSION gives "dev" |
| `Server.WithLoopback` | internal/server/server.go:72-74 | an address starting with ":" gets "127.0.0.1" in front; any other address is unchanged |
| `Server.WithScheme` | internal/server/server.go:76-78 | the result always has a scheme (HasScheme: starts with "http://" or "https://", the prefix test of line 76); an input with a scheme is unchanged, and any other input gets "http://" |
| `Server.Schemed` | internal/server/server.go:71-78 | a ":port" address becomes "http://127.0.0.1:port"; a schemed address is unchanged; any other gets "http://" |
| `Server.ProbeTarget` | internal/server/server.go:71-80 | the URL ends in "/health" and the character before "/health" is never "/" |
| `Server.ProbeTargetShape` | internal/server/server.go:80 | the part before "/health" is a non-empty prefix of the schemed address, does not end in "/", and only slashes follow it there |
| `Server.ProbeTargetLoopback` | internal/server/server.go:72-80 | an address starting with ":" yields a URL starting with "http://127.0.0.1:" |
| `Server.ProbeTargetKeepsScheme` | internal/server/server.go:76-80 | an address that has "http://" or "https://" followed by something other than slashes keeps that scheme as the URL's prefix |
| `Server.ProbeTargetSchemeIff` | internal/server/server.go:71-80 | the URL starts with "http://" or "https://" if and only if the address is not hostless |
| `Server.ProbeTargetHostless` | internal/server/server.go:76-80 | a hostless address is probed at "http:/health" or "https:/health" |
| `Server.HostlessTargets` | internal/server/server.go:76-80 | "" and "http://" give "http:/health"; "https:///" gives "https:/health" |
| `Server.ProbeTargetVerbatim` | internal/server/server.go:71-80 | an address not ending in "/" appears whole in the URL, with only loopback host, scheme and "/health" added as the rules say |
| `Server.ProbeOwnAddress` | cmd/app/main.go:19-30 | with HOSTNAME empty, the server's own address is probed at "http://127.0.0.1:" + the effective port with its trailing slashes removed + "/health", for every PORT |
| `Server.OwnAddressNotHostless` | internal/server/server.go:38-42 | an env-derived address whose effective port holds a character other than "/" is never hostless, so its probe URL keeps its scheme |
| `Server.ProbeTargetBarePortVector` | internal/server/server.go:72-80 | ":8000" is probed at "http://127.0.0.1:8000/health" |
| `Server.ProbeTargetHostPortVector` | internal/server/server_test.go:105-114 | "127.0.0.1:0" is probed at "http://127.0.0.1:0/health" |
| `Server.ProbeTargetTrailingSlashVector` | internal/server/server.go:80 | "https://example.com//" is probed at "https://example.com/health" |
| `Server.Verdict` | internal/server/server.go:103-107 | success if and only if the status is 200; every other status gives exactly ErrProbeFailed |
| `Server.ProbeOutcome` | internal/server/server.go:91-107 | success exactly on a 200 response; ErrProbeFailed exactly on another status; a transport error is wrapped as RequestFailed with its cause |

## Left out

- Reading `HOSTNAME`, `PORT` and `APP_VERSION` from the process environment (internal/server/server.go:31-32, 47). The values are parameters.
- `New`: the Fiber application, the `/health` route and its JSON body `{status, version}` (internal/server/server.go:56-67). These are calls into a third-party web framework whose behaviour is not visible here.
- The network part of `Probe` (internal/server/server.go:82-101): the `http.Client`, its 5-second timeout, context cancellation, and closing the response body with error logging. What `client.Do` reports is the `Exchange` parameter of `ProbeOutcome`.
- The failure of `http.NewRequestWithContext` (internal/server/server.go:86-89). It depends on Go's URL parser, which is not part of this model.
- `cmd/app/main.go`: flag parsing, the `--addr` override of the env-derived address, logger setup, `app.Listen` and logging. These are plumbing. Only the probe of the env-derived address is stated, in `ProbeOwnAddress`.
- Go strings are byte sequences; the model uses `seq<char>`. Every character the code tests (`:`, `/`, the schemes) is ASCII, so both give the same results.
