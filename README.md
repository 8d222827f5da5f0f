# zzk core, modelled in Dafny

zzk is a small command-line client for ZooKeeper. This project models the
parts of it that carry logic, and proves what they promise:

- **Role discovery** (`RoleCmd`, src/cmd/role.rs). Each configured server gets the
  four-letter command `stat`. Its free-text answer is classified as
  `Follower`, `Leader`, `Standalone` or `Unknown`. The test is a
  case-sensitive substring search in a fixed priority order. The first
  server that cannot be reached ends the whole call with its error.
- **Listing** (`ListCmd`, src/cmd/list.rs). There are three modes: direct
  children; a recursive listing; and a recursive listing of the root. The
  root's children come back as bare names, so each is re-rooted as
  `"/" + name` and listed recursively, and the results are concatenated in
  order. The optional value hydration pairs each listed key with its value,
  keeping the order.
- **Reading one node** (`GetCmd`, src/cmd/get.rs, and `CmdLib`, src/cmd/lib.rs). The
  `GetResult` record, its thirteen-column projection with matching headers,
  the copy of the node metadata, and the output-format enum.
- **Program entry** (`Program`, src/main.rs). Splitting `--zoo-hosts` into
  trimmed addresses, converting `--timeout` to a duration, and choosing
  the output and exit code at the end of `main`.

Helper modules: `Results` (the `Result`/`Option` types), `Strings` (the
`str` operations used: `trim`, `split` on `,`, `find`), `Numeric` (the
fixed-width integer types and `to_string` of integers, with the parser
that inverts it) and `Namespace` (the ZooKeeper session as an oracle).

The ZooKeeper crate, the TCP exchange and UTF-8 decoding are foreign code.
They enter the model as function-typed inputs. Nothing is assumed about
what they return, but each is a fixed total function of its arguments.
Within one call, the same question therefore gets the same answer, and
every call returns (see "## Left out"):
- `Service.children` stands for `get_children(path, false)`.
- `Service.childrenRecursive` stands for `get_children_recursive(path)`.
  Nothing is assumed about whether it includes the start path.
- `Service.getData` stands for `get_data(path, watch)`.
- `connect` stands for `ZooKeeper::connect(hosts, timeout, watcher)`.
- `probe(i, address, "stat")` stands for connect, write and read-to-close on the
  i-th configured server. The position is an argument, so
  `--zoo-hosts h,h` makes two independent connections whose answers may differ.
- `utf8` stands for `str::from_utf8`.

Where the source calls `unwrap`, a failure would panic. In the model that
failure is a precondition instead.

Two behaviours of the code are worth stating explicitly:
- Outside quiet mode, a failed command prints `Error, <message>` and
  `main` returns normally, so the exit code is 0 (src/main.rs:136-141;
  `Program.Finish`, `Program.NonQuietFailureExitsZero`). Only quiet mode
  exits 1 on failure.
- A recursive listing of the root is only the in-order concatenation of
  what `get_children_recursive("/" + C)` returns for each child `C`
  (src/cmd/list.rs:64-70). Whether that includes `"/" + C` itself is up to
  the crate, and the model leaves it open.

## Model

| member | source | states |
|---|---|---|
| `RoleCmd.ParseSrvr` | src/cmd/role.rs:44-61 | Follower iff the response contains `Mode: follower`; Leader iff it lacks that and contains `Mode: leader`; Standalone iff it lacks both and contains `Mode: standalone`; Unknown iff none of the three occurs |
| `RoleCmd.FollowerWinsOverLeader` | src/cmd/role.rs:44-53 | a response containing a leader line and then a follower line is still classified Follower: the follower test comes first |
| `RoleCmd.Role.AsStr` | src/cmd/role.rs:34-41 | each role's display name reads back, through `RoleNamed`, as that role |
| `RoleCmd.AsStrInjective` | src/cmd/role.rs:33-41 | distinct roles have distinct display names |
| `RoleCmd.Role.Fmt` | src/cmd/role.rs:27-31 | formatting a role keeps what the formatter already holds and appends exactly the role's display name |
| `RoleCmd.FmtInjective` | src/cmd/role.rs:27-41 | what `Display` writes determines the role |
| `RoleCmd.ProbeHosts` | src/cmd/role.rs:67-79 | Ok iff every host's probe succeeds; then one row per host, in order, each with that host's address and the classification of its own response; on failure the error of the first failing host, with every earlier host probed successfully, and no rows |
| `RoleCmd.GetRole` | src/cmd/role.rs:64-82 | the same, over the hosts of `GetZooHosts`, each sent the command `stat` |
| `ListCmd.Reroot` | src/cmd/list.rs:68 | the re-rooted path starts with `/`, is one character longer than the bare name, and the rest is the name |
| `ListCmd.RerootRoundTrip` | src/cmd/list.rs:68 | stripping the leading `/` gives the bare name back |
| `ListCmd.RerootInjective` | src/cmd/list.rs:68 | distinct names give distinct paths |
| `ListCmd.IsRoot` | src/cmd/list.rs:62 | the root branch is taken exactly when the path is `/` with only whitespace before and after it |
| `ListCmd.PaddedRootIsRoot` | src/cmd/list.rs:62 | `/` padded with whitespace on either side (e.g. `" / "`) takes the root branch, because the test trims |
| `ListCmd.RootListingOk` | src/cmd/list.rs:64-70 | the root enumeration succeeds iff every re-rooted child can be listed, and is then the in-order concatenation of their recursive listings |
| `ListCmd.RootListingErr` | src/cmd/list.rs:67-68 | a failed root enumeration fails with the error of the first child whose recursive listing fails, all earlier ones having succeeded |
| `ListCmd.ListedModes` | src/cmd/list.rs:57-74 | non-recursive is exactly `children(root)`; recursive on a path not trimming to `/` is exactly `childrenRecursive(root)`; on the root, `children` is asked with the untrimmed path, its error is the result, and otherwise the result is Ok iff every re-rooted child lists, and is then the concatenation in order |
| `ListCmd.ListRootChildren` | src/cmd/list.rs:66-70 | the loop with `append` and early error return computes exactly the root enumeration characterised by `RootListingOk` and `RootListingErr` |
| `ListCmd.DoList` | src/cmd/list.rs:57-74 | the three-way split with its early error return computes exactly the listing characterised by `ListedModes` |
| `ListCmd.Hydrate` | src/cmd/list.rs:40-53 | as many entries as keys; entry i has key i and the decoded value of key i |
| `ListCmd.DoListWithValue` | src/cmd/list.rs:33-55 | a listing error is returned unchanged; otherwise the same number of entries as listed keys, entry i pairing listed key i with its value; unreadable keys (a panic in the source) are excluded by the precondition |
| `ListCmd.List` | src/cmd/list.rs:22-31 | a connection error is the result; otherwise the key listing, or the hydrated listing when values are requested |
| `Program.GetZooHosts` | src/main.rs:65-70 | one entry per comma-separated segment (commas + 1, empty segments kept); entry i is the trim of segment i; every entry is trimmed and contains no comma |
| `Program.SingleHost` | src/main.rs:65-70 | an option without commas or surrounding whitespace yields exactly itself as the only host |
| `Program.DefaultHosts` | src/main.rs:35 | the default `127.0.0.1:2181` yields exactly the one host `127.0.0.1:2181` |
| `Program.ZooHostsSegments` | src/main.rs:65-69 | the hosts are the trims of comma-free pieces that, joined back with commas, give the option |
| `Program.GetTimeout` | src/main.rs:72-74 | a normalised duration (whole milliseconds, under a second of nanoseconds) of exactly `timeout` milliseconds |
| `Program.GetTimeoutInjective` | src/main.rs:72-74 | different timeouts give different durations |
| `Program.Finish` | src/main.rs:131-141 | quiet: nothing printed, exit 0 iff Ok and 1 iff Err; otherwise the output or `Error, <message>` is printed as a line and the exit code is 0 |
| `Program.NonQuietFailureExitsZero` | src/main.rs:136-141 | outside quiet mode a failed command prints a line starting `Error, ` and still exits 0 |
| `Strings.Trim` | src/main.rs:68 | the trim is the slice left after removing a whitespace prefix and suffix, and neither starts nor ends with whitespace |
| `Strings.TrimIdempotent` | src/main.rs:68 | trimming a trimmed string changes nothing |
| `Strings.Split` | src/main.rs:67 | one more piece than separators, no piece contains the separator |
| `Strings.JoinSplit` | src/main.rs:67 | the pieces joined with the separator give back the input |
| `Strings.SplitJoin` | src/main.rs:67 | separator-free pieces joined and split again are the same pieces |
| `Strings.Find` | src/cmd/role.rs:45 | a match is found iff the pattern occurs, and the index found is its first occurrence |
| `Numeric.IntToString` | src/cmd/get.rs:24-34 | non-empty; starts with a minus sign exactly when the number is negative, followed by decimal digits only, with no leading zero (never `-0` or `07`): the canonical decimal text |
| `Numeric.IntToStringRoundTrip` | src/cmd/get.rs:24-34 | the decimal rendering of a stat field parses back to the field |
| `Numeric.IntToStringInjective` | src/cmd/get.rs:24-34 | distinct numbers render differently |
| `GetCmd.Headers` | src/cmd/get.rs:41-60 | thirteen column names, the same count as `LENGTH` |
| `GetCmd.Fields` | src/cmd/get.rs:20-39 | thirteen cells, equal to `LENGTH`; cell 0 is the key and cell 1 the value |
| `GetCmd.HeadersDistinct` | src/cmd/get.rs:43-56 | the column names are pairwise distinct |
| `GetCmd.StatFieldNamed` | src/cmd/get.rs:24-34 | the j-th stat column's name stands for the j-th stat field in `fields` order |
| `GetCmd.FieldsMatchHeaders` | src/cmd/get.rs:20-60 | for k from 2 to 12, cell k is the decimal rendering of the stat field named by header k |
| `GetCmd.CellsParse` | src/cmd/get.rs:24-34 | every stat cell parses back to the field it renders |
| `GetCmd.FieldsRoundTrip` | src/cmd/get.rs:20-39 | the row parses back to the record it came from |
| `GetCmd.FieldsInjective` | src/cmd/get.rs:20-39 | distinct records give distinct rows |
| `GetCmd.Get` | src/cmd/get.rs:64-74 | a connection or fetch error is the result; otherwise one record whose key is the requested key, whose value is the decoded data and whose metadata copies the fetched `Stat` |
| `CmdLib.FromStat` | src/cmd/lib.rs:57-72 | each of the eleven fields is copied unchanged, into fields of the source's widths (32-bit versions, lengths and counts; 64-bit zxids, times and owner) |
| `CmdLib.FromStatInjective` | src/cmd/lib.rs:57-72 | distinct `Stat`s give distinct copies |
| `CmdLib.FromStatSurjective` | src/cmd/lib.rs:43-72 | every copy comes from the record rebuilt from it |
| `CmdLib.FormatFromValueName` | src/cmd/lib.rs:75-80 | a command-line value is accepted only as the value name of the format it returns |
| `CmdLib.ValueNameRoundTrip` | src/cmd/lib.rs:75-80 | every format's value name is accepted as that format |
| `CmdLib.FormatOrder` | src/cmd/lib.rs:75-80 | exactly three formats; the derived order is Table < JSON < YAML and is a strict total order |

## Left out

- TCP I/O in `get_role` (src/cmd/role.rs:68-72). Connect, write and read-to-close are one oracle call per host. The model does not tell apart which of the three steps failed, or a short write.
- A read that never returns. `read_to_string` on the `TcpStream` has no timeout, so a server that never closes the connection hangs `get_role`. The probe oracle always returns, so the model does not capture this hang.
- The ZooKeeper oracles (`Service.children`, `Service.childrenRecursive`, `Service.getData`) are fixed functions of their arguments. The same path gets the same answer within one call, and a namespace that changes between requests is not modelled.
- The ZooKeeper crate (`connect`, `get_children`, `get_children_recursive`, `get_data`). These are uninterpreted inputs. Sessions, timeouts and the implicit disconnect are not modelled.
- The watch flag is passed to `get_data` unchanged. `EmptyWatcher` (src/cmd/lib.rs:37-40) does nothing and is not modelled.
- Table, JSON and YAML rendering (src/cmd/lib.rs:7-35) and the `output!` macro (src/cmd/app.rs:13-22). These are wrappers over libraries. The commands return the records that would be rendered.
- The derived `Tabled`, `Serialize` and `Deserialize` impls of `RoleRow`, `Role`, `ListResult` and `ListResultWithValue`. These are library derives.
- clap parsing, the `ZOO_HOSTS` environment default, `env_logger`, and actually printing and exiting (src/main.rs:12-62, 112-116). `Cli` holds already-parsed options.
- `set`, `exists` and `delete`, and the dispatch `match` that calls them (src/main.rs:117-129). Their implementations are not part of this model.
- `str::from_utf8` is an oracle. The panics on a failed fetch or invalid UTF-8 (src/cmd/list.rs:43-47, src/cmd/get.rs:70) are preconditions.
- `.context(format!("key: {}", key))` is left out. Its error is unwrapped at once, so it never reaches the caller.
- Errors are plain messages. anyhow's error chains and the distinct error kinds are not modelled.
- `Strings.Find`: returns a character index where Rust returns a byte offset. Only whether a match exists is used.
