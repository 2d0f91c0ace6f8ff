# list-ebpf-maps, modelled in Dafny

`list-ebpf-maps` walks the kernel's table of eBPF maps and prints one line
per map: its id, its type (by name when libbpf knows it, else `type <N>`),
its name and its flags in hexadecimal. The walk is a `while (true)` loop
over a cursor id. Each pass makes three calls:

1. `bpf_map_get_next_id` returns the smallest id above the cursor;
2. `bpf_map_get_fd_by_id` opens that map;
3. `bpf_obj_get_info_by_fd` fetches its info record.

After each call, the `errno` of a failure decides what the program does:
exit with failure, end the loop, or skip the id.

The project has four modules:

- `BpfKernel` (`kernel.dfy`) is the kernel side of the three calls. It has
  a table `map<MapId, Entry>`, where an entry is a live map or an id whose
  map was deleted after it was enumerated. It also has fault oracles keyed
  by the call's argument, which stand for injected errors and for other
  processes racing the lister.
- `Render` (`render.dfy`) is the four `printf` calls of one report line:
  `%d`, `%s` or `type %u`, `name: %s`, `flags 0x%x`. It also reads the id,
  the numeric type and the flags back out of a rendered line.
- `ListMaps` (`list_maps.dfy`) is the loop. `Run` is its behaviour as a
  trace: the kernel calls in order, the maps reported in order, and the
  exit status. The method `ListMaps` is the loop itself, a `while true`
  whose invariant ties the state it has built so far to `Run`. It is
  proved to produce `Run(k, 0)` and to print one line per reported map.
  The lemmas state the error policy and the order of the walk. They also
  relate what is printed to what was fetched and to the live maps in the
  table.
- `Scenarios` (`scenarios.dfy`) works out concrete runs against small
  tables.

`FormatLine` is a function of the map id, its record and the type-name
table alone. The same record therefore always renders to the same line.

The model follows the code as written, including these behaviours:

- Only EPERM from next-id or from the fd lookup is fatal (EXIT_FAILURE).
  EPERM from the info fetch ends the loop like any other error there.
- Every other failure that ends the loop still reaches `exit(EXIT_SUCCESS)`.
  This includes a next-id error other than ENOENT, an fd-lookup error other
  than EPERM or ENOENT, and any info-fetch error.
- The descriptor is closed only when the info fetch fails. The descriptor
  of every printed map stays open until the process exits
  (`PrintedMapsStayOpen`).
- The id is printed with `%d` although it is a `__u32`. An id of 2^31 or
  more prints as a negative number (`PrintfD`, `LineIdRoundTrip`).

## Model

| member | source | states |
|---|---|---|
| BpfKernel.NextId | code/list-ebpf-maps/main.c:17 | the smallest table id above the cursor; ENOENT exactly when there is none; the injected errno when one is set |
| BpfKernel.GetFdById | code/list-ebpf-maps/main.c:31 | a descriptor for exactly the live maps; ENOENT for a deleted or unknown id; the injected errno when one is set |
| BpfKernel.GetInfoByFd | code/list-ebpf-maps/main.c:46 | the info record of the descriptor's live map, or the injected errno |
| BpfKernel.SortedIds | code/list-ebpf-maps/main.c:15-17 | a reference order for the walk: exactly the ids of the set, strictly increasing |
| ListMaps.Run | code/list-ebpf-maps/main.c:15-66 | the trace of the loop from a cursor; every pass starts with next-id from that cursor |
| ListMaps.ListMaps | code/list-ebpf-maps/main.c:8-67 | the `while (true)` loop: its calls, reports and exit status are exactly `Run(k, 0)`, and it prints `FormatLine` of each report in order |
| ListMaps.CursorStrictlyIncreases | code/list-ebpf-maps/main.c:15-31 | every next-id after the first starts from the id the previous call was about; every fd lookup directly follows a next-id call and asks for an id above its cursor; the cursors given to next-id and the ids looked up strictly increase; every call after the first is about an id above the start cursor; the printed ids are above the start cursor and strictly increase |
| ListMaps.CallsFollowTheirAnswers | code/list-ebpf-maps/main.c:17-51 | each call after the first is the one the kernel's answer to the previous call leads to: the fd lookup asks for the id next-id returned; the info fetch uses the descriptor the lookup returned; a close follows only a failed fetch of the same descriptor; next-id is called again only from the id of a vanished map or of a map whose info was fetched |
| ListMaps.StopPolicy | code/list-ebpf-maps/main.c:17-66 | the run ends at its first failed call that stops the loop, meaning any failure except ENOENT from the fd lookup; only a failed info fetch is followed by a call, the close of its own descriptor; the exit is EXIT_FAILURE iff that call was a next-id or fd lookup failing with EPERM |
| ListMaps.PermissionDeniedIsFatal | code/list-ebpf-maps/main.c:19-36 | an EPERM from next-id or the fd lookup is the last call made and the exit is EXIT_FAILURE; a run that exits with EXIT_FAILURE ended on such a call |
| ListMaps.OtherFailuresStillSucceed | code/list-ebpf-maps/main.c:23-66 | any other failure that stops the loop is the stopping call, and the exit is EXIT_SUCCESS |
| ListMaps.VanishedIsSkipped | code/list-ebpf-maps/main.c:37-38 | after an fd lookup that fails with ENOENT, the next call is next-id from that same id, and no line is printed for it |
| ListMaps.ReportsAreFetches | code/list-ebpf-maps/main.c:46-63 | the printed maps are exactly the successful info fetches, in the order fetched, each under its descriptor's map id |
| ListMaps.PrintedMapsStayOpen | code/list-ebpf-maps/main.c:31-51 | at exit, the descriptors opened and not closed are exactly those of the printed maps |
| ListMaps.EmptyTableEndsCleanly | code/list-ebpf-maps/main.c:11-24 | with an empty table the run is a single next-id call, prints nothing and exits with EXIT_SUCCESS |
| ListMaps.NoFaultsListsLiveMaps | code/list-ebpf-maps/main.c:15-64 | with no injected failure, the run exits with EXIT_SUCCESS having reported every live map above the cursor, once each, in increasing id order, with the info the table holds for it |
| ListMaps.StaticTableOneLinePerMap | code/list-ebpf-maps/main.c:53-63 | a fault-free table of live maps prints one line per map, in increasing id order, each rendered from that map's record |
| Render.PrintfD | code/list-ebpf-maps/main.c:56 | the `%d` text of a `__u32` id is never empty, holds no colon, and starts with `-` exactly when the id's signed 32-bit reading is negative (2^31 and above) |
| Render.TypeText | code/list-ebpf-maps/main.c:54-60 | a type with no name shows as `type ` followed by digits that read back as the raw type number |
| Render.FormatLine | code/list-ebpf-maps/main.c:53-63 | the line starts with the `%d` text of the id and ends with the hex flags; besides the id, type, name and flags texts it holds exactly 20 fixed characters |
| Render.DigitsRoundTrip | code/list-ebpf-maps/main.c:60-63 | the digits of `%u` and `%x` read back as the number printed |
| Render.PrintfDReadsBack | code/list-ebpf-maps/main.c:56 | the `%d` text of a `__u32` reads back as its signed 32-bit value; below 2^31 it is the plain decimal |
| Render.LineIdRoundTrip | code/list-ebpf-maps/main.c:56 | the number before the first colon of a line is the signed 32-bit reading of the map id, which is the id itself below 2^31 |
| Render.LineFlagsRoundTrip | code/list-ebpf-maps/main.c:63 | the hex digits after the last `x` of a line read back as the map's flags, whatever the map's name contains |
| Render.UnknownTypeFallback | code/list-ebpf-maps/main.c:57-60 | a type with no name prints as `type <N>`, and N reads back as the raw type number |
| Render.KnownTypeName | code/list-ebpf-maps/main.c:54-58 | a type with a name prints that name right after `<id>: ` |
| Render.NameInLine | code/list-ebpf-maps/main.c:62 | the map's name is printed as it is, right after the type text and the label `  name: ` |
| Render.DistinctIdsDistinctLines | code/list-ebpf-maps/main.c:56-63 | lines for different map ids differ |
| Scenarios.ThreeMapsReports | code/list-ebpf-maps/main.c:15-64 | maps 3, 7 and 9: the exact call sequence, the three reports in id order, and EXIT_SUCCESS |
| Scenarios.ThreeMapsListing | code/list-ebpf-maps/main.c:53-63 | the three printed lines, character for character: `3: HASH  name: counters  flags 0x0`, `7: ARRAY  name:   flags 0x1` and `9: type 99  name: x  flags 0x4` |
| Scenarios.GoneThenFailingRun | code/list-ebpf-maps/main.c:37-51 | a deleted map is skipped; a failed info fetch closes its descriptor and ends the run with EXIT_SUCCESS |
| Scenarios.DeniedSecondRun | code/list-ebpf-maps/main.c:31-36 | EPERM on the second map's fd lookup ends the run with EXIT_FAILURE after one printed line |

## Left out

- The system calls behind libbpf are not modelled. The kernel is a table
  of maps with fault oracles. Other processes creating or deleting maps
  during the walk appear in the model only through these: a `Gone` entry
  for a map deleted between next-id and the fd lookup, and injected errnos
  for everything else. A map created during the walk counts as present
  from the start.
- `errno` values are grouped into the three classes the program tells
  apart: EPERM, ENOENT and any other.
- The `perror` messages to stderr are not modelled.
- The trailing newline of each printed line is not modelled. `Lines` holds
  the line texts without it.
- The `struct bpf_map_info` buffer, `info_len` and the other fields of the
  record are not modelled. Only type, name and flags are printed.
- The name is a string. Its kernel-side limit of 15 bytes plus NUL, and
  any truncation, are not modelled.
- `libbpf_bpf_map_type_str` is a parameter: a map from type numbers to
  names. Its own table is not part of this model.
- A descriptor is a value naming its map. Descriptor numbers, and the
  process's descriptor limit, are not modelled. Running out of descriptors
  shows up only as an injected fd-lookup error.
- `argc` and `argv` are unused by the program and are not modelled.
- BpfKernel.GetInfoByFd: the ENOENT it returns for a descriptor of a map
  that is not live is never reached from `Run`. A descriptor the lister
  holds keeps its map alive.
