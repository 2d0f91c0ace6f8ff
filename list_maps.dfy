/**
 The enumeration loop of list-ebpf-maps: advance the cursor with
 bpf_map_get_next_id, open the map with bpf_map_get_fd_by_id, fetch its
 info record with bpf_obj_get_info_by_fd, print one line; each error at
 each stage ends the program, ends the loop, or skips the id.

 `Run` is the loop's behaviour as a trace (the kernel calls made, the maps
 reported, the exit status); the method `ListMaps` is the loop itself,
 proved to produce that trace and to print one line per reported map.
 */
module ListMaps {
  import opened BpfKernel
  import opened Render

  /** The process exit status: exit(EXIT_SUCCESS) or exit(EXIT_FAILURE). */
  datatype Exit = ExitSuccess | ExitFailure

  /** A call the lister makes into the kernel, with its argument. */
  datatype Call =
    | NextIdCall(start: U32)      // bpf_map_get_next_id(start, &id)
    | GetFdCall(id: MapId)        // bpf_map_get_fd_by_id(id)
    | GetInfoCall(fd: Fd)         // bpf_obj_get_info_by_fd(fd, &info, &info_len)
    | CloseCall(fd: Fd)           // close(fd)

  /** A map the lister printed a line for: its id and the info record it fetched. */
  datatype Report = Report(id: MapId, info: MapInfo)

  /** Everything one run does: the calls in order, the maps reported in order, the exit status. */
  datatype Trace = Trace(calls: seq<Call>, printed: seq<Report>, exit: Exit)

  /** The errno a call fails with in kernel `k`; None when it succeeds. */
  function CallErrno(k: Kernel, call: Call): (e: Option<Errno>) {
    match call
    case NextIdCall(c) => if NextId(k, c).Err? then Some(NextId(k, c).errno) else None
    case GetFdCall(id) => if GetFdById(k, id).Err? then Some(GetFdById(k, id).errno) else None
    case GetInfoCall(fd) => if GetInfoByFd(k, fd).Err? then Some(GetInfoByFd(k, fd).errno) else None
    case CloseCall(_) => None
  }

  /** A call whose EPERM the lister treats as fatal: next-id or fd lookup denied. */
  predicate Fatal(k: Kernel, call: Call) {
    (call.NextIdCall? || call.GetFdCall?) && CallErrno(k, call) == Some(EPERM)
  }

  /** A failed call after which the loop does not go on: every failure except ENOENT from the fd lookup. */
  predicate Stops(k: Kernel, call: Call) {
    CallErrno(k, call).Some? && !(call.GetFdCall? && CallErrno(k, call) == Some(ENOENT))
  }

  /** The id a call is about (the cursor for next-id). */
  function Arg(call: Call): (a: U32) {
    match call
    case NextIdCall(c) => c
    case GetFdCall(id) => id
    case GetInfoCall(fd) => fd.mapId
    case CloseCall(fd) => fd.mapId
  }

  function Then(calls: seq<Call>, printed: seq<Report>, t: Trace): (whole: Trace) {
    Trace(calls + t.calls, printed + t.printed, t.exit)
  }

  lemma ThenThen(a: seq<Call>, p: seq<Report>, b: seq<Call>, q: seq<Report>, t: Trace)
    ensures Then(a, p, Then(b, q, t)) == Then(a + b, p + q, t)
  {
    assert a + (b + t.calls) == (a + b) + t.calls;
    assert p + (q + t.printed) == (p + q) + t.printed;
  }

  /**
   The loop started with cursor `c`: one pass per id next-id hands out,
   each pass ending in a report, a skip, or the end of the run.
   */
  function Run(k: Kernel, c: U32): (t: Trace)
    ensures |t.calls| >= 1 && t.calls[0] == NextIdCall(c)
    decreases 0x1_0000_0000 - c
  {
    match NextId(k, c)
    case Err(e) => Trace([NextIdCall(c)], [], if e == EPERM then ExitFailure else ExitSuccess)
    case Ok(id) =>
      var visit := [NextIdCall(c), GetFdCall(id)];
      match GetFdById(k, id)
      case Err(EPERM) => Trace(visit, [], ExitFailure)
      case Err(ENOENT) => Then(visit, [], Run(k, id))
      case Err(OtherErrno) => Trace(visit, [], ExitSuccess)
      case Ok(fd) =>
        match GetInfoByFd(k, fd)
        case Err(_) => Trace(visit + [GetInfoCall(fd), CloseCall(fd)], [], ExitSuccess)
        case Ok(info) => Then(visit + [GetInfoCall(fd)], [Report(id, info)], Run(k, id))
  }

  /** A pass that stops at the next-id call. */
  lemma RunStopsAtNextId(k: Kernel, c: U32, e: Errno)
    requires NextId(k, c) == Err(e)
    ensures Run(k, c) == Trace([NextIdCall(c)], [], if e == EPERM then ExitFailure else ExitSuccess)
  {
  }

  /** A pass that stops at the fd lookup. */
  lemma RunStopsAtFd(k: Kernel, c: U32, id: MapId, e: Errno)
    requires NextId(k, c) == Ok(id) && GetFdById(k, id) == Err(e) && e != ENOENT
    ensures Run(k, c) == Trace([NextIdCall(c), GetFdCall(id)], [], if e == EPERM then ExitFailure else ExitSuccess)
  {
  }

  /** A pass that stops at the info fetch, closing the descriptor. */
  lemma RunStopsAtInfo(k: Kernel, c: U32, id: MapId, fd: Fd, e: Errno)
    requires NextId(k, c) == Ok(id) && GetFdById(k, id) == Ok(fd) && GetInfoByFd(k, fd) == Err(e)
    ensures Run(k, c) == Trace([NextIdCall(c), GetFdCall(id), GetInfoCall(fd), CloseCall(fd)], [], ExitSuccess)
  {
  }

  /** One pass that skips a vanished id: the loop goes on from that id. */
  lemma RunSkips(k: Kernel, c: U32, id: MapId)
    requires NextId(k, c) == Ok(id) && GetFdById(k, id) == Err(ENOENT)
    ensures Run(k, c) == Then([NextIdCall(c), GetFdCall(id)], [], Run(k, id))
  {
  }

  /** One pass that reports a map: the loop goes on from its id. */
  lemma RunReports(k: Kernel, c: U32, id: MapId, fd: Fd, info: MapInfo)
    requires NextId(k, c) == Ok(id) && GetFdById(k, id) == Ok(fd) && GetInfoByFd(k, fd) == Ok(info)
    ensures Run(k, c) == Then([NextIdCall(c), GetFdCall(id), GetInfoCall(fd)], [Report(id, info)], Run(k, id))
  {
  }

  /** The lines printed for the reported maps, in order. */
  function Lines(printed: seq<Report>, names: TypeNames): (lines: seq<string>) {
    seq(|printed|, i requires 0 <= i < |printed| => FormatLine(printed[i].id, printed[i].info, names))
  }

  lemma LinesAppend(printed: seq<Report>, r: Report, names: TypeNames)
    ensures Lines(printed + [r], names) == Lines(printed, names) + [FormatLine(r.id, r.info, names)]
  {
  }

  /**
   The program: the `while (true)` loop over the cursor `id`, then
   exit(EXIT_SUCCESS). The calls made and the maps reported are returned
   as ghost outputs so that the lemmas below can speak of them.
   */
  method ListMaps(k: Kernel, names: TypeNames)
    returns (exit: Exit, lines: seq<string>, ghost calls: seq<Call>, ghost printed: seq<Report>)
    ensures exit == Run(k, 0).exit
    ensures lines == Lines(Run(k, 0).printed, names)
    ensures Trace(calls, printed, exit) == Run(k, 0)
  {
    var id: U32 := 0;
    lines, calls, printed := [], [], [];
    while true
      invariant Run(k, 0) == Then(calls, printed, Run(k, id))
      invariant lines == Lines(printed, names)
      decreases 0x1_0000_0000 - id
    {
      ghost var cursor := id;
      var next := NextId(k, id);
      if next.Err? {
        RunStopsAtNextId(k, cursor, next.errno);
        calls := calls + [NextIdCall(cursor)];
        if next.errno == EPERM {
          exit := ExitFailure;
          return;
        }
        if next.errno == ENOENT {
          break;
        }
        break;
      }
      id := next.value;

      var fd := GetFdById(k, id);
      if fd.Err? {
        ghost var visit := [NextIdCall(cursor), GetFdCall(id)];
        if fd.errno == EPERM {
          RunStopsAtFd(k, cursor, id, fd.errno);
          calls := calls + visit;
          exit := ExitFailure;
          return;
        }
        if fd.errno == ENOENT {
          RunSkips(k, cursor, id);
          ThenThen(calls, printed, visit, [], Run(k, id));
          assert printed + [] == printed;
          calls := calls + visit;
          continue;
        }
        RunStopsAtFd(k, cursor, id, fd.errno);
        calls := calls + visit;
        break;
      }

      var info := GetInfoByFd(k, fd.value);
      if info.Err? {
        RunStopsAtInfo(k, cursor, id, fd.value, info.errno);
        calls := calls + [NextIdCall(cursor), GetFdCall(id), GetInfoCall(fd.value), CloseCall(fd.value)];
        break;
      }

      var report := Report(id, info.value);
      ghost var visit := [NextIdCall(cursor), GetFdCall(id), GetInfoCall(fd.value)];
      RunReports(k, cursor, id, fd.value, info.value);
      ThenThen(calls, printed, visit, [report], Run(k, id));
      LinesAppend(printed, report, names);
      lines := lines + [FormatLine(id, info.value, names)];
      calls, printed := calls + visit, printed + [report];
    }
    exit := ExitSuccess;
  }

  // ---- What the loop guarantees ----

  /** Every call after the first is about an id above the cursor `c`. */
  predicate CallsAbove(calls: seq<Call>, c: U32) {
    forall i :: 0 < i < |calls| ==> c < Arg(calls[i])
  }

  /** Each next-id after the first starts from the id the call before it was about. */
  predicate NextIdSeeded(calls: seq<Call>) {
    forall i :: 0 < i < |calls| && calls[i].NextIdCall? ==> calls[i].start == Arg(calls[i - 1])
  }

  /** Each fd lookup directly follows a next-id call, and looks up an id above that call's cursor. */
  predicate LookupsFollowNextId(calls: seq<Call>) {
    forall i :: 0 < i < |calls| && calls[i].GetFdCall? ==>
      calls[i - 1].NextIdCall? && calls[i - 1].start < calls[i].id
  }

  /** The cursors handed to next-id strictly increase. */
  predicate CursorsIncrease(calls: seq<Call>) {
    forall i, j :: 0 <= i < j < |calls| && calls[i].NextIdCall? && calls[j].NextIdCall?
      ==> calls[i].start < calls[j].start
  }

  /** The ids looked up strictly increase. */
  predicate LookupsIncrease(calls: seq<Call>) {
    forall i, j :: 0 <= i < j < |calls| && calls[i].GetFdCall? && calls[j].GetFdCall?
      ==> calls[i].id < calls[j].id
  }

  /**
   The calls of a run from cursor `c` walk upwards: the cursor is replaced
   by the id next-id returned, every id handled is above `c`, and both the
   cursors and the ids looked up strictly increase.
   */
  predicate CallsInOrder(calls: seq<Call>, c: U32) {
    CallsAbove(calls, c) && NextIdSeeded(calls) && LookupsFollowNextId(calls)
    && CursorsIncrease(calls) && LookupsIncrease(calls)
  }

  /** The maps of a run from cursor `c` are reported above `c`, in strictly increasing id order. */
  predicate PrintedInOrder(printed: seq<Report>, c: U32) {
    && (forall i :: 0 <= i < |printed| ==> c < printed[i].id)
    && (forall i, j :: 0 <= i < j < |printed| ==> printed[i].id < printed[j].id)
  }

  /** The cursor strictly increases, and the run's calls and reports follow it in order. */
  lemma {:induction false} CursorStrictlyIncreases(k: Kernel, c: U32)
    ensures CallsInOrder(Run(k, c).calls, c)
    ensures PrintedInOrder(Run(k, c).printed, c)
    decreases 0x1_0000_0000 - c
  {
    match NextId(k, c)
    case Err(e) =>
      RunStopsAtNextId(k, c, e);
    case Ok(id) =>
      match GetFdById(k, id)
      case Err(e) =>
        if e == ENOENT {
          RunSkips(k, c, id);
          CursorStrictlyIncreases(k, id);
          ShiftedCalls(c, id, [NextIdCall(c), GetFdCall(id)], Run(k, id).calls);
          ShiftedPrinted(c, id, [], Run(k, id).printed);
        } else {
          RunStopsAtFd(k, c, id, e);
        }
      case Ok(fd) =>
        match GetInfoByFd(k, fd)
        case Err(e) =>
          RunStopsAtInfo(k, c, id, fd, e);
        case Ok(info) =>
          RunReports(k, c, id, fd, info);
          CursorStrictlyIncreases(k, id);
          ShiftedCalls(c, id, [NextIdCall(c), GetFdCall(id), GetInfoCall(fd)], Run(k, id).calls);
          ShiftedPrinted(c, id, [Report(id, info)], Run(k, id).printed);
  }

  /**
   A pass that goes on from `id`: next-id from `c` returned `id`, the fd
   lookup of `id`, and perhaps the info fetch of its descriptor; then the
   calls `rest` of the run from `id`.
   */
  predicate PassThen(c: U32, id: MapId, visit: seq<Call>, rest: seq<Call>) {
    && c < id && 2 <= |visit| <= 3 && visit[0] == NextIdCall(c) && visit[1] == GetFdCall(id)
    && (|visit| == 3 ==> visit[2].GetInfoCall? && visit[2].fd.mapId == id)
    && |rest| >= 1 && rest[0] == NextIdCall(id)
  }

  lemma ShiftedAbove(c: U32, id: MapId, visit: seq<Call>, rest: seq<Call>)
    requires PassThen(c, id, visit, rest) && CallsAbove(rest, id)
    ensures CallsAbove(visit + rest, c)
  {
    var t := visit + rest;
    var n := |visit|;
    forall i | 0 < i < |t| ensures c < Arg(t[i]) {
      if i >= n {
        assert t[i] == rest[i - n];
        if i - n > 0 { assert id < Arg(rest[i - n]); }
      } else {
        assert t[i] == visit[i];
      }
    }
  }

  lemma ShiftedSeeded(c: U32, id: MapId, visit: seq<Call>, rest: seq<Call>)
    requires PassThen(c, id, visit, rest) && NextIdSeeded(rest)
    ensures NextIdSeeded(visit + rest)
  {
    var t := visit + rest;
    var n := |visit|;
    forall i | 0 < i < |t| && t[i].NextIdCall? ensures t[i].start == Arg(t[i - 1]) {
      if i > n {
        assert t[i] == rest[i - n] && t[i - 1] == rest[i - n - 1];
      } else if i == n {
        assert t[i] == rest[0] && t[i - 1] == visit[n - 1];
      }
    }
  }

  lemma ShiftedLookups(c: U32, id: MapId, visit: seq<Call>, rest: seq<Call>)
    requires PassThen(c, id, visit, rest) && LookupsFollowNextId(rest)
    ensures LookupsFollowNextId(visit + rest)
  {
    var t := visit + rest;
    var n := |visit|;
    forall i | 0 < i < |t| && t[i].GetFdCall? ensures t[i - 1].NextIdCall? && t[i - 1].start < t[i].id {
      if i > n {
        assert t[i] == rest[i - n] && t[i - 1] == rest[i - n - 1];
      } else if i < n {
        assert t[i] == visit[i] && t[i - 1] == visit[i - 1];
      }
    }
  }

  lemma ShiftedCursors(c: U32, id: MapId, visit: seq<Call>, rest: seq<Call>)
    requires PassThen(c, id, visit, rest) && CursorsIncrease(rest) && CallsAbove(rest, id)
    ensures CursorsIncrease(visit + rest)
  {
    var t := visit + rest;
    var n := |visit|;
    forall i, j | 0 <= i < j < |t| && t[i].NextIdCall? && t[j].NextIdCall?
      ensures t[i].start < t[j].start
    {
      if i >= n {
        assert t[i] == rest[i - n] && t[j] == rest[j - n];
      } else if j >= n {
        assert t[i] == visit[i] && t[j] == rest[j - n];
        assert i == 0;
        if j - n > 0 { assert id < Arg(rest[j - n]); }
      } else {
        assert t[i] == visit[i] && t[j] == visit[j];
      }
    }
  }

  lemma ShiftedLookupIds(c: U32, id: MapId, visit: seq<Call>, rest: seq<Call>)
    requires PassThen(c, id, visit, rest) && LookupsIncrease(rest) && CallsAbove(rest, id)
    ensures LookupsIncrease(visit + rest)
  {
    var t := visit + rest;
    var n := |visit|;
    forall i, j | 0 <= i < j < |t| && t[i].GetFdCall? && t[j].GetFdCall?
      ensures t[i].id < t[j].id
    {
      if i >= n {
        assert t[i] == rest[i - n] && t[j] == rest[j - n];
      } else if j >= n {
        assert t[i] == visit[i] && t[j] == rest[j - n];
        assert i == 1;
        assert id < Arg(rest[j - n]);
      } else {
        assert t[i] == visit[i] && t[j] == visit[j];
      }
    }
  }

  /** The order of the calls of a pass that goes on from `id`, carried over to the whole run from `c`. */
  lemma ShiftedCalls(c: U32, id: MapId, visit: seq<Call>, rest: seq<Call>)
    requires PassThen(c, id, visit, rest) && CallsInOrder(rest, id)
    ensures CallsInOrder(visit + rest, c)
  {
    ShiftedAbove(c, id, visit, rest);
    ShiftedSeeded(c, id, visit, rest);
    ShiftedLookups(c, id, visit, rest);
    ShiftedCursors(c, id, visit, rest);
    ShiftedLookupIds(c, id, visit, rest);
  }

  /** The order of the reports of a pass that goes on from `id`, carried over to the whole run from `c`. */
  lemma ShiftedPrinted(c: U32, id: MapId, reported: seq<Report>, rest: seq<Report>)
    requires c < id && |reported| <= 1
    requires forall i :: 0 <= i < |reported| ==> reported[i].id == id
    requires PrintedInOrder(rest, id)
    ensures PrintedInOrder(reported + rest, c)
  {
    var t := reported + rest;
    assert forall i :: |reported| <= i < |t| ==> t[i] == rest[i - |reported|];
  }

  /**
   `call` is what the lister does with the kernel's answer to `prev`: it
   looks up the id next-id returned, fetches the info of the descriptor the
   lookup returned, closes that descriptor when the fetch fails, and calls
   next-id again from the id of a vanished or a reported map.
   */
  predicate Follows(k: Kernel, prev: Call, call: Call) {
    match call
    case NextIdCall(c) =>
      || (prev.GetFdCall? && prev.id == c && GetFdById(k, prev.id) == Err(ENOENT))
      || (prev.GetInfoCall? && prev.fd.mapId == c && GetInfoByFd(k, prev.fd).Ok?)
    case GetFdCall(id) => prev.NextIdCall? && NextId(k, prev.start) == Ok(id)
    case GetInfoCall(fd) => prev.GetFdCall? && GetFdById(k, prev.id) == Ok(fd)
    case CloseCall(fd) => prev == GetInfoCall(fd) && GetInfoByFd(k, fd).Err?
  }

  /** Every call after the first follows from the answer to the call before it. */
  predicate CallsFollowAnswers(k: Kernel, calls: seq<Call>) {
    forall i :: 0 < i < |calls| ==> Follows(k, calls[i - 1], calls[i])
  }

  lemma FollowsShift(k: Kernel, visit: seq<Call>, rest: seq<Call>)
    requires |visit| >= 1 && |rest| >= 1
    requires CallsFollowAnswers(k, visit) && CallsFollowAnswers(k, rest)
    requires Follows(k, visit[|visit| - 1], rest[0])
    ensures CallsFollowAnswers(k, visit + rest)
  {
    var t := visit + rest;
    var n := |visit|;
    forall i | 0 < i < |t| ensures Follows(k, t[i - 1], t[i]) {
      if i > n {
        assert t[i] == rest[i - n] && t[i - 1] == rest[i - n - 1];
      } else if i == n {
        assert t[i] == rest[0] && t[i - 1] == visit[n - 1];
      } else {
        assert t[i] == visit[i] && t[i - 1] == visit[i - 1];
      }
    }
  }

  /**
   Every run from a cursor makes its calls as the answers dictate: the id
   looked up is the one next-id returned, the descriptor queried is the one
   the lookup returned, and so on (Follows).
   */
  lemma {:induction false} CallsFollowTheirAnswers(k: Kernel, c: U32)
    ensures CallsFollowAnswers(k, Run(k, c).calls)
    decreases 0x1_0000_0000 - c
  {
    match NextId(k, c)
    case Err(e) =>
      RunStopsAtNextId(k, c, e);
    case Ok(id) =>
      var visit := [NextIdCall(c), GetFdCall(id)];
      assert Follows(k, visit[0], visit[1]);
      match GetFdById(k, id)
      case Err(e) =>
        if e == ENOENT {
          RunSkips(k, c, id);
          CallsFollowTheirAnswers(k, id);
          FollowsShift(k, visit, Run(k, id).calls);
        } else {
          RunStopsAtFd(k, c, id, e);
        }
      case Ok(fd) =>
        var fetch := visit + [GetInfoCall(fd)];
        assert Follows(k, fetch[1], fetch[2]);
        match GetInfoByFd(k, fd)
        case Err(e) =>
          RunStopsAtInfo(k, c, id, fd, e);
          var whole := fetch + [CloseCall(fd)];
          assert Follows(k, whole[2], whole[3]);
          assert whole == [NextIdCall(c), GetFdCall(id), GetInfoCall(fd), CloseCall(fd)];
        case Ok(info) =>
          RunReports(k, c, id, fd, info);
          CallsFollowTheirAnswers(k, id);
          assert fetch == [NextIdCall(c), GetFdCall(id), GetInfoCall(fd)];
          FollowsShift(k, fetch, Run(k, id).calls);
  }

  /** Where a call list ends its run: the last call, or the one before a final close. */
  function StopAt(calls: seq<Call>): (s: int) {
    if |calls| >= 2 && calls[|calls| - 1].CloseCall? then |calls| - 2 else |calls| - 1
  }

  /**
   The run ends at a failed call that stops the loop, and at no earlier
   one; only a failed info fetch is followed by anything (its close); and
   the exit status is EXIT_FAILURE exactly when that call was a denied
   next-id or fd lookup.
   */
  predicate EndsAtStop(k: Kernel, t: Trace) {
    var s := StopAt(t.calls);
    && 0 <= s < |t.calls| && Stops(k, t.calls[s])
    && (forall i :: 0 <= i < s ==> !Stops(k, t.calls[i]))
    && (s == |t.calls| - 1 || (t.calls[s].GetInfoCall? && t.calls[s + 1] == CloseCall(t.calls[s].fd)))
    && (t.exit == ExitFailure <==> Fatal(k, t.calls[s]))
  }

  lemma StopShift(k: Kernel, visit: seq<Call>, reported: seq<Report>, rest: Trace)
    requires forall i :: 0 <= i < |visit| ==> !Stops(k, visit[i])
    requires |rest.calls| >= 1 && rest.calls[0].NextIdCall?
    requires EndsAtStop(k, rest)
    ensures EndsAtStop(k, Then(visit, reported, rest))
  {
    var t := Then(visit, reported, rest);
    var n := |visit|;
    assert StopAt(t.calls) == n + StopAt(rest.calls);
    assert forall i :: n <= i < |t.calls| ==> t.calls[i] == rest.calls[i - n];
  }

  /** Every run ends as EndsAtStop says. */
  lemma {:induction false} StopPolicy(k: Kernel, c: U32)
    ensures EndsAtStop(k, Run(k, c))
    decreases 0x1_0000_0000 - c
  {
    match NextId(k, c)
    case Err(e) =>
      RunStopsAtNextId(k, c, e);
    case Ok(id) =>
      match GetFdById(k, id)
      case Err(e) =>
        if e == ENOENT {
          RunSkips(k, c, id);
          StopPolicy(k, id);
          StopShift(k, [NextIdCall(c), GetFdCall(id)], [], Run(k, id));
        } else {
          RunStopsAtFd(k, c, id, e);
        }
      case Ok(fd) =>
        match GetInfoByFd(k, fd)
        case Err(e) =>
          RunStopsAtInfo(k, c, id, fd, e);
        case Ok(info) =>
          RunReports(k, c, id, fd, info);
          StopPolicy(k, id);
          StopShift(k, [NextIdCall(c), GetFdCall(id), GetInfoCall(fd)], [Report(id, info)], Run(k, id));
  }

  /**
   EPERM from next-id or from the fd lookup ends the program at once with
   EXIT_FAILURE: that call is the last call made, and a run that exits
   with EXIT_FAILURE ended on such a call.
   */
  lemma PermissionDeniedIsFatal(k: Kernel, c: U32)
    ensures var t := Run(k, c);
            && (forall i :: 0 <= i < |t.calls| && Fatal(k, t.calls[i]) ==> i == |t.calls| - 1 && t.exit == ExitFailure)
            && (t.exit == ExitFailure ==> Fatal(k, t.calls[|t.calls| - 1]))
  {
    var t := Run(k, c);
    StopPolicy(k, c);
    var s := StopAt(t.calls);
    forall i | 0 <= i < |t.calls| && Fatal(k, t.calls[i]) ensures i == |t.calls| - 1 && t.exit == ExitFailure {
      assert Stops(k, t.calls[i]);
      assert i >= s;
    }
  }

  /**
   Every other failure that stops the loop (next-id other than EPERM or
   ENOENT's end of table, fd lookup other than EPERM or ENOENT, any info
   fetch error, EPERM included) ends the run, and the program still exits
   with EXIT_SUCCESS, as after a clean end of table.
   */
  lemma OtherFailuresStillSucceed(k: Kernel, c: U32)
    ensures var t := Run(k, c);
            forall i :: 0 <= i < |t.calls| && Stops(k, t.calls[i]) && !Fatal(k, t.calls[i])
              ==> t.exit == ExitSuccess && i == StopAt(t.calls)
  {
    var t := Run(k, c);
    StopPolicy(k, c);
    var s := StopAt(t.calls);
    forall i | 0 <= i < |t.calls| && Stops(k, t.calls[i]) && !Fatal(k, t.calls[i])
      ensures t.exit == ExitSuccess && i == s
    {
      assert i >= s;
    }
  }

  /** An empty table: the first next-id fails with ENOENT, nothing is printed, the exit is EXIT_SUCCESS. */
  lemma EmptyTableEndsCleanly(k: Kernel)
    requires k.table == map[] && 0 !in k.nextIdFaults
    ensures Run(k, 0) == Trace([NextIdCall(0)], [], ExitSuccess)
  {
    assert Above(k.table.Keys, 0) == {};
  }

  /** An fd lookup that found the map gone: the one failure the loop skips. */
  predicate Vanished(k: Kernel, call: Call) {
    call.GetFdCall? && CallErrno(k, call) == Some(ENOENT)
  }

  predicate NotReported(printed: seq<Report>, id: MapId) {
    forall j :: 0 <= j < |printed| ==> printed[j].id != id
  }

  /**
   Every vanished id is skipped: the next call is next-id from that very id
   (the loop goes on past it, not back to the start), and no line is
   printed for it.
   */
  predicate SkipsVanished(k: Kernel, t: Trace) {
    forall i :: 0 <= i < |t.calls| && Vanished(k, t.calls[i]) ==>
      && i + 1 < |t.calls|
      && t.calls[i + 1] == NextIdCall(t.calls[i].id)
      && NotReported(t.printed, t.calls[i].id)
  }

  lemma SkipShift(k: Kernel, id: MapId, visit: seq<Call>, reported: seq<Report>, rest: Trace)
    requires |rest.calls| >= 1 && rest.calls[0] == NextIdCall(id)
    requires forall i :: 0 < i < |rest.calls| ==> id < Arg(rest.calls[i])
    requires forall j :: 0 <= j < |rest.printed| ==> id < rest.printed[j].id
    requires SkipsVanished(k, rest)
    requires forall i :: 0 <= i < |visit| && Vanished(k, visit[i]) ==>
               i == |visit| - 1 && visit[i].id == id && reported == []
    requires forall j :: 0 <= j < |reported| ==> reported[j].id <= id
    ensures SkipsVanished(k, Then(visit, reported, rest))
  {
    var t := Then(visit, reported, rest);
    var n := |visit|;
    assert forall i :: n <= i < |t.calls| ==> t.calls[i] == rest.calls[i - n];
    assert forall j :: |reported| <= j < |t.printed| ==> t.printed[j] == rest.printed[j - |reported|];
    forall i | 0 <= i < |t.calls| && Vanished(k, t.calls[i])
      ensures i + 1 < |t.calls| && t.calls[i + 1] == NextIdCall(t.calls[i].id) && NotReported(t.printed, t.calls[i].id)
    {
      if i < n {
        assert t.calls[i] == visit[i];
      } else {
        assert rest.calls[i - n] == t.calls[i];
        assert i - n > 0;
        assert id < t.calls[i].id;
      }
    }
  }

  /** Every run skips its vanished ids as SkipsVanished says. */
  lemma {:induction false} VanishedIsSkipped(k: Kernel, c: U32)
    ensures SkipsVanished(k, Run(k, c))
    decreases 0x1_0000_0000 - c
  {
    match NextId(k, c)
    case Err(e) =>
      RunStopsAtNextId(k, c, e);
    case Ok(id) =>
      match GetFdById(k, id)
      case Err(e) =>
        if e == ENOENT {
          RunSkips(k, c, id);
          VanishedIsSkipped(k, id);
          CursorStrictlyIncreases(k, id);
          SkipShift(k, id, [NextIdCall(c), GetFdCall(id)], [], Run(k, id));
        } else {
          RunStopsAtFd(k, c, id, e);
        }
      case Ok(fd) =>
        match GetInfoByFd(k, fd)
        case Err(e) =>
          RunStopsAtInfo(k, c, id, fd, e);
        case Ok(info) =>
          RunReports(k, c, id, fd, info);
          VanishedIsSkipped(k, id);
          CursorStrictlyIncreases(k, id);
          SkipShift(k, id, [NextIdCall(c), GetFdCall(id), GetInfoCall(fd)], [Report(id, info)], Run(k, id));
  }

  /** The reports a call list accounts for: one per successful info fetch, in order. */
  function Fetched(k: Kernel, calls: seq<Call>): (reports: seq<Report>)
    decreases |calls|
  {
    if calls == [] then []
    else
      var first :=
        if calls[0].GetInfoCall? && GetInfoByFd(k, calls[0].fd).Ok?
        then [Report(calls[0].fd.mapId, GetInfoByFd(k, calls[0].fd).value)]
        else [];
      first + Fetched(k, calls[1..])
  }

  lemma {:induction false} FetchedAppend(k: Kernel, a: seq<Call>, b: seq<Call>)
    ensures Fetched(k, a + b) == Fetched(k, a) + Fetched(k, b)
    decreases |a|
  {
    if a != [] {
      assert (a + b)[1..] == a[1..] + b;
      FetchedAppend(k, a[1..], b);
    } else {
      assert a + b == b;
    }
  }

  /** No successful info fetch in the calls: nothing is accounted for. */
  lemma {:induction false} FetchedNone(k: Kernel, calls: seq<Call>)
    requires forall i :: 0 <= i < |calls| && calls[i].GetInfoCall? ==> GetInfoByFd(k, calls[i].fd).Err?
    ensures Fetched(k, calls) == []
    decreases |calls|
  {
    if calls != [] {
      FetchedNone(k, calls[1..]);
    }
  }

  /** A pass that reports a map accounts for exactly that report. */
  lemma FetchedReportingPass(k: Kernel, c: U32, id: MapId, fd: Fd, info: MapInfo)
    requires fd.mapId == id && GetInfoByFd(k, fd) == Ok(info)
    requires NextId(k, c).Ok? && GetFdById(k, id).Ok?
    ensures Fetched(k, [NextIdCall(c), GetFdCall(id), GetInfoCall(fd)]) == [Report(id, info)]
  {
    var visit := [NextIdCall(c), GetFdCall(id)];
    FetchedNone(k, visit);
    assert Fetched(k, [GetInfoCall(fd)]) == [Report(id, info)] + Fetched(k, []);
    FetchedAppend(k, visit, [GetInfoCall(fd)]);
    assert visit + [GetInfoCall(fd)] == [NextIdCall(c), GetFdCall(id), GetInfoCall(fd)];
  }

  lemma FetchedThen(k: Kernel, visit: seq<Call>, reported: seq<Report>, rest: Trace)
    requires Fetched(k, visit) == reported && rest.printed == Fetched(k, rest.calls)
    ensures Then(visit, reported, rest).printed == Fetched(k, Then(visit, reported, rest).calls)
  {
    FetchedAppend(k, visit, rest.calls);
  }

  /**
   The lines printed are exactly the info records fetched successfully, in
   the order fetched, each under the id of the descriptor it came from: no
   line without a fetch, no fetch without a line.
   */
  lemma {:induction false} ReportsAreFetches(k: Kernel, c: U32)
    ensures Run(k, c).printed == Fetched(k, Run(k, c).calls)
    decreases 0x1_0000_0000 - c
  {
    match NextId(k, c)
    case Err(e) =>
      RunStopsAtNextId(k, c, e);
      FetchedNone(k, [NextIdCall(c)]);
    case Ok(id) =>
      var visit := [NextIdCall(c), GetFdCall(id)];
      match GetFdById(k, id)
      case Err(e) =>
        FetchedNone(k, visit);
        if e == ENOENT {
          RunSkips(k, c, id);
          ReportsAreFetches(k, id);
          FetchedThen(k, visit, [], Run(k, id));
        } else {
          RunStopsAtFd(k, c, id, e);
        }
      case Ok(fd) =>
        match GetInfoByFd(k, fd)
        case Err(e) =>
          RunStopsAtInfo(k, c, id, fd, e);
          FetchedNone(k, [NextIdCall(c), GetFdCall(id), GetInfoCall(fd), CloseCall(fd)]);
        case Ok(info) =>
          RunReports(k, c, id, fd, info);
          ReportsAreFetches(k, id);
          FetchedReportingPass(k, c, id, fd, info);
          FetchedThen(k, [NextIdCall(c), GetFdCall(id), GetInfoCall(fd)], [Report(id, info)], Run(k, id));
  }

  /** A report for each id of `ids`, with the info record the table holds for it. */
  function LiveReports(k: Kernel, ids: seq<MapId>): (reports: seq<Report>)
    requires forall i :: 0 <= i < |ids| ==> ids[i] in k.table && k.table[ids[i]].Live?
    decreases |ids|
  {
    if ids == [] then []
    else [Report(ids[0], k.table[ids[0]].info)] + LiveReports(k, ids[1..])
  }

  lemma {:induction false} LiveReportsAt(k: Kernel, ids: seq<MapId>, i: nat)
    requires forall j :: 0 <= j < |ids| ==> ids[j] in k.table && k.table[ids[j]].Live?
    requires i < |ids|
    ensures |LiveReports(k, ids)| == |ids|
    ensures LiveReports(k, ids)[i] == Report(ids[i], k.table[ids[i]].info)
    decreases |ids|
  {
    if i > 0 {
      LiveReportsAt(k, ids[1..], i - 1);
    } else if |ids| > 1 {
      LiveReportsAt(k, ids[1..], 0);
    }
  }

  /**
   The reference listing: a report for each map alive in the table above
   cursor `c`, in increasing id order, with the info the table holds.
   */
  function Listing(k: Kernel, c: U32): (reports: seq<Report>) {
    LiveReports(k, SortedIds(Above(LiveIds(k), c)))
  }

  /** No live map above a cursor where next-id reports the end of the table. */
  lemma NothingLiveAfterEnd(k: Kernel, c: U32)
    requires NoFaults(k) && NextId(k, c).Err?
    ensures Listing(k, c) == []
  {
    assert Above(LiveIds(k), c) == {};
  }

  /** A gone id handed out by next-id hides no live map between the two cursors. */
  lemma GoneIdHidesNothing(k: Kernel, c: U32, id: MapId)
    requires NoFaults(k) && NextId(k, c) == Ok(id) && GetFdById(k, id).Err?
    ensures Listing(k, c) == Listing(k, id)
  {
    assert Above(LiveIds(k), c) == Above(LiveIds(k), id);
  }

  /** A live id handed out by next-id is the first of the live ids above the cursor. */
  lemma LiveIdComesFirst(k: Kernel, c: U32, id: MapId)
    requires NoFaults(k) && NextId(k, c) == Ok(id) && GetFdById(k, id).Ok?
    ensures Listing(k, c) == [Report(id, k.table[id].info)] + Listing(k, id)
  {
    var live := Above(LiveIds(k), c);
    assert Least(live) == id;
    assert live - {id} == Above(LiveIds(k), id);
    var sorted := SortedIds(Above(LiveIds(k), id));
    assert SortedIds(live) == [id] + sorted;
    assert ([id] + sorted)[1..] == sorted;
  }

  /**
   With no injected failures the lister reports every map alive in the
   table above the cursor, each once, in increasing id order, with the info
   the table holds for it, and exits with EXIT_SUCCESS; ids whose map is
   gone are skipped.
   */
  lemma {:induction false} NoFaultsListsLiveMaps(k: Kernel, c: U32)
    requires NoFaults(k)
    ensures Run(k, c).exit == ExitSuccess
    ensures Run(k, c).printed == Listing(k, c)
    decreases 0x1_0000_0000 - c
  {
    match NextId(k, c)
    case Err(e) =>
      RunStopsAtNextId(k, c, e);
      NothingLiveAfterEnd(k, c);
    case Ok(id) =>
      match GetFdById(k, id)
      case Err(e) =>
        RunSkips(k, c, id);
        NoFaultsListsLiveMaps(k, id);
        GoneIdHidesNothing(k, c, id);
        assert [] + Run(k, id).printed == Run(k, id).printed;
      case Ok(fd) =>
        var info := k.table[id].info;
        RunReports(k, c, id, fd, info);
        NoFaultsListsLiveMaps(k, id);
        LiveIdComesFirst(k, c, id);
  }

  /** The line for live map `id`, rendered from the info record the table holds for it. */
  function LineOf(k: Kernel, id: MapId, names: TypeNames): (line: string)
    requires id in k.table && k.table[id].Live?
  {
    FormatLine(id, k.table[id].info, names)
  }

  /**
   A table that does not change during the run and has no failures: one
   line per map, in increasing id order, each rendered from that map's
   info record.
   */
  lemma StaticTableOneLinePerMap(k: Kernel, names: TypeNames)
    requires NoFaults(k) && forall x :: x in k.table ==> k.table[x].Live?
    ensures var t := Run(k, 0);
            var ids := SortedIds(k.table.Keys);
            && t.exit == ExitSuccess
            && |Lines(t.printed, names)| == |ids|
            && forall i :: 0 <= i < |ids| ==> Lines(t.printed, names)[i] == LineOf(k, ids[i], names)
  {
    NoFaultsListsLiveMaps(k, 0);
    StaticTableLines(k, names);
  }

  lemma StaticTableLines(k: Kernel, names: TypeNames)
    requires forall x :: x in k.table ==> k.table[x].Live?
    ensures var ids := SortedIds(k.table.Keys);
            && |Lines(Listing(k, 0), names)| == |ids|
            && forall i :: 0 <= i < |ids| ==> Lines(Listing(k, 0), names)[i] == LineOf(k, ids[i], names)
  {
    StaticTableReportsAll(k);
    LinesOfLiveMaps(k, SortedIds(k.table.Keys), Listing(k, 0), names);
  }

  lemma LinesOfLiveMaps(k: Kernel, ids: seq<MapId>, printed: seq<Report>, names: TypeNames)
    requires forall i :: 0 <= i < |ids| ==> ids[i] in k.table && k.table[ids[i]].Live?
    requires |printed| == |ids|
    requires forall i :: 0 <= i < |ids| ==> printed[i] == Report(ids[i], k.table[ids[i]].info)
    ensures |Lines(printed, names)| == |ids|
    ensures forall i :: 0 <= i < |ids| ==> Lines(printed, names)[i] == LineOf(k, ids[i], names)
  {
    forall i | 0 <= i < |ids| ensures Lines(printed, names)[i] == LineOf(k, ids[i], names) {
      assert printed[i].id == ids[i];
      assert printed[i].info == k.table[ids[i]].info;
    }
  }


  lemma StaticTableReportsAll(k: Kernel)
    requires forall x :: x in k.table ==> k.table[x].Live?
    ensures var ids := SortedIds(k.table.Keys);
            && |Listing(k, 0)| == |ids|
            && forall i :: 0 <= i < |ids| ==> Listing(k, 0)[i] == Report(ids[i], k.table[ids[i]].info)
  {
    assert Above(LiveIds(k), 0) == k.table.Keys;
    var ids := SortedIds(k.table.Keys);
    if ids == [] {
      assert Listing(k, 0) == [];
    } else {
      LiveReportsAt(k, ids, 0);
      forall i | 0 <= i < |ids|
        ensures Listing(k, 0)[i] == Report(ids[i], k.table[ids[i]].info)
      {
        LiveReportsAt(k, ids, i);
      }
    }
  }

  /** The maps a call list obtained a descriptor for. */
  function Opened(k: Kernel, calls: seq<Call>): (ids: set<MapId>)
    decreases |calls|
  {
    if calls == [] then {}
    else
      (if calls[0].GetFdCall? && GetFdById(k, calls[0].id).Ok? then {calls[0].id} else {})
      + Opened(k, calls[1..])
  }

  /** The maps whose descriptor a call list closed. */
  function Closed(calls: seq<Call>): (ids: set<MapId>)
    decreases |calls|
  {
    if calls == [] then {}
    else (if calls[0].CloseCall? then {calls[0].fd.mapId} else {}) + Closed(calls[1..])
  }

  /** The ids of the maps printed. */
  function ReportedIds(printed: seq<Report>): (ids: set<MapId>)
    decreases |printed|
  {
    if printed == [] then {} else {printed[0].id} + ReportedIds(printed[1..])
  }

  lemma {:induction false} ReportedIdsAppend(a: seq<Report>, b: seq<Report>)
    ensures ReportedIds(a + b) == ReportedIds(a) + ReportedIds(b)
    decreases |a|
  {
    if a != [] {
      assert (a + b)[1..] == a[1..] + b;
      ReportedIdsAppend(a[1..], b);
    } else {
      assert a + b == b;
    }
  }

  lemma {:induction false} OpenedClosedAppend(k: Kernel, a: seq<Call>, b: seq<Call>)
    ensures Opened(k, a + b) == Opened(k, a) + Opened(k, b)
    ensures Closed(a + b) == Closed(a) + Closed(b)
    decreases |a|
  {
    if a != [] {
      assert (a + b)[1..] == a[1..] + b;
      OpenedClosedAppend(k, a[1..], b);
    } else {
      assert a + b == b;
    }
  }

  lemma {:induction false} OpenedClosedAbove(k: Kernel, calls: seq<Call>, id: MapId)
    requires forall i :: 0 <= i < |calls| ==> calls[i].NextIdCall? || id < Arg(calls[i])
    ensures forall x :: x in Opened(k, calls) || x in Closed(calls) ==> id < x
    decreases |calls|
  {
    if calls != [] {
      assert forall i :: 0 <= i < |calls[1..]| ==> calls[1..][i] == calls[i + 1];
      OpenedClosedAbove(k, calls[1..], id);
      assert Opened(k, calls) <= {Arg(calls[0])} + Opened(k, calls[1..]);
      assert Closed(calls) <= {Arg(calls[0])} + Closed(calls[1..]);
      assert calls[0].GetFdCall? || calls[0].CloseCall? ==> id < Arg(calls[0]);
    }
  }

  /** The descriptors a run leaves open when it exits. */
  predicate LeavesOpen(k: Kernel, t: Trace, ids: set<MapId>) {
    Opened(k, t.calls) - Closed(t.calls) == ids
  }

  lemma OpenShift(k: Kernel, id: MapId, visit: seq<Call>, reported: seq<Report>, rest: Trace)
    requires |rest.calls| >= 1 && rest.calls[0].NextIdCall?
    requires forall i :: 0 < i < |rest.calls| ==> id < Arg(rest.calls[i])
    requires LeavesOpen(k, rest, ReportedIds(rest.printed))
    requires Closed(visit) == {}
    requires Opened(k, visit) == ReportedIds(reported) && ReportedIds(reported) <= {id}
    ensures LeavesOpen(k, Then(visit, reported, rest), ReportedIds(Then(visit, reported, rest).printed))
  {
    var t := Then(visit, reported, rest);
    OpenedClosedAppend(k, visit, rest.calls);
    OpenedClosedAbove(k, rest.calls, id);
    ReportedIdsAppend(reported, rest.printed);
  }

  /**
   The program closes a descriptor only when fetching its info fails: when
   it exits, the descriptor of every map it printed is still open, and no
   other.
   */
  lemma {:induction false} PrintedMapsStayOpen(k: Kernel, c: U32)
    ensures LeavesOpen(k, Run(k, c), ReportedIds(Run(k, c).printed))
    decreases 0x1_0000_0000 - c
  {
    match NextId(k, c)
    case Err(e) =>
      RunStopsAtNextId(k, c, e);
      OneCall(k, NextIdCall(c));
    case Ok(id) =>
      match GetFdById(k, id)
      case Err(e) =>
        FailedLookupOpensNothing(k, c, id);
        if e == ENOENT {
          RunSkips(k, c, id);
          PrintedMapsStayOpen(k, id);
          CursorStrictlyIncreases(k, id);
          OpenShift(k, id, [NextIdCall(c), GetFdCall(id)], [], Run(k, id));
        } else {
          RunStopsAtFd(k, c, id, e);
        }
      case Ok(fd) =>
        match GetInfoByFd(k, fd)
        case Err(e) =>
          RunStopsAtInfo(k, c, id, fd, e);
          FailedFetchClosesItsFd(k, c, id, fd);
        case Ok(info) =>
          RunReports(k, c, id, fd, info);
          PrintedMapsStayOpen(k, id);
          CursorStrictlyIncreases(k, id);
          ReportingPassOpensOne(k, c, id, fd);
          assert ReportedIds([Report(id, info)]) == {id} + ReportedIds([]);
          OpenShift(k, id, [NextIdCall(c), GetFdCall(id), GetInfoCall(fd)], [Report(id, info)], Run(k, id));
  }

  lemma FailedLookupOpensNothing(k: Kernel, c: U32, id: MapId)
    requires GetFdById(k, id).Err?
    ensures Opened(k, [NextIdCall(c), GetFdCall(id)]) == {} && Closed([NextIdCall(c), GetFdCall(id)]) == {}
  {
    OpenedClosedAppend(k, [NextIdCall(c)], [GetFdCall(id)]);
    assert [NextIdCall(c)] + [GetFdCall(id)] == [NextIdCall(c), GetFdCall(id)];
    OneCall(k, NextIdCall(c));
    OneCall(k, GetFdCall(id));
  }

  lemma ReportingPassOpensOne(k: Kernel, c: U32, id: MapId, fd: Fd)
    requires GetFdById(k, id) == Ok(fd)
    ensures var pass := [NextIdCall(c), GetFdCall(id), GetInfoCall(fd)];
            Opened(k, pass) == {id} && Closed(pass) == {}
  {
    var pass := [NextIdCall(c), GetFdCall(id), GetInfoCall(fd)];
    OpenedClosedAppend(k, [NextIdCall(c), GetFdCall(id)], [GetInfoCall(fd)]);
    assert [NextIdCall(c), GetFdCall(id)] + [GetInfoCall(fd)] == pass;
    OpenedClosedAppend(k, [NextIdCall(c)], [GetFdCall(id)]);
    assert [NextIdCall(c)] + [GetFdCall(id)] == [NextIdCall(c), GetFdCall(id)];
    OneCall(k, NextIdCall(c));
    OneCall(k, GetFdCall(id));
    OneCall(k, GetInfoCall(fd));
  }

  lemma FailedFetchClosesItsFd(k: Kernel, c: U32, id: MapId, fd: Fd)
    requires GetFdById(k, id) == Ok(fd)
    ensures var pass := [NextIdCall(c), GetFdCall(id), GetInfoCall(fd), CloseCall(fd)];
            Opened(k, pass) - Closed(pass) == {}
  {
    var pass := [NextIdCall(c), GetFdCall(id), GetInfoCall(fd)];
    ReportingPassOpensOne(k, c, id, fd);
    OpenedClosedAppend(k, pass, [CloseCall(fd)]);
    OneCall(k, CloseCall(fd));
    assert pass + [CloseCall(fd)] == [NextIdCall(c), GetFdCall(id), GetInfoCall(fd), CloseCall(fd)];
  }

  lemma OneCall(k: Kernel, call: Call)
    ensures Opened(k, [call]) == (if call.GetFdCall? && GetFdById(k, call.id).Ok? then {call.id} else {})
    ensures Closed([call]) == (if call.CloseCall? then {call.fd.mapId} else {})
  {
    assert [call][1..] == [];
  }
}
