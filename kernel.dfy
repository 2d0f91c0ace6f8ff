/**
 The kernel side of the map-enumeration protocol, as seen through libbpf:
 a table of map objects keyed by id, and the three calls the lister makes
 (next id, id to descriptor, descriptor to info record).

 Races with other processes and injected errors are represented by an
 oracle: fault maps keyed by the argument of each call. Within one
 enumeration pass no next-id argument and no looked-up id repeats (the
 cursor strictly increases), so keying faults by argument loses nothing
 against keying them by call.
 */
module BpfKernel {

  /** An unsigned 32-bit value (`__u32`). */
  type U32 = x: int | 0 <= x < 0x1_0000_0000

  /** A map id handed out by the kernel; 0 is the "before the first map" cursor, never an id. */
  type MapId = x: int | 1 <= x < 0x1_0000_0000 witness 1

  /** The `errno` value a failing call leaves behind, as the lister tells them apart. */
  datatype Errno = EPERM | ENOENT | OtherErrno

  datatype Result<T> = Ok(value: T) | Err(errno: Errno)

  datatype Option<T> = None | Some(value: T)

  /** The fields of `struct bpf_map_info` that the lister prints. */
  datatype MapInfo = MapInfo(mapType: U32, name: string, flags: U32)

  /** A table slot: a live map, or an id whose map was deleted after it was enumerated. */
  datatype Entry = Live(info: MapInfo) | Gone

  /** A file descriptor obtained for a map id. */
  datatype Fd = Fd(mapId: MapId)

  datatype Kernel = Kernel(
    table: map<MapId, Entry>,
    nextIdFaults: map<U32, Errno>,   // bpf_map_get_next_id(start) fails with this errno
    fdFaults: map<MapId, Errno>,     // bpf_map_get_fd_by_id(id) fails with this errno
    infoFaults: map<MapId, Errno>)   // bpf_obj_get_info_by_fd(fd of id) fails with this errno

  /** The ids of `ids` strictly greater than the cursor `c`. */
  function Above(ids: set<MapId>, c: U32): (r: set<MapId>)
    ensures forall x :: x in r <==> x in ids && c < x
  {
    set x | x in ids && c < x
  }

  predicate IsLeast(m: MapId, s: set<MapId>) {
    m in s && forall x :: x in s ==> m <= x
  }

  lemma {:induction false} LeastExists(s: set<MapId>)
    requires s != {}
    ensures exists m :: IsLeast(m, s)
  {
    var y :| y in s;
    var others := s - {y};
    if others == {} {
      forall x | x in s ensures y <= x {
        assert x !in others;
      }
      assert IsLeast(y, s);
    } else {
      LeastExists(others);
      var m :| IsLeast(m, others);
      var least := if y < m then y else m;
      forall x | x in s ensures least <= x {
        if x != y { assert x in others; }
      }
      assert IsLeast(least, s);
    }
  }

  /** The smallest id of a non-empty set. */
  function Least(s: set<MapId>): (m: MapId)
    requires s != {}
    ensures m in s && forall x :: x in s ==> m <= x
  {
    LeastExists(s);
    var m :| IsLeast(m, s);
    m
  }

  /**
   bpf_map_get_next_id(c, &next): the smallest id in the table greater
   than `c`, ENOENT when there is none, or the injected fault.
   */
  function NextId(k: Kernel, c: U32): (r: Result<MapId>)
    ensures c in k.nextIdFaults ==> r == Err(k.nextIdFaults[c])
    ensures c !in k.nextIdFaults ==> (r.Ok? <==> exists x :: x in k.table && c < x)
    ensures c !in k.nextIdFaults && r.Err? ==> r.errno == ENOENT
    ensures r.Ok? ==> r.value in k.table && c < r.value
    ensures r.Ok? ==> forall x :: x in k.table && c < x ==> r.value <= x
  {
    if c in k.nextIdFaults then Err(k.nextIdFaults[c])
    else
      var later := Above(k.table.Keys, c);
      if later == {} then Err(ENOENT) else Ok(Least(later))
  }

  /**
   bpf_map_get_fd_by_id(id): a descriptor for a live map, ENOENT for an id
   whose map is gone (or was never there), or the injected fault.
   */
  function GetFdById(k: Kernel, id: MapId): (r: Result<Fd>)
    ensures id in k.fdFaults ==> r == Err(k.fdFaults[id])
    ensures id !in k.fdFaults ==> (r.Ok? <==> id in k.table && k.table[id].Live?)
    ensures id !in k.fdFaults && r.Err? ==> r.errno == ENOENT
    ensures r.Ok? ==> r.value.mapId == id
  {
    if id in k.fdFaults then Err(k.fdFaults[id])
    else if id in k.table && k.table[id].Live? then Ok(Fd(id))
    else Err(ENOENT)
  }

  /**
   bpf_obj_get_info_by_fd(fd): the info record of the map the descriptor
   refers to, or the injected fault. A descriptor keeps its map alive, so
   the ENOENT arm is only reached by a descriptor the kernel never issued.
   */
  function GetInfoByFd(k: Kernel, fd: Fd): (r: Result<MapInfo>)
    ensures fd.mapId in k.infoFaults ==> r == Err(k.infoFaults[fd.mapId])
    ensures (fd.mapId !in k.infoFaults && fd.mapId in k.table && k.table[fd.mapId].Live?)
            ==> r == Ok(k.table[fd.mapId].info)
  {
    if fd.mapId in k.infoFaults then Err(k.infoFaults[fd.mapId])
    else if fd.mapId in k.table && k.table[fd.mapId].Live? then Ok(k.table[fd.mapId].info)
    else Err(ENOENT)
  }

  /** No call ever fails except by the table's own contents (ENOENT at the end, or for a gone map). */
  predicate NoFaults(k: Kernel) {
    k.nextIdFaults == map[] && k.fdFaults == map[] && k.infoFaults == map[]
  }

  /** The ids of the maps still alive in the table. */
  function LiveIds(k: Kernel): (r: set<MapId>)
    ensures forall x :: x in r <==> x in k.table && k.table[x].Live?
  {
    set x | x in k.table && k.table[x].Live?
  }

  /**
   The ids of `s` in increasing order: an independent reference for the
   order in which the lister visits the table.
   */
  function SortedIds(s: set<MapId>): (r: seq<MapId>)
    ensures |r| == |s|
    ensures forall x :: x in r <==> x in s
    ensures forall i, j :: 0 <= i < j < |r| ==> r[i] < r[j]
    decreases |s|
  {
    if s == {} then []
    else
      var m := Least(s);
      var rest := SortedIds(s - {m});
      var r := [m] + rest;
      assert forall j :: 0 < j < |r| ==> r[j] == rest[j - 1] && m < r[j];
      r
  }
}
