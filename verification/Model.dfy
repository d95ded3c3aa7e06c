/** The plain data shared by every crate: process snapshots, connections and
    timeline events (sher-pe-model). Text descriptions and the per-process
    detail no rule reads are not modelled. */
module Model {
  import opened Results

  /** The kernel's pid_t. */
  type Pid = x: int | -0x8000_0000 <= x < 0x8000_0000
  type U16 = x: int | 0 <= x < 0x1_0000
  type U64 = x: int | 0 <= x < 0x1_0000_0000_0000_0000
  type I64 = x: int | -0x8000_0000_0000_0000 <= x < 0x8000_0000_0000_0000

  /** A process generation. The kernel recycles pids, never this pair. */
  datatype Key = Key(pid: Pid, start: U64)

  datatype Snapshot = Snapshot(
    pid: Pid, ppid: Pid, name: string, startTime: U64,
    utime: nat, stime: nat, percent: real,
    rss: nat, threads: nat, openFiles: nat)
  {
    function TotalTicks(): nat { utime + stime }
  }

  datatype Protocol = Tcp | Tcp6 | Udp | Udp6 | Unix

  /** `state` is the kernel's state code; Unix sockets have none. */
  datatype Connection = Connection(
    protocol: Protocol, localAddr: string, remoteAddr: string, state: Option<nat>, inode: U64)

  datatype EventKind =
    | Started
    | Exited(reason: Option<string>)
    | MemoryGrowth(percentGrowth: real, windowSecs: nat)
    | NewChild(child: Pid)
    | NewConnection(addr: string)

  datatype Event = Event(key: Key, at: int, kind: EventKind)
  {
    predicate Lifecycle() { kind.Started? || kind.Exited? }
  }

  datatype Sample = Sample(at: int, snap: Snapshot)
}
