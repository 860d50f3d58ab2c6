// The values that travel through the recorder: fixed-width integers, the syscall
// events kept per process, and the four records the probes put into the ring.

module Types {

  datatype Option<+T> = None | Some(value: T)

  type byte = n: int | 0 <= n < 0x100
  type u16 = n: int | 0 <= n < 0x1_0000
  type u32 = n: int | 0 <= n < 0x1_0000_0000
  type u64 = n: int | 0 <= n < 0x1_0000_0000_0000_0000
  type i32 = n: int | -0x8000_0000 <= n < 0x8000_0000
  type i64 = n: int | -0x8000_0000_0000_0000 <= n < 0x8000_0000_0000_0000

  const TWO_32 := 0x1_0000_0000
  const TWO_64 := 0x1_0000_0000_0000_0000

  /** Arithmetic on uint64 wraps around. */
  function Wrap(n: int): u64 {
    n % TWO_64
  }

  /** A Go string or a C character array: raw bytes. */
  type Bytes = seq<byte>

  const COMM_LEN := 16
  const FILENAME_LEN := 256

  type Comm = c: Bytes | |c| == COMM_LEN witness seq(COMM_LEN, _ => 0)
  type Filename = f: Bytes | |f| == FILENAME_LEN witness seq(FILENAME_LEN, _ => 0)

  function Min(a: nat, b: nat): nat {
    if a <= b then a else b
  }

  /** Go's conversion int32(x): keep the low 32 bits, read as two's complement. */
  function ToI32(x: int): i32 {
    var low := x % TWO_32;
    if low < TWO_32 / 2 then low else low - TWO_32
  }

  /** bytes.TrimRight(b, "\x00"). */
  function TrimZeros(b: Bytes): Bytes {
    if b != [] && b[|b| - 1] == 0 then TrimZeros(b[..|b| - 1]) else b
  }

  predicate MatchesAt<T(==)>(s: seq<T>, p: seq<T>, i: nat) {
    i + |p| <= |s| && s[i..i + |p|] == p
  }

  /** strings.Contains */
  predicate Contains<T(==)>(s: seq<T>, p: seq<T>) {
    exists i :: 0 <= i <= |s| && MatchesAt(s, p, i)
  }

  lemma ContainsIff<T(!new)>(s: seq<T>, p: seq<T>)
    ensures Contains(s, p) <==> exists a, b :: s == a + p + b
  {
    if Contains(s, p) {
      var i :| 0 <= i <= |s| && MatchesAt(s, p, i);
      assert s == s[..i] + p + s[i + |p|..];
    }
    if a, b :| s == a + p + b {
      assert MatchesAt(s, p, |a|);
    }
  }

  /** An ASCII literal as bytes. */
  function Ascii(s: string): (b: Bytes)
    ensures |b| == |s| && forall i :: 0 <= i < |s| && s[i] < 0x80 as char ==> b[i] == s[i] as int
  {
    seq(|s|, i requires 0 <= i < |s| => if s[i] as int < 0x80 then s[i] as int else 0)
  }

  /** Wrapping drops whole multiples of 2^64 and nothing else. */
  lemma WrapIs(n: int, q: int, r: u64)
    requires n == q * 0x1_0000_0000_0000_0000 + r
    ensures Wrap(n) == r
  {
  }

  /** So does the conversion to int32, up to the sign bit. */
  lemma ToI32Is(n: int, q: int, r: i32)
    requires n == q * 0x1_0000_0000 + r
    ensures ToI32(n) == r
  {
  }

  // ----- events kept in the per-process buffers

  datatype FileData = FileData(filename: Bytes, flags: u32, fd: i32)

  datatype NetworkData = NetworkData(dstIP: Bytes, dstPort: u16, fd: i32)

  datatype SyscallEvent = SyscallEvent(
    kind: string,
    pid: u32,
    timestamp: u64,
    latency: u64,
    ret: i64,
    file: Option<FileData>,
    network: Option<NetworkData>)

  const ZERO_EVENT := SyscallEvent("", 0, 0, 0, 0, None, None)

  // ----- records of the ring, without their leading type field

  datatype OpenatEvent = OpenatEvent(
    pid: u32, tgid: u32, timestampNs: u64, latencyNs: u64, ret: i64, comm: Comm, filename: Filename)

  datatype ConnectEvent = ConnectEvent(
    pid: u32, timestamp: u64, latency: u64, ret: i64, family: u16, dport: u16, daddr: u32)

  datatype SignalEvent = SignalEvent(
    pid: u32, tgid: u32, signal: u32, timestampNs: u64, faultAddr: u64, siCode: i32, stackID: i32, comm: Comm)

  datatype SignalInfo = SignalInfo(faultAddr: u64, siCode: i32)

  datatype ExitEvent = ExitEvent(
    pid: u32, tgid: u32, ppid: u32, startTimeNs: u64, exitTimeNs: u64,
    exitCode: i32, signal: i32, groupDead: byte, sigInfo: SignalInfo, comm: Comm)

  datatype Record =
    | Openat(openat: OpenatEvent)
    | Exit(exit: ExitEvent)
    | Connect(connect: ConnectEvent)
    | Signal(sig: SignalEvent)
}
