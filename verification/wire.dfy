// The byte layout of ring records: packed little-endian structs written by the probes,
// read back field by field by the consumer.

module Wire {
  import opened Types
  import opened Arithmetic

  /** 256 to the power k: how many values k bytes can hold. */
  function Radix(k: nat): (r: nat)
    ensures r > 0
  {
    if k == 0 then 1 else 0x100 * Radix(k - 1)
  }

  lemma Radixes()
    ensures Radix(1) == 0x100 && Radix(2) == 0x1_0000
    ensures Radix(4) == TWO_32 && Radix(8) == TWO_64
  {
    assert Radix(2) == 0x100 * Radix(1);
    assert Radix(3) == 0x100 * Radix(2) && Radix(4) == 0x100 * Radix(3);
    assert Radix(5) == 0x100 * Radix(4) && Radix(6) == 0x100 * Radix(5);
    assert Radix(7) == 0x100 * Radix(6) && Radix(8) == 0x100 * Radix(7);
  }

  /** The low k bytes of n, least significant first. */
  function ToBytes(n: nat, k: nat): (b: Bytes)
    ensures |b| == k
  {
    if k == 0 then [] else [n % 0x100] + ToBytes(n / 0x100, k - 1)
  }

  function FromBytes(b: Bytes): (n: nat)
    ensures n < Radix(|b|)
  {
    if b == [] then 0 else b[0] + 0x100 * FromBytes(b[1..])
  }

  lemma {:induction false} BytesRoundTrip(n: nat, k: nat)
    requires n < Radix(k)
    ensures FromBytes(ToBytes(n, k)) == n
  {
    if k > 0 {
      BytesRoundTrip(n / 0x100, k - 1);
      assert ToBytes(n, k)[1..] == ToBytes(n / 0x100, k - 1);
    }
  }

  // ----- the byte order, in absolute terms

  lemma OneByte(b: Bytes)
    requires |b| == 1
    ensures FromBytes(b) == b[0]
  {
  }

  lemma TwoBytes(b: Bytes)
    requires |b| == 2
    ensures FromBytes(b) == b[0] as int + 0x100 * b[1] as int
  {
    assert b[1..] == [b[1]] && FromBytes(b[1..]) == b[1] + 0x100 * FromBytes([]);
  }

  lemma FourBytes(b: Bytes)
    requires |b| == 4
    ensures FromBytes(b) == b[0] as int + 0x100 * b[1] as int + 0x1_0000 * b[2] as int + 0x100_0000 * b[3] as int
  {
    TwoBytes(b[2..]);
    assert b[1..][1..] == b[2..];
    assert FromBytes(b[1..]) == b[1] + 0x100 * FromBytes(b[2..]);
  }

  lemma EightBytes(b: Bytes)
    requires |b| == 8
    ensures FromBytes(b) ==
      b[0] as int + 0x100 * b[1] as int + 0x1_0000 * b[2] as int + 0x100_0000 * b[3] as int
      + 0x1_0000_0000 * b[4] as int + 0x100_0000_0000 * b[5] as int
      + 0x1_0000_0000_0000 * b[6] as int + 0x100_0000_0000_0000 * b[7] as int
  {
    FourBytes(b[4..]);
    assert b[1..][1..] == b[2..] && b[2..][1..] == b[3..] && b[3..][1..] == b[4..];
    assert FromBytes(b[3..]) == b[3] + 0x100 * FromBytes(b[4..]);
    assert FromBytes(b[2..]) == b[2] + 0x100 * FromBytes(b[3..]);
    assert FromBytes(b[1..]) == b[1] + 0x100 * FromBytes(b[2..]);
  }

  /** The bytes of a 32-bit number, lowest first. */
  lemma BytesOfU32(n: u32)
    ensures var b := ToBytes(n, 4);
      && b[0] == n % 0x100 && b[1] == (n / 0x100) % 0x100
      && b[2] == (n / 0x1_0000) % 0x100 && b[3] == (n / 0x100_0000) % 0x100
  {
    assert ToBytes(n, 4)[1..] == ToBytes(n / 0x100, 3);
    assert ToBytes(n / 0x100, 3)[1..] == ToBytes(n / 0x100 / 0x100, 2);
    assert ToBytes(n / 0x100 / 0x100, 2)[1..] == ToBytes(n / 0x100 / 0x100 / 0x100, 1);
  }

  // ----- packed structs

  /** One member of a packed struct: unsigned, signed, an array of bytes, or padding
      that the reader skips. */
  datatype Field = U(width: nat) | S(width: nat) | Raw(width: nat) | Pad(width: nat)

  datatype Value = Num(n: int) | Data(b: Bytes)

  type Layout = seq<Field>

  predicate Fits(f: Field, v: Value) {
    match f
    case U(w) => v.Num? && 0 <= v.n < Radix(w)
    case S(w) => v.Num? && 0 <= 2 * v.n + Radix(w) && 2 * v.n < Radix(w)
    case Raw(w) => v.Data? && |v.b| == w
    case Pad(w) => v.Data? && |v.b| == w
  }

  predicate AllFit(layout: Layout, vs: seq<Value>) {
    |vs| == |layout| && forall i :: 0 <= i < |layout| ==> Fits(layout[i], vs[i])
  }

  function Size(layout: Layout): nat {
    if layout == [] then 0 else layout[0].width + Size(layout[1..])
  }

  /** What a C store of v leaves in memory. */
  function PutField(f: Field, v: Value): (b: Bytes)
    requires Fits(f, v)
    ensures |b| == f.width
  {
    if v.Data? then v.b else ToBytes(v.n % Radix(f.width), f.width)
  }

  /** What Go reads from that memory. */
  function GetField(f: Field, b: Bytes): (v: Value)
    requires |b| == f.width
    ensures Fits(f, v)
  {
    match f
    case U(w) => Num(FromBytes(b))
    case S(w) =>
      var u := FromBytes(b);
      Num(if 2 * u < Radix(w) then u else u - Radix(w))
    case Raw(_) => Data(b)
    case Pad(_) => Data(b)
  }

  function Put(layout: Layout, vs: seq<Value>): (b: Bytes)
    requires AllFit(layout, vs)
    ensures |b| == Size(layout)
  {
    if layout == [] then [] else PutField(layout[0], vs[0]) + Put(layout[1..], vs[1..])
  }

  /** binary.Read: fails when data is too short, and ignores bytes behind the struct. */
  function Get(layout: Layout, data: Bytes): (r: Option<seq<Value>>)
    ensures r.None? <==> |data| < Size(layout)
    ensures r.Some? ==> AllFit(layout, r.value)
  {
    if layout == [] then Some([])
    else if |data| < layout[0].width then None
    else
      match Get(layout[1..], data[layout[0].width..])
      case None => None
      case Some(vs) => Some([GetField(layout[0], data[..layout[0].width])] + vs)
  }

  lemma FieldRoundTrip(f: Field, v: Value)
    requires Fits(f, v)
    ensures GetField(f, PutField(f, v)) == v
  {
    if v.Num? {
      var r := Radix(f.width);
      BytesRoundTrip(v.n % r, f.width);
      if v.n >= 0 { ModUnique(v.n, 0, v.n, r); } else { ModUnique(v.n, -1, v.n + r, r); }
    }
  }

  /** Writing a struct and reading it back is the identity, whatever follows it. */
  lemma {:induction false} StructRoundTrip(layout: Layout, vs: seq<Value>, rest: Bytes)
    requires AllFit(layout, vs)
    ensures Get(layout, Put(layout, vs) + rest) == Some(vs)
  {
    hide PutField, GetField, Fits, Size;
    if layout == [] {
      assert vs == [] && Put(layout, vs) + rest == rest;
    } else {
      var b, tail := PutField(layout[0], vs[0]), Put(layout[1..], vs[1..]) + rest;
      FieldRoundTrip(layout[0], vs[0]);
      StructRoundTrip(layout[1..], vs[1..], rest);
      GetFirst(layout, b, tail);
      assert Put(layout, vs) + rest == b + tail;
      assert vs == [vs[0]] + vs[1..];
    }
  }

  lemma GetFirst(layout: Layout, b: Bytes, tail: Bytes)
    requires layout != [] && |b| == layout[0].width && Get(layout[1..], tail).Some?
    ensures Get(layout, b + tail) == Some([GetField(layout[0], b)] + Get(layout[1..], tail).value)
  {
    hide GetField, Size;
    assert (b + tail)[..|b|] == b && (b + tail)[|b|..] == tail;
  }

  // ----- the four structs as the C side declares them

  const C_OPENAT: Layout := [U(4), U(4), U(4), U(8), U(8), S(8), Raw(16), Raw(256)]
  const C_CONNECT: Layout := [U(4), U(4), U(8), U(8), S(8), U(2), U(2), U(4)]
  const C_SIGNAL: Layout := [U(4), U(4), U(4), U(4), U(8), U(8), S(4), S(4), Raw(16)]
  const C_EXIT: Layout :=
    [U(4), U(4), U(4), U(4), U(8), U(8), S(4), S(4), U(1), Raw(3), U(8), S(4), Raw(4), Raw(16)]

  // ----- and as the Go side declares them

  const GO_OPENAT: Layout := [U(4), U(4), U(4), U(8), U(8), S(8), Raw(16), Raw(256)]
  const GO_CONNECT: Layout := [U(4), U(4), U(8), U(8), S(8), U(2), U(2), U(4)]
  const GO_SIGNAL: Layout := [U(4), U(4), U(4), U(4), U(8), U(8), S(4), S(4), Raw(16)]
  const GO_EXIT: Layout :=
    [U(4), U(4), U(4), U(4), U(8), U(8), S(4), S(4), U(1), Pad(3), U(8), S(4), Pad(4), Raw(16)]

  /** Same members at the same offsets; Go may declare as blank what C leaves unused. */
  predicate Mirrors(c: Layout, go: Layout) {
    && |c| == |go|
    && forall i :: 0 <= i < |c| ==> go[i] == c[i] || (c[i].Raw? && go[i] == Pad(c[i].width))
  }

  lemma ReadsBack(c: Layout, go: Layout, vs: seq<Value>)
    requires Mirrors(c, go) && AllFit(c, vs)
    ensures AllFit(go, vs) && Get(go, Put(c, vs)) == Some(vs)
  {
    MirrorsPut(c, go, vs);
    StructRoundTrip(go, vs, []);
    assert Put(go, vs) + [] == Put(go, vs);
  }

  lemma {:induction false} MirrorsPut(c: Layout, go: Layout, vs: seq<Value>)
    requires Mirrors(c, go) && AllFit(c, vs)
    ensures AllFit(go, vs) && Put(go, vs) == Put(c, vs)
  {
    if c != [] { MirrorsPut(c[1..], go[1..], vs[1..]); }
  }

  // ----- records

  const EVENT_OPENAT := 1
  const EVENT_EXIT := 2
  const EVENT_CONNECT := 3
  const EVENT_SIGNAL := 4

  /** The two padding members of an exit record are never written: they may hold
      anything. */
  datatype Garbage = Garbage(pad3: Bytes, pad4: Bytes)

  predicate GarbageFits(g: Garbage) {
    |g.pad3| == 3 && |g.pad4| == 4
  }

  function KindOf(r: Record): nat {
    match r
    case Openat(_) => EVENT_OPENAT
    case Exit(_) => EVENT_EXIT
    case Connect(_) => EVENT_CONNECT
    case Signal(_) => EVENT_SIGNAL
  }

  predicate IsKind(kind: nat) {
    EVENT_OPENAT <= kind <= EVENT_SIGNAL
  }

  function CLayout(kind: nat): Layout
    requires IsKind(kind)
  {
    if kind == EVENT_OPENAT then C_OPENAT
    else if kind == EVENT_EXIT then C_EXIT
    else if kind == EVENT_CONNECT then C_CONNECT
    else C_SIGNAL
  }

  function GoLayout(kind: nat): Layout
    requires IsKind(kind)
  {
    if kind == EVENT_OPENAT then GO_OPENAT
    else if kind == EVENT_EXIT then GO_EXIT
    else if kind == EVENT_CONNECT then GO_CONNECT
    else GO_SIGNAL
  }

  /** The members of a record in declaration order, as a probe fills them in. */
  function FieldsOf(r: Record, g: Garbage): seq<Value> {
    match r
    case Openat(e) =>
      [Num(EVENT_OPENAT), Num(e.pid), Num(e.tgid), Num(e.timestampNs), Num(e.latencyNs), Num(e.ret),
       Data(e.comm), Data(e.filename)]
    case Connect(e) =>
      [Num(EVENT_CONNECT), Num(e.pid), Num(e.timestamp), Num(e.latency), Num(e.ret), Num(e.family),
       Num(e.dport), Num(e.daddr)]
    case Signal(e) =>
      [Num(EVENT_SIGNAL), Num(e.pid), Num(e.tgid), Num(e.signal), Num(e.timestampNs), Num(e.faultAddr),
       Num(e.siCode), Num(e.stackID), Data(e.comm)]
    case Exit(e) =>
      [Num(EVENT_EXIT), Num(e.pid), Num(e.tgid), Num(e.ppid), Num(e.startTimeNs), Num(e.exitTimeNs),
       Num(e.exitCode), Num(e.signal), Num(e.groupDead), Data(g.pad3), Num(e.sigInfo.faultAddr),
       Num(e.sigInfo.siCode), Data(g.pad4), Data(e.comm)]
  }

  lemma FieldsFit(r: Record, g: Garbage)
    requires GarbageFits(g)
    ensures AllFit(CLayout(KindOf(r)), FieldsOf(r, g))
  {
    Radixes();
    hide Radix;
  }

  /** The bytes a probe submits for a record. */
  function Encode(r: Record, g: Garbage): Bytes
    requires GarbageFits(g)
  {
    FieldsFit(r, g);
    Put(CLayout(KindOf(r)), FieldsOf(r, g))
  }

  /** The members the handlers read, dropping the type field and the padding. */
  function ToOpenat(v: seq<Value>): OpenatEvent
    requires AllFit(GO_OPENAT, v)
  {
    Radixes();
    assert forall i :: 0 <= i < 8 ==> Fits(GO_OPENAT[i], v[i]);
    OpenatEvent(v[1].n, v[2].n, v[3].n, v[4].n, v[5].n, v[6].b, v[7].b)
  }

  function ToConnect(v: seq<Value>): ConnectEvent
    requires AllFit(GO_CONNECT, v)
  {
    Radixes();
    assert forall i :: 0 <= i < 8 ==> Fits(GO_CONNECT[i], v[i]);
    ConnectEvent(v[1].n, v[2].n, v[3].n, v[4].n, v[5].n, v[6].n, v[7].n)
  }

  function ToSignal(v: seq<Value>): SignalEvent
    requires AllFit(GO_SIGNAL, v)
  {
    Radixes();
    assert Fits(GO_SIGNAL[6], v[6]) && Fits(GO_SIGNAL[7], v[7]) && Fits(GO_SIGNAL[8], v[8]);
    SignalEvent(v[1].n, v[2].n, v[3].n, v[4].n, v[5].n, v[6].n, v[7].n, v[8].b)
  }

  function ToExit(v: seq<Value>): ExitEvent
    requires AllFit(GO_EXIT, v)
  {
    Radixes();
    assert Fits(GO_EXIT[6], v[6]) && Fits(GO_EXIT[7], v[7]) && Fits(GO_EXIT[8], v[8]);
    assert Fits(GO_EXIT[10], v[10]) && Fits(GO_EXIT[11], v[11]) && Fits(GO_EXIT[13], v[13]);
    ExitEvent(v[1].n, v[2].n, v[3].n, v[4].n, v[5].n, v[6].n, v[7].n, v[8].n,
              SignalInfo(v[10].n, v[11].n), v[13].b)
  }

  function ToRecord(kind: nat, v: seq<Value>): Record
    requires IsKind(kind) && AllFit(GoLayout(kind), v)
  {
    if kind == EVENT_OPENAT then Record.Openat(ToOpenat(v))
    else if kind == EVENT_EXIT then Record.Exit(ToExit(v))
    else if kind == EVENT_CONNECT then Record.Connect(ToConnect(v))
    else Record.Signal(ToSignal(v))
  }

  /** The type field at the front of a sample. */
  function TypeOf(sample: Bytes): Option<nat> {
    if |sample| < 4 then None else Some(FromBytes(sample[..4]))
  }

  /** The record a sample stands for, if the dispatcher and the handler it selects by the
      type field accept it. */
  function Parse(sample: Bytes): Option<Record> {
    match TypeOf(sample)
    case None => None
    case Some(kind) =>
      if !IsKind(kind) then None
      else
        match Get(GoLayout(kind), sample)
        case None => None
        case Some(v) => Some(ToRecord(kind, v))
  }

  // What each handler reads: None when the sample is too short for its struct.

  function ReadOpenat(data: Bytes): Option<OpenatEvent> {
    var v := Get(GO_OPENAT, data);
    if v.None? then None else Some(ToOpenat(v.value))
  }

  function ReadConnect(data: Bytes): Option<ConnectEvent> {
    var v := Get(GO_CONNECT, data);
    if v.None? then None else Some(ToConnect(v.value))
  }

  function ReadSignal(data: Bytes): Option<SignalEvent> {
    var v := Get(GO_SIGNAL, data);
    if v.None? then None else Some(ToSignal(v.value))
  }

  function ReadExit(data: Bytes): Option<ExitEvent> {
    var v := Get(GO_EXIT, data);
    if v.None? then None else Some(ToExit(v.value))
  }

  lemma ParseOpenat(sample: Bytes)
    requires TypeOf(sample) == Some(EVENT_OPENAT)
    ensures var e := ReadOpenat(sample);
      Parse(sample) == if e.None? then None else Some(Record.Openat(e.value))
  {
    hide Get, Size, TypeOf, ToOpenat;
  }

  lemma ParseConnect(sample: Bytes)
    requires TypeOf(sample) == Some(EVENT_CONNECT)
    ensures var e := ReadConnect(sample);
      Parse(sample) == if e.None? then None else Some(Record.Connect(e.value))
  {
    hide Get, Size, TypeOf, ToConnect;
  }

  lemma ParseSignal(sample: Bytes)
    requires TypeOf(sample) == Some(EVENT_SIGNAL)
    ensures var e := ReadSignal(sample);
      Parse(sample) == if e.None? then None else Some(Record.Signal(e.value))
  {
    hide Get, Size, TypeOf, ToSignal;
  }

  lemma ParseExit(sample: Bytes)
    requires TypeOf(sample) == Some(EVENT_EXIT)
    ensures var e := ReadExit(sample);
      Parse(sample) == if e.None? then None else Some(Record.Exit(e.value))
  {
    hide Get, Size, TypeOf, ToExit;
  }

  lemma TypeFirst(layout: Layout, vs: seq<Value>)
    requires AllFit(layout, vs) && layout != [] && layout[0] == U(4)
    ensures TypeOf(Put(layout, vs)) == Some(vs[0].n)
  {
    FieldRoundTrip(layout[0], vs[0]);
    var b := PutField(layout[0], vs[0]);
    assert Put(layout, vs)[..4] == b;
  }

  lemma FieldsReadBack(r: Record, g: Garbage)
    requires GarbageFits(g) && AllFit(GoLayout(KindOf(r)), FieldsOf(r, g))
    ensures ToRecord(KindOf(r), FieldsOf(r, g)) == r
  {
  }

  /** Every record of every kind, with any field values and any padding garbage, is read
      back exactly by the handler its type field selects. */
  lemma WireRoundTrip(r: Record, g: Garbage)
    requires GarbageFits(g)
    ensures Parse(Encode(r, g)) == Some(r)
  {
    hide AllFit, Put, Get, TypeOf, ToRecord, Size;
    var kind, v := KindOf(r), FieldsOf(r, g);
    FieldsFit(r, g);
    LayoutsMirror(kind);
    TypeFirst(CLayout(kind), v);
    ReadsBack(CLayout(kind), GoLayout(kind), v);
    FieldsReadBack(r, g);
  }

  lemma LayoutsMirror(kind: nat)
    requires IsKind(kind)
    ensures Mirrors(CLayout(kind), GoLayout(kind))
    ensures CLayout(kind)[0] == U(4)
  {
  }

  function WireSize(kind: nat): nat {
    if kind == EVENT_OPENAT then 308
    else if kind == EVENT_CONNECT then 40
    else if kind == EVENT_SIGNAL then 56
    else if kind == EVENT_EXIT then 76
    else 0
  }

  lemma SizeOfOpenat()
    ensures Size(GO_OPENAT) == 308
  {
  }

  lemma SizeOfConnect()
    ensures Size(GO_CONNECT) == 40
  {
  }

  lemma SizeOfSignal()
    ensures Size(GO_SIGNAL) == 56
  {
  }

  lemma SizeOfExit()
    ensures Size(GO_EXIT) == 76
  {
  }

  lemma WireSizes(kind: nat)
    requires IsKind(kind)
    ensures Size(GoLayout(kind)) == WireSize(kind)
  {
    hide Size;
    SizeOfOpenat();
    SizeOfConnect();
    SizeOfSignal();
    SizeOfExit();
  }

  // ----- where each member of an accepted sample stands

  lemma GetHead(layout: Layout, data: Bytes)
    requires layout != [] && Get(layout, data).Some?
    ensures |data| >= layout[0].width && Get(layout[1..], data[layout[0].width..]).Some?
    ensures Get(layout, data).value[0] == GetField(layout[0], data[..layout[0].width])
    ensures Get(layout, data).value[1..] == Get(layout[1..], data[layout[0].width..]).value
  {
  }

  /** The widths of the members before member k. */
  function Offset(layout: Layout, k: nat): nat
    requires k <= |layout|
  {
    if k == 0 then 0 else Offset(layout, k - 1) + layout[k - 1].width
  }

  lemma {:induction false} OffsetFromHead(layout: Layout, k: nat)
    requires 0 < k <= |layout|
    ensures Offset(layout, k) == layout[0].width + Offset(layout[1..], k - 1)
  {
    if k > 1 { OffsetFromHead(layout, k - 1); }
  }

  /** Member k stands behind the members before it. */
  lemma {:induction false} MemberAt(layout: Layout, data: Bytes, k: nat)
    requires k < |layout| && Get(layout, data).Some?
    ensures var at := Offset(layout, k);
      && at + layout[k].width <= |data|
      && Get(layout, data).value[k] == GetField(layout[k], data[at..at + layout[k].width])
    decreases k
  {
    hide Get, GetField;
    GetHead(layout, data);
    var w := layout[0].width;
    if k == 0 {
      assert data[0..w] == data[..w];
    } else {
      MemberAt(layout[1..], data[w..], k - 1);
      OffsetFromHead(layout, k);
      var at := Offset(layout[1..], k - 1);
      assert data[w..][at..at + layout[k].width] == data[w + at..w + at + layout[k].width];
    }
  }

  /** v is the two's complement reading of b: its unsigned value, or that less one turn. */
  predicate IsSigned(v: int, b: Bytes) {
    || (|b| == 4 && -0x8000_0000 <= v < 0x8000_0000 && (v == FromBytes(b) || v == FromBytes(b) - 0x1_0000_0000))
    || (|b| == 8 && -0x8000_0000_0000_0000 <= v < 0x8000_0000_0000_0000
        && (v == FromBytes(b) || v == FromBytes(b) - 0x1_0000_0000_0000_0000))
  }

  lemma SignedAt(f: Field, b: Bytes)
    requires |b| == f.width && (f == S(4) || f == S(8))
    ensures IsSigned(GetField(f, b).n, b)
  {
    Radixes();
  }

  lemma ReadNumber(w: nat, b: Bytes)
    requires |b| == w
    ensures GetField(U(w), b) == Num(FromBytes(b))
  {
  }

  lemma NumberAt(layout: Layout, data: Bytes, k: nat, at: nat, w: nat)
    requires k < |layout| && Get(layout, data).Some? && Offset(layout, k) == at && layout[k] == U(w)
    ensures at + w <= |data| && Get(layout, data).value[k] == Num(FromBytes(data[at..at + w]))
  {
    hide Get, FromBytes, Offset, Size, AllFit, GetField, Fits;
    MemberAt(layout, data, k);
    ReadNumber(w, data[at..at + w]);
  }

  lemma ArrayAt(layout: Layout, data: Bytes, k: nat, at: nat, w: nat)
    requires k < |layout| && Get(layout, data).Some? && Offset(layout, k) == at && layout[k] == Raw(w)
    ensures at + w <= |data| && Get(layout, data).value[k] == Data(data[at..at + w])
  {
    hide Get, FromBytes, Offset, Size, AllFit;
    MemberAt(layout, data, k);
  }

  lemma SignedMemberAt(layout: Layout, data: Bytes, k: nat, at: nat, w: nat)
    requires k < |layout| && Get(layout, data).Some? && Offset(layout, k) == at
    requires layout[k] == S(w) && (w == 4 || w == 8)
    ensures at + w <= |data| && Get(layout, data).value[k].Num?
    ensures IsSigned(Get(layout, data).value[k].n, data[at..at + w])
  {
    hide Get, FromBytes, Offset, Size, AllFit, GetField, IsSigned;
    MemberAt(layout, data, k);
    SignedAt(layout[k], data[at..at + w]);
  }

  lemma TypeIs(sample: Bytes, kind: byte)
    requires |sample| >= 4 && sample[0] == kind && sample[1] == sample[2] == sample[3] == 0
    ensures TypeOf(sample) == Some(kind)
  {
    FourBytes(sample[..4]);
  }

  lemma OpenatOffsets()
    ensures Offset(GO_OPENAT, 0) == 0 && Offset(GO_OPENAT, 1) == 4 && Offset(GO_OPENAT, 2) == 8 && Offset(GO_OPENAT, 3) == 12 && Offset(GO_OPENAT, 4) == 20 && Offset(GO_OPENAT, 5) == 28 && Offset(GO_OPENAT, 6) == 36 && Offset(GO_OPENAT, 7) == 52
  {
    assert Offset(GO_OPENAT, 1) == 4;
    assert Offset(GO_OPENAT, 2) == 8;
    assert Offset(GO_OPENAT, 3) == 12;
    assert Offset(GO_OPENAT, 4) == 20;
    assert Offset(GO_OPENAT, 5) == 28;
    assert Offset(GO_OPENAT, 6) == 36;
    assert Offset(GO_OPENAT, 7) == 52;
  }

  /** A sample of at least 308 bytes that begins with 1, 0, 0, 0 is an openat record, with its members
      at these bytes. */
  lemma OpenatSample(sample: Bytes)
    requires |sample| >= 308 && sample[0] == 1 && sample[1] == sample[2] == sample[3] == 0
    ensures Parse(sample).Some? && Parse(sample).value.Openat?
    ensures var e := Parse(sample).value.openat;
      && e.pid == FromBytes(sample[4..8])
      && e.tgid == FromBytes(sample[8..12])
      && e.timestampNs == FromBytes(sample[12..20])
      && e.latencyNs == FromBytes(sample[20..28])
      && IsSigned(e.ret, sample[28..36])
      && e.comm == sample[36..52]
      && e.filename == sample[52..308]
  {
    hide Get, GetField, FromBytes, IsSigned, AllFit, TypeOf, Parse, Size, Offset;
    TypeIs(sample, 1);
    WireSizes(1);
    ParseOpenat(sample);
    OpenatOffsets();
    NumberAt(GO_OPENAT, sample, 1, 4, 4);
    NumberAt(GO_OPENAT, sample, 2, 8, 4);
    NumberAt(GO_OPENAT, sample, 3, 12, 8);
    NumberAt(GO_OPENAT, sample, 4, 20, 8);
    SignedMemberAt(GO_OPENAT, sample, 5, 28, 8);
    ArrayAt(GO_OPENAT, sample, 6, 36, 16);
    ArrayAt(GO_OPENAT, sample, 7, 52, 256);
  }

  lemma ConnectOffsets()
    ensures Offset(GO_CONNECT, 0) == 0 && Offset(GO_CONNECT, 1) == 4 && Offset(GO_CONNECT, 2) == 8 && Offset(GO_CONNECT, 3) == 16 && Offset(GO_CONNECT, 4) == 24 && Offset(GO_CONNECT, 5) == 32 && Offset(GO_CONNECT, 6) == 34 && Offset(GO_CONNECT, 7) == 36
  {
    assert Offset(GO_CONNECT, 1) == 4;
    assert Offset(GO_CONNECT, 2) == 8;
    assert Offset(GO_CONNECT, 3) == 16;
    assert Offset(GO_CONNECT, 4) == 24;
    assert Offset(GO_CONNECT, 5) == 32;
    assert Offset(GO_CONNECT, 6) == 34;
    assert Offset(GO_CONNECT, 7) == 36;
  }

  /** A sample of at least 40 bytes that begins with 3, 0, 0, 0 is a connect record, with its members
      at these bytes. */
  lemma ConnectSample(sample: Bytes)
    requires |sample| >= 40 && sample[0] == 3 && sample[1] == sample[2] == sample[3] == 0
    ensures Parse(sample).Some? && Parse(sample).value.Connect?
    ensures var e := Parse(sample).value.connect;
      && e.pid == FromBytes(sample[4..8])
      && e.timestamp == FromBytes(sample[8..16])
      && e.latency == FromBytes(sample[16..24])
      && IsSigned(e.ret, sample[24..32])
      && e.family == FromBytes(sample[32..34])
      && e.dport == FromBytes(sample[34..36])
      && e.daddr == FromBytes(sample[36..40])
  {
    hide Get, GetField, FromBytes, IsSigned, AllFit, TypeOf, Parse, Size, Offset;
    TypeIs(sample, 3);
    WireSizes(3);
    ParseConnect(sample);
    ConnectOffsets();
    NumberAt(GO_CONNECT, sample, 1, 4, 4);
    NumberAt(GO_CONNECT, sample, 2, 8, 8);
    NumberAt(GO_CONNECT, sample, 3, 16, 8);
    SignedMemberAt(GO_CONNECT, sample, 4, 24, 8);
    NumberAt(GO_CONNECT, sample, 5, 32, 2);
    NumberAt(GO_CONNECT, sample, 6, 34, 2);
    NumberAt(GO_CONNECT, sample, 7, 36, 4);
  }

  lemma SignalOffsets()
    ensures Offset(GO_SIGNAL, 0) == 0 && Offset(GO_SIGNAL, 1) == 4 && Offset(GO_SIGNAL, 2) == 8 && Offset(GO_SIGNAL, 3) == 12 && Offset(GO_SIGNAL, 4) == 16 && Offset(GO_SIGNAL, 5) == 24 && Offset(GO_SIGNAL, 6) == 32 && Offset(GO_SIGNAL, 7) == 36 && Offset(GO_SIGNAL, 8) == 40
  {
    assert Offset(GO_SIGNAL, 1) == 4;
    assert Offset(GO_SIGNAL, 2) == 8;
    assert Offset(GO_SIGNAL, 3) == 12;
    assert Offset(GO_SIGNAL, 4) == 16;
    assert Offset(GO_SIGNAL, 5) == 24;
    assert Offset(GO_SIGNAL, 6) == 32;
    assert Offset(GO_SIGNAL, 7) == 36;
    assert Offset(GO_SIGNAL, 8) == 40;
  }

  /** A sample of at least 56 bytes that begins with 4, 0, 0, 0 is a signal record, with its members
      at these bytes. */
  lemma SignalSample(sample: Bytes)
    requires |sample| >= 56 && sample[0] == 4 && sample[1] == sample[2] == sample[3] == 0
    ensures Parse(sample).Some? && Parse(sample).value.Signal?
    ensures var e := Parse(sample).value.sig;
      && e.pid == FromBytes(sample[4..8])
      && e.tgid == FromBytes(sample[8..12])
      && e.signal == FromBytes(sample[12..16])
      && e.timestampNs == FromBytes(sample[16..24])
      && e.faultAddr == FromBytes(sample[24..32])
      && IsSigned(e.siCode, sample[32..36])
      && IsSigned(e.stackID, sample[36..40])
      && e.comm == sample[40..56]
  {
    hide Get, GetField, FromBytes, IsSigned, AllFit, TypeOf, Parse, Size, Offset;
    TypeIs(sample, 4);
    WireSizes(4);
    ParseSignal(sample);
    SignalOffsets();
    NumberAt(GO_SIGNAL, sample, 1, 4, 4);
    NumberAt(GO_SIGNAL, sample, 2, 8, 4);
    NumberAt(GO_SIGNAL, sample, 3, 12, 4);
    NumberAt(GO_SIGNAL, sample, 4, 16, 8);
    NumberAt(GO_SIGNAL, sample, 5, 24, 8);
    SignedMemberAt(GO_SIGNAL, sample, 6, 32, 4);
    SignedMemberAt(GO_SIGNAL, sample, 7, 36, 4);
    ArrayAt(GO_SIGNAL, sample, 8, 40, 16);
  }

  lemma ExitOffsets()
    ensures Offset(GO_EXIT, 0) == 0 && Offset(GO_EXIT, 1) == 4 && Offset(GO_EXIT, 2) == 8 && Offset(GO_EXIT, 3) == 12 && Offset(GO_EXIT, 4) == 16 && Offset(GO_EXIT, 5) == 24 && Offset(GO_EXIT, 6) == 32 && Offset(GO_EXIT, 7) == 36 && Offset(GO_EXIT, 8) == 40 && Offset(GO_EXIT, 9) == 41 && Offset(GO_EXIT, 10) == 44 && Offset(GO_EXIT, 11) == 52 && Offset(GO_EXIT, 12) == 56 && Offset(GO_EXIT, 13) == 60
  {
    assert Offset(GO_EXIT, 1) == 4;
    assert Offset(GO_EXIT, 2) == 8;
    assert Offset(GO_EXIT, 3) == 12;
    assert Offset(GO_EXIT, 4) == 16;
    assert Offset(GO_EXIT, 5) == 24;
    assert Offset(GO_EXIT, 6) == 32;
    assert Offset(GO_EXIT, 7) == 36;
    assert Offset(GO_EXIT, 8) == 40;
    assert Offset(GO_EXIT, 9) == 41;
    assert Offset(GO_EXIT, 10) == 44;
    assert Offset(GO_EXIT, 11) == 52;
    assert Offset(GO_EXIT, 12) == 56;
    assert Offset(GO_EXIT, 13) == 60;
  }

  lemma ExitIds(sample: Bytes)
    requires Get(GO_EXIT, sample).Some? && |sample| >= 76
    ensures var v := Get(GO_EXIT, sample).value;
      && v[1] == Num(FromBytes(sample[4..8])) && v[2] == Num(FromBytes(sample[8..12]))
      && v[3] == Num(FromBytes(sample[12..16]))
  {
    hide Get, GetField, FromBytes, IsSigned, AllFit, Size, Offset;
    ExitOffsets();
    NumberAt(GO_EXIT, sample, 1, 4, 4);
    NumberAt(GO_EXIT, sample, 2, 8, 4);
    NumberAt(GO_EXIT, sample, 3, 12, 4);
  }

  lemma ExitTimes(sample: Bytes)
    requires Get(GO_EXIT, sample).Some? && |sample| >= 76
    ensures var v := Get(GO_EXIT, sample).value;
      v[4] == Num(FromBytes(sample[16..24])) && v[5] == Num(FromBytes(sample[24..32]))
  {
    hide Get, GetField, FromBytes, IsSigned, AllFit, Size, Offset;
    ExitOffsets();
    NumberAt(GO_EXIT, sample, 4, 16, 8);
    NumberAt(GO_EXIT, sample, 5, 24, 8);
  }

  lemma ExitStatus(sample: Bytes)
    requires Get(GO_EXIT, sample).Some? && |sample| >= 76
    ensures var v := Get(GO_EXIT, sample).value;
      && v[6].Num? && IsSigned(v[6].n, sample[32..36])
      && v[7].Num? && IsSigned(v[7].n, sample[36..40])
  {
    hide Get, GetField, FromBytes, IsSigned, AllFit, Size, Offset;
    ExitOffsets();
    SignedMemberAt(GO_EXIT, sample, 6, 32, 4);
    SignedMemberAt(GO_EXIT, sample, 7, 36, 4);
  }

  lemma ExitBack(sample: Bytes)
    requires Get(GO_EXIT, sample).Some? && |sample| >= 76
    ensures var v := Get(GO_EXIT, sample).value;
      && v[8] == Num(FromBytes(sample[40..41])) && v[10] == Num(FromBytes(sample[44..52]))
      && v[11].Num? && IsSigned(v[11].n, sample[52..56])
      && v[13] == Data(sample[60..76])
  {
    hide Get, GetField, FromBytes, IsSigned, AllFit, Size, Offset;
    ExitOffsets();
    NumberAt(GO_EXIT, sample, 8, 40, 1);
    NumberAt(GO_EXIT, sample, 10, 44, 8);
    SignedMemberAt(GO_EXIT, sample, 11, 52, 4);
    ArrayAt(GO_EXIT, sample, 13, 60, 16);
  }

  /** A sample of at least 76 bytes that begins with 2, 0, 0, 0 is an exit record, with its members
      at these bytes. */
  lemma ExitSample(sample: Bytes)
    requires |sample| >= 76 && sample[0] == 2 && sample[1] == sample[2] == sample[3] == 0
    ensures Parse(sample).Some? && Parse(sample).value.Exit?
    ensures var e := Parse(sample).value.exit;
      && e.pid == FromBytes(sample[4..8])
      && e.tgid == FromBytes(sample[8..12])
      && e.ppid == FromBytes(sample[12..16])
      && e.startTimeNs == FromBytes(sample[16..24])
      && e.exitTimeNs == FromBytes(sample[24..32])
      && IsSigned(e.exitCode, sample[32..36])
      && IsSigned(e.signal, sample[36..40])
      && e.groupDead == FromBytes(sample[40..41])
      && e.sigInfo.faultAddr == FromBytes(sample[44..52])
      && IsSigned(e.sigInfo.siCode, sample[52..56])
      && e.comm == sample[60..76]
  {
    hide Get, GetField, FromBytes, IsSigned, AllFit, TypeOf, Parse, Size, Offset;
    TypeIs(sample, 2);
    WireSizes(2);
    ParseExit(sample);
    ExitIds(sample);
    ExitTimes(sample);
    ExitStatus(sample);
    ExitBack(sample);
  }

  /** Exactly which samples the consumer ignores: no type field, an unknown type, or too
      short for the struct of its type. */
  lemma IgnoredSamples(sample: Bytes)
    ensures Parse(sample).None? <==>
      || |sample| < 4
      || (var kind := FromBytes(sample[..4]);
          && !(kind == 1 && |sample| >= 308)
          && !(kind == 3 && |sample| >= 40)
          && !(kind == 4 && |sample| >= 56)
          && !(kind == 2 && |sample| >= 76))
  {
    hide Size, Get, ToRecord, AllFit, FromBytes;
    if |sample| >= 4 && IsKind(FromBytes(sample[..4])) { WireSizes(FromBytes(sample[..4])); }
  }
}
