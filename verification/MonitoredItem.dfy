/** One monitored node: its validation, the descriptor of its value signal, and the samples it publishes. */
module MonitoredItem {
  import opened NodeIds
  import opened Options
  import opened Divisibility

  // ---------- types and tables ----------

  /** The kinds of OPC UA values that can be published, and all others. */
  datatype Kind =
    | Float | Double | SByte | Byte | Int16 | UInt16 | Int32 | UInt32 | Int64 | UInt64
    | PlainText | LocalizedText | QualifiedName | DateTime
    | Other(id: nat)

  datatype SampleType = Undefined | Float32 | Float64 | I8 | U8 | I16 | U16 | I32 | U32 | I64 | U64 | Str

  const DATE_TIME := Numeric(0, 13)

  /** The sample type of each data type that is known; None outside the table. */
  function NodeType(dataType: NodeId): Option<SampleType> {
    match dataType
    case Numeric(0, 0) => Some(Undefined)
    case Numeric(0, 10) => Some(Float32)
    case Numeric(0, 11) => Some(Float64)
    case Numeric(0, 2) => Some(I8)
    case Numeric(0, 3) => Some(U8)
    case Numeric(0, 4) => Some(I16)
    case Numeric(0, 5) => Some(U16)
    case Numeric(0, 6) => Some(I32)
    case Numeric(0, 7) => Some(U32)
    case Numeric(0, 8) => Some(I64)
    case Numeric(0, 9) => Some(U64)
    case Numeric(0, 12) => Some(Str)
    case Numeric(0, 21) => Some(Str)
    case Numeric(0, 20) => Some(Str)
    case Numeric(0, 13) => Some(I64)
    case _ => None
  }

  /** The sample type of each kind of value. */
  function KindType(kind: Kind): Option<SampleType> {
    match kind
    case Float => Some(Float32)
    case Double => Some(Float64)
    case SByte => Some(I8)
    case Byte => Some(U8)
    case Int16 => Some(I16)
    case UInt16 => Some(U16)
    case Int32 => Some(I32)
    case UInt32 => Some(U32)
    case Int64 => Some(I64)
    case UInt64 => Some(U64)
    case PlainText => Some(Str)
    case LocalizedText => Some(Str)
    case QualifiedName => Some(Str)
    case DateTime => Some(I64)
    case Other(_) => None
  }

  /** The data type of each kind of value. */
  function KindNode(kind: Kind): Option<NodeId> {
    match kind
    case Float => Some(Numeric(0, 10))
    case Double => Some(Numeric(0, 11))
    case SByte => Some(Numeric(0, 2))
    case Byte => Some(Numeric(0, 3))
    case Int16 => Some(Numeric(0, 4))
    case UInt16 => Some(Numeric(0, 5))
    case Int32 => Some(Numeric(0, 6))
    case UInt32 => Some(Numeric(0, 7))
    case Int64 => Some(Numeric(0, 8))
    case UInt64 => Some(Numeric(0, 9))
    case PlainText => Some(Numeric(0, 12))
    case LocalizedText => Some(Numeric(0, 21))
    case QualifiedName => Some(Numeric(0, 20))
    case DateTime => Some(DATE_TIME)
    case Other(_) => None
  }

  /** The data type of a kind of value: the null id for a kind that is not supported. */
  function TypeOfKind(kind: Kind): NodeId {
    match KindNode(kind)
    case None => NULL_ID
    case Some(id) => id
  }

  /** A time descriptor says in addition that the integers are microseconds of the Unix epoch. */
  datatype Descriptor = Descriptor(sampleType: SampleType, time: bool)

  function DescriptorFor(nodeOk: bool, dataType: NodeId): Descriptor {
    if nodeOk && NodeType(dataType).Some? then Descriptor(NodeType(dataType).value, dataType == DATE_TIME)
    else Descriptor(Undefined, false)
  }

  predicate Supported(kind: Kind) {
    KindType(kind).Some?
  }

  /** The three tables agree: the way over the data type leads to the sample type of the kind, for every kind. */
  lemma TablesAgree(kind: Kind)
    ensures Supported(kind) <==> TypeOfKind(kind) != NULL_ID
    ensures DescriptorFor(true, TypeOfKind(kind)) ==
            Descriptor(if Supported(kind) then KindType(kind).value else Undefined, kind == DateTime)
  {
  }

  // ---------- what a node answers ----------

  datatype Mode = NoTimestamp | ServerTimestamp | SourceTimestamp | LocalTimestamp

  datatype Properties = Properties(textual: bool, text: string, number: int, ns: int, mode: int, interval: int)

  /** The checks of the node: it is a readable variable, or it is not, or a service call threw. */
  datatype Check = Checked(found: bool, variable: bool, readable: bool) | CheckThrew

  predicate Passes(c: Check) {
    c.Checked? && c.found && c.variable && c.readable
  }

  /** The type of a value among those of its kind: the standard one, another of namespace 0, or one of another
      namespace. */
  datatype Origin = Standard | OfNamespace0 | Foreign

  /** A value as it was read; a timestamp counts ticks of 100 ns and is none when it is zero. */
  datatype Value = Value(
    good: bool, present: bool, empty: bool,
    kind: Kind, origin: Origin, scalar: bool,
    server: Option<int>, source: Option<int>)

  datatype ReadResult = Read(value: Value) | ReadThrew

  const EPOCH: int := 116444736000000000
  const TICKS: int := 10

  function UnixMicroseconds(date: int): nat {
    if date == 0 then 0 else Truncated(date - EPOCH, TICKS) % 0x1_0000_0000_0000_0000
  }

  datatype Packet = Packet(descriptor: Descriptor, kind: Kind, stamp: Option<Stamp>)

  /** A timestamp, and the domain signal it was sent on. */
  datatype Stamp = Stamp(signal: nat, time: nat)

  // ---------- the state ----------

  /** The state of an item; `made` counts the domain signals created so far. */
  datatype State = State(
    mode: Mode, nodeId: NodeId, interval: nat,
    configOk: bool, nodeOk: bool, responseOk: bool, valueOk: bool, exceptionOk: bool,
    nodeDataType: NodeId, descriptor: Descriptor, shown: Descriptor,
    domain: Option<nat>, made: nat, last: Option<nat>)

  const DEFAULT_INTERVAL: nat := 100

  function ModeOf(n: int): Mode {
    if n == 0 then NoTimestamp
    else if n == 2 then SourceTimestamp
    else if n == 3 then LocalTimestamp
    else ServerTimestamp
  }

  predicate GoodInterval(n: int) {
    0 < n <= 0xFFFF_FFFF
  }

  predicate NoNode(p: Properties) {
    p.textual && p.text == ""
  }

  /** An empty node id is an error and keeps the node of before. */
  function NodeOf(s: State, p: Properties): NodeId {
    if NoNode(p) then s.nodeId
    else if p.textual then NodeId.Text(p.ns % 0x1_0000, p.text)
    else Numeric(p.ns % 0x1_0000, p.number % 0x1_0000_0000)
  }

  function WithProperties(s: State, p: Properties): State {
    s.(configOk := !NoNode(p) && GoodInterval(p.interval), nodeId := NodeOf(s, p), mode := ModeOf(p.mode),
       interval := if GoodInterval(p.interval) then p.interval else DEFAULT_INTERVAL)
  }

  function Adjusted(s: State): State {
    s.(descriptor := DescriptorFor(s.nodeOk, s.nodeDataType))
  }

  /** The domain signal is there exactly when a timestamp is wanted; one that is created starts afresh. */
  function WithDomain(s: State): State {
    if s.mode == NoTimestamp then s.(domain := None)
    else if s.domain.None? then s.(domain := Some(s.made), made := s.made + 1, last := None)
    else s
  }

  function Constructed(p: Properties, check: Check): State {
    var blank := State(NoTimestamp, NULL_ID, DEFAULT_INTERVAL, true, true, true, true, true, NULL_ID,
                       Descriptor(Undefined, false), Descriptor(Undefined, false), None, 0, None);
    var s := Adjusted(WithProperties(blank, p).(nodeOk := Passes(check)));
    WithDomain(s.(shown := s.descriptor))
  }

  function PropertiesChanged(s: State, p: Properties, check: Check): State {
    var reset := s.(configOk := true, nodeOk := true, responseOk := true, valueOk := true, exceptionOk := true);
    var t := WithDomain(Adjusted(WithProperties(reset, p).(nodeOk := Passes(check))));
    t.(shown := t.descriptor)
  }

  function Restored(s: State, check: Check): State {
    var t := Adjusted(s.(responseOk := true, valueOk := true, exceptionOk := true, nodeOk := Passes(check)));
    t.(shown := t.descriptor)
  }

  predicate HasTime(date: Option<int>) {
    date.Some? && date.value != 0
  }

  /** The response is good, holds a value, and has the timestamp that is wanted. */
  predicate ValidResponse(mode: Mode, v: Value) {
    && v.good && v.present && !v.empty
    && (mode == ServerTimestamp ==> HasTime(v.server))
    && (mode == SourceTimestamp ==> HasTime(v.source))
  }

  /** The item follows the type of the value it got. */
  function WithValueType(s: State, kind: Kind): State {
    var t := if s.nodeDataType == TypeOfKind(kind) then s
             else
               var u := Adjusted(s.(nodeDataType := TypeOfKind(kind)));
               u.(shown := u.descriptor);
    t.(valueOk := Supported(kind))
  }

  function DomainTime(s: State, v: Value, now: nat): Option<nat> {
    if s.domain.None? then None
    else
      match s.mode
      case NoTimestamp => None
      case ServerTimestamp => if v.server.Some? then Some(UnixMicroseconds(v.server.value)) else None
      case SourceTimestamp => if v.source.Some? then Some(UnixMicroseconds(v.source.value)) else None
      case LocalTimestamp => Some(now)
  }

  /** A timestamp that a response must have is never missed: once the response is valid, there is one exactly when the
      mode wants one, and it names the microsecond in which the wanted one lies. */
  lemma TimestampIffWanted(s: State, v: Value, now: nat)
    requires Coherent(s) && ValidResponse(s.mode, v)
    ensures DomainTime(s, v, now).Some? <==> s.mode != NoTimestamp
    ensures s.mode == ServerTimestamp && InRange(v.server.value) ==>
              0 <= v.server.value - (EPOCH + DomainTime(s, v, now).value * TICKS) < TICKS
    ensures s.mode == SourceTimestamp && InRange(v.source.value) ==>
              0 <= v.source.value - (EPOCH + DomainTime(s, v, now).value * TICKS) < TICKS
  {
    hide DescriptorFor;
  }

  /** Dates from the Unix epoch on; those before it wrap round in 64 bits. */
  predicate InRange(date: int) {
    0 <= date - EPOCH < TICKS * 0x1_0000_0000_0000_0000
  }

  predicate IsNew(s: State, time: Option<nat>) {
    time.None? || s.last != time
  }

  predicate IsText(kind: Kind) {
    kind == PlainText || kind == LocalizedText || kind == QualifiedName
  }

  predicate IsReal(kind: Kind) {
    kind == Float || kind == Double
  }

  predicate IsInteger(kind: Kind) {
    Supported(kind) && !IsText(kind) && !IsReal(kind) && kind != DateTime
  }

  function StampOf(s: State, time: Option<nat>): Option<Stamp> {
    if time.Some? && s.domain.Some? then Some(Stamp(s.domain.value, time.value)) else None
  }

  /** A packet can be built of a scalar of the standard type of its kind, and of a point in time of any type. */
  predicate Publishable(v: Value) {
    v.scalar && (v.origin == Standard || v.kind == DateTime)
  }

  /** Reading a number throws if it is no scalar of the standard type; integers of other namespaces are not even
      read. */
  predicate ReadingThrows(v: Value) {
    !Publishable(v) && (IsReal(v.kind) || (IsInteger(v.kind) && v.origin != Foreign))
  }

  /** Publishing: what can be read is sent, and what cannot is an error of the read or of the value. */
  function Published(s: State, v: Value, time: Option<nat>): (State, Option<Packet>) {
    if Publishable(v) then (s.(last := time), Some(Packet(s.descriptor, v.kind, StampOf(s, time))))
    else if ReadingThrows(v) then (s.(exceptionOk := false), None)
    else (s.(valueOk := false), None)
  }

  function Sampled(s: State, read: ReadResult, now: nat): (State, Option<Packet>) {
    if !s.configOk || !s.nodeOk then (s, None)
    else if read.ReadThrew? then (s.(exceptionOk := false), None)
    else
      var v := read.value;
      var t := s.(exceptionOk := true, responseOk := ValidResponse(s.mode, v));
      if !ValidResponse(s.mode, v) then (t, None)
      else
        var u := WithValueType(t, v.kind);
        if !Supported(v.kind) || !IsNew(u, DomainTime(u, v, now)) then (u, None)
        else Published(u, v, DomainTime(u, v, now))
  }

  // ---------- whole runs ----------

  datatype Op =
    | Sample(read: ReadResult, now: nat)
    | Change(properties: Properties, check: Check)
    | Reconnect(check: Check)

  function Step(s: State, op: Op): (State, Option<Packet>) {
    match op
    case Sample(read, now) => Sampled(s, read, now)
    case Change(p, check) => (PropertiesChanged(s, p, check), None)
    case Reconnect(check) => (Restored(s, check), None)
  }

  function Sent(packets: seq<Packet>, p: Option<Packet>): seq<Packet> {
    if p.None? then packets else packets + [p.value]
  }

  /** The state and the packets after a run. */
  function Run(s: State, packets: seq<Packet>, ops: seq<Op>): (State, seq<Packet>)
    decreases |ops|
  {
    if ops == [] then (s, packets)
    else
      var (t, p) := Step(s, ops[0]);
      Run(t, Sent(packets, p), ops[1..])
  }

  function TimeOn(p: Packet, signal: nat): seq<nat> {
    if p.stamp.Some? && p.stamp.value.signal == signal then [p.stamp.value.time] else []
  }

  /** The timestamps sent on one domain signal, in order. */
  function Times(packets: seq<Packet>, signal: nat): seq<nat> {
    if packets == [] then []
    else Times(packets[..|packets| - 1], signal) + TimeOn(packets[|packets| - 1], signal)
  }

  /** What the state is between any two operations. */
  predicate Coherent(s: State) {
    && s.descriptor == s.shown == DescriptorFor(s.nodeOk, s.nodeDataType)
    && (s.domain.Some? <==> s.mode != NoTimestamp)
    && (s.domain.Some? ==> s.domain.value < s.made)
  }

  /** The last timestamp is the last one sent on the present domain signal, and later signals have sent none. */
  ghost predicate Remembers(s: State, packets: seq<Packet>) {
    && (forall g: nat :: g >= s.made ==> Times(packets, g) == [])
    && (s.domain.Some? ==>
          var times := Times(packets, s.domain.value);
          s.last == if times == [] then None else Some(times[|times| - 1]))
  }

  predicate NoRepeats(times: seq<nat>) {
    forall k :: 0 < k < |times| ==> times[k - 1] != times[k]
  }

  /** A packet carries the sample type of its value's kind, and a timestamp exactly if the mode has one. */
  predicate WellTyped(p: Packet) {
    Supported(p.kind) && p.descriptor == Descriptor(KindType(p.kind).value, p.kind == DateTime)
  }

  ghost predicate Inv(s: State, packets: seq<Packet>) {
    && Coherent(s) && Remembers(s, packets)
    && (forall k :: 0 <= k < |packets| ==> WellTyped(packets[k]))
    && (forall g :: NoRepeats(Times(packets, g)))
  }

  lemma ConstructedHolds(p: Properties, check: Check)
    ensures Inv(Constructed(p, check), [])
  {
  }

  lemma TimesOfSent(packets: seq<Packet>, p: Packet, signal: nat)
    ensures Times(packets + [p], signal) == Times(packets, signal) +
                                            TimeOn(p, signal)
  {
    assert (packets + [p])[..|packets|] == packets;
  }

  /** What one sample does: it keeps the state coherent, and a packet it sends is stamped exactly if the mode wants it,
      on the present signal, with a time that differs from the last and is the last afterwards. */
  lemma SampleFacts(s: State, read: ReadResult, now: nat)
    requires Coherent(s)
    ensures var (t, p) := Sampled(s, read, now);
            && Coherent(t) && t.mode == s.mode && t.domain == s.domain && t.made == s.made
            && (p.None? ==> t.last == s.last)
            && (p.Some? ==>
                  && s.configOk && s.nodeOk && WellTyped(p.value)
                  && (p.value.stamp.Some? <==> s.mode != NoTimestamp)
                  && (p.value.stamp.Some? ==> p.value.stamp.value.signal == s.domain.value)
                  && (p.value.stamp.Some? ==> s.last != Some(p.value.stamp.value.time))
                  && (p.value.stamp.Some? ==> t.last == Some(p.value.stamp.value.time)))
  {
    hide DescriptorFor, UnixMicroseconds, TypeOfKind, Supported;
    if read.Read? {
      TablesAgree(read.value.kind);
      TypeFollowed(s.(exceptionOk := true, responseOk := true), read.value.kind);
    }
  }

  lemma TypeFollowed(s: State, kind: Kind)
    requires Coherent(s)
    ensures var t := WithValueType(s, kind);
            && Coherent(t) && t.nodeDataType == TypeOfKind(kind)
            && t == s.(nodeDataType := t.nodeDataType, descriptor := t.descriptor, shown := t.shown,
              valueOk := t.valueOk)
  {
    hide DescriptorFor, TypeOfKind;
  }

  lemma SampleKeepsInv(s: State, packets: seq<Packet>, read: ReadResult, now: nat)
    requires Inv(s, packets)
    ensures Inv(Sampled(s, read, now).0, Sent(packets, Sampled(s, read, now).1))
  {
    hide Sampled, Coherent, WellTyped;
    SampleFacts(s, read, now);
    CoherentDomain(s);
    var p := Sampled(s, read, now).1;
    if p.Some? {
      forall g: nat
        ensures Times(packets + [p.value], g) == Times(packets, g) +
                                                 TimeOn(p.value, g)
      {
        TimesOfSent(packets, p.value, g);
      }
    }
  }

  lemma CoherentDomain(s: State)
    requires Coherent(s)
    ensures s.domain.Some? <==> s.mode != NoTimestamp
    ensures s.domain.Some? ==> s.domain.value < s.made
  {
  }

  lemma ChangeKeepsInv(s: State, packets: seq<Packet>, p: Properties, check: Check)
    requires Inv(s, packets)
    ensures Inv(PropertiesChanged(s, p, check), packets)
  {
    hide DescriptorFor, Times, WellTyped, ModeOf, NodeOf, GoodInterval;
  }

  lemma {:induction false} RunKeepsInv(s: State, packets: seq<Packet>, ops: seq<Op>)
    requires Inv(s, packets)
    ensures Inv(Run(s, packets, ops).0, Run(s, packets, ops).1)
    decreases |ops|
  {
    hide Inv, Sampled, PropertiesChanged, Restored;
    if ops != [] {
      var (t, p) := Step(s, ops[0]);
      match ops[0] {
        case Sample(read, now) => SampleKeepsInv(s, packets, read, now);
        case Change(properties, check) => ChangeKeepsInv(s, packets, properties, check);
        case Reconnect(check) => ReconnectKeepsInv(s, packets, check);
      }
      RunKeepsInv(t, Sent(packets, p), ops[1..]);
    }
  }

  lemma ReconnectKeepsInv(s: State, packets: seq<Packet>, check: Check)
    requires Inv(s, packets)
    ensures Inv(Restored(s, check), packets)
  {
    hide DescriptorFor, Times, WellTyped;
  }

  /** In every run, from the construction on: the descriptor is the one for the node's data type, every packet has the
      sample type of its value's kind, and no domain signal carries the same timestamp twice in a row. */
  lemma EveryRun(p: Properties, check: Check, ops: seq<Op>, signal: nat)
    ensures var (s, packets) := Run(Constructed(p, check), [], ops);
            && Coherent(s)
            && (forall k :: 0 <= k < |packets| ==> WellTyped(packets[k]))
            && NoRepeats(Times(packets, signal))
  {
    hide Coherent, WellTyped, NoRepeats, Constructed;
    ConstructedHolds(p, check);
    RunKeepsInv(Constructed(p, check), [], ops);
  }

  /** In every run a sample is published only on a valid node, with a timestamp exactly if the mode wants one, and on
      the domain signal of that moment. */
  lemma EverySample(p: Properties, check: Check, ops: seq<Op>, read: ReadResult, now: nat)
    ensures var s := Run(Constructed(p, check), [], ops).0;
            var packet := Sampled(s, read, now).1;
            packet.Some? ==>
              && s.configOk && s.nodeOk
              && (packet.value.stamp.Some? <==> s.mode != NoTimestamp)
              && (packet.value.stamp.Some? ==> s.domain == Some(packet.value.stamp.value.signal))
  {
    hide Constructed, Sampled;
    ConstructedHolds(p, check);
    RunKeepsInv(Constructed(p, check), [], ops);
    SampleFacts(Run(Constructed(p, check), [], ops).0, read, now);
  }

  /** When a coherent item publishes: exactly when it is configured on a valid node and the response is a valid scalar
      of a supported kind and its standard type, with a timestamp other than the last one if there is to be one. */
  lemma PublishesIff(s: State, read: ReadResult, now: nat)
    requires Coherent(s)
    ensures Sampled(s, read, now).1.Some? <==>
            && s.configOk && s.nodeOk && read.Read?
            && ValidResponse(s.mode, read.value) && Supported(read.value.kind) && Publishable(read.value)
            && (s.mode == NoTimestamp || s.last != DomainTime(s, read.value, now))
  {
    hide DescriptorFor, UnixMicroseconds, TypeOfKind, Supported;
    if read.Read? {
      TypeFollowed(s.(exceptionOk := true, responseOk := true), read.value.kind);
    }
  }

  /** An unchanged node is not published again: the same response read twice sends at most one packet, when the server's
      timestamps are used. */
  lemma UnchangedIsDropped(s: State, read: ReadResult, now: nat, later: nat)
    requires Coherent(s) && (s.mode == ServerTimestamp || s.mode == SourceTimestamp)
    requires Sampled(s, read, now).1.Some?
    ensures Sampled(Sampled(s, read, now).0, read, later).1.None?
  {
    hide Sampled, Coherent, ValidResponse, Supported, UnixMicroseconds;
    SampleFacts(s, read, now);
    PublishesIff(s, read, now);
    PublishesIff(Sampled(s, read, now).0, read, later);
    PublishedTime(s, read, now);
  }

  lemma PublishedTime(s: State, read: ReadResult, now: nat)
    requires Coherent(s) && Sampled(s, read, now).1.Some?
    ensures read.Read? && Sampled(s, read, now).0.last == DomainTime(s, read.value, now)
  {
    hide DescriptorFor, UnixMicroseconds, TypeOfKind, Supported, ValidResponse;
    if read.Read? {
      TypeFollowed(s.(exceptionOk := true, responseOk := ValidResponse(s.mode, read.value)), read.value.kind);
    }
  }

  // ---------- the object ----------

  class Item {
    var mode: Mode
    var nodeId: NodeId
    var interval: nat
    var configOk: bool
    var nodeOk: bool
    var responseOk: bool
    var valueOk: bool
    var exceptionOk: bool
    var nodeDataType: NodeId
    var descriptor: Descriptor
    var shown: Descriptor
    var domain: Option<nat>
    var made: nat
    var last: Option<nat>

    ghost function View(): State
      reads this
    {
      State(mode, nodeId, interval, configOk, nodeOk, responseOk, valueOk, exceptionOk,
            nodeDataType, descriptor, shown, domain, made, last)
    }

    constructor (p: Properties, check: Check)
      ensures View() == Constructed(p, check)
    {
      hide DescriptorFor, NodeOf, ModeOf, Passes;
      mode, nodeId, interval := NoTimestamp, NULL_ID, DEFAULT_INTERVAL;
      configOk, nodeOk, responseOk, valueOk, exceptionOk := true, true, true, true, true;
      nodeDataType, descriptor, shown := NULL_ID, Descriptor(Undefined, false), Descriptor(Undefined, false);
      domain, made, last := None, 0, None;
      new;
      ReadProperties(p);
      ValidateNode(check);
      AdjustSignalDescriptor();
      shown := descriptor;
      if mode != NoTimestamp {
        CreateDomainSignal();
      }
    }

    method ReadProperties(p: Properties)
      modifies this
      ensures View() == WithProperties(old(View()), p)
    {
      configOk := true;
      if p.textual {
        if p.text == "" {
          configOk := false;
        } else {
          nodeId := NodeId.Text(p.ns % 0x1_0000, p.text);
        }
      } else {
        nodeId := Numeric(p.ns % 0x1_0000, p.number % 0x1_0000_0000);
      }
      mode := ModeOf(p.mode);
      if p.interval <= 0 || p.interval > 0xFFFF_FFFF {
        configOk := false;
        interval := DEFAULT_INTERVAL;
      } else {
        interval := p.interval;
      }
    }

    method ValidateNode(check: Check)
      modifies this`nodeOk
      ensures View() == old(View()).(nodeOk := Passes(check))
    {
      nodeOk := true;
      match check
      case CheckThrew =>
        nodeOk := false;
      case Checked(found, variable, readable) =>
        if !found || !variable || !readable {
          nodeOk := false;
        }
    }

    method AdjustSignalDescriptor()
      modifies this`descriptor
      ensures View() == Adjusted(old(View()))
    {
      descriptor := DescriptorFor(nodeOk, nodeDataType);
    }

    method CreateDomainSignal()
      modifies this`domain, this`made
      ensures domain == Some(old(made)) && made == old(made) + 1
    {
      domain, made := Some(made), made + 1;
    }

    method ShowDescriptor()
      modifies this`shown
      ensures View() == old(View()).(shown := old(descriptor))
    {
      if shown != descriptor {
        shown := descriptor;
      }
    }

    method ReconfigureDomain()
      modifies this`domain, this`made, this`last
      ensures View() == WithDomain(old(View()))
    {
      if mode == NoTimestamp {
        domain := None;
      } else if domain.None? {
        CreateDomainSignal();
        last := None;
      }
    }

    method ReconfigureSignal()
      modifies this`domain, this`made, this`last, this`shown
      ensures View() == WithDomain(old(View())).(shown := old(descriptor))
    {
      hide DescriptorFor;
      ReconfigureDomain();
      ShowDescriptor();
    }

    method ResetStatuses()
      modifies this`configOk, this`nodeOk, this`responseOk, this`valueOk, this`exceptionOk
      ensures View() ==
              old(View()).(configOk := true, nodeOk := true, responseOk := true, valueOk := true, exceptionOk := true)
    {
      configOk, nodeOk, responseOk, valueOk, exceptionOk := true, true, true, true, true;
    }

    method PropertyChanged(p: Properties, check: Check)
      modifies this
      ensures View() == PropertiesChanged(old(View()), p, check)
    {
      hide DescriptorFor, NodeOf, ModeOf, Passes, WithDomain, WithProperties;
      ResetStatuses();
      ReadProperties(p);
      ValidateNode(check);
      AdjustSignalDescriptor();
      ReconfigureSignal();
    }

    method OnConnectionRestored(check: Check)
      modifies this
      ensures View() == Restored(old(View()), check)
    {
      hide DescriptorFor, Passes;
      responseOk, valueOk, exceptionOk := true, true, true;
      ValidateNode(check);
      AdjustSignalDescriptor();
      ShowDescriptor();
    }

    method ValidateResponse(v: Value) returns (ok: bool)
      modifies this`responseOk
      ensures ok == responseOk == ValidResponse(mode, v)
    {
      responseOk := false;
      if !v.good || !v.present || v.empty {
        return false;
      }
      if mode == ServerTimestamp && (v.server.None? || v.server.value == 0) {
        return false;
      }
      if mode == SourceTimestamp && (v.source.None? || v.source.value == 0) {
        return false;
      }
      responseOk := true;
      ok := true;
    }

    method ValidateValueDataType(kind: Kind) returns (ok: bool)
      modifies this`nodeDataType, this`descriptor, this`shown, this`valueOk
      ensures View() == WithValueType(old(View()), kind) && ok == Supported(kind)
    {
      hide DescriptorFor, Supported;
      var dataType := TypeOfKind(kind);
      if dataType != nodeDataType {
        nodeDataType := dataType;
        AdjustSignalDescriptor();
        shown := descriptor;
      }
      ok := Supported(kind);
      valueOk := ok;
    }

    /** Builds and sends the packet of a value, or says why it cannot. */
    method Publish(v: Value, time: Option<nat>) returns (packet: Option<Packet>)
      requires Supported(v.kind)
      modifies this`last, this`exceptionOk, this`valueOk
      ensures (View(), packet) == Published(old(View()), v, time)
    {
      hide KindType;
      packet := None;
      var built := false;
      if IsText(v.kind) && v.scalar && v.origin == Standard {
        built := true;
      } else if (IsInteger(v.kind) && v.origin != Foreign) || IsReal(v.kind) || (v.kind == DateTime && v.scalar) {
        if v.kind != DateTime && (!v.scalar || v.origin != Standard) {
          exceptionOk := false;
          return;
        }
        built := true;
      }
      if !built {
        valueOk := false;
        return;
      }
      var stamp := if time.Some? && domain.Some? then Some(Stamp(domain.value, time.value)) else None;
      packet := Some(Packet(descriptor, v.kind, stamp));
      last := time;
    }

    /** In a coherent item, after a valid response, there is a timestamp exactly when the mode wants one. */
    function ResolveDomainTimestamp(v: Value, now: nat): (time: Option<nat>)
      reads this
      ensures time == DomainTime(View(), v, now)
      ensures Coherent(View()) && ValidResponse(mode, v) ==> (time.Some? <==> mode != NoTimestamp)
    {
      if domain.None? then None
      else if mode == ServerTimestamp && v.server.Some? then Some(UnixMicroseconds(v.server.value))
      else if mode == SourceTimestamp && v.source.Some? then Some(UnixMicroseconds(v.source.value))
      else if mode == LocalTimestamp then Some(now)
      else None
    }

    method ProcessSample(read: ReadResult, now: nat) returns (packet: Option<Packet>)
      modifies this
      ensures (View(), packet) == Sampled(old(View()), read, now)
    {
      hide DescriptorFor, Supported, ValidResponse, Published, DomainTime, WithValueType;
      packet := None;
      if !configOk || !nodeOk {
        return;
      }
      if read.ReadThrew? {
        exceptionOk := false;
        return;
      }
      exceptionOk := true;
      var ok := ValidateResponse(read.value);
      if ok {
        ok := ValidateValueDataType(read.value.kind);
      }
      if ok {
        var time := ResolveDomainTimestamp(read.value, now);
        if time.None? || last != time {
          packet := Publish(read.value, time);
        }
      }
    }
  }
}
