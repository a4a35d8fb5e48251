/** What the tables, properties and steps of a monitored item mean, in the terms of the protocol and of the
    properties. */
module MonitoredItemLaws {
  import opened NodeIds
  import opened Options
  import opened Divisibility
  import opened MonitoredItem

  // ---------- the tables ----------

  /** The built-in types in the order in which section 5.1.2 of OPC 10000-6 numbers them, from 1 on; Boolean is the
      first. */
  const BUILT_IN: seq<Kind> := [
    Other(0), SByte, Byte, Int16, UInt16, Int32, UInt32, Int64, UInt64, Float, Double, PlainText, DateTime]

  /** The data type of a built-in kind is its number; two later text types follow. */
  lemma DataTypesAreNumbered(i: nat)
    requires 0 < i < |BUILT_IN|
    ensures TypeOfKind(BUILT_IN[i]) == Numeric(0, i + 1)
    ensures TypeOfKind(QualifiedName) == Numeric(0, 20) && TypeOfKind(LocalizedText) == Numeric(0, 21)
    ensures TypeOfKind(BUILT_IN[0]) == NULL_ID
  {
  }

  /** How a number is encoded: its width in bits, whether it has a sign, and whether it is a floating-point number. */
  datatype Format = Format(bits: nat, signed: bool, floating: bool)

  function FormatOf(kind: Kind): Option<Format> {
    match kind
    case SByte => Some(Format(8, true, false))
    case Byte => Some(Format(8, false, false))
    case Int16 => Some(Format(16, true, false))
    case UInt16 => Some(Format(16, false, false))
    case Int32 => Some(Format(32, true, false))
    case UInt32 => Some(Format(32, false, false))
    case Int64 => Some(Format(64, true, false))
    case UInt64 => Some(Format(64, false, false))
    case DateTime => Some(Format(64, true, false))
    case Float => Some(Format(32, true, true))
    case Double => Some(Format(64, true, true))
    case _ => None
  }

  function FormatOfSample(t: SampleType): Option<Format> {
    match t
    case I8 => Some(Format(8, true, false))
    case U8 => Some(Format(8, false, false))
    case I16 => Some(Format(16, true, false))
    case U16 => Some(Format(16, false, false))
    case I32 => Some(Format(32, true, false))
    case U32 => Some(Format(32, false, false))
    case I64 => Some(Format(64, true, false))
    case U64 => Some(Format(64, false, false))
    case Float32 => Some(Format(32, true, true))
    case Float64 => Some(Format(64, true, true))
    case _ => None
  }

  /** Samples have the format of the values: no width and no sign is lost, and texts go as strings. */
  lemma SamplesKeepFormat(kind: Kind)
    requires Supported(kind)
    ensures FormatOfSample(DescriptorFor(true, TypeOfKind(kind)).sampleType) == FormatOf(kind)
    ensures DescriptorFor(true, TypeOfKind(kind)).sampleType == Str <==>
            kind == PlainText || kind == LocalizedText || kind == QualifiedName
    ensures DescriptorFor(true, TypeOfKind(kind)).time <==> kind == DateTime
  {
  }

  /** What is supported: numbers, points in time and texts. */
  lemma SupportedIff(kind: Kind)
    ensures Supported(kind) <==> !kind.Other?
  {
  }

  /** An invalid node, and one whose last value has no supported type, shows the undefined descriptor. */
  lemma UndefinedWhenInvalid(p: Properties, check: Check, ops: seq<Op>)
    ensures var s := Run(Constructed(p, check), [], ops).0;
            && (!s.nodeOk ==> s.shown == Descriptor(Undefined, false))
            && (s.nodeDataType == NULL_ID ==> s.shown == Descriptor(Undefined, false))
  {
    hide Constructed;
    EveryRun(p, check, ops, 0);
  }

  // ---------- time ----------

  /** The epoch is that of Unix, in ticks of 100 ns since the year 1601: 369 years with 89 leap days later. */
  lemma EpochIs()
    ensures EPOCH == (369 * 365 + 89) * 24 * 60 * 60 * 10_000_000
  {
  }

  /** Dates as unsigned microseconds of that epoch: those before it count back from 2 to the power of 64. */
  lemma MicrosecondsAre(date: int, after: nat)
    requires after < 0x1_0000_0000_0000_0000
    ensures date == EPOCH + 10 * after ==> UnixMicroseconds(date) == after
    ensures date == EPOCH - 10 * after && date != 0 && after > 0 ==>
              UnixMicroseconds(date) == 0x1_0000_0000_0000_0000 - after
    ensures UnixMicroseconds(0) == 0
  {
    if date == EPOCH - 10 * after && date != 0 && after > 0 {
      DivModUnique(10 * after, 10, after, 0);
      assert Truncated(date - EPOCH, TICKS) + after == 0;
      DivModUnique(0 - after as int, 0x1_0000_0000_0000_0000, -1, 0x1_0000_0000_0000_0000 - after);
    }
  }

  const MODES: seq<Mode> := [NoTimestamp, ServerTimestamp, SourceTimestamp, LocalTimestamp]

  /** The timestamp modes are the places of the property's selection list; any other number means the server's. */
  lemma ModeIsPlace(n: int)
    ensures 0 <= n < |MODES| ==> ModeOf(n) == MODES[n]
    ensures !(0 <= n < |MODES|) ==> ModeOf(n) == ServerTimestamp
  {
  }

  /** With the local clock every packet is stamped with the reading of the clock, and a sample that can be published is
      published exactly when the clock has moved on since the last. */
  lemma LocalClockStamps(s: State, read: ReadResult, now: nat)
    requires Coherent(s) && s.mode == LocalTimestamp
    ensures var packet := Sampled(s, read, now).1;
            && (packet.Some? ==> packet.value.stamp == Some(Stamp(s.domain.value, now)))
            && (packet.Some? ==> Sampled(s, read, now).0.last == Some(now))
            && (packet.Some? <==>
                  && s.configOk && s.nodeOk && read.Read?
                  && read.value.good && read.value.present && !read.value.empty && !read.value.kind.Other?
                  && Readable(read.value) && s.last != Some(now))
  {
    hide DescriptorFor, UnixMicroseconds, TypeOfKind, KindType;
    if read.Read? {
      SupportedIff(read.value.kind);
      TypeFollowed(s.(exceptionOk := true, responseOk := ValidResponse(s.mode, read.value)), read.value.kind);
    }
  }

  /** A scalar of the standard type of its kind, or a scalar point in time of any type. */
  predicate Readable(v: Value) {
    v.scalar && (v.kind == DateTime || v.origin == Standard)
  }

  /** A packet with the server's or the source's timestamp names the microsecond of that timestamp, for dates since
      1970. */
  lemma GivenTimeStamps(s: State, read: ReadResult, now: nat)
    requires Coherent(s) && (s.mode == ServerTimestamp || s.mode == SourceTimestamp)
    ensures Sampled(s, read, now).1.Some? ==>
              && read.Read?
              && var date := if s.mode == ServerTimestamp then read.value.server else read.value.source;
              && date.Some? && date.value != 0
              && var stamp := Sampled(s, read, now).1.value.stamp;
              && stamp.Some? && stamp.value.signal == s.domain.value
              && (0 <= date.value - EPOCH < 10 * 0x1_0000_0000_0000_0000 ==>
                    0 <= date.value - EPOCH - stamp.value.time * 10 < 10)
  {
    hide DescriptorFor, TypeOfKind, KindType;
    if read.Read? {
      TypeFollowed(s.(exceptionOk := true, responseOk := ValidResponse(s.mode, read.value)), read.value.kind);
    }
  }

  // ---------- samples ----------

  /** Whatever is published was read well: it was good, there, not empty, readable, and every status is in order. */
  lemma PublishedIsWellRead(s: State, read: ReadResult, now: nat)
    requires Coherent(s)
    ensures Sampled(s, read, now).1.Some? ==>
              && read.Read? && read.value.good && read.value.present && !read.value.empty && Readable(read.value)
              && var t := Sampled(s, read, now).0;
              && t.configOk && t.nodeOk && t.responseOk && t.valueOk && t.exceptionOk
              && Sampled(s, read, now).1.value.kind == read.value.kind
  {
    hide DescriptorFor, UnixMicroseconds, TypeOfKind, KindType;
  }

  /** What each kind of trouble leaves in the statuses. */
  lemma TroubleShows(s: State, read: ReadResult, now: nat)
    requires Coherent(s)
    ensures var t := Sampled(s, read, now).0;
            && (!s.configOk || !s.nodeOk ==> t == s)
            && (s.configOk && s.nodeOk && read.ReadThrew? ==> t == s.(exceptionOk := false))
            && (s.configOk && s.nodeOk && read.Read? && !Complete(s.mode, read.value) ==>
                  t == s.(exceptionOk := true, responseOk := false))
            && (s.configOk && s.nodeOk && read.Read? && Complete(s.mode, read.value) ==>
                  && t.responseOk && (read.value.kind.Other? ==> !t.valueOk && t.exceptionOk && t.last == s.last)
                  && t.nodeDataType == TypeOfKind(read.value.kind) && t.shown == DescriptorFor(true, t.nodeDataType))
  {
    hide DescriptorFor, UnixMicroseconds, TypeOfKind, KindType;
    if read.Read? {
      SupportedIff(read.value.kind);
      TypeFollowed(s.(exceptionOk := true, responseOk := true), read.value.kind);
    }
  }

  /** The response is good, has a value that is not empty, and the timestamp of the mode, which is not zero. */
  predicate Complete(mode: Mode, v: Value) {
    && v.good && v.present && !v.empty
    && (mode == ServerTimestamp ==> v.server.Some? && v.server.value != 0)
    && (mode == SourceTimestamp ==> v.source.Some? && v.source.value != 0)
  }

  /** Of a supported value that cannot be read, when its timestamp is new: a number makes the read throw, unless it is
      an integer of a type of another namespace; that, a text and a point in time only make the value an error. */
  lemma UnreadableShows(s: State, read: ReadResult, now: nat)
    requires Coherent(s) && s.configOk && s.nodeOk && read.Read? && Complete(s.mode, read.value)
    requires !read.value.kind.Other? && !Readable(read.value) && IsNew(s, DomainTime(s, read.value, now))
    ensures var v, t := read.value, Sampled(s, read, now).0;
            var floating := v.kind == Float || v.kind == Double;
            var integer := FormatOf(v.kind).Some? && !floating && v.kind != DateTime;
            && Sampled(s, read, now).1.None?
            && (t.exceptionOk <==> !(floating || (integer && v.origin != Foreign)))
            && (t.valueOk <==> floating || (integer && v.origin != Foreign))
  {
    hide DescriptorFor, UnixMicroseconds, TypeOfKind;
    TypeFollowed(s.(exceptionOk := true, responseOk := true), read.value.kind);
  }

  // ---------- properties and reconnects ----------

  /** What a change of the properties sets, whatever was before. */
  lemma ChangeSets(s: State, p: Properties, check: Check)
    requires Coherent(s)
    ensures var t := PropertiesChanged(s, p, check);
            && (t.configOk <==> !(p.textual && p.text == "") && 0 < p.interval < 0x1_0000_0000)
            && (t.nodeOk <==> check.Checked? && check.found && check.variable && check.readable)
            && t.responseOk && t.valueOk && t.exceptionOk
            && t.interval == (if 0 < p.interval < 0x1_0000_0000 then p.interval else 100)
            && t.mode == ModeOf(p.mode) && t.nodeDataType == s.nodeDataType
            && (p.textual && p.text != "" ==> t.nodeId == NodeId.Text(p.ns % 65536, p.text))
            && (p.textual && p.text == "" ==> t.nodeId == s.nodeId)
            && (!p.textual ==> t.nodeId == Numeric(p.ns % 65536, p.number % 0x1_0000_0000))
  {
    hide DescriptorFor;
  }

  /** What becomes of the domain signal: it stays, with its last timestamp, as long as a timestamp is wanted; it goes
      when none is; and one that is made is new and has sent nothing. */
  lemma ChangeOfDomain(s: State, p: Properties, check: Check)
    requires Coherent(s)
    ensures var t := PropertiesChanged(s, p, check);
            && (t.mode == NoTimestamp ==> t.domain == None && t.made == s.made)
            && (t.mode != NoTimestamp && s.domain.Some? ==>
              t.domain == s.domain && t.last == s.last && t.made == s.made)
            && (t.mode != NoTimestamp && s.domain.None? ==>
                  t.domain == Some(s.made) && t.last == None && t.made == s.made + 1)
  {
    hide DescriptorFor, NodeOf, GoodInterval;
  }

  /** A reconnect voids what the reads reported and checks the node again; all else stays. */
  lemma ReconnectSets(s: State, check: Check)
    requires Coherent(s)
    ensures var t := Restored(s, check);
            && (t.nodeOk <==> check.Checked? && check.found && check.variable && check.readable)
            && t.shown == t.descriptor
            && t == s.(nodeOk := t.nodeOk, responseOk := true, valueOk := true, exceptionOk := true,
                       descriptor := t.descriptor, shown := t.shown)
  {
    hide DescriptorFor;
  }

  /** The construction is a change of the properties of an item that has nothing yet. */
  lemma ConstructedIs(p: Properties, check: Check)
    ensures var t := Constructed(p, check);
            && (t.configOk <==> !(p.textual && p.text == "") && 0 < p.interval < 0x1_0000_0000)
            && (t.nodeOk <==> check.Checked? && check.found && check.variable && check.readable)
            && t.responseOk && t.valueOk && t.exceptionOk && t.nodeDataType == NULL_ID && t.last == None
            && t.mode == ModeOf(p.mode) && t.domain == (if t.mode == NoTimestamp then None else Some(0))
  {
  }
}
