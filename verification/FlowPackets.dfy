/** Whole packets and streams of packets: NetFlow v5, NetFlow v9 with the 20-byte export header of section
    5.1 of RFC 3954, and IPFIX with the 16-byte header of section 3.1 of RFC 7011.

    The parser skips 24 bytes of a v9 packet, the four bytes of the first set header among them. So the
    walk starts in the content of the first set, and what it finds there is another packet.
 */
module FlowPackets {
  import opened FlowFormat
  import opened Shared

  // ---------- packets ----------

  /** The 48 bytes of a NetFlow v5 record; the gaps hold what the server does not use. */
  datatype V5Record = V5Record(src: seq<Byte>, dst: seq<Byte>, gap: seq<Byte>, octets: seq<Byte>, tail: seq<Byte>)

  /** A packet as an exporter builds it. A header is what precedes the records or sets. */
  datatype Packet =
    | V5Packet(header: seq<Byte>, records: seq<V5Record>)
    | V9Packet(header: seq<Byte>, sets: seq<FlowSet>)
    | IpfixPacket(header: seq<Byte>, sets: seq<FlowSet>)

  predicate ValidV5(r: V5Record) {
    |r.src| == 4 && |r.dst| == 4 && |r.gap| == 12 && |r.octets| == 4 && |r.tail| == 24
  }

  predicate ValidPacket(p: Packet, m: Templates) {
    match p
    case V5Packet(h, records) =>
      && |h| == 24 && U16(h, 0) == 5 && U16(h, 2) == |records|
      && forall i :: 0 <= i < |records| ==> ValidV5(records[i])
    case V9Packet(h, sets) => |h| == 20 && U16(h, 0) == 9 && ValidSets(sets, 0, m)
    case IpfixPacket(h, sets) => |h| == 16 && U16(h, 0) == 10 && ValidSets(sets, 2, m)
  }

  function WriteV5(records: seq<V5Record>): seq<Byte> {
    if records == [] then []
    else
      var r := records[0];
      r.src + r.dst + r.gap + r.octets + r.tail + WriteV5(records[1..])
  }

  function WritePacket(p: Packet, m: Templates): seq<Byte>
    requires ValidPacket(p, m)
  {
    match p
    case V5Packet(h, records) => h + WriteV5(records)
    case V9Packet(h, sets) => h + WriteSets(sets, 0, m)
    case IpfixPacket(h, sets) => h + WriteSets(sets, 2, m)
  }

  function V5Meant(records: seq<V5Record>): seq<Flow> {
    seq(|records|, i requires 0 <= i < |records| =>
      var r := records[i]; Flow(ReadAddress(r.src), ReadAddress(r.dst), BigEndian(r.octets)))
  }

  function PacketMeant(p: Packet, m: Templates): (seq<Flow>, Templates)
    requires ValidPacket(p, m)
  {
    match p
    case V5Packet(_, records) => (V5Meant(records), m)
    case V9Packet(_, sets) => SetsMeant(sets, 0, m)
    case IpfixPacket(_, sets) => SetsMeant(sets, 2, m)
  }

  lemma V5Ahead(r: V5Record, rest: seq<Byte>)
    requires ValidV5(r)
    ensures
      var s := r.src + r.dst + r.gap + r.octets + r.tail + rest;
      && |s| >= 48 && s[48..] == rest && s[20..24] == r.octets
      && ReadAddress(s) == ReadAddress(r.src) && ReadAddress(s[4..]) == ReadAddress(r.dst)
  {
    hide BigEndian;
    var s := r.src + r.dst + r.gap + r.octets + r.tail + rest;
    assert s[48..] == rest;
    assert s[20..24] == r.octets;
    assert forall i :: 0 <= i < 4 ==> s[i] == r.src[i] && s[4..][i] == r.dst[i];
  }

  lemma {:induction false} V5RoundTrip(records: seq<V5Record>)
    requires forall i :: 0 <= i < |records| ==> ValidV5(records[i])
    ensures ReadV5(WriteV5(records), |records|) == V5Meant(records)
  {
    hide ReadAddress, BigEndian;
    if records != [] {
      V5Ahead(records[0], WriteV5(records[1..]));
      V5RoundTrip(records[1..]);
      var r := records[0];
      assert V5Meant(records) == [Flow(ReadAddress(r.src), ReadAddress(r.dst), BigEndian(r.octets))] + V5Meant(records[1..]);
    }
  }

  /** The number of v5 records read is the announced count, cut to the whole records present. */
  lemma {:induction false} V5Count(s: seq<Byte>, count: nat)
    ensures |ReadV5(s, count)| == if count <= |s| / 48 then count else |s| / 48
  {
    hide ReadAddress, BigEndian;
    if count > 0 && |s| >= 48 {
      V5Count(s[48..], count - 1);
    }
  }

  // ---------- NetFlow v9: the walk starts four bytes late ----------

  /** What the parser makes of the sets of a v9 packet. */
  function V9Read(sets: seq<FlowSet>, m: Templates): (seq<Flow>, Templates)
    requires ValidSets(sets, 0, m)
  {
    if sets == [] then ([], m)
    else
      FirstSetWritten(sets, m);
      Walk(WriteSets(sets, 0, m)[4..], 0, m)
  }

  lemma FirstSetWritten(sets: seq<FlowSet>, m: Templates)
    requires ValidSets(sets, 0, m) && sets != []
    ensures |WriteSets(sets, 0, m)| >= 4
    ensures WriteSets(sets, 0, m)[4..]
         == WriteContent(sets[0], 0, m) + WriteSets(sets[1..], 0, SetMeant(sets[0], 0, m).1)
  {
    hide ValidSet, SetMeant, WriteContent, SetId;
    var content := WriteContent(sets[0], 0, m);
    SetIdFits(sets[0], 0, m);
    var header := Bytes16(SetId(sets[0], 0)) + Bytes16(|content| + 4);
    hide Bytes16;
    var rest := WriteSets(sets[1..], 0, SetMeant(sets[0], 0, m).1);
    Assoc(header, content, rest);
    DropHead(header, content + rest);
  }

  /** For every v9 packet: the first 24 bytes are skipped, the four bytes of the first set header among
      them, and the rest is walked. */
  lemma V9Parse(h: seq<Byte>, sets: seq<FlowSet>, m: Templates)
    requires ValidPacket(V9Packet(h, sets), m)
    ensures
      var (flows, m') := V9Read(sets, m);
      Parse(WritePacket(V9Packet(h, sets), m), m) == (Some(flows), m')
  {
    hide Walk, SetsMeant, ValidSet, SetMeant, WriteSet;
    var body := WriteSets(sets, 0, m);
    if sets != [] {
      FirstSetWritten(sets, m);
      hide WriteSets;
      assert (h + body)[24..] == body[4..];
    }
  }

  /** Walking the content of the set as if it were sets does what the set means. */
  predicate Harmless(flowSet: FlowSet, m: Templates)
    requires ValidSet(flowSet, 0, m)
  {
    var content := WriteContent(flowSet, 0, m);
    SetAligned(content) && Walk(content, 0, m) == SetMeant(flowSet, 0, m)
  }

  predicate ReadAsMeant(sets: seq<FlowSet>, m: Templates) {
    ValidSets(sets, 0, m) ==> V9Read(sets, m) == SetsMeant(sets, 0, m)
  }

  lemma HarmlessStart(sets: seq<FlowSet>, m: Templates)
    requires ValidSets(sets, 0, m) && sets != [] && Harmless(sets[0], m)
    ensures V9Read(sets, m) == SetsMeant(sets, 0, m)
  {
    FirstSetWritten(sets, m);
    var content, m' := WriteContent(sets[0], 0, m), SetMeant(sets[0], 0, m).1;
    WalkComposes(content, WriteSets(sets[1..], 0, m'), 0, m);
    SetsRoundTrip(sets[1..], 0, m');
    hide Walk, SetMeant, ValidSet, WriteContent, WriteSets, SetAligned;
  }

  /** A first set without content is harmless: its header is all that is skipped. */
  lemma EmptyStartIsHarmless(flowSet: FlowSet, m: Templates)
    requires ValidSet(flowSet, 0, m) && WriteContent(flowSet, 0, m) == []
    ensures Harmless(flowSet, m)
  {
    match flowSet
    case TemplateSet(templates, _) => SomethingWritten(templates);
    case DataSet(id, records, _) => SomeRecordWritten(records, m[id]);
    case OtherSet(_, _) =>
  }

  lemma SomethingWritten(templates: seq<Template>)
    requires ValidTemplates(templates)
    ensures WriteTemplates(templates) == [] ==> templates == []
  {
  }

  lemma SomeRecordWritten(records: seq<Record>, fields: seq<Field>)
    requires AllFit(records, fields) && RecordLength(fields) > 0
    ensures WriteRecords(records) == [] ==> records == []
  {
    if records != [] { ConcatLength(records[0], fields); }
  }

  // ---------- a set that is not harmless can cost a template ----------

  /** A set that announces template 256 with one field of length l. */
  function Probe(l: Byte): FlowSet {
    TemplateSet([Template(256, [Field(8, l)])], [])
  }

  function ProbeBytes(l: Byte): seq<Byte> {
    [0, 0, 0, 12, 1, 0, 0, 1, 0, 8, 0, l]
  }

  /** A set that means nothing, 256 bytes long. */
  function Filler(): FlowSet {
    OtherSet(255, seq(252, _ => 0))
  }

  function FillerBytes(): (s: seq<Byte>)
    ensures |s| == 256 && s[0] == 0 && s[1] == 255 && s[2] == 1 && forall i :: 3 <= i < 256 ==> s[i] == 0
  {
    [0, 255, 1, 0] + seq(252, _ => 0)
  }

  function Tail(l: Byte): (s: seq<Byte>)
    ensures |s| == 268 && s[..256] == FillerBytes() && s[256] == 0
  {
    FillerBytes() + ProbeBytes(l)
  }

  lemma TailZeros(l: Byte, i: nat)
    requires 3 <= i <= 256
    ensures Tail(l)[i] == 0
  {
    if i < 256 { assert Tail(l)[i] == Tail(l)[..256][i] == FillerBytes()[i]; }
  }

  lemma TailStart(l: Byte)
    ensures Tail(l)[0] == 0 && Tail(l)[1] == 255 && Tail(l)[2] == 1
  {
    assert forall i :: 0 <= i < 3 ==> Tail(l)[i] == Tail(l)[..256][i];
  }

  lemma StopsAt(s: seq<Byte>, m: Templates)
    requires !SetAhead(s)
    ensures Walk(s, 0, m) == ([], m)
  {
  }

  /** One set, after which the walk stops. */
  lemma LastSet(s: seq<Byte>, m: Templates)
    requires SetAhead(s) && !SetAhead(s[U16(s, 2)..])
    ensures Walk(s, 0, m) == ReadSet(U16(s, 0), SetContent(s), 0, m)
  {
    hide ReadSet;
    var (flows, m') := ReadSet(U16(s, 0), SetContent(s), 0, m);
    StopsAt(s[U16(s, 2)..], m');
    assert flows + [] == flows;
  }

  /** The walk does not recover inside the tail. */
  lemma TailStops(l: Byte, e: nat)
    requires 1 <= e <= 253
    ensures !SetAhead(Tail(l)[e..])
  {
    TailZeros(l, e + 2);
    TailZeros(l, e + 3);
    hide Tail;
    var s := Tail(l)[e..];
    assert s[2] == Tail(l)[e + 2] && s[3] == Tail(l)[e + 3];
  }

  /** A set header that announces up to 12 bytes more than are left takes them from the filler, and the
      walk stops there. */
  lemma Overrun(c: seq<Byte>, l: Byte, m: Templates)
    requires |c| >= 4 && |c| < U16(c, 2) <= |c| + 12
    ensures Walk(c + Tail(l), 0, m) == ReadSet(U16(c, 0), c[4..] + FillerBytes()[..U16(c, 2) - |c|], 0, m)
  {
    hide ReadSet, FillerBytes;
    var s, n := c + Tail(l), U16(c, 2);
    var e := n - |c|;
    assert U16(s, 0) == U16(c, 0) && U16(s, 2) == n;
    assert s[n..] == Tail(l)[e..];
    TailStops(l, e);
    assert s[4..n] == c[4..] + Tail(l)[..e];
    assert Tail(l)[..e] == Tail(l)[..256][..e];
    hide Tail;
    LastSet(s, m);
  }

  /** What the walk makes of up to three bytes in front of the tail. */
  function LeftoverRead(c: seq<Byte>, m: Templates): (seq<Flow>, Templates)
    requires 1 <= |c| <= 3
  {
    if |c| == 2 then ReadSet(U16(c, 0), FillerBytes()[2..253], 0, m)
    else if |c| == 3 && c[2] == 1 then ReadSet(U16(c, 0), FillerBytes()[1..253], 0, m)
    else ([], m)
  }

  lemma Leftover(c: seq<Byte>, l: Byte, m: Templates)
    requires 1 <= |c| <= 3
    ensures Walk(c + Tail(l), 0, m) == LeftoverRead(c, m)
  {
    hide ReadSet, FillerBytes;
    TailStart(l);
    var s, t := c + Tail(l), Tail(l);
    hide Tail;
    assert t[..256] == FillerBytes();
    if |c| == 2 {
      assert U16(s, 0) == U16(c, 0) && U16(s, 2) == 255;
      assert s[255..] == t[253..] && s[4..255] == t[2..253] == t[..256][2..253];
      TailStops(l, 253);
      LastSet(s, m);
    } else if |c| == 3 && c[2] == 1 {
      assert U16(s, 0) == U16(c, 0) && U16(s, 2) == 256;
      assert s[256..] == t[253..] && s[4..256] == t[1..253] == t[..256][1..253];
      TailStops(l, 253);
      LastSet(s, m);
    } else {
      assert |c| == 1 ==> U16(s, 2) == 255 * 256 + 1;
      assert |c| == 3 ==> U16(s, 2) == c[2] as int * 256;
      StopsAt(s, m);
    }
  }

  /** Behind bytes that are not whole sets, the template of the probe is not seen: with the filler in
      front of it or without, the walk gives the same for both lengths. */
  lemma {:induction false} ProbeIsHidden(c: seq<Byte>, m: Templates) returns (filled: bool)
    requires !SetAligned(c)
    ensures filled ==> Walk(c + Tail(4), 0, m) == Walk(c + Tail(5), 0, m)
    ensures !filled ==> Walk(c + ProbeBytes(4), 0, m) == Walk(c + ProbeBytes(5), 0, m)
    decreases |c|
  {
    hide ReadSet, Tail, FillerBytes, ProbeBytes;
    if SetAhead(c) {
      var n := U16(c, 2);
      var m' := ReadSet(U16(c, 0), SetContent(c), 0, m).1;
      filled := ProbeIsHidden(c[n..], m');
      SetAheadExtends(c, Tail(4));
      SetAheadExtends(c, Tail(5));
      SetAheadExtends(c, ProbeBytes(4));
      SetAheadExtends(c, ProbeBytes(5));
    } else if |c| < 4 {
      filled := true;
      Leftover(c, 4, m);
      Leftover(c, 5, m);
    } else if 0 < U16(c, 2) <= |c| + 12 {
      filled := true;
      Overrun(c, 4, m);
      Overrun(c, 5, m);
    } else {
      filled := false;
      LostBehind(c, 4, m);
      LostBehind(c, 5, m);
    }
  }

  lemma LostBehind(c: seq<Byte>, l: Byte, m: Templates)
    requires |c| >= 4 && (U16(c, 2) == 0 || U16(c, 2) > |c| + 12)
    ensures Walk(c + ProbeBytes(l), 0, m) == ([], m)
  {
    var s := c + ProbeBytes(l);
    assert |ProbeBytes(l)| == 12;
    hide ProbeBytes;
    assert U16(s, 2) == U16(c, 2);
    StopsAt(s, m);
  }

  /** The probe, with the filler in front of it or without. */
  function Follow(filled: bool, l: Byte): seq<FlowSet> {
    if filled then [Filler(), Probe(l)] else [Probe(l)]
  }

  lemma OneTemplate(id: nat, fields: seq<Field>, m: Templates)
    requires ValidTemplate(Template(id, fields)) && 8 + 4 * |fields| < 0x1_0000
    ensures
      var flowSet := TemplateSet([Template(id, fields)], []);
      && ValidSet(flowSet, 0, m) && SetMeant(flowSet, 0, m) == ([], m[id := fields])
      && WriteContent(flowSet, 0, m) == Bytes16(id) + Bytes16(|fields|) + WriteFields(fields)
      && |WriteContent(flowSet, 0, m)| == 4 + 4 * |fields|
  {
    FieldsRoundTrip(fields, []);
    hide WriteFields, ValidFields, Bytes16;
    var t, none: seq<Template> := Template(id, fields), [];
    assert [t][1..] == none && WriteTemplates(none) == [];
    assert LearnAll(m, [t]) == m[id := fields];
    var bytes := Bytes16(id) + Bytes16(|fields|) + WriteFields(fields);
    assert bytes + [] == bytes;
    assert WriteTemplates([t]) == bytes;
    assert |bytes| == 4 + 4 * |fields|;
  }

  lemma OneMoreWritten(f: Field, rest: seq<Field>)
    requires ValidField(f) && ValidFields(rest)
    ensures ValidFields([f] + rest)
    ensures WriteFields([f] + rest) == Bytes16(f.kind) + Bytes16(f.length) + WriteFields(rest)
  {
    assert ([f] + rest)[1..] == rest;
  }

  lemma ProbeWritten(l: Byte, m: Templates)
    ensures ValidSet(Probe(l), 0, m)
    ensures WriteSet(Probe(l), 0, m) == ProbeBytes(l)
    ensures SetMeant(Probe(l), 0, m) == ([], m[256 := [Field(8, l)]])
  {
    var f, none: seq<Field> := Field(8, l), [];
    OneMoreWritten(f, none);
    assert [f] + none == [f];
    assert WriteFields([f]) == [0, 8, 0, l];
    hide WriteFields, WriteContent, ValidSet, SetMeant;
    OneTemplate(256, [f], m);
  }

  lemma FillerWritten(m: Templates)
    ensures ValidSet(Filler(), 0, m) && SetMeant(Filler(), 0, m) == ([], m)
    ensures WriteSet(Filler(), 0, m) == FillerBytes()
  {
  }

  lemma SetsCons(flowSet: FlowSet, rest: seq<FlowSet>, m: Templates)
    requires ValidSet(flowSet, 0, m) && ValidSets(rest, 0, SetMeant(flowSet, 0, m).1)
    ensures
      var sets, (flows, m') := [flowSet] + rest, SetMeant(flowSet, 0, m);
      && ValidSets(sets, 0, m)
      && WriteSets(sets, 0, m) == WriteSet(flowSet, 0, m) + WriteSets(rest, 0, m')
      && SetsMeant(sets, 0, m) == (flows + SetsMeant(rest, 0, m').0, SetsMeant(rest, 0, m').1)
  {
    hide ValidSet, SetMeant, WriteSet;
    var sets := [flowSet] + rest;
    assert sets[0] == flowSet && sets[1..] == rest;
  }

  lemma SetsOne(flowSet: FlowSet, m: Templates)
    requires ValidSet(flowSet, 0, m)
    ensures ValidSets([flowSet], 0, m)
    ensures WriteSets([flowSet], 0, m) == WriteSet(flowSet, 0, m) && SetsMeant([flowSet], 0, m) == SetMeant(flowSet, 0, m)
  {
    SetsCons(flowSet, [], m);
    hide ValidSet, SetMeant, WriteSet;
    assert [flowSet] + [] == [flowSet];
    var flows, bytes := SetMeant(flowSet, 0, m).0, WriteSet(flowSet, 0, m);
    assert flows + [] == flows && bytes + [] == bytes;
  }

  lemma FollowWritten(filled: bool, l: Byte, m: Templates)
    ensures ValidSets(Follow(filled, l), 0, m)
    ensures WriteSets(Follow(filled, l), 0, m) == if filled then Tail(l) else ProbeBytes(l)
    ensures SetsMeant(Follow(filled, l), 0, m) == ([], m[256 := [Field(8, l)]])
  {
    ProbeWritten(l, m);
    FillerWritten(m);
    hide Filler, Probe, ProbeBytes, FillerBytes, ValidSet, WriteSet, SetMeant, ValidSets, WriteSets, SetsMeant;
    SetsOne(Probe(l), m);
    if filled {
      SetsCons(Filler(), [Probe(l)], m);
      var none: seq<Flow> := [];
      assert none + none == none;
      assert [Filler()] + [Probe(l)] == Follow(filled, l);
    }
  }

  /** What a packet that starts with the set and ends with the probe means, and what is read of it. */
  lemma ProbedPacket(flowSet: FlowSet, m: Templates, filled: bool, l: Byte)
    requires ValidSet(flowSet, 0, m)
    ensures
      var sets := [flowSet] + Follow(filled, l);
      && ValidSets(sets, 0, m)
      && V9Read(sets, m) == Walk(WriteContent(flowSet, 0, m) + (if filled then Tail(l) else ProbeBytes(l)), 0, m)
      && SetsMeant(sets, 0, m).1 == SetMeant(flowSet, 0, m).1[256 := [Field(8, l)]]
  {
    hide ValidSet, SetMeant, WriteContent, Follow, Tail, ProbeBytes, Walk, WriteSets;
    var sets, m' := [flowSet] + Follow(filled, l), SetMeant(flowSet, 0, m).1;
    assert sets[0] == flowSet && sets[1..] == Follow(filled, l);
    FollowWritten(filled, l, m');
    FirstSetWritten(sets, m);
  }

  /** Behind a set that is not harmless, some valid sets are not read as meant. */
  lemma HarmfulStart(flowSet: FlowSet, m: Templates) returns (rest: seq<FlowSet>)
    requires ValidSet(flowSet, 0, m) && !Harmless(flowSet, m)
    ensures !ReadAsMeant([flowSet] + rest, m)
  {
    var content := WriteContent(flowSet, 0, m);
    if SetAligned(content) {
      rest := [];
      AloneRead(flowSet, m);
    } else {
      var filled := ProbeIsHidden(content, m);
      ProbedPacket(flowSet, m, filled, 4);
      ProbedPacket(flowSet, m, filled, 5);
      hide Walk, V9Read, SetsMeant, SetMeant, ValidSets, WriteContent, Follow, Tail, ProbeBytes;
      DifferentTemplates(SetMeant(flowSet, 0, m).1);
      var l: Byte := if ReadAsMeant([flowSet] + Follow(filled, 4), m) then 5 else 4;
      rest := Follow(filled, l);
    }
  }

  lemma DifferentTemplates(m: Templates)
    ensures m[256 := [Field(8, 4)]] != m[256 := [Field(8, 5)]]
  {
    assert m[256 := [Field(8, 4)]][256][0].length == 4;
    assert m[256 := [Field(8, 5)]][256][0].length == 5;
  }

  lemma AloneRead(flowSet: FlowSet, m: Templates)
    requires ValidSet(flowSet, 0, m)
    ensures
      var sets := [flowSet] + [];
      && ValidSets(sets, 0, m) && V9Read(sets, m) == Walk(WriteContent(flowSet, 0, m), 0, m)
      && SetsMeant(sets, 0, m) == SetMeant(flowSet, 0, m)
  {
    hide ValidSet, SetMeant, WriteContent, Walk;
    var sets := [flowSet] + [];
    assert sets[0] == flowSet && sets[1..] == [];
    FirstSetWritten(sets, m);
    var flows := SetMeant(flowSet, 0, m).0;
    assert flows + [] == flows;
    var content := WriteContent(flowSet, 0, m);
    assert content + [] == content;
  }

  /** A v9 packet is read as meant, whatever valid sets follow its first one, exactly if walking the
      content of that set as if it were sets does what the set means. */
  lemma ReadAsMeantIffHarmless(flowSet: FlowSet, m: Templates)
    requires ValidSet(flowSet, 0, m)
    ensures Harmless(flowSet, m) <==> forall rest :: ReadAsMeant([flowSet] + rest, m)
  {
    if Harmless(flowSet, m) {
      forall rest ensures ReadAsMeant([flowSet] + rest, m) {
        assert ([flowSet] + rest)[0] == flowSet;
        hide Harmless;
        if ValidSets([flowSet] + rest, 0, m) { HarmlessStart([flowSet] + rest, m); }
      }
    } else {
      var rest := HarmfulStart(flowSet, m);
      assert !ReadAsMeant([flowSet] + rest, m);
    }
  }

  // ---------- a v9 packet of a template and a record ----------

  /** A template of source, destination and byte count, and one record of it. */
  function UsualSets(src: seq<Byte>, dst: seq<Byte>, octets: seq<Byte>): seq<FlowSet> {
    [TemplateSet([Template(256, [Field(8, 4), Field(12, 4), Field(1, 4)])], []), DataSet(256, [[src, dst, octets]], [])]
  }

  lemma UsualFieldsWritten()
    ensures
      var fields := [Field(8, 4), Field(12, 4), Field(1, 4)];
      ValidFields(fields) && WriteFields(fields) == [0, 8, 0, 4, 0, 12, 0, 4, 0, 1, 0, 4]
  {
    var f1, f2, f3, none: seq<Field> := Field(8, 4), Field(12, 4), Field(1, 4), [];
    OneMoreWritten(f3, none);
    OneMoreWritten(f2, [f3]);
    OneMoreWritten(f1, [f2, f3]);
    assert [f3] + none == [f3] && [f2] + [f3] == [f2, f3] && [f1] + [f2, f3] == [f1, f2, f3];
    assert WriteFields(none) == [];
    hide WriteFields, ValidFields;
    assert Bytes16(8) == [0, 8] && Bytes16(12) == [0, 12] && Bytes16(1) == [0, 1] && Bytes16(4) == [0, 4];
  }

  lemma UsualTemplate(m: Templates)
    ensures
      var flowSet := TemplateSet([Template(256, [Field(8, 4), Field(12, 4), Field(1, 4)])], []);
      && ValidSet(flowSet, 0, m)
      && SetMeant(flowSet, 0, m) == ([], m[256 := [Field(8, 4), Field(12, 4), Field(1, 4)]])
      && WriteContent(flowSet, 0, m) == [1, 0, 0, 3, 0, 8, 0, 4, 0, 12, 0, 4, 0, 1, 0, 4]
  {
    UsualFieldsWritten();
    hide WriteFields, WriteContent, ValidSet, SetMeant, ValidFields;
    OneTemplate(256, [Field(8, 4), Field(12, 4), Field(1, 4)], m);
    assert Bytes16(256) == [1, 0] && Bytes16(3) == [0, 3];
    hide Bytes16;
  }

  lemma OneMoreField(fields: seq<Field>, values: Record, f: Field, value: seq<Byte>, kind: nat)
    requires |fields| == |values|
    ensures RecordLength(fields + [f]) == RecordLength(fields) + f.length
    ensures Concat(values + [value]) == Concat(values) + value
    ensures LastValue(fields + [f], values + [value], kind)
         == if f.kind == kind then Some(value) else LastValue(fields, values, kind)
  {
    assert (fields + [f])[..|fields|] == fields && (values + [value])[..|values|] == values;
  }

  lemma UsualValues(src: seq<Byte>, dst: seq<Byte>, octets: seq<Byte>, kind: nat)
    requires kind == SOURCE_ADDRESS || kind == DESTINATION_ADDRESS || kind == BYTE_COUNT
    ensures
      var fields, values := [Field(8, 4), Field(12, 4), Field(1, 4)], [src, dst, octets];
      && RecordLength(fields) == 12 && Concat(values) == src + dst + octets
      && LastValue(fields, values, kind)
         == Some(if kind == SOURCE_ADDRESS then src else if kind == DESTINATION_ADDRESS then dst else octets)
  {
    var f1, f2, f3 := Field(8, 4), Field(12, 4), Field(1, 4);
    OneMoreField([], [], f1, src, kind);
    OneMoreField([f1], [src], f2, dst, kind);
    OneMoreField([f1, f2], [src, dst], f3, octets, kind);
    hide LastValue, RecordLength, Concat;
    NoFields(kind);
    assert [] + [f1] == [f1] && [f1] + [f2] == [f1, f2] && [f1, f2] + [f3] == [f1, f2, f3];
    assert [] + [src] == [src] && [src] + [dst] == [src, dst] && [src, dst] + [octets] == [src, dst, octets];
    assert [] + src == src;
  }

  lemma NoFields(kind: nat)
    ensures RecordLength([]) == 0 && Concat([]) == [] && LastValue([], [], kind) == None
  {
  }

  lemma OneRecord(fields: seq<Field>, values: Record)
    requires Fits(values, fields)
    ensures AllFit([values], fields) && WriteRecords([values]) == Concat(values)
    ensures FlowsMeant(fields, [values]) == IfUsable(FlowMeant(fields, values))
  {
    hide Concat, FlowMeant, Usable;
    var records, none: seq<Record> := [values], [];
    assert records[1..] == none;
    var bytes := Concat(values);
    assert bytes + [] == bytes;
  }

  lemma UsualFlow(src: seq<Byte>, dst: seq<Byte>, octets: seq<Byte>)
    ensures FlowMeant([Field(8, 4), Field(12, 4), Field(1, 4)], [src, dst, octets])
         == Flow(ReadAddress(src), ReadAddress(dst), BigEndian(octets))
  {
    UsualValues(src, dst, octets, SOURCE_ADDRESS);
    UsualValues(src, dst, octets, DESTINATION_ADDRESS);
    UsualValues(src, dst, octets, BYTE_COUNT);
    hide BigEndian, ReadAddress, LastValue, RecordLength, Concat;
  }

  lemma UsualFits(src: seq<Byte>, dst: seq<Byte>, octets: seq<Byte>)
    requires |src| == |dst| == |octets| == 4
    ensures Fits([src, dst, octets], [Field(8, 4), Field(12, 4), Field(1, 4)])
    ensures |src + dst + octets| == 12
  {
  }

  lemma UsualRecord(src: seq<Byte>, dst: seq<Byte>, octets: seq<Byte>, m: Templates)
    requires |src| == |dst| == |octets| == 4 && 256 in m && m[256] == [Field(8, 4), Field(12, 4), Field(1, 4)]
    ensures
      var flowSet := DataSet(256, [[src, dst, octets]], []);
      && ValidSet(flowSet, 0, m) && WriteSet(flowSet, 0, m) == [1, 0, 0, 16] + (src + dst + octets)
      && SetMeant(flowSet, 0, m) == (IfUsable(Flow(ReadAddress(src), ReadAddress(dst), BigEndian(octets))), m)
  {
    hide BigEndian, ReadAddress, IfUsable, LastValue, RecordLength, Concat, FlowMeant, FlowsMeant, WriteRecords, WriteSet, SetMeant;
    hide Fits, AllFit, ValidSet;
    var values: Record := [src, dst, octets];
    UsualValues(src, dst, octets, BYTE_COUNT);
    UsualFlow(src, dst, octets);
    UsualFits(src, dst, octets);
    OneRecord(m[256], values);
    DataSetWritten(256, [values], src + dst + octets, m);
    assert Bytes16(256) + Bytes16(16) == [1, 0, 0, 16];
  }

  lemma DataSetWritten(id: nat, records: seq<Record>, bytes: seq<Byte>, m: Templates)
    requires FIRST_TEMPLATE_ID <= id < 0x1_0000 && id in m && AllFit(records, m[id]) && RecordLength(m[id]) > 0
    requires WriteRecords(records) == bytes && |bytes| + 4 < 0x1_0000
    ensures ValidSet(DataSet(id, records, []), 0, m)
    ensures WriteSet(DataSet(id, records, []), 0, m) == Bytes16(id) + Bytes16(|bytes| + 4) + bytes
    ensures SetMeant(DataSet(id, records, []), 0, m) == (FlowsMeant(m[id], records), m)
  {
    hide AllFit, RecordLength, WriteRecords, FlowsMeant, Bytes16;
    assert bytes + [] == bytes;
  }

  /** A packet of this template and one record of it, from an exporter that is not known yet: the flow
      and the template are lost, whatever the record holds. */
  lemma UsualV9PacketIsLost(h: seq<Byte>, src: seq<Byte>, dst: seq<Byte>, octets: seq<Byte>)
    requires |h| == 20 && U16(h, 0) == 9 && |src| == |dst| == |octets| == 4
    ensures
      var p := V9Packet(h, UsualSets(src, dst, octets));
      var flow := Flow(ReadAddress(src), ReadAddress(dst), BigEndian(octets));
      && ValidPacket(p, map[])
      && PacketMeant(p, map[]) == (IfUsable(flow), map[256 := [Field(8, 4), Field(12, 4), Field(1, 4)]])
      && Parse(WritePacket(p, map[]), map[]) == (Some([]), map[])
  {
    var sets := UsualSets(src, dst, octets);
    UsualPacketMeant(src, dst, octets);
    hide ValidSets, SetsMeant, WriteSets, BigEndian, ReadAddress, V9Read, UsualSets, WritePacket, Parse;
    V9Parse(h, sets, map[]);
    UsualSetsRead(src, dst, octets);
  }

  lemma UsualPacketMeant(src: seq<Byte>, dst: seq<Byte>, octets: seq<Byte>)
    requires |src| == |dst| == |octets| == 4
    ensures
      var sets := UsualSets(src, dst, octets);
      var fields := [Field(8, 4), Field(12, 4), Field(1, 4)];
      && ValidSets(sets, 0, map[])
      && SetsMeant(sets, 0, map[]) == (IfUsable(Flow(ReadAddress(src), ReadAddress(dst), BigEndian(octets))), map[256 := fields])
      && V9Read(sets, map[]) == Walk([1, 0, 0, 3, 0, 8, 0, 4, 0, 12, 0, 4, 0, 1, 0, 4] + ([1, 0, 0, 16] + (src + dst + octets)), 0, map[])
  {
    UsualTemplate(map[]);
    UsualRecord(src, dst, octets, map[256 := [Field(8, 4), Field(12, 4), Field(1, 4)]]);
    hide BigEndian, ReadAddress, ValidSet, SetMeant, WriteSet, WriteContent, Walk, IfUsable, ValidSets, SetsMeant, WriteSets;
    var sets := UsualSets(src, dst, octets);
    assert sets == [sets[0]] + [sets[1]] && sets[1..] == [sets[1]];
    SetsOne(sets[1], map[256 := [Field(8, 4), Field(12, 4), Field(1, 4)]]);
    SetsCons(sets[0], [sets[1]], map[]);
    var flow := IfUsable(Flow(ReadAddress(src), ReadAddress(dst), BigEndian(octets)));
    assert [] + flow == flow;
    FirstSetWritten(sets, map[]);
  }

  /** The walk takes the template id for a set id and the field count for a length, skips three bytes,
      and stops at a length that is not there. */
  lemma UsualSetsRead(src: seq<Byte>, dst: seq<Byte>, octets: seq<Byte>)
    requires |src| == |dst| == |octets| == 4
    ensures Walk([1, 0, 0, 3, 0, 8, 0, 4, 0, 12, 0, 4, 0, 1, 0, 4] + ([1, 0, 0, 16] + (src + dst + octets)), 0, map[]) == ([], map[])
  {
    var s := [1, 0, 0, 3, 0, 8, 0, 4, 0, 12, 0, 4, 0, 1, 0, 4] + ([1, 0, 0, 16] + (src + dst + octets));
    assert |s| == 32 && U16(s, 0) == 256 && U16(s, 2) == 3;
    var t := s[3..];
    assert U16(t, 2) == 8 * 256;
    LastSet(s, map[]);
  }

  // ---------- what comes back of a packet ----------

  /** A v9 packet is read as written if its first set is harmless; v5 and IPFIX packets always are. */
  predicate ReadAsWritten(p: Packet, m: Templates)
    requires ValidPacket(p, m)
  {
    p.V9Packet? && p.sets != [] ==> Harmless(p.sets[0], m)
  }

  lemma PacketRoundTrip(p: Packet, m: Templates)
    requires ValidPacket(p, m) && ReadAsWritten(p, m)
    ensures
      var (flows, m') := PacketMeant(p, m);
      Parse(WritePacket(p, m), m) == (Some(flows), m')
  {
    hide Walk, WriteSets, SetsMeant, ValidSet, WriteV5, V5Meant, ReadV5, Harmless, V9Read;
    match p
    case V5Packet(h, records) =>
      V5RoundTrip(records);
      DropHead(h, WriteV5(records));
    case V9Packet(h, sets) =>
      V9Parse(h, sets, m);
      if sets == [] { NoSets(m); } else { HarmlessStart(sets, m); }
    case IpfixPacket(h, sets) =>
      SetsRoundTrip(sets, 2, m);
      DropHead(h, WriteSets(sets, 2, m));
  }

  lemma NoSets(m: Templates)
    ensures V9Read([], m) == SetsMeant([], 0, m) == ([], m)
  {
  }

  // ---------- whole streams of packets from one exporter ----------

  predicate ValidStream(packets: seq<Packet>, m: Templates) {
    packets == []
    || (ValidPacket(packets[0], m) && ValidStream(packets[1..], PacketMeant(packets[0], m).1))
  }

  function WriteStream(packets: seq<Packet>, m: Templates): seq<seq<Byte>>
    requires ValidStream(packets, m)
  {
    if packets == [] then []
    else [WritePacket(packets[0], m)] + WriteStream(packets[1..], PacketMeant(packets[0], m).1)
  }

  function StreamMeant(packets: seq<Packet>, m: Templates): (seq<Flow>, Templates)
    requires ValidStream(packets, m)
  {
    if packets == [] then ([], m)
    else
      var (flows, m') := PacketMeant(packets[0], m);
      var (more, m'') := StreamMeant(packets[1..], m');
      (flows + more, m'')
  }

  /** The collector keeps one template map per exporter and parses packet after packet with it. */
  function ParseStream(packets: seq<seq<Byte>>, m: Templates): (seq<Flow>, Templates) {
    if packets == [] then ([], m)
    else
      var (parsed, m') := Parse(packets[0], m);
      var (more, m'') := ParseStream(packets[1..], m');
      ((match parsed case None => [] case Some(flows) => flows) + more, m'')
  }

  /** Every packet is read as written under the templates that those before it leave. */
  predicate AllReadAsWritten(packets: seq<Packet>, m: Templates)
    requires ValidStream(packets, m)
  {
    packets == [] || (ReadAsWritten(packets[0], m) && AllReadAsWritten(packets[1..], PacketMeant(packets[0], m).1))
  }

  lemma {:induction false} StreamRoundTrip(packets: seq<Packet>, m: Templates)
    requires ValidStream(packets, m) && AllReadAsWritten(packets, m)
    ensures ParseStream(WriteStream(packets, m), m) == StreamMeant(packets, m)
  {
    hide Parse, PacketMeant, WritePacket, ValidPacket, ReadAsWritten;
    if packets != [] {
      var (flows, m') := PacketMeant(packets[0], m);
      PacketRoundTrip(packets[0], m);
      StreamRoundTrip(packets[1..], m');
      assert WriteStream(packets, m)[1..] == WriteStream(packets[1..], m');
    }
  }

  lemma {:induction false} SetsMeantAlike(sets: seq<FlowSet>, m: Templates)
    requires ValidSets(sets, 0, m) && ValidSets(sets, 2, m)
    ensures SetsMeant(sets, 0, m) == SetsMeant(sets, 2, m)
  {
    hide ValidSet, FlowsMeant, LearnAll;
    if sets != [] {
      SetsMeantAlike(sets[1..], SetMeant(sets[0], 0, m).1);
    }
  }

  /** NetFlow v9 and IPFIX are read by the same walker: the same sets behind 24 bytes of version 9 or
      behind 16 bytes of version 10, each with that version's template set id, give the same flows and
      the same template map. Only an IPFIX packet starts its sets there. */
  lemma SameWalker(header9: seq<Byte>, header10: seq<Byte>, sets: seq<FlowSet>, m: Templates)
    requires |header9| == 24 && U16(header9, 0) == 9 && ValidSets(sets, 0, m)
    requires |header10| == 16 && U16(header10, 0) == 10 && ValidSets(sets, 2, m)
    ensures Parse(header9 + WriteSets(sets, 0, m), m) == Parse(header10 + WriteSets(sets, 2, m), m)
    ensures Parse(header9 + WriteSets(sets, 0, m), m) == (Some(SetsMeant(sets, 0, m).0), SetsMeant(sets, 0, m).1)
  {
    hide SetsMeant, ValidSets, Walk, WriteSets;
    SetsRoundTrip(sets, 0, m);
    DropHead(header9, WriteSets(sets, 0, m));
    SetsRoundTrip(sets, 2, m);
    DropHead(header10, WriteSets(sets, 2, m));
    SetsMeantAlike(sets, m);
  }

  // ---------- packets that are not read ----------

  /** Null is given for version 5 with less than 24 bytes and for nothing else; packets of another version,
      and those shorter than the header that is skipped, give no flows; none of them teaches anything. */
  lemma UnreadPackets(packet: seq<Byte>, m: Templates)
    ensures
      var (flows, m') := Parse(packet, m);
      var version := if |packet| < 2 then 0 else 256 * packet[0] as int + packet[1] as int;
      && (flows.None? <==> |packet| >= 2 && version == 5 && |packet| < 24)
      && (version == 5 ==> m' == m)
      && (version !in [5, 9, 10] || (version == 9 && |packet| < 24) || (version == 10 && |packet| < 16) ==>
            flows == Some([]) && m' == m)
  {
    hide Walk, ReadV5;
  }
}
