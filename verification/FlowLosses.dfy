/** What v9 packets lose that hold records in their first set, or come from an exporter that is not known
    yet, and a template that is learned although nobody sent it.
 */
module FlowLosses {
  import opened FlowFormat
  import opened FlowPackets
  import opened FlowStarts
  import opened Shared

  // ---------- records in the first set ----------

  /** Nowhere do the bytes hold the header of a template set that lies within them and is long enough for
      a template. */
  predicate TemplateFree(s: seq<Byte>) {
    forall i :: 0 <= i <= |s| - 12 && s[i] == 0 && s[i + 1] == 0 ==> U16(s, i + 2) < 12 || U16(s, i + 2) > |s| - i
  }

  /** No template has records of a length from 1 to n - 1. */
  predicate NoShorter(m: Templates, n: nat) {
    forall id :: id in m ==> RecordLength(m[id]) == 0 || RecordLength(m[id]) >= n
  }

  lemma {:induction false} RecordsRead(s: seq<Byte>, fields: seq<Field>, n: nat)
    requires RecordLength(fields) == 0 || RecordLength(fields) >= n
    ensures |ReadRecords(s, fields)| * n <= |s|
    decreases |s|
  {
    hide ReadRecord, Usable, RecordLength, IfUsable;
    var r := RecordLength(fields);
    if r > 0 && |s| >= r {
      RecordsRead(s[r..], fields, n);
      var first, more := IfUsable(ReadRecord(s, fields)), ReadRecords(s[r..], fields);
      OneAtMost(ReadRecord(s, fields));
      OneMoreFits(|first|, |more|, n, r, |s|);
      assert ReadRecords(s, fields) == first + more;
    } else {
      assert ReadRecords(s, fields) == [];
    }
  }

  lemma OneAtMost(flow: Flow)
    ensures |IfUsable(flow)| <= 1
  {
  }

  lemma OneMoreFits(a: nat, b: nat, n: nat, r: nat, size: nat)
    requires a <= 1 && n <= r <= size && b * n <= size - r
    ensures (a + b) * n <= size
  {
    if a == 1 { assert (1 + b) * n == n + b * n; }
  }

  lemma ShortTeachesNothing(s: seq<Byte>, m: Templates)
    requires |s| < 8
    ensures ReadTemplates(s, m) == m
  {
    if |s| >= 4 {
      assert ReadFields(s[4..], U16(s, 2)) == [];
      assert ReadTemplates(s[4..], m) == m;
    }
  }

  lemma DataSetAhead(s: seq<Byte>, m: Templates, n: nat)
    requires TemplateFree(s) && NoShorter(m, n) && SetAhead(s)
    ensures
      var (flows, m') := ReadSet(U16(s, 0), SetContent(s), 0, m);
      m' == m && (flows != [] ==> |flows| * n + 4 <= U16(s, 2))
  {
    hide ReadTemplates, ReadRecords, RecordLength;
    var content, id := SetContent(s), U16(s, 0);
    if id == 0 {
      assert |s| >= 12 ==> s[0] == 0 && s[1] == 0;
      ShortTeachesNothing(content, m);
    } else if id >= FIRST_TEMPLATE_ID && id in m {
      RecordsRead(content, m[id], n);
      if U16(s, 2) < 4 { NoRecords(m[id]); }
    }
  }

  lemma NoRecords(fields: seq<Field>)
    ensures ReadRecords([], fields) == []
  {
  }

  lemma FreeFrom(s: seq<Byte>, n: nat)
    requires TemplateFree(s) && n <= |s|
    ensures TemplateFree(s[n..])
  {
    var r := s[n..];
    forall i | 0 <= i <= |r| - 12 && r[i] == 0 && r[i + 1] == 0
      ensures U16(r, i + 2) < 12 || U16(r, i + 2) > |r| - i {
      assert s[n + i] == 0 && s[n + i + 1] == 0;
      assert U16(r, i + 2) == U16(s, n + i + 2);
    }
  }

  lemma Times(a: nat, b: nat, n: nat)
    ensures (a + b) * n == a * n + b * n
  {
  }

  /** A walk that yields flows has used up four bytes more than they take. */
  lemma {:induction false} WalkYields(s: seq<Byte>, m: Templates, n: nat)
    requires TemplateFree(s) && NoShorter(m, n)
    ensures
      var (flows, m') := Walk(s, 0, m);
      m' == m && (flows != [] ==> |flows| * n + 4 <= |s|)
    decreases |s|
  {
    hide TemplateFree, NoShorter, ReadSet, SetContent;
    if SetAhead(s) {
      DataSetAhead(s, m, n);
      FreeFrom(s, U16(s, 2));
      WalkYields(s[U16(s, 2)..], m, n);
      var flows, more := ReadSet(U16(s, 0), SetContent(s), 0, m).0, Walk(s[U16(s, 2)..], 0, m).0;
      Times(|flows|, |more|, n);
    }
  }

  lemma {:induction false} RecordsTake(records: seq<Record>, fields: seq<Field>)
    requires AllFit(records, fields)
    ensures |WriteRecords(records)| == |records| * RecordLength(fields)
  {
    hide RecordLength, Concat, Fits;
    if records != [] {
      RecordsTake(records[1..], fields);
      ConcatLength(records[0], fields);
      Times(1, |records| - 1, RecordLength(fields));
    }
  }

  predicate AllUsable(fields: seq<Field>, records: seq<Record>)
    requires AllFit(records, fields)
  {
    forall i :: 0 <= i < |records| ==> Usable(FlowMeant(fields, records[i]))
  }

  lemma {:induction false} AllAreMeant(fields: seq<Field>, records: seq<Record>)
    requires AllFit(records, fields) && AllUsable(fields, records)
    ensures |FlowsMeant(fields, records)| == |records|
  {
    hide FlowMeant, Usable;
    if records != [] {
      assert Usable(FlowMeant(fields, records[0]));
      AllAreMeant(fields, records[1..]);
    }
  }

  lemma FewerTimes(k: nat, r: nat, n: nat, padding: nat)
    requires n > 0 && padding < 4 && (k > 0 ==> k * n + 4 <= r * n + padding)
    ensures k == 0 || k < r
  {
    if k >= r { assert k * n == r * n + (k - r) * n; }
  }

  /** A v9 packet of one set of usable records, of a template with the shortest records known, with
      padding to a multiple of four: unless the bytes of the records hold a template set, the parser
      finds fewer flows than records. */
  lemma DataStartIsLost(h: seq<Byte>, id: nat, records: seq<Record>, padding: seq<Byte>, m: Templates)
    requires |h| == 20 && U16(h, 0) == 9 && ValidSet(DataSet(id, records, padding), 0, m)
    requires |padding| < 4 && records != [] && AllUsable(m[id], records)
    requires NoShorter(m, RecordLength(m[id])) && TemplateFree(WriteRecords(records) + padding)
    ensures
      var p := V9Packet(h, [DataSet(id, records, padding)]);
      && ValidPacket(p, m) && |PacketMeant(p, m).0| == |records|
      && var (flows, m') := Parse(WritePacket(p, m), m);
      && m' == m && flows.Some? && |flows.value| < |records|
    ensures !Harmless(DataSet(id, records, padding), m)
  {
    var flowSet := DataSet(id, records, padding);
    var content := WriteContent(flowSet, 0, m);
    assert content == WriteRecords(records) + padding;
    assert SetMeant(flowSet, 0, m) == (FlowsMeant(m[id], records), m);
    hide Walk, WriteRecords, WriteContent, SetMeant, Parse, WritePacket, ValidPacket, PacketMeant, RecordLength;
    hide TemplateFree, NoShorter, FlowsMeant, AllUsable;
    AloneParse(h, flowSet, m);
    WalkYields(content, m, RecordLength(m[id]));
    RecordsTake(records, m[id]);
    AllAreMeant(m[id], records);
    FewerTimes(|Walk(content, 0, m).0|, |records|, RecordLength(m[id]), |padding|);
  }

  lemma NoRoom(k: nat, n: nat, spare: nat)
    requires k > 0 ==> k * n + spare <= n
    requires spare > 0
    ensures k == 0
  {
    if k > 0 { Times(1, k - 1, n); }
  }

  /** A first set that the reader does not act on, of bytes that hold no template set and are too few for
      a record: it may stand in front of any others exactly if the lengths that are found in it lead to
      its end. */
  lemma OtherStartHarmlessIff(id: nat, content: seq<Byte>, m: Templates)
    requires ValidSet(OtherSet(id, content), 0, m) && TemplateFree(content) && NoShorter(m, |content|)
    ensures Harmless(OtherSet(id, content), m) <==> SetAligned(content)
  {
    hide Walk, SetAligned, TemplateFree, NoShorter;
    WalkYields(content, m, |content|);
    NoRoom(|Walk(content, 0, m).0|, |content|, 4);
  }

  // ---------- whole packets without a template set behind the first 24 bytes ----------

  /** Of any v9 packet, whatever its sets are: if no template set header that fits stands behind the
      bytes that are skipped, nothing is learned, and the flows found leave a set header to spare. */
  lemma TemplateFreeTeachesNothing(h: seq<Byte>, sets: seq<FlowSet>, m: Templates, n: nat)
    requires ValidPacket(V9Packet(h, sets), m) && sets != []
    requires NoShorter(m, n) && |WriteSets(sets, 0, m)| >= 4 && TemplateFree(WriteSets(sets, 0, m)[4..])
    ensures
      var (flows, m') := Parse(WritePacket(V9Packet(h, sets), m), m);
      m' == m && flows.Some? && (flows.value != [] ==> |flows.value| * n + 8 <= |WriteSets(sets, 0, m)|)
  {
    hide Walk, WriteSets, NoShorter, TemplateFree, Parse, WritePacket;
    V9Parse(h, sets, m);
    WalkYields(WriteSets(sets, 0, m)[4..], m, n);
  }

  /** So from an exporter that is not known yet, such a packet gives nothing, whatever it announces. */
  lemma UnknownExporterIsLost(h: seq<Byte>, sets: seq<FlowSet>)
    requires ValidPacket(V9Packet(h, sets), map[]) && sets != []
    requires |WriteSets(sets, 0, map[])| >= 4 && TemplateFree(WriteSets(sets, 0, map[])[4..])
    ensures Parse(WritePacket(V9Packet(h, sets), map[]), map[]) == (Some([]), map[])
  {
    assert ValidSets(sets, 0, map[]);
    hide WriteSets, TemplateFree, Parse, WritePacket, ValidPacket, ValidSets, RecordLength;
    var n := |WriteSets(sets, 0, map[])|;
    assert NoShorter(map[], n);
    hide NoShorter;
    TemplateFreeTeachesNothing(h, sets, map[], n);
    var (flows, m') := Parse(WritePacket(V9Packet(h, sets), map[]), map[]);
    NoRoom(|flows.value|, n, 8);
  }

  // ---------- a template that nobody sent ----------

  /** The template as it is announced. */
  function WrongValue(t: Template): (s: seq<Byte>)
    requires ValidTemplate(t) && |t.fields| == 1
    ensures |s| == 8
  {
    Bytes16(t.id) + Bytes16(1) + Bytes16(t.fields[0].kind) + Bytes16(t.fields[0].length)
  }

  /** An announcement of two fields, and a record of it whose second field looks like an announcement. */
  function WrongSets(t: Template): seq<FlowSet>
    requires ValidTemplate(t) && |t.fields| == 1
  {
    [TemplateSet([Template(256, [Field(14, 4), Field(23, 8)])], []),
     DataSet(256, [[[0, 0, 0, 12], WrongValue(t)]], [])]
  }

  lemma WrongTemplateWritten(m: Templates)
    ensures
      var flowSet := TemplateSet([Template(256, [Field(14, 4), Field(23, 8)])], []);
      && ValidSet(flowSet, 0, m)
      && SetMeant(flowSet, 0, m) == ([], m[256 := [Field(14, 4), Field(23, 8)]])
      && WriteContent(flowSet, 0, m) == [1, 0, 0, 2, 0, 14, 0, 4, 0, 23, 0, 8]
  {
    var f, g, none: seq<Field> := Field(14, 4), Field(23, 8), [];
    OneMoreWritten(g, none);
    OneMoreWritten(f, [g]);
    assert [g] + none == [g] && [f] + [g] == [f, g];
    assert WriteFields([f, g]) == [0, 14, 0, 4, 0, 23, 0, 8];
    hide WriteFields, WriteContent, ValidSet, SetMeant, ValidFields;
    OneTemplate(256, [f, g], m);
    assert Bytes16(256) == [1, 0] && Bytes16(2) == [0, 2];
  }

  lemma WrongRecordWritten(value: seq<Byte>, m: Templates)
    requires |value| == 8 && 256 in m && m[256] == [Field(14, 4), Field(23, 8)]
    ensures
      var flowSet := DataSet(256, [[[0, 0, 0, 12], value]], []);
      ValidSet(flowSet, 0, m) && WriteSet(flowSet, 0, m) == [1, 0, 0, 16] + ([0, 0, 0, 12] + value)
      && SetMeant(flowSet, 0, m) == ([], m)
  {
    hide FlowMeant, FlowsMeant, WriteRecords, WriteSet, SetMeant, AllFit, ValidSet, LastValue;
    var first: seq<Byte> := [0, 0, 0, 12];
    var values: Record := [first, value];
    hide RecordLength, Concat;
    var f, g := Field(14, 4), Field(23, 8);
    WrongValues(f, g, first, value, SOURCE_ADDRESS);
    assert Fits(values, m[256]);
    OneRecord(m[256], values);
    DataSetWritten(256, [values], first + value, m);
    assert Bytes16(256) + Bytes16(16) == [1, 0, 0, 16];
    NoFlow(values);
  }

  lemma WrongValues(f: Field, g: Field, first: seq<Byte>, value: seq<Byte>, kind: nat)
    requires f.kind != kind && g.kind != kind
    ensures RecordLength([f, g]) == f.length + g.length && Concat([first, value]) == first + value
    ensures LastValue([f, g], [first, value], kind) == None
  {
    hide LastValue, RecordLength, Concat;
    OneMoreField([], [], f, first, kind);
    OneMoreField([f], [first], g, value, kind);
    NoFields(kind);
    assert [] + [f] == [f] && [f] + [g] == [f, g] && [] + [first] == [first] && [first] + [value] == [first, value];
    assert [] + first == first;
  }

  lemma NoFlow(values: Record)
    requires |values| == 2 && LastValue([Field(14, 4), Field(23, 8)], values, SOURCE_ADDRESS) == None
    ensures IfUsable(FlowMeant([Field(14, 4), Field(23, 8)], values)) == []
  {
    hide LastValue, BigEndian;
  }

  /** A set of an id that is not known is skipped. */
  lemma SkipsUnknown(s: seq<Byte>, m: Templates)
    requires SetAhead(s) && U16(s, 0) != 0 && U16(s, 0) !in m
    ensures Walk(s, 0, m) == Walk(s[U16(s, 2)..], 0, m)
  {
    hide ReadTemplates, ReadRecords;
    var more := Walk(s[U16(s, 2)..], 0, m).0;
    assert ReadSet(U16(s, 0), SetContent(s), 0, m) == ([], m);
    assert [] + more == more;
  }

  lemma TwoSkipped(s: seq<Byte>)
    requires |s| >= 16 && s[..6] == [1, 0, 0, 2, 0, 14]
    ensures Walk(s, 0, map[]) == Walk(s[16..], 0, map[])
  {
    assert U16(s, 0) == U16(s[..6], 0) == 256 && U16(s, 2) == U16(s[..6], 2) == 2 && U16(s, 4) == U16(s[..6], 4) == 14;
    hide Walk;
    SkipsUnknown(s, map[]);
    assert U16(s[2..], 0) == U16(s, 2) && U16(s[2..], 2) == U16(s, 4);
    SkipsUnknown(s[2..], map[]);
    assert s[2..][14..] == s[16..];
  }

  lemma RecordIsTaught(value: seq<Byte>)
    requires |value| == 8
    ensures Walk([0, 0, 0, 12] + value, 0, map[]) == ([], ReadTemplates(value, map[]))
  {
    hide ReadTemplates;
    var s: seq<Byte> := [0, 0, 0, 12] + value;
    LastSet(s, map[]);
    assert SetContent(s) == value;
  }

  /** The walk comes to the record over whole sets, and takes it for an announcement. */
  lemma WrongSetsRead(first: seq<Byte>, second: seq<Byte>, value: seq<Byte>)
    requires |first| == 12 && first[..6] == [1, 0, 0, 2, 0, 14] && |second| == 4 && |value| == 8
    ensures Walk(first + (second + ([0, 0, 0, 12] + value)), 0, map[]) == ([], ReadTemplates(value, map[]))
  {
    hide ReadTemplates, Walk;
    var last: seq<Byte> := [0, 0, 0, 12] + value;
    var s := first + second + last;
    Assoc(first, second, last);
    assert s[..6] == first[..6];
    TwoSkipped(s);
    DropHead(first + second, last);
    RecordIsTaught(value);
  }

  lemma WrongPacketMeant(t: Template)
    requires ValidTemplate(t) && |t.fields| == 1
    ensures
      var sets := WrongSets(t);
      && ValidSets(sets, 0, map[]) && SetsMeant(sets, 0, map[]) == ([], map[256 := [Field(14, 4), Field(23, 8)]])
      && V9Read(sets, map[])
         == Walk([1, 0, 0, 2, 0, 14, 0, 4, 0, 23, 0, 8] + ([1, 0, 0, 16] + ([0, 0, 0, 12] + WrongValue(t))), 0, map[])
  {
    var sets, m := WrongSets(t), map[256 := [Field(14, 4), Field(23, 8)]];
    WrongTemplateWritten(map[]);
    hide Bytes16, WrongValue;
    WrongRecordWritten(WrongValue(t), m);
    hide ValidSet, SetMeant, WriteSet, WriteContent, Walk, WriteSets, ValidSets, SetsMeant;
    assert sets == [sets[0]] + [sets[1]] && sets[1..] == [sets[1]];
    SetsOne(sets[1], m);
    SetsCons(sets[0], [sets[1]], map[]);
    FirstSetWritten(sets, map[]);
  }

  /** The parser can learn a template that nobody sent: the announcement of two fields is lost, and what
      stands in a field of the record is learned in its place. */
  lemma WrongTemplateIsLearned(h: seq<Byte>, t: Template)
    requires |h| == 20 && U16(h, 0) == 9 && ValidTemplate(t) && |t.fields| == 1
    ensures
      var p := V9Packet(h, WrongSets(t));
      && ValidPacket(p, map[]) && PacketMeant(p, map[]) == ([], map[256 := [Field(14, 4), Field(23, 8)]])
      && Parse(WritePacket(p, map[]), map[]) == (Some([]), map[t.id := t.fields])
  {
    hide WrongSets, WrongValue, ValidSets, SetsMeant, Walk, V9Read, Parse, WritePacket, ReadTemplates;
    WrongPacketMeant(t);
    LearnsOne(t);
    WrongSetsRead([1, 0, 0, 2, 0, 14, 0, 4, 0, 23, 0, 8], [1, 0, 0, 16], WrongValue(t));
    V9Parse(h, WrongSets(t), map[]);
  }

  lemma LearnsOne(t: Template)
    requires ValidTemplate(t) && |t.fields| == 1
    ensures ReadTemplates(WrongValue(t), map[]) == map[t.id := t.fields]
  {
    var f, none: seq<Field> := t.fields[0], [];
    var value := WrongValue(t);
    OneTemplate(t.id, t.fields, map[]);
    OneMoreWritten(f, none);
    assert t.fields == [f] + none && WriteFields(none) == [];
    hide Bytes16, WriteFields, ReadTemplates, ValidFields;
    TemplatesRoundTrip([t], [], map[]);
    assert WriteContent(TemplateSet([t], []), 0, map[]) == value;
  }
}
