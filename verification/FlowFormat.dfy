/** The NetFlow v9 / IPFIX wire format as lib/telemetry.js reads it: a walk over byte strings, and the
    encoder the walk undoes.

    The format is that of sections 5.2 and 5.3 of RFC 3954 and sections 3.3 and 3.4 of RFC 7011 for
    fixed-length fields without enterprise numbers.
 */
module FlowFormat {
  import opened Shared

  datatype Field = Field(kind: nat, length: nat)
  datatype Address = NoAddress | IPv4(a: Byte, b: Byte, c: Byte, d: Byte)
  datatype Flow = Flow(src: Address, dst: Address, bytes: nat)

  /** The template map kept per exporter: template id to field list. */
  type Templates = map<nat, seq<Field>>

  const BYTE_COUNT := 1
  const SOURCE_ADDRESS := 8
  const DESTINATION_ADDRESS := 12
  const FIRST_TEMPLATE_ID := 256

  // ---------- reading ----------

  function U16(s: seq<Byte>, i: nat): (n: nat)
    requires i + 2 <= |s|
    ensures n < 0x1_0000
  {
    (s[i] as int) * 256 + s[i + 1]
  }

  function BigEndian(s: seq<Byte>): nat {
    if s == [] then 0 else BigEndian(s[..|s| - 1]) * 256 + s[|s| - 1]
  }

  function ReadAddress(s: seq<Byte>): Address {
    if |s| < 4 then NoAddress else IPv4(s[0], s[1], s[2], s[3])
  }

  /** At most `count` field specifiers; a truncated list ends early. */
  function ReadFields(s: seq<Byte>, count: nat): (fields: seq<Field>)
    ensures |fields| <= count && 4 * |fields| <= |s|
  {
    if count == 0 || |s| < 4 then []
    else [Field(U16(s, 0), U16(s, 2))] + ReadFields(s[4..], count - 1)
  }

  function Learn(m: Templates, id: nat, fields: seq<Field>): Templates {
    if id >= FIRST_TEMPLATE_ID && fields != [] then m[id := fields] else m
  }

  function ReadTemplates(s: seq<Byte>, m: Templates): Templates
    decreases |s|
  {
    if |s| < 4 then m
    else
      var fields := ReadFields(s[4..], U16(s, 2));
      ReadTemplates(s[4 + 4 * |fields|..], Learn(m, U16(s, 0), fields))
  }

  function RecordLength(fields: seq<Field>): nat {
    if fields == [] then 0
    else RecordLength(fields[..|fields| - 1]) + fields[|fields| - 1].length
  }

  /** One field value taken into the record read so far. */
  function TakeField(flow: Flow, kind: nat, value: seq<Byte>): Flow {
    if kind == SOURCE_ADDRESS then flow.(src := ReadAddress(value))
    else if kind == DESTINATION_ADDRESS then flow.(dst := ReadAddress(value))
    else if kind == BYTE_COUNT then flow.(bytes := BigEndian(value))
    else flow
  }

  function ReadRecord(s: seq<Byte>, fields: seq<Field>): Flow
    requires RecordLength(fields) <= |s|
  {
    if fields == [] then Flow(NoAddress, NoAddress, 0)
    else
      var n := |fields| - 1;
      var at := RecordLength(fields[..n]);
      TakeField(ReadRecord(s, fields[..n]), fields[n].kind, s[at..at + fields[n].length])
  }

  predicate Usable(flow: Flow) {
    flow.src != NoAddress && flow.bytes > 0
  }

  function IfUsable(flow: Flow): seq<Flow> {
    if Usable(flow) then [flow] else []
  }

  function ReadRecords(s: seq<Byte>, fields: seq<Field>): seq<Flow>
    decreases |s|
  {
    var n := RecordLength(fields);
    if n == 0 || |s| < n then []
    else IfUsable(ReadRecord(s, fields)) + ReadRecords(s[n..], fields)
  }

  /** The records of one set and the template map after it. */
  function ReadSet(id: nat, content: seq<Byte>, templateSetId: nat, m: Templates): (seq<Flow>, Templates) {
    if id == templateSetId then ([], ReadTemplates(content, m))
    else if id >= FIRST_TEMPLATE_ID && id in m then (ReadRecords(content, m[id]), m)
    else ([], m)
  }

  /** A set header is there, and the set it announces lies within s. */
  predicate SetAhead(s: seq<Byte>) {
    |s| >= 4 && 0 < U16(s, 2) <= |s|
  }

  /** What follows the header of the first set; nothing when the length does not cover the header. */
  function SetContent(s: seq<Byte>): seq<Byte>
    requires SetAhead(s)
  {
    if U16(s, 2) < 4 then [] else s[4..U16(s, 2)]
  }

  /** The walk over the sets of a packet body. */
  function Walk(s: seq<Byte>, templateSetId: nat, m: Templates): (seq<Flow>, Templates)
    decreases |s|
  {
    if !SetAhead(s) then ([], m)
    else
      var (flows, m') := ReadSet(U16(s, 0), SetContent(s), templateSetId, m);
      var (more, m'') := Walk(s[U16(s, 2)..], templateSetId, m');
      (flows + more, m'')
  }

  function ReadV5(s: seq<Byte>, count: nat): seq<Flow> {
    if count == 0 || |s| < 48 then []
    else [Flow(ReadAddress(s), ReadAddress(s[4..]), BigEndian(s[20..24]))] + ReadV5(s[48..], count - 1)
  }

  /** What a packet means under a template map: None stands for null. */
  function Parse(packet: seq<Byte>, m: Templates): (Option<seq<Flow>>, Templates) {
    if |packet| < 2 then (Some([]), m)
    else if U16(packet, 0) == 5 then
      (if |packet| < 24 then None else Some(ReadV5(packet[24..], U16(packet, 2))), m)
    else if U16(packet, 0) == 9 then
      if |packet| < 24 then (Some([]), m)
      else var (flows, m') := Walk(packet[24..], 0, m); (Some(flows), m')
    else if U16(packet, 0) == 10 then
      if |packet| < 16 then (Some([]), m)
      else var (flows, m') := Walk(packet[16..], 2, m); (Some(flows), m')
    else (Some([]), m)
  }

  // ---------- writing ----------

  datatype Template = Template(id: nat, fields: seq<Field>)

  /** A data record lists one byte string per field. */
  type Record = seq<seq<Byte>>

  datatype FlowSet =
    | TemplateSet(templates: seq<Template>, padding: seq<Byte>)
    | DataSet(id: nat, records: seq<Record>, padding: seq<Byte>)
    | OtherSet(id: nat, content: seq<Byte>)

  function Bytes16(n: nat): (s: seq<Byte>)
    requires n < 0x1_0000
    ensures |s| == 2 && U16(s, 0) == n
  {
    [n / 256, n % 256]
  }

  predicate ValidField(f: Field) {
    f.kind < 0x1_0000 && f.length < 0x1_0000
  }

  predicate ValidFields(fields: seq<Field>) {
    forall i :: 0 <= i < |fields| ==> ValidField(fields[i])
  }

  predicate ValidTemplate(t: Template) {
    && FIRST_TEMPLATE_ID <= t.id < 0x1_0000
    && 0 < |t.fields| < 0x1_0000
    && ValidFields(t.fields)
  }

  predicate ValidTemplates(templates: seq<Template>) {
    forall i :: 0 <= i < |templates| ==> ValidTemplate(templates[i])
  }

  function WriteFields(fields: seq<Field>): seq<Byte>
    requires ValidFields(fields)
  {
    if fields == [] then []
    else Bytes16(fields[0].kind) + Bytes16(fields[0].length) + WriteFields(fields[1..])
  }

  function WriteTemplates(templates: seq<Template>): seq<Byte>
    requires ValidTemplates(templates)
  {
    if templates == [] then []
    else
      var t := templates[0];
      Bytes16(t.id) + Bytes16(|t.fields|) + WriteFields(t.fields) + WriteTemplates(templates[1..])
  }

  function Concat(values: Record): seq<Byte> {
    if values == [] then [] else Concat(values[..|values| - 1]) + values[|values| - 1]
  }

  function WriteRecords(records: seq<Record>): seq<Byte> {
    if records == [] then [] else Concat(records[0]) + WriteRecords(records[1..])
  }

  predicate Fits(values: Record, fields: seq<Field>) {
    |values| == |fields| && forall k :: 0 <= k < |fields| ==> |values[k]| == fields[k].length
  }

  predicate AllFit(records: seq<Record>, fields: seq<Field>) {
    forall i :: 0 <= i < |records| ==> Fits(records[i], fields)
  }

  /** The set can be written when the template map is m: a template set announces templates, with
      padding shorter than a template header; a data set follows a known template, with padding
      shorter than a record; any other set has an id the reader does not act on. */
  predicate ValidSet(flowSet: FlowSet, templateSetId: nat, m: Templates) {
    match flowSet
    case TemplateSet(templates, padding) =>
      && templateSetId < FIRST_TEMPLATE_ID
      && ValidTemplates(templates)
      && |padding| < 4
      && |WriteTemplates(templates) + padding| + 4 < 0x1_0000
    case DataSet(id, records, padding) =>
      && FIRST_TEMPLATE_ID <= id < 0x1_0000 && id != templateSetId && id in m
      && AllFit(records, m[id])
      && |padding| < RecordLength(m[id])
      && |WriteRecords(records) + padding| + 4 < 0x1_0000
    case OtherSet(id, content) =>
      && id < 0x1_0000 && id != templateSetId && (id < FIRST_TEMPLATE_ID || id !in m)
      && |content| + 4 < 0x1_0000
  }

  function SetId(flowSet: FlowSet, templateSetId: nat): nat {
    if flowSet.TemplateSet? then templateSetId else flowSet.id
  }

  function WriteContent(flowSet: FlowSet, templateSetId: nat, m: Templates): (s: seq<Byte>)
    requires ValidSet(flowSet, templateSetId, m)
    ensures |s| + 4 < 0x1_0000
  {
    match flowSet
    case TemplateSet(templates, padding) => WriteTemplates(templates) + padding
    case DataSet(id, records, padding) => WriteRecords(records) + padding
    case OtherSet(id, content) => content
  }

  function WriteSet(flowSet: FlowSet, templateSetId: nat, m: Templates): seq<Byte>
    requires ValidSet(flowSet, templateSetId, m)
  {
    var content := WriteContent(flowSet, templateSetId, m);
    Bytes16(SetId(flowSet, templateSetId)) + Bytes16(|content| + 4) + content
  }

  // ---------- meaning ----------

  /** The value of the last field of that kind. */
  function LastValue(fields: seq<Field>, values: Record, kind: nat): Option<seq<Byte>>
    requires |fields| == |values|
  {
    if fields == [] then None
    else
      var n := |fields| - 1;
      if fields[n].kind == kind then Some(values[n]) else LastValue(fields[..n], values[..n], kind)
  }

  function AddressMeant(value: Option<seq<Byte>>): Address {
    match value case None => NoAddress case Some(s) => ReadAddress(s)
  }

  function CountMeant(value: Option<seq<Byte>>): nat {
    match value case None => 0 case Some(s) => BigEndian(s)
  }

  function FlowMeant(fields: seq<Field>, values: Record): Flow
    requires |fields| == |values|
  {
    Flow(AddressMeant(LastValue(fields, values, SOURCE_ADDRESS)),
         AddressMeant(LastValue(fields, values, DESTINATION_ADDRESS)),
         CountMeant(LastValue(fields, values, BYTE_COUNT)))
  }

  /** The records that have a source address and a positive byte count, in order. */
  function FlowsMeant(fields: seq<Field>, records: seq<Record>): seq<Flow>
    requires AllFit(records, fields)
  {
    if records == [] then []
    else IfUsable(FlowMeant(fields, records[0])) + FlowsMeant(fields, records[1..])
  }

  function LearnAll(m: Templates, templates: seq<Template>): Templates
    decreases |templates|
  {
    if templates == [] then m else LearnAll(m[templates[0].id := templates[0].fields], templates[1..])
  }

  function SetMeant(flowSet: FlowSet, templateSetId: nat, m: Templates): (seq<Flow>, Templates)
    requires ValidSet(flowSet, templateSetId, m)
  {
    match flowSet
    case TemplateSet(templates, _) => ([], LearnAll(m, templates))
    case DataSet(id, records, _) => (FlowsMeant(m[id], records), m)
    case OtherSet(_, _) => ([], m)
  }

  predicate ValidSets(sets: seq<FlowSet>, templateSetId: nat, m: Templates) {
    sets == []
    || (ValidSet(sets[0], templateSetId, m)
        && ValidSets(sets[1..], templateSetId, SetMeant(sets[0], templateSetId, m).1))
  }

  function WriteSets(sets: seq<FlowSet>, templateSetId: nat, m: Templates): seq<Byte>
    requires ValidSets(sets, templateSetId, m)
  {
    if sets == [] then []
    else WriteSet(sets[0], templateSetId, m)
         + WriteSets(sets[1..], templateSetId, SetMeant(sets[0], templateSetId, m).1)
  }

  function SetsMeant(sets: seq<FlowSet>, templateSetId: nat, m: Templates): (seq<Flow>, Templates)
    requires ValidSets(sets, templateSetId, m)
  {
    if sets == [] then ([], m)
    else
      var (flows, m') := SetMeant(sets[0], templateSetId, m);
      var (more, m'') := SetsMeant(sets[1..], templateSetId, m');
      (flows + more, m'')
  }

  // ---------- the walk undoes the writer ----------

  lemma DropHead<T>(a: seq<T>, b: seq<T>)
    ensures (a + b)[|a|..] == b
  {
  }

  lemma DropTwo<T>(a: seq<T>, b: seq<T>, c: seq<T>)
    ensures (a + b + c)[|a| + |b|..] == c
  {
  }

  lemma HeaderReads(x: nat, y: nat, rest: seq<Byte>)
    requires x < 0x1_0000 && y < 0x1_0000
    ensures |Bytes16(x) + Bytes16(y) + rest| >= 4
    ensures U16(Bytes16(x) + Bytes16(y) + rest, 0) == x
    ensures U16(Bytes16(x) + Bytes16(y) + rest, 2) == y
    ensures (Bytes16(x) + Bytes16(y) + rest)[4..] == rest
  {
    hide Bytes16;
    var a, b := Bytes16(x), Bytes16(y);
    DropTwo(a, b, rest);
    var s := a + b + rest;
    assert s[0] == a[0] && s[1] == a[1] && s[2] == b[0] && s[3] == b[1];
  }

  lemma {:induction false} FieldsRoundTrip(fields: seq<Field>, rest: seq<Byte>)
    requires ValidFields(fields)
    ensures |WriteFields(fields)| == 4 * |fields|
    ensures ReadFields(WriteFields(fields) + rest, |fields|) == fields
  {
    hide U16, Bytes16;
    if fields != [] {
      var f, tail := fields[0], fields[1..];
      FieldsRoundTrip(tail, rest);
      var more := WriteFields(tail) + rest;
      HeaderReads(f.kind, f.length, more);
      Assoc(Bytes16(f.kind) + Bytes16(f.length), WriteFields(tail), rest);
    }
  }

  lemma {:induction false} TemplatesRoundTrip(templates: seq<Template>, padding: seq<Byte>, m: Templates)
    requires ValidTemplates(templates) && |padding| < 4
    ensures ReadTemplates(WriteTemplates(templates) + padding, m) == LearnAll(m, templates)
  {
    hide U16, Bytes16, ReadFields, WriteFields;
    if templates == [] {
      assert WriteTemplates(templates) + padding == padding;
    } else {
      var t, tail := templates[0], templates[1..];
      assert ValidTemplate(t);
      var more := WriteTemplates(tail) + padding;
      var s := WriteTemplates(templates) + padding;
      FieldsRoundTrip(t.fields, more);
      HeaderReads(t.id, |t.fields|, WriteFields(t.fields) + more);
      TemplateAhead(t, WriteTemplates(tail), padding);
      assert s[4..] == WriteFields(t.fields) + more;
      DropHead(WriteFields(t.fields), more);
      assert s[4 + 4 * |t.fields|..] == s[4..][4 * |t.fields|..];
      TemplatesRoundTrip(tail, padding, m[t.id := t.fields]);
    }
  }

  lemma TemplateAhead(t: Template, tail: seq<Byte>, padding: seq<Byte>)
    requires ValidTemplate(t)
    ensures Bytes16(t.id) + Bytes16(|t.fields|) + WriteFields(t.fields) + tail + padding
         == Bytes16(t.id) + Bytes16(|t.fields|) + (WriteFields(t.fields) + (tail + padding))
  {
    hide Bytes16, WriteFields;
  }

  lemma {:induction false} ConcatLength(values: Record, fields: seq<Field>)
    requires Fits(values, fields)
    ensures |Concat(values)| == RecordLength(fields)
  {
    if values != [] {
      var n := |values| - 1;
      ConcatLength(values[..n], fields[..n]);
    }
  }

  lemma {:induction false} RecordRoundTrip(values: Record, fields: seq<Field>, rest: seq<Byte>)
    requires Fits(values, fields)
    ensures RecordLength(fields) <= |Concat(values) + rest|
    ensures ReadRecord(Concat(values) + rest, fields) == FlowMeant(fields, values)
  {
    hide BigEndian, ReadAddress;
    ConcatLength(values, fields);
    if values != [] {
      var n := |values| - 1;
      var head, last := Concat(values[..n]), values[n];
      ConcatLength(values[..n], fields[..n]);
      RecordRoundTrip(values[..n], fields[..n], last + rest);
      Assoc(head, last, rest);
      var s := Concat(values) + rest;
      assert s == head + (last + rest);
      Middle(head, last, rest);
      assert s[|head|..|head| + |last|] == last;
    }
  }

  lemma Middle<T>(a: seq<T>, b: seq<T>, c: seq<T>)
    ensures (a + (b + c))[|a|..|a| + |b|] == b
  {
  }

  lemma {:induction false} RecordsRoundTrip(records: seq<Record>, fields: seq<Field>, padding: seq<Byte>)
    requires AllFit(records, fields) && |padding| < RecordLength(fields)
    ensures ReadRecords(WriteRecords(records) + padding, fields) == FlowsMeant(fields, records)
  {
    hide RecordLength, ReadRecord, Concat, FlowMeant, IfUsable;
    if records == [] {
      assert WriteRecords(records) + padding == padding;
    } else {
      var r, tail := records[0], records[1..];
      var more := WriteRecords(tail) + padding;
      ConcatLength(r, fields);
      RecordRoundTrip(r, fields, more);
      Assoc(Concat(r), WriteRecords(tail), padding);
      DropHead(Concat(r), more);
      RecordsRoundTrip(tail, fields, padding);
    }
  }

  lemma ContentRoundTrip(flowSet: FlowSet, templateSetId: nat, m: Templates)
    requires ValidSet(flowSet, templateSetId, m)
    ensures ReadSet(SetId(flowSet, templateSetId), WriteContent(flowSet, templateSetId, m), templateSetId, m)
         == SetMeant(flowSet, templateSetId, m)
  {
    hide ReadTemplates, WriteTemplates, ReadRecords, WriteRecords, FlowsMeant, LearnAll, Fits, RecordLength;
    match flowSet
    case TemplateSet(templates, padding) => TemplatesRoundTrip(templates, padding, m);
    case DataSet(id, records, padding) => RecordsRoundTrip(records, m[id], padding);
    case OtherSet(_, _) =>
  }

  lemma SetIdFits(flowSet: FlowSet, templateSetId: nat, m: Templates)
    requires ValidSet(flowSet, templateSetId, m)
    ensures SetId(flowSet, templateSetId) < 0x1_0000
  {
  }

  /** A written set in front of anything is read as what it means, and the walk goes on behind it. */
  lemma SetRoundTrip(flowSet: FlowSet, templateSetId: nat, m: Templates, rest: seq<Byte>)
    requires ValidSet(flowSet, templateSetId, m)
    ensures
      var (flows, m') := SetMeant(flowSet, templateSetId, m);
      var (more, m'') := Walk(rest, templateSetId, m');
      Walk(WriteSet(flowSet, templateSetId, m) + rest, templateSetId, m) == (flows + more, m'')
  {
    hide ValidSet, SetMeant, ReadSet, WriteContent, Bytes16, U16, SetId;
    SetIdFits(flowSet, templateSetId, m);
    var content, id := WriteContent(flowSet, templateSetId, m), SetId(flowSet, templateSetId);
    var n := |content| + 4;
    var s := WriteSet(flowSet, templateSetId, m) + rest;
    HeaderReads(id, n, content + rest);
    Assoc(Bytes16(id) + Bytes16(n), content, rest);
    DropHead(content, rest);
    assert s[4..] == content + rest;
    assert s[4..n] == s[4..][..n - 4] == content;
    assert s[n..] == s[4..][n - 4..] == rest;
    ContentRoundTrip(flowSet, templateSetId, m);
  }

  lemma WalkOfNothing(templateSetId: nat, m: Templates)
    ensures Walk([], templateSetId, m) == ([], m)
  {
  }

  lemma {:induction false} SetsRoundTrip(sets: seq<FlowSet>, templateSetId: nat, m: Templates)
    requires ValidSets(sets, templateSetId, m)
    ensures Walk(WriteSets(sets, templateSetId, m), templateSetId, m) == SetsMeant(sets, templateSetId, m)
  {
    hide WriteSet, SetMeant, ValidSet, Walk;
    if sets == [] {
      WalkOfNothing(templateSetId, m);
    } else {
      var m' := SetMeant(sets[0], templateSetId, m).1;
      SetRoundTrip(sets[0], templateSetId, m, WriteSets(sets[1..], templateSetId, m'));
      SetsRoundTrip(sets[1..], templateSetId, m');
    }
  }

  // ---------- composition ----------

  /** The bytes are a sequence of whole sets. */
  predicate SetAligned(s: seq<Byte>)
    decreases |s|
  {
    s == [] || (SetAhead(s) && SetAligned(s[U16(s, 2)..]))
  }

  /** Walking two set-aligned bodies one after the other, with the template map carried over, is
      walking them in one go; nothing is asked of the second body. */
  lemma {:induction false} WalkComposes(a: seq<Byte>, b: seq<Byte>, templateSetId: nat, m: Templates)
    requires SetAligned(a)
    ensures
      var (flows, m') := Walk(a, templateSetId, m);
      var (more, m'') := Walk(b, templateSetId, m');
      Walk(a + b, templateSetId, m) == (flows + more, m'')
    decreases |a|
  {
    hide ReadSet;
    if a == [] {
      assert a + b == b;
      var more := Walk(b, templateSetId, m).0;
      assert [] + more == more;
    } else {
      SetAheadExtends(a, b);
      var n := U16(a, 2);
      var (flows, m') := ReadSet(U16(a, 0), SetContent(a), templateSetId, m);
      WalkComposes(a[n..], b, templateSetId, m');
      var (mid, m1) := Walk(a[n..], templateSetId, m');
      var (more, m2) := Walk(b, templateSetId, m1);
      Assoc(flows, mid, more);
    }
  }

  lemma SetAheadExtends(a: seq<Byte>, b: seq<Byte>)
    requires SetAhead(a)
    ensures SetAhead(a + b) && U16(a + b, 0) == U16(a, 0) && U16(a + b, 2) == U16(a, 2)
    ensures SetContent(a + b) == SetContent(a)
    ensures (a + b)[U16(a, 2)..] == a[U16(a, 2)..] + b
  {
    var n := U16(a, 2);
    assert U16(a + b, 2) == n;
    if n >= 4 { assert (a + b)[4..n] == a[4..n]; }
  }

  /** Whatever the writer writes is set-aligned. */
  lemma {:induction false} WrittenIsAligned(sets: seq<FlowSet>, templateSetId: nat, m: Templates)
    requires ValidSets(sets, templateSetId, m)
    ensures SetAligned(WriteSets(sets, templateSetId, m))
  {
    hide ValidSet, SetMeant, WriteContent, Bytes16, U16, SetId;
    if sets != [] {
      var flowSet := sets[0];
      var m' := SetMeant(flowSet, templateSetId, m).1;
      var content, rest := WriteContent(flowSet, templateSetId, m), WriteSets(sets[1..], templateSetId, m');
      WrittenIsAligned(sets[1..], templateSetId, m');
      SetIdFits(flowSet, templateSetId, m);
      HeaderReads(SetId(flowSet, templateSetId), |content| + 4, content + rest);
      Assoc(Bytes16(SetId(flowSet, templateSetId)) + Bytes16(|content| + 4), content, rest);
      DropHead(content, rest);
      var s := WriteSets(sets, templateSetId, m);
      assert s[|content| + 4..] == s[4..][|content|..];
    }
  }
}
