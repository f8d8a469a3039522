/** The parser loops of lib/telemetry.js, proved against FlowFormat. Every read stays inside the
    buffer and every loop ends; that is part of what the verifier checks here. */
module FlowParser {
  import opened FlowFormat
  import opened Shared

  /** The template map of one exporter, which the parser updates in place. */
  class TemplateCache {
    var table: Templates

    constructor ()
      ensures table == map[]
    {
      table := map[];
    }
  }

  /** The bytes a (offset, length) pair selects; a negative length selects none. */
  function Slice(buf: seq<Byte>, offset: nat, length: int): (s: seq<Byte>)
    requires offset + length <= |buf|
  {
    if length <= 0 then [] else buf[offset..offset + length]
  }

  lemma SubSlice<T>(s: seq<T>, a: nat, b: nat, c: nat)
    requires a <= b <= c <= |s|
    ensures s[a..c][b - a..] == s[b..c] && s[a..c][..b - a] == s[a..b]
  {
  }

  lemma HeaderAt(buf: seq<Byte>, pos: nat, end: nat)
    requires pos + 4 <= end <= |buf|
    ensures U16(buf[pos..end], 0) == U16(buf, pos) && U16(buf[pos..end], 2) == U16(buf, pos + 2)
    ensures buf[pos..end][4..] == buf[pos + 4..end]
  {
    SubSlice(buf, pos, pos + 4, end);
  }

  lemma DropMore<T>(s: seq<T>, a: nat, b: nat)
    requires a + b <= |s|
    ensures s[a..][b..] == s[a + b..]
  {
  }

  /** readUnsignedBE (lib/telemetry.js:205-220). */
  method ReadUnsignedBE(buf: seq<Byte>, offset: nat, length: nat) returns (n: nat)
    ensures n == if offset + length > |buf| then 0 else BigEndian(buf[offset..offset + length])
  {
    if offset + length > |buf| { return 0; }
    ghost var s := buf[offset..offset + length];
    if length == 1 {
      OneByte(s);
      return buf[offset];
    }
    if length == 2 {
      TwoBytes(s);
      return U16(buf, offset);
    }
    if length == 4 {
      FourBytes(s);
      return U32(buf, offset);
    }
    if length == 8 {
      var hi := U32(buf, offset);
      var lo := U32(buf, offset + 4);
      EightBytes(s);
      return hi * 0x1_0000_0000 + lo;
    }
    n := 0;
    for i := 0 to length
      invariant n == BigEndian(s[..i])
    {
      assert s[..i + 1][..i] == s[..i];
      n := n * 256 + buf[offset + i];
    }
    assert s[..length] == s;
  }

  function U32(s: seq<Byte>, i: nat): (n: nat)
    requires i + 4 <= |s|
  {
    U16(s, i) * 0x1_0000 + U16(s, i + 2)
  }

  lemma OneByte(s: seq<Byte>)
    requires |s| == 1
    ensures BigEndian(s) == s[0]
  {
    assert s[..0] == [];
  }

  lemma TwoBytes(s: seq<Byte>)
    requires |s| == 2
    ensures BigEndian(s) == U16(s, 0)
  {
    OneByte(s[..1]);
  }

  lemma FourBytes(s: seq<Byte>)
    requires |s| == 4
    ensures BigEndian(s) == U32(s, 0)
  {
    assert s[..3][..2] == s[..2];
    TwoBytes(s[..2]);
    assert BigEndian(s[..3]) == BigEndian(s[..2]) * 256 + s[2];
  }

  /** Four more bytes shift the value by four bytes. */
  lemma FourMore(s: seq<Byte>, k: nat)
    requires k + 4 <= |s|
    ensures BigEndian(s[..k + 4]) == BigEndian(s[..k]) * 0x1_0000_0000 + U32(s, k)
  {
    assert s[..k + 4][..k + 3] == s[..k + 3];
    assert s[..k + 3][..k + 2] == s[..k + 2];
    assert s[..k + 2][..k + 1] == s[..k + 1];
    assert s[..k + 1][..k] == s[..k];
    assert BigEndian(s[..k + 1]) == BigEndian(s[..k]) * 256 + s[k];
    assert BigEndian(s[..k + 2]) == BigEndian(s[..k + 1]) * 256 + s[k + 1];
    assert BigEndian(s[..k + 3]) == BigEndian(s[..k + 2]) * 256 + s[k + 2];
  }

  lemma EightBytes(s: seq<Byte>)
    requires |s| == 8
    ensures BigEndian(s) == U32(s, 0) * 0x1_0000_0000 + U32(s, 4)
  {
    assert U32(s[..4], 0) == U32(s, 0);
    hide BigEndian, U32;
    FourMore(s, 4);
    assert s[..8] == s;
    FourBytes(s[..4]);
  }

  /** parseIPv4 (lib/telemetry.js:222-225). */
  function ParseIPv4(buf: seq<Byte>, offset: nat, length: nat): (a: Address)
    ensures offset + length <= |buf| ==> a == ReadAddress(buf[offset..offset + length])
  {
    if length < 4 || offset + 4 > |buf| then NoAddress
    else IPv4(buf[offset], buf[offset + 1], buf[offset + 2], buf[offset + 3])
  }

  // One step of each reader, for the loops below.

  lemma FieldsStep(s: seq<Byte>, count: nat)
    ensures count == 0 || |s| < 4 ==> ReadFields(s, count) == []
    ensures count > 0 && |s| >= 4 ==>
              ReadFields(s, count) == [Field(U16(s, 0), U16(s, 2))] + ReadFields(s[4..], count - 1)
  {
  }

  lemma TemplatesStep(s: seq<Byte>, m: Templates)
    ensures |s| < 4 ==> ReadTemplates(s, m) == m
    ensures |s| >= 4 ==>
              var fields := ReadFields(s[4..], U16(s, 2));
              ReadTemplates(s, m) == ReadTemplates(s[4 + 4 * |fields|..], Learn(m, U16(s, 0), fields))
  {
  }

  /** The inner loop of parseTemplateFlowSet (lib/telemetry.js:234-241). */
  method ParseFields(buf: seq<Byte>, start: nat, end: nat, fieldCount: nat) returns (fields: seq<Field>, pos: nat)
    requires start <= end <= |buf|
    ensures fields == ReadFields(buf[start..end], fieldCount)
    ensures pos == start + 4 * |fields| <= end
  {
    hide U16, ReadFields;
    pos := start;
    fields := [];
    for i := 0 to fieldCount
      invariant start <= pos == start + 4 * |fields| <= end
      invariant fields + ReadFields(buf[pos..end], fieldCount - i) == ReadFields(buf[start..end], fieldCount)
    {
      FieldsStep(buf[pos..end], fieldCount - i);
      if pos + 4 > end { return; }
      HeaderAt(buf, pos, end);
      var field := Field(U16(buf, pos), U16(buf, pos + 2));
      Assoc(fields, [field], ReadFields(buf[pos + 4..end], fieldCount - i - 1));
      pos := pos + 4;
      fields := fields + [field];
    }
    FieldsStep(buf[pos..end], 0);
  }

  /** parseTemplateFlowSet (lib/telemetry.js:227-244). */
  method ParseTemplateFlowSet(buf: seq<Byte>, offset: nat, length: int, cache: TemplateCache)
    requires offset + length <= |buf|
    modifies cache
    ensures cache.table == ReadTemplates(Slice(buf, offset, length), old(cache.table))
  {
    hide U16, ReadTemplates, ReadFields;
    TemplatesStep([], cache.table);
    var pos, end := offset, offset + length;
    ghost var goal := ReadTemplates(Slice(buf, offset, length), cache.table);
    assert length == 0 ==> buf[offset..offset] == [];
    while pos + 4 <= end
      invariant offset <= pos && (0 <= length ==> pos <= end)
      invariant length < 0 ==> cache.table == goal
      invariant 0 <= length ==> ReadTemplates(buf[pos..end], cache.table) == goal
    {
      ghost var rest := buf[pos..end];
      HeaderAt(buf, pos, end);
      TemplatesStep(rest, cache.table);
      var templateId := U16(buf, pos);
      var fieldCount := U16(buf, pos + 2);
      var fields, next := ParseFields(buf, pos + 4, end, fieldCount);
      SubSlice(buf, pos, next, end);
      if templateId >= FIRST_TEMPLATE_ID && fields != [] {
        cache.table := cache.table[templateId := fields];
      }
      pos := next;
    }
    if 0 <= length { TemplatesStep(buf[pos..end], cache.table); }
  }

  lemma RecordsStep(s: seq<Byte>, fields: seq<Field>)
    ensures RecordLength(fields) == 0 || |s| < RecordLength(fields) ==> ReadRecords(s, fields) == []
    ensures 0 < RecordLength(fields) <= |s| ==>
              ReadRecords(s, fields) == IfUsable(ReadRecord(s, fields)) + ReadRecords(s[RecordLength(fields)..], fields)
  {
  }

  /** One more field of a record. */
  lemma RecordStep(s: seq<Byte>, fields: seq<Field>, k: nat)
    requires k < |fields| && RecordLength(fields) <= |s|
    ensures RecordLength(fields[..k + 1]) == RecordLength(fields[..k]) + fields[k].length <= |s|
    ensures
      var at := RecordLength(fields[..k]);
      ReadRecord(s, fields[..k + 1])
      == TakeField(ReadRecord(s, fields[..k]), fields[k].kind, s[at..at + fields[k].length])
  {
    hide TakeField;
    PrefixFits(fields, k + 1);
    assert fields[..k + 1][..k] == fields[..k];
  }

  lemma {:induction false} PrefixFits(fields: seq<Field>, k: nat)
    requires k <= |fields|
    ensures RecordLength(fields[..k]) <= RecordLength(fields)
  {
    if k == |fields| {
      assert fields[..k] == fields;
    } else {
      var n := |fields| - 1;
      PrefixFits(fields[..n], k);
      assert fields[..n][..k] == fields[..k];
    }
  }

  /** fields.reduce((sum, f) => sum + f.length, 0). */
  method SumLengths(fields: seq<Field>) returns (n: nat)
    ensures n == RecordLength(fields)
  {
    n := 0;
    for k := 0 to |fields|
      invariant n == RecordLength(fields[..k])
    {
      assert fields[..k + 1][..k] == fields[..k];
      n := n + fields[k].length;
    }
    assert fields[..|fields|] == fields;
  }

  /** The field loop of parseDataWithTemplate (lib/telemetry.js:253-262). */
  method ParseRecord(buf: seq<Byte>, pos: nat, fields: seq<Field>) returns (flow: Flow)
    requires pos + RecordLength(fields) <= |buf|
    ensures flow == ReadRecord(buf[pos..], fields)
  {
    hide RecordLength, ReadRecord, BigEndian, ReadAddress, ParseIPv4;
    ghost var s := buf[pos..];
    RecordStart(s);
    assert fields[..0] == [];
    flow := Flow(NoAddress, NoAddress, 0);
    var fpos := pos;
    for k := 0 to |fields|
      invariant fpos == pos + RecordLength(fields[..k]) <= |buf|
      invariant flow == ReadRecord(s, fields[..k])
    {
      var field := fields[k];
      RecordStep(s, fields, k);
      SubSlice(buf, pos, fpos, |buf|);
      ghost var at := RecordLength(fields[..k]);
      assert s[at..at + field.length] == buf[fpos..fpos + field.length];
      if field.kind == SOURCE_ADDRESS {
        flow := flow.(src := ParseIPv4(buf, fpos, field.length));
      }
      if field.kind == DESTINATION_ADDRESS {
        flow := flow.(dst := ParseIPv4(buf, fpos, field.length));
      }
      if field.kind == BYTE_COUNT {
        var n := ReadUnsignedBE(buf, fpos, field.length);
        flow := flow.(bytes := n);
      }
      fpos := fpos + field.length;
    }
    assert fields[..|fields|] == fields;
  }

  lemma RecordStart(s: seq<Byte>)
    ensures RecordLength([]) == 0 && ReadRecord(s, []) == Flow(NoAddress, NoAddress, 0)
  {
  }

  /** A record reader looks at its own record only. */
  lemma {:induction false} ReadRecordLocal(s: seq<Byte>, t: seq<Byte>, fields: seq<Field>)
    requires RecordLength(fields) <= |s| && RecordLength(fields) <= |t|
    requires forall i :: 0 <= i < RecordLength(fields) ==> s[i] == t[i]
    ensures ReadRecord(s, fields) == ReadRecord(t, fields)
  {
    hide TakeField;
    if fields != [] {
      var n := |fields| - 1;
      ReadRecordLocal(s, t, fields[..n]);
      var at := RecordLength(fields[..n]);
      assert s[at..at + fields[n].length] == t[at..at + fields[n].length];
    }
  }

  /** parseDataWithTemplate (lib/telemetry.js:246-267). */
  method ParseDataWithTemplate(buf: seq<Byte>, offset: nat, length: int, fields: seq<Field>)
    returns (records: seq<Flow>)
    requires offset + length <= |buf|
    ensures records == ReadRecords(Slice(buf, offset, length), fields)
  {
    hide RecordLength, ReadRecord, ReadRecords;
    records := [];
    var recordLen := SumLengths(fields);
    RecordsStep(Slice(buf, offset, length), fields);
    if recordLen == 0 { return; }
    RecordsStep([], fields);
    var pos, end := offset, offset + length;
    ghost var goal := ReadRecords(Slice(buf, offset, length), fields);
    if length >= 0 {
      assert Slice(buf, offset, length) == buf[offset..end];
      assert [] + goal == goal;
    }
    while pos + recordLen <= end
      invariant offset <= pos && (0 <= length ==> pos <= end)
      invariant length < 0 ==> records == goal
      invariant 0 <= length ==> records + ReadRecords(buf[pos..end], fields) == goal
    {
      ghost var rest := buf[pos..end];
      RecordsStep(rest, fields);
      var flow := ParseRecord(buf, pos, fields);
      ReadRecordLocal(buf[pos..], rest, fields);
      SubSlice(buf, pos, pos + recordLen, end);
      Assoc(records, IfUsable(flow), ReadRecords(buf[pos + recordLen..end], fields));
      if flow.src != NoAddress && flow.bytes > 0 {
        records := records + [flow];
      }
      pos := pos + recordLen;
    }
    if 0 <= length { RecordsStep(buf[pos..end], fields); }
  }

  lemma WalkStep(s: seq<Byte>, templateSetId: nat, m: Templates)
    ensures !SetAhead(s) ==> Walk(s, templateSetId, m) == ([], m)
    ensures SetAhead(s) ==>
              var (flows, m') := ReadSet(U16(s, 0), SetContent(s), templateSetId, m);
              var (more, m'') := Walk(s[U16(s, 2)..], templateSetId, m');
              Walk(s, templateSetId, m) == (flows + more, m'')
  {
  }

  lemma SetAt(buf: seq<Byte>, offset: nat)
    requires offset + 4 <= |buf|
    ensures U16(buf[offset..], 0) == U16(buf, offset) && U16(buf[offset..], 2) == U16(buf, offset + 2)
    ensures SetAhead(buf[offset..]) <==> U16(buf, offset + 2) != 0 && offset + U16(buf, offset + 2) <= |buf|
    ensures SetAhead(buf[offset..]) ==>
              && SetContent(buf[offset..]) == Slice(buf, offset + 4, U16(buf, offset + 2) - 4)
              && buf[offset..][U16(buf, offset + 2)..] == buf[offset + U16(buf, offset + 2)..]
  {
    HeaderAt(buf, offset, |buf|);
    var n := U16(buf, offset + 2);
    if SetAhead(buf[offset..]) {
      DropMore(buf, offset, n);
      if n >= 4 { SubSlice(buf[..offset + n], offset, offset + 4, offset + n); }
    }
  }

  /** The set loop that parseNetflowV9 and parseIPFIX each contain, from one of its iterations on:
      the set at `offset` is taken in. */
  method ParseSet(buf: seq<Byte>, offset: nat, templateSetId: nat, cache: TemplateCache) returns (records: seq<Flow>)
    requires offset + 4 <= |buf| && SetAhead(buf[offset..])
    modifies cache
    ensures (records, cache.table)
         == ReadSet(U16(buf, offset), SetContent(buf[offset..]), templateSetId, old(cache.table))
  {
    hide U16, ReadTemplates, ReadRecords, SetAhead, SetContent;
    SetAt(buf, offset);
    var flowSetId := U16(buf, offset);
    var length: int := U16(buf, offset + 2);
    records := [];
    if flowSetId == templateSetId {
      ParseTemplateFlowSet(buf, offset + 4, length - 4, cache);
    } else if flowSetId >= FIRST_TEMPLATE_ID && flowSetId in cache.table {
      records := ParseDataWithTemplate(buf, offset + 4, length - 4, cache.table[flowSetId]);
    }
  }

  /** parseNetflowV9 (lib/telemetry.js:269-285). */
  method ParseNetflowV9(buf: seq<Byte>, cache: TemplateCache) returns (records: seq<Flow>)
    modifies cache
    ensures |buf| < 24 ==> records == [] && cache.table == old(cache.table)
    ensures |buf| >= 24 ==> (records, cache.table) == Walk(buf[24..], 0, old(cache.table))
  {
    hide Walk, ReadSet, SetAhead, SetContent, U16;
    records := [];
    if |buf| < 24 { return; }
    var offset := 24;
    ghost var goal := Walk(buf[24..], 0, cache.table);
    assert [] + goal.0 == goal.0;
    while offset + 4 <= |buf|
      invariant 24 <= offset <= |buf|
      invariant
        var (more, m) := Walk(buf[offset..], 0, cache.table);
        goal == (records + more, m)
    {
      SetAt(buf, offset);
      WalkStep(buf[offset..], 0, cache.table);
      var length := U16(buf, offset + 2);
      if length == 0 || offset + length > |buf| { break; }
      var found := ParseSet(buf, offset, 0, cache);
      Assoc(records, found, Walk(buf[offset + length..], 0, cache.table).0);
      records := records + found;
      offset := offset + length;
    }
    WalkEnds(buf, offset, 0, cache.table);
    assert records + [] == records;
  }

  /** parseIPFIX (lib/telemetry.js:287-303). */
  method ParseIPFIX(buf: seq<Byte>, cache: TemplateCache) returns (records: seq<Flow>)
    modifies cache
    ensures |buf| < 16 ==> records == [] && cache.table == old(cache.table)
    ensures |buf| >= 16 ==> (records, cache.table) == Walk(buf[16..], 2, old(cache.table))
  {
    hide Walk, ReadSet, SetAhead, SetContent, U16;
    records := [];
    if |buf| < 16 { return; }
    var offset := 16;
    ghost var goal := Walk(buf[16..], 2, cache.table);
    assert [] + goal.0 == goal.0;
    while offset + 4 <= |buf|
      invariant 16 <= offset <= |buf|
      invariant
        var (more, m) := Walk(buf[offset..], 2, cache.table);
        goal == (records + more, m)
    {
      SetAt(buf, offset);
      WalkStep(buf[offset..], 2, cache.table);
      var length := U16(buf, offset + 2);
      if length == 0 || offset + length > |buf| { break; }
      var found := ParseSet(buf, offset, 2, cache);
      Assoc(records, found, Walk(buf[offset + length..], 2, cache.table).0);
      records := records + found;
      offset := offset + length;
    }
    WalkEnds(buf, offset, 2, cache.table);
    assert records + [] == records;
  }

  lemma WalkEnds(buf: seq<Byte>, offset: nat, templateSetId: nat, m: Templates)
    requires offset <= |buf|
    requires offset + 4 > |buf| || U16(buf, offset + 2) == 0 || offset + U16(buf, offset + 2) > |buf|
    ensures Walk(buf[offset..], templateSetId, m) == ([], m)
  {
    if offset + 4 <= |buf| { SetAt(buf, offset); }
  }

  /** parseNetflowV5 (lib/telemetry.js:184-202). */
  method ParseNetflowV5(buf: seq<Byte>) returns (records: Option<seq<Flow>>)
    ensures records == if |buf| < 24 || U16(buf, 0) != 5 then None else Some(ReadV5(buf[24..], U16(buf, 2)))
  {
    hide ReadV5, U16, BigEndian, ReadAddress;
    if |buf| < 24 { return None; }
    var version := U16(buf, 0);
    if version != 5 { return None; }
    var count := U16(buf, 2);
    var found: seq<Flow> := [];
    var offset := 24;
    for i := 0 to count
      invariant offset <= |buf|
      invariant found + ReadV5(buf[offset..], count - i) == ReadV5(buf[24..], count)
    {
      V5Step(buf[offset..], count - i);
      if offset + 48 > |buf| {
        assert found + [] == found;
        break;
      }
      V5At(buf, offset);
      var srcAddr := IPv4(buf[offset], buf[offset + 1], buf[offset + 2], buf[offset + 3]);
      var dstAddr := IPv4(buf[offset + 4], buf[offset + 5], buf[offset + 6], buf[offset + 7]);
      var dOctets := U32(buf, offset + 20);
      var flow := Flow(srcAddr, dstAddr, dOctets);
      Assoc(found, [flow], ReadV5(buf[offset + 48..], count - i - 1));
      found := found + [flow];
      offset := offset + 48;
    }
    V5Step(buf[offset..], 0);
    assert found + [] == found;
    return Some(found);
  }

  lemma V5Step(s: seq<Byte>, count: nat)
    ensures count == 0 || |s| < 48 ==> ReadV5(s, count) == []
    ensures count > 0 && |s| >= 48 ==>
              ReadV5(s, count)
              == [Flow(ReadAddress(s), ReadAddress(s[4..]), BigEndian(s[20..24]))] + ReadV5(s[48..], count - 1)
  {
  }

  lemma V5At(buf: seq<Byte>, offset: nat)
    requires offset + 48 <= |buf|
    ensures ReadAddress(buf[offset..]) == IPv4(buf[offset], buf[offset + 1], buf[offset + 2], buf[offset + 3])
    ensures ReadAddress(buf[offset..][4..]) == IPv4(buf[offset + 4], buf[offset + 5], buf[offset + 6], buf[offset + 7])
    ensures BigEndian(buf[offset..][20..24]) == U32(buf, offset + 20)
    ensures buf[offset..][48..] == buf[offset + 48..]
  {
    hide BigEndian;
    FourBytes(buf[offset..][20..24]);
    DropMore(buf, offset, 48);
  }

  /** parseAnyNetflow (lib/telemetry.js:305-312). */
  method ParseAnyNetflow(buf: seq<Byte>, cache: TemplateCache) returns (records: Option<seq<Flow>>)
    modifies cache
    ensures (records, cache.table) == Parse(buf, old(cache.table))
  {
    hide Walk, ReadV5;
    if |buf| < 2 { return Some([]); }
    var version := U16(buf, 0);
    if version == 5 {
      records := ParseNetflowV5(buf);
    } else if version == 9 {
      var found := ParseNetflowV9(buf, cache);
      records := Some(found);
    } else if version == 10 {
      var found := ParseIPFIX(buf, cache);
      records := Some(found);
    } else {
      records := Some([]);
    }
  }
}
