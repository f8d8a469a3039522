/** Which records the parser gives and what it gives of each, told by the bytes of the fields. Kinds are
    those of section 8 of RFC 3954: 8 is the source address, 12 the destination address, 1 the bytes.
 */
module FlowRecords {
  import opened FlowFormat
  import opened FlowPackets
  import opened Shared

  // ---------- numbers ----------

  function Pow256(n: nat): (p: nat)
    ensures p > 0
  {
    if n == 0 then 1 else 256 * Pow256(n - 1)
  }

  lemma ShiftOut(x: nat, b: nat, p: nat)
    requires b < 256 && p > 0
    ensures (x * 256 + b) / (256 * p) == x / p
  {
    var q, r := x / p, x % p;
    assert x * 256 + b == q * (256 * p) + (r * 256 + b) by {
      assert x == q * p + r;
      assert q * p * 256 == q * (256 * p);
    }
    assert r * 256 + b < 256 * p;
    QuotientIs(x * 256 + b, 256 * p, q, r * 256 + b);
  }

  lemma QuotientIs(x: nat, d: nat, q: nat, r: nat)
    requires d > 0 && x == q * d + r && r < d
    ensures x / d == q
  {
    var k := x / d - q;
    assert k * d == x / d * d - q * d;
    if k >= 1 { AtLeastOnce(k, d); }
    if k <= -1 { AtLeastOnce(-k, d); }
  }

  lemma AtLeastOnce(k: int, d: int)
    requires k >= 1 && d > 0
    ensures k * d >= d && -k * d <= -d
  {
    assert (k - 1) * d >= 0;
    assert k * d == (k - 1) * d + d;
  }

  lemma LastDigit(x: nat, b: nat)
    requires b < 256
    ensures (x * 256 + b) / 1 % 256 == b
  {
  }

  /** The bytes of a number, most significant first, are its digits: network byte order. */
  lemma {:induction false} BytesAreDigits(s: seq<Byte>, k: nat)
    requires k < |s|
    ensures BigEndian(s) / Pow256(|s| - 1 - k) % 256 == s[k]
  {
    var n := |s| - 1;
    var x := BigEndian(s[..n]);
    assert BigEndian(s) == x * 256 + s[n];
    assert Pow256(0) == 1 && (k < n ==> Pow256(n - k) == 256 * Pow256(n - 1 - k));
    hide BigEndian, Pow256;
    if k < n {
      BytesAreDigits(s[..n], k);
      ShiftOut(x, s[n], Pow256(n - 1 - k));
    } else {
      LastDigit(x, s[n]);
    }
  }

  lemma {:induction false} NumberFits(s: seq<Byte>)
    ensures BigEndian(s) < Pow256(|s|)
  {
    if s != [] { NumberFits(s[..|s| - 1]); }
  }

  /** Two-byte fields of headers are read in the same order. */
  lemma U16IsBigEndian(s: seq<Byte>, i: nat)
    requires i + 2 <= |s|
    ensures U16(s, i) == BigEndian(s[i..i + 2])
  {
    var t := s[i..i + 2];
    assert t[..1][..0] == [] && t[..1][0] == s[i] && t[1] == s[i + 1];
    assert BigEndian(t[..1]) == BigEndian(t[..1][..0]) * 256 + t[..1][0];
  }

  predicate NonZero(s: seq<Byte>) {
    exists i :: 0 <= i < |s| && s[i] != 0
  }

  lemma {:induction false} PositiveIffNonZero(s: seq<Byte>)
    ensures BigEndian(s) > 0 <==> NonZero(s)
  {
    if s != [] {
      var n := |s| - 1;
      PositiveIffNonZero(s[..n]);
      if NonZero(s[..n]) {
        var i :| 0 <= i < n && s[..n][i] != 0;
        assert s[i] != 0;
      }
      if NonZero(s) && s[n] == 0 {
        var i :| 0 <= i < |s| && s[i] != 0;
        assert s[..n][i] != 0;
      }
    }
  }

  // ---------- one record ----------

  /** Field k is the last one of its kind. */
  predicate IsLast(fields: seq<Field>, k: nat, kind: nat) {
    k < |fields| && fields[k].kind == kind && forall j :: k < j < |fields| ==> fields[j].kind != kind
  }

  predicate Lacks(fields: seq<Field>, kind: nat) {
    forall j :: 0 <= j < |fields| ==> fields[j].kind != kind
  }

  lemma {:induction false} LastValueAt(fields: seq<Field>, values: Record, kind: nat)
    requires |fields| == |values|
    ensures forall k: nat :: IsLast(fields, k, kind) ==> LastValue(fields, values, kind) == Some(values[k])
    ensures Lacks(fields, kind) ==> LastValue(fields, values, kind) == None
  {
    if fields != [] {
      var n := |fields| - 1;
      LastValueAt(fields[..n], values[..n], kind);
      if fields[n].kind != kind {
        forall k: nat | IsLast(fields, k, kind) ensures LastValue(fields, values, kind) == Some(values[k]) {
          assert IsLast(fields[..n], k, kind);
        }
      }
    }
  }

  lemma {:induction false} SomeIsLast(fields: seq<Field>, kind: nat) returns (k: nat)
    requires !Lacks(fields, kind)
    ensures IsLast(fields, k, kind)
  {
    var n := |fields| - 1;
    if fields[n].kind == kind {
      k := n;
    } else {
      assert !Lacks(fields[..n], kind) by {
        var j :| 0 <= j < |fields| && fields[j].kind == kind;
        assert fields[..n][j].kind == kind;
      }
      k := SomeIsLast(fields[..n], kind);
    }
  }

  /** The address is that of the first four bytes of the last field of the kind, if it has as many. */
  ghost predicate AddressIs(fields: seq<Field>, values: Record, kind: nat, address: Address)
    requires |fields| == |values|
  {
    && (Lacks(fields, kind) ==> address == NoAddress)
    && forall k: nat :: IsLast(fields, k, kind) ==>
         address == if |values[k]| < 4 then NoAddress else IPv4(values[k][0], values[k][1], values[k][2], values[k][3])
  }

  ghost predicate CountIs(fields: seq<Field>, values: Record, kind: nat, count: nat)
    requires |fields| == |values|
  {
    && (Lacks(fields, kind) ==> count == 0)
    && forall k: nat :: IsLast(fields, k, kind) ==> count == BigEndian(values[k])
  }

  /** What the flow of a record is. */
  ghost predicate FlowIs(fields: seq<Field>, values: Record, flow: Flow)
    requires |fields| == |values|
  {
    AddressIs(fields, values, 8, flow.src) && AddressIs(fields, values, 12, flow.dst) && CountIs(fields, values, 1, flow.bytes)
  }

  /** The records that are given: the last field of kind 8 has four bytes or more, and the last one of
      kind 1 is not zero. */
  ghost predicate Given(fields: seq<Field>, values: Record)
    requires |fields| == |values|
  {
    && (exists k: nat :: IsLast(fields, k, 8) && |values[k]| >= 4)
    && (exists k: nat :: IsLast(fields, k, 1) && NonZero(values[k]))
  }

  lemma MeantIs(fields: seq<Field>, values: Record)
    requires |fields| == |values|
    ensures FlowIs(fields, values, FlowMeant(fields, values))
  {
    hide LastValue, BigEndian, IsLast, Lacks;
    LastValueAt(fields, values, 8);
    LastValueAt(fields, values, 12);
    LastValueAt(fields, values, 1);
  }

  lemma SourceGiven(fields: seq<Field>, values: Record, src: Address)
    requires |fields| == |values| && AddressIs(fields, values, 8, src)
    ensures src != NoAddress <==> exists k: nat :: IsLast(fields, k, 8) && |values[k]| >= 4
  {
    hide IsLast;
    if src != NoAddress { var k := SomeIsLast(fields, 8); }
  }

  lemma BytesGiven(fields: seq<Field>, values: Record, bytes: nat)
    requires |fields| == |values| && CountIs(fields, values, 1, bytes)
    ensures bytes > 0 <==> exists k: nat :: IsLast(fields, k, 1) && NonZero(values[k])
  {
    hide BigEndian, NonZero, Lacks;
    if bytes > 0 {
      var k := SomeIsLast(fields, 1);
      PositiveIffNonZero(values[k]);
    }
    forall k: nat | IsLast(fields, k, 1) && NonZero(values[k]) ensures bytes > 0 { PositiveIffNonZero(values[k]); }
  }

  lemma UsableIffGiven(fields: seq<Field>, values: Record)
    requires |fields| == |values|
    ensures Usable(FlowMeant(fields, values)) <==> Given(fields, values)
  {
    MeantIs(fields, values);
    hide FlowMeant, IsLast, AddressIs, CountIs, NonZero;
    SourceGiven(fields, values, FlowMeant(fields, values).src);
    BytesGiven(fields, values, FlowMeant(fields, values).bytes);
  }

  // ---------- the records of a set ----------

  predicate Rising(places: seq<nat>, end: nat) {
    && (forall i, j :: 0 <= i < j < |places| ==> places[i] < places[j])
    && forall i :: 0 <= i < |places| ==> places[i] < end
  }

  /** The flows are those of exactly the given records, in order; `places` says which records they are. */
  ghost predicate Gives(fields: seq<Field>, records: seq<Record>, flows: seq<Flow>, places: seq<nat>)
    requires AllFit(records, fields)
  {
    && |places| == |flows| && Rising(places, |records|)
    && (forall i :: 0 <= i < |places| ==> FlowIs(fields, records[places[i]], flows[i]))
    && forall k :: 0 <= k < |records| ==> (k in places <==> Given(fields, records[k]))
  }

  lemma {:induction false} MeantLast(fields: seq<Field>, records: seq<Record>, r: Record)
    requires AllFit(records, fields) && Fits(r, fields)
    ensures AllFit(records + [r], fields)
    ensures FlowsMeant(fields, records + [r]) == FlowsMeant(fields, records) + IfUsable(FlowMeant(fields, r))
    decreases |records|
  {
    assert |r| == |fields| && (records != [] ==> |records[0]| == |fields|);
    hide FlowMeant, Fits, Usable;
    var last := IfUsable(FlowMeant(fields, r));
    hide IfUsable;
    if records == [] {
      assert [] + [r] == [r] && [r][1..] == [];
      assert last + [] == last && [] + last == last;
    } else {
      assert (records + [r])[0] == records[0] && (records + [r])[1..] == records[1..] + [r];
      MeantLast(fields, records[1..], r);
      Assoc(IfUsable(FlowMeant(fields, records[0])), FlowsMeant(fields, records[1..]), last);
    }
  }

  lemma {:induction false} MeantGives(fields: seq<Field>, records: seq<Record>) returns (places: seq<nat>)
    requires AllFit(records, fields)
    ensures Gives(fields, records, FlowsMeant(fields, records), places)
  {
    places := [];
    if records != [] {
      var n := |records| - 1;
      var before, r := records[..n], records[n];
      var earlier := MeantGives(fields, before);
      assert records == before + [r];
      MeantLast(fields, before, r);
      UsableIffGiven(fields, r);
      hide FlowMeant, Given, Gives, FlowsMeant, Usable;
      if Given(fields, r) {
        MeantIs(fields, r);
        OneMore(fields, before, r, FlowsMeant(fields, before), earlier, FlowMeant(fields, r));
        places := earlier + [n];
      } else {
        OneLess(fields, before, r, FlowsMeant(fields, before), earlier);
        places := earlier;
        assert FlowsMeant(fields, before) + [] == FlowsMeant(fields, before);
      }
    }
  }

  lemma OneMore(fields: seq<Field>, before: seq<Record>, r: Record, flows: seq<Flow>, places: seq<nat>, flow: Flow)
    requires AllFit(before, fields) && Fits(r, fields) && Gives(fields, before, flows, places)
    requires Given(fields, r) && FlowIs(fields, r, flow)
    ensures AllFit(before + [r], fields) && Gives(fields, before + [r], flows + [flow], places + [|before|])
  {
    assert forall i :: 0 <= i < |before| ==> |before[i]| == |fields|;
    hide FlowIs, Given, Fits;
    var records, places' := before + [r], places + [|before|];
    forall k: nat ensures k in places' <==> k in places || k == |before| { }
  }

  lemma OneLess(fields: seq<Field>, before: seq<Record>, r: Record, flows: seq<Flow>, places: seq<nat>)
    requires AllFit(before, fields) && Fits(r, fields) && Gives(fields, before, flows, places)
    requires !Given(fields, r)
    ensures AllFit(before + [r], fields) && Gives(fields, before + [r], flows, places)
  {
    assert forall i :: 0 <= i < |before| ==> |before[i]| == |fields|;
    hide FlowIs, Given, Fits;
    assert |before| !in places;
  }

  /** What the reader gives of written records, with padding shorter than a record. */
  lemma RecordsAreGiven(fields: seq<Field>, records: seq<Record>, padding: seq<Byte>) returns (places: seq<nat>)
    requires AllFit(records, fields) && |padding| < RecordLength(fields)
    ensures Gives(fields, records, ReadRecords(WriteRecords(records) + padding, fields), places)
  {
    RecordsRoundTrip(records, fields, padding);
    places := MeantGives(fields, records);
  }

  // ---------- a set of records in an IPFIX packet ----------

  lemma {:induction false} MeantSplits(before: seq<FlowSet>, after: seq<FlowSet>, templateSetId: nat, m: Templates)
    requires ValidSets(before, templateSetId, m) && ValidSets(after, templateSetId, SetsMeant(before, templateSetId, m).1)
    ensures ValidSets(before + after, templateSetId, m)
    ensures
      var (flows, m') := SetsMeant(before, templateSetId, m);
      var (more, m'') := SetsMeant(after, templateSetId, m');
      SetsMeant(before + after, templateSetId, m) == (flows + more, m'')
  {
    hide ValidSet, SetMeant;
    if before == [] {
      assert before + after == after;
      var more := SetsMeant(after, templateSetId, m).0;
      assert [] + more == more;
    } else {
      var m' := SetMeant(before[0], templateSetId, m).1;
      assert (before + after)[0] == before[0] && (before + after)[1..] == before[1..] + after;
      MeantSplits(before[1..], after, templateSetId, m');
      Assoc(SetMeant(before[0], templateSetId, m).0, SetsMeant(before[1..], templateSetId, m').0,
            SetsMeant(after, templateSetId, SetsMeant(before, templateSetId, m).1).0);
    }
  }

  /** An IPFIX message (section 3 of RFC 7011) of a template and records of it, from any exporter: the
      parser gives exactly the given records, in order, and learns the template. */
  lemma MessageGivesRecords(h: seq<Byte>, t: Template, records: seq<Record>, padding: seq<Byte>, m: Templates)
    returns (places: seq<nat>)
    requires |h| == 16 && h[0] == 0 && h[1] == 10
    requires 256 <= t.id < 0x1_0000 && 0 < |t.fields| && 8 + 4 * |t.fields| < 0x1_0000 && ValidFields(t.fields)
    requires AllFit(records, t.fields) && |padding| < RecordLength(t.fields)
    requires |WriteRecords(records) + padding| + 4 < 0x1_0000
    ensures
      var p := IpfixPacket(h, [TemplateSet([t], []), DataSet(t.id, records, padding)]);
      && ValidPacket(p, m)
      && var (flows, m') := Parse(WritePacket(p, m), m);
      && m' == m[t.id := t.fields] && flows.Some? && Gives(t.fields, records, flows.value, places)
  {
    var m' := m[t.id := t.fields];
    var first, second := TemplateSet([t], []), DataSet(t.id, records, padding);
    var sets := [first] + [second];
    TemplateFits(t, m);
    assert ValidSet(second, 2, m') && SetMeant(second, 2, m') == (FlowsMeant(t.fields, records), m');
    places := MeantGives(t.fields, records);
    var p := IpfixPacket(h, sets);
    assert U16(h, 0) == 10;
    hide ValidSet, SetMeant, FlowsMeant, Walk, Parse, WritePacket, Gives;
    TwoSets(first, second, m);
    PacketRoundTrip(p, m);
    assert sets == [TemplateSet([t], []), DataSet(t.id, records, padding)];
  }

  lemma TemplateFits(t: Template, m: Templates)
    requires 256 <= t.id < 0x1_0000 && 0 < |t.fields| && 8 + 4 * |t.fields| < 0x1_0000 && ValidFields(t.fields)
    ensures ValidSet(TemplateSet([t], []), 2, m) && SetMeant(TemplateSet([t], []), 2, m) == ([], m[t.id := t.fields])
  {
    OneTemplate(t.id, t.fields, m);
    hide WriteTemplates;
    var none: seq<Template> := [];
    assert Template(t.id, t.fields) == t && [t][1..] == none;
  }

  lemma TwoSets(first: FlowSet, second: FlowSet, m: Templates)
    requires ValidSet(first, 2, m) && ValidSet(second, 2, SetMeant(first, 2, m).1)
    ensures ValidSets([first] + [second], 2, m)
    ensures
      var (flows, m') := SetMeant(first, 2, m);
      var (more, m'') := SetMeant(second, 2, m');
      SetsMeant([first] + [second], 2, m) == (flows + more, m'')
  {
    hide ValidSet, SetMeant;
    OneSet(second, SetMeant(first, 2, m).1);
    OneSet(first, m);
    MeantSplits([first], [second], 2, m);
  }

  lemma OneSet(flowSet: FlowSet, m: Templates)
    requires ValidSet(flowSet, 2, m)
    ensures ValidSets([flowSet], 2, m) && SetsMeant([flowSet], 2, m) == SetMeant(flowSet, 2, m)
  {
    hide ValidSet, SetMeant;
    var none: seq<FlowSet> := [];
    assert [flowSet][1..] == none;
    var flows := SetMeant(flowSet, 2, m).0;
    assert flows + [] == flows;
  }

  // ---------- templates as they come ----------

  /** Of a field list that breaks off, the whole fields are read. */
  lemma {:induction false} FieldsAreRead(fields: seq<Field>, count: nat, rest: seq<Byte>)
    requires ValidFields(fields) && |fields| <= count && (|fields| < count ==> |rest| < 4)
    ensures ReadFields(WriteFields(fields) + rest, count) == fields && |WriteFields(fields)| == 4 * |fields|
  {
    hide U16, Bytes16;
    if fields == [] {
      assert WriteFields(fields) + rest == rest;
    } else {
      var f, tail := fields[0], fields[1..];
      FieldsAreRead(tail, count - 1, rest);
      HeaderReads(f.kind, f.length, WriteFields(tail) + rest);
      Assoc(Bytes16(f.kind) + Bytes16(f.length), WriteFields(tail), rest);
    }
  }

  /** A template record with any id and count, whole or broken off at the end of the set: its fields are
      learned if there are any and the id is 256 or more, and reading goes on behind them. */
  lemma TemplateIsRead(id: nat, count: nat, fields: seq<Field>, rest: seq<Byte>, m: Templates)
    requires id < 0x1_0000 && count < 0x1_0000 && ValidFields(fields)
    requires |fields| <= count && (|fields| < count ==> |rest| < 4)
    ensures ReadTemplates(Bytes16(id) + Bytes16(count) + (WriteFields(fields) + rest), m)
         == ReadTemplates(rest, if id >= 256 && fields != [] then m[id := fields] else m)
  {
    hide U16, Bytes16, ReadFields, WriteFields;
    var s := Bytes16(id) + Bytes16(count) + (WriteFields(fields) + rest);
    HeaderReads(id, count, WriteFields(fields) + rest);
    FieldsAreRead(fields, count, rest);
    DropHead(WriteFields(fields), rest);
    assert s[4 + 4 * |fields|..] == s[4..][4 * |fields|..];
  }
}
