/** What the first set of a v9 packet does to the packet, told by the set instead of by the walk.

    The parser takes the content of the first set for sets (V9Parse). A template costs its own bytes and
    a set header in front of it, so a set of new templates never teaches them all (NewTemplatesAreLost).
    Templates as exporters build them teach nothing at all (PlainTemplatesAreIgnored), so that such a set
    is read as meant exactly if everything in it is known already (PlainAloneIff, PlainHarmlessIff).
 */
module FlowStarts {
  import opened FlowFormat
  import opened FlowPackets
  import opened Shared

  // ---------- what bytes can teach ----------

  predicate Knows(m: Templates, t: Template) {
    t.id in m && m[t.id] == t.fields
  }

  predicate AllKnown(m: Templates, templates: seq<Template>) {
    forall i :: 0 <= i < |templates| ==> Knows(m, templates[i])
  }

  predicate NoneKnown(m: Templates, templates: seq<Template>) {
    forall i :: 0 <= i < |templates| ==> !Knows(m, templates[i])
  }

  predicate DistinctIds(templates: seq<Template>) {
    forall i, j :: 0 <= i < j < |templates| ==> templates[i].id != templates[j].id
  }

  /** The bytes it takes to write the templates that are not known. */
  function Missing(m: Templates, templates: seq<Template>): nat {
    if templates == [] then 0
    else (if Knows(m, templates[0]) then 0 else 4 + 4 * |templates[0].fields|) + Missing(m, templates[1..])
  }

  lemma {:induction false} OtherIdSame(m: Templates, templates: seq<Template>, id: nat, fields: seq<Field>)
    requires forall i :: 0 <= i < |templates| ==> templates[i].id != id
    ensures Missing(m[id := fields], templates) == Missing(m, templates)
  {
    if templates != [] { OtherIdSame(m, templates[1..], id, fields); }
  }

  /** A template that is learned makes up for its own bytes at most. */
  lemma {:induction false} LearnTeaches(m: Templates, templates: seq<Template>, id: nat, fields: seq<Field>)
    requires DistinctIds(templates)
    ensures Missing(m, templates) <= Missing(Learn(m, id, fields), templates) + 4 + 4 * |fields|
  {
    if templates != [] {
      if templates[0].id == id {
        OtherIdSame(m, templates[1..], id, fields);
      } else {
        LearnTeaches(m, templates[1..], id, fields);
      }
    }
  }

  lemma {:induction false} ReadTeaches(s: seq<Byte>, m: Templates, templates: seq<Template>)
    requires DistinctIds(templates)
    ensures Missing(m, templates) <= Missing(ReadTemplates(s, m), templates) + |s|
    decreases |s|
  {
    hide Missing, Learn, DistinctIds, ReadFields, U16;
    if |s| >= 4 {
      var fields := ReadFields(s[4..], U16(s, 2));
      LearnTeaches(m, templates, U16(s, 0), fields);
      ReadTeaches(s[4 + 4 * |fields|..], Learn(m, U16(s, 0), fields), templates);
    }
  }

  lemma SetTeaches(s: seq<Byte>, m: Templates, templates: seq<Template>)
    requires DistinctIds(templates) && SetAhead(s)
    ensures
      var m' := ReadSet(U16(s, 0), SetContent(s), 0, m).1;
      m' == m || Missing(m, templates) + 4 <= Missing(m', templates) + U16(s, 2)
  {
    hide Missing, DistinctIds, ReadTemplates, ReadRecords;
    if U16(s, 0) == 0 {
      ReadTeaches(SetContent(s), m, templates);
      if U16(s, 2) < 4 { NothingToRead(m); }
    }
  }

  lemma NothingToRead(m: Templates)
    ensures ReadTemplates([], m) == m
  {
  }

  /** Whatever the bytes are, a walk that changes the template map has used up four bytes more than the
      templates it has made up for. */
  lemma {:induction false} WalkTeaches(s: seq<Byte>, m: Templates, templates: seq<Template>)
    requires DistinctIds(templates)
    ensures
      var m' := Walk(s, 0, m).1;
      m' == m || Missing(m, templates) + 4 <= Missing(m', templates) + |s|
    decreases |s|
  {
    hide Missing, DistinctIds, ReadSet, SetContent;
    if SetAhead(s) {
      SetTeaches(s, m, templates);
      WalkTeaches(s[U16(s, 2)..], ReadSet(U16(s, 0), SetContent(s), 0, m).1, templates);
    }
  }

  lemma {:induction false} AllMissing(m: Templates, templates: seq<Template>)
    requires ValidTemplates(templates) && NoneKnown(m, templates)
    ensures Missing(m, templates) == |WriteTemplates(templates)|
  {
    hide Knows, WriteFields, ValidFields, Bytes16;
    if templates != [] {
      AllMissing(m, templates[1..]);
      assert ValidTemplate(templates[0]);
      FieldsRoundTrip(templates[0].fields, []);
    }
  }

  lemma {:induction false} NothingMissing(m: Templates, templates: seq<Template>)
    ensures Missing(m, templates) == 0 <==> AllKnown(m, templates)
  {
    hide Knows;
    if templates != [] {
      NothingMissing(m, templates[1..]);
      assert AllKnown(m, templates) ==> Knows(m, templates[0]);
      assert forall i :: 0 <= i < |templates| - 1 ==> templates[1..][i] == templates[i + 1];
      assert forall i :: 0 < i < |templates| ==> templates[i] == templates[1..][i - 1];
    }
  }

  lemma {:induction false} LearnAllOther(m: Templates, templates: seq<Template>, id: nat)
    requires forall i :: 0 <= i < |templates| ==> templates[i].id != id
    ensures id in LearnAll(m, templates) <==> id in m
    ensures id in m ==> LearnAll(m, templates)[id] == m[id]
    decreases |templates|
  {
    if templates != [] { LearnAllOther(m[templates[0].id := templates[0].fields], templates[1..], id); }
  }

  lemma {:induction false} LearnAllKnows(m: Templates, templates: seq<Template>)
    requires DistinctIds(templates)
    ensures AllKnown(LearnAll(m, templates), templates)
    decreases |templates|
  {
    if templates != [] {
      var t, rest := templates[0], templates[1..];
      LearnAllKnows(m[t.id := t.fields], rest);
      LearnAllOther(m[t.id := t.fields], rest, t.id);
      forall i | 0 <= i < |templates| ensures Knows(LearnAll(m, templates), templates[i]) {
        if i > 0 { assert templates[i] == rest[i - 1]; }
      }
    }
  }

  lemma {:induction false} LearnKnown(m: Templates, templates: seq<Template>)
    requires AllKnown(m, templates)
    ensures LearnAll(m, templates) == m
    decreases |templates|
  {
    if templates != [] {
      assert Knows(m, templates[0]);
      assert m[templates[0].id := templates[0].fields] == m;
      LearnKnown(m, templates[1..]);
    }
  }

  lemma AloneParse(h: seq<Byte>, flowSet: FlowSet, m: Templates)
    requires |h| == 20 && U16(h, 0) == 9 && ValidSet(flowSet, 0, m)
    ensures ValidPacket(V9Packet(h, [flowSet]), m)
    ensures
      var p := V9Packet(h, [flowSet]);
      var (flows, m') := Walk(WriteContent(flowSet, 0, m), 0, m);
      && Parse(WritePacket(p, m), m) == (Some(flows), m')
      && PacketMeant(p, m) == SetMeant(flowSet, 0, m)
  {
    AloneRead(flowSet, m);
    assert [flowSet] + [] == [flowSet];
    hide ValidSets, SetMeant, SetsMeant, Walk, WriteContent, V9Read, Parse, WritePacket;
    V9Parse(h, [flowSet], m);
  }

  /** A v9 packet of one set of templates, none of them known yet: whatever templates they are, the
      parser does not know all of them afterwards. */
  lemma NewTemplatesAreLost(h: seq<Byte>, templates: seq<Template>, padding: seq<Byte>, m: Templates)
    requires |h| == 20 && U16(h, 0) == 9 && ValidSet(TemplateSet(templates, padding), 0, m)
    requires templates != [] && DistinctIds(templates) && NoneKnown(m, templates)
    ensures
      var p := V9Packet(h, [TemplateSet(templates, padding)]);
      && ValidPacket(p, m) && AllKnown(PacketMeant(p, m).1, templates)
      && !AllKnown(Parse(WritePacket(p, m), m).1, templates)
    ensures !Harmless(TemplateSet(templates, padding), m)
  {
    var flowSet := TemplateSet(templates, padding);
    var content := WriteContent(flowSet, 0, m);
    assert SetMeant(flowSet, 0, m) == ([], LearnAll(m, templates));
    assert content == WriteTemplates(templates) + padding && |padding| < 4;
    hide Walk, WriteTemplates, WriteContent, SetMeant, ValidSet, LearnAll, Parse, WritePacket, ValidPacket, PacketMeant;
    AloneParse(h, flowSet, m);
    WalkTeaches(content, m, templates);
    AllMissing(m, templates);
    NothingMissing(Walk(content, 0, m).1, templates);
    LearnAllKnows(m, templates);
    assert !Knows(m, templates[0]);
  }

  /** In particular a single template that is not known is never taught by a packet of its own. */
  lemma NewTemplateIsNotLearned(h: seq<Byte>, t: Template, padding: seq<Byte>, m: Templates)
    requires |h| == 20 && U16(h, 0) == 9 && ValidSet(TemplateSet([t], padding), 0, m) && !Knows(m, t)
    ensures
      var p := V9Packet(h, [TemplateSet([t], padding)]);
      && ValidPacket(p, m) && Knows(PacketMeant(p, m).1, t)
      && !Knows(Parse(WritePacket(p, m), m).1, t)
  {
    hide Knows, ValidSet, Parse, WritePacket, ValidPacket, PacketMeant, Harmless;
    NewTemplatesAreLost(h, [t], padding, m);
    assert [t][0] == t;
  }

  // ---------- templates as exporters build them ----------

  predicate PlainField(f: Field) {
    0 < f.kind < 256 && 0 < f.length < 256
  }

  predicate PlainTemplate(t: Template) {
    && FIRST_TEMPLATE_ID <= t.id < 0x1_0000
    && 0 < |t.fields| < 64
    && forall k :: 0 <= k < |t.fields| ==> PlainField(t.fields[k])
  }

  predicate PlainTemplates(templates: seq<Template>) {
    forall i :: 0 <= i < |templates| ==> PlainTemplate(templates[i])
  }

  /** A set that announces templates of standard kinds and lengths, each id once, in less than 256 bytes. */
  predicate PlainSet(flowSet: FlowSet, m: Templates) {
    && flowSet.TemplateSet? && ValidSet(flowSet, 0, m)
    && PlainTemplates(flowSet.templates) && DistinctIds(flowSet.templates)
    && |WriteContent(flowSet, 0, m)| < 256
  }

  /** Words of two bytes, none of them zero; after a word with a low byte of zero comes one with a high
      byte of zero. */
  predicate PlainBytes(w: seq<Byte>)
    decreases |w|
  {
    w == []
    || (|w| >= 2 && (w[0] != 0 || w[1] != 0) && (w[1] == 0 ==> |w| >= 4 && w[2] == 0) && PlainBytes(w[2..]))
  }

  /** If a set starts at the first word, it is no set of records that is long enough for one. */
  predicate SilentHead(w: seq<Byte>, m: Templates) {
    |w| >= 2
    && (U16(w, 0) >= FIRST_TEMPLATE_ID && U16(w, 0) in m ==> |w| >= 4 && U16(w, 2) < RecordLength(m[U16(w, 0)]) + 4)
  }

  predicate Silent(w: seq<Byte>, m: Templates)
    decreases |w|
  {
    w == [] || (SilentHead(w, m) && Silent(w[2..], m))
  }

  lemma {:induction false} PlainJoins(a: seq<Byte>, b: seq<Byte>)
    requires PlainBytes(a) && PlainBytes(b)
    ensures PlainBytes(a + b)
    decreases |a|
  {
    if a == [] {
      assert a + b == b;
    } else {
      PlainJoins(a[2..], b);
      assert (a + b)[2..] == a[2..] + b;
    }
  }

  lemma {:induction false} SilentJoins(a: seq<Byte>, b: seq<Byte>, m: Templates)
    requires Silent(a, m) && Silent(b, m)
    ensures Silent(a + b, m)
    decreases |a|
  {
    hide RecordLength;
    if a == [] {
      assert a + b == b;
    } else {
      SilentJoins(a[2..], b, m);
      assert (a + b)[2..] == a[2..] + b;
      assert U16(a + b, 0) == U16(a, 0) && (|a| >= 4 ==> U16(a + b, 2) == U16(a, 2));
    }
  }

  /** Two words of a template: an id and a count, or a kind and a length. */
  lemma PairIsPlain(x: nat, y: nat)
    requires 0 < x < 0x1_0000 && 0 < y < 256
    ensures |Bytes16(x) + Bytes16(y)| == 4 && PlainBytes(Bytes16(x) + Bytes16(y))
  {
    var w := Bytes16(x) + Bytes16(y);
    assert w[2..] == Bytes16(y) && Bytes16(y)[2..] == [];
    assert w[2] == 0 && w[3] == y;
  }

  lemma PairIsSilent(x: nat, y: nat, m: Templates)
    requires 0 < x < 0x1_0000 && 0 < y < 256
    requires x >= FIRST_TEMPLATE_ID && x in m ==> y < RecordLength(m[x]) + 4
    ensures Silent(Bytes16(x) + Bytes16(y), m)
  {
    hide RecordLength;
    var w, low := Bytes16(x) + Bytes16(y), Bytes16(y);
    assert w[2..] == low && low[2..] == [];
    assert Silent(low[2..], m) && SilentHead(low, m);
    assert Silent(low, m);
    assert U16(w, 0) == x && U16(w, 2) == y;
  }

  lemma {:induction false} FieldsArePlain(fields: seq<Field>, m: Templates)
    requires forall k :: 0 <= k < |fields| ==> PlainField(fields[k])
    ensures ValidFields(fields) && PlainBytes(WriteFields(fields)) && Silent(WriteFields(fields), m)
  {
    hide PlainBytes, Silent, Bytes16;
    if fields == [] {
      EmptyIsPlain(m);
    } else {
      var f := fields[0];
      FieldsArePlain(fields[1..], m);
      PairIsPlain(f.kind, f.length);
      PairIsSilent(f.kind, f.length, m);
      PlainJoins(Bytes16(f.kind) + Bytes16(f.length), WriteFields(fields[1..]));
      SilentJoins(Bytes16(f.kind) + Bytes16(f.length), WriteFields(fields[1..]), m);
    }
  }

  lemma EmptyIsPlain(m: Templates)
    ensures PlainBytes([]) && Silent([], m)
  {
  }

  /** Every template is known, or its id is not. */
  predicate UpToDate(m: Templates, templates: seq<Template>) {
    forall i :: 0 <= i < |templates| ==> templates[i].id in m ==> Knows(m, templates[i])
  }

  lemma {:induction false} LongEnough(fields: seq<Field>)
    requires forall k :: 0 <= k < |fields| ==> PlainField(fields[k])
    ensures RecordLength(fields) >= |fields|
  {
    if fields != [] { LongEnough(fields[..|fields| - 1]); }
  }

  lemma {:induction false} TemplatesArePlain(templates: seq<Template>, m: Templates)
    requires ValidTemplates(templates) && PlainTemplates(templates)
    ensures PlainBytes(WriteTemplates(templates))
    ensures UpToDate(m, templates) ==> Silent(WriteTemplates(templates), m)
  {
    hide PlainBytes, Silent, Bytes16, WriteFields, RecordLength;
    if templates == [] {
      EmptyIsPlain(m);
    } else {
      var t, rest := templates[0], templates[1..];
      assert PlainTemplate(t);
      TemplatesArePlain(rest, m);
      FieldsArePlain(t.fields, m);
      PairIsPlain(t.id, |t.fields|);
      var head, fields := Bytes16(t.id) + Bytes16(|t.fields|), WriteFields(t.fields);
      PlainJoins(head, fields);
      PlainJoins(head + fields, WriteTemplates(rest));
      if UpToDate(m, templates) {
        LongEnough(t.fields);
        PairIsSilent(t.id, |t.fields|, m);
        SilentJoins(head, fields, m);
        SilentJoins(head + fields, WriteTemplates(rest), m);
      }
    }
  }

  // ---------- the walk over plain bytes ----------

  lemma {:induction false} PlainFrom(w: seq<Byte>, n: nat)
    requires PlainBytes(w) && 2 * n <= |w|
    ensures PlainBytes(w[2 * n..])
    decreases n
  {
    if n > 0 {
      PlainFrom(w[2..], n - 1);
      assert w[2..][2 * (n - 1)..] == w[2 * n..];
    }
  }

  lemma {:induction false} SilentFrom(w: seq<Byte>, n: nat, m: Templates)
    requires Silent(w, m) && 2 * n <= |w|
    ensures Silent(w[2 * n..], m)
    decreases n
  {
    hide SilentHead;
    if n > 0 {
      SilentFrom(w[2..], n - 1, m);
      assert w[2..][2 * (n - 1)..] == w[2 * n..];
    }
  }

  lemma {:induction false} PlainIsEven(w: seq<Byte>)
    requires PlainBytes(w)
    ensures |w| % 2 == 0
    decreases |w|
  {
    if w != [] { PlainIsEven(w[2..]); }
  }

  /** From the second byte of a word on, no set is found that has any content. */
  lemma OddWalk(w: seq<Byte>, padding: seq<Byte>, m: Templates)
    requires PlainBytes(w) && w != [] && |padding| < 4 && |w| + |padding| < 256
    ensures Walk((w + padding)[1..], 0, m) == ([], m)
  {
    hide ReadTemplates, ReadRecords;
    var s := (w + padding)[1..];
    if |s| >= 4 {
      PlainIsEven(w);
      if |w| >= 4 {
        assert PlainBytes(w[2..]);
        assert s[2] == w[3];
        assert w[3] == 0 ==> s[3] == w[4] == 0;
        StopsAt(s, m);
      } else if SetAhead(s) {
        assert SetContent(s) == [];
        LastSet(s, m);
        EmptySet(U16(s, 0), m);
      }
    }
  }

  lemma EmptySet(id: nat, m: Templates)
    ensures ReadSet(id, [], 0, m) == ([], m)
  {
  }

  lemma ShortContent(content: seq<Byte>, id: nat, m: Templates)
    requires id != 0
    ensures ReadSet(id, content, 0, m).1 == m
    ensures (id >= FIRST_TEMPLATE_ID && id in m ==> |content| < RecordLength(m[id])) ==> ReadSet(id, content, 0, m).0 == []
  {
  }

  /** The first set that is found in plain bytes teaches nothing, and yields nothing if they are silent. */
  lemma PlainSetAhead(w: seq<Byte>, padding: seq<Byte>, m: Templates)
    requires PlainBytes(w) && |padding| < 4 && SetAhead(w + padding)
    ensures
      var s := w + padding;
      var (flows, m') := ReadSet(U16(s, 0), SetContent(s), 0, m);
      m' == m && (Silent(w, m) ==> flows == [])
  {
    hide ReadSet, RecordLength;
    var s := w + padding;
    PlainIsEven(w);
    assert U16(s, 0) == U16(w, 0) && (|w| >= 4 ==> U16(s, 2) == U16(w, 2));
    if Silent(w, m) && U16(s, 2) < 4 && U16(s, 0) >= FIRST_TEMPLATE_ID && U16(s, 0) in m { EmptySet(U16(s, 0), m); }
    ShortContent(SetContent(s), U16(s, 0), m);
  }

  lemma EvenRest(w: seq<Byte>, padding: seq<Byte>, n: nat, m: Templates)
    requires PlainBytes(w) && n % 2 == 0 && n < |w|
    ensures PlainBytes(w[n..]) && (w + padding)[n..] == w[n..] + padding
    ensures Silent(w, m) ==> Silent(w[n..], m)
  {
    hide PlainBytes, Silent;
    PlainFrom(w, n / 2);
    if Silent(w, m) { SilentFrom(w, n / 2, m); }
  }

  lemma OddRest(w: seq<Byte>, padding: seq<Byte>, n: nat, m: Templates)
    requires PlainBytes(w) && n % 2 == 1 && n < |w| && |padding| < 4 && |w| + |padding| < 256
    ensures Walk((w + padding)[n..], 0, m) == ([], m)
  {
    hide PlainBytes, Walk;
    PlainFrom(w, n / 2);
    OddWalk(w[n - 1..], padding, m);
    assert (w + padding)[n..] == (w[n - 1..] + padding)[1..];
  }

  lemma {:induction false} PlainWalk(w: seq<Byte>, padding: seq<Byte>, m: Templates)
    requires PlainBytes(w) && |padding| < 4 && |w| + |padding| < 256
    ensures Walk(w + padding, 0, m).1 == m
    ensures Silent(w, m) ==> Walk(w + padding, 0, m).0 == []
    decreases |w|
  {
    hide ReadSet, PlainBytes, Silent, SetContent, U16;
    var s := w + padding;
    if SetAhead(s) {
      var n := U16(s, 2);
      PlainSetAhead(w, padding, m);
      if n >= |w| {
        assert |s[n..]| < 4;
        StopsAt(s[n..], m);
      } else if n % 2 == 0 {
        EvenRest(w, padding, n, m);
        PlainWalk(w[n..], padding, m);
      } else {
        OddRest(w, padding, n, m);
      }
    }
  }

  lemma PlainContentWalk(flowSet: FlowSet, m: Templates)
    requires PlainSet(flowSet, m)
    ensures
      var (flows, m') := Walk(WriteContent(flowSet, 0, m), 0, m);
      m' == m && (UpToDate(m, flowSet.templates) ==> flows == [])
  {
    hide Walk, WriteTemplates, PlainBytes, Silent, UpToDate, PlainTemplates;
    TemplatesArePlain(flowSet.templates, m);
    PlainWalk(WriteTemplates(flowSet.templates), flowSet.padding, m);
  }

  /** A v9 packet of one set of plain templates, known or not, teaches nothing at all; and no flows are
      made up unless it replaces a known template. */
  lemma PlainTemplatesAreIgnored(h: seq<Byte>, flowSet: FlowSet, m: Templates)
    requires |h| == 20 && U16(h, 0) == 9 && PlainSet(flowSet, m)
    ensures
      var p := V9Packet(h, [flowSet]);
      && ValidPacket(p, m) && Parse(WritePacket(p, m), m).1 == m
      && (UpToDate(m, flowSet.templates) ==> Parse(WritePacket(p, m), m) == (Some([]), m))
  {
    PlainContentWalk(flowSet, m);
    hide Walk, WriteContent, UpToDate, Parse, WritePacket, ValidPacket, PacketMeant;
    AloneParse(h, flowSet, m);
  }

  lemma KnownIsMeant(flowSet: FlowSet, m: Templates)
    requires PlainSet(flowSet, m)
    ensures Walk(WriteContent(flowSet, 0, m), 0, m) == SetMeant(flowSet, 0, m) <==> AllKnown(m, flowSet.templates)
  {
    PlainContentWalk(flowSet, m);
    LearnAllKnows(m, flowSet.templates);
    assert SetMeant(flowSet, 0, m) == ([], LearnAll(m, flowSet.templates));
    hide Walk, WriteContent, SetMeant;
    if AllKnown(m, flowSet.templates) { LearnKnown(m, flowSet.templates); }
  }

  /** It is read as meant exactly if all its templates are known already. */
  lemma PlainAloneIff(h: seq<Byte>, flowSet: FlowSet, m: Templates)
    requires |h| == 20 && U16(h, 0) == 9 && PlainSet(flowSet, m)
    ensures
      var p := V9Packet(h, [flowSet]);
      && ValidPacket(p, m)
      && (Parse(WritePacket(p, m), m) == (Some(PacketMeant(p, m).0), PacketMeant(p, m).1)
          <==> AllKnown(m, flowSet.templates))
  {
    KnownIsMeant(flowSet, m);
    assert ValidSet(flowSet, 0, m);
    hide Walk, WriteContent, SetMeant, Parse, WritePacket, ValidPacket, PacketMeant, PlainSet, AllKnown;
    AloneParse(h, flowSet, m);
  }

  /** And such a set may stand in front of any others exactly if, besides, the lengths that are found in
      its content lead to its end. */
  lemma PlainHarmlessIff(flowSet: FlowSet, m: Templates)
    requires PlainSet(flowSet, m)
    ensures Harmless(flowSet, m) <==> AllKnown(m, flowSet.templates) && SetAligned(WriteContent(flowSet, 0, m))
  {
    KnownIsMeant(flowSet, m);
    hide Walk, WriteContent, SetMeant, SetAligned, AllKnown;
  }

  // ---------- sets that may stand first ----------

  /** Pairs of words of which the second is a multiple of four and leads no further than the end. */
  predicate Quads(s: seq<Byte>)
    decreases |s|
  {
    s == [] || (|s| >= 4 && U16(s, 2) % 4 == 0 && 0 < U16(s, 2) <= |s| && Quads(s[4..]))
  }

  lemma {:induction false} QuadsFrom(s: seq<Byte>, n: nat)
    requires Quads(s) && 4 * n <= |s|
    ensures Quads(s[4 * n..])
    decreases n
  {
    if n > 0 {
      QuadsFrom(s[4..], n - 1);
      assert s[4..][4 * (n - 1)..] == s[4 * n..];
    }
  }

  lemma {:induction false} QuadsAlign(s: seq<Byte>)
    requires Quads(s)
    ensures SetAligned(s)
    decreases |s|
  {
    if s != [] {
      var n := U16(s, 2);
      QuadsFrom(s, n / 4);
      QuadsAlign(s[n..]);
    }
  }

  /** All fields are four bytes long, and their number is a multiple of four. */
  predicate FourByFour(t: Template) {
    |t.fields| % 4 == 0 && forall k :: 0 <= k < |t.fields| ==> t.fields[k].length == 4
  }

  lemma QuadInFront(x: nat, y: nat, rest: seq<Byte>)
    requires x < 0x1_0000 && 0 < y < 0x1_0000 && y % 4 == 0 && y <= 4 + |rest| && Quads(rest)
    ensures Quads(Bytes16(x) + Bytes16(y) + rest)
  {
    hide Bytes16, U16;
    HeaderReads(x, y, rest);
  }

  lemma {:induction false} FieldsAreQuads(fields: seq<Field>, rest: seq<Byte>)
    requires ValidFields(fields) && Quads(rest) && forall k :: 0 <= k < |fields| ==> fields[k].length == 4
    ensures Quads(WriteFields(fields) + rest)
  {
    hide Quads, Bytes16;
    if fields == [] {
      assert WriteFields(fields) + rest == rest;
    } else {
      var f, more := fields[0], WriteFields(fields[1..]);
      FieldsAreQuads(fields[1..], rest);
      QuadInFront(f.kind, 4, more + rest);
      Assoc(Bytes16(f.kind) + Bytes16(4), more, rest);
    }
  }

  lemma {:induction false} TemplatesAreQuads(templates: seq<Template>)
    requires ValidTemplates(templates) && forall i :: 0 <= i < |templates| ==> FourByFour(templates[i])
    ensures Quads(WriteTemplates(templates))
  {
    hide Quads, Bytes16, WriteFields;
    if templates == [] {
      NothingIsQuads();
    } else {
      var t, rest := templates[0], WriteTemplates(templates[1..]);
      assert ValidTemplate(t) && FourByFour(t);
      TemplatesAreQuads(templates[1..]);
      FieldsAreQuads(t.fields, rest);
      FieldsRoundTrip(t.fields, rest);
      QuadInFront(t.id, |t.fields|, WriteFields(t.fields) + rest);
      Assoc(Bytes16(t.id) + Bytes16(|t.fields|), WriteFields(t.fields), rest);
    }
  }

  lemma NothingIsQuads()
    ensures Quads([])
  {
  }

  /** Known templates of four-byte fields that come in fours may be announced again in front of any sets. */
  lemma KnownFoursAreHarmless(templates: seq<Template>, m: Templates)
    requires PlainSet(TemplateSet(templates, []), m) && AllKnown(m, templates)
    requires forall i :: 0 <= i < |templates| ==> FourByFour(templates[i])
    ensures Harmless(TemplateSet(templates, []), m)
  {
    hide Harmless, AllKnown, SetAligned, WriteTemplates, FourByFour, Quads, PlainTemplates;
    PlainHarmlessIff(TemplateSet(templates, []), m);
    TemplatesAreQuads(templates);
    QuadsAlign(WriteTemplates(templates));
    var content := WriteTemplates(templates);
    assert content + [] == content;
  }

  /** The known template of four standard fields, for instance. */
  lemma KnownTemplateAgain(m: Templates)
    requires 256 in m && m[256] == [Field(8, 4), Field(12, 4), Field(1, 4), Field(2, 4)]
    ensures
      var flowSet := TemplateSet([Template(256, m[256])], []);
      ValidSet(flowSet, 0, m) && WriteContent(flowSet, 0, m) != [] && Harmless(flowSet, m)
  {
    var t := Template(256, m[256]);
    hide Harmless, WriteContent, WriteTemplates;
    OneTemplate(256, m[256], m);
    KnownFoursAreHarmless([t], m);
  }
}
