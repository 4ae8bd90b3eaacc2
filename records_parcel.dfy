/** RecordsParcel: a batch of typed records framed for one cross-process
    call, sent inline or through a shared-memory segment depending on its
    size, and read back under the rate limiter's memory checks. */
module RecordsTransport {
  import opened Base
  import opened Parcels
  import opened StepsCadence

  const USING_SHARED_MEMORY: Int32 := 0
  const USING_PARCEL: Int32 := 1
  /** Payloads strictly larger than this many bytes go through shared memory. */
  const KBS_750: nat := 750000

  /** Record type identifiers. Their numeric values live in
      RecordTypeIdentifier, which is not part of this model; only their
      being distinct matters here. */
  const RECORD_TYPE_STEPS_CADENCE: Int32 := 1
  const RECORD_TYPE_DISTANCE: Int32 := 2
  const RECORD_TYPE_INTERMENSTRUAL_BLEEDING: Int32 := 3

  /** The type-specific part of a record. */
  datatype RecordBody =
    | StepsCadenceBody(startTime: Int64, endTime: Int64, samples: seq<Sample>)
    | DistanceBody(startTime: Int64, endTime: Int64, distance: Double)
    | IntermenstrualBleedingBody(time: Int64)

  /** A RecordInternal: owning package (null until populated), its
      application_info_table id, and the type-specific part. */
  datatype RecordInternal = RecordInternal(packageName: Option<string>, appInfoId: Int64, body: RecordBody)

  function RecordType(r: RecordInternal): Int32
  {
    match r.body
    case StepsCadenceBody(_, _, _) => RECORD_TYPE_STEPS_CADENCE
    case DistanceBody(_, _, _) => RECORD_TYPE_DISTANCE
    case IntermenstrualBleedingBody(_) => RECORD_TYPE_INTERMENSTRUAL_BLEEDING
  }

  /** Every list inside the record fits a Java int count. */
  predicate ValidRecord(r: RecordInternal)
  {
    r.body.StepsCadenceBody? ==> |r.body.samples| < 0x8000_0000
  }

  predicate ValidRecords(rs: seq<RecordInternal>)
  {
    |rs| < 0x8000_0000 && forall i :: 0 <= i < |rs| ==> ValidRecord(rs[i])
  }

  /** recordInternal.writeToParcel: the shared fields, then the type's own.
      For steps cadence the type's own part ends with populateIntervalRecordTo. */
  function EncodeRecord(r: RecordInternal): seq<Cell>
    requires ValidRecord(r)
  {
    [StringCell(r.packageName), LongCell(r.appInfoId)] +
    match r.body
    case StepsCadenceBody(s, e, samples) => [LongCell(s), LongCell(e)] + EncodeSamples(samples)
    case DistanceBody(s, e, d) => [LongCell(s), LongCell(e), DoubleCell(d)]
    case IntermenstrualBleedingBody(t) => [LongCell(t)]
  }

  /** One entry of the batch: the type identifier, then the record. */
  function RecordCells(r: RecordInternal): seq<Cell>
    requires ValidRecord(r)
  {
    [IntCell(RecordType(r))] + EncodeRecord(r)
  }

  /** The bytes one entry takes, which is what the per-record check is meant to see. */
  function WireSize(r: RecordInternal): nat
    requires ValidRecord(r)
  {
    Size(RecordCells(r))
  }

  function RecordsCells(rs: seq<RecordInternal>): seq<Cell>
    requires forall i :: 0 <= i < |rs| ==> ValidRecord(rs[i])
  {
    if rs == [] then [] else RecordCells(rs[0]) + RecordsCells(rs[1..])
  }

  lemma {:induction false} RecordsCellsAppend(rs: seq<RecordInternal>, r: RecordInternal)
    requires forall i :: 0 <= i < |rs| ==> ValidRecord(rs[i])
    requires ValidRecord(r)
    ensures RecordsCells(rs + [r]) == RecordsCells(rs) + RecordCells(r)
  {
    if rs == [] {
      assert [r][1..] == [];
    } else {
      assert (rs + [r])[0] == rs[0] && (rs + [r])[1..] == rs[1..] + [r];
      RecordsCellsAppend(rs[1..], r);
    }
  }

  /** writeToParcelInternal: the record count, then each entry in list order. */
  function EncodePayload(rs: seq<RecordInternal>): seq<Cell>
    requires ValidRecords(rs)
  {
    [IntCell(|rs|)] + RecordsCells(rs)
  }

  /** writeToParcel: the transport tag, then either the handle of a segment
      holding the payload or the payload itself. */
  function WireCells(rs: seq<RecordInternal>): (w: seq<Cell>)
    requires ValidRecords(rs)
    ensures |w| >= 2
    ensures w[0] == IntCell(USING_SHARED_MEMORY) <==> Size(EncodePayload(rs)) > KBS_750
    ensures w[0] == IntCell(USING_PARCEL) <==> Size(EncodePayload(rs)) <= KBS_750
  {
    var payload := EncodePayload(rs);
    if Size(payload) > KBS_750
    then [IntCell(USING_SHARED_MEMORY), SharedMemoryCell(payload)]
    else [IntCell(USING_PARCEL)] + payload
  }

  // ---- decoding ----

  /** ParcelRecordConverter.getRecord: the record of the given type at p, and
      the cursor after it. An identifier with no record class finds a null
      class, which fails as NullPointerException. */
  function DecodeRecord(cs: seq<Cell>, p: nat, id: Int32): (r: Result<(RecordInternal, nat)>)
    ensures r.Ok? ==> p < r.value.1 <= |cs| && ValidRecord(r.value.0) && RecordType(r.value.0) == id
    ensures id != RECORD_TYPE_STEPS_CADENCE && id != RECORD_TYPE_DISTANCE && id != RECORD_TYPE_INTERMENSTRUAL_BLEEDING
            ==> r == Err(NullPointer)
  {
    if id != RECORD_TYPE_STEPS_CADENCE && id != RECORD_TYPE_DISTANCE && id != RECORD_TYPE_INTERMENSTRUAL_BLEEDING
    then Err(NullPointer)
    else
      var pkg :- Need(StringAt(cs, p));
      var appId :- Need(LongAt(cs, p + 1));
      if id == RECORD_TYPE_INTERMENSTRUAL_BLEEDING then
        var t :- Need(LongAt(cs, p + 2));
        Ok((RecordInternal(pkg, appId, IntermenstrualBleedingBody(t)), p + 3))
      else
        var s :- Need(LongAt(cs, p + 2));
        var e :- Need(LongAt(cs, p + 3));
        if id == RECORD_TYPE_DISTANCE then
          var d :- Need(DoubleAt(cs, p + 4));
          Ok((RecordInternal(pkg, appId, DistanceBody(s, e, d)), p + 5))
        else
          var samples :- DecodeSamples(cs, p + 4);
          if samples.1 <= |cs| && |samples.0| < 0x8000_0000
          then Ok((RecordInternal(pkg, appId, StepsCadenceBody(s, e, samples.0)), samples.1))
          else Err(Malformed)
  }

  lemma RecordRoundTrip(cs: seq<Cell>, p: nat, r: RecordInternal)
    requires ValidRecord(r)
    requires At(cs, p, EncodeRecord(r))
    ensures DecodeRecord(cs, p, RecordType(r)) == Ok((r, p + |EncodeRecord(r)|))
  {
    var enc := EncodeRecord(r);
    assert cs[p] == enc[0] && cs[p + 1] == enc[1];
    match r.body
    case StepsCadenceBody(s, e, samples) =>
      assert cs[p + 2] == enc[2] && cs[p + 3] == enc[3];
      assert enc == [StringCell(r.packageName), LongCell(r.appInfoId), LongCell(s), LongCell(e)] + EncodeSamples(samples);
      AtSplit(cs, p, [StringCell(r.packageName), LongCell(r.appInfoId), LongCell(s), LongCell(e)], EncodeSamples(samples));
      SamplesRoundTrip(cs, p + 4, samples);
    case DistanceBody(s, e, d) =>
      assert cs[p + 2] == enc[2] && cs[p + 3] == enc[3] && cs[p + 4] == enc[4];
    case IntermenstrualBleedingBody(t) =>
      assert cs[p + 2] == enc[2];
  }

  /** How the per-record check measures the parcel: `dataSize()` (all
      bytes, as the source calls it) or `dataAvail()` (the bytes not yet
      read). The chunk check always uses `dataSize()`. */
  datatype SizeProbe = DataSizeProbe | DataAvailProbe

  function Probe(cs: seq<Cell>, p: nat, probe: SizeProbe): nat
    requires p <= |cs|
  {
    if probe == DataSizeProbe then Size(cs) else Size(cs[p..])
  }

  /** The rate limiter's caps: checkMaxChunkMemoryUsage fails above
      maxChunk, checkMaxRecordMemoryUsage above maxRecord. */
  datatype Limits = Limits(maxChunk: int, maxRecord: int)

  /** One entry: the type identifier, then the record of that type. */
  function DecodeEntry(cs: seq<Cell>, p: nat): (r: Result<(RecordInternal, nat)>)
    ensures r.Ok? ==> p < r.value.1 <= |cs| && ValidRecord(r.value.0)
  {
    var id :- Need(IntAt(cs, p));
    DecodeRecord(cs, p + 1, id)
  }

  /** Records decoded in front of an outcome that carries the cursor. */
  function Prepend(xs: seq<RecordInternal>, r: Result<(seq<RecordInternal>, nat)>): Result<(seq<RecordInternal>, nat)>
  {
    if r.Ok? then Ok((xs + r.value.0, r.value.1)) else r
  }

  /** The loop of the decoding constructor: n entries from p, and the cursor
      after the last one. After each record the per-record check sees the
      probe before the entry minus the probe after it; any failure ends the
      whole decode. */
  function DecodeLoop(cs: seq<Cell>, p: nat, n: nat, limits: Limits, probe: SizeProbe)
    : (r: Result<(seq<RecordInternal>, nat)>)
    requires p <= |cs|
    ensures r.Ok? ==> |r.value.0| == n && p <= r.value.1 <= |cs|
    decreases n
  {
    if n == 0 then Ok(([], p))
    else
      var d :- DecodeEntry(cs, p);
      if Probe(cs, p, probe) - Probe(cs, d.1, probe) > limits.maxRecord then Err(QuotaExceeded)
      else Prepend([d.0], DecodeLoop(cs, d.1, n - 1, limits, probe))
  }

  /** After the tag: the count (negative is `new ArrayList<>(n)` failing),
      the chunk check on the whole parcel's dataSize() (whichever probe the
      per-record check uses), then the loop. */
  function DecodeBody(cs: seq<Cell>, p: nat, limits: Limits, probe: SizeProbe): Result<(seq<RecordInternal>, nat)>
  {
    var n :- Need(IntAt(cs, p));
    if n < 0 then Err(IllegalArgument)
    else if Size(cs) > limits.maxChunk then Err(QuotaExceeded)
    else DecodeLoop(cs, p + 1, n, limits, probe)
  }

  /** The decoding constructor: the records, and where the incoming
      parcel's cursor ends. The tag comes first; USING_SHARED_MEMORY switches
      to a parcel over the segment, leaving the incoming cursor just past the
      handle, and any other tag reads on inline up to the last entry. */
  function DecodeRecordsParcel(cs: seq<Cell>, p: nat, limits: Limits, probe: SizeProbe)
    : Result<(seq<RecordInternal>, nat)>
  {
    var tag :- Need(IntAt(cs, p));
    if tag == USING_SHARED_MEMORY then
      var segment :- Need(SharedMemoryAt(cs, p + 1));
      var d :- DecodeBody(segment, 0, limits, probe);
      Ok((d.0, p + 2))
    else
      DecodeBody(cs, p + 1, limits, probe)
  }

  // ---- properties of the decoder ----

  /** One entry at p, followed by `rest`: its identifier reads back, its
      record decodes to the cursor just past it, and dataAvail() drops by
      exactly the entry's size. */
  lemma EntryAt(cs: seq<Cell>, p: nat, r: RecordInternal, rest: seq<Cell>)
    requires ValidRecord(r)
    requires p <= |cs| && cs[p..] == RecordCells(r) + rest
    ensures p + |RecordCells(r)| <= |cs|
    ensures DecodeEntry(cs, p) == Ok((r, p + |RecordCells(r)|))
    ensures cs[p + |RecordCells(r)|..] == rest
    ensures Size(cs[p..]) - Size(cs[p + |RecordCells(r)|..]) == WireSize(r)
  {
    var e := RecordCells(r);
    PrefixAt(cs, p, e, rest);
    assert e == [IntCell(RecordType(r))] + EncodeRecord(r);
    AtSplit(cs, p, [IntCell(RecordType(r))], EncodeRecord(r));
    RecordRoundTrip(cs, p + 1, r);
    SizeSplit(cs, p, p + |e|);
  }

  lemma PrefixAt(cs: seq<Cell>, p: nat, a: seq<Cell>, b: seq<Cell>)
    requires p <= |cs| && cs[p..] == a + b
    ensures At(cs, p, a) && cs[p + |a|..] == b
    ensures a != [] ==> cs[p] == a[0]
  {
    assert cs[p..p + |a|] == cs[p..][..|a|];
    assert cs[p + |a|..] == cs[p..][|a|..];
    if a != [] {
      assert cs[p] == cs[p..][0];
    }
  }

  /** One turn of the loop, once the entry at p is known to decode. */
  lemma LoopStep(cs: seq<Cell>, p: nat, n: nat, limits: Limits, probe: SizeProbe, r: RecordInternal, q: nat)
    requires p <= |cs| && 0 < n
    requires DecodeEntry(cs, p) == Ok((r, q))
    ensures q <= |cs|
    ensures DecodeLoop(cs, p, n, limits, probe)
            == if Probe(cs, p, probe) - Probe(cs, q, probe) > limits.maxRecord then Err(QuotaExceeded)
               else Prepend([r], DecodeLoop(cs, q, n - 1, limits, probe))
  {
  }

  /** A loop whose current entry is over the cap, or whose remaining
      entries fail on the cap, fails on the cap. */
  lemma LoopQuota(cs: seq<Cell>, p: nat, n: nat, limits: Limits, probe: SizeProbe, r: RecordInternal, q: nat)
    requires p <= |cs| && 0 < n
    requires DecodeEntry(cs, p) == Ok((r, q))
    requires q <= |cs|
    requires Probe(cs, p, probe) - Probe(cs, q, probe) > limits.maxRecord
             || DecodeLoop(cs, q, n - 1, limits, probe) == Err(QuotaExceeded)
    ensures DecodeLoop(cs, p, n, limits, probe) == Err(QuotaExceeded)
  {
    LoopStep(cs, p, n, limits, probe, r, q);
  }

  /** Reading entries back with dataAvail(): each record comes back in order
      when every entry fits the per-record cap. */
  lemma {:induction false} LoopRoundTrip(cs: seq<Cell>, p: nat, rs: seq<RecordInternal>, limits: Limits)
    requires forall i :: 0 <= i < |rs| ==> ValidRecord(rs[i]) && WireSize(rs[i]) <= limits.maxRecord
    requires p <= |cs| && cs[p..] == RecordsCells(rs)
    ensures DecodeLoop(cs, p, |rs|, limits, DataAvailProbe) == Ok((rs, |cs|))
    decreases |rs|
  {
    if rs != [] {
      var q := p + |RecordCells(rs[0])|;
      EntryAt(cs, p, rs[0], RecordsCells(rs[1..]));
      LoopStep(cs, p, |rs|, limits, DataAvailProbe, rs[0], q);
      LoopRoundTrip(cs, q, rs[1..], limits);
      assert rs == [rs[0]] + rs[1..];
    }
  }

  /** Reading entries back with dataAvail(): the first entry over the
      per-record cap fails the whole decode as QuotaExceeded. */
  lemma {:induction false} LoopRejectsOversized(cs: seq<Cell>, p: nat, rs: seq<RecordInternal>, limits: Limits, j: nat)
    requires forall i :: 0 <= i < |rs| ==> ValidRecord(rs[i])
    requires p <= |cs| && cs[p..] == RecordsCells(rs)
    requires j < |rs| && WireSize(rs[j]) > limits.maxRecord
    ensures DecodeLoop(cs, p, |rs|, limits, DataAvailProbe) == Err(QuotaExceeded)
    decreases |rs|
  {
    var q := p + |RecordCells(rs[0])|;
    EntryAt(cs, p, rs[0], RecordsCells(rs[1..]));
    assert Probe(cs, p, DataAvailProbe) - Probe(cs, q, DataAvailProbe) == WireSize(rs[0]);
    if WireSize(rs[0]) <= limits.maxRecord {
      assert 0 < j && rs[1..][j - 1] == rs[j];
      LoopRejectsOversized(cs, q, rs[1..], limits, j - 1);
      assert |rs[1..]| == |rs| - 1;
      LoopQuota(cs, p, |rs|, limits, DataAvailProbe, rs[0], q);
    } else {
      LoopQuota(cs, p, |rs|, limits, DataAvailProbe, rs[0], q);
    }
  }

  /** Reading entries back with dataSize(), as the source does: the
      per-record check always sees 0, so every batch of well-formed entries
      decodes whatever the size of each record. */
  lemma {:induction false} LoopAsWrittenIgnoresRecordSize(cs: seq<Cell>, p: nat, rs: seq<RecordInternal>, limits: Limits)
    requires forall i :: 0 <= i < |rs| ==> ValidRecord(rs[i])
    requires 0 <= limits.maxRecord
    requires p <= |cs| && cs[p..] == RecordsCells(rs)
    ensures DecodeLoop(cs, p, |rs|, limits, DataSizeProbe) == Ok((rs, |cs|))
    decreases |rs|
  {
    if rs != [] {
      var q := p + |RecordCells(rs[0])|;
      EntryAt(cs, p, rs[0], RecordsCells(rs[1..]));
      LoopStep(cs, p, |rs|, limits, DataSizeProbe, rs[0], q);
      LoopAsWrittenIgnoresRecordSize(cs, q, rs[1..], limits);
      assert rs == [rs[0]] + rs[1..];
    }
  }

  /** The payload and the bytes left after its count, on either path. */
  lemma BodyOfWire(pre: seq<Cell>, rs: seq<RecordInternal>)
    requires ValidRecords(rs)
    ensures var cs := pre + WireCells(rs);
            IntAt(cs, |pre|) == Some(if Size(EncodePayload(rs)) > KBS_750 then USING_SHARED_MEMORY else USING_PARCEL)
    ensures Size(EncodePayload(rs)) > KBS_750 ==>
              SharedMemoryAt(pre + WireCells(rs), |pre| + 1) == Some(EncodePayload(rs))
    ensures Size(EncodePayload(rs)) <= KBS_750 ==>
              (pre + WireCells(rs))[|pre| + 1..] == EncodePayload(rs)
  {
    var cs := pre + WireCells(rs);
    assert cs[|pre|] == WireCells(rs)[0];
    if Size(EncodePayload(rs)) > KBS_750 {
      assert cs[|pre| + 1] == WireCells(rs)[1];
    } else {
      assert cs[|pre| + 1..] == WireCells(rs)[1..];
    }
  }

  /** Where the payload is read from: the parcel itself after the tag, or
      the start of the shared-memory segment. */
  lemma WireBody(pre: seq<Cell>, rs: seq<RecordInternal>, cs: seq<Cell>, limits: Limits, probe: SizeProbe)
    returns (body: seq<Cell>, p: nat)
    requires ValidRecords(rs) && cs == pre + WireCells(rs)
    ensures p < |body| && body[p..] == EncodePayload(rs)
    ensures body == cs || body == EncodePayload(rs)
    ensures DecodeBody(body, p, limits, probe).Err? ==>
              DecodeRecordsParcel(cs, |pre|, limits, probe) == DecodeBody(body, p, limits, probe)
    ensures DecodeBody(body, p, limits, probe) == Ok((rs, |body|)) ==>
              DecodeRecordsParcel(cs, |pre|, limits, probe) == Ok((rs, |cs|))
  {
    if Size(EncodePayload(rs)) > KBS_750 {
      body, p := EncodePayload(rs), 0;
      assert body[0..] == body;
      WireShared(pre, rs, limits, probe);
    } else {
      body, p := cs, |pre| + 1;
      WireInline(pre, rs, limits, probe);
    }
  }

  /** The shared-memory path: the body is decoded from the segment, and the
      incoming cursor stops just past the handle. */
  lemma WireShared(pre: seq<Cell>, rs: seq<RecordInternal>, limits: Limits, probe: SizeProbe)
    requires ValidRecords(rs) && Size(EncodePayload(rs)) > KBS_750
    ensures |WireCells(rs)| == 2
    ensures DecodeBody(EncodePayload(rs), 0, limits, probe).Err? ==>
              DecodeRecordsParcel(pre + WireCells(rs), |pre|, limits, probe) == DecodeBody(EncodePayload(rs), 0, limits, probe)
    ensures DecodeBody(EncodePayload(rs), 0, limits, probe) == Ok((rs, |EncodePayload(rs)|)) ==>
              DecodeRecordsParcel(pre + WireCells(rs), |pre|, limits, probe) == Ok((rs, |pre + WireCells(rs)|))
  {
    BodyOfWire(pre, rs);
  }

  /** The inline path: the body is decoded in place, just past the tag. */
  lemma WireInline(pre: seq<Cell>, rs: seq<RecordInternal>, limits: Limits, probe: SizeProbe)
    requires ValidRecords(rs) && Size(EncodePayload(rs)) <= KBS_750
    ensures |pre| + 1 < |pre + WireCells(rs)|
    ensures (pre + WireCells(rs))[|pre| + 1..] == EncodePayload(rs)
    ensures DecodeRecordsParcel(pre + WireCells(rs), |pre|, limits, probe)
            == DecodeBody(pre + WireCells(rs), |pre| + 1, limits, probe)
  {
    BodyOfWire(pre, rs);
  }

  /** Past the count of a payload: the entries, reached when the chunk check passes. */
  lemma PayloadBody(body: seq<Cell>, p: nat, rs: seq<RecordInternal>, limits: Limits, probe: SizeProbe)
    requires ValidRecords(rs)
    requires p < |body| && body[p..] == EncodePayload(rs)
    ensures body[p + 1..] == RecordsCells(rs)
    ensures Size(body) <= limits.maxChunk ==>
              DecodeBody(body, p, limits, probe) == DecodeLoop(body, p + 1, |rs|, limits, probe)
  {
    assert body[p] == body[p..][0];
    assert body[p + 1..] == body[p..][1..];
  }

  /** Transport round trip with dataAvail(): whichever path the size picks,
      the records come back in order when they fit the caps, and the
      incoming cursor ends just past what writeToParcel wrote. */
  lemma RecordsParcelRoundTrip(pre: seq<Cell>, rs: seq<RecordInternal>, limits: Limits)
    requires ValidRecords(rs)
    requires forall i :: 0 <= i < |rs| ==> WireSize(rs[i]) <= limits.maxRecord
    requires Size(pre + WireCells(rs)) <= limits.maxChunk && Size(EncodePayload(rs)) <= limits.maxChunk
    ensures DecodeRecordsParcel(pre + WireCells(rs), |pre|, limits, DataAvailProbe) == Ok((rs, |pre + WireCells(rs)|))
  {
    var cs := pre + WireCells(rs);
    var body, p := WireBody(pre, rs, cs, limits, DataAvailProbe);
    assert Size(body) <= limits.maxChunk;
    PayloadBody(body, p, rs, limits, DataAvailProbe);
    LoopRoundTrip(body, p + 1, rs, limits);
    assert DecodeBody(body, p, limits, DataAvailProbe) == Ok((rs, |body|));
    assert DecodeRecordsParcel(cs, |pre|, limits, DataAvailProbe) == Ok((rs, |cs|));
  }

  /** With dataAvail(), any record over the per-record cap fails the whole
      batch as QuotaExceeded: no partial list is returned. */
  lemma OversizedRecordRejected(pre: seq<Cell>, rs: seq<RecordInternal>, limits: Limits, j: nat)
    requires ValidRecords(rs)
    requires Size(pre + WireCells(rs)) <= limits.maxChunk && Size(EncodePayload(rs)) <= limits.maxChunk
    requires j < |rs| && WireSize(rs[j]) > limits.maxRecord
    ensures DecodeRecordsParcel(pre + WireCells(rs), |pre|, limits, DataAvailProbe) == Err(QuotaExceeded)
  {
    var body, p := WireBody(pre, rs, pre + WireCells(rs), limits, DataAvailProbe);
    assert Size(body) <= limits.maxChunk;
    PayloadBody(body, p, rs, limits, DataAvailProbe);
    LoopRejectsOversized(body, p + 1, rs, limits, j);
  }

  /** As written (dataSize()): a batch of well-formed records decodes
      whenever the chunk check passes, even when a record is over the
      per-record cap. */
  lemma AsWrittenIgnoresRecordCap(pre: seq<Cell>, rs: seq<RecordInternal>, limits: Limits)
    requires ValidRecords(rs)
    requires 0 <= limits.maxRecord
    requires Size(pre + WireCells(rs)) <= limits.maxChunk && Size(EncodePayload(rs)) <= limits.maxChunk
    ensures DecodeRecordsParcel(pre + WireCells(rs), |pre|, limits, DataSizeProbe) == Ok((rs, |pre + WireCells(rs)|))
  {
    var cs := pre + WireCells(rs);
    var body, p := WireBody(pre, rs, cs, limits, DataSizeProbe);
    assert Size(body) <= limits.maxChunk;
    PayloadBody(body, p, rs, limits, DataSizeProbe);
    LoopAsWrittenIgnoresRecordSize(body, p + 1, rs, limits);
    assert DecodeBody(body, p, limits, DataSizeProbe) == Ok((rs, |body|));
    assert DecodeRecordsParcel(cs, |pre|, limits, DataSizeProbe) == Ok((rs, |cs|));
  }

  /** One intermenstrual-bleeding record, 28 bytes on the wire, against a
      per-record cap of 16: the source's decoder accepts it, the dataAvail()
      decoder rejects it. */
  lemma AsWrittenAcceptsOversizedRecord()
    ensures var rs := [RecordInternal(Some("p"), 1, IntermenstrualBleedingBody(0))];
            var limits := Limits(1000, 16);
            && DecodeRecordsParcel(WireCells(rs), 0, limits, DataSizeProbe) == Ok((rs, |WireCells(rs)|))
            && DecodeRecordsParcel(WireCells(rs), 0, limits, DataAvailProbe) == Err(QuotaExceeded)
  {
    var rs := [RecordInternal(Some("p"), 1, IntermenstrualBleedingBody(0))];
    var limits := Limits(1000, 16);
    assert RecordsCells(rs) == RecordCells(rs[0]);
    assert WireSize(rs[0]) == 28;
    assert Size(EncodePayload(rs)) == 32;
    assert WireCells(rs) == [IntCell(USING_PARCEL)] + EncodePayload(rs);
    assert Size(WireCells(rs)) == 36;
    assert [] + WireCells(rs) == WireCells(rs);
    AsWrittenIgnoresRecordCap([], rs, limits);
    OversizedRecordRejected([], rs, limits, 0);
  }

  /** A chunk over the cap fails before any record is read, whatever follows. */
  lemma ChunkCheckFirst(cs: seq<Cell>, p: nat, limits: Limits, probe: SizeProbe)
    requires IntAt(cs, p).Some? && IntAt(cs, p).value >= 0
    requires Size(cs) > limits.maxChunk
    ensures DecodeBody(cs, p, limits, probe) == Err(QuotaExceeded)
  {
  }

  /** A count of 0 yields the empty list and runs no per-record check: even
      a cap no record could meet does not matter. */
  lemma EmptyBatch(pre: seq<Cell>, limits: Limits)
    requires Size(pre + WireCells([])) <= limits.maxChunk
    ensures DecodeRecordsParcel(pre + WireCells([]), |pre|, limits, DataAvailProbe) == Ok(([], |pre + WireCells([])|))
  {
    BodyOfWire(pre, []);
    var cs := pre + WireCells([]);
    assert cs[|pre| + 1..] == [IntCell(0)];
    assert cs[|pre| + 1] == IntCell(0);
    assert cs[|pre| + 2..] == [];
  }

  // ---- the imperative side ----

  /** Writes one entry's record part (recordInternal.writeToParcel). */
  method WriteRecord(r: RecordInternal, dest: Parcel)
    requires ValidRecord(r)
    modifies dest
    ensures dest.cells == old(dest.cells) + EncodeRecord(r) && dest.pos == old(dest.pos)
  {
    dest.WriteString(r.packageName);
    dest.WriteLong(r.appInfoId);
    match r.body
    case StepsCadenceBody(s, e, samples) =>
      dest.WriteLong(s);
      dest.WriteLong(e);
      WriteSamples(samples, dest);
    case DistanceBody(s, e, d) =>
      dest.WriteLong(s);
      dest.WriteLong(e);
      dest.WriteDouble(d);
    case IntermenstrualBleedingBody(t) =>
      dest.WriteLong(t);
  }

  /** Reads one record of type `id` (ParcelRecordConverter.getRecord). */
  method ReadRecord(src: Parcel, id: Int32) returns (r: Result<RecordInternal>)
    requires src.Valid()
    modifies src`pos
    ensures src.Valid()
    ensures r.Ok? <==> DecodeRecord(src.cells, old(src.pos), id).Ok?
    ensures r.Err? ==> r.error == DecodeRecord(src.cells, old(src.pos), id).error
    ensures r.Ok? ==> (r.value == DecodeRecord(src.cells, old(src.pos), id).value.0
                       && src.pos == DecodeRecord(src.cells, old(src.pos), id).value.1)
  {
    if id != RECORD_TYPE_STEPS_CADENCE && id != RECORD_TYPE_DISTANCE && id != RECORD_TYPE_INTERMENSTRUAL_BLEEDING {
      return Err(NullPointer);
    }
    var pkg := src.ReadString();
    if pkg.None? { return Err(Malformed); }
    var appId := src.ReadLong();
    if appId.None? { return Err(Malformed); }
    if id == RECORD_TYPE_INTERMENSTRUAL_BLEEDING {
      var t := src.ReadLong();
      if t.None? { return Err(Malformed); }
      return Ok(RecordInternal(pkg.value, appId.value, IntermenstrualBleedingBody(t.value)));
    }
    var s := src.ReadLong();
    if s.None? { return Err(Malformed); }
    var e := src.ReadLong();
    if e.None? { return Err(Malformed); }
    if id == RECORD_TYPE_DISTANCE {
      var d := src.ReadDouble();
      if d.None? { return Err(Malformed); }
      return Ok(RecordInternal(pkg.value, appId.value, DistanceBody(s.value, e.value, d.value)));
    }
    var samples := ReadSamples(src);
    if samples.Err? { return Err(samples.error); }
    if |samples.value| >= 0x8000_0000 { return Err(Malformed); }
    r := Ok(RecordInternal(pkg.value, appId.value, StepsCadenceBody(s.value, e.value, samples.value)));
  }

  /** Reads one entry: the type identifier, then the record. */
  method ReadEntry(src: Parcel) returns (r: Result<RecordInternal>)
    requires src.Valid()
    modifies src`pos
    ensures src.Valid()
    ensures r.Ok? <==> DecodeEntry(src.cells, old(src.pos)).Ok?
    ensures r.Err? ==> r.error == DecodeEntry(src.cells, old(src.pos)).error
    ensures r.Ok? ==> (r.value, src.pos) == DecodeEntry(src.cells, old(src.pos)).value
  {
    var id := src.ReadInt();
    if id.None? {
      return Err(Malformed);
    }
    r := ReadRecord(src, id.value);
  }

  /** The record-reading loop, measuring with dataAvail() (see DecodeLoop). */
  lemma PrependPrepend(a: seq<RecordInternal>, b: seq<RecordInternal>, x: Result<(seq<RecordInternal>, nat)>)
    ensures Prepend(a, Prepend(b, x)) == Prepend(a + b, x)
  {
    if x.Ok? {
      assert a + (b + x.value.0) == (a + b) + x.value.0;
    }
  }

  /** One turn of the loop within the per-record cap: the record joins the
      records already read, and the loop goes on from just past it. */
  lemma ReadStep(cs: seq<Cell>, p: nat, q: nat, k: nat, limits: Limits, out: seq<RecordInternal>, r: RecordInternal)
    requires p <= |cs| && 0 < k
    requires DecodeEntry(cs, p) == Ok((r, q))
    requires Size(cs[p..]) - Size(cs[q..]) <= limits.maxRecord
    ensures Prepend(out, DecodeLoop(cs, p, k, limits, DataAvailProbe))
            == Prepend(out + [r], DecodeLoop(cs, q, k - 1, limits, DataAvailProbe))
  {
    LoopStep(cs, p, k, limits, DataAvailProbe, r, q);
    PrependPrepend(out, [r], DecodeLoop(cs, q, k - 1, limits, DataAvailProbe));
  }

  /** The entry at p does not decode: the loop fails with the same error. */
  lemma LoopFails(cs: seq<Cell>, p: nat, n: nat, limits: Limits, probe: SizeProbe)
    requires p <= |cs| && 0 < n
    requires DecodeEntry(cs, p).Err?
    ensures DecodeLoop(cs, p, n, limits, probe) == Err(DecodeEntry(cs, p).error)
  {
  }

  /** The record-reading loop, measuring with dataAvail() (see DecodeLoop). */
  method ReadEntries(src: Parcel, n: Int32, limits: Limits) returns (r: Result<seq<RecordInternal>>)
    requires src.Valid() && n >= 0
    modifies src`pos
    ensures src.Valid()
    ensures r.Ok? <==> DecodeLoop(src.cells, old(src.pos), n, limits, DataAvailProbe).Ok?
    ensures r.Err? ==> r.error == DecodeLoop(src.cells, old(src.pos), n, limits, DataAvailProbe).error
    ensures r.Ok? ==> (r.value, src.pos) == DecodeLoop(src.cells, old(src.pos), n, limits, DataAvailProbe).value
  {
    ghost var cs := src.cells;
    ghost var p0 := src.pos;
    var out: seq<RecordInternal> := [];
    var remaining := src.DataAvail();
    var i: int := 0;
    ghost var whole := DecodeLoop(cs, p0, n, limits, DataAvailProbe);
    assert Prepend(out, whole) == whole by {
      if whole.Ok? {
        assert out + whole.value.0 == whole.value.0;
      }
    }
    while i < n
      invariant 0 <= i <= n
      invariant src.Valid() && src.cells == cs
      invariant remaining == Size(cs[src.pos..])
      invariant whole == Prepend(out, DecodeLoop(cs, src.pos, n - i, limits, DataAvailProbe))
    {
      ghost var p := src.pos;
      var rec := ReadEntry(src);
      if rec.Err? {
        LoopFails(cs, p, n - i, limits, DataAvailProbe);
        return Err(rec.error);
      }
      LoopStep(cs, p, n - i, limits, DataAvailProbe, rec.value, src.pos);
      var after := src.DataAvail();
      if remaining - after > limits.maxRecord {
        return Err(QuotaExceeded);
      }
      ReadStep(cs, p, src.pos, n - i, limits, out, rec.value);
      out := out + [rec.value];
      remaining := after;
      i := i + 1;
    }
    assert out + [] == out;
    r := Ok(out);
  }

  /** The private decoding constructor RecordsParcel(Parcel): the chunk
      check on dataSize() as in the source, the per-record check measured
      with dataAvail() where the source calls dataSize(). */
  method CreateFromParcel(src: Parcel, limits: Limits) returns (r: Result<RecordsParcel>)
    requires src.Valid()
    modifies src`pos
    ensures r.Ok? <==> DecodeRecordsParcel(old(src.cells), old(src.pos), limits, DataAvailProbe).Ok?
    ensures r.Err? ==> r.error == DecodeRecordsParcel(old(src.cells), old(src.pos), limits, DataAvailProbe).error
    ensures r.Ok? ==> fresh(r.value)
                      && r.value.records == DecodeRecordsParcel(old(src.cells), old(src.pos), limits, DataAvailProbe).value.0
                      && src.pos == DecodeRecordsParcel(old(src.cells), old(src.pos), limits, DataAvailProbe).value.1
  {
    var tag := src.ReadInt();
    if tag.None? {
      return Err(Malformed);
    }
    var body := src;
    if tag.value == USING_SHARED_MEMORY {
      var segment := src.ReadSharedMemory();
      if segment.None? {
        return Err(Malformed);
      }
      body := new Parcel.OfSegment(segment.value);
    }
    var size := body.ReadInt();
    if size.None? {
      return Err(Malformed);
    }
    if size.value < 0 {
      return Err(IllegalArgument);
    }
    if body.DataSize() > limits.maxChunk {
      return Err(QuotaExceeded);
    }
    var records := ReadEntries(body, size.value, limits);
    if records.Err? {
      return Err(records.error);
    }
    var parcel := new RecordsParcel(records.value);
    r := Ok(parcel);
  }

  /** The body of writeToParcelInternal: the count, then each entry. */
  method WritePayload(rs: seq<RecordInternal>, dest: Parcel)
    requires ValidRecords(rs)
    modifies dest
    ensures dest.cells == old(dest.cells) + EncodePayload(rs) && dest.pos == old(dest.pos)
  {
    dest.WriteInt(|rs|);
    var i := 0;
    while i < |rs|
      invariant 0 <= i <= |rs|
      invariant dest.cells == old(dest.cells) + [IntCell(|rs|)] + RecordsCells(rs[..i])
      invariant dest.pos == old(dest.pos)
    {
      dest.WriteInt(RecordType(rs[i]));
      WriteRecord(rs[i], dest);
      RecordsCellsAppend(rs[..i], rs[i]);
      assert rs[..i + 1] == rs[..i] + [rs[i]];
      i := i + 1;
    }
    assert rs[..i] == rs;
  }

  /** The scratch parcel of writeToParcel: the payload written into a new
      parcel, and that parcel's dataSize(). */
  method ScratchPayload(rs: seq<RecordInternal>) returns (payload: seq<Cell>, size: nat)
    requires ValidRecords(rs)
    ensures payload == EncodePayload(rs) && size == Size(payload)
  {
    var dataParcel := new Parcel.Obtain();
    WritePayload(rs, dataParcel);
    assert dataParcel.cells == [] + EncodePayload(rs);
    payload := dataParcel.cells;
    size := dataParcel.DataSize();
  }

  /** The body of writeToParcel: above 750000 bytes the measured payload
      goes to shared memory, otherwise it is written again inline, so both
      paths carry the same payload. */
  method WriteWire(rs: seq<RecordInternal>, dest: Parcel)
    requires ValidRecords(rs)
    modifies dest
    ensures dest.cells == old(dest.cells) + WireCells(rs) && dest.pos == old(dest.pos)
  {
    var payload, size := ScratchPayload(rs);
    if size > KBS_750 {
      dest.WriteInt(USING_SHARED_MEMORY);
      dest.WriteSharedMemory(payload);
      assert dest.cells == old(dest.cells) + [IntCell(USING_SHARED_MEMORY), SharedMemoryCell(payload)];
    } else {
      dest.WriteInt(USING_PARCEL);
      WritePayload(rs, dest);
      assert dest.cells == old(dest.cells) + ([IntCell(USING_PARCEL)] + payload);
    }
  }

  /** The batch held by one RecordsParcel. */
  class RecordsParcel {
    var records: seq<RecordInternal>

    constructor (rs: seq<RecordInternal>)
      ensures records == rs
    {
      records := rs;
    }

    /** writeToParcelInternal. */
    method WriteToParcelInternal(dest: Parcel)
      requires ValidRecords(records)
      modifies dest
      ensures dest.cells == old(dest.cells) + EncodePayload(records) && dest.pos == old(dest.pos)
    {
      WritePayload(records, dest);
    }

    /** writeToParcel. */
    method WriteToParcel(dest: Parcel)
      requires ValidRecords(records)
      modifies dest
      ensures dest.cells == old(dest.cells) + WireCells(records) && dest.pos == old(dest.pos)
    {
      WriteWire(records, dest);
    }

    function DescribeContents(): int
    {
      0
    }
  }
}
