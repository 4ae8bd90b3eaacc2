/** StepsCadenceRecordInternal: the sample list of a steps-cadence series
    record, its conversion from and to the public record's samples, and its
    count-prefixed encoding in a parcel. */
module StepsCadence {
  import opened Base
  import opened Parcels

  // ---- java.time.Instant, as far as toEpochMilli/ofEpochMilli go ----

  type Nanos = n: int | 0 <= n < 1_000_000_000

  datatype Instant = Instant(seconds: int, nanos: Nanos)

  /** Instant.toEpochMilli: the instant rounded down to a whole millisecond,
      or ArithmeticException when that count does not fit a long. */
  function ToEpochMilli(t: Instant): (r: Result<Int64>)
    ensures r.Err? <==> !InInt64(t.seconds * 1000 + t.nanos / 1_000_000)
    ensures r.Err? ==> r.error == Arithmetic
    ensures r.Ok? ==> r.value * 1_000_000 <= t.seconds * 1_000_000_000 + t.nanos < (r.value + 1) * 1_000_000
  {
    var m := t.seconds * 1000 + t.nanos / 1_000_000;
    if InInt64(m) then Ok(m) else Err(Arithmetic)
  }

  /** Instant.ofEpochMilli: floor division and floor modulus by 1000. */
  function OfEpochMilli(m: Int64): (t: Instant)
    ensures t.seconds * 1000 + t.nanos / 1_000_000 == m
    ensures t.nanos % 1_000_000 == 0
  {
    MilliSplit(m);
    Instant(m / 1000, (m % 1000) * 1_000_000)
  }

  lemma MilliSplit(m: int)
    ensures (m % 1000) * 1_000_000 < 1_000_000_000
    ensures ((m % 1000) * 1_000_000) / 1_000_000 == m % 1000
    ensures (m / 1000) * 1000 + m % 1000 == m
  {
  }

  /** Milliseconds survive ofEpochMilli then toEpochMilli. */
  lemma EpochMilliRoundTrip(m: Int64)
    ensures ToEpochMilli(OfEpochMilli(m)) == Ok(m)
  {
  }

  /** toEpochMilli then ofEpochMilli keeps the instant up to its
      sub-millisecond nanoseconds, which are dropped. */
  lemma EpochMilliTruncates(t: Instant)
    requires ToEpochMilli(t).Ok?
    ensures OfEpochMilli(ToEpochMilli(t).value) == Instant(t.seconds, t.nanos - t.nanos % 1_000_000)
  {
    var m := ToEpochMilli(t).value;
    var q := t.nanos / 1_000_000;
    assert 0 <= q < 1000;
    assert m == t.seconds * 1000 + q;
    assert m / 1000 == t.seconds && m % 1000 == q by {
      DivModUnique(m, t.seconds, q);
    }
    assert t.nanos - t.nanos % 1_000_000 == q * 1_000_000;
  }

  lemma DivModUnique(m: int, a: int, b: int)
    requires 0 <= b < 1000 && m == a * 1000 + b
    ensures m / 1000 == a && m % 1000 == b
  {
  }

  // ---- samples ----

  /** StepsCadenceRecordInternal.StepsCadenceRecordSample. */
  datatype Sample = Sample(rate: Double, epochMillis: Int64)

  /** StepsCadenceRecord.StepsCadenceRecordSample, the public form. */
  datatype ExternalSample = ExternalSample(rate: Double, time: Instant)

  /** Converting public samples: each time becomes its epoch millis, in
      order; the first time that overflows a long fails the conversion. */
  function InternalSamples(ext: seq<ExternalSample>): Result<seq<Sample>>
  {
    if forall i :: 0 <= i < |ext| ==> ToEpochMilli(ext[i].time).Ok?
    then Ok(seq(|ext|, i requires 0 <= i < |ext| => Sample(ext[i].rate, ToEpochMilli(ext[i].time).value)))
    else Err(Arithmetic)
  }

  /** `s` is the conversion of the first |s| public samples. */
  predicate ConvertedPrefix(ext: seq<ExternalSample>, s: seq<Sample>)
  {
    |s| <= |ext| &&
    forall k :: 0 <= k < |s| ==> s[k].rate == ext[k].rate && ToEpochMilli(ext[k].time) == Ok(s[k].epochMillis)
  }

  lemma ConvertedAll(ext: seq<ExternalSample>, s: seq<Sample>)
    requires ConvertedPrefix(ext, s) && |s| == |ext|
    ensures InternalSamples(ext) == Ok(s)
  {
    assert forall i :: 0 <= i < |ext| ==> ToEpochMilli(ext[i].time).Ok?;
    assert InternalSamples(ext).value == s;
  }

  /** getExternalSamples: each epoch millis becomes an Instant, in order. */
  function ExternalSamples(s: seq<Sample>): (r: seq<ExternalSample>)
  {
    seq(|s|, i requires 0 <= i < |s| => ExternalSample(s[i].rate, OfEpochMilli(s[i].epochMillis)))
  }

  /** Internal samples go out to the public form and back unchanged. */
  lemma ExternalRoundTrip(s: seq<Sample>)
    ensures InternalSamples(ExternalSamples(s)) == Ok(s)
  {
    var ext := ExternalSamples(s);
    forall i | 0 <= i < |ext|
      ensures ToEpochMilli(ext[i].time) == Ok(s[i].epochMillis)
    {
      EpochMilliRoundTrip(s[i].epochMillis);
    }
    assert InternalSamples(ext).value == s;
  }

  /** Public samples whose times are whole milliseconds go in and back out unchanged. */
  lemma InternalRoundTrip(ext: seq<ExternalSample>)
    requires forall i :: 0 <= i < |ext| ==> ext[i].time.nanos % 1_000_000 == 0
    requires InternalSamples(ext).Ok?
    ensures ExternalSamples(InternalSamples(ext).value) == ext
  {
    var s := InternalSamples(ext).value;
    forall i | 0 <= i < |ext|
      ensures OfEpochMilli(s[i].epochMillis) == ext[i].time
    {
      EpochMilliTruncates(ext[i].time);
    }
  }

  // ---- parcel encoding ----

  /** The (rate, millis) cells of the samples, in list order. */
  function SampleCells(s: seq<Sample>): (r: seq<Cell>)
    ensures |r| == 2 * |s|
  {
    if s == [] then []
    else SampleCells(s[..|s| - 1]) + [DoubleCell(s[|s| - 1].rate), LongCell(s[|s| - 1].epochMillis)]
  }

  lemma {:induction false} SampleCellsAt(s: seq<Sample>, k: nat)
    requires k < |s|
    ensures SampleCells(s)[2 * k] == DoubleCell(s[k].rate)
    ensures SampleCells(s)[2 * k + 1] == LongCell(s[k].epochMillis)
  {
    if k < |s| - 1 {
      SampleCellsAt(s[..|s| - 1], k);
    }
  }

  /** populateIntervalRecordTo: the sample count, then each sample's rate
      followed by its epoch millis. */
  function EncodeSamples(s: seq<Sample>): seq<Cell>
    requires |s| < 0x8000_0000
  {
    [IntCell(|s|)] + SampleCells(s)
  }

  /** The k-th (double, long) pair after position p, if it is there. */
  function PairAt(cs: seq<Cell>, p: nat, k: nat): Option<Sample>
  {
    match (DoubleAt(cs, p + 2 * k), LongAt(cs, p + 2 * k + 1))
    case (Some(rate), Some(millis)) => Some(Sample(rate, millis))
    case _ => None
  }

  predicate PairsAt(cs: seq<Cell>, p: nat, n: nat)
  {
    forall k: nat :: k < n ==> PairAt(cs, p, k).Some?
  }

  function PairsFrom(cs: seq<Cell>, p: nat, n: nat): (r: seq<Sample>)
    requires PairsAt(cs, p, n)
    ensures |r| == n && forall k: nat :: k < n ==> PairAt(cs, p, k) == Some(r[k])
  {
    seq(n, k requires 0 <= k < n && PairsAt(cs, p, n) => PairAt(cs, p, k).value)
  }

  /** populateIntervalRecordFrom(Parcel): a count n, then n (rate, millis)
      pairs; a negative count is the IllegalArgumentException of
      `new ArrayList<>(n)`. Yields the samples and the cursor after them. */
  function DecodeSamples(cs: seq<Cell>, p: nat): Result<(seq<Sample>, nat)>
  {
    match IntAt(cs, p)
    case None => Err(Malformed)
    case Some(n) =>
      if n < 0 then Err(IllegalArgument)
      else if PairsAt(cs, p + 1, n) then Ok((PairsFrom(cs, p + 1, n), p + 1 + 2 * n))
      else Err(Malformed)
  }

  /** Writing samples then reading them back yields the same samples, in
      order, and leaves the cursor just after them. */
  lemma SamplesRoundTrip(cs: seq<Cell>, p: nat, s: seq<Sample>)
    requires |s| < 0x8000_0000
    requires At(cs, p, EncodeSamples(s))
    ensures DecodeSamples(cs, p) == Ok((s, p + |EncodeSamples(s)|))
  {
    var enc := EncodeSamples(s);
    var q := p + 1;
    assert cs[p] == enc[0];
    forall k: nat | k < |s|
      ensures PairAt(cs, q, k) == Some(s[k])
    {
      SampleCellsAt(s, k);
      assert cs[q + 2 * k] == enc[1 + 2 * k];
      assert cs[q + 2 * k + 1] == enc[1 + 2 * k + 1];
    }
    assert PairsAt(cs, q, |s|);
    assert PairsFrom(cs, q, |s|) == s;
  }

  /** The writing loop of populateIntervalRecordTo. */
  method WriteSamples(s: seq<Sample>, dest: Parcel)
    requires |s| < 0x8000_0000
    modifies dest
    ensures dest.cells == old(dest.cells) + EncodeSamples(s) && dest.pos == old(dest.pos)
  {
    dest.WriteInt(|s|);
    var i := 0;
    while i < |s|
      invariant 0 <= i <= |s|
      invariant dest.cells == old(dest.cells) + [IntCell(|s|)] + SampleCells(s[..i])
      invariant dest.pos == old(dest.pos)
    {
      dest.WriteDouble(s[i].rate);
      dest.WriteLong(s[i].epochMillis);
      assert s[..i + 1][..i] == s[..i];
      i := i + 1;
    }
    assert s[..i] == s;
  }

  /** The reading loop of populateIntervalRecordFrom(Parcel). */
  method ReadSamples(src: Parcel) returns (r: Result<seq<Sample>>)
    requires src.Valid()
    modifies src`pos
    ensures src.Valid()
    ensures r.Ok? <==> DecodeSamples(src.cells, old(src.pos)).Ok?
    ensures r.Err? ==> r.error == DecodeSamples(src.cells, old(src.pos)).error
    ensures r.Ok? ==> (r.value == DecodeSamples(src.cells, old(src.pos)).value.0
                       && src.pos == DecodeSamples(src.cells, old(src.pos)).value.1)
  {
    ghost var p0 := src.pos;
    ghost var q := p0 + 1;
    var size := src.ReadInt();
    if size.None? {
      return Err(Malformed);
    }
    var n: int := size.value;
    if n < 0 {
      return Err(IllegalArgument);
    }
    var out: seq<Sample> := [];
    var i: int := 0;
    while i < n
      invariant 0 <= i <= n
      invariant src.Valid() && src.pos == q + 2 * i
      invariant |out| == i
      invariant forall k: nat :: k < i ==> PairAt(src.cells, q, k) == Some(out[k])
    {
      var rate := src.ReadDouble();
      if rate.None? {
        assert PairAt(src.cells, q, i).None?;
        return Err(Malformed);
      }
      var millis := src.ReadLong();
      if millis.None? {
        assert PairAt(src.cells, q, i).None?;
        return Err(Malformed);
      }
      out := out + [Sample(rate.value, millis.value)];
      i := i + 1;
    }
    assert PairsAt(src.cells, q, n);
    assert out == PairsFrom(src.cells, q, n);
    r := Ok(out);
  }

  /** The record object; only the sample list is its own state. */
  class StepsCadenceRecordInternal {
    var samples: seq<Sample>

    constructor ()
      ensures samples == []
    {
      samples := [];
    }

    /** populateIntervalRecordFrom(StepsCadenceRecord): the list is replaced
        by the converted samples. An overflowing time throws mid-loop, after
        the field already holds the new list, so the samples converted
        before it are what remains. */
    method PopulateIntervalRecordFromExternal(ext: seq<ExternalSample>) returns (r: Outcome)
      modifies this
      ensures r.Pass? <==> InternalSamples(ext).Ok?
      ensures r.Pass? ==> samples == InternalSamples(ext).value
      ensures r.Fail? ==> r.error == Arithmetic
                          && |samples| < |ext|
                          && ToEpochMilli(ext[|samples|].time).Err?
                          && ConvertedPrefix(ext, samples)
    {
      samples := [];
      var i := 0;
      while i < |ext|
        invariant 0 <= i <= |ext| && |samples| == i
        invariant ConvertedPrefix(ext, samples)
      {
        var m := ToEpochMilli(ext[i].time);
        if m.Err? {
          return Fail(Arithmetic);
        }
        samples := samples + [Sample(ext[i].rate, m.value)];
        i := i + 1;
      }
      ConvertedAll(ext, samples);
      r := Pass;
    }

    /** setSamples: null is rejected, anything else becomes the list. */
    method SetSamples(s: Option<seq<Sample>>) returns (r: Outcome)
      modifies this
      ensures s.None? ==> r == Fail(NullPointer) && samples == old(samples)
      ensures s.Some? ==> r == Pass && samples == s.value
    {
      if s.None? {
        return Fail(NullPointer);
      }
      samples := s.value;
      r := Pass;
    }

    /** getExternalSamples. */
    method GetExternalSamples() returns (ext: seq<ExternalSample>)
      ensures ext == ExternalSamples(samples)
    {
      ext := [];
      var i := 0;
      while i < |samples|
        invariant 0 <= i <= |samples|
        invariant ext == ExternalSamples(samples[..i])
      {
        ext := ext + [ExternalSample(samples[i].rate, OfEpochMilli(samples[i].epochMillis))];
        i := i + 1;
      }
      assert samples[..i] == samples;
    }

    /** populateIntervalRecordTo. */
    method PopulateIntervalRecordTo(dest: Parcel)
      requires |samples| < 0x8000_0000
      modifies dest
      ensures dest.cells == old(dest.cells) + EncodeSamples(samples) && dest.pos == old(dest.pos)
    {
      WriteSamples(samples, dest);
    }

    /** populateIntervalRecordFrom(Parcel): on success the list is replaced
        outright by the decoded samples; a bad count leaves it as it was. */
    method PopulateIntervalRecordFromParcel(src: Parcel) returns (r: Outcome)
      requires src.Valid()
      modifies this, src`pos
      ensures src.Valid()
      ensures r.Pass? <==> DecodeSamples(src.cells, old(src.pos)).Ok?
      ensures r.Pass? ==> samples == DecodeSamples(src.cells, old(src.pos)).value.0
                          && src.pos == DecodeSamples(src.cells, old(src.pos)).value.1
      ensures r.Fail? ==> samples == old(samples)
    {
      var d := ReadSamples(src);
      if d.Err? {
        return Fail(d.error);
      }
      samples := d.value;
      r := Pass;
    }
  }
}
