/**
  What one `logLocation` call and a run of them do to the stored document,
  stated over the specification functions of LocationLog.
*/
module LogLaws {
  import opened Wrappers
  import opened JsonValues
  import opened LocationLog

  /** The document holding nothing but the given samples. */
  function LogOf(samples: seq<Json>): map<string, Json>
  {
    map[Locations := JArray(samples)]
  }

  /**
    An empty store, a read that throws and content that does not parse to an
    object all end the same way: the file holds a document whose only key is
    "locations", holding the new sample alone, and success is reported.
  */
  lemma FreshLogWhenNothingReadable(platform: Platform, codec: Codec, content: string, fix: Fix, at: Conditions)
    requires FixEncodable(fix) && at.write == Completes && (platform == Scoped ==> at.uri == Resolved)
    requires ReadView(platform, content) == "" || at.readFails || ParseObject(codec, ReadView(platform, content)).None?
    ensures Logged(platform, codec, content, fix, at)
         == Step(codec.render(JObject(LogOf([SampleOf(fix, at.clock)]))), ListUpdated)
  {
    assert PriorRoot(platform, codec, content, at.readFails) == map[];
    UpdatedRootEncodable(platform, codec, content, fix, at);
  }

  /**
    When the stored text parses to an object, the file ends up holding that
    object with the sample added at the end of its "locations" array (a fresh
    one-element array when "locations" is missing or not an array), every other
    key keeping its value, provided the object holds no non-finite number.
  */
  lemma AppendExtendsLocations(platform: Platform, codec: Codec, content: string, fix: Fix, at: Conditions, root: map<string, Json>)
    requires FixEncodable(fix) && Uneventful(platform, at)
    requires ReadView(platform, content) != ""
    requires ParseObject(codec, ReadView(platform, content)) == Some(root)
    requires EncodableFields(root)
    ensures Logged(platform, codec, content, fix, at)
         == Step(codec.render(JObject(root[Locations := JArray(ExistingLocations(root) + [SampleOf(fix, at.clock)])])), ListUpdated)
  {
    UpdatedRootEncodable(platform, codec, content, fix, at);
  }

  /**
    The overwrite keeps nothing of the old bytes: two stored texts that read as
    the same root object lead to the same new file.
  */
  lemma OnlyTheDocumentSurvives(platform: Platform, codec: Codec, c1: string, c2: string, fix: Fix, at: Conditions)
    requires FixEncodable(fix) && at.write == Completes && (platform == Scoped ==> at.uri == Resolved)
    requires PriorRoot(platform, codec, c1, at.readFails) == PriorRoot(platform, codec, c2, at.readFails)
    ensures Logged(platform, codec, c1, fix, at) == Logged(platform, codec, c2, fix, at)
  {
  }

  /** Without a file URI the call reports the error and leaves the file alone. */
  lemma MissingUriChangesNothing(codec: Codec, content: string, fix: Fix, at: Conditions)
    requires FixEncodable(fix) && at.uri == NullUri
    ensures Logged(Scoped, codec, content, fix, at) == Step(content, UriError)
  {
  }

  /** A fix with a non-finite coordinate cannot be put in a sample: critical error, file unchanged. */
  lemma NonFiniteFixChangesNothing(platform: Platform, codec: Codec, content: string, fix: Fix, at: Conditions)
    requires !FixEncodable(fix)
    ensures Logged(platform, codec, content, fix, at) == Step(content, CriticalError)
  {
  }

  /**
    A write that breaks off leaves a prefix of the text a completed write would
    have left, and reports a critical error where the completed write, of a
    document `toString(2)` accepts, reports success.
  */
  lemma BrokenWriteLeavesPrefix(platform: Platform, codec: Codec, content: string, fix: Fix, at: Conditions, written: nat)
    requires FixEncodable(fix) && (platform == Scoped ==> at.uri == Resolved)
    requires EncodableFields(UpdatedRoot(platform, codec, content, fix, at))
    ensures var broken := Logged(platform, codec, content, fix, at.(write := BreaksAfter(written)));
            var whole := Logged(platform, codec, content, fix, at.(write := Completes));
            broken.content <= whole.content && broken.notice == CriticalError && whole.notice == ListUpdated
  {
  }

  /**
    A root `toString(2)` refuses: the overwrite has already emptied the file when
    the call fails, unless the output could not be opened at all.
  */
  lemma UnwritableRootEmptiesFile(platform: Platform, codec: Codec, content: string, fix: Fix, at: Conditions)
    requires FixEncodable(fix) && (platform == Scoped ==> at.uri == Resolved)
    requires !EncodableFields(UpdatedRoot(platform, codec, content, fix, at))
    ensures at.write.OpenFails? ==> Logged(platform, codec, content, fix, at) == Step(content, CriticalError)
    ensures !at.write.OpenFails? ==> Logged(platform, codec, content, fix, at) == Step("", CriticalError)
  {
  }

  /** A fix with finite coordinates appended to a root with finite numbers gives a root `toString(2)` accepts. */
  lemma UpdatedRootEncodable(platform: Platform, codec: Codec, content: string, fix: Fix, at: Conditions)
    requires FixEncodable(fix)
    requires EncodableFields(PriorRoot(platform, codec, content, at.readFails))
    ensures EncodableFields(UpdatedRoot(platform, codec, content, fix, at))
  {
    var root := PriorRoot(platform, codec, content, at.readFails);
    var sample := SampleOf(fix, at.clock);
    ExtendedRootEncodable(root, [sample]);
    assert NextRoot(root, sample) == root[Locations := JArray(ExistingLocations(root) + [sample])];
  }

  lemma {:induction false} SamplesEncodable(batch: seq<Option<Fix>>, conds: seq<Conditions>)
    requires |conds| == |batch|
    requires forall i :: 0 <= i < |batch| && batch[i].Some? ==> FixEncodable(batch[i].value)
    ensures forall i :: 0 <= i < |Samples(batch, conds)| ==> Encodable(Samples(batch, conds)[i])
    decreases |batch|
  {
    if batch != [] {
      var n := |batch| - 1;
      SamplesEncodable(batch[..n], conds[..n]);
      if batch[n].Some? {
        var s := SampleOf(batch[n].value, conds[n].clock);
        assert Samples(batch, conds) == Samples(batch[..n], conds[..n]) + [s];
      } else {
        assert Samples(batch, conds) == Samples(batch[..n], conds[..n]);
      }
    }
  }

  /** The i-th sample a batch appends is built from the batch's i-th non-null fix. */
  lemma {:induction false} SamplesFollowBatchOrder(batch: seq<Option<Fix>>, conds: seq<Conditions>)
    requires |conds| == |batch|
    ensures forall i :: 0 <= i < |Samples(batch, conds)| ==>
              Samples(batch, conds)[i] == SampleOf(batch[Present(batch)[i]].value, conds[Present(batch)[i]].clock)
    decreases |batch|
  {
    if batch != [] {
      var n := |batch| - 1;
      SamplesFollowBatchOrder(batch[..n], conds[..n]);
      var earlier := Samples(batch[..n], conds[..n]);
      var ix := Present(batch[..n]);
      forall i | 0 <= i < |Samples(batch, conds)|
        ensures Samples(batch, conds)[i] == SampleOf(batch[Present(batch)[i]].value, conds[Present(batch)[i]].clock)
      {
        if i < |earlier| {
          assert Present(batch)[i] == ix[i];
          assert Samples(batch, conds)[i] == earlier[i];
        }
      }
    }
  }

  /**
    A call on a finite fix with nothing going wrong, whose updated document
    `toString(2)` accepts, writes that document and reports success.
  */
  lemma UneventfulStep(platform: Platform, codec: Codec, content: string, fix: Fix, at: Conditions)
    requires FixEncodable(fix) && Uneventful(platform, at)
    requires EncodableFields(UpdatedRoot(platform, codec, content, fix, at))
    ensures Logged(platform, codec, content, fix, at)
         == Step(codec.render(JObject(NextRoot(PriorRoot(platform, codec, content, false), SampleOf(fix, at.clock)))), ListUpdated)
  {
  }

  /** Items that are each encodable make an encodable "locations" entry. */
  lemma ExtendedRootEncodable(root: map<string, Json>, samples: seq<Json>)
    requires EncodableFields(root)
    requires forall i :: 0 <= i < |samples| ==> Encodable(samples[i])
    ensures EncodableFields(root[Locations := JArray(ExistingLocations(root) + samples)])
  {
    var items := ExistingLocations(root) + samples;
    forall i | 0 <= i < |items| ensures Encodable(items[i]) {
      if i < |ExistingLocations(root)| {
        assert Encodable(root[Locations]);
        assert items[i] == root[Locations].items[i];
      } else {
        assert items[i] == samples[i - |ExistingLocations(root)|];
      }
    }
    assert Encodable(JArray(items));
  }

  /** Under the library's round trip, a file the log wrote reads back as the object it rendered. */
  lemma RenderedReadsBack(platform: Platform, codec: Codec, fields: map<string, Json>)
    requires ReadsBack(platform, codec)
    requires EncodableFields(fields)
    ensures PriorRoot(platform, codec, codec.render(JObject(fields)), false) == fields
  {
    var seen := ReadView(platform, codec.render(JObject(fields)));
    assert seen != "" && codec.parse(seen) == Some(JObject(fields));
    assert ParseObject(codec, seen) == Some(fields);
  }

  /**
    One more append to a file the log itself wrote: the file reads back as the
    document written, and the sample goes after the earlier ones.
  */
  lemma AppendToRendered(platform: Platform, codec: Codec, root: map<string, Json>, earlier: seq<Json>, s: Json)
    requires ReadsBack(platform, codec)
    requires EncodableFields(root)
    requires forall i :: 0 <= i < |earlier| ==> Encodable(earlier[i])
    ensures var mid := root[Locations := JArray(ExistingLocations(root) + earlier)];
            && EncodableFields(PriorRoot(platform, codec, codec.render(JObject(mid)), false))
            && NextRoot(PriorRoot(platform, codec, codec.render(JObject(mid)), false), s)
               == root[Locations := JArray(ExistingLocations(root) + (earlier + [s]))]
  {
    var mid := root[Locations := JArray(ExistingLocations(root) + earlier)];
    ExtendedRootEncodable(root, earlier);
    RenderedReadsBack(platform, codec, mid);
    assert ExistingLocations(mid) + [s] == ExistingLocations(root) + (earlier + [s]);
  }

  /** The inductive step of AppendsAccumulate: one more call after the earlier samples were written. */
  lemma AppendAfterBatch(platform: Platform, codec: Codec, content: string, root: map<string, Json>,
                         earlier: seq<Json>, current: string, fix: Fix, at: Conditions)
    requires ReadsBack(platform, codec)
    requires EncodableFields(root) && PriorRoot(platform, codec, content, false) == root
    requires forall i :: 0 <= i < |earlier| ==> Encodable(earlier[i])
    requires FixEncodable(fix) && Uneventful(platform, at)
    requires earlier == [] ==> current == content
    requires earlier != [] ==> current == codec.render(JObject(root[Locations := JArray(ExistingLocations(root) + earlier)]))
    ensures Logged(platform, codec, current, fix, at)
         == Step(codec.render(JObject(root[Locations := JArray(ExistingLocations(root) + (earlier + [SampleOf(fix, at.clock)]))])),
                 ListUpdated)
  {
    var s := SampleOf(fix, at.clock);
    if earlier == [] {
      assert earlier + [s] == [s];
    } else {
      AppendToRendered(platform, codec, root, earlier, s);
    }
    UpdatedRootEncodable(platform, codec, current, fix, at);
    UneventfulStep(platform, codec, current, fix, at);
  }

  /**
    A batch of fault-free calls on finite fixes appends the batch's samples, in
    batch order, after whatever the "locations" array held, and keeps every other
    key of the document, provided the JSON library reads back what it wrote.
  */
  lemma {:induction false} AppendsAccumulate(platform: Platform, codec: Codec, content: string, root: map<string, Json>,
                                             batch: seq<Option<Fix>>, conds: seq<Conditions>)
    requires ReadsBack(platform, codec)
    requires |conds| == |batch|
    requires forall i :: 0 <= i < |batch| ==> Uneventful(platform, conds[i])
    requires forall i :: 0 <= i < |batch| && batch[i].Some? ==> FixEncodable(batch[i].value)
    requires EncodableFields(root) && PriorRoot(platform, codec, content, false) == root
    ensures var t := Replay(platform, codec, content, batch, conds);
            var samples := Samples(batch, conds);
            && (samples == [] ==> t.content == content)
            && (samples != [] ==>
                  t.content == codec.render(JObject(root[Locations := JArray(ExistingLocations(root) + samples)])))
    decreases |batch|
  {
    if batch != [] {
      var n := |batch| - 1;
      var before := Replay(platform, codec, content, batch[..n], conds[..n]);
      var earlier := Samples(batch[..n], conds[..n]);
      AppendsAccumulate(platform, codec, content, root, batch[..n], conds[..n]);
      if batch[n].Some? {
        var fix := batch[n].value;
        var step := Logged(platform, codec, before.content, fix, conds[n]);
        assert Replay(platform, codec, content, batch, conds) == Trace(step.content, before.notices + [step.notice]);
        assert Samples(batch, conds) == earlier + [SampleOf(fix, conds[n].clock)];
        SamplesEncodable(batch[..n], conds[..n]);
        AppendAfterBatch(platform, codec, content, root, earlier, before.content, fix, conds[n]);
      } else {
        assert Replay(platform, codec, content, batch, conds) == before;
        assert Samples(batch, conds) == earlier;
      }
    }
  }

  /** After fault-free calls from a document with finite numbers, the file still reads as one. */
  lemma ReplayKeepsEncodable(platform: Platform, codec: Codec, content: string, root: map<string, Json>,
                             batch: seq<Option<Fix>>, conds: seq<Conditions>)
    requires ReadsBack(platform, codec)
    requires |conds| == |batch|
    requires forall i :: 0 <= i < |batch| ==> Uneventful(platform, conds[i])
    requires forall i :: 0 <= i < |batch| && batch[i].Some? ==> FixEncodable(batch[i].value)
    requires EncodableFields(root) && PriorRoot(platform, codec, content, false) == root
    ensures EncodableFields(PriorRoot(platform, codec, Replay(platform, codec, content, batch, conds).content, false))
  {
    AppendsAccumulate(platform, codec, content, root, batch, conds);
    var samples := Samples(batch, conds);
    if samples != [] {
      SamplesEncodable(batch, conds);
      ExtendedRootEncodable(root, samples);
      RenderedReadsBack(platform, codec, root[Locations := JArray(ExistingLocations(root) + samples)]);
    }
  }

  /** The inductive step of FaultFreeBatchReportsSuccess: one more fault-free call after a batch succeeds. */
  lemma SuccessAfterBatch(platform: Platform, codec: Codec, content: string,
                          batch: seq<Option<Fix>>, conds: seq<Conditions>, fix: Fix, at: Conditions)
    requires ReadsBack(platform, codec)
    requires |conds| == |batch|
    requires forall i :: 0 <= i < |batch| ==> Uneventful(platform, conds[i])
    requires forall i :: 0 <= i < |batch| && batch[i].Some? ==> FixEncodable(batch[i].value)
    requires EncodableFields(PriorRoot(platform, codec, content, false))
    requires FixEncodable(fix) && Uneventful(platform, at)
    ensures Logged(platform, codec, Replay(platform, codec, content, batch, conds).content, fix, at).notice == ListUpdated
  {
    ReplayKeepsEncodable(platform, codec, content, PriorRoot(platform, codec, content, false), batch, conds);
    UpdatedRootEncodable(platform, codec, Replay(platform, codec, content, batch, conds).content, fix, at);
    UneventfulStep(platform, codec, Replay(platform, codec, content, batch, conds).content, fix, at);
  }

  /**
    A batch of fault-free calls on finite fixes, starting from a document with
    finite numbers, reports success for every call, provided the JSON library
    reads back what it wrote.
  */
  lemma {:induction false} FaultFreeBatchReportsSuccess(platform: Platform, codec: Codec, content: string,
                                                        batch: seq<Option<Fix>>, conds: seq<Conditions>)
    requires ReadsBack(platform, codec)
    requires |conds| == |batch|
    requires forall i :: 0 <= i < |batch| ==> Uneventful(platform, conds[i])
    requires forall i :: 0 <= i < |batch| && batch[i].Some? ==> FixEncodable(batch[i].value)
    requires EncodableFields(PriorRoot(platform, codec, content, false))
    ensures forall i :: 0 <= i < |Replay(platform, codec, content, batch, conds).notices| ==>
              Replay(platform, codec, content, batch, conds).notices[i] == ListUpdated
    decreases |batch|
  {
    if batch != [] {
      var n := |batch| - 1;
      var before := Replay(platform, codec, content, batch[..n], conds[..n]);
      FaultFreeBatchReportsSuccess(platform, codec, content, batch[..n], conds[..n]);
      if batch[n].Some? {
        SuccessAfterBatch(platform, codec, content, batch[..n], conds[..n], batch[n].value, conds[n]);
        var step := Logged(platform, codec, before.content, batch[n].value, conds[n]);
        assert Replay(platform, codec, content, batch, conds).notices == before.notices + [step.notice];
      }
    }
  }

  /**
    Starting from an empty store, N fault-free calls leave a file that reads
    back as a document whose only key is "locations", holding the N samples in
    call order, and every call reports success.
  */
  lemma LogFromEmptyStore(platform: Platform, codec: Codec, batch: seq<Option<Fix>>, conds: seq<Conditions>)
    requires ReadsBack(platform, codec)
    requires |conds| == |batch|
    requires forall i :: 0 <= i < |batch| ==> Uneventful(platform, conds[i])
    requires forall i :: 0 <= i < |batch| && batch[i].Some? ==> FixEncodable(batch[i].value)
    ensures var t := Replay(platform, codec, "", batch, conds);
            var samples := Samples(batch, conds);
            && (samples == [] ==> t.content == "")
            && (samples != [] ==> PriorRoot(platform, codec, t.content, false) == LogOf(samples))
            && (forall i :: 0 <= i < |t.notices| ==> t.notices[i] == ListUpdated)
  {
    assert ReadView(platform, "") == "";
    assert PriorRoot(platform, codec, "", false) == map[];
    AppendsAccumulate(platform, codec, "", map[], batch, conds);
    FaultFreeBatchReportsSuccess(platform, codec, "", batch, conds);
    var samples := Samples(batch, conds);
    if samples != [] {
      SamplesEncodable(batch, conds);
      assert ExistingLocations(map[]) + samples == samples;
      ExtendedRootEncodable(map[], samples);
      assert map[][Locations := JArray(samples)] == LogOf(samples);
      RenderedReadsBack(platform, codec, LogOf(samples));
    }
  }
}
