/**
  The location log of LocationService: on every fix, `logLocation` reads the
  stored document location_log.json, appends one sample under "locations" and
  overwrites the whole file with the result.

  The file is the field `content` of a LocationService object; a file that does
  not exist reads as "". The two storage paths of the service (MediaStore on
  Android 10 "Q" and later, a plain file in the public Documents directory
  before it) are both modelled and chosen by the constant `platform`. Each
  call's clock reading and the outcomes of the storage calls it makes are
  passed in as `Conditions`; the toasts it posts are recorded in `toasts`.
*/
module LocationLog {
  import opened Wrappers
  import opened JsonValues
  import opened LineReader

  const Locations: string := "locations"

  datatype Platform = Scoped | Legacy  // SDK_INT >= Q, and before it

  /** One location fix as the fused location provider delivers it. */
  datatype Fix = Fix(latitude: Double, longitude: Double)

  /** What getFileUri yields: a URI, null, or an exception. */
  datatype UriLookup = Resolved | NullUri | LookupThrows

  /**
    How the overwrite goes: it completes; the output cannot be opened (the file
    is left as it was); or it breaks after `written` characters of the new text
    (opening for overwrite truncated the file first).
  */
  datatype WriteOutcome = Completes | OpenFails | BreaksAfter(written: nat)

  /** Everything a call takes from outside: the formatted clock reading and the storage outcomes. */
  datatype Conditions = Conditions(clock: string, uri: UriLookup, readFails: bool, write: WriteOutcome)

  /** The toasts posted to the main thread. */
  datatype Notice = ListUpdated | UriError | CriticalError

  datatype Step = Step(content: string, notice: Notice)

  datatype Trace = Trace(content: string, notices: seq<Notice>)

  /** Nothing goes wrong: the URI resolves (a lookup made on Q and later only), the read and the write succeed. */
  predicate Uneventful(platform: Platform, c: Conditions)
  {
    (platform == Scoped ==> c.uri == Resolved) && !c.readFails && c.write == Completes
  }

  /** How much of a text a write that breaks off after `n` characters leaves behind. */
  function Min(a: nat, b: nat): nat
  {
    if a <= b then a else b
  }

  predicate FixEncodable(fix: Fix)
  {
    fix.latitude.Finite? && fix.longitude.Finite?
  }

  /** The JSON object built for one fix: its time, latitude and longitude. */
  function SampleOf(fix: Fix, clock: string): (sample: Json)
    ensures sample.JObject? && sample.fields.Keys == {"timestamp", "lat", "lng"}
    ensures sample.fields["timestamp"] == JString(clock)
    ensures sample.fields["lat"] == JNumber(fix.latitude) && sample.fields["lng"] == JNumber(fix.longitude)
    ensures FixEncodable(fix) ==> Encodable(sample)
  {
    JObject(map["timestamp" := JString(clock), "lat" := JNumber(fix.latitude), "lng" := JNumber(fix.longitude)])
  }

  /** The text the platform's read hands to the parser: readTextFromUri drops line terminators, the Scanner does not. */
  function ReadView(platform: Platform, content: string): string
  {
    match platform
    case Scoped => WithoutTerminators(content)
    case Legacy => content
  }

  /**
    The root object the update starts from. Nothing to read, a read that throws
    and text that is not a JSON object all give an empty object.
  */
  function PriorRoot(platform: Platform, codec: Codec, content: string, readFails: bool): map<string, Json>
  {
    var seen := ReadView(platform, content);
    if seen == "" || readFails then map[]
    else match ParseObject(codec, seen)
      case Some(root) => root
      case None => map[]
  }

  /** What `optJSONArray("locations")` finds: the array held there, or none when the key is absent or holds something else. */
  function ExistingLocations(root: map<string, Json>): seq<Json>
  {
    if Locations in root && root[Locations].JArray? then root[Locations].items else []
  }

  /**
    The root after the update: the sample goes at the end of the existing
    "locations" array, or into a fresh one; every other key is left alone.
  */
  function NextRoot(root: map<string, Json>, sample: Json): (r: map<string, Json>)
    ensures r.Keys == root.Keys + {Locations}
    ensures forall k :: k in root && k != Locations ==> r[k] == root[k]
    ensures Locations in root && root[Locations].JArray? ==>
              r[Locations] == JArray(root[Locations].items + [sample])
    ensures Locations !in root || !root[Locations].JArray? ==> r[Locations] == JArray([sample])
  {
    assert [] + [sample] == [sample];
    root[Locations := JArray(ExistingLocations(root) + [sample])]
  }

  /** The root a call writes back: the prior root with the call's sample appended under "locations". */
  function UpdatedRoot(platform: Platform, codec: Codec, content: string, fix: Fix, at: Conditions): map<string, Json>
  {
    NextRoot(PriorRoot(platform, codec, content, at.readFails), SampleOf(fix, at.clock))
  }

  /**
    The specification of one `logLocation` call: the file afterwards and the toast it posts.
    Opening the output for overwrite empties the file before `toString(2)` runs, and
    `toString(2)` refuses a root holding a non-finite number.
  */
  function Logged(platform: Platform, codec: Codec, content: string, fix: Fix, at: Conditions): (s: Step)
    ensures s.notice == ListUpdated <==>
              FixEncodable(fix) && (platform == Scoped ==> at.uri.Resolved?) && at.write.Completes?
              && EncodableFields(UpdatedRoot(platform, codec, content, fix, at))
    ensures s.notice == UriError <==> FixEncodable(fix) && platform == Scoped && at.uri.NullUri?
    ensures !FixEncodable(fix) || (platform == Scoped && !at.uri.Resolved?) || at.write.OpenFails? ==>
              s.content == content
    ensures s.notice == ListUpdated ==> s.content == codec.render(JObject(UpdatedRoot(platform, codec, content, fix, at)))
    ensures FixEncodable(fix) && (platform == Scoped ==> at.uri.Resolved?) && at.write.BreaksAfter? ==>
              s.content <= codec.render(JObject(UpdatedRoot(platform, codec, content, fix, at)))
  {
    if !FixEncodable(fix) then Step(content, CriticalError)
    else if platform == Scoped && at.uri == NullUri then Step(content, UriError)
    else if platform == Scoped && at.uri == LookupThrows then Step(content, CriticalError)
    else
      var root := UpdatedRoot(platform, codec, content, fix, at);
      if at.write.OpenFails? then Step(content, CriticalError)
      else if !EncodableFields(root) then Step("", CriticalError)
      else
        var text := codec.render(JObject(root));
        match at.write
        case BreaksAfter(n) => Step(text[..Min(n, |text|)], CriticalError)
        case _ => Step(text, ListUpdated)
  }

  /** The specification of a batch: one `logLocation` call per present fix, in order. */
  function Replay(platform: Platform, codec: Codec, content: string, batch: seq<Option<Fix>>, conds: seq<Conditions>): (t: Trace)
    requires |conds| == |batch|
    ensures |t.notices| == |Present(batch)|
    decreases |batch|
  {
    if batch == [] then Trace(content, [])
    else
      var n := |batch| - 1;
      var before := Replay(platform, codec, content, batch[..n], conds[..n]);
      match batch[n]
      case None => before
      case Some(fix) =>
        var step := Logged(platform, codec, before.content, fix, conds[n]);
        Trace(step.content, before.notices + [step.notice])
  }

  /** The indices of the non-null entries of a batch, in order. */
  function Present(batch: seq<Option<Fix>>): (ix: seq<nat>)
    ensures forall i :: 0 <= i < |ix| ==> ix[i] < |batch| && batch[ix[i]].Some?
    ensures forall i, j :: 0 <= i < j < |ix| ==> ix[i] < ix[j]
    ensures forall k :: 0 <= k < |batch| && batch[k].Some? ==> k in ix
    decreases |batch|
  {
    if batch == [] then []
    else
      var n := |batch| - 1;
      Present(batch[..n]) + if batch[n].Some? then [n] else []
  }

  /** The samples a batch appends, in the order of the batch. */
  function Samples(batch: seq<Option<Fix>>, conds: seq<Conditions>): (s: seq<Json>)
    requires |conds| == |batch|
    ensures |s| == |Present(batch)|
    decreases |batch|
  {
    if batch == [] then []
    else
      var n := |batch| - 1;
      Samples(batch[..n], conds[..n]) + match batch[n]
        case None => []
        case Some(fix) => [SampleOf(fix, conds[n].clock)]
  }

  /**
    The library's side of the bargain, stated as a hypothesis: any object whose
    numbers are finite renders to text that survives the platform's read, is not
    empty and parses back to the same object.
  */
  ghost predicate ReadsBack(platform: Platform, codec: Codec)
  {
    forall fields: map<string, Json> :: EncodableFields(fields) ==>
      ReadView(platform, codec.render(JObject(fields))) != "" &&
      codec.parse(ReadView(platform, codec.render(JObject(fields)))) == Some(JObject(fields))
  }

  /**
    The read half of `logLocation`: the root object the update starts from, on
    either storage path. A read that throws, or text that is not an object,
    gives a fresh empty object.
  */
  method ReadRoot(platform: Platform, codec: Codec, content: string, readFails: bool) returns (root: map<string, Json>)
    ensures root == PriorRoot(platform, codec, content, readFails)
    ensures ReadView(platform, content) == "" || readFails ==> root == map[]
  {
    root := map[];
    if platform == Scoped {
      if !readFails {
        var text := ReadTextFromUri(content);
        if text != "" {
          var parsed := ParseObject(codec, text);
          if parsed.Some? {
            root := parsed.value;
          }
        }
      }
    } else {
      // the Scanner is used only on a file that exists and is not empty
      if content != "" && !readFails {
        var parsed := ParseObject(codec, content);
        if parsed.Some? {
          root := parsed.value;
        }
      }
    }
  }

  /**
    `optJSONArray("locations")`, falling back to a new array, then `put` of the
    sample and `put` of the array back under "locations".
  */
  method AppendSample(root: map<string, Json>, sample: Json) returns (r: map<string, Json>)
    ensures r == NextRoot(root, sample)
  {
    var locations: seq<Json> := [];
    if Locations in root && root[Locations].JArray? {
      locations := root[Locations].items;
    }
    locations := locations + [sample];
    r := root[Locations := JArray(locations)];
  }

  class LocationService {
    const platform: Platform
    const codec: Codec
    var content: string
    var toasts: seq<Notice>

    constructor (platform: Platform, codec: Codec, content: string)
      ensures this.platform == platform && this.codec == codec
      ensures this.content == content && toasts == []
    {
      this.platform := platform;
      this.codec := codec;
      this.content := content;
      toasts := [];
    }

    /** `logLocation`: read the document, append one sample, overwrite the file. */
    method LogLocation(fix: Fix, at: Conditions)
      modifies this
      ensures content == Logged(platform, codec, old(content), fix, at).content
      ensures toasts == old(toasts) + [Logged(platform, codec, old(content), fix, at).notice]
    {
      // JSONObject.put refuses a non-finite double; the outer catch reports it
      if !FixEncodable(fix) {
        toasts := toasts + [CriticalError];
        return;
      }
      var sample := SampleOf(fix, at.clock);
      if platform == Scoped {
        if at.uri == NullUri {
          toasts := toasts + [UriError];
          return;
        } else if at.uri == LookupThrows {
          toasts := toasts + [CriticalError];
          return;
        }
      }
      var root := ReadRoot(platform, codec, content, at.readFails);
      root := AppendSample(root, sample);
      if at.write.OpenFails? {
        toasts := toasts + [CriticalError];
        return;
      }
      // the output is open and the file emptied; toString(2) throws on a non-finite number
      if !EncodableFields(root) {
        content := "";
        toasts := toasts + [CriticalError];
        return;
      }
      var text := codec.render(JObject(root));
      if at.write.BreaksAfter? {
        content := text[..Min(at.write.written, |text|)];
        toasts := toasts + [CriticalError];
      } else {
        content := text;
        toasts := toasts + [ListUpdated];
      }
    }

    /** `onLocationResult`: log every non-null location of the result, in order. */
    method OnLocationResult(batch: seq<Option<Fix>>, conds: seq<Conditions>)
      requires |conds| == |batch|
      modifies this
      ensures content == Replay(platform, codec, old(content), batch, conds).content
      ensures toasts == old(toasts) + Replay(platform, codec, old(content), batch, conds).notices
    {
      for i := 0 to |batch|
        invariant content == Replay(platform, codec, old(content), batch[..i], conds[..i]).content
        invariant toasts == old(toasts) + Replay(platform, codec, old(content), batch[..i], conds[..i]).notices
      {
        assert batch[..i + 1][..i] == batch[..i] && conds[..i + 1][..i] == conds[..i];
        if batch[i].Some? {
          LogLocation(batch[i].value, conds[i]);
        }
      }
      assert batch[..|batch|] == batch && conds[..|conds|] == conds;
    }
  }
}
