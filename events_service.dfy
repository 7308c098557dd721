/**
 * The events API client's `create` and `update`: a FormData payload is turned
 * back into a plain object before it is sent, re-encoding the finish date and
 * JSON-decoding the channel lists; any other body is sent as it is.
 */
module EventsService {
  import opened Wrappers
  import Json
  import Iso8601
  import LocalTime
  import Decimal
  import opened WebFile
  import opened EventForm
  import Validation

  /** A property of the rebuilt object: a FormData value kept as it was, or the data `JSON.parse` produced. */
  datatype Slot = Raw(part: Part) | Decoded(value: Json.Json)

  /** `value.toString()` of a FormData value. */
  function PartText(p: Part): string
  {
    match p
    case TextPart(t) => t
    case FilePart(_, _) => "[object File]"
  }

  /**
   * One iteration of the conversion loop: the finish date is parsed and
   * re-encoded (kept raw when that throws), the channel fields are
   * JSON-parsed (kept raw when that throws), and every other value is copied.
   */
  function Convert(key: string, p: Part): (r: Slot)
    ensures key != FinishKey && !IsChannelKey(key) ==> r == Raw(p)
    ensures key == FinishKey ==> r.Raw?
  {
    if key == FinishKey then
      match Iso8601.Parse(PartText(p))
      case Some(t) => Raw(TextPart(Iso8601.Format(t)))
      case None => Raw(p)
    else if IsChannelKey(key) then
      match Json.Parse(PartText(p))
      case Some(j) => Decoded(j)
      case None => Raw(p)
    else Raw(p)
  }

  /** The object the loop builds: entries in order, a later entry overwriting an earlier one under the same key. */
  function ObjectOf(entries: seq<Entry>): map<string, Slot>
    decreases |entries|
  {
    if entries == [] then map[]
    else
      var e := entries[|entries| - 1];
      ObjectOf(entries[..|entries| - 1])[e.key := Convert(e.key, e.part)]
  }

  /** The `for … of` loop over `data.entries()`. */
  method ToObject(entries: seq<Entry>) returns (obj: map<string, Slot>)
    ensures obj == ObjectOf(entries)
  {
    obj := map[];
    var i := 0;
    while i < |entries|
      invariant 0 <= i <= |entries|
      invariant obj == ObjectOf(entries[..i])
    {
      var e := entries[i];
      assert entries[..i + 1][..i] == entries[..i];
      obj := obj[e.key := Convert(e.key, e.part)];
      i := i + 1;
    }
    assert entries[..i] == entries;
  }

  /** The object holds a key iff the payload does, with the conversion of the last entry under it. */
  lemma {:induction false} ObjectOfLastPart(entries: seq<Entry>, k: string)
    ensures k in ObjectOf(entries) <==> LastPart(entries, k).Some?
    ensures k in ObjectOf(entries) ==> ObjectOf(entries)[k] == Convert(k, LastPart(entries, k).value)
    decreases |entries|
  {
    if entries != [] {
      ObjectOfLastPart(entries[..|entries| - 1], k);
    }
  }

  datatype Input = FormDataInput(entries: seq<Entry>) | PlainInput(data: Json.Json)

  datatype Body = Converted(obj: map<string, Slot>) | Unchanged(data: Json.Json)

  datatype Request = Request(verb: string, path: string, body: Body)

  /** The body both calls send. */
  function BodyOf(d: Input): (r: Body)
    ensures d.PlainInput? ==> r == Unchanged(d.data)
  {
    match d
    case FormDataInput(entries) => Converted(ObjectOf(entries))
    case PlainInput(data) => Unchanged(data)
  }

  /** `create`: POST /event. */
  method Create(d: Input) returns (r: Request)
    ensures r == Request("POST", "/event", BodyOf(d))
  {
    if d.FormDataInput? {
      var obj := ToObject(d.entries);
      return Request("POST", "/event", Converted(obj));
    }
    return Request("POST", "/event", Unchanged(d.data));
  }

  /** `update`: PUT /event/{id}, with the same conversion as `create`. */
  method Update(id: int, d: Input) returns (r: Request)
    ensures r == Request("PUT", "/event/" + Decimal.ShowInt(id), BodyOf(d))
  {
    if d.FormDataInput? {
      var obj := ToObject(d.entries);
      return Request("PUT", "/event/" + Decimal.ShowInt(id), Converted(obj));
    }
    return Request("PUT", "/event/" + Decimal.ShowInt(id), Unchanged(d.data));
  }

  // ---- the form's payload as the service sees it ----

  /** What the service object holds under a form key, for a payload the form sent. */
  lemma SlotOfValue(values: seq<(string, FormValue)>, action: string, dataId: Option<int>,
                    payload: seq<Entry>, i: nat)
    requires DistinctKeys(values) && i < |values| && Sends(values, action, dataId, payload)
    ensures var k := values[i].0;
      var p := if k == ImageKey && !values[i].1.FileValue? then None else EncodedPart(k, values[i].1);
      (k in ObjectOf(payload) <==> p.Some?) && (p.Some? ==> ObjectOf(payload)[k] == Convert(k, p.value))
  {
    PayloadLastPart(values, action, dataId, payload, i);
    ObjectOfLastPart(payload, values[i].0);
  }

  /** A channel list the form sent arrives as the conversion of its encoded text. */
  lemma ChannelListArrives(values: seq<(string, FormValue)>, action: string, dataId: Option<int>,
                           payload: seq<Entry>, i: nat, text: string)
    requires DistinctKeys(values) && i < |values| && Sends(values, action, dataId, payload)
    requires IsChannelKey(values[i].0) && values[i].1.List? && ChannelsText(values[i].1.items) == Some(text)
    ensures values[i].0 in ObjectOf(payload)
    ensures ObjectOf(payload)[values[i].0] == Convert(values[i].0, TextPart(text))
  {
    ChannelListPart(values[i].0, values[i].1.items);
    SlotOfValue(values, action, dataId, payload, i);
  }

  /** Channel text that parses as JSON is decoded. */
  lemma ConvertDecodes(key: string, text: string, j: Json.Json)
    requires IsChannelKey(key) && Json.Parse(text) == Some(j)
    ensures Convert(key, TextPart(text)) == Decoded(j)
  {
  }

  /** A list of channel records sent by the form arrives as exactly the list of their ids. */
  lemma ChannelRecordsArriveAsIds(values: seq<(string, FormValue)>, action: string, dataId: Option<int>,
                                  payload: seq<Entry>, i: nat, cs: seq<EventTypes.Channel>)
    requires DistinctKeys(values) && i < |values| && Sends(values, action, dataId, payload)
    requires IsChannelKey(values[i].0) && values[i].1 == List(ChannelRecords(cs))
    ensures values[i].0 in ObjectOf(payload)
    ensures ObjectOf(payload)[values[i].0] == Decoded(Json.JArray(IdList(ChannelIds(cs))))
  {
    var j := Json.JArray(IdList(ChannelIds(cs)));
    RecordsEncodeAsIds(cs);
    ChannelListArrives(values, action, dataId, payload, i, Json.Stringify(j));
    Json.ParseOfStringify(j);
    ConvertDecodes(values[i].0, Json.Stringify(j), j);
  }

  /** A list of bare ids, as the pickers store it after an edit, arrives unchanged. */
  lemma BareIdsArriveAsIds(values: seq<(string, FormValue)>, action: string, dataId: Option<int>,
                           payload: seq<Entry>, i: nat, ids: seq<string>)
    requires DistinctKeys(values) && i < |values| && Sends(values, action, dataId, payload)
    requires IsChannelKey(values[i].0) && values[i].1 == List(IdList(ids))
    ensures values[i].0 in ObjectOf(payload)
    ensures ObjectOf(payload)[values[i].0] == Decoded(Json.JArray(IdList(ids)))
  {
    var j := Json.JArray(IdList(ids));
    BareIdsEncodeAsIds(ids);
    ChannelListArrives(values, action, dataId, payload, i, Json.Stringify(j));
    Json.ParseOfStringify(j);
    ConvertDecodes(values[i].0, Json.Stringify(j), j);
  }

  /** The finish date arrives as the ISO text of the instant the form held, unchanged by the re-encoding. */
  lemma FinishDateArrives(values: seq<(string, FormValue)>, action: string, dataId: Option<int>,
                          payload: seq<Entry>, i: nat, t: LocalTime.JsTime)
    requires DistinctKeys(values) && i < |values| && Sends(values, action, dataId, payload)
    requires values[i].0 == FinishKey && values[i].1 == DateValue(Some(t))
    ensures FinishKey in ObjectOf(payload)
    ensures ObjectOf(payload)[FinishKey] == Raw(TextPart(Iso8601.Format(t)))
    ensures Iso8601.Parse(Iso8601.Format(t)) == Some(t)
  {
    SlotOfValue(values, action, dataId, payload, i);
    Iso8601.ParseFormat(t);
  }

  /** Any other string value arrives verbatim; an undefined value or a non-file image does not arrive. */
  lemma OtherValuesArrive(values: seq<(string, FormValue)>, action: string, dataId: Option<int>,
                          payload: seq<Entry>, i: nat)
    requires DistinctKeys(values) && i < |values| && Sends(values, action, dataId, payload)
    ensures values[i].1.Undefined? ==> values[i].0 !in ObjectOf(payload)
    ensures values[i].0 == ImageKey && !values[i].1.FileValue? ==> ImageKey !in ObjectOf(payload)
    ensures (values[i].0 != ImageKey && values[i].0 != FinishKey && !IsChannelKey(values[i].0) && values[i].1.Str?)
      ==> values[i].0 in ObjectOf(payload) && ObjectOf(payload)[values[i].0] == Raw(TextPart(values[i].1.s))
  {
    SlotOfValue(values, action, dataId, payload, i);
  }

  /** The text of a file value is not JSON. */
  lemma FileTextIsNotJson()
    ensures Json.Parse(PartText(FilePart(File("", "", 0), ""))) == None
  {
    var s := PartText(FilePart(File("", "", 0), ""));
    assert s[0] == '[' && !Json.IsJsonSpace(s[0]);
    var t := s[1..];
    assert t[0] == 'o' && !Json.IsJsonSpace(t[0]);
    assert Json.SkipSpace(s) == s;
    assert Json.SkipSpace(t) == t;
    assert Json.ParseValue(t) == None;
    assert Json.ParseItems(t) == None;
    assert Json.ParseValue(s) == None;
  }

  /** The text of a file value is not an ISO date. */
  lemma FileTextIsNotIso()
    ensures Iso8601.Parse(PartText(FilePart(File("", "", 0), ""))) == None
  {
    var s := PartText(FilePart(File("", "", 0), ""));
    assert !Decimal.IsDigit(s[0]) && s[0] != '+' && s[0] != '-';
    assert !Decimal.AllDigits(s[..4]);
    assert Iso8601.ParseYear(s) == None;
  }

  /** A file value arrives as that file under its own name, whatever its key. */
  lemma FileValuesArrive(values: seq<(string, FormValue)>, action: string, dataId: Option<int>,
                         payload: seq<Entry>, i: nat)
    requires DistinctKeys(values) && i < |values| && Sends(values, action, dataId, payload)
    requires values[i].1.FileValue?
    ensures values[i].0 in ObjectOf(payload)
    ensures ObjectOf(payload)[values[i].0] == Raw(FilePart(values[i].1.file, values[i].1.file.name))
  {
    SlotOfValue(values, action, dataId, payload, i);
    FileTextIsNotJson();
    FileTextIsNotIso();
  }

  /** A form without `isActive` sends the schema's default: the service object holds the text "true" under it. */
  lemma ActiveDefaultArrives(values: seq<(string, FormValue)>, action: string, dataId: Option<int>, now: int,
                             payload: seq<Entry>)
    requires FormLookup(values, IsActiveKey).Undefined? && FormSends(values, action, dataId, now, payload)
    ensures IsActiveKey in ObjectOf(payload)
    ensures ObjectOf(payload)[IsActiveKey] == Raw(TextPart("true"))
  {
    var pv := ReceivedValues(values, action, dataId, now, payload);
    SlotOfValue(pv, action, dataId, payload, 3);
  }

  /** A key `onSubmit` did not receive is not in the service object. */
  lemma AbsentKeyDoesNotArrive(values: seq<(string, FormValue)>, action: string, dataId: Option<int>,
                               payload: seq<Entry>, k: string)
    requires Sends(values, action, dataId, payload) && forall j :: 0 <= j < |values| ==> values[j].0 != k
    ensures k !in ObjectOf(payload)
  {
    var es := Encode(values).value;
    assert payload == DropTextImage(es);
    EncodeKeys(values);
    DropTextImageLastPart(es, k);
    ObjectOfLastPart(payload, k);
  }

  /** A key outside the event schema never reaches the service, whatever the form held under it. */
  lemma OnlySchemaKeysArrive(values: seq<(string, FormValue)>, action: string, dataId: Option<int>, now: int,
                             payload: seq<Entry>, k: string)
    requires FormSends(values, action, dataId, now, payload) && k !in Validation.EventKeys
    ensures k !in ObjectOf(payload)
  {
    var pv := ReceivedValues(values, action, dataId, now, payload);
    AbsentKeyDoesNotArrive(pv, action, dataId, payload, k);
  }

  /**
   * The finish date the button sends is the ISO text of the instant the form
   * held; the schema only lets a valid date after now + 10 min through.
   */
  lemma FormFinishDateArrives(values: seq<(string, FormValue)>, action: string, dataId: Option<int>, now: int,
                              payload: seq<Entry>)
    requires FormSends(values, action, dataId, now, payload)
    ensures FormLookup(values, FinishKey).DateValue? && FormLookup(values, FinishKey).t.Some?
    ensures var t := FormLookup(values, FinishKey).t.value;
      t > now + 600000 && FinishKey in ObjectOf(payload)
      && ObjectOf(payload)[FinishKey] == Raw(TextPart(Iso8601.Format(t)))
  {
    var pv := ReceivedValues(values, action, dataId, now, payload);
    AcceptedFinishDate(values, now);
    FinishDateArrives(pv, action, dataId, payload, 2, FormLookup(values, FinishKey).t.value);
  }
}
