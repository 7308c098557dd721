/**
 * The event form: the values it holds, the channel pickers that rewrite
 * them, and `onSubmit`, which encodes the values into a FormData payload and
 * hands it to the create or the update call.
 */
module EventForm {
  import opened Wrappers
  import Json
  import Iso8601
  import LocalTime
  import opened WebFile
  import opened EventTypes
  import Validation
  import DateTimePicker

  const SubscribeKey := "subscribeChannels"
  const SentKey := "sentChannels"
  const FinishKey := "finishDate"
  const ImageKey := "image"
  const CreateAction := "CREATE"
  const EditAction := "EDIT"

  /** A form value: a `File`, a string, a boolean, a `Date` (`None` when invalid), or a list of plain data. */
  datatype FormValue =
    | Undefined
    | FileValue(file: File)
    | Str(s: string)
    | Bool(b: bool)
    | DateValue(t: Option<LocalTime.JsTime>)
    | List(items: seq<Json.Json>)

  /** What one form value contributes to the payload; `Throw` is a TypeError or RangeError that ends `onSubmit`. */
  datatype Step = Skip | Append(entry: Entry) | Throw

  predicate IsChannelKey(key: string)
  {
    key == SubscribeKey || key == SentKey
  }

  /** A channel record as the server sends it. */
  function ChannelRecord(c: Channel): Json.Json
  {
    Json.JObject([Json.Member("id", Json.JString(c.id)), Json.Member("name", Json.JString(c.name)),
      Json.Member("link", Json.JString(c.link)), Json.Member("createdAt", Json.JString(c.createdAt)),
      Json.Member("updatedAt", Json.JString(c.updatedAt))])
  }

  function ChannelRecords(cs: seq<Channel>): (r: seq<Json.Json>)
    ensures |r| == |cs| && forall i :: 0 <= i < |cs| ==> r[i] == ChannelRecord(cs[i])
  {
    if cs == [] then [] else [ChannelRecord(cs[0])] + ChannelRecords(cs[1..])
  }

  /** A list of ids as JSON strings. */
  function IdList(ids: seq<string>): (r: seq<Json.Json>)
    ensures |r| == |ids| && forall i :: 0 <= i < |ids| ==> r[i] == Json.JString(ids[i])
  {
    if ids == [] then [] else [Json.JString(ids[0])] + IdList(ids[1..])
  }

  function ChannelIds(cs: seq<Channel>): (r: seq<string>)
    ensures |r| == |cs| && forall i :: 0 <= i < |cs| ==> r[i] == cs[i].id
  {
    if cs == [] then [] else [cs[0].id] + ChannelIds(cs[1..])
  }

  // ---- the channel rule ----

  /** `list.some(c => c.hasOwnProperty("createdAt"))`; reaching `null` throws (`None`). */
  function SomeHasCreatedAt(items: seq<Json.Json>): Option<bool>
  {
    if items == [] then Some(false)
    else if items[0] == Json.JNull then None
    else if Json.HasOwnProperty(items[0], "createdAt") then Some(true)
    else SomeHasCreatedAt(items[1..])
  }

  /** `list.map(c => c.id)`, with a missing id stringified as null; `null.id` throws. */
  function Ids(items: seq<Json.Json>): Option<seq<Json.Json>>
  {
    if items == [] then Some([])
    else if items[0] == Json.JNull then None
    else
      var id := if items[0].JObject? then Json.Get(items[0].members, "id").GetOr(Json.JNull) else Json.JNull;
      match Ids(items[1..])
      case None => None
      case Some(rest) => Some([id] + rest)
  }

  /** A channel field's text: the JSON of the ids when any element is a record with `createdAt`, else the JSON of the list. */
  function ChannelsText(items: seq<Json.Json>): Option<string>
  {
    match SomeHasCreatedAt(items)
    case None => None
    case Some(true) =>
      (match Ids(items)
       case None => None
       case Some(ids) => Some(Json.Stringify(Json.JArray(ids))))
    case Some(false) => Some(Json.Stringify(Json.JArray(items)))
  }

  // ---- other values ----

  /** `new Date(value)` for the finish date. */
  function NewDate(v: FormValue): Option<LocalTime.JsTime>
  {
    match v
    case DateValue(t) => t
    case Str(s) => Iso8601.Parse(s)
    case Bool(b) => Some(if b then 1 else 0)
    case _ => None
  }

  function BoolText(b: bool): string
  {
    if b then "true" else "false"
  }

  /** `Array.prototype.toString`: the elements' texts joined by ",". */
  function ArrayText(items: seq<Json.Json>): string
    decreases items
  {
    if items == [] then ""
    else if |items| == 1 then ElementText(items[0])
    else ElementText(items[0]) + "," + ArrayText(items[1..])
  }

  /** An array element's text: null is empty, an object is "[object Object]". */
  function ElementText(j: Json.Json): string
    decreases j
  {
    match j
    case JNull => ""
    case JBool(b) => BoolText(b)
    case JString(s) => s
    case JArray(xs) => ArrayText(xs)
    case JObject(_) => "[object Object]"
  }

  /** `value.toString()`. */
  function ToStringText(v: FormValue): string
  {
    match v
    case Undefined => "undefined"
    case FileValue(_) => "[object File]"
    case Str(s) => s
    case Bool(b) => BoolText(b)
    case DateValue(t) => LocalTime.DateToString(t)
    case List(items) => ArrayText(items)
  }

  /** One iteration of the `forEach` over the form's entries. */
  function EncodeEntry(key: string, v: FormValue): (r: Step)
    ensures r.Append? ==> r.entry.key == key
    ensures r.Append? && r.entry.part.FilePart? <==> v.FileValue?
    ensures r.Skip? <==> v.Undefined?
  {
    if v.FileValue? then Append(Entry(key, FilePart(v.file, v.file.name)))
    else if v.Undefined? then Skip
    else if IsChannelKey(key) then ChannelStep(key, v)
    else if key == FinishKey then
      match NewDate(v)
      case Some(t) => Append(Entry(key, TextPart(Iso8601.Format(t))))
      case None => Throw
    else Append(Entry(key, TextPart(ToStringText(v))))
  }

  function ChannelStep(key: string, v: FormValue): (r: Step)
    ensures r.Throw? || (r.Append? && r.entry.key == key && r.entry.part.TextPart?)
  {
    match v
    case List(items) =>
      (match ChannelsText(items)
       case Some(text) => Append(Entry(key, TextPart(text)))
       case None => Throw)
    case _ => Throw
  }

  /** The part a form value is appended as, if it is appended. */
  function EncodedPart(key: string, v: FormValue): Option<Part>
  {
    match EncodeEntry(key, v)
    case Append(e) => Some(e.part)
    case _ => None
  }

  /** The payload after the first loop, or `None` when an iteration threw. */
  function Encode(values: seq<(string, FormValue)>): Option<seq<Entry>>
    decreases |values|
  {
    if values == [] then Some([])
    else
      match Encode(values[..|values| - 1])
      case None => None
      case Some(es) => Apply(es, EncodeEntry(values[|values| - 1].0, values[|values| - 1].1))
  }

  /** One iteration of the loop on the FormData built so far. */
  function Apply(es: seq<Entry>, step: Step): Option<seq<Entry>>
  {
    match step
    case Skip => Some(es)
    case Append(e) => Some(es + [e])
    case Throw => None
  }

  lemma {:induction false} EncodeThrowPersists(values: seq<(string, FormValue)>, n: nat)
    requires n <= |values| && Encode(values[..n]) == None
    ensures Encode(values) == None
    decreases |values| - n
  {
    if n < |values| {
      assert values[..n + 1][..n] == values[..n];
      EncodeThrowPersists(values, n + 1);
    } else {
      assert values[..n] == values;
    }
  }

  /** The `forEach` that appends each defined form value to a fresh FormData. */
  method AppendEntries(values: seq<(string, FormValue)>) returns (r: Option<seq<Entry>>)
    ensures r == Encode(values)
  {
    var formData: seq<Entry> := [];
    var i := 0;
    while i < |values|
      invariant 0 <= i <= |values|
      invariant Encode(values[..i]) == Some(formData)
    {
      var (key, value) := values[i];
      assert values[..i + 1][..i] == values[..i];
      var step := EncodeEntry(key, value);
      match step {
        case Skip =>
        case Append(e) =>
          formData := formData + [e];
        case Throw =>
          EncodeThrowPersists(values, i + 1);
          return None;
      }
      i := i + 1;
    }
    assert values[..i] == values;
    return Some(formData);
  }

  // ---- the image clean-up ----

  predicate IsTextImage(e: Entry)
  {
    e.key == ImageKey && e.part.TextPart?
  }

  /** `formData.delete(key)`: every entry under `key` goes. */
  function RemoveKey(es: seq<Entry>, key: string): (r: seq<Entry>)
    ensures |r| <= |es|
    ensures forall j :: 0 <= j < |r| ==> r[j].key != key
  {
    if es == [] then []
    else if es[0].key == key then RemoveKey(es[1..], key)
    else [es[0]] + RemoveKey(es[1..], key)
  }

  predicate HasTextImage(es: seq<Entry>)
  {
    exists j :: 0 <= j < |es| && IsTextImage(es[j])
  }

  /** The payload after the second loop: an image that is not a file is deleted. */
  function DropTextImage(es: seq<Entry>): seq<Entry>
  {
    if HasTextImage(es) then RemoveKey(es, ImageKey) else es
  }

  /** The loop over `formData.entries()` that deletes "image" when its value is a string. */
  method DeleteTextImage(entries: seq<Entry>) returns (formData: seq<Entry>)
    ensures formData == DropTextImage(entries)
  {
    formData := entries;
    var i := 0;
    ghost var deleted := false;
    while i < |formData|
      invariant 0 <= i
      invariant !deleted ==>
        (formData == entries && i <= |entries| && forall j :: 0 <= j < i ==> !IsTextImage(entries[j]))
      invariant deleted ==> formData == RemoveKey(entries, ImageKey) && HasTextImage(entries)
      decreases |formData| - i
    {
      if formData[i].key == ImageKey && formData[i].part.TextPart? {
        assert deleted ==> false;
        assert IsTextImage(entries[i]);
        formData := RemoveKey(formData, ImageKey);
        deleted := true;
      }
      i := i + 1;
    }
  }

  // ---- dispatch ----

  /** The mutation `onSubmit` calls, with the payload; `NoCall` for an unknown action. */
  datatype Call = CreateCall(payload: seq<Entry>) | UpdateCall(id: Option<int>, payload: seq<Entry>) | NoCall

  datatype Submission = Threw | Dispatched(call: Call)

  function DispatchFor(action: string, dataId: Option<int>, payload: seq<Entry>): (r: Call)
    ensures action == CreateAction ==> r == CreateCall(payload)
    ensures action == EditAction ==> r == UpdateCall(dataId, payload)
    ensures action != CreateAction && action != EditAction ==> r == NoCall
  {
    if action == CreateAction then CreateCall(payload)
    else if action == EditAction then UpdateCall(dataId, payload)
    else NoCall
  }

  /** `onSubmit` as a whole. */
  function Submit(values: seq<(string, FormValue)>, action: string, dataId: Option<int>): Submission
  {
    match Encode(values)
    case None => Threw
    case Some(es) => Dispatched(DispatchFor(action, dataId, DropTextImage(es)))
  }

  /** The payload a submission sends, if it sends one. */
  predicate Sends(values: seq<(string, FormValue)>, action: string, dataId: Option<int>, payload: seq<Entry>)
  {
    match Submit(values, action, dataId)
    case Threw => false
    case Dispatched(call) => !call.NoCall? && call.payload == payload
  }

  // ---- properties of the payload ----

  predicate DistinctKeys(values: seq<(string, FormValue)>)
  {
    forall a, b :: 0 <= a < b < |values| ==> values[a].0 != values[b].0
  }

  /** The part a FormData holds last under `key`. */
  function LastPart(es: seq<Entry>, key: string): (r: Option<Part>)
    ensures r.None? <==> forall j :: 0 <= j < |es| ==> es[j].key != key
    ensures r.Some? ==> exists j :: 0 <= j < |es| && es[j].key == key && es[j].part == r.value
  {
    if es == [] then None
    else if es[|es| - 1].key == key then Some(es[|es| - 1].part)
    else LastPart(es[..|es| - 1], key)
  }

  // ---- the loop over abstract iterations ----

  /** A run of iterations from an empty FormData; the first one that throws ends it. */
  function Collect(steps: seq<Step>): Option<seq<Entry>>
    decreases |steps|
  {
    if steps == [] then Some([])
    else
      match Collect(steps[..|steps| - 1])
      case None => None
      case Some(es) => Apply(es, steps[|steps| - 1])
  }

  /** Every appended entry carries the key of its iteration. */
  predicate Keyed(steps: seq<Step>, keys: seq<string>)
  {
    |steps| == |keys| && forall i :: 0 <= i < |steps| && steps[i].Append? ==> steps[i].entry.key == keys[i]
  }

  predicate Distinct(keys: seq<string>)
  {
    forall a, b :: 0 <= a < b < |keys| ==> keys[a] != keys[b]
  }

  /** Every entry of the result was appended by some iteration, under that iteration's key. */
  lemma {:induction false} CollectKeys(steps: seq<Step>, keys: seq<string>)
    requires Keyed(steps, keys) && Collect(steps).Some?
    ensures forall j :: 0 <= j < |Collect(steps).value| ==>
      exists i :: 0 <= i < |steps| && steps[i].Append? && keys[i] == Collect(steps).value[j].key
    decreases |steps|
  {
    if steps != [] {
      var n := |steps| - 1;
      var init, ks := steps[..n], keys[..n];
      assert Keyed(init, ks);
      CollectKeys(init, ks);
      var prefix := Collect(init).value;
      var es := Collect(steps).value;
      assert es == prefix || (steps[n].Append? && es == prefix + [steps[n].entry]);
      forall j | 0 <= j < |es|
        ensures exists i :: 0 <= i < |steps| && steps[i].Append? && keys[i] == es[j].key
      {
        if j < |prefix| {
          var i :| 0 <= i < |init| && init[i].Append? && ks[i] == prefix[j].key;
          assert steps[i] == init[i] && keys[i] == ks[i] && es[j] == prefix[j];
        } else {
          assert steps[n].Append? && es[j] == steps[n].entry;
        }
      }
    }
  }

  /** What one iteration does to the last part under each key. */
  lemma ApplyLastPart(es: seq<Entry>, step: Step, key: string, k: string)
    requires Apply(es, step).Some? && (step.Append? ==> step.entry.key == key)
    ensures !step.Throw?
    ensures k != key ==> LastPart(Apply(es, step).value, k) == LastPart(es, k)
    ensures k == key && LastPart(es, k).None? ==>
      LastPart(Apply(es, step).value, k) == if step.Append? then Some(step.entry.part) else None
  {
    if step.Append? {
      var s := es + [step.entry];
      assert s[..|s| - 1] == es;
    }
  }

  /** With distinct keys, the result holds under each key exactly what that key's iteration appended. */
  lemma {:induction false} CollectLastPart(steps: seq<Step>, keys: seq<string>, i: nat)
    requires Keyed(steps, keys) && Distinct(keys) && i < |steps| && Collect(steps).Some?
    ensures !steps[i].Throw?
    ensures LastPart(Collect(steps).value, keys[i]) == if steps[i].Append? then Some(steps[i].entry.part) else None
    decreases |steps|
  {
    var n := |steps| - 1;
    var init, ks := steps[..n], keys[..n];
    if Collect(init).None? {
      assert false;
    }
    var prefix := Collect(init).value;
    ApplyLastPart(prefix, steps[n], keys[n], keys[i]);
    assert Keyed(init, ks);
    if i < n {
      assert Distinct(ks);
      CollectLastPart(init, ks, i);
      assert init[i] == steps[i] && ks[i] == keys[i];
    } else {
      CollectKeys(init, ks);
      forall j | 0 <= j < |prefix|
        ensures prefix[j].key != keys[n]
      {
        var a :| 0 <= a < |init| && init[a].Append? && ks[a] == prefix[j].key;
        assert keys[a] != keys[n];
      }
    }
  }

  /** With distinct keys, no key occurs twice in the result. */
  lemma {:induction false} CollectDistinct(steps: seq<Step>, keys: seq<string>)
    requires Keyed(steps, keys) && Distinct(keys) && Collect(steps).Some?
    ensures forall a, b :: 0 <= a < b < |Collect(steps).value| ==>
      Collect(steps).value[a].key != Collect(steps).value[b].key
    decreases |steps|
  {
    if steps != [] {
      var n := |steps| - 1;
      var init, ks := steps[..n], keys[..n];
      assert Keyed(init, ks) && Distinct(ks);
      CollectDistinct(init, ks);
      CollectKeys(init, ks);
      var prefix := Collect(init).value;
      var es := Collect(steps).value;
      assert es == prefix || (steps[n].Append? && es == prefix + [steps[n].entry]);
      forall a, b | 0 <= a < b < |es|
        ensures es[a].key != es[b].key
      {
        if b >= |prefix| {
          assert a < |prefix| && es[a] == prefix[a] && es[b] == steps[n].entry;
          var i :| 0 <= i < |init| && init[i].Append? && ks[i] == prefix[a].key;
          assert keys[i] != keys[n];
        }
      }
    }
  }

  // ---- the loop over the form values ----

  /** The iterations over the form values. */
  function StepsOf(values: seq<(string, FormValue)>): (r: seq<Step>)
    ensures |r| == |values|
  {
    seq(|values|, i requires 0 <= i < |values| => EncodeEntry(values[i].0, values[i].1))
  }

  function KeysOf(values: seq<(string, FormValue)>): (r: seq<string>)
    ensures |r| == |values|
  {
    seq(|values|, i requires 0 <= i < |values| => values[i].0)
  }

  lemma {:induction false} EncodeIsCollect(values: seq<(string, FormValue)>)
    ensures Encode(values) == Collect(StepsOf(values))
    decreases |values|
  {
    if values != [] {
      var n := |values| - 1;
      EncodeIsCollect(values[..n]);
      assert StepsOf(values)[..n] == StepsOf(values[..n]);
    }
  }

  lemma StepsKeyed(values: seq<(string, FormValue)>)
    ensures Keyed(StepsOf(values), KeysOf(values))
    ensures DistinctKeys(values) ==> Distinct(KeysOf(values))
  {
  }

  /** The payload only holds keys of defined form values. */
  lemma EncodeKeys(values: seq<(string, FormValue)>)
    requires Encode(values).Some?
    ensures forall j :: 0 <= j < |Encode(values).value| ==>
      exists i :: 0 <= i < |values| && values[i].0 == Encode(values).value[j].key && !values[i].1.Undefined?
  {
    EncodeIsCollect(values);
    StepsKeyed(values);
    CollectKeys(StepsOf(values), KeysOf(values));
  }

  /**
   * With distinct form keys, the payload holds, under each key, exactly the
   * encoding of that key's value, and nothing for an undefined value.
   */
  lemma EncodeLastPart(values: seq<(string, FormValue)>, i: nat)
    requires DistinctKeys(values) && i < |values| && Encode(values).Some?
    ensures !EncodeEntry(values[i].0, values[i].1).Throw?
    ensures LastPart(Encode(values).value, values[i].0) == EncodedPart(values[i].0, values[i].1)
  {
    EncodeIsCollect(values);
    StepsKeyed(values);
    CollectLastPart(StepsOf(values), KeysOf(values), i);
  }

  /** Each key appears in the payload at most once. */
  lemma EncodeDistinct(values: seq<(string, FormValue)>)
    requires DistinctKeys(values) && Encode(values).Some?
    ensures forall a, b :: 0 <= a < b < |Encode(values).value| ==>
      Encode(values).value[a].key != Encode(values).value[b].key
  {
    EncodeIsCollect(values);
    StepsKeyed(values);
    CollectDistinct(StepsOf(values), KeysOf(values));
  }

  lemma {:induction false} RemoveKeyLastPart(es: seq<Entry>, key: string, k: string)
    ensures LastPart(RemoveKey(es, key), k) == if k == key then None else LastPart(es, k)
    decreases |es|
  {
    if es != [] {
      RemoveKeyLastPart(es[1..], key, k);
      if k != key {
        FirstLastPart(es[0], es[1..], k);
        assert es == [es[0]] + es[1..];
        if es[0].key != key {
          FirstLastPart(es[0], RemoveKey(es[1..], key), k);
        } else {
          assert RemoveKey(es, key) == RemoveKey(es[1..], key);
        }
      }
    }
  }

  /** Looking up from the back through an entry put in front. */
  lemma {:induction false} FirstLastPart(e: Entry, rest: seq<Entry>, k: string)
    ensures LastPart([e] + rest, k) == if LastPart(rest, k).Some? then LastPart(rest, k)
      else if e.key == k then Some(e.part) else None
    decreases |rest|
  {
    if rest != [] {
      var init := rest[..|rest| - 1];
      ConsInit(e, rest);
      assert LastPart([e] + rest, k) ==
        if rest[|rest| - 1].key == k then Some(rest[|rest| - 1].part) else LastPart([e] + init, k);
      assert LastPart(rest, k) ==
        if rest[|rest| - 1].key == k then Some(rest[|rest| - 1].part) else LastPart(init, k);
      FirstLastPart(e, init, k);
    }
  }

  /** The last element and the initial part of a sequence with an element put in front. */
  lemma ConsInit<T>(e: T, rest: seq<T>)
    requires rest != []
    ensures ([e] + rest)[|rest|] == rest[|rest| - 1]
    ensures ([e] + rest)[..|rest|] == [e] + rest[..|rest| - 1]
  {
  }

  /**
   * After the image clean-up every key keeps its last part, except that
   * "image" is gone when some "image" entry held a string.
   */
  lemma DropTextImageLastPart(es: seq<Entry>, k: string)
    ensures LastPart(DropTextImage(es), k) ==
      if k == ImageKey && HasTextImage(es) then None else LastPart(es, k)
  {
    if HasTextImage(es) {
      RemoveKeyLastPart(es, ImageKey, k);
    }
  }

  /** A text image in the payload means the image value was defined and not a file. */
  lemma TextImageOfValue(values: seq<(string, FormValue)>, i: nat)
    requires DistinctKeys(values) && i < |values| && values[i].0 == ImageKey && Encode(values).Some?
    requires HasTextImage(Encode(values).value)
    ensures !values[i].1.Undefined? && !values[i].1.FileValue?
  {
    var es := Encode(values).value;
    EncodeLastPart(values, i);
    EncodeDistinct(values);
    var j :| 0 <= j < |es| && IsTextImage(es[j]);
    LastPartDistinct(es, j);
  }

  /** A defined image value that is not a file is appended as text. */
  lemma ValueOfTextImage(values: seq<(string, FormValue)>, i: nat)
    requires DistinctKeys(values) && i < |values| && values[i].0 == ImageKey && Encode(values).Some?
    requires !values[i].1.Undefined? && !values[i].1.FileValue?
    ensures HasTextImage(Encode(values).value)
  {
    var es := Encode(values).value;
    EncodeLastPart(values, i);
    var j :| 0 <= j < |es| && es[j].key == ImageKey && es[j].part == LastPart(es, ImageKey).value;
    assert IsTextImage(es[j]);
  }

  lemma {:induction false} LastPartDistinct(es: seq<Entry>, j: nat)
    requires j < |es|
    requires forall a, b :: 0 <= a < b < |es| ==> es[a].key != es[b].key
    ensures LastPart(es, es[j].key) == Some(es[j].part)
    decreases |es|
  {
    if j < |es| - 1 {
      LastPartDistinct(es[..|es| - 1], j);
    }
  }

  /**
   * What a sent payload holds under each form key: nothing for an undefined
   * value or for an image that is not a file, and the value's encoding for
   * every other defined value.
   */
  lemma PayloadLastPart(values: seq<(string, FormValue)>, action: string, dataId: Option<int>,
                        payload: seq<Entry>, i: nat)
    requires DistinctKeys(values) && i < |values| && Sends(values, action, dataId, payload)
    ensures LastPart(payload, values[i].0) ==
      if values[i].0 == ImageKey && !values[i].1.FileValue? then None
      else EncodedPart(values[i].0, values[i].1)
  {
    var es := Encode(values).value;
    assert payload == DropTextImage(es);
    EncodeLastPart(values, i);
    DropTextImageLastPart(es, values[i].0);
    if values[i].0 == ImageKey {
      if HasTextImage(es) {
        TextImageOfValue(values, i);
      } else if !values[i].1.Undefined? && !values[i].1.FileValue? {
        ValueOfTextImage(values, i);
      }
    }
  }

  // ---- the channel rule on records and on ids ----

  lemma RecordMembers(c: Channel)
    ensures Json.Get(ChannelRecord(c).members, "id") == Some(Json.JString(c.id))
    ensures Json.HasOwnProperty(ChannelRecord(c), "createdAt")
  {
    var ms := ChannelRecord(c).members;
    assert ms[..4][..3] == ms[..3] && ms[..3][..2] == ms[..2] && ms[..2][..1] == ms[..1];
    assert Json.Get(ms, "id") == Json.Get(ms[..4], "id") == Json.Get(ms[..3], "id") == Json.Get(ms[..2], "id")
      == Json.Get(ms[..1], "id");
    assert ms[..1][..0] == [];
    assert Json.Get(ms, "createdAt") == Json.Get(ms[..4], "createdAt");
  }

  lemma {:induction false} RecordsHaveCreatedAt(cs: seq<Channel>)
    ensures SomeHasCreatedAt(ChannelRecords(cs)) == Some(cs != [])
  {
    if cs != [] {
      RecordMembers(cs[0]);
    }
  }

  lemma {:induction false} RecordIds(cs: seq<Channel>)
    ensures Ids(ChannelRecords(cs)) == Some(IdList(ChannelIds(cs)))
  {
    if cs != [] {
      RecordIds(cs[1..]);
      RecordMembers(cs[0]);
      assert ChannelRecords(cs)[1..] == ChannelRecords(cs[1..]);
      assert IdList(ChannelIds(cs)) == [Json.JString(cs[0].id)] + IdList(ChannelIds(cs[1..]));
    }
  }

  /** A list of channel records is sent as the JSON array of their ids. */
  lemma RecordsEncodeAsIds(cs: seq<Channel>)
    ensures ChannelsText(ChannelRecords(cs)) == Some(Json.Stringify(Json.JArray(IdList(ChannelIds(cs)))))
  {
    RecordsHaveCreatedAt(cs);
    if cs != [] {
      RecordIds(cs);
    }
  }

  lemma {:induction false} BareIdsHaveNoCreatedAt(ids: seq<string>)
    ensures SomeHasCreatedAt(IdList(ids)) == Some(false)
  {
    if ids != [] {
      BareIdsHaveNoCreatedAt(ids[1..]);
      assert IdList(ids)[1..] == IdList(ids[1..]);
    }
  }

  /** A list of bare ids, as the channel pickers store it, is sent as the JSON of that list. */
  lemma BareIdsEncodeAsIds(ids: seq<string>)
    ensures ChannelsText(IdList(ids)) == Some(Json.Stringify(Json.JArray(IdList(ids))))
  {
    BareIdsHaveNoCreatedAt(ids);
  }

  /** A channel list that encodes without throwing is appended as its text. */
  lemma ChannelListPart(key: string, items: seq<Json.Json>)
    requires IsChannelKey(key) && ChannelsText(items).Some?
    ensures EncodedPart(key, List(items)) == Some(TextPart(ChannelsText(items).value))
  {
  }

  // ---- the schema gate ----

  const IsActiveKey := "isActive"

  /** The value the form holds last under `key`, `undefined` when it holds none. */
  function FormLookup(values: seq<(string, FormValue)>, key: string): (r: FormValue)
    ensures r.Undefined? || exists i :: 0 <= i < |values| && values[i].0 == key && values[i].1 == r
    ensures (forall i :: 0 <= i < |values| ==> values[i].0 != key) ==> r.Undefined?
    decreases |values|
  {
    if values == [] then Undefined
    else if values[|values| - 1].0 == key then values[|values| - 1].1
    else FormLookup(values[..|values| - 1], key)
  }

  /** Plain data as the schema sees it; an object's later member under a key wins. */
  function JsonValue(j: Json.Json): Validation.Value
    decreases j, 1
  {
    match j
    case JNull => Validation.VNull
    case JBool(b) => Validation.VBool(b)
    case JString(s) => Validation.VString(s)
    case JArray(items) => Validation.VArray(JsonValues(items))
    case JObject(members) => Validation.VObject(MemberFields(members))
  }

  function JsonValues(items: seq<Json.Json>): (r: seq<Validation.Value>)
    ensures |r| == |items|
    decreases items, 0
  {
    if items == [] then [] else [JsonValue(items[0])] + JsonValues(items[1..])
  }

  function MemberFields(members: seq<Json.Member>): map<string, Validation.Value>
    decreases members, 0
  {
    if members == [] then map[]
    else map[members[0].key := JsonValue(members[0].value)] + MemberFields(members[1..])
  }

  /** A form value as the resolver hands it to the schema; a `File` is an object with no own properties. */
  function SchemaValue(v: FormValue): (r: Validation.Value)
    ensures r.VUndefined? <==> v.Undefined?
    ensures r.VString? <==> v.Str?
    ensures r.VBool? <==> v.Bool?
    ensures r.VDate? <==> v.DateValue?
    ensures r.VArray? <==> v.List?
  {
    match v
    case Undefined => Validation.VUndefined
    case FileValue(_) => Validation.VObject(map[])
    case Str(s) => Validation.VString(s)
    case Bool(b) => Validation.VBool(b)
    case DateValue(t) => Validation.VDate(if t.Some? then Some(t.value as int) else None)
    case List(items) => Validation.VArray(JsonValues(items))
  }

  /** The form's values object, a later entry under the same key overwriting an earlier one. */
  function SchemaRecord(values: seq<(string, FormValue)>): (r: Validation.Record)
    decreases |values|
  {
    if values == [] then map[]
    else SchemaRecord(values[..|values| - 1])[values[|values| - 1].0 := SchemaValue(values[|values| - 1].1)]
  }

  /** Every property of the values object reads as the value the form holds under it. */
  lemma {:induction false} SchemaRecordLookup(values: seq<(string, FormValue)>, key: string)
    ensures Validation.Lookup(SchemaRecord(values), key) == SchemaValue(FormLookup(values, key))
    decreases |values|
  {
    if values != [] {
      SchemaRecordLookup(values[..|values| - 1], key);
    }
  }

  /** The schema's boolean back as a form value. */
  function ActiveValue(v: Validation.Value): FormValue
  {
    if v.VBool? then Bool(v.b) else Undefined
  }

  /**
   * The values `onSubmit` receives for an accepted record: the schema's keys
   * in the schema's order. The schema passes every field but `isActive`
   * through unchanged, so those are the form's own values; `isActive` is the
   * one the schema settled.
   */
  function ParsedValues(values: seq<(string, FormValue)>, data: Validation.Record): seq<(string, FormValue)>
  {
    [ ("name", FormLookup(values, "name")), ("descr", FormLookup(values, "descr")),
      (FinishKey, FormLookup(values, FinishKey)), (IsActiveKey, ActiveValue(Validation.Lookup(data, IsActiveKey))),
      (ImageKey, FormLookup(values, ImageKey)), (SubscribeKey, FormLookup(values, SubscribeKey)),
      (SentKey, FormLookup(values, SentKey)) ]
  }

  /** What a press of the submit button does: the resolver's issues, or `onSubmit` on the record it accepted. */
  datatype Outcome = Invalid(issues: seq<Validation.Issue>) | Submitted(submission: Submission)

  /** `form.handleSubmit(onSubmit)`, with the schema evaluated at the instant `now`. */
  function HandleSubmit(values: seq<(string, FormValue)>, action: string, dataId: Option<int>, now: int): (r: Outcome)
    ensures r.Invalid? ==> r.issues != []
  {
    match Validation.EventSchema(SchemaRecord(values), now)
    case Rejected(issues) => Invalid(issues)
    case Accepted(data) => Submitted(Submit(ParsedValues(values, data), action, dataId))
  }

  /**
   * The submission reaches `onSubmit` iff the name is a non-empty string, the
   * description is absent or a string, the finish date is a valid `Date`
   * strictly after now + 10 min, `isActive` is absent or a boolean and the
   * subscribe channels are absent or a list.
   */
  lemma HandleSubmitGate(values: seq<(string, FormValue)>, action: string, dataId: Option<int>, now: int)
    ensures HandleSubmit(values, action, dataId, now).Submitted? <==>
      FormLookup(values, "name").Str? && |FormLookup(values, "name").s| >= 1
      && (FormLookup(values, "descr").Undefined? || FormLookup(values, "descr").Str?)
      && FormLookup(values, FinishKey).DateValue? && FormLookup(values, FinishKey).t.Some?
      && DateTimePicker.IsValidFutureDate(FormLookup(values, FinishKey).t.value, now)
      && (FormLookup(values, IsActiveKey).Undefined? || FormLookup(values, IsActiveKey).Bool?)
      && (FormLookup(values, SubscribeKey).Undefined? || FormLookup(values, SubscribeKey).List?)
  {
    var input := SchemaRecord(values);
    Validation.EventAccepted(input, now);
    SchemaRecordLookup(values, "name");
    SchemaRecordLookup(values, "descr");
    SchemaRecordLookup(values, FinishKey);
    SchemaRecordLookup(values, IsActiveKey);
    SchemaRecordLookup(values, SubscribeKey);
  }

  /** An accepted record's finish date is a valid `Date` after now + 10 min. */
  lemma AcceptedFinishDate(values: seq<(string, FormValue)>, now: int)
    requires Validation.EventSchema(SchemaRecord(values), now).Accepted?
    ensures FormLookup(values, FinishKey).DateValue? && FormLookup(values, FinishKey).t.Some?
    ensures FormLookup(values, FinishKey).t.value > now + 600000
  {
    Validation.EventAccepted(SchemaRecord(values), now);
    SchemaRecordLookup(values, FinishKey);
  }

  /**
   * For an accepted record, `onSubmit` receives exactly the schema's keys, in
   * its order and without repeats, each holding the schema's cleaned value;
   * keys outside the schema are gone, and an absent `isActive` is `true`.
   */
  lemma ParsedValuesFollowSchema(values: seq<(string, FormValue)>, now: int)
    requires Validation.EventSchema(SchemaRecord(values), now).Accepted?
    ensures var data := Validation.EventSchema(SchemaRecord(values), now).data;
      var pv := ParsedValues(values, data);
      |pv| == |Validation.EventKeys| && DistinctKeys(pv)
      && (forall i :: 0 <= i < |pv| ==>
            pv[i].0 == Validation.EventKeys[i] && SchemaValue(pv[i].1) == Validation.Lookup(data, pv[i].0))
      && (FormLookup(values, IsActiveKey).Undefined? ==> pv[3].1 == Bool(true))
  {
    var input := SchemaRecord(values);
    Validation.EventLookups(input, now);
    Validation.EventAccepted(input, now);
    SchemaRecordLookup(values, IsActiveKey);
    ParsedValuesOf(values, Validation.EventSchema(input, now).data);
  }

  /** `ParsedValuesFollowSchema` for any record that reads like the cleaned one. */
  lemma ParsedValuesOf(values: seq<(string, FormValue)>, data: Validation.Record)
    requires forall i :: 0 <= i < |Validation.EventKeys| && i != 3 ==>
      Validation.Lookup(data, Validation.EventKeys[i]) == Validation.Lookup(SchemaRecord(values), Validation.EventKeys[i])
    requires Validation.Lookup(data, IsActiveKey) ==
      if FormLookup(values, IsActiveKey).Undefined? then Validation.VBool(true) else SchemaValue(FormLookup(values, IsActiveKey))
    requires FormLookup(values, IsActiveKey).Undefined? || FormLookup(values, IsActiveKey).Bool?
    ensures var pv := ParsedValues(values, data);
      |pv| == |Validation.EventKeys| && DistinctKeys(pv)
      && (forall i :: 0 <= i < |pv| ==>
            pv[i].0 == Validation.EventKeys[i] && SchemaValue(pv[i].1) == Validation.Lookup(data, pv[i].0))
      && (FormLookup(values, IsActiveKey).Undefined? ==> pv[3].1 == Bool(true))
  {
    var pv := ParsedValues(values, data);
    ParsedKeys(values, data);
    forall i | 0 <= i < |pv|
      ensures SchemaValue(pv[i].1) == Validation.Lookup(data, pv[i].0)
    {
      SchemaRecordLookup(values, pv[i].0);
    }
  }

  /** The values `onSubmit` receives carry the schema's keys, in order and without repeats. */
  lemma ParsedKeys(values: seq<(string, FormValue)>, data: Validation.Record)
    ensures var pv := ParsedValues(values, data);
      |pv| == |Validation.EventKeys| && DistinctKeys(pv)
      && forall i :: 0 <= i < |pv| ==> pv[i].0 == Validation.EventKeys[i]
  {
    Validation.EventKeysDistinct();
  }

  /**
   * Submitting an event for editing before its finish date is picked again
   * goes nowhere: the date is still the server's text, and the schema
   * rejects a string where it wants a `Date`.
   */
  lemma EditDefaultsRejected(e: Event, now: int)
    ensures var r := HandleSubmit(DefaultValues(Some(e)), EditAction, Some(e.id), now);
      r.Invalid? && Validation.Issue(FinishKey, Validation.FinishInvalid) in r.issues
  {
    var values := DefaultValues(Some(e));
    var input := SchemaRecord(values);
    SchemaRecordLookup(values, FinishKey);
    var cs := Validation.EventChecks(input, now);
    assert cs[2].1.issues == [Validation.Issue(FinishKey, Validation.FinishInvalid)];
    Validation.IssuesInclude(cs, 2);
  }

  /** The payload a press of the submit button sends, if it sends one. */
  predicate FormSends(values: seq<(string, FormValue)>, action: string, dataId: Option<int>, now: int,
                      payload: seq<Entry>)
  {
    match HandleSubmit(values, action, dataId, now)
    case Invalid(_) => false
    case Submitted(s) => s.Dispatched? && !s.call.NoCall? && s.call.payload == payload
  }

  /**
   * A payload the button sends is one `onSubmit` sends for the values the
   * schema accepted: the schema's keys without repeats, each but `isActive`
   * holding the form's own value.
   */
  lemma ReceivedValues(values: seq<(string, FormValue)>, action: string, dataId: Option<int>, now: int,
                       payload: seq<Entry>) returns (pv: seq<(string, FormValue)>)
    requires FormSends(values, action, dataId, now, payload)
    ensures Validation.EventSchema(SchemaRecord(values), now).Accepted?
    ensures Sends(pv, action, dataId, payload) && DistinctKeys(pv) && |pv| == |Validation.EventKeys|
    ensures forall i :: 0 <= i < |pv| ==> pv[i].0 == Validation.EventKeys[i]
    ensures forall i :: 0 <= i < |pv| && i != 3 ==> pv[i].1 == FormLookup(values, pv[i].0)
    ensures FormLookup(values, IsActiveKey).Undefined? ==> pv[3].1 == Bool(true)
  {
    FormSendsParsed(values, action, dataId, now, payload);
    var data := Validation.EventSchema(SchemaRecord(values), now).data;
    ActiveDefault(values, now);
    ParsedShape(values, data);
    pv := ParsedValues(values, data);
  }

  /** An accepted record has `isActive` true when the form held none. */
  lemma ActiveDefault(values: seq<(string, FormValue)>, now: int)
    requires Validation.EventSchema(SchemaRecord(values), now).Accepted?
    ensures FormLookup(values, IsActiveKey).Undefined? ==>
      Validation.Lookup(Validation.EventSchema(SchemaRecord(values), now).data, IsActiveKey) == Validation.VBool(true)
  {
    Validation.EventLookups(SchemaRecord(values), now);
    SchemaRecordLookup(values, IsActiveKey);
  }

  /** The values `onSubmit` receives: the schema's keys, each but `isActive` holding the form's value. */
  lemma ParsedShape(values: seq<(string, FormValue)>, data: Validation.Record)
    ensures var pv := ParsedValues(values, data);
      |pv| == |Validation.EventKeys| && DistinctKeys(pv)
      && (forall i :: 0 <= i < |pv| ==> pv[i].0 == Validation.EventKeys[i])
      && (forall i :: 0 <= i < |pv| && i != 3 ==> pv[i].1 == FormLookup(values, pv[i].0))
      && pv[3].1 == ActiveValue(Validation.Lookup(data, IsActiveKey))
  {
    ParsedKeys(values, data);
  }

  /** A payload the button sends is one `onSubmit` sends for the record the schema accepted. */
  lemma FormSendsParsed(values: seq<(string, FormValue)>, action: string, dataId: Option<int>, now: int,
                        payload: seq<Entry>)
    requires FormSends(values, action, dataId, now, payload)
    ensures Validation.EventSchema(SchemaRecord(values), now).Accepted?
    ensures Sends(ParsedValues(values, Validation.EventSchema(SchemaRecord(values), now).data), action, dataId, payload)
  {
  }

  // ---- the form ----

  /** Some entry of the form's values is held under `key`. */
  predicate HasKey(values: seq<(string, FormValue)>, key: string)
  {
    exists i :: 0 <= i < |values| && values[i].0 == key
  }

  /** The values with every entry under `key` now holding `v`, all others untouched. */
  function Overwrite(values: seq<(string, FormValue)>, key: string, v: FormValue): (r: seq<(string, FormValue)>)
    ensures |r| == |values|
  {
    seq(|values|, i requires 0 <= i < |values| => if values[i].0 == key then (key, v) else values[i])
  }

  /** Overwriting the entries under `key` makes it read `v` and leaves every other key reading as before. */
  lemma {:induction false} OverwriteLookup(values: seq<(string, FormValue)>, key: string, v: FormValue, k: string)
    ensures FormLookup(Overwrite(values, key, v), k) ==
      if k == key && HasKey(values, key) then v else FormLookup(values, k)
    decreases |values|
  {
    if values != [] {
      var n := |values| - 1;
      assert Overwrite(values, key, v)[..n] == Overwrite(values[..n], key, v);
      OverwriteLookup(values[..n], key, v, k);
      if values[n].0 != key && HasKey(values, key) {
        var i :| 0 <= i < |values| && values[i].0 == key;
        assert values[..n][i].0 == key;
      }
    }
  }

  /** Appending an entry under `key` makes it read `v` and leaves every other key reading as before. */
  lemma AppendLookup(values: seq<(string, FormValue)>, key: string, v: FormValue, k: string)
    ensures FormLookup(values + [(key, v)], k) == if k == key then v else FormLookup(values, k)
  {
    assert (values + [(key, v)])[..|values|] == values;
  }

  lemma OverwriteLookups(values: seq<(string, FormValue)>, key: string, v: FormValue)
    requires HasKey(values, key)
    ensures FormLookup(Overwrite(values, key, v), key) == v
    ensures forall k :: k != key ==> FormLookup(Overwrite(values, key, v), k) == FormLookup(values, k)
  {
    OverwriteLookup(values, key, v, key);
    forall k | k != key
      ensures FormLookup(Overwrite(values, key, v), k) == FormLookup(values, k)
    {
      OverwriteLookup(values, key, v, k);
    }
  }

  lemma AppendLookups(values: seq<(string, FormValue)>, key: string, v: FormValue)
    ensures FormLookup(values + [(key, v)], key) == v
    ensures forall k :: k != key ==> FormLookup(values + [(key, v)], k) == FormLookup(values, k)
  {
    AppendLookup(values, key, v, key);
    forall k | k != key
      ensures FormLookup(values + [(key, v)], k) == FormLookup(values, k)
    {
      AppendLookup(values, key, v, k);
    }
  }

  /**
   * `form.setValue(key, v)` on the form's values object: the property `key`
   * reads `v` afterwards and every other property reads as before. An entry
   * already under the key is overwritten where it stands; a new key goes last.
   */
  function SetValue(values: seq<(string, FormValue)>, key: string, v: FormValue): (r: seq<(string, FormValue)>)
    ensures FormLookup(r, key) == v
    ensures forall k :: k != key ==> FormLookup(r, k) == FormLookup(values, k)
    ensures !HasKey(values, key) ==> r == values + [(key, v)]
    ensures HasKey(values, key) ==>
      |r| == |values| && forall i :: 0 <= i < |r| ==> r[i] == (if values[i].0 == key then (key, v) else values[i])
    ensures DistinctKeys(values) ==> DistinctKeys(r)
  {
    if HasKey(values, key) then
      OverwriteLookups(values, key, v);
      Overwrite(values, key, v)
    else
      AppendLookups(values, key, v);
      values + [(key, v)]
  }

  /**
   * After a channel picker stored the selected ids, a submission the button
   * sends carries that field as the JSON array of exactly those ids.
   */
  lemma SelectedIdsAreSent(values: seq<(string, FormValue)>, key: string, selected: seq<string>,
                           action: string, dataId: Option<int>, now: int, payload: seq<Entry>)
    requires IsChannelKey(key)
    requires FormSends(SetValue(values, key, List(IdList(selected))), action, dataId, now, payload)
    ensures LastPart(payload, key) == Some(TextPart(Json.Stringify(Json.JArray(IdList(selected)))))
  {
    var after := SetValue(values, key, List(IdList(selected)));
    var pv := ReceivedValues(after, action, dataId, now, payload);
    var i := if key == SubscribeKey then 5 else 6;
    assert pv[i].0 == key && pv[i].1 == List(IdList(selected));
    PayloadLastPart(pv, action, dataId, payload, i);
    BareIdsEncodeAsIds(selected);
    ChannelListPart(key, IdList(selected));
  }

  /** The send-channels picker is disabled while editing. */
  predicate SentChannelsEditable(action: string)
  {
    action != EditAction
  }

  /**
   * The form's default values, taken from the event being edited: its channel
   * fields start as the server's channel records and its finish date as the
   * server's text.
   */
  function DefaultValues(data: Option<Event>): seq<(string, FormValue)>
  {
    match data
    case None =>
      [("name", Undefined), ("descr", Undefined), (ImageKey, Undefined),
       (SubscribeKey, Undefined), (SentKey, Undefined), (FinishKey, Undefined)]
    case Some(e) =>
      [("name", Str(e.name)), ("descr", Str(e.descr)), (ImageKey, Str(e.imageUrl)),
       (SubscribeKey, List(ChannelRecords(e.subscribeChannels))),
       (SentKey, List(ChannelRecords(e.sentChannels))), (FinishKey, Str(e.finishDate))]
  }

  class Form {
    const action: string
    const dataId: Option<int>
    var values: seq<(string, FormValue)>

    constructor(action: string, data: Option<Event>)
      ensures this.action == action && dataId == (if data.Some? then Some(data.value.id) else None)
      ensures values == DefaultValues(data)
    {
      this.action := action;
      dataId := if data.Some? then Some(data.value.id) else None;
      values := DefaultValues(data);
    }

    /** The subscribe-channels picker stores the selected options' values, which are channel ids. */
    method OnSubscribeChange(selected: seq<string>)
      modifies this
      ensures values == SetValue(old(values), SubscribeKey, List(IdList(selected)))
      ensures FormLookup(values, SubscribeKey) == List(IdList(selected))
      ensures forall k :: k != SubscribeKey ==> FormLookup(values, k) == FormLookup(old(values), k)
    {
      values := SetValue(values, SubscribeKey, List(IdList(selected)));
    }

    /** The send-channels picker does the same, but cannot fire while editing. */
    method OnSentChange(selected: seq<string>)
      modifies this
      ensures values == if SentChannelsEditable(action) then SetValue(old(values), SentKey, List(IdList(selected)))
        else old(values)
      ensures SentChannelsEditable(action) ==> FormLookup(values, SentKey) == List(IdList(selected))
      ensures forall k :: k != SentKey ==> FormLookup(values, k) == FormLookup(old(values), k)
    {
      if SentChannelsEditable(action) {
        values := SetValue(values, SentKey, List(IdList(selected)));
      }
    }

    /**
     * The submit button: the resolver checks the values against the event
     * schema at `now`; an accepted record goes to `onSubmit`, which builds the
     * payload, drops a non-file image and dispatches on the action.
     */
    method OnSubmit(now: int) returns (r: Outcome)
      ensures r == HandleSubmit(values, action, dataId, now)
    {
      var parsed := Validation.EventSchema(SchemaRecord(values), now);
      if parsed.Rejected? {
        return Invalid(parsed.issues);
      }
      var encoded := AppendEntries(ParsedValues(values, parsed.data));
      if encoded.None? {
        return Submitted(Threw);
      }
      var payload := DeleteTextImage(encoded.value);
      r := Submitted(Dispatched(DispatchFor(action, dataId, payload)));
    }
  }
}
