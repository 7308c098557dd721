/**
 * The form schemas of the shared validation module, read as predicates: a
 * schema takes the submitted values (a record of JavaScript values) and
 * either accepts them, giving the cleaned record, or lists the issues it
 * found, each with the field it concerns and the message shown under it.
 */
module Validation {
  import opened Wrappers
  import DateTimePicker

  /** The JavaScript values a form can hand to a schema; a date is its time value, or `None` for an Invalid Date. */
  datatype Value =
    | VUndefined
    | VNull
    | VString(s: string)
    | VNumber(n: int)
    | VBool(b: bool)
    | VDate(t: Option<int>)
    | VArray(items: seq<Value>)
    | VObject(fields: map<string, Value>)

  type Record = map<string, Value>

  datatype Issue = Issue(path: string, message: string)

  datatype Parsed = Accepted(data: Record) | Rejected(issues: seq<Issue>)

  /** The checked value of one field, or the issues found in it. */
  datatype Check = Check(issues: seq<Issue>, out: Value)

  /** A missing property reads as `undefined`. */
  function Lookup(input: Record, key: string): Value
  {
    if key in input then input[key] else VUndefined
  }

  /** The type word the schema library puts in its own "Expected …, received …" messages. */
  function TypeName(v: Value): string
  {
    match v
    case VUndefined => "undefined"
    case VNull => "null"
    case VString(_) => "string"
    case VNumber(_) => "number"
    case VBool(_) => "boolean"
    case VDate(_) => "date"
    case VArray(_) => "array"
    case VObject(_) => "object"
  }

  function Expected(expected: string, v: Value): string
  {
    "Expected " + expected + ", received " + TypeName(v)
  }

  const InvalidDateMessage := "Invalid date"

  // ---- field checks ----

  /** `z.string({required_error, invalid_type_error}).min(1, tooShort)`; no `invalid_type_error` gives the library's default. */
  function RequiredString(field: string, v: Value, required: string, invalid: Option<string>, tooShort: string): (c: Check)
    ensures c.issues == [] <==> v.VString? && |v.s| >= 1
    ensures |c.issues| <= 1
    ensures c.issues == [] ==> c.out == v
  {
    match v
    case VUndefined => Check([Issue(field, required)], v)
    case VString(s) => if |s| >= 1 then Check([], v) else Check([Issue(field, tooShort)], v)
    case _ => Check([Issue(field, invalid.GetOr(Expected("string", v)))], v)
  }

  /** `z.string().optional()`. */
  function OptionalString(field: string, v: Value): (c: Check)
    ensures c.issues == [] <==> v.VUndefined? || v.VString?
    ensures c.out == v
  {
    if v.VUndefined? || v.VString? then Check([], v) else Check([Issue(field, Expected("string", v))], v)
  }

  /** `z.boolean().optional().default(d)`: an absent value becomes `d`. */
  function OptionalBoolDefault(field: string, v: Value, d: bool): (c: Check)
    ensures c.issues == [] <==> v.VUndefined? || v.VBool?
    ensures v.VUndefined? ==> c.out == VBool(d)
    ensures v.VBool? ==> c.out == v
  {
    match v
    case VUndefined => Check([], VBool(d))
    case VBool(_) => Check([], v)
    case _ => Check([Issue(field, Expected("boolean", v))], v)
  }

  /** `z.any().optional()`: everything passes. */
  function AnyValue(v: Value): (c: Check)
    ensures c.issues == [] && c.out == v
  {
    Check([], v)
  }

  /** `z.any().array().optional()`: absent, or an array of anything. */
  function OptionalArray(field: string, v: Value): (c: Check)
    ensures c.issues == [] <==> v.VUndefined? || v.VArray?
    ensures c.out == v
  {
    if v.VUndefined? || v.VArray? then Check([], v) else Check([Issue(field, Expected("array", v))], v)
  }

  const FinishRequired := "Tugash sanasi kiritilishi kerak!"
  const FinishInvalid := "Noto'g'ri sana formati!"
  const FinishTooSoon := "Sana kamida 10 daqiqa kelajakda bo'lishi kerak"

  /**
   * `finishDate`: a valid date, then the refinement `date > now + 10 min`
   * evaluated with the clock reading `now` taken at check time.
   */
  function FinishDate(v: Value, now: int): (c: Check)
    ensures c.out == v
    ensures |c.issues| <= 1
  {
    match v
    case VUndefined => Check([Issue("finishDate", FinishRequired)], v)
    case VDate(None) => Check([Issue("finishDate", InvalidDateMessage)], v)
    case VDate(Some(t)) =>
      if t > now + 10 * 60 * 1000 then Check([], v) else Check([Issue("finishDate", FinishTooSoon)], v)
    case _ => Check([Issue("finishDate", FinishInvalid)], v)
  }

  /** The finish-date rule is the picker's own `isValidFutureDate`: strictly after now + 600000 ms. */
  lemma FinishDateAgreesWithPicker(v: Value, now: int)
    ensures FinishDate(v, now).issues == [] <==>
      v.VDate? && v.t.Some? && DateTimePicker.IsValidFutureDate(v.t.value, now)
  {
  }

  /** The rejection message says which of the three ways the date failed. */
  lemma FinishDateMessages(v: Value, now: int)
    ensures v.VUndefined? ==> FinishDate(v, now).issues == [Issue("finishDate", FinishRequired)]
    ensures !v.VUndefined? && !v.VDate? ==> FinishDate(v, now).issues == [Issue("finishDate", FinishInvalid)]
    ensures v == VDate(Some(now + 600000)) ==> FinishDate(v, now).issues == [Issue("finishDate", FinishTooSoon)]
  {
  }

  // ---- objects ----

  /** All issues of the fields, in schema order. */
  function Issues(checks: seq<(string, Check)>): (r: seq<Issue>)
    ensures r == [] <==> forall i :: 0 <= i < |checks| ==> checks[i].1.issues == []
  {
    if checks == [] then [] else checks[0].1.issues + Issues(checks[1..])
  }

  /**
   * The cleaned record: each schema key with its checked value, kept when the
   * value is defined or the key was present in the input; keys the schema does
   * not name are dropped.
   */
  function Output(input: Record, checks: seq<(string, Check)>): (m: Record)
    ensures forall k :: k in m ==> exists i :: 0 <= i < |checks| && checks[i].0 == k
  {
    if checks == [] then map[]
    else
      var m := Output(input, checks[1..]);
      var (k, c) := checks[0];
      if c.out != VUndefined || k in input then m[k := c.out] else m
  }

  lemma {:induction false} OutputAt(input: Record, checks: seq<(string, Check)>, i: nat)
    requires i < |checks|
    requires forall a, b :: 0 <= a < b < |checks| ==> checks[a].0 != checks[b].0
    ensures var (k, c) := checks[i];
      (k in Output(input, checks) <==> c.out != VUndefined || k in input)
      && (k in Output(input, checks) ==> Output(input, checks)[k] == c.out)
  {
    if i > 0 {
      OutputAt(input, checks[1..], i - 1);
    }
  }

  /** Every issue of a field is among the object's issues. */
  lemma {:induction false} IssuesInclude(checks: seq<(string, Check)>, i: nat)
    requires i < |checks|
    ensures forall x :: x in checks[i].1.issues ==> x in Issues(checks)
  {
    if i > 0 {
      IssuesInclude(checks[1..], i - 1);
    }
  }

  /** A `z.object` schema: accepted with the cleaned record when no field has an issue. */
  function Object(input: Record, checks: seq<(string, Check)>): (r: Parsed)
    ensures r.Accepted? <==> forall i :: 0 <= i < |checks| ==> checks[i].1.issues == []
    ensures r.Rejected? ==> r.issues == Issues(checks) && r.issues != []
  {
    var issues := Issues(checks);
    if issues == [] then Accepted(Output(input, checks)) else Rejected(issues)
  }

  // ---- the schemas ----

  const UsernameMessage := "username is required!"
  const PasswordMessage := "password is required!"
  const CandidateNameMessage := "Ism bo'sh bo'lmasligi kerak!"
  const EventNameMessage := "Nomi bo'sh bo'lmasligi kerak!"
  const ChannelIdMessage := "id bo'sh bo'lmasligi kerak!"
  const ChannelNameMessage := "kanal nomi bo'sh bo'lmasligi kerak!"
  const ChannelLinkMessage := "link bo'sh bo'lmasligi kerak!"

  predicate NonEmptyString(v: Value)
  {
    v.VString? && |v.s| >= 1
  }

  function LoginChecks(input: Record): seq<(string, Check)>
  {
    [ ("username", RequiredString("username", Lookup(input, "username"), UsernameMessage, None, UsernameMessage)),
      ("password", RequiredString("password", Lookup(input, "password"), PasswordMessage, None, PasswordMessage)) ]
  }

  function LoginSchema(input: Record): Parsed
  {
    Object(input, LoginChecks(input))
  }

  /** A login passes iff username and password are both non-empty strings. */
  lemma LoginAccepted(input: Record)
    ensures LoginSchema(input).Accepted? <==>
      NonEmptyString(Lookup(input, "username")) && NonEmptyString(Lookup(input, "password"))
  {
    var cs := LoginChecks(input);
    assert cs[0].1.issues == [] <==> NonEmptyString(Lookup(input, "username"));
    assert cs[1].1.issues == [] <==> NonEmptyString(Lookup(input, "password"));
  }

  function CandidateChecks(input: Record): seq<(string, Check)>
  {
    [ ("name", RequiredString("name", Lookup(input, "name"), CandidateNameMessage, Some(CandidateNameMessage),
        CandidateNameMessage)) ]
  }

  function CandidateSchema(input: Record): Parsed
  {
    Object(input, CandidateChecks(input))
  }

  /** A candidate passes iff its name is a non-empty string; otherwise the one message says so. */
  lemma CandidateAccepted(input: Record)
    ensures CandidateSchema(input).Accepted? <==> NonEmptyString(Lookup(input, "name"))
    ensures CandidateSchema(input).Rejected? ==>
      CandidateSchema(input).issues == [Issue("name", CandidateNameMessage)]
  {
    var cs := CandidateChecks(input);
    assert cs[0].1.issues == [] <==> NonEmptyString(Lookup(input, "name"));
    assert Issues(cs) == cs[0].1.issues + Issues(cs[1..]);
  }

  function ChannelChecks(input: Record): seq<(string, Check)>
  {
    [ ("id", RequiredString("id", Lookup(input, "id"), ChannelIdMessage, Some(ChannelIdMessage), ChannelIdMessage)),
      ("name", RequiredString("name", Lookup(input, "name"), ChannelNameMessage, Some(ChannelNameMessage),
        ChannelNameMessage)),
      ("link", RequiredString("link", Lookup(input, "link"), ChannelLinkMessage, Some(ChannelLinkMessage),
        ChannelLinkMessage)) ]
  }

  function ChannelSchema(input: Record): Parsed
  {
    Object(input, ChannelChecks(input))
  }

  /** A channel passes iff id, name and link are all non-empty strings, and then it is exactly those three. */
  lemma ChannelAccepted(input: Record)
    ensures ChannelSchema(input).Accepted? <==>
      NonEmptyString(Lookup(input, "id")) && NonEmptyString(Lookup(input, "name"))
      && NonEmptyString(Lookup(input, "link"))
    ensures ChannelSchema(input).Accepted? ==>
      ChannelSchema(input).data == map["id" := input["id"], "name" := input["name"], "link" := input["link"]]
  {
    var cs := ChannelChecks(input);
    assert cs[0].1.issues == [] <==> NonEmptyString(Lookup(input, "id"));
    assert cs[1].1.issues == [] <==> NonEmptyString(Lookup(input, "name"));
    assert cs[2].1.issues == [] <==> NonEmptyString(Lookup(input, "link"));
    if ChannelSchema(input).Accepted? {
      var m := Output(input, cs);
      OutputAt(input, cs, 0);
      OutputAt(input, cs, 1);
      OutputAt(input, cs, 2);
      assert m.Keys == {"id", "name", "link"};
    }
  }

  const EventKeys := ["name", "descr", "finishDate", "isActive", "image", "subscribeChannels", "sentChannels"]

  function EventChecks(input: Record, now: int): (cs: seq<(string, Check)>)
    ensures |cs| == |EventKeys| && forall i :: 0 <= i < |cs| ==> cs[i].0 == EventKeys[i]
  {
    [ ("name", RequiredString("name", Lookup(input, "name"), EventNameMessage, Some(EventNameMessage),
        EventNameMessage)),
      ("descr", OptionalString("descr", Lookup(input, "descr"))),
      ("finishDate", FinishDate(Lookup(input, "finishDate"), now)),
      ("isActive", OptionalBoolDefault("isActive", Lookup(input, "isActive"), true)),
      ("image", AnyValue(Lookup(input, "image"))),
      ("subscribeChannels", OptionalArray("subscribeChannels", Lookup(input, "subscribeChannels"))),
      ("sentChannels", AnyValue(Lookup(input, "sentChannels"))) ]
  }

  /** `EventSchema`, checked at the instant `now`. */
  function EventSchema(input: Record, now: int): Parsed
  {
    Object(input, EventChecks(input, now))
  }

  /**
   * An event passes iff the name is a non-empty string, the description is
   * absent or a string, the finish date is a valid date strictly after
   * now + 10 min, `isActive` is absent or a boolean, and `subscribeChannels`
   * is absent or an array; `image` and `sentChannels` may be anything.
   */
  lemma EventAccepted(input: Record, now: int)
    ensures EventSchema(input, now).Accepted? <==>
      NonEmptyString(Lookup(input, "name"))
      && (Lookup(input, "descr").VUndefined? || Lookup(input, "descr").VString?)
      && (Lookup(input, "finishDate").VDate? && Lookup(input, "finishDate").t.Some?
          && DateTimePicker.IsValidFutureDate(Lookup(input, "finishDate").t.value, now))
      && (Lookup(input, "isActive").VUndefined? || Lookup(input, "isActive").VBool?)
      && (Lookup(input, "subscribeChannels").VUndefined? || Lookup(input, "subscribeChannels").VArray?)
  {
    var cs := EventChecks(input, now);
    FinishDateAgreesWithPicker(Lookup(input, "finishDate"), now);
    assert cs[0].1.issues == [] <==> NonEmptyString(Lookup(input, "name"));
    assert cs[1].1.issues == [] <==> Lookup(input, "descr").VUndefined? || Lookup(input, "descr").VString?;
    assert cs[2].1 == FinishDate(Lookup(input, "finishDate"), now);
    assert cs[3].1.issues == [] <==> Lookup(input, "isActive").VUndefined? || Lookup(input, "isActive").VBool?;
    assert cs[4].1.issues == [] && cs[6].1.issues == [];
    assert cs[5].1.issues == [] <==>
      Lookup(input, "subscribeChannels").VUndefined? || Lookup(input, "subscribeChannels").VArray?;
  }

  /** The seven schema keys are pairwise different. */
  lemma EventKeysDistinct()
    ensures forall a, b :: 0 <= a < b < |EventKeys| ==> EventKeys[a] != EventKeys[b]
  {
  }

  /** Accepted fields other than `isActive` come out as they went in. */
  lemma EventFieldOut(input: Record, now: int, i: nat)
    requires i < |EventKeys| && i != 3 && EventChecks(input, now)[i].1.issues == []
    ensures EventChecks(input, now)[i].1.out == Lookup(input, EventKeys[i])
  {
  }

  /** The cleaned record under field `i` of an accepted event. */
  lemma EventSlot(input: Record, now: int, i: nat)
    requires EventSchema(input, now).Accepted? && i < |EventKeys|
    ensures var data := EventSchema(input, now).data;
      var c := EventChecks(input, now)[i].1;
      (EventKeys[i] in data <==> c.out != VUndefined || EventKeys[i] in input)
      && (EventKeys[i] in data ==> data[EventKeys[i]] == c.out)
  {
    var cs := EventChecks(input, now);
    EventKeysDistinct();
    assert forall a, b :: 0 <= a < b < |cs| ==> cs[a].0 != cs[b].0;
    OutputAt(input, cs, i);
  }

  /**
   * An accepted event keeps only the schema's keys, carries every defined
   * input value unchanged, and has `isActive` true when it was absent.
   */
  lemma EventCleaned(input: Record, now: int)
    requires EventSchema(input, now).Accepted?
    ensures var data := EventSchema(input, now).data;
      (forall k :: k in data ==> k in EventKeys)
      && (forall k :: k in EventKeys && k != "isActive" && Lookup(input, k) != VUndefined ==>
           k in data && data[k] == input[k])
      && "isActive" in data
      && data["isActive"] == if Lookup(input, "isActive").VUndefined? then VBool(true) else input["isActive"]
  {
    var cs := EventChecks(input, now);
    var data := EventSchema(input, now).data;
    forall k | k in data
      ensures k in EventKeys
    {
      var i :| 0 <= i < |cs| && cs[i].0 == k;
    }
    forall k | k in EventKeys && k != "isActive" && Lookup(input, k) != VUndefined
      ensures k in data && data[k] == input[k]
    {
      var i :| 0 <= i < |EventKeys| && EventKeys[i] == k;
      EventFieldOut(input, now, i);
      EventSlot(input, now, i);
    }
    EventSlot(input, now, 3);
  }

  /**
   * Read property by property, an accepted event is its input on every schema
   * key but `isActive`, which is `true` when it was absent.
   */
  lemma EventLookups(input: Record, now: int)
    requires EventSchema(input, now).Accepted?
    ensures var data := EventSchema(input, now).data;
      (forall i :: 0 <= i < |EventKeys| && i != 3 ==> Lookup(data, EventKeys[i]) == Lookup(input, EventKeys[i]))
      && Lookup(data, "isActive") ==
           if Lookup(input, "isActive").VUndefined? then VBool(true) else Lookup(input, "isActive")
  {
    forall i | 0 <= i < |EventKeys| && i != 3
      ensures Lookup(EventSchema(input, now).data, EventKeys[i]) == Lookup(input, EventKeys[i])
    {
      EventFieldOut(input, now, i);
      EventSlot(input, now, i);
    }
    EventCleaned(input, now);
  }
}
