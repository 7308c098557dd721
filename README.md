# sorovnoma-admin core, modelled in Dafny

sorovnoma-admin is the administration dashboard of a voting service. Admins
use it to create and edit voting events (name, description, cover image,
finish time, the Telegram channels to subscribe to and to post in), to manage
channels and candidates, and to upload cover images to a media server. This
project models the logic underneath that dashboard and proves what it
guarantees. The UI and the network are not modelled.

- **Finish-time picker** (`DateTimePicker`, over `LocalTime`). The bound
  "now + 10 minutes" and the strict future-date test. The two branches of a
  calendar pick, including the clamp to the bound's hour and minute. The
  Apply button, with its hour/minute parsing, its rejections and its
  adjustment to bound + 5 minutes. Clear. The hour and minute keystroke
  filters. The component is a class whose fields are the component state.
  Instants are integer milliseconds with a fixed UTC offset. `setFullYear`,
  `setMonth`, `setDate`, `setHours` and `setMinutes` follow ECMAScript's
  MakeDay/MakeTime (section 21.4.1 of ECMA-262) over the proleptic Gregorian
  calendar. A pick of a day before the bound runs `setFullYear`, `setMonth`
  and `setDate` one after another, as the component does, and so carries
  the month overflow listed under Findings.
- **Event form submission** (`EventForm`) and **event service conversion**
  (`EventsService`).
  - Pressing submit runs the zod resolver on the form's values first
    (`EventForm.HandleSubmit`). A rejected record gives only its issues. An
    accepted one reaches `onSubmit` as the schema's cleaned values: the
    schema's keys in its order, `isActive` defaulted to true, other keys
    dropped.
  - `onSubmit` builds a FormData payload in a loop. It then deletes an image
    that is not a file and dispatches on the action.
  - The service turns the payload back into an object: it re-encodes the
    finish date and JSON-parses the channel lists.
  - Proved end to end: a channel list arrives at the service as exactly its
    list of ids, the finish date arrives as the ISO text of the form's
    instant, and every other value arrives as sent.
  - `JSON.stringify`/`JSON.parse` (`Json`) and `toISOString`/`Date.parse` on
    the ISO format (`Iso8601`) are modelled concretely. Their round trips are
    proved, not assumed.
- **Validators** (`Validation`). The four zod schemas are functions that
  return issues and a cleaned record. Lemmas give each schema's exact
  acceptance condition.
- **Media service** (`Media`). `uploadFile`, `uploadMultipleFiles` and
  `deleteFile` as ordered early-exit checks followed by a classification of
  the server's answer. The answer is an input.
- **Image uploader** (`Uploader`). The `beforeUpload` filter, the initial
  list from `image_url`, and the delete-key extraction. A class holds the
  upload list, the flags and the delete modal. Its handlers call the media
  service model, and the list never holds more than one entry.
- **Event list page and table** (`EventsPage`, `EventsTable`). Tab filtering
  as order-preserving sub-lists, edit/delete handlers, the status badge, the
  agreement between tabs and badges, and the edit route.
- **String helpers** (`TextUtils`): `wordSlicer` and `capitalizedText`.

Where the component's comments and its code differ, the model follows the
code. `isValidFutureDate` is commented "at least 10 minutes in the future"
(date-time-picker.tsx:21), and the adjustment "Ensure final date is valid
and in the future" (date-time-picker.tsx:125). The code tests strictly
after the bound, so a result equal to the bound is possible
(`DateTimePicker.SelectLaterCanMeetBound`). An earlier-day pick can also
fall up to a minute short of it (`DateTimePicker.SelectEarlierCanUndershoot`).

The form passes `setFile` to the uploader, but the uploader never calls it
(uploader.tsx:23), and the form passes no `onUploadSuccess`
(event.tsx:196-200). So the form's `image` stays the initial URL or
undefined, and a non-file image is dropped on submit. The `notifies` flag of
the uploader class models whether a callback is present.

Supporting modules: `Wrappers` (Option), `JsText` (trim, includes, case
mapping), `Decimal` (`String(n)`, `padStart`, `parseInt`), `WebFile` (files
and FormData parts), `EventTypes` (record shapes).

## Model

| member | source | states |
|---|---|---|
| DateTimePicker.MinimumAllowedDateTime | src/components/ui/date-time-picker.tsx:16-19 | the bound is exactly now + 600000 ms |
| DateTimePicker.BoundIsExclusive | src/components/ui/date-time-picker.tsx:22-25 | an instant equal to the bound is not a valid future date; one millisecond later is |
| DateTimePicker.ToValidIsoString | src/components/ui/date-time-picker.tsx:28-39 | gives a string iff the input is a valid date, and that string parses back to the input's instant |
| DateTimePicker.ValidateAndFormatDate | src/components/ui/date-time-picker.tsx:42-53 | a falsy input gives undefined; any other input gives its instant, or undefined when it is invalid |
| DateTimePicker.ValidateFormattedDate | src/components/ui/date-time-picker.tsx:28-53 | an ISO string from toValidISOString is validated as the same instant |
| DateTimePicker.ValidateParsed | src/components/ui/date-time-picker.tsx:42-53 | a non-empty ISO string is validated as the instant it denotes |
| DateTimePicker.EpochNumberIsDropped | src/components/ui/date-time-picker.tsx:43-44 | the number 0 is falsy and so is dropped, although it is a valid instant |
| DateTimePicker.Civil20119 | src/components/ui/date-time-picker.tsx:96-99 | day 20119 is 2025-01-31 (a date used in the finding) |
| DateTimePicker.Civil20134 | src/components/ui/date-time-picker.tsx:96-99 | day 20134 is 2025-02-15 |
| DateTimePicker.Civil20150 | src/components/ui/date-time-picker.tsx:96-99 | day 20150 is 2025-03-03 |
| DateTimePicker.BoundFields | src/components/ui/date-time-picker.tsx:96-99 | the calendar fields of the bound used in the finding |
| DateTimePicker.JanuaryFields | src/components/ui/date-time-picker.tsx:96-99 | the calendar fields of 2025-01-31T12:00Z |
| DateTimePicker.MarchFields | src/components/ui/date-time-picker.tsx:96-99 | the calendar fields of 2025-03-03T12:00Z |
| DateTimePicker.MakeDayJanuary31 | src/components/ui/date-time-picker.tsx:96-99 | MakeDay(2025, 0, 31) is day 20119 |
| DateTimePicker.MakeDayFebruary31 | src/components/ui/date-time-picker.tsx:98 | MakeDay(2025, 1, 31), "31 February", is day 20150, 3 March |
| DateTimePicker.MakeDayMarch15 | src/components/ui/date-time-picker.tsx:99 | MakeDay(2025, 2, 15) is day 20162 |
| DateTimePicker.YearStep | src/components/ui/date-time-picker.tsx:97 | setFullYear(2025) on 31 January 2025 changes nothing |
| DateTimePicker.MonthStep | src/components/ui/date-time-picker.tsx:98 | setMonth(1) on 31 January lands on 3 March |
| DateTimePicker.DateStep | src/components/ui/date-time-picker.tsx:99 | setDate(15) on 3 March gives 15 March |
| DateTimePicker.BoundDayAsWrittenOverflows | src/components/ui/date-time-picker.tsx:96-99 | the three separate setters move 31 January onto 15 March instead of the bound's 15 February |
| DateTimePicker.BoundDayFields | src/components/ui/date-time-picker.tsx:96-99 | the corrected one-step move lands on the bound's day and keeps the time of day |
| DateTimePicker.BoundDayAsWrittenAgrees | src/components/ui/date-time-picker.tsx:96-99 | when the base's day of month exists in its own month of the bound's year and in the bound's month, the three setter calls land exactly where the one-step move does |
| DateTimePicker.SelectEarlierOverflows | src/components/ui/date-time-picker.tsx:93-108 | with 31 January selected and the bound at 15 February 12:10, an earlier-day pick selects 15 March 12:00, 28 days after the bound's day |
| DateTimePicker.Civil20120 | src/components/ui/date-time-picker.tsx:96-99 | day 20120 is 2025-02-01 |
| DateTimePicker.FebruaryFirstFields | src/components/ui/date-time-picker.tsx:96-99 | 2025-02-01T08:00Z is the first of its month (the selection in the undershoot example) |
| LocalTime.CivilOfDays | src/components/ui/date-time-picker.tsx:96-99 | a calendar date that exists is the date of its own day number, the converse of the calendar round trip |
| LocalTime.SetFullYearFields | src/components/ui/date-time-picker.tsx:97 | `setFullYear(y)` on a day of month that exists in that month of year y changes only the year |
| LocalTime.SetMonthFields | src/components/ui/date-time-picker.tsx:98 | `setMonth(m)` on a day of month that exists in month m changes only the month |
| DateTimePicker.SameTimeInDay | src/components/ui/date-time-picker.tsx:100-105 | equal time of day means equal hour, minute, seconds and milliseconds |
| DateTimePicker.ClampMeaning | src/components/ui/date-time-picker.tsx:100-105 | on the bound's day, an instant before the bound gets the bound's hour and minute and keeps its seconds and milliseconds; an instant not before it is kept; the result is in the bound's minute or later |
| DateTimePicker.ClampFacts | src/components/ui/date-time-picker.tsx:102-105 | the clamped instant has the bound's day, hour and minute, the original sub-minute part, and is less than a minute short of the bound |
| DateTimePicker.SelectEarlierMeaning | src/components/ui/date-time-picker.tsx:93-108 | when the setter calls do not overflow, picking a day before the bound gives an instant on the bound's day, in the bound's minute or later, at most a minute short of the bound, keeping the previous selection's (or now's) seconds and milliseconds |
| DateTimePicker.UndershootFields | src/components/ui/date-time-picker.tsx:93-108 | the fields of the instants in the undershoot example |
| DateTimePicker.SelectEarlierCanUndershoot | src/components/ui/date-time-picker.tsx:93-108 | an earlier-day pick can give an instant 30 s before the bound |
| DateTimePicker.UndershootResultFields | src/components/ui/date-time-picker.tsx:93-108 | the fields of the undershooting result |
| DateTimePicker.FieldsDetermineTime | src/components/ui/date-time-picker.tsx:100-105 | an instant is determined by its day, hour, minute and sub-minute part |
| DateTimePicker.SelectLaterMeaning | src/components/ui/date-time-picker.tsx:109-131 | picking a day not before the bound gives the day with the kept hour and minute (previous selection's, else now + 30 min), or exactly bound + 5 min when that is before the bound; never before the bound |
| DateTimePicker.SelectLaterCanMeetBound | src/components/ui/date-time-picker.tsx:109-131 | a later-day pick can equal the bound, which the future-date test refuses |
| DateTimePicker.ApplyTime | src/components/ui/date-time-picker.tsx:137-180 | hours not in 0..23 reject first; then minutes not in 0..59; with both in range the candidate is the selected day at the typed hour and minute with its seconds and milliseconds kept, accepted when it is not before the bound and replaced by bound + 5 min (a valid future date) when it is |
| DateTimePicker.AcceptedTimeFields | src/components/ui/date-time-picker.tsx:154-156 | an accepted instant keeps the selected day, seconds and milliseconds and carries the typed hour and minute |
| DateTimePicker.DecideTime | src/components/ui/date-time-picker.tsx:137-180 | the parse, check and compose steps compute ApplyTime |
| DateTimePicker.FieldValue | src/components/ui/date-time-picker.tsx:139-140 | parseInt of a two-digit field is its value and is in range |
| DateTimePicker.ValidFieldsAreApplied | src/components/ui/date-time-picker.tsx:143-151 | well-formed fields are never rejected |
| DateTimePicker.TwoDigitsOk | src/components/ui/date-time-picker.tsx:166-167 | the padded text of an in-range number is a well-formed field |
| DateTimePicker.FieldText | src/components/ui/date-time-picker.tsx:166-167 | the text written back into a field is its two-digit padding and is well formed |
| DateTimePicker.ReapplyAfterAdjustment | src/components/ui/date-time-picker.tsx:161-180 | after an adjustment, pressing Apply again at the same now accepts the adjusted instant |
| DateTimePicker.TwoCharValue | src/components/ui/date-time-picker.tsx:271 | the value of a two-digit string |
| DateTimePicker.HourPatternMeaning | src/components/ui/date-time-picker.tsx:271 | the hour pattern admits exactly the one- or two-digit numerals 0..23 |
| DateTimePicker.MinutePatternMeaning | src/components/ui/date-time-picker.tsx:288 | the minute pattern admits exactly the one- or two-digit numerals 0..59 |
| DateTimePicker.AcceptedInputIsField | src/components/ui/date-time-picker.tsx:269-273 | an accepted keystroke stores the value left-padded to two digits, a well-formed field |
| DateTimePicker.PadEmpty | src/components/ui/date-time-picker.tsx:272 | the empty field is stored as "00" |
| DateTimePicker.PadOneDigit | src/components/ui/date-time-picker.tsx:272 | a one-digit field is stored with a leading zero |
| DateTimePicker.PadTwoDigits | src/components/ui/date-time-picker.tsx:289 | a two-digit field is stored unchanged |
| DateTimePicker.TimeChangeEffects | src/components/ui/date-time-picker.tsx:134-186 | Apply does nothing without a selection, changes the form value only to an instant at or after the bound, rewrites the fields only with the adjustment message, and closes the popover only without a message |
| DateTimePicker.TimeChangeKeepsFields | src/components/ui/date-time-picker.tsx:161-170 | Apply keeps both fields well formed |
| DateTimePicker.TimeChangeNeverRejects | src/components/ui/date-time-picker.tsx:143-151 | with well-formed fields the two "must be between" messages cannot appear |
| DateTimePicker.TimeChangeAfterAdjustment | src/components/ui/date-time-picker.tsx:161-180 | after an adjustment a second Apply accepts, clears the message and closes the popover |
| DateTimePicker.PickInstant | src/components/ui/date-time-picker.tsx:88-131 | the instant the pick computes, setter call by setter call, is the earlier-day or the later-day result, by comparison with the bound |
| DateTimePicker.SelectDateEffects | src/components/ui/date-time-picker.tsx:83-132 | a pick changes only the selection and the form value, to the same instant; undoing it clears only the form value; a day not before the bound gives an instant not before it |
| DateTimePicker.Picker.constructor | src/components/ui/date-time-picker.tsx:70-72 | the fields start from the form value's hour and minute, or 12:00 |
| DateTimePicker.Picker.SyncFromProp | src/components/ui/date-time-picker.tsx:75-81 | a new form value sets the selection and the fields; undefined changes nothing |
| DateTimePicker.Picker.OnSelectDate | src/components/ui/date-time-picker.tsx:83-132 | the new state is SelectDate of the old one |
| DateTimePicker.Picker.HandleTimeChange | src/components/ui/date-time-picker.tsx:134-186 | the new state is TimeChange of the old one |
| DateTimePicker.Picker.Record | src/components/ui/date-time-picker.tsx:143-180 | the state updates for each decision: the error message, or the new instant with fields and popover |
| DateTimePicker.Picker.ClearDateTime | src/components/ui/date-time-picker.tsx:188-193 | selection and form value become undefined, the error is cleared, the popover closes; the fields stay |
| DateTimePicker.Picker.OnHoursInput | src/components/ui/date-time-picker.tsx:269-273 | a keystroke matching the hour pattern, or an empty field, stores the padded text; anything else changes nothing |
| DateTimePicker.Picker.OnMinutesInput | src/components/ui/date-time-picker.tsx:286-290 | the same for the minute pattern |
| EventForm.EncodeEntry | src/components/forms/event.tsx:91-118 | an undefined value is skipped, a file is appended as a file part, every other value as a text part, always under its own key |
| EventForm.EncodeThrowPersists | src/components/forms/event.tsx:91-118 | once an iteration throws, the whole submission throws |
| EventForm.AppendEntries | src/components/forms/event.tsx:91-118 | the loop computes Encode |
| EventForm.EncodeKeys | src/components/forms/event.tsx:91-118 | the payload holds only keys of defined form values |
| EventForm.EncodeLastPart | src/components/forms/event.tsx:91-118 | under each key the payload holds exactly the encoding of that key's value, and nothing for an undefined value |
| EventForm.EncodeDistinct | src/components/forms/event.tsx:91-118 | each key appears in the payload at most once |
| EventForm.RecordsEncodeAsIds | src/components/forms/event.tsx:97-103 | a list of channel records is sent as the JSON array of their ids |
| EventForm.BareIdsEncodeAsIds | src/components/forms/event.tsx:104-110 | a list of bare ids is sent as the JSON of that list |
| EventForm.ChannelListPart | src/components/forms/event.tsx:97-110 | a channel list that encodes is appended as its JSON text |
| EventForm.LastPart | src/components/forms/event.tsx:120-128 | the part found under a key is absent iff no entry has the key, and otherwise belongs to an entry with that key |
| EventForm.RemoveKey | src/components/forms/event.tsx:125 | formData.delete removes every entry under the key |
| EventForm.DeleteTextImage | src/components/forms/event.tsx:120-128 | the loop computes DropTextImage |
| EventForm.DropTextImageLastPart | src/components/forms/event.tsx:120-128 | every key keeps its last part, except that "image" is gone when an "image" entry held a string |
| EventForm.TextImageOfValue | src/components/forms/event.tsx:92-93 | a text image in the payload means the image value was defined and not a file |
| EventForm.ValueOfTextImage | src/components/forms/event.tsx:92-115 | a defined image value that is not a file is appended as text |
| EventForm.PayloadLastPart | src/components/forms/event.tsx:91-140 | a sent payload holds nothing for an undefined value or a non-file image, and the value's encoding for every other value |
| EventForm.DispatchFor | src/components/forms/event.tsx:130-140 | CREATE calls create with the payload, EDIT calls update with the id, any other action calls nothing |
| EventForm.SetValue | src/components/forms/event.tsx:232-234 | after setValue the key reads v (last entry wins) and every other key reads as before; an existing entry under the key is overwritten in place and nothing else moves, a new key is appended last, and distinct keys stay distinct |
| EventForm.SelectedIdsAreSent | src/components/forms/event.tsx:232-234 | after a picker stores the selected ids, a submission the button sends carries that channel field as the JSON array of exactly those ids |
| EventForm.Form.constructor | src/components/forms/event.tsx:59-66 | the default values come from the event being edited, channel fields as the server's records; all undefined when creating |
| EventForm.Form.OnSubscribeChange | src/components/forms/event.tsx:232-234 | the new values are SetValue of the old; the subscribe field then reads the bare selected ids and every other field reads as before |
| EventForm.Form.OnSentChange | src/components/forms/event.tsx:253-271 | outside editing the sent field then reads the bare selected ids; every other field reads as before; while editing nothing changes |
| EventForm.Form.OnSubmit | src/components/forms/event.tsx:57-146 | pressing submit gives the resolver's issues for a rejected record, and otherwise the submission of `onSubmit` on the schema's cleaned values, as HandleSubmit states |
| EventForm.SchemaRecordLookup | src/components/forms/event.tsx:57-58 | every property of the values object the resolver checks reads as the value the form holds under it |
| EventForm.HandleSubmit | src/components/forms/event.tsx:146 | a rejected submission carries at least one issue |
| EventForm.HandleSubmitGate | src/components/forms/event.tsx:57-58 | `onSubmit` runs iff the name is a non-empty string, the description is absent or a string, the finish date is a valid Date strictly after now + 10 min, isActive is absent or a boolean and the subscribe channels are absent or a list |
| EventForm.ParsedValuesFollowSchema | src/lib/validation.ts:25-49 | for an accepted record `onSubmit` receives the seven schema keys in schema order without repeats, each holding the cleaned value, and isActive true when the form had none |
| EventForm.AcceptedFinishDate | src/lib/validation.ts:33-41 | an accepted record's finish date is a valid Date after now + 10 min |
| EventForm.ActiveDefault | src/lib/validation.ts:42 | an accepted record has isActive true when the form held none |
| EventForm.ReceivedValues | src/components/forms/event.tsx:81-91 | a payload the button sends is one `onSubmit` sends for values holding the schema's keys, with the form's own value under each key but isActive |
| EventForm.EditDefaultsRejected | src/lib/validation.ts:33-37 | submitting an event for editing before its finish date is picked again is rejected with "Noto'g'ri sana formati!", because the date is still the server's text |
| Validation.IssuesInclude | src/lib/validation.ts:25-49 | every issue of a field is among the object's issues |
| Validation.EventLookups | src/lib/validation.ts:25-49 | an accepted event reads as its input under every schema key but isActive, which is true when absent |
| EventsService.Convert | src/services/api/events.ts:38-60 | a key other than the finish date and the channel fields is copied; the finish date is re-encoded or kept raw |
| EventsService.ToObject | src/services/api/events.ts:36-61 | the loop computes ObjectOf |
| EventsService.ObjectOfLastPart | src/services/api/events.ts:36-61 | the object has a key iff the payload does, holding the conversion of the last entry under it |
| EventsService.BodyOf | src/services/api/events.ts:32-67 | a non-FormData input is sent unchanged |
| EventsService.Create | src/services/api/events.ts:23-68 | create posts the converted body to /event |
| EventsService.Update | src/services/api/events.ts:74-119 | update puts the same converted body to /event/{id} |
| EventsService.SlotOfValue | src/services/api/events.ts:36-61 | what the object holds under each form key for a payload the form sent |
| EventsService.ChannelListArrives | src/services/api/events.ts:50-56 | a channel list arrives as the conversion of its encoded text |
| EventsService.ConvertDecodes | src/services/api/events.ts:50-56 | channel text that parses as JSON is decoded |
| EventsService.ChannelRecordsArriveAsIds | src/services/api/events.ts:50-56 | a list of channel records sent by the form arrives as exactly the list of their ids |
| EventsService.BareIdsArriveAsIds | src/services/api/events.ts:50-56 | a list of bare ids arrives unchanged |
| EventsService.FinishDateArrives | src/services/api/events.ts:38-47 | the finish date arrives as the ISO text of the form's instant, which parses back to it |
| EventsService.OtherValuesArrive | src/services/api/events.ts:58-60 | any other string value arrives verbatim; an undefined value or a non-file image does not arrive |
| EventsService.FileTextIsNotJson | src/services/api/events.ts:53 | a file's text "[object File]" is not JSON |
| EventsService.FileTextIsNotIso | src/services/api/events.ts:41 | a file's text is not an ISO date |
| EventsService.FileValuesArrive | src/services/api/events.ts:36-61 | a file value arrives as that file under its name, whatever its key |
| Validation.RequiredString | src/lib/validation.ts:26-31 | passes iff the value is a string of length at least 1, with at most one issue |
| Validation.OptionalString | src/lib/validation.ts:32 | passes iff the value is absent or a string |
| Validation.OptionalBoolDefault | src/lib/validation.ts:42 | passes iff absent or boolean; absent becomes the default |
| Validation.OptionalArray | src/lib/validation.ts:47 | passes iff absent or an array |
| Validation.FinishDate | src/lib/validation.ts:33-41 | the value is kept and at most one issue is raised |
| Validation.FinishDateAgreesWithPicker | src/lib/validation.ts:33-41 | the finish date passes iff it is a valid date for which the picker's isValidFutureDate holds |
| Validation.FinishDateMessages | src/lib/validation.ts:33-41 | each of the three failures, including a date equal to the bound, has its own message |
| Validation.Object | src/lib/validation.ts:25-49 | an object schema accepts iff no field has an issue, and otherwise reports all issues in order |
| Validation.LoginAccepted | src/lib/validation.ts:3-14 | a login passes iff username and password are both non-empty strings |
| Validation.CandidateAccepted | src/lib/validation.ts:16-23 | a candidate passes iff its name is a non-empty string, else one message says so |
| Validation.ChannelAccepted | src/lib/validation.ts:51-64 | a channel passes iff id, name and link are non-empty strings, and is then exactly those three |
| Validation.EventAccepted | src/lib/validation.ts:25-49 | an event passes iff the name is non-empty, descr is absent or a string, the finish date is strictly after now + 10 min, isActive is absent or boolean and subscribeChannels is absent or an array |
| Validation.EventCleaned | src/lib/validation.ts:25-49 | an accepted event keeps only the schema keys, every defined input value unchanged, and isActive true when absent |
| Media.Caught | src/services/api/media.ts:79-89 | the error's message when non-empty, else the fallback |
| Media.Project | src/services/api/media.ts:59-63 | the configured client when truthy, else "ovoz" |
| Media.UploadCheck | src/services/api/media.ts:39-53 | no file, then over 5242880 bytes, then a type other than jpeg/png/jpg, each with its message; passes otherwise |
| Media.UploadRequest | src/services/api/media.ts:39-57 | a body is sent iff every check passes; it is the file under "file", then the project from the client or "ovoz" |
| Media.UploadFile | src/services/api/media.ts:37-90 | a success carries the server's data and means the body was sent; a failure has no data and a non-empty message |
| Media.UploadSucceedsIff | src/services/api/media.ts:37-90 | an upload succeeds iff the file passes every check and the answer has truthy url and key |
| Media.UploadCheckFailsFirst | src/services/api/media.ts:39-53 | a failed check answers with its message whatever the server would say |
| Media.UploadFailureMessages | src/services/api/media.ts:37-90 | a failed upload's message is one of the service's own texts or the error's message |
| Media.ExactLimitPassesService | src/services/api/media.ts:44-47 | a file of exactly 5 MiB passes the service's size check |
| Media.FileField | src/services/api/media.ts:105-107 | a field name is "file" followed by the index |
| Media.FileFieldsDistinct | src/services/api/media.ts:105-107 | the i-th file goes under file{i} and no two files share a field |
| Media.FileFieldInjective | src/services/api/media.ts:105-107 | distinct indices give distinct field names |
| Media.ProjectFieldIsSeparate | src/services/api/media.ts:105-109 | no file field is called "project" |
| Media.BuildMultipleForm | src/services/api/media.ts:105-109 | the loop appends every file under its field, then the project |
| Media.MultipleUploadRequest | src/services/api/media.ts:97-121 | there is a body iff the list is non-empty; it ends with the project |
| Media.UploadMultipleFiles | src/services/api/media.ts:97-133 | an empty list fails with its message; otherwise any answer is a success, and an error gives its message or the fallback |
| Media.DeleteRequest | src/services/api/media.ts:142-153 | there is a request iff the id is non-empty, with key and project |
| Media.DeleteFile | src/services/api/media.ts:140-184 | a success carries the server's data; a failure has no data and a non-empty message |
| Media.DeleteSucceedsIff | src/services/api/media.ts:140-172 | a deletion succeeds iff the id is non-empty and the server answers with a truthy key or success |
| Media.DeleteRejectionMessage | src/services/api/media.ts:165-172 | an unconfirmed answer reports the server's message when truthy, else the fixed text |
| Uploader.SmallerThan5MExact | src/components/ui/uploader.tsx:230 | size / 1024 / 1024 < 5 holds iff size < 5242880 |
| Uploader.BeforeUpload | src/components/ui/uploader.tsx:225-235 | a file is accepted iff it is JPEG or PNG and under 5 MiB, and each failure has its own message |
| Uploader.AdmittedFilesPassService | src/components/ui/uploader.tsx:225-235 | a file the uploader accepts passes the media service's checks |
| Uploader.FiltersDisagree | src/components/ui/uploader.tsx:225-235 | exactly 5 MiB and "image/jpg" pass the service but not the uploader |
| Uploader.InitialItem | src/components/ui/uploader.tsx:32-43 | a list entry exists iff image_url is non-blank after trimming; its name defaults to "Uploaded image" |
| Uploader.UploadedUidIsId | src/components/ui/uploader.tsx:69-82 | the entry's uid reads back as the server's id |
| Uploader.UploadErrorText | src/components/ui/uploader.tsx:95-101 | the response's message, or "Unknown upload error" |
| Uploader.FallbackKey | src/components/ui/uploader.tsx:133-140 | the stored key when truthy, else the uid |
| Uploader.DeleteKey | src/components/ui/uploader.tsx:114-140 | the decoded URL path when the URL parses, else the fallback key |
| Uploader.UploadedItemDeleteKey | src/components/ui/uploader.tsx:69-140 | a stored upload is deleted by its URL path, else by its media key |
| Uploader.InitialItemDeleteKey | src/components/ui/uploader.tsx:32-140 | the initial image is deleted by its URL path, else by the component id |
| Uploader.DataUrlsSkipServer | src/components/ui/uploader.tsx:164-168 | a data: URL is removed without a server call |
| Uploader.Uploader.ShowsUploadButton | src/components/ui/uploader.tsx:237 | the button shows iff the list is empty; while it is hidden the list holds exactly one image |
| Uploader.Uploader.constructor | src/components/ui/uploader.tsx:24-30 | empty list, flags down, no pending deletion |
| Uploader.Uploader.SyncImageUrl | src/components/ui/uploader.tsx:32-43 | a non-blank URL sets the list to its entry; otherwise nothing changes |
| Uploader.Uploader.BeginUpload | src/components/ui/uploader.tsx:46-52 | a non-File is refused with a toast; a file raises the uploading flag |
| Uploader.Uploader.FinishUpload | src/components/ui/uploader.tsx:55-110 | a stored image replaces the list with its one entry and notifies; anything else toasts the error and keeps the list; the flag is always lowered |
| Uploader.Uploader.OpenDeleteModal | src/components/ui/uploader.tsx:114-145 | opens the modal with the file's URL and extracted key |
| Uploader.Uploader.CloseDeleteModal | src/components/ui/uploader.tsx:148-152 | forgets the pending deletion |
| Uploader.Uploader.HandleDelete | src/components/ui/uploader.tsx:155-204 | no key: error toast, list kept; a skipped URL: list cleared without a request; otherwise one request, list cleared and success notified whatever the answer; the modal always resets |
| EventsPage.FilterTab | src/pages/events/Events.tsx:61-68 | the filtered list is no longer than the input and holds only events the tab keeps |
| EventsPage.FilteredEvents | src/pages/events/Events.tsx:51-70 | "ending-soon" gives the ending-soon list, "all" the list unchanged |
| EventsPage.FilterTabIsSubsequence | src/pages/events/Events.tsx:61 | the filtered list is an order-preserving sub-list of the events |
| EventsPage.FilterTabCounts | src/pages/events/Events.tsx:61-68 | every copy of a kept event stays and no copy of another does |
| EventsPage.FilteredEventsExact | src/pages/events/Events.tsx:61-68 | for the other tabs, an order-preserving sub-list holding exactly the events the tab's rule keeps |
| EventsPage.FilterTabKeepsAll | src/pages/events/Events.tsx:67-68 | a tab other than active and finished keeps everything |
| EventsPage.UnknownTabShowsAll | src/pages/events/Events.tsx:51-70 | an unknown tab shows the whole list |
| EventsPage.FirstIndexOfId | src/pages/events/Events.tsx:36 | the index of the first event with the id, or -1 when none has it |
| EventsPage.FindById | src/pages/events/Events.tsx:36 | the found event has the id and is the first event in the list that has it; none iff no event has it |
| EventsPage.Page.constructor | src/pages/events/Events.tsx:26-27 | absent data defaults to empty lists |
| EventsPage.Page.HandleTabChange | src/pages/events/Events.tsx:31-33 | only the tab changes |
| EventsPage.Page.OnEditHandler | src/pages/events/Events.tsx:35-41 | selects the first event with the id, or keeps the selection and reports an error |
| EventsPage.Page.OnDeleteHandler | src/pages/events/Events.tsx:43-48 | a deletion is requested only when confirmed |
| EventsTable.GetEventStatus | src/components/tables/events.tsx:23-35 | no badge without finish information; otherwise exactly one label, by finished, then ending, then active |
| EventsTable.TabsAgreeWithStatus | src/components/tables/events.tsx:26-33 | the active tab keeps an event iff the badge is "Faol", the finished tab iff it is "Tugagan" |
| EventsTable.FilteredRowsAgreeWithStatus | src/components/tables/events.tsx:26-33 | every row of the active tab is labelled "Faol", every row of finished "Tugagan" |
| EventsTable.EditRoute | src/components/tables/events.tsx:19-21 | the route starts with /event/edit/ and has more after it |
| EventsTable.EditRouteRoundTrip | src/components/tables/events.tsx:19-21 | reading the number after the prefix gives back the id |
| EventsTable.EditRouteInjective | src/components/tables/events.tsx:90-93 | different events get different routes |
| TextUtils.WordSlicer | src/lib/utils.ts:52-54 | a word of at most 65 characters is unchanged, a longer one becomes 69 characters |
| TextUtils.WordSlicerShape | src/lib/utils.ts:52-54 | the first 65 characters survive, the result is at most 69 characters, and a cut ends in " ..." |
| TextUtils.WordSlicerIdempotent | src/lib/utils.ts:52-54 | slicing twice is slicing once |
| TextUtils.CapitalizedText | src/lib/utils.ts:48-50 | same length, first character upper-cased, the rest lower-cased |
| TextUtils.CapitalizedTextIdempotent | src/lib/utils.ts:48-50 | "" maps to "", and capitalising twice is capitalising once |
| TextUtils.CapitalizedTextCase | src/lib/utils.ts:48-50 | no letter after the first is upper case, and the first is not lower case |
| Json.ParseOfStringify | src/services/api/events.ts:53 | JSON.parse reads back what JSON.stringify wrote |
| Iso8601.ParseFormat | src/services/api/events.ts:41 | Date.parse reads back what toISOString wrote |
| Iso8601.FormatInjective | src/services/api/events.ts:41 | two instants with the same ISO text are equal |
| Decimal.ShowIntRoundTrip | src/components/ui/uploader.tsx:71 | parseInt(String(i)) is i for every integer id, ids being exact integers written in plain decimal |
| JsText.TrimEmptyIffBlank | src/components/ui/uploader.tsx:34 | trim gives "" exactly for strings of white space |

## Left out

- Decimal.ShowIntRoundTrip: ids are modelled as exact integers written in plain decimal, which JavaScript numbers are only below 2^53 and 10^21; beyond those `String` rounds or uses exponent notation (`String(1e21)` is "1e+21", which `parseInt` reads as 1), and the model does not capture that.
- JSON numbers and surrogate pairs in JSON strings are not modelled; the channel lists and ids the form sends contain neither.
- `Iso8601.Parse` accepts only the two full forms `toISOString` writes: `YYYY-MM-DDTHH:mm:ss.sssZ`, and the same with a signed six-digit year. Date-only strings, strings without milliseconds, strings with an offset and every other format give None here, where `Date.parse` would accept some of them.
- NaN and TimeClip beyond the valid range, time zones and DST are not modelled. Local time is UTC, a fixed offset of 0.
- `new Date(v)` of a finish date held as a list or a file (which would parse the value's text) is not modelled; such a finish date counts as an invalid date.
- `hasOwnProperty` applies to JSON objects only.
- Floating point: the 5 MB test `size / 1024 / 1024 < 5` is proved equal to the integer comparison (`Uploader.SmallerThan5MExact`), so byte counts are exact.
- The axios calls and the server are not modelled. A reply (data or an error message) is an input, and requests are recorded values.
- The media client name from the environment is the `client` parameter.
- The interceptor that adds the media auth key (`generateMediaAuthKey`) is not modelled.
- Toasts, popovers and the `setTimeout` that clears the adjustment message are not modelled; toasts and notices are recorded in lists.
- `Picker.HandleTimeChange`: the "Invalid time format" catch (date-time-picker.tsx:182-185) is not modelled. Nothing in the try block throws for the values the model handles.
- `Uploader.Uploader.FinishUpload` and `Uploader.Uploader.HandleDelete`: their own `catch` branches are not modelled. The media service functions they call catch every error and always return an outcome. The `onUploadSuccess` callback they call inside the `try` (uploader.tsx:85-90, 183-185) could throw; the model treats it as a recorded notice that does not.
- `URL` parsing and `decodeURIComponent` in `openDeleteModal` are the partial-function parameter `urlKey`.
- zod's issue codes and other issue metadata are not modelled; an issue is its field and its message, and the library's default messages are written as "Expected …, received …".
- The form takes its finish date from `DatePickerDemo` in date-picker.tsx (event.tsx:176), not from the date-time picker. date-picker.tsx is not part of this model. The picker is modelled as its own component.
- `DateTimePicker.SelectEarlierMeaning`: proved only when the base's day of month exists in its own month of the bound's year and in the bound's month. Otherwise the setter calls overflow into a later month (`DateTimePicker.SelectEarlierOverflows`, and the Findings table).
- `TextUtils.CapitalizedText`, `TextUtils.WordSlicer`: case mapping is ASCII only (`JsText.ToUpperAscii`, `JsText.ToLowerAscii`), and lengths and slices count code points, not UTF-16 code units. `toUpperCase`/`toLowerCase` of other letters, and strings holding characters outside the Basic Multilingual Plane, are not modelled.
- react-hook-form's field registration, error display and re-validation on change are not modelled. `EventForm.HandleSubmit` is one resolver run at submit time, with the clock reading `now`. A file reaches the schema as an object with no own properties; the schema only looks at its type.
- Channel, candidate and admin services, the query hooks, the other pages and forms, routing and rendering are outside this core.

## Findings

| source | as written | input that shows it | evidently intended | confidence | as-written member | corrected member |
|---|---|---|---|---|---|---|
| src/components/ui/date-time-picker.tsx:96-99 | the previous selection is moved onto the bound's calendar day by `setFullYear`, `setMonth` and `setDate` in turn, so an intermediate day past the end of the new month overflows into the next month | previous selection 2025-01-31T12:00Z and bound 2025-02-15T12:10Z: `setMonth(1)` gives 3 March, and `setDate(15)` then gives 15 March | the result is on the bound's day, 15 February (one call `setFullYear(y, m, d)`) | not executed | DateTimePicker.BoundDayAsWrittenOverflows | DateTimePicker.BoundDayFields |
