# Q-Total inquiry lifecycle, modelled in Dafny

The Q-Total backend takes an inquiry from its contact form, stores it in
MongoDB, and asks the Gemini model to classify it and write a reply. It then
mails the client a reply with three proposed meeting times, each shown
on a button, and mails the administrator a notification. When the client opens a
button's link, the backend books that time in Google Calendar and marks the
inquiry completed.

This project models that lifecycle as pure functions and proves properties
of it. Every external service is an input to the model:

- the database's connection state, the id it draws and the outcome of each
  save;
- the model's classification and reply;
- the mail transport;
- the OAuth client and the Calendar API.

| file | module | what it holds |
|---|---|---|
| `wrappers.dfy` | `Wrappers` | `Option` and `Result` |
| `js_text.dfy` | `JsText` | the JavaScript string and number behaviour the code relies on: regular-expression classes, `parseInt`, `trim`, `toLowerCase`, number-to-text, truthiness |
| `gregorian.dfy` | `Gregorian` | the proleptic Gregorian calendar as `Date` reports it: month 0..11, weekday 0..6 from Sunday, day numbers, and `setDate` with its overflow into later months |
| `records.dfy` | `Records` | the posted form and the model's classification |
| `meeting_slots.dfy` | `MeetingSlots` | `generateMeetingTimes` as written, the same generator counting every offset from today, and the loop itself |
| `gemini_service.dfy` | `GeminiService` | `processClientInquiry` with its fallback branch |
| `calendar_service.dfy` | `CalendarService` | the pattern `(\d+)\.\s*(\w+)\s+u\s+(\d+):(\d+)`, `parseDateTimeToISO` and `createCalendarEvent` |
| `email_service.dfy` | `EmailService` | the confirmation buttons, both mails, and both senders |
| `server.dfy` | `Server` | the contact record and store, `POST /api/contact`, `GET /api/confirm`, and the query string |
| `lifecycle.dfy` | `Lifecycle` | how the parts fit: labels read back by the parser, and a button's link selecting the slot it shows |

Modelling choices:

- **The generators.** `GenerateMeetingTimes` is the slot generator exactly as
  written, and it is what the AI service proposes and the handlers store and
  mail. `IntendedMeetingTimes` is the corrected generator, with every offset
  counted from today (see "Findings").
- **The contact handler.** It returns the reply, the new store and the trace
  of external calls it made, in order (`Save`, `AskModel`, `Send`).
- **The confirm handler.** It returns the reply, the new store and the
  calendar call it made, if any.

## Model

| member | source | states |
|---|---|---|
| MeetingSlots.GenerateMeetingTimesLoop | backend/services/geminiService.js:95-124 | The while loop, with its bound of three labels and of fifteen offsets and with `setDate` applied to the date it already moved, returns exactly the labels of the first three workdays among the examined days. It stops before offset 15 only once it holds three labels. |
| MeetingSlots.PickSlots | backend/services/geminiService.js:105-108 | Every day that receives a slot is a workday, neither Saturday nor Sunday, and is one of the examined days. There are at most three such days. |
| MeetingSlots.PickSlotsCount | backend/services/geminiService.js:102-120 | The number of labels is the smaller of three and the number of workdays examined. |
| MeetingSlots.PickSlotsPrefix | backend/services/geminiService.js:102-121 | Labels are only appended. The labels picked from any prefix of the examined days begin the final list. |
| MeetingSlots.FirstWorkdayFirst | backend/services/geminiService.js:98-108 | When the first examined day is a workday, it receives the first slot. |
| MeetingSlots.GeneratedSlotsIncrease | backend/services/geminiService.js:98-121 | The generator as written names strictly later days one after another. When today is a workday, the first label is today's. |
| MeetingSlots.AsWrittenAgreesInsideMonth | backend/services/geminiService.js:103 | While today plus 14 days stays inside today's month, the date after the k-th `setDate` is today plus k days. |
| MeetingSlots.AsWrittenLeavesTwoWeeks | backend/services/geminiService.js:101-103 | On Thursday 30 January 2025 the generator as written proposes Wednesday 5 March, 34 days ahead, as its third label "Sreda, 5. mart u 11:00". |
| MeetingSlots.AsWrittenGap | backend/services/geminiService.js:103 | Each `setDate` of the loop as written moves its date by one day, or, when it crosses a month end, by that month's length plus one: 29 to 32 days. |
| MeetingSlots.AsWrittenOffersThree | backend/services/geminiService.js:98-121 | The generator as written always proposes three times, all of them among the first nine days it examines: no three examined days in a row are Saturdays and Sundays. |
| MeetingSlots.AsWrittenSlotsWithin256Days | backend/services/geminiService.js:98-121 | Every slot the generator as written proposes lies between today and 256 days ahead. |
| MeetingSlots.IntendedDate | backend/services/geminiService.js:103 | Setting the day of a fresh copy of today to today's day plus k lands exactly k days after today. |
| MeetingSlots.IntendedOffersThree | backend/services/geminiService.js:101-102 | Counted from today, the generator always finds three workdays, so it always proposes three times. |
| MeetingSlots.IntendedWithinTwoWeeks | backend/services/geminiService.js:101-108 | Counted from today, every proposed day is a workday between today and today plus 14 days, in increasing order. |
| Gregorian.SetDateDayNumber | backend/services/geminiService.js:103 | `setDate(n)` moves a date by n minus its day of the month. A positive n never moves it into an earlier month. |
| Gregorian.DateOrder | backend/services/calendarService.js:169 | Day numbers order valid dates as calendar order does (year, then month, then day). Distinct dates get distinct numbers. |
| GeminiService.ProcessClientInquiry | backend/services/geminiService.js:12-89 | If either model call fails, the result is the fallback: service "Nepoznato", confidence 0, the unavailable reason, and the greeting addressed by name. Otherwise the result carries the classification's fields and the trimmed reply, which neither starts nor ends with white space. Both branches propose the times `generateMeetingTimes` computes for the day, whatever the model answers. |
| GeminiService.FallbackExactlyOnFailure | backend/services/geminiService.js:67-87 | The result equals the fallback result exactly when a model call failed, or when the model itself answered with the fallback's classification and, once trimmed, the fallback's greeting. |
| CalendarService.SearchIsLeftmost | backend/services/calendarService.js:138-144 | The search finds nothing exactly when the pattern matches at no position. Otherwise it finds the match at the leftmost position where the pattern matches. |
| CalendarService.SearchFindsFirst | backend/services/calendarService.js:138-139 | A match at position j, with none before it, is what `match` returns: the leftmost match. |
| CalendarService.MatchRendered | backend/services/calendarService.js:138 | The pattern, applied to text built as day, ". ", word, " u ", hour, ":", minute, recovers exactly those four groups when nothing after the minutes continues them. |
| CalendarService.ParseIntOfDigits | backend/services/calendarService.js:146-149 | `parseInt` of a captured run of decimal digits is the number the digits denote. |
| CalendarService.MonthNumber | backend/services/calendarService.js:152-162 | A word is given a month only if it is a key of the parser's month table, and then the month that key maps to. A word that is none of the twelve keys gives no month. |
| CalendarService.ParseDateTime | backend/services/calendarService.js:135-182 | There is no result when the pattern does not match, or when the lower-cased month word is not a table key. Otherwise day, hour and minute are the parsed groups, the month comes from the table and the year is inferred from today. There is a result exactly when `Date` can hold those fields; beyond its range the Invalid Date's `toISOString` throws and the answer is null. |
| CalendarService.InferYearIsNextOccurrence | backend/services/calendarService.js:164-171 | The inferred date is this year's or next year's. It is not before today, and one year earlier would be before today: it is the next occurrence of the day. A date equal to today stays in this year. |
| CalendarService.OneHourLater | backend/services/calendarService.js:70-72 | The end time is exactly 60 minutes after the start, on the same year, month and day fields. |
| CalendarService.EventFor | backend/services/calendarService.js:74-99 | The event invites the client and then the administrator, and ends one hour after it starts. |
| CalendarService.CreateCalendarEvent | backend/services/calendarService.js:54-127 | It never fails outright. A credential failure is reported with its message, a label that does not parse with the "Could not parse datetime" message, and an end time beyond the range of `Date` with "Invalid time value". It books exactly when the credentials load, the label parses, the end time is a valid date and the insert succeeds. A booking starts at the parsed time, ends an hour later and carries the id the API returned. |
| EmailService.ConfirmButtons | backend/services/emailService.js:20-29 | There is one button per proposed time, in the same order. Button i links to base + "/api/confirm?id=" + id + "&time=" + i and shows the i-th time. |
| JsText.ParseIntReadsDecimalPrefix | backend/server.js:249 | `parseInt` of a number's decimal text followed by anything that cannot continue it returns that number. |
| JsText.ParseIntOfNatToString | backend/server.js:249 | `parseInt` reads back the index the link carries. |
| JsText.ParseIntRejectsNonNumeric | backend/server.js:249 | A text that starts with neither white space, a sign nor a digit is NaN. |
| JsText.Trim | backend/services/geminiService.js:62 | The result is the text between the leading and the trailing white space, and it neither starts nor ends with white space. |
| JsText.ToLowerFolds | backend/services/calendarService.js:147 | Two words lower-case to the same text exactly when they differ only in the case of their letters. No upper-case letter is left, and lower-casing twice changes nothing. |
| JsText.ValueOfNatToString | backend/services/geminiService.js:110 | The decimal text of a day of the month denotes that day. |
| Server.HandleContact | backend/server.js:79-193 | In mock mode the reply echoes the body and nothing is stored or called. Otherwise at most the new id's record changes. The reply is 201 exactly when the database is connected, the id is fresh and all three saves succeed. |
| Server.AfterModel | backend/server.js:105-182 | The calls go out as: save processing record, ask model, save AI results, then the client mail, the admin mail and a final save. A failed AI save leaves the processing record. A created reply reports id, "email_sent", the service type and the client flag. Each flag is set exactly when its own send succeeded. |
| Server.AfterSends | backend/server.js:129-166 | The status becomes email_sent whatever the sends did. Each flag and message id changes only through its own successful send, and nothing else in the record changes. |
| Server.CreatedRecord | backend/server.js:117-182 | A created inquiry is stored as email_sent, unconfirmed, with the times `generateMeetingTimes` produces for the day, always three of them. Each mail flag records its own send's outcome. |
| Server.ClientMailOfRecord | backend/server.js:127-136 | The client mail of a created inquiry goes to the stored client address and carries the stored AI reply. It has one button per stored proposed time, in order: button i shows time i and links to confirmation i of the record, on the base URL. |
| Server.AdminMailOfRecord | backend/services/emailService.js:76-122 | The notice of a created inquiry goes to ADMIN_EMAIL and shows the stored classification, the stored AI reply and the client's fields. It shows the phone, or "Nije naveden" exactly when the phone is missing or empty. |
| Server.ContactEffectsInOrder | backend/server.js:89-167 | Mock mode makes no call. Otherwise the processing record is saved first, the model is asked second, and every mail is sent after a save of the record holding the AI reply and the proposed times. |
| Server.SendsIndependent | backend/server.js:129-163 | The client flag and message id depend only on the outcome of the client send, whatever the admin send does. |
| Server.ContactKeepsWellFormed | backend/server.js:79-193 | The contact handler keeps every stored record well formed. No record is lost, no status goes back, and no confirmed record changes. |
| Server.AfterModelKeepsWellFormed | backend/server.js:117-167 | Storing the AI results, the flags and the email_sent status keeps the store well formed and moves it forward only. |
| Server.HandleConfirm | backend/server.js:196-351 | At most the confirmed id's record changes, and only on a scheduled reply. The calendar is called only for a stored id. |
| Server.ConfirmChecksInOrder | backend/server.js:204-247 | The checks run in this order: a missing id or time (400), a failed lookup (500), an unknown id (404), an already confirmed record (echo). Each answers before the next is looked at, writes nothing and books nothing. |
| Server.SlotSelection | backend/server.js:249-273 | Past the first checks, the reply is invalid-slot exactly when `time` is NaN, negative, too large or picks an empty label. Then nothing is written or booked. Otherwise the calendar is asked to book the picked label for the record's client. |
| Server.ConfirmIdempotent | backend/server.js:230-247 | Once a time is confirmed, any further confirmation, with any `time`, echoes the stored time, writes nothing and makes no calendar call. |
| Server.SecondConfirmEchoesFirst | backend/server.js:229-280 | After a confirmation that scheduled, a second one, with any time and any calendar, echoes the time the first one stored. |
| Server.ScheduledRecord | backend/server.js:275-280 | A scheduled confirmation stores the chosen label as the confirmed time, together with the event id and the completed status. |
| Server.AfterBooking | backend/server.js:275-335 | The reply is scheduled exactly when the calendar booked and the save succeeded. A failed booking reports the label and the error and persists nothing. |
| Server.FailureWritesNothing | backend/server.js:312-335 | Every reply other than scheduled leaves the store as it was, so the status stays what it was. |
| Server.ConfirmKeepsWellFormed | backend/server.js:196-351 | The confirm handler keeps every stored record well formed and moves the store forward only. |
| Server.AfterBookingKeepsWellFormed | backend/server.js:275-280 | Completing a record with one of its own proposed labels and an event id keeps it well formed. |
| Server.FirstIndexAfter | backend/server.js:201 | A character absent from a prefix is first found after that prefix, where it is first found in the rest. |
| Lifecycle.MonthTableListsMonthNames | backend/services/calendarService.js:152-156 | The parser's table lists the generator's twelve month names in `getMonth()` order. |
| Lifecycle.MonthTableInvertsMonthName | backend/services/calendarService.js:152-158 | The table maps a word to month m exactly when the word is the generator's name for m. |
| Lifecycle.MonthNameIsLowerWord | backend/services/calendarService.js:147 | The generator's month names are already lower case and are matched whole by `\w+`. |
| Lifecycle.LabelRoundTrip | backend/services/calendarService.js:138-175 | The parser reads a label for any day and slot back as that day of the month, that month and the slot's clock time, in the year of the day's next occurrence, whenever `Date` can hold that moment. |
| Lifecycle.LabelMomentInDateRange | backend/services/calendarService.js:173-175 | Read on a day more than two years inside the range of `Date`, a label names a moment `Date` can hold, so the range check never turns a label into null. |
| Lifecycle.GeneratedLabelsReadBack | backend/services/geminiService.js:117 | Every label the generator writes, as written or counted from today, reads back as its slot's day and month at the slot's clock time, whenever `Date` can hold that moment. |
| Lifecycle.InferYearWithinAYear | backend/services/calendarService.js:164-171 | For a day not before today, the parser reads the day in its own year exactly when it comes before the same date a year after today. |
| Lifecycle.IntendedSlotsInWindow | backend/services/calendarService.js:164-171 | With the corrected generator, every slot lies less than a year after any day from today up to the slot's day. A confirmation on such a day reads the slot in its own year. |
| Lifecycle.AsWrittenSlotsInWindow | backend/services/calendarService.js:164-171 | With the generator as written, every slot lies less than a year after any day from today up to the slot's day. A confirmation on such a day reads the slot in its own year. |
| Lifecycle.InferYearWithinFortnight | backend/services/calendarService.js:164-171 | For a day between today and 14 days ahead, the year rollover gives exactly that day's year, including across New Year. |
| Lifecycle.IntendedLabelsReadBack | backend/services/calendarService.js:135-182 | Counted from today, each of the three labels reads back as its slot's full date (year, month and day) at its clock time, whenever `Date` can hold that moment. |
| Lifecycle.QueryOfPairs | backend/server.js:201 | A query string `k1=v1&k2=v2` with distinct keys answers each key with its own value. |
| Lifecycle.ConfirmUrlQuery | backend/services/emailService.js:22 | Confirmation link i carries the contact id as `id` and the decimal text of i as `time`. |
| Lifecycle.ButtonLinksTarget | backend/services/emailService.js:19-22 | Every button of the client mail opens `/api/confirm` on `BASE_URL`, or on `http://localhost:5000` when it is unset or empty. Its query carries the inquiry's id and the button's position. |
| Lifecycle.LabelsNonEmpty | backend/server.js:252 | No generated label is empty, so a selected label always passes the invalid-slot check. |
| Lifecycle.ButtonSelectsItsSlot | backend/services/emailService.js:22-26 | Opening button i of an unconfirmed record asks the calendar to book exactly the label button i shows. |
| Lifecycle.CreatedMailButtons | backend/server.js:130-136 | A created inquiry's client mail has one button per stored proposed time, for the new id. These are the three times `generateMeetingTimes` produced, none of them empty, and the record is unconfirmed. |
| Lifecycle.ButtonBooksShownSlot | backend/server.js:249-280 | After creation, button i of the generator's times as written, opened on any day from the creation day up to the slot's day, leads to a booking for the slot's date at its clock time. A scheduled reply stores the label the button showed as the confirmed time. |

## Left out

- Time zones, `toISOString`, `'Europe/Belgrade'` and daylight saving are left out. A parsed time is the tuple of fields `new Date` is built from.
- CalendarService.ParseDateTime: the range of `Date` is checked on the fields read as UTC. The local zone's offset is left out, so within a few hours of either end of the range the model may answer differently from the program.
- `new Date` normalises out-of-range parsed fields, such as day 31 of a 30-day month or hour 25. The model keeps the fields as read instead. `Minutes` counts them onward to the same time value `Date` computes, and `InDateRange` applies `Date`'s limit of 8.64e15 milliseconds to that value.
- CalendarService.InferYearIsNextOccurrence: stated for days that exist in every year, so 29 February is excluded.
- Records.Classification: only an integer `confidence` and string `serviceType` and `reasoning` are represented. The model is only asked for a number between 0 and 100, so it may answer with a fraction or a string. The code passes whatever it gets to the reply and the admin mail unchanged.
- Records.Inquiry: only string fields are represented. A JSON number or boolean in the posted form is not: `phone: 0`, for example, is falsy and shows as "Nije naveden".
- The prompts and the JSON and code-fence clean-up of the model's answers are left out. This is a foreign service: its parsed classification and reply text are inputs. A missing classification means a failed call, text that is not JSON, or JSON `null`. Any other JSON value gives a classification whose absent fields are missing.
- JsText.ToLower: lowers ASCII letters only, whereas `toLowerCase` also lowers other letters. No month name holds a non-ASCII letter, so the month lookup answers the same either way.
- HTML wording of the mails and result pages is left out. The model keeps only the data they carry: reply text, buttons, names, the phone as shown, and the echoed time and error.
- OAuth credential loading, `generateToken`, `testEmailConnection`, the mongoose connection and the `GET /` route are left out. They are I/O: their outcomes are inputs. `generateToken` and `testEmailConnection` run outside the request handlers.
- EmailService.SendClientEmail and EmailService.SendAdminNotification carry no contract of their own. They hand the mail to the transport and return its outcome unchanged. Server.AfterModel states the consequence: each flag is set exactly when its own send succeeded.
- The spread of `req.body` into the new record (mass assignment of schema fields such as `status` or `confirmedMeetingTime`) is not modelled. The record takes only name, email, phone and message from the body.
- `Contact.findById` failing on a malformed ObjectId is folded into the lookup fault.
- Concurrent confirmations of the same id are left out: the check for a confirmed time and the final write are not atomic. The model is sequential.
- The query string is read as: the text after the first '?', up to a '#', split at '&', each piece split at its first '='. The first piece with the key wins. Percent-decoding, repeated keys and array values are not modelled.
- `parseInt` is modelled on unbounded integers. Numbers beyond 2^53 are not rounded.
- Lifecycle.ButtonBooksShownSlot: requires the link to be opened no earlier than the creation day and no later than the slot's own day. Opened after the slot's day, its label is read in the following year (Lifecycle.InferYearWithinAYear).

## Findings

| source | as written | input that shows it | evidently intended | confidence | as-written member | corrected member |
|---|---|---|---|---|---|---|
| backend/services/geminiService.js:103 | `currentDate.setDate(now.getDate() + daysAdded)` is applied to `currentDate`, which earlier turns have already moved. Once a month end is crossed, each later offset counts from the first day of the new month. | Today Thursday 30 January 2025. Offsets 0 to 3 reach 30 January, 31 January, Saturday 1 February and then day 33 of February, which is Wednesday 5 March. The third proposed time is "Sreda, 5. mart u 11:00", 34 days ahead. | Every offset counted from today, as the comment at line 66 asks ("the next 2 weeks, working days"). All three times are workdays within 14 days of today. | not executed | MeetingSlots.AsWrittenLeavesTwoWeeks | MeetingSlots.IntendedWithinTwoWeeks |

`MeetingSlots.GenerateMeetingTimes` and its loop model the code as written,
and the handlers use it, as `processClientInquiry` does. As written it still
proposes three times (`MeetingSlots.AsWrittenOffersThree`), but they can lie
months ahead (`MeetingSlots.AsWrittenSlotsWithin256Days` bounds them). The
corrected generator, `MeetingSlots.IntendedMeetingTimes`, always proposes
three times (`MeetingSlots.IntendedOffersThree`) within two weeks. Its labels
read back as their exact dates (`Lifecycle.IntendedLabelsReadBack`), and every
slot stays inside the parser's one-year window (`Lifecycle.IntendedSlotsInWindow`).
