/** `processClientInquiry`: classify the inquiry and write a reply with the
    language model, then attach the proposed meeting times. The model is a
    foreign service; its two answers become inputs. The first is the parsed
    classification: None when the call failed, its text was not JSON, or
    it was JSON `null` (reading a field of null throws). Any other JSON
    value is read field by field, so a number or a string gives a
    classification whose three fields are all missing. The second answer
    is the reply text, None when the call failed. Any failure takes the
    fallback branch. */
module GeminiService {
  import opened Wrappers
  import opened JsText
  import opened Gregorian
  import opened Records
  import MeetingSlots

  /** What `processClientInquiry` resolves to. */
  datatype AiResult = AiResult(
    serviceType: Option<string>,
    confidence: Option<int>,
    aiResponse: string,
    proposedTimes: seq<string>,
    reasoning: Option<string>)

  const UnknownService: string := "Nepoznato"
  const UnavailableReason: string := "AI servis trenutno nije dostupan"

  /** The templated reply of the fallback branch, addressed by name. */
  function FallbackResponse(name: Option<string>): string
  {
    "Poštovani/a " + Interpolate(name) + FallbackBody
  }

  const FallbackBody: string :=
    ",\n\nHvala što ste nas kontaktirali. Primili smo vašu poruku i javićemo vam se u najkraćem mogućem roku.\n\nSrdačan pozdrav,\nQ-Total Tim"

  /** The classification the fallback branch reports. */
  const FallbackClassification: Classification :=
    Classification(Some(UnknownService), Some(0), Some(UnavailableReason))

  /** What `processClientInquiry` returns once the model has answered, given
      the fallback's reply text and the proposed times: the fallback when a
      call failed, the model's fields and its trimmed reply otherwise. */
  function Outcome(classification: Option<Classification>, reply: Option<string>, text: string,
    times: seq<string>): (r: AiResult)
    ensures r.proposedTimes == times
    ensures classification.None? || reply.None? ==>
      Classification(r.serviceType, r.confidence, r.reasoning) == FallbackClassification && r.aiResponse == text
    ensures classification.Some? && reply.Some? ==>
      && Classification(r.serviceType, r.confidence, r.reasoning) == classification.value
      && r.aiResponse == Trim(reply.value)
  {
    if classification.None? || reply.None? then
      AiResult(Some(UnknownService), Some(0), text, times, Some(UnavailableReason))
    else
      var c := classification.value;
      AiResult(c.serviceType, c.confidence, Trim(reply.value), times, c.reasoning)
  }

  /** `processClientInquiry(contactData)` on the day `today`. Both branches
      propose the times `generateMeetingTimes` computes, at most three; the
      reply text is trimmed. */
  function ProcessClientInquiry(
    inquiry: Inquiry,
    classification: Option<Classification>,
    reply: Option<string>,
    today: CalendarDate): (r: AiResult)
    ensures r.proposedTimes == MeetingSlots.GenerateMeetingTimes(today)
    ensures |r.proposedTimes| <= MeetingSlots.MaxSlots
    ensures classification.None? || reply.None? ==>
      && r.serviceType == Some(UnknownService)
      && r.confidence == Some(0)
      && r.reasoning == Some(UnavailableReason)
      && r.aiResponse == FallbackResponse(inquiry.name)
    ensures classification.Some? && reply.Some? ==>
      && r.serviceType == classification.value.serviceType
      && r.confidence == classification.value.confidence
      && r.reasoning == classification.value.reasoning
      && r.aiResponse == Trim(reply.value)
      && (|r.aiResponse| == 0 || (!IsSpace(r.aiResponse[0]) && !IsSpace(r.aiResponse[|r.aiResponse| - 1])))
  {
    Outcome(classification, reply, FallbackResponse(inquiry.name), MeetingSlots.GenerateMeetingTimes(today))
  }

  /** The result is the fallback exactly when a model call failed, or when
      the model itself answered with the fallback's classification and
      (after trimming) the fallback's text. */
  lemma FallbackExactlyOnFailure(
    inquiry: Inquiry, classification: Option<Classification>, reply: Option<string>, today: CalendarDate)
    ensures ProcessClientInquiry(inquiry, classification, reply, today) == ProcessClientInquiry(inquiry, None, None, today) <==>
      || classification.None? || reply.None?
      || (classification.value == FallbackClassification && Trim(reply.value) == FallbackResponse(inquiry.name))
  {
    OutcomeFallbackExactly(classification, reply, FallbackResponse(inquiry.name), MeetingSlots.GenerateMeetingTimes(today));
  }

  /** The same for any fallback text and proposed times. */
  lemma OutcomeFallbackExactly(classification: Option<Classification>, reply: Option<string>, text: string,
    times: seq<string>)
    ensures Outcome(classification, reply, text, times) == Outcome(None, None, text, times) <==>
      || classification.None? || reply.None?
      || (classification.value == FallbackClassification && Trim(reply.value) == text)
  {
  }
}
