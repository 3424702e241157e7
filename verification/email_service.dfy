/** The two e-mails the backend sends through its SMTP transport: the reply
    to the client, which carries one confirmation button per proposed
    meeting time, and the notification to the administrator. The transport
    becomes an input, a function from the message handed to `sendMail` to
    its outcome: a message id, or the error it throws. Only the parts of
    the HTML that carry data are kept. */
module EmailService {
  import opened Wrappers
  import opened JsText
  import opened Records

  const DefaultBaseUrl: string := "http://localhost:5000"

  /** `process.env.BASE_URL || 'http://localhost:5000'`. */
  function BaseUrl(env: Option<string>): (r: string)
    ensures r != ""
    ensures Truthy(env) ==> r == env.value
    ensures !Truthy(env) ==> r == DefaultBaseUrl
  {
    if Truthy(env) then env.value else DefaultBaseUrl
  }

  /** The confirmation link of the slot at position i. */
  function ConfirmUrl(base: string, contactId: string, i: nat): string
  {
    base + "/api/confirm?id=" + contactId + "&time=" + NatToString(i)
  }

  /** A button of the client e-mail: the link it opens and the meeting time
      it shows after "Potvrdi: ". */
  datatype ConfirmButton = ConfirmButton(href: string, slot: string)

  /** The buttons for `times`, the first of them numbered k. */
  function ButtonsFrom(base: string, contactId: string, times: seq<string>, k: nat): (bs: seq<ConfirmButton>)
    ensures |bs| == |times|
    ensures forall i :: 0 <= i < |bs| ==>
      bs[i].href == ConfirmUrl(base, contactId, k + i) && bs[i].slot == times[i]
  {
    if |times| == 0 then []
    else [ConfirmButton(ConfirmUrl(base, contactId, k), times[0])] + ButtonsFrom(base, contactId, times[1..], k + 1)
  }

  /** `proposedTimes.map((time, index) => ...)`: one button per proposed
      time, in order, numbered from 0. */
  function ConfirmButtons(base: string, contactId: string, times: seq<string>): (bs: seq<ConfirmButton>)
    ensures |bs| == |times|
    ensures forall i :: 0 <= i < |bs| ==>
      bs[i].href == ConfirmUrl(base, contactId, i) && bs[i].slot == times[i]
  {
    ButtonsFrom(base, contactId, times, 0)
  }

  /** `${x}` of a number that may be undefined. */
  function NumberText(x: Option<int>): string
  {
    if x.None? then "undefined"
    else if x.value < 0 then "-" + NatToString(-x.value)
    else NatToString(x.value)
  }

  const PhoneMissing: string := "Nije naveden"

  /** `${phone || 'Nije naveden'}`. */
  function PhoneShown(phone: Option<string>): (r: string)
    ensures r != ""
    ensures Truthy(phone) ==> r == phone.value
    ensures !Truthy(phone) ==> r == PhoneMissing
  {
    if Truthy(phone) then phone.value else PhoneMissing
  }

  datatype Content =
    | ClientReply(response: string, buttons: seq<ConfirmButton>)
    | AdminAlert(
        classification: Classification,
        name: string,
        email: string,
        phone: string,
        message: string,
        response: string)

  datatype Mail = Mail(from: string, to: Option<string>, subject: string, content: Content)

  /** The outcome of `transporter.sendMail`: the message id, or the error
      message of what it throws. */
  type Transport = Mail -> Result<string, string>

  const ClientSubject: string := "Odgovor na vaš upit - Q-Total"

  function ClientMail(
    contactId: string, clientEmail: Option<string>, aiResponse: string,
    times: seq<string>, baseEnv: Option<string>, user: Option<string>): (m: Mail)
    ensures m.to == clientEmail && m.content.ClientReply?
    ensures m.content.response == aiResponse
    ensures m.content.buttons == ConfirmButtons(BaseUrl(baseEnv), contactId, times)
  {
    Mail("\"Q-Total\" <" + Interpolate(user) + ">", clientEmail, ClientSubject,
      ClientReply(aiResponse, ConfirmButtons(BaseUrl(baseEnv), contactId, times)))
  }

  /** `sendClientEmail`: the message id on delivery; a transport failure is
      rethrown unchanged. */
  function SendClientEmail(
    contactId: string, clientEmail: Option<string>, aiResponse: string,
    times: seq<string>, baseEnv: Option<string>, user: Option<string>,
    transport: Transport): Result<string, string>
  {
    transport(ClientMail(contactId, clientEmail, aiResponse, times, baseEnv, user))
  }

  function AdminSubject(c: Classification): string
  {
    "\U{1F514} Nova poruka - " + Interpolate(c.serviceType) + " (" + NumberText(c.confidence) + "% confidence)"
  }

  function AdminMail(
    contact: Inquiry, c: Classification, aiResponse: string,
    user: Option<string>, adminEmail: Option<string>): (m: Mail)
    ensures m.to == adminEmail && m.content.AdminAlert?
    ensures m.content.phone == PhoneShown(contact.phone)
    ensures m.content.classification == c && m.content.response == aiResponse
  {
    Mail("\"Q-Total System\" <" + Interpolate(user) + ">", adminEmail, AdminSubject(c),
      AdminAlert(c, Interpolate(contact.name), Interpolate(contact.email), PhoneShown(contact.phone),
        Interpolate(contact.message), aiResponse))
  }

  /** `sendAdminNotification`: the message id on delivery; a transport
      failure is rethrown unchanged. */
  function SendAdminNotification(
    contact: Inquiry, c: Classification, aiResponse: string,
    user: Option<string>, adminEmail: Option<string>,
    transport: Transport): Result<string, string>
  {
    transport(AdminMail(contact, c, aiResponse, user, adminEmail))
  }
}
