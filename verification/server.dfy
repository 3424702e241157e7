/** The two routes of the backend that move an inquiry through its life:
    `POST /api/contact` stores it, asks the model, and mails the client and
    the administrator; `GET /api/confirm` books the meeting time the client
    picked. The collection of contacts is a map from id to record, and each
    handler is a function from the store, the request and the outcomes of
    the external calls to the reply and the new store. */
module Server {
  import opened Wrappers
  import opened JsText
  import opened Gregorian
  import opened Records
  import opened CalendarService
  import opened EmailService
  import opened GeminiService

  // ---------------------------------------------------------------------
  // The record

  /** processing -> email_sent -> completed. */
  datatype Status = Processing | EmailSent | Completed

  function StatusText(s: Status): string
  {
    match s
    case Processing => "processing"
    case EmailSent => "email_sent"
    case Completed => "completed"
  }

  function StatusRank(s: Status): nat
  {
    match s
    case Processing => 0
    case EmailSent => 1
    case Completed => 2
  }

  datatype Contact = Contact(
    id: string,
    inquiry: Inquiry,
    timestamp: int,
    status: Status,
    serviceType: Option<string>,
    geminiConfidence: Option<int>,
    aiReasoning: Option<string>,
    aiResponse: Option<string>,
    proposedMeetingTimes: seq<string>,
    emailSentToClient: bool,
    emailSentToAdmin: bool,
    clientEmailMessageId: Option<string>,
    adminEmailMessageId: Option<string>,
    calendarEventId: Option<string>,
    confirmedMeetingTime: Option<string>)

  type Store = map<string, Contact>

  /** What every stored record satisfies: it is filed under its own id; it
      is completed exactly when a meeting time is confirmed, and that time
      is one of its proposed times with a calendar event; no proposed
      time is stored before the AI reply; an e-mail flag is set
      exactly when the message id is known; and no record reaches
      email_sent without its AI results. */
  predicate WellFormedContact(key: string, c: Contact)
  {
    && c.id == key
    && (c.status == Completed <==> Truthy(c.confirmedMeetingTime))
    && (Truthy(c.confirmedMeetingTime) ==>
          c.confirmedMeetingTime.value in c.proposedMeetingTimes && c.calendarEventId.Some?)
    && (c.aiResponse.None? ==> |c.proposedMeetingTimes| == 0)
    && (c.status == EmailSent ==> c.aiResponse.Some?)
    && (c.emailSentToClient <==> c.clientEmailMessageId.Some?)
    && (c.emailSentToAdmin <==> c.adminEmailMessageId.Some?)
  }

  predicate WellFormed(store: Store)
  {
    forall k :: k in store ==> WellFormedContact(k, store[k])
  }

  /** How a store may change: no record disappears, no status goes back,
      and a record whose meeting is confirmed never changes again. */
  predicate Evolves(before: Store, after: Store)
  {
    forall k :: k in before ==>
      && k in after
      && StatusRank(before[k].status) <= StatusRank(after[k].status)
      && (Truthy(before[k].confirmedMeetingTime) ==> after[k] == before[k])
  }

  // ---------------------------------------------------------------------
  // POST /api/contact

  /** The outcomes of everything the handler calls: the database's
      `readyState`, the id `new Contact` draws, the clock, the three saves,
      the model's answers, the day, the environment and the mail
      transport. */
  datatype ContactEnv = ContactEnv(
    readyState: int,
    newId: string,
    now: int,
    createFault: Option<string>,
    classification: Option<Classification>,
    reply: Option<string>,
    today: CalendarDate,
    baseUrl: Option<string>,
    emailUser: Option<string>,
    adminEmail: Option<string>,
    transport: Transport,
    aiSaveFault: Option<string>,
    finalSaveFault: Option<string>)

  datatype ContactReply =
    | MockReceived(data: Inquiry)
    | Created(id: string, status: string, serviceType: Option<string>, emailSent: bool)
    | ContactFailed(error: string)

  function ContactStatusCode(r: ContactReply): int
  {
    match r
    case MockReceived(_) => 200
    case Created(_, _, _, _) => 201
    case ContactFailed(_) => 500
  }

  /** An external call the handler makes, in the order it makes them. */
  datatype Effect = Save(record: Contact) | AskModel | Send(mail: Mail)

  datatype ContactOutcome = ContactOutcome(reply: ContactReply, store: Store, effects: seq<Effect>)

  /** What the database answers when the drawn id is already taken. */
  const DuplicateKey: string := "E11000 duplicate key error"

  /** `new Contact({...req.body, status: 'processing'})`. */
  function NewRecord(id: string, body: Inquiry, now: int): Contact
  {
    Contact(id, body, now, Processing, None, None, None, None, [], false, false, None, None, None, None)
  }

  function AiFor(body: Inquiry, env: ContactEnv): AiResult
  {
    ProcessClientInquiry(body, env.classification, env.reply, env.today)
  }

  function WithAi(c: Contact, ai: AiResult): Contact
  {
    c.(serviceType := ai.serviceType, geminiConfidence := ai.confidence, aiReasoning := ai.reasoning,
       aiResponse := Some(ai.aiResponse), proposedMeetingTimes := ai.proposedTimes)
  }

  /** The client's reply, with a button per proposed time. */
  function ClientMailOf(body: Inquiry, env: ContactEnv, ai: AiResult): Mail
  {
    ClientMail(env.newId, body.email, ai.aiResponse, ai.proposedTimes, env.baseUrl, env.emailUser)
  }

  /** The administrator's notification, with the classification. */
  function AdminMailOf(body: Inquiry, env: ContactEnv, ai: AiResult): Mail
  {
    AdminMail(body, Classification(ai.serviceType, ai.confidence, ai.reasoning), ai.aiResponse,
      env.emailUser, env.adminEmail)
  }

  /** The record after both sends: each flag and message id set only by
      its own successful send, and the status moved to email_sent. */
  function AfterSends(c: Contact, client: Result<string, string>, admin: Result<string, string>): (r: Contact)
    ensures r.status == EmailSent
    ensures r.emailSentToClient <==> c.emailSentToClient || client.Success?
    ensures r.emailSentToAdmin <==> c.emailSentToAdmin || admin.Success?
    ensures client.Success? ==> r.clientEmailMessageId == Some(client.value)
    ensures admin.Success? ==> r.adminEmailMessageId == Some(admin.value)
    ensures client.Failure? ==> r.clientEmailMessageId == c.clientEmailMessageId
    ensures admin.Failure? ==> r.adminEmailMessageId == c.adminEmailMessageId
    ensures r == c.(status := EmailSent, emailSentToClient := r.emailSentToClient,
      emailSentToAdmin := r.emailSentToAdmin, clientEmailMessageId := r.clientEmailMessageId,
      adminEmailMessageId := r.adminEmailMessageId)
  {
    var c1 := if client.Success? then c.(emailSentToClient := true, clientEmailMessageId := Some(client.value)) else c;
    var c2 := if admin.Success? then c1.(emailSentToAdmin := true, adminEmailMessageId := Some(admin.value)) else c1;
    c2.(status := EmailSent)
  }

  /** The handler from the moment the processing record is created under
      a fresh id and the model has answered with `ai`: save the AI results,
      send both mails, save the flags and the new status. */
  function AfterModel(store: Store, body: Inquiry, env: ContactEnv, ai: AiResult): (out: ContactOutcome)
    requires env.newId !in store
    ensures env.newId in out.store && out.store == store[env.newId := out.store[env.newId]]
    ensures out.reply.Created? <==> env.aiSaveFault.None? && env.finalSaveFault.None?
    ensures out.reply.MockReceived? == false
    ensures |out.effects| >= 3 && out.effects[..3] ==
      [Save(NewRecord(env.newId, body, env.now)), AskModel, Save(WithAi(NewRecord(env.newId, body, env.now), ai))]
    ensures |out.effects| == 3 || (|out.effects| == 6 && out.effects[3] == Send(ClientMailOf(body, env, ai))
      && out.effects[4] == Send(AdminMailOf(body, env, ai)) && out.effects[5].Save?)
    ensures env.aiSaveFault.Some? ==> out.store[env.newId] == NewRecord(env.newId, body, env.now)
    ensures out.store[env.newId].confirmedMeetingTime.None?
    ensures env.aiSaveFault.None? ==>
      out.store[env.newId].proposedMeetingTimes == ai.proposedTimes
      && out.store[env.newId].aiResponse == Some(ai.aiResponse)
    ensures out.reply.Created? ==>
      var c := out.store[env.newId];
      && out.reply == Created(env.newId, "email_sent", ai.serviceType, c.emailSentToClient)
      && c.status == EmailSent
      && (c.emailSentToClient <==> env.transport(ClientMailOf(body, env, ai)).Success?)
      && (c.emailSentToAdmin <==> env.transport(AdminMailOf(body, env, ai)).Success?)
  {
    var r0 := NewRecord(env.newId, body, env.now);
    var r1 := WithAi(r0, ai);
    var saved := [Save(r0), AskModel, Save(r1)];
    if env.aiSaveFault.Some? then
      ContactOutcome(ContactFailed(env.aiSaveFault.value), store[env.newId := r0], saved)
    else
      var clientMail := ClientMailOf(body, env, ai);
      var clientResult := SendClientEmail(env.newId, body.email, ai.aiResponse, ai.proposedTimes,
        env.baseUrl, env.emailUser, env.transport);
      var adminMail := AdminMailOf(body, env, ai);
      var adminResult := SendAdminNotification(body, Classification(ai.serviceType, ai.confidence, ai.reasoning),
        ai.aiResponse, env.emailUser, env.adminEmail, env.transport);
      var r4 := AfterSends(r1, clientResult, adminResult);
      var effects := saved + [Send(clientMail), Send(adminMail), Save(r4)];
      if env.finalSaveFault.Some? then
        ContactOutcome(ContactFailed(env.finalSaveFault.value), store[env.newId := r1], effects)
      else
        ContactOutcome(Created(env.newId, StatusText(EmailSent), ai.serviceType, r4.emailSentToClient),
          store[env.newId := r4], effects)
  }

  /** The conditions under which the handler creates a record: the
      database is connected, the drawn id is fresh and every save succeeds. */
  predicate Creates(store: Store, env: ContactEnv)
  {
    env.readyState == 1 && env.createFault.None? && env.newId !in store
    && env.aiSaveFault.None? && env.finalSaveFault.None?
  }

  /** `POST /api/contact` with body `body`. */
  function HandleContact(store: Store, body: Inquiry, env: ContactEnv): (out: ContactOutcome)
    ensures env.readyState != 1 ==> out == ContactOutcome(MockReceived(body), store, [])
    ensures out.store == store ||
      (env.newId !in store && env.newId in out.store && out.store == store[env.newId := out.store[env.newId]])
    ensures out.reply.Created? <==> Creates(store, env)
  {
    if env.readyState != 1 then ContactOutcome(MockReceived(body), store, [])
    else if env.createFault.Some? then
      ContactOutcome(ContactFailed(env.createFault.value), store, [Save(NewRecord(env.newId, body, env.now))])
    else if env.newId in store then
      ContactOutcome(ContactFailed(DuplicateKey), store, [Save(NewRecord(env.newId, body, env.now))])
    else AfterModel(store, body, env, AiFor(body, env))
  }

  /** A created inquiry is stored as email_sent, unconfirmed, with the
      three meeting times `generateMeetingTimes` produces for the day. Each
      e-mail flag records the outcome of its own send. */
  lemma CreatedRecord(store: Store, body: Inquiry, env: ContactEnv)
    requires Creates(store, env)
    ensures var out := HandleContact(store, body, env);
      var ai := AiFor(body, env);
      && env.newId in out.store
      && var c := out.store[env.newId];
      && out.reply == Created(env.newId, "email_sent", ai.serviceType, c.emailSentToClient)
      && c.status == EmailSent && c.confirmedMeetingTime.None?
      && c.proposedMeetingTimes == MeetingSlots.GenerateMeetingTimes(env.today)
      && |c.proposedMeetingTimes| == MeetingSlots.MaxSlots
      && (c.emailSentToClient <==> env.transport(ClientMailOf(body, env, ai)).Success?)
      && (c.emailSentToAdmin <==> env.transport(AdminMailOf(body, env, ai)).Success?)
  {
    var ai := AiFor(body, env);
    assert HandleContact(store, body, env) == AfterModel(store, body, env, ai);
    MeetingSlots.AsWrittenOffersThree(env.today);
  }

  /** The client mail a created inquiry sends matches the stored record:
      it goes to the client's address, carries the stored AI reply, and has
      one button per stored proposed time, in order, the button at position
      i showing time i and linking to confirmation i of the record. */
  lemma ClientMailOfRecord(store: Store, body: Inquiry, env: ContactEnv)
    requires Creates(store, env)
    ensures var out := HandleContact(store, body, env);
      && |out.effects| == 6 && env.newId in out.store && out.effects[3].Send?
      && var c := out.store[env.newId];
      && var m := out.effects[3].mail;
      && m.to == c.inquiry.email && m.content.ClientReply?
      && c.aiResponse == Some(m.content.response)
      && |m.content.buttons| == |c.proposedMeetingTimes|
      && forall i :: 0 <= i < |m.content.buttons| ==>
           && m.content.buttons[i].slot == c.proposedMeetingTimes[i]
           && m.content.buttons[i].href == ConfirmUrl(BaseUrl(env.baseUrl), c.id, i)
  {
    var ai := AiFor(body, env);
    var out := HandleContact(store, body, env);
    assert out == AfterModel(store, body, env, ai);
    assert out.effects[3] == Send(ClientMailOf(body, env, ai));
  }

  /** The administrator's notice of a created inquiry matches the stored
      record: it goes to ADMIN_EMAIL, shows the stored classification and AI
      reply and the client's own fields, and shows the phone number, or
      "Nije naveden" exactly when the client left it out or empty. */
  lemma AdminMailOfRecord(store: Store, body: Inquiry, env: ContactEnv)
    requires Creates(store, env)
    ensures var out := HandleContact(store, body, env);
      && |out.effects| == 6 && env.newId in out.store && out.effects[4].Send?
      && var c := out.store[env.newId];
      && var m := out.effects[4].mail;
      && m.to == env.adminEmail && m.content.AdminAlert?
      && m.content.classification == Classification(c.serviceType, c.geminiConfidence, c.aiReasoning)
      && c.aiResponse == Some(m.content.response)
      && m.content.name == Interpolate(c.inquiry.name) && m.content.email == Interpolate(c.inquiry.email)
      && m.content.message == Interpolate(c.inquiry.message)
      && (Truthy(c.inquiry.phone) ==> m.content.phone == c.inquiry.phone.value)
      && (!Truthy(c.inquiry.phone) ==> m.content.phone == PhoneMissing)
      && m.content.phone != ""
  {
    var ai := AiFor(body, env);
    var out := HandleContact(store, body, env);
    assert out == AfterModel(store, body, env, ai);
    assert out.effects[4] == Send(AdminMailOf(body, env, ai));
  }

  /** Every mail goes out after a save of the record carrying the AI reply
      and the proposed times, and that save comes after the save of the
      processing record and the model call. */
  ghost predicate SavedBeforeSent(effects: seq<Effect>, ai: AiResult)
  {
    forall j :: 0 <= j < |effects| && effects[j].Send? ==>
      exists i :: 0 <= i < j && effects[i].Save? && SavesAi(effects[i].record, ai)
  }

  predicate SavesAi(c: Contact, ai: AiResult)
  {
    c.aiResponse == Some(ai.aiResponse) && c.proposedMeetingTimes == ai.proposedTimes && c.status == Processing
  }

  lemma AfterModelInOrder(store: Store, body: Inquiry, env: ContactEnv, ai: AiResult)
    requires env.newId !in store
    ensures var out := AfterModel(store, body, env, ai);
      && |out.effects| >= 3
      && out.effects[0] == Save(NewRecord(env.newId, body, env.now))
      && (forall j :: 0 <= j < |out.effects| && out.effects[j] == AskModel ==> j == 1)
      && SavedBeforeSent(out.effects, ai)
  {
    var out := AfterModel(store, body, env, ai);
    OrderFromShape(out.effects, NewRecord(env.newId, body, env.now), ai);
  }

  lemma OrderFromShape(e: seq<Effect>, r0: Contact, ai: AiResult)
    requires |e| >= 3 && e[..3] == [Save(r0), AskModel, Save(WithAi(r0, ai))]
    requires r0.status == Processing
    requires |e| == 3 || (|e| == 6 && e[3].Send? && e[4].Send? && e[5].Save?)
    ensures e[0] == Save(r0)
    ensures forall j :: 0 <= j < |e| && e[j] == AskModel ==> j == 1
    ensures SavedBeforeSent(e, ai)
  {
    var r1 := WithAi(r0, ai);
    assert e[0] == e[..3][0] && e[1] == e[..3][1] && e[2] == e[..3][2] == Save(r1);
    assert SavesAi(r1, ai);
    forall j | 0 <= j < |e| && e[j].Send?
      ensures exists i :: 0 <= i < j && e[i].Save? && SavesAi(e[i].record, ai)
    {
      assert 3 <= j;
      assert e[2].Save? && SavesAi(e[2].record, ai);
    }
  }

  /** The workflow's order: the processing record is saved before the
      model is asked, the AI results are saved before any mail is sent,
      and nothing at all happens in mock mode. */
  lemma ContactEffectsInOrder(store: Store, body: Inquiry, env: ContactEnv)
    ensures var out := HandleContact(store, body, env);
      && (env.readyState != 1 ==> out.effects == [])
      && (env.readyState == 1 ==> |out.effects| > 0 && out.effects[0] == Save(NewRecord(env.newId, body, env.now)))
      && (forall j :: 0 <= j < |out.effects| && out.effects[j] == AskModel ==> j == 1)
      && SavedBeforeSent(out.effects, AiFor(body, env))
  {
    var out := HandleContact(store, body, env);
    if env.readyState != 1 {
      assert out.effects == [];
    } else if env.createFault.Some? || env.newId in store {
      assert out.effects == [Save(NewRecord(env.newId, body, env.now))];
    } else {
      var ai := AiFor(body, env);
      assert out == AfterModel(store, body, env, ai);
      AfterModelInOrder(store, body, env, ai);
    }
  }

  /** The two sends are independent: the client flag and message id depend
      only on the outcome of the client send. */
  lemma SendsIndependent(store: Store, body: Inquiry, env: ContactEnv, ai: AiResult, t2: Transport)
    requires env.newId !in store && env.aiSaveFault.None?
    requires t2(ClientMailOf(body, env, ai)) == env.transport(ClientMailOf(body, env, ai))
    ensures var a := AfterModel(store, body, env, ai).store[env.newId];
      var b := AfterModel(store, body, env.(transport := t2), ai).store[env.newId];
      a.emailSentToClient == b.emailSentToClient && a.clientEmailMessageId == b.clientEmailMessageId
  {
    assert ClientMailOf(body, env.(transport := t2), ai) == ClientMailOf(body, env, ai);
  }

  lemma AfterModelKeepsWellFormed(store: Store, body: Inquiry, env: ContactEnv, ai: AiResult)
    requires env.newId !in store && WellFormed(store)
    ensures WellFormed(AfterModel(store, body, env, ai).store)
    ensures Evolves(store, AfterModel(store, body, env, ai).store)
  {
    var out := AfterModel(store, body, env, ai);
    var k := env.newId;
    forall j | j in out.store
      ensures WellFormedContact(j, out.store[j])
    {
      if j != k {
        assert out.store[j] == store[j];
      }
    }
  }

  lemma ContactKeepsWellFormed(store: Store, body: Inquiry, env: ContactEnv)
    requires WellFormed(store)
    ensures WellFormed(HandleContact(store, body, env).store)
    ensures Evolves(store, HandleContact(store, body, env).store)
  {
    var out := HandleContact(store, body, env);
    if env.readyState != 1 || env.createFault.Some? || env.newId in store {
      assert out.store == store;
    } else {
      var ai := AiFor(body, env);
      assert out == AfterModel(store, body, env, ai);
      AfterModelKeepsWellFormed(store, body, env, ai);
    }
  }

  // ---------------------------------------------------------------------
  // GET /api/confirm

  /** The outcomes of the calls the handler makes: `findById`, the day
      (for the year of the label), the administrator address, the OAuth
      client, the event insert and the final save. */
  datatype ConfirmEnv = ConfirmEnv(
    lookupFault: Option<string>,
    today: CalendarDate,
    adminEmail: Option<string>,
    auth: Result<(), string>,
    insert: EventDraft -> Result<InsertedEvent, string>,
    saveFault: Option<string>)

  datatype ConfirmReply =
    | InvalidLink
    | NotFound
    | AlreadyConfirmed(time: string)
    | InvalidSlot
    | Scheduled(time: string, name: Option<string>)
    | BookingFailed(time: string, error: string)
    | ConfirmFailed(error: string)

  function ConfirmStatusCode(r: ConfirmReply): int
  {
    match r
    case InvalidLink => 400
    case NotFound => 404
    case AlreadyConfirmed(_) => 200
    case InvalidSlot => 400
    case Scheduled(_, _) => 200
    case BookingFailed(_, _) => 200
    case ConfirmFailed(_) => 500
  }

  /** The reply, the new store, and the calendar call if one was made. */
  datatype ConfirmOutcome = ConfirmOutcome(reply: ConfirmReply, store: Store, booking: Option<CalendarResult>)

  /** `proposedMeetingTimes[parseInt(time)]`: NaN, a negative index and
      one past the end all select nothing. */
  function SlotAt(times: seq<string>, index: Option<int>): (r: Option<string>)
    ensures r.Some? <==> index.Some? && 0 <= index.value < |times|
    ensures r.Some? ==> r.value == times[index.value]
  {
    if index.Some? && 0 <= index.value < |times| then Some(times[index.value]) else None
  }

  /** The end of the handler once the calendar has answered `result` for
      the slot `slot` of the record c filed under id. */
  function AfterBooking(store: Store, id: string, c: Contact, slot: string, result: CalendarResult,
    saveFault: Option<string>): (out: ConfirmOutcome)
    ensures out.booking == Some(result)
    ensures out.reply.Scheduled? <==> result.Booked? && saveFault.None?
    ensures out.reply.Scheduled? ==>
      && out.reply == Scheduled(slot, c.inquiry.name)
      && out.store == store[id := c.(confirmedMeetingTime := Some(slot),
           calendarEventId := Some(result.eventId), status := Completed)]
    ensures !out.reply.Scheduled? ==> out.store == store
    ensures result.NotBooked? ==> out.reply == BookingFailed(slot, result.error)
  {
    match result
    case NotBooked(e) => ConfirmOutcome(BookingFailed(slot, e), store, Some(result))
    case Booked(eventId, _, _, _) =>
      if saveFault.Some? then ConfirmOutcome(ConfirmFailed(saveFault.value), store, Some(result))
      else
        var confirmed := c.(confirmedMeetingTime := Some(slot), calendarEventId := Some(eventId), status := Completed);
        ConfirmOutcome(Scheduled(slot, c.inquiry.name), store[id := confirmed], Some(result))
  }

  /** The booking the handler asks the calendar for: the client of record
      c at the label slot. */
  function BookingFor(id: string, c: Contact, slot: string, env: ConfirmEnv): CalendarResult
  {
    CreateCalendarEvent(BookingRequest(id, c.inquiry.email, c.inquiry.name, slot), env.today, env.adminEmail,
      env.auth, env.insert)
  }

  /** `GET /api/confirm?id=<id>&time=<time>`. */
  function HandleConfirm(store: Store, id: Option<string>, time: Option<string>, env: ConfirmEnv): (out: ConfirmOutcome)
    ensures out.store == store ||
      (id.Some? && id.value in store && id.value in out.store && out.store == store[id.value := out.store[id.value]])
    ensures out.store != store ==> out.reply.Scheduled?
    ensures out.booking.Some? ==> id.Some? && id.value in store
  {
    if !Truthy(id) || time.None? then ConfirmOutcome(InvalidLink, store, None)
    else if env.lookupFault.Some? then ConfirmOutcome(ConfirmFailed(env.lookupFault.value), store, None)
    else if id.value !in store then ConfirmOutcome(NotFound, store, None)
    else
      var c := store[id.value];
      if Truthy(c.confirmedMeetingTime) then ConfirmOutcome(AlreadyConfirmed(c.confirmedMeetingTime.value), store, None)
      else
        var slot := SlotAt(c.proposedMeetingTimes, ParseInt(time.value));
        if !Truthy(slot) then ConfirmOutcome(InvalidSlot, store, None)
        else AfterBooking(store, id.value, c, slot.value, BookingFor(id.value, c, slot.value, env), env.saveFault)
  }

  /** The checks run in a fixed order and each failing one answers before
      the next is looked at: a missing id or time, then a failed lookup,
      then an unknown id, then an already confirmed record. None of them
      writes or books anything. */
  lemma ConfirmChecksInOrder(store: Store, id: Option<string>, time: Option<string>, env: ConfirmEnv)
    ensures var out := HandleConfirm(store, id, time, env);
      && (!Truthy(id) || time.None? ==> out == ConfirmOutcome(InvalidLink, store, None))
      && (Truthy(id) && time.Some? && env.lookupFault.Some? ==>
            out == ConfirmOutcome(ConfirmFailed(env.lookupFault.value), store, None))
      && (Truthy(id) && time.Some? && env.lookupFault.None? && id.value !in store ==>
            out == ConfirmOutcome(NotFound, store, None))
      && (Truthy(id) && time.Some? && env.lookupFault.None? && id.value in store
          && Truthy(store[id.value].confirmedMeetingTime) ==>
            out == ConfirmOutcome(AlreadyConfirmed(store[id.value].confirmedMeetingTime.value), store, None))
  {
  }

  /** A request that passes the first four checks is refused as an invalid
      slot exactly when `time` does not parse, parses to a negative number
      or to one past the last slot, or selects an empty label; the record
      is then left as it was and no event is booked. Otherwise the
      calendar is asked to book the selected label for the record's
      client. */
  lemma SlotSelection(store: Store, id: string, time: string, env: ConfirmEnv)
    requires id != "" && env.lookupFault.None? && id in store
    requires !Truthy(store[id].confirmedMeetingTime)
    ensures var out := HandleConfirm(store, Some(id), Some(time), env);
      var times := store[id].proposedMeetingTimes;
      var index := ParseInt(time);
      && (out.reply == InvalidSlot <==>
            index.None? || index.value < 0 || index.value >= |times| || times[index.value] == "")
      && (out.reply == InvalidSlot ==> out.store == store && out.booking.None?)
      && (out.reply != InvalidSlot ==>
            out == AfterBooking(store, id, store[id], times[index.value],
              BookingFor(id, store[id], times[index.value], env), env.saveFault))
  {
  }

  /** Once a meeting is confirmed, every further confirmation of the record
      answers with the stored time, whatever `time` says, and neither
      writes nor books. */
  lemma ConfirmIdempotent(store: Store, id: string, time: string, env: ConfirmEnv)
    requires id in store && Truthy(store[id].confirmedMeetingTime) && env.lookupFault.None?
    requires id != ""
    ensures HandleConfirm(store, Some(id), Some(time), env) ==
      ConfirmOutcome(AlreadyConfirmed(store[id].confirmedMeetingTime.value), store, None)
  {
  }

  /** A confirmation that schedules stores the label of the chosen slot as
      the confirmed time, with the event the calendar created. */
  lemma ScheduledRecord(store: Store, id: string, time: string, env: ConfirmEnv)
    requires HandleConfirm(store, Some(id), Some(time), env).reply.Scheduled?
    ensures var out := HandleConfirm(store, Some(id), Some(time), env);
      && id in store && id in out.store
      && var index := ParseInt(time);
      && index.Some? && 0 <= index.value < |store[id].proposedMeetingTimes|
      && var slot := store[id].proposedMeetingTimes[index.value];
      && out.reply == Scheduled(slot, store[id].inquiry.name)
      && out.booking == Some(BookingFor(id, store[id], slot, env))
      && out.booking.value.Booked?
      && out.store[id] == store[id].(confirmedMeetingTime := Some(slot),
           calendarEventId := Some(out.booking.value.eventId), status := Completed)
  {
    SlotSelection(store, id, time, env);
  }

  /** Confirming twice: the second request, with any time and any calendar,
      finds the first one's booking and echoes its time. */
  lemma SecondConfirmEchoesFirst(store: Store, id: string, t1: string, t2: string, env1: ConfirmEnv, env2: ConfirmEnv)
    requires HandleConfirm(store, Some(id), Some(t1), env1).reply.Scheduled?
    requires env2.lookupFault.None?
    ensures var first := HandleConfirm(store, Some(id), Some(t1), env1);
      HandleConfirm(first.store, Some(id), Some(t2), env2) ==
        ConfirmOutcome(AlreadyConfirmed(first.reply.time), first.store, None)
  {
    ScheduledRecord(store, id, t1, env1);
    var first := HandleConfirm(store, Some(id), Some(t1), env1);
    ConfirmIdempotent(first.store, id, t2, env2);
  }

  /** Only a scheduled confirmation writes: a failed booking and a failed
      save persist nothing, so the status stays what it was. */
  lemma FailureWritesNothing(store: Store, id: Option<string>, time: Option<string>, env: ConfirmEnv)
    ensures var out := HandleConfirm(store, id, time, env);
      !out.reply.Scheduled? ==> out.store == store
  {
  }

  lemma AfterBookingKeepsWellFormed(store: Store, id: string, c: Contact, slot: string, result: CalendarResult,
    saveFault: Option<string>)
    requires WellFormed(store) && id in store && c == store[id]
    requires !Truthy(c.confirmedMeetingTime) && slot in c.proposedMeetingTimes && slot != ""
    ensures WellFormed(AfterBooking(store, id, c, slot, result, saveFault).store)
    ensures Evolves(store, AfterBooking(store, id, c, slot, result, saveFault).store)
  {
    var out := AfterBooking(store, id, c, slot, result, saveFault);
    if out.store != store {
      forall j | j in out.store
        ensures WellFormedContact(j, out.store[j])
      {
        if j != id {
          assert out.store[j] == store[j];
        }
      }
    }
  }

  lemma ConfirmKeepsWellFormed(store: Store, id: Option<string>, time: Option<string>, env: ConfirmEnv)
    requires WellFormed(store)
    ensures WellFormed(HandleConfirm(store, id, time, env).store)
    ensures Evolves(store, HandleConfirm(store, id, time, env).store)
  {
    var out := HandleConfirm(store, id, time, env);
    if out.store != store {
      var k := id.value;
      var c := store[k];
      var slot := SlotAt(c.proposedMeetingTimes, ParseInt(time.value));
      assert slot.value in c.proposedMeetingTimes;
      AfterBookingKeepsWellFormed(store, k, c, slot.value, BookingFor(k, c, slot.value, env), env.saveFault);
    }
  }

  // ---------------------------------------------------------------------
  // The query string

  /** The position of the first c in s. */
  function FirstIndex(s: string, c: char): (r: Option<nat>)
    ensures r.Some? ==> r.value < |s| && s[r.value] == c
    ensures r.Some? ==> forall i :: 0 <= i < r.value ==> s[i] != c
    ensures r.None? ==> c !in s
  {
    if |s| == 0 then None
    else if s[0] == c then Some(0)
    else
      var r := FirstIndex(s[1..], c);
      if r.None? then None else Some(r.value + 1)
  }

  /** `s.split(sep)`: the pieces between the separators, in order. */
  function SplitOn(s: string, sep: char): (parts: seq<string>)
    ensures |parts| > 0
    decreases |s|
  {
    match FirstIndex(s, sep)
    case None => [s]
    case Some(i) => [s[..i]] + SplitOn(s[i + 1..], sep)
  }

  /** The query string of a URL: after its first '?', up to a '#'. */
  function QueryPart(url: string): Option<string>
  {
    match FirstIndex(url, '?')
    case None => None
    case Some(q) =>
      var rest := url[q + 1..];
      match FirstIndex(rest, '#')
      case None => Some(rest)
      case Some(h) => Some(rest[..h])
  }

  /** The value of the first piece `key=value` with the given key; a piece
      without '=' has the empty value. */
  function ParamValue(pieces: seq<string>, key: string): Option<string>
  {
    if |pieces| == 0 then None
    else
      var p := pieces[0];
      var (k, v) := match FirstIndex(p, '=') case None => (p, "") case Some(e) => (p[..e], p[e + 1..]);
      if k == key then Some(v) else ParamValue(pieces[1..], key)
  }

  /** `req.query[key]` of a request for url. */
  function QueryValue(url: string, key: string): Option<string>
  {
    match QueryPart(url)
    case None => None
    case Some(q) => ParamValue(SplitOn(q, '&'), key)
  }

  function Shift(r: Option<nat>, k: nat): Option<nat>
  {
    if r.None? then None else Some(r.value + k)
  }

  lemma FirstIndexTail(s: string, c: char)
    requires |s| > 0 && s[0] != c
    ensures FirstIndex(s, c) == Shift(FirstIndex(s[1..], c), 1)
  {
  }

  lemma ConcatTail(a: string, b: string)
    requires |a| > 0
    ensures (a + b)[0] == a[0] && (a + b)[1..] == a[1..] + b
  {
  }

  /** A character that does not occur in a is first found in a + b where
      it is first found in b. */
  lemma {:induction false} FirstIndexAfter(a: string, b: string, c: char)
    requires c !in a
    ensures FirstIndex(a + b, c) == Shift(FirstIndex(b, c), |a|)
  {
    if |a| > 0 {
      assert a[0] != c && c !in a[1..];
      ConcatTail(a, b);
      FirstIndexTail(a + b, c);
      FirstIndexAfter(a[1..], b, c);
    } else {
      assert a + b == b;
    }
  }
}
