/**
 * Lead capture: the course buttons and the `trial_*` / `book_camp` actions
 * that open a session awaiting a phone contact, and the contact handler that
 * turns a shared contact into a row of the leads sheet and a thank-you reply.
 */
module Leads {
  import opened Text

  const TrialRequest := "Запись на пробное занятие"
  const CallbackRequest := "Обратный звонок"
  const CampCourse := "Загородный кэмп"
  const CityCampCourse := "Городской лагерь"

  /** Course keys (the suffix of the `trial_<key>` callback data) and the
      course labels stored in the session. */
  const TrialLessonCallbacks: map<string, string> := map[
    "junior" := "Программирование - Курс Junior (7-8 лет)",
    "middle" := "Программирование - Курс Middle (9-10 лет)",
    "high" := "Программирование - Курс High (10-12 лет)",
    "gamedev" := "Программирование - Курс Гейм-дизайнер (12-16 лет)",
    "webdev" := "Программирование - Курс Веб-дизайнер (12-16 лет)",
    "english_kids" := "Английский язык - Курс Kids (6-15 лет)",
    "english_junior" := "Английский язык - Курс Junior (10-15 лет)",
    "sketch" := "Скетчинг - Курс для детей 7-12 лет",
    "summer_figma" := "Летний интенсив - Дизайн в Figma (12-16 лет)",
    "summer_ai" := "Летний интенсив - Нейросети (12-16 лет)",
    "summer_club" := CityCampCourse,
    "summer_camp" := CampCourse
  ]

  const TrialPrefix := "trial_"

  /** The per-user session: either nothing pending (no session yet, or the
      `{}` left by the contact handler) or a course awaiting a contact. */
  datatype Session = Idle | AwaitingContact(course: string)

  datatype Button = Button(text: string, data: string)

  /** The inline button under a course description. */
  function TrialLessonButton(courseType: string): (b: Button)
    ensures courseType in TrialLessonCallbacks ==> TrialKey(b.data) == Some(courseType)
    ensures b.text == "Узнать о сменах" <==> courseType == "summer_club"
  {
    var data := TrialPrefix + courseType;
    assert data[..|TrialPrefix|] == TrialPrefix && data[|TrialPrefix|..] == courseType;
    Button(if courseType == "summer_club" then "Узнать о сменах" else "Записаться на пробное занятие", data)
  }

  /** Which reply the action sends while asking for the phone number. */
  datatype Prompt = ShiftsPrompt | TrialPrompt(course: string) | CampBookingPrompt

  datatype ActionOutcome = ActionOutcome(session: Session, prompt: Option<Prompt>)

  /** The registered `trial_<key>` action the callback data names, if any. */
  function TrialKey(data: string): (r: Option<string>)
    ensures r.Some? ==> r.value in TrialLessonCallbacks && data == TrialPrefix + r.value
    ensures r.None? ==> forall key :: key in TrialLessonCallbacks ==> data != TrialPrefix + key
  {
    if |data| >= |TrialPrefix| && data[..|TrialPrefix|] == TrialPrefix && data[|TrialPrefix|..] in TrialLessonCallbacks
    then Some(data[|TrialPrefix|..])
    else None
  }

  /** A button press as the session-writing handlers see it: `trial_<key>`
      for a known key, `book_camp`, or any other action (which leaves the
      session alone). */
  function OnAction(data: string, s: Session): (r: ActionOutcome)
    ensures TrialKey(data).Some? ==>
      r.session == AwaitingContact(TrialLessonCallbacks[TrialKey(data).value])
    ensures data == "book_camp" ==> r == ActionOutcome(AwaitingContact(CampCourse), Some(CampBookingPrompt))
    ensures TrialKey(data).None? && data != "book_camp" ==> r == ActionOutcome(s, None)
  {
    match TrialKey(data)
    case Some(key) =>
      var course := TrialLessonCallbacks[key];
      ActionOutcome(AwaitingContact(course), Some(if key == "summer_club" then ShiftsPrompt else TrialPrompt(course)))
    case None =>
      if data == "book_camp" then ActionOutcome(AwaitingContact(CampCourse), Some(CampBookingPrompt))
      else ActionOutcome(s, None)
  }

  /** Pressing the button made for a course opens a session for exactly that
      course, whatever the session held before. */
  lemma TrialButtonSelectsCourse(key: string, s: Session)
    requires key in TrialLessonCallbacks
    ensures OnAction(TrialLessonButton(key).data, s).session == AwaitingContact(TrialLessonCallbacks[key])
    ensures OnAction(TrialLessonButton(key).data, s).prompt ==
      Some(if key == "summer_club" then ShiftsPrompt else TrialPrompt(TrialLessonCallbacks[key]))
  {
  }

  /** The shared contact: the phone number and the contact's own name; a
      missing name is "". */
  datatype Contact = Contact(phone: string, firstName: string, lastName: string)

  datatype Request = Request(requestType: string, course: string)

  /** Request type and course derived from the session. */
  function RequestOf(s: Session): (r: Request)
    ensures r.requestType == TrialRequest <==> s.AwaitingContact?
    ensures r.requestType == CallbackRequest <==> s.Idle?
    ensures r.course == if s.AwaitingContact? then s.course else ""
  {
    match s
    case Idle => Request(CallbackRequest, "")
    case AwaitingContact(course) => Request(TrialRequest, OrElse(course, ""))
  }

  /** `appendToSheet`: the given cells followed by the request type and the
      course, which default to a callback request for no course. */
  function AppendRow(data: seq<string>, requestType: string := CallbackRequest, course: string := ""): (row: seq<string>)
    ensures |row| == |data| + 2 && row[..|data|] == data
    ensures row[|data|] == requestType && row[|data| + 1] == course
  {
    data + [requestType, course]
  }

  lemma AppendRowDefaults(data: seq<string>)
    ensures AppendRow(data) == data + [CallbackRequest, ""]
  {
  }

  /** The row the contact handler appends to the leads sheet. */
  function LeadRow(date: string, contact: Contact, username: string, req: Request): (row: seq<string>)
    ensures |row| == 6 && row[0] == date && row[3] == contact.phone
    ensures row[1] == OrElse(contact.firstName, "") && row[2] == OrElse(username, "")
    ensures row[4] == req.requestType && row[5] == req.course
  {
    AppendRow([date, OrElse(contact.firstName, ""), OrElse(username, ""), contact.phone], req.requestType, req.course)
  }

  /** The contact's last name never reaches the sheet. */
  lemma LeadRowIgnoresLastName(date: string, phone: string, first: string, last1: string, last2: string,
                               username: string, req: Request)
    ensures LeadRow(date, Contact(phone, first, last1), username, req) == LeadRow(date, Contact(phone, first, last2), username, req)
  {
  }

  /** The thank-you reply, one kind per branch of the handler's `if` chain. */
  datatype Reply = CampThanks | CityCampThanks | TrialThanks(course: string, phone: string) | CallbackThanks(phone: string)

  function SelectReply(req: Request, phone: string): (r: Reply)
    ensures r.TrialThanks? ==> r == TrialThanks(req.course, phone) && req.requestType == TrialRequest
    ensures r.CallbackThanks? ==> r.phone == phone && req.requestType != TrialRequest
    ensures r.CampThanks? || r.CityCampThanks? <==> req.course == CampCourse || req.course == CityCampCourse
  {
    if req.course == CampCourse then CampThanks
    else if req.course == CityCampCourse then CityCampThanks
    else if req.requestType == TrialRequest then TrialThanks(req.course, phone)
    else CallbackThanks(phone)
  }

  /** First match wins: each reply kind is chosen exactly when its own test
      holds and every earlier test failed. */
  lemma ReplyPriority(req: Request, phone: string)
    ensures SelectReply(req, phone).CampThanks? <==> req.course == CampCourse
    ensures SelectReply(req, phone).CityCampThanks? <==> req.course != CampCourse && req.course == CityCampCourse
    ensures SelectReply(req, phone) == TrialThanks(req.course, phone) <==>
      req.course != CampCourse && req.course != CityCampCourse && req.requestType == TrialRequest
    ensures SelectReply(req, phone) == CallbackThanks(phone) <==>
      req.course != CampCourse && req.course != CityCampCourse && req.requestType != TrialRequest
  {
  }

  const Thanks := "Спасибо"
  const ThanksPrefix := "Спасибо! "
  const CallbackThanksText := "Мы свяжемся с вами в ближайшее время по номеру "
  const CampThanksText :=
    Thanks + " за интерес к нашему загородному кэмпу! Менеджер свяжется с вами в ближайшее время, расскажет о доступных сменах и поможет с оформлением."
  const CityCampThanksText :=
    Thanks + " за интерес к нашему городскому клубу! Менеджер свяжется с вами в ближайшее время и расскажет подробнее о сменах и программе."

  /** Every reply, whichever branch chose it, opens with a thank-you. */
  function ReplyText(r: Reply): (t: string)
    ensures OccursAt(t, Thanks, 0)
  {
    match r
    case CampThanks =>
      assert CampThanksText[..|Thanks|] == Thanks;
      CampThanksText
    case CityCampThanks =>
      assert CityCampThanksText[..|Thanks|] == Thanks;
      CityCampThanksText
    case TrialThanks(course, phone) =>
      var t := ThanksPrefix + "Ваша заявка на пробное занятие по курсу \"" + course + "\" принята. " + CallbackThanksText + phone + ".";
      assert t[..|Thanks|] == ThanksPrefix[..|Thanks|] == Thanks;
      t
    case CallbackThanks(phone) =>
      var t := ThanksPrefix + CallbackThanksText + phone + ".";
      assert t[..|Thanks|] == ThanksPrefix[..|Thanks|] == Thanks;
      t
  }

  /** The trial and callback replies start with "Спасибо! ", name the phone
      number the user shared, and the trial reply also names the course. */
  lemma ReplyNamesContact(r: Reply)
    requires r.TrialThanks? || r.CallbackThanks?
    ensures OccursAt(ReplyText(r), ThanksPrefix, 0)
    ensures exists k: nat :: OccursAt(ReplyText(r), r.phone, k)
    ensures r.TrialThanks? ==> exists k: nat :: OccursAt(ReplyText(r), r.course, k)
  {
    var t := ReplyText(r);
    assert t[..|ThanksPrefix|] == ThanksPrefix;
    var k: nat := |t| - 1 - |r.phone|;
    assert t[k..k + |r.phone|] == r.phone;
    assert OccursAt(t, r.phone, k);
    if r.TrialThanks? {
      var c: nat := |ThanksPrefix + "Ваша заявка на пробное занятие по курсу \""|;
      assert t[c..c + |r.course|] == r.course;
      assert OccursAt(t, r.course, c);
    }
  }

  /** The contact handler: the row appended to the leads sheet, the reply,
      and the session afterwards, which is always cleared. */
  method HandleContact(session: Session, contact: Contact, username: string, date: string)
    returns (row: seq<string>, reply: string, next: Session)
    ensures |row| == 6 && row[0] == date && row[3] == contact.phone
    ensures row[1] == OrElse(contact.firstName, "") && row[2] == OrElse(username, "")
    ensures row[4] == (if session.AwaitingContact? then TrialRequest else CallbackRequest)
    ensures row[5] == (if session.AwaitingContact? then OrElse(session.course, "") else "")
    ensures reply == ReplyText(SelectReply(Request(row[4], row[5]), contact.phone))
    ensures next == Idle
  {
    var req := RequestOf(session);
    row := LeadRow(date, contact, username, req);
    assert Request(row[4], row[5]) == req;
    reply := ReplyText(SelectReply(req, contact.phone));
    next := Idle;
  }

  /** The labels of the two camps belong to exactly one course key each. */
  lemma CampLabels(key: string)
    requires key in TrialLessonCallbacks
    ensures TrialLessonCallbacks[key] == CampCourse <==> key == "summer_camp"
    ensures TrialLessonCallbacks[key] == CityCampCourse <==> key == "summer_club"
    ensures TrialLessonCallbacks[key] != ""
  {
  }

  /** A course button, then a contact: a trial request for that course, with
      the camp and city-camp keys answered by their own replies. */
  lemma TrialThenContact(key: string, s: Session, phone: string)
    requires key in TrialLessonCallbacks
    ensures var req := RequestOf(OnAction(TrialLessonButton(key).data, s).session);
      && req == Request(TrialRequest, TrialLessonCallbacks[key])
      && SelectReply(req, phone) ==
           if key == "summer_camp" then CampThanks
           else if key == "summer_club" then CityCampThanks
           else TrialThanks(TrialLessonCallbacks[key], phone)
  {
    TrialButtonSelectsCourse(key, s);
    CampLabels(key);
  }

  /** `book_camp`, then a contact: a trial request for the camp, answered by
      the camp reply. */
  lemma BookCampThenContact(s: Session, phone: string)
    ensures var req := RequestOf(OnAction("book_camp", s).session);
      req == Request(TrialRequest, CampCourse) && SelectReply(req, phone) == CampThanks
  {
  }

  /** With nothing pending — before any selection, or after a contact has
      cleared the session — a contact is a callback request for no course. */
  lemma IdleContactIsCallback(phone: string)
    ensures RequestOf(Idle) == Request(CallbackRequest, "")
    ensures SelectReply(RequestOf(Idle), phone) == CallbackThanks(phone)
  {
  }
}
