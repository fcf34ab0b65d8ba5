/** The per-user conversation of the bot as values: the three per-user tables, the state
    machine's states, the form a user fills in, and one function per inbound event giving
    the tables after the event. The class in module Bot updates its fields in place and is
    proved against these functions; the properties of the conversation are lemmas here.

    Collaborators are parameters gathered in `Services`: the two sheet reads, the geocoding
    providers, String.prototype.toLowerCase, parseFloat and the distance function. Message
    texts sent back to the user are not modelled; the messages that matter beyond the chat
    (the expiry notice and the application sent to the managers) are kept in an outbox. */
module Conversation {
  import opened Common
  import opened JsStrings
  import opened Seqs
  import opened Geo
  import opened Ranking
  import opened SheetRows
  import opened Geocoding

  datatype State =
    | Start
    | ChoosingVacancy
    | RequestingLocation
    | ShowingShops
    | ShowingVacancyDetails
    | RequestingFio
    | RequestingPhone
    | RequestingAge
    | Confirmation

  /** The `userData` record of one user; `None` is a property never set. */
  datatype Form = Form(
    phone: Option<string>,
    age: Option<int>,
    selectedVacancy: Option<string>,
    availableVacancies: Option<seq<string>>,
    userLocation: Option<Coord>,
    userAddress: Option<string>,
    locationType: Option<string>,
    availableShops: Option<seq<RankedShop>>,
    selectedShop: Option<RankedShop>,
    fio: Option<string>)

  /** `{}`. */
  const EmptyForm := Form(None, None, None, None, None, None, None, None, None, None)

  /** A `lastActivity` entry: when the user last wrote, and in which chat. */
  datatype Activity = Activity(timestamp: int, chat: ChatId)

  /** Messages that leave the user's own conversation. */
  datatype Outgoing =
    | ExpiryNotice(chat: ChatId)
    | Application(managerChat: string, user: UserId, form: Form)

  /** The three process-wide tables keyed by user id, and the outbox. */
  datatype Sessions = Sessions(
    userStates: map<UserId, State>,
    userData: map<UserId, Form>,
    lastActivity: map<UserId, Activity>,
    outbox: seq<Outgoing>)

  /** Every user with a state has a form and an activity record. Every code path keeps
      this, and the handlers that write `userData[userId].field` rely on it. */
  predicate Consistent(s: Sessions) {
    s.userStates.Keys <= s.userData.Keys && s.userStates.Keys <= s.lastActivity.Keys
  }

  /** An inbound Telegram message as the `message` handler sees it. */
  datatype Message = Message(chat: ChatId, from: UserId, text: Option<string>, hasContact: bool)

  /** The collaborators: `vacancyRows` is the read of column B of the sheet, `projectRows`
      the read of columns A to J, `primary` and `secondary` the Yandex and OpenStreetMap
      geocoders, `distance` the Haversine distance. */
  datatype Services = Services(
    vacancyRows: Fetch<seq<Row>>,
    projectRows: Fetch<seq<Row>>,
    lower: string -> string,
    parseFloat: string -> Float,
    primary: string -> Option<Coord>,
    secondary: string -> Option<Coord>,
    distance: (Coord, Coord) -> real)

  /** INACTIVITY_TIMEOUT, in milliseconds. */
  const InactivityTimeout: int := 30 * 60 * 1000

  const BackToVacancies := "\U{2B05}\U{FE0F} Назад к выбору вакансии"
  const BackToLocation := "\U{2B05}\U{FE0F} Назад"
  const BackToShops := "\U{2B05}\U{FE0F} Назад к списку магазинов"
  const Apply := "\U{2705} Откликнуться"
  const ConfirmSend := "\U{2705} Да, отправить отклик"
  const ConfirmRevise := "\U{274C} Нет, изменить"

  /** `userData[userId] || {}`. */
  function DataOf(s: Sessions, u: UserId): Form {
    if u in s.userData then s.userData[u] else EmptyForm
  }

  /** `lastActivity[userId] = { timestamp: now, chatId }`. */
  function Touch(s: Sessions, u: UserId, chat: ChatId, now: int): Sessions {
    s.(lastActivity := s.lastActivity[u := Activity(now, chat)])
  }

  /** Sets the state and the form of one user. */
  function Advance(s: Sessions, u: UserId, state: State, form: Form): Sessions {
    s.(userStates := s.userStates[u := state], userData := s.userData[u := form])
  }

  function SetState(s: Sessions, u: UserId, state: State): Sessions {
    s.(userStates := s.userStates[u := state])
  }

  // ---------------------------------------------------------------- input rules

  /** `/^7\d{10}$/.test(clean)`. */
  predicate PhonePattern(clean: string) {
    |clean| == 11 && clean[0] == '7' && AllDigits(clean[1..])
  }

  /** The manual phone test: the pattern, or eleven characters starting with 7. */
  predicate PhoneAccepted(clean: string) {
    PhonePattern(clean) || (|clean| == 11 && clean[0] == '7')
  }

  /** `parseInt(text)` when it is a number in [14, 100]. */
  function AcceptedAge(text: string): Option<int> {
    var age := ParseInt(text);
    if age.None? || age.value < 14 || age.value > 100 then None else age
  }

  /** `text.trim().split(' ').length >= 2`. */
  predicate FioAccepted(text: string) {
    |Split(Trim(text), ' ')| >= 2
  }

  /** `text.match(/^(\d+)\./)` and `parseInt` of the digits: the number a shop button starts with. */
  function NumberedChoice(text: string): Option<int> {
    var n := DigitRun(text);
    if n > 0 && n < |text| && text[n] == '.' then ParseInt(text[..n]) else None
  }

  /** The vacancies loadAndShowVacancies offers: getVacancies, or the placeholder list
      when it is empty. */
  function OfferedVacancies(vacancyRows: Fetch<seq<Row>>): seq<string> {
    var vs := Vacancies(vacancyRows);
    if |vs| == 0 then FallbackVacancies else vs
  }

  /** The test shop loadAndShowShops shows when the sheet has none for the vacancy. */
  function PlaceholderShop(vacancy: string): Shop {
    Shop(map["город" := "Москва", "вакансия" := vacancy, "адрес" := "ул. Тестовая, 1",
             "тариф" := "от 50000 руб.", "график" := "5/2", "полный адрес" := "Москва, ул. Тестовая, д. 1"],
         Coord(Finite(55.7558), Finite(37.6176)))
  }

  /** The shops loadAndShowShops ranks: the sheet's, or the placeholder when there are none. */
  function ShopsToRank(svc: Services, vacancy: string): seq<Shop> {
    var found := DataForVacancy(svc.projectRows, vacancy, svc.lower, svc.parseFloat);
    if |found| == 0 then [PlaceholderShop(vacancy)] else found
  }

  // ---------------------------------------------------------------- transitions

  /** loadAndShowVacancies: the state becomes CHOOSING_VACANCY and the offered list is kept
      in the form. */
  function ShowVacancies(s: Sessions, u: UserId, svc: Services): Sessions
    requires u in s.userData
  {
    Advance(s, u, ChoosingVacancy, s.userData[u].(availableVacancies := Some(OfferedVacancies(svc.vacancyRows))))
  }

  /** loadAndShowShops: with a chosen vacancy and a truthy location, the ranked shops are
      kept in the form; otherwise nothing changes. */
  function ShowShops(s: Sessions, u: UserId, svc: Services): Sessions {
    var data := DataOf(s, u);
    if data.selectedVacancy.None? || data.selectedVacancy.value == "" then s
    else if data.userLocation.None? || !IsTruthy(data.userLocation.value.latitude)
            || !IsTruthy(data.userLocation.value.longitude) then s
    else
      var ranked := Rank(ShopsToRank(svc, data.selectedVacancy.value), data.userLocation.value, svc.distance);
      s.(userData := s.userData[u := data.(availableShops := Some(ranked))])
  }

  /** The `/start` command. */
  function StartStep(s: Sessions, chat: ChatId, u: UserId, now: int, svc: Services): Sessions {
    var t := Touch(s, u, chat, now);
    ShowVacancies(t.(userData := t.userData[u := EmptyForm]), u, svc)
  }

  /** The `/cancel` command. */
  function CancelStep(s: Sessions, u: UserId): Sessions {
    s.(userStates := s.userStates - {u}, userData := s.userData - {u})
  }

  /** The `contact` handler: a contact of someone else is refused; otherwise the phone is
      stored and the age is asked for, whatever the state was. */
  function ContactStep(s: Sessions, chat: ChatId, u: UserId, contactUser: Option<UserId>, phone: string, now: int): Sessions {
    if contactUser != Some(u) then s
    else
      var t := Touch(s, u, chat, now);
      Advance(t, u, RequestingAge, DataOf(t, u).(phone := Some(phone)))
  }

  /** The `location` handler. */
  function LocationStep(s: Sessions, chat: ChatId, u: UserId, location: Coord, now: int, svc: Services): Sessions {
    var t := Touch(s, u, chat, now);
    if u in t.userStates && t.userStates[u] == RequestingLocation then
      ShowShops(Advance(t, u, ShowingShops, DataOf(t, u).(userLocation := Some(location), locationType := Some("coordinates"))), u, svc)
    else t
  }

  /** handleShopSelection. */
  function ShopSelection(s: Sessions, u: UserId, text: string): Sessions {
    var data := DataOf(s, u);
    var shops := if data.availableShops.Some? then data.availableShops.value else [];
    var choice := NumberedChoice(text);
    if text == BackToLocation then SetState(s, u, RequestingLocation)
    else if choice.Some? && 1 <= choice.value <= |shops| then
      Advance(s, u, ShowingVacancyDetails, data.(selectedShop := Some(shops[choice.value - 1])))
    else s
  }

  /** handleVacancyDetails. */
  function VacancyDetails(s: Sessions, u: UserId, text: string): Sessions {
    if text == BackToShops then SetState(s, u, ShowingShops)
    else if text == Apply then SetState(s, u, RequestingFio)
    else s
  }

  /** handleFioInput. */
  function FioInput(s: Sessions, u: UserId, text: string): Sessions {
    if FioAccepted(text) then Advance(s, u, RequestingPhone, DataOf(s, u).(fio := Some(Trim(text)))) else s
  }

  /** handleConfirmation: sending notifies the managers' chat when one is configured and
      forgets the user's state and form (not the activity record); revising goes back to START. */
  function ConfirmationStep(s: Sessions, u: UserId, text: string, managerChat: string): Sessions {
    if text == ConfirmSend then
      var notify := if managerChat != "" then [Application(managerChat, u, DataOf(s, u))] else [];
      s.(userStates := s.userStates - {u}, userData := s.userData - {u}, outbox := s.outbox + notify)
    else if text == ConfirmRevise then SetState(s, u, Start)
    else s
  }

  /** A text the `message` handler goes on to dispatch: present, not empty, not a command,
      and not a shared contact. */
  predicate IsPlainText(msg: Message) {
    msg.text.Some? && msg.text.value != "" && msg.text.value[0] != '/' && !msg.hasContact
  }

  /** The `message` handler, which runs for every message: it records the activity, then
      dispatches a plain text on the user's state. */
  function MessageStep(s: Sessions, msg: Message, now: int, svc: Services, managerChat: string): Sessions
    requires Consistent(s)
  {
    var u := msg.from;
    var t := Touch(s, u, msg.chat, now);
    if !IsPlainText(msg) || u !in t.userStates then t
    else
      var text := msg.text.value;
      var data := DataOf(t, u);
      match t.userStates[u]
      case RequestingFio => FioInput(t, u, text)
      case RequestingPhone =>
        var clean := DigitsOnly(text);
        if PhoneAccepted(clean) then Advance(t, u, RequestingAge, data.(phone := Some(clean))) else t
      case RequestingAge =>
        var age := AcceptedAge(text);
        if age.Some? then Advance(t, u, Confirmation, data.(age := age)) else t
      case ChoosingVacancy =>
        var offered := if data.availableVacancies.Some? then data.availableVacancies.value else [];
        if text in offered then Advance(t, u, RequestingLocation, data.(selectedVacancy := Some(text))) else t
      case RequestingLocation =>
        if text == BackToVacancies then ShowVacancies(t, u, svc)
        else
          var coordinates := Geocoded(text, svc.lower, svc.primary, svc.secondary);
          if coordinates.None? then t
          else
            var located := data.(userAddress := Some(text), userLocation := coordinates, locationType := Some("address"));
            ShowShops(Advance(t, u, ShowingShops, located), u, svc)
      case ShowingShops => ShopSelection(t, u, text)
      case ShowingVacancyDetails => VacancyDetails(t, u, text)
      case Confirmation => ConfirmationStep(t, u, text, managerChat)
      case Start => t
  }

  // ---------------------------------------------------------------- the inactivity sweep

  /** The user's last activity is more than the timeout before `now`. */
  predicate Expired(s: Sessions, now: int, u: UserId) {
    u in s.lastActivity && now - s.lastActivity[u].timestamp > InactivityTimeout
  }

  /** One turn of the sweep's loop body. */
  function SweepUser(s: Sessions, now: int, u: UserId): Sessions {
    if Expired(s, now, u) then
      var chat := s.lastActivity[u].chat;
      s.(userStates := s.userStates - {u}, userData := s.userData - {u}, lastActivity := s.lastActivity - {u},
         outbox := s.outbox + (if chat != 0 then [ExpiryNotice(chat)] else []))
    else s
  }

  /** The sweep over the users in `order`, the enumeration order of `for (userId in userStates)`. */
  function SweepSpec(s: Sessions, now: int, order: seq<UserId>): Sessions {
    if |order| == 0 then s else SweepUser(SweepSpec(s, now, order[..|order| - 1]), now, order[|order| - 1])
  }

  function ExpiredIn(s: Sessions, now: int, order: seq<UserId>): set<UserId> {
    set u | u in order && Expired(s, now, u)
  }

  /** The expiry notices, in enumeration order, for expired users with a truthy chat id. */
  function Notices(s: Sessions, now: int, order: seq<UserId>): seq<Outgoing> {
    if |order| == 0 then []
    else
      var u := order[|order| - 1];
      Notices(s, now, order[..|order| - 1])
        + (if Expired(s, now, u) && s.lastActivity[u].chat != 0 then [ExpiryNotice(s.lastActivity[u].chat)] else [])
  }

  predicate Distinct<T(==)>(order: seq<T>) {
    forall i, j :: 0 <= i < j < |order| ==> order[i] != order[j]
  }
}
