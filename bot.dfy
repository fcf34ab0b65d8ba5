/** The bot process of index.js: the three process-wide tables `userStates`, `userData` and
    `lastActivity` are fields updated in place by one method per inbound event, and by the
    inactivity sweep. Each method is proved to leave the tables as the matching transition
    function of module Conversation says; the properties of those functions are the lemmas
    of module ConversationProps. */
module Bot {
  import opened Common
  import opened JsStrings
  import opened Seqs
  import opened Geo
  import opened Ranking
  import opened SheetRows
  import opened Geocoding
  import opened Keyboards
  import opened Conversation
  import opened ConversationProps

  class SessionStore {
    var userStates: map<UserId, State>
    var userData: map<UserId, Form>
    var lastActivity: map<UserId, Activity>
    /** The expiry notices and applications sent so far, oldest first. */
    var outbox: seq<Outgoing>
    /** `process.env.MANAGER_CHAT_ID`, empty when unset. */
    const managerChat: string

    function Snapshot(): Sessions
      reads this
    {
      Sessions(userStates, userData, lastActivity, outbox)
    }

    /** Every user with a state has a form and an activity record. */
    predicate Valid()
      reads this
    {
      Consistent(Snapshot())
    }

    constructor (managerChat: string)
      ensures Snapshot() == Sessions(map[], map[], map[], [])
      ensures this.managerChat == managerChat
      ensures Valid()
    {
      userStates := map[];
      userData := map[];
      lastActivity := map[];
      outbox := [];
      this.managerChat := managerChat;
    }

    /** `lastActivity[userId] = { timestamp: Date.now(), chatId }`. */
    method Touch(u: UserId, chat: ChatId, now: int)
      modifies this
      ensures Snapshot() == Conversation.Touch(old(Snapshot()), u, chat, now)
    {
      lastActivity := lastActivity[u := Activity(now, chat)];
    }

    /** loadAndShowVacancies: moves the user to CHOOSING_VACANCY, keeps the offered list in
        the form and lays it out two buttons per row. */
    method LoadAndShowVacancies(u: UserId, svc: Services) returns (keyboard: seq<seq<string>>)
      requires u in userData
      modifies this
      ensures Snapshot() == ShowVacancies(old(Snapshot()), u, svc)
      ensures Flatten(keyboard) == OfferedVacancies(svc.vacancyRows)
      ensures |keyboard| == (|OfferedVacancies(svc.vacancyRows)| + 1) / 2
    {
      userStates := userStates[u := ChoosingVacancy];
      var vacancies := Vacancies(svc.vacancyRows);
      if |vacancies| == 0 {
        vacancies := FallbackVacancies;
      }
      userData := userData[u := userData[u].(availableVacancies := Some(vacancies))];
      keyboard := ChunkPairs(vacancies);
    }

    /** loadAndShowShops: with a chosen vacancy and a truthy location, ranks the sheet's shops
        for the vacancy (or the test shop) and keeps the nearest five in the form. */
    method LoadAndShowShops(u: UserId, svc: Services) returns (nearest: seq<RankedShop>)
      modifies this
      ensures Snapshot() == ShowShops(old(Snapshot()), u, svc)
      ensures |nearest| <= MaxShown && SortedByDistance(nearest)
      ensures forall x :: x in nearest ==> HasCoordinates(x.shop)
    {
      nearest := [];
      var data := DataOf(Snapshot(), u);
      if data.selectedVacancy.None? || data.selectedVacancy.value == "" {
        return;
      }
      if data.userLocation.None? || !IsTruthy(data.userLocation.value.latitude)
         || !IsTruthy(data.userLocation.value.longitude) {
        return;
      }
      var shops := GetDataForVacancy(svc.projectRows, data.selectedVacancy.value, svc.lower, svc.parseFloat);
      if |shops| == 0 {
        shops := [PlaceholderShop(data.selectedVacancy.value)];
      }
      nearest := Rank(shops, data.userLocation.value, svc.distance);
      RankSize(shops, data.userLocation.value, svc.distance);
      RankSorted(shops, data.userLocation.value, svc.distance);
      RankOnlyLocated(shops, data.userLocation.value, svc.distance);
      userData := userData[u := data.(availableShops := Some(nearest))];
    }

    /** The `/start` command: records the activity, resets the form and offers the vacancies. */
    method OnStart(chat: ChatId, u: UserId, now: int, svc: Services) returns (keyboard: seq<seq<string>>)
      requires Valid()
      modifies this
      ensures Valid()
      ensures Snapshot() == StartStep(old(Snapshot()), chat, u, now, svc)
      ensures Flatten(keyboard) == OfferedVacancies(svc.vacancyRows)
    {
      Touch(u, chat, now);
      userData := userData[u := EmptyForm];
      keyboard := LoadAndShowVacancies(u, svc);
    }

    /** The `/cancel` command: forgets the user's state and form. */
    method OnCancel(u: UserId)
      requires Valid()
      modifies this
      ensures Valid()
      ensures Snapshot() == CancelStep(old(Snapshot()), u)
      ensures u !in userStates && u !in userData
    {
      userStates := userStates - {u};
      userData := userData - {u};
    }

    /** The `contact` handler: refuses another person's contact; otherwise records the
        activity, stores the phone and asks for the age, whatever the state was. */
    method OnContact(chat: ChatId, u: UserId, contactUser: Option<UserId>, phone: string, now: int)
      requires Valid()
      modifies this
      ensures Valid()
      ensures Snapshot() == ContactStep(old(Snapshot()), chat, u, contactUser, phone, now)
    {
      if contactUser != Some(u) {
        return;
      }
      Touch(u, chat, now);
      var data := DataOf(Snapshot(), u);
      userData := userData[u := data.(phone := Some(phone))];
      userStates := userStates[u := RequestingAge];
    }

    /** The `location` handler: records the activity; in REQUESTING_LOCATION keeps the
        coordinates and shows the nearest shops. */
    method OnLocation(chat: ChatId, u: UserId, location: Coord, now: int, svc: Services)
      requires Valid()
      modifies this
      ensures Valid()
      ensures Snapshot() == LocationStep(old(Snapshot()), chat, u, location, now, svc)
    {
      Touch(u, chat, now);
      if u in userStates && userStates[u] == RequestingLocation {
        var data := DataOf(Snapshot(), u);
        userStates := userStates[u := ShowingShops];
        userData := userData[u := data.(userLocation := Some(location), locationType := Some("coordinates"))];
        var _ := LoadAndShowShops(u, svc);
      }
    }

    /** handleShopSelection. */
    method HandleShopSelection(u: UserId, text: string)
      modifies this
      ensures Snapshot() == ShopSelection(old(Snapshot()), u, text)
    {
      var data := DataOf(Snapshot(), u);
      var shops := if data.availableShops.Some? then data.availableShops.value else [];
      if text == BackToLocation {
        userStates := userStates[u := RequestingLocation];
        return;
      }
      var choice := NumberedChoice(text);
      if choice.Some? {
        var index := choice.value - 1;
        if 0 <= index < |shops| {
          userStates := userStates[u := ShowingVacancyDetails];
          userData := userData[u := data.(selectedShop := Some(shops[index]))];
        }
      }
    }

    /** handleVacancyDetails. */
    method HandleVacancyDetails(u: UserId, text: string)
      modifies this
      ensures Snapshot() == VacancyDetails(old(Snapshot()), u, text)
    {
      if text == BackToShops {
        userStates := userStates[u := ShowingShops];
      } else if text == Apply {
        userStates := userStates[u := RequestingFio];
      }
    }

    /** handleFioInput. */
    method HandleFioInput(u: UserId, text: string)
      modifies this
      ensures Snapshot() == FioInput(old(Snapshot()), u, text)
    {
      if !FioAccepted(text) {
        return;
      }
      var data := DataOf(Snapshot(), u);
      userStates := userStates[u := RequestingPhone];
      userData := userData[u := data.(fio := Some(Trim(text)))];
    }

    /** handleConfirmation: sending posts the application to the managers' chat when one is
        configured and forgets the state and the form; revising goes back to START. */
    method HandleConfirmation(u: UserId, text: string)
      modifies this
      ensures Snapshot() == ConfirmationStep(old(Snapshot()), u, text, managerChat)
    {
      if text == ConfirmSend {
        var data := DataOf(Snapshot(), u);
        if managerChat != "" {
          outbox := outbox + [Application(managerChat, u, data)];
        }
        userStates := userStates - {u};
        userData := userData - {u};
      } else if text == ConfirmRevise {
        userStates := userStates[u := Start];
      }
    }

    /** The REQUESTING_PHONE branch of the `message` handler. */
    method HandlePhoneInput(u: UserId, text: string)
      modifies this
      ensures var clean := DigitsOnly(text);
              Snapshot() == if PhoneAccepted(clean)
                            then Advance(old(Snapshot()), u, RequestingAge, DataOf(old(Snapshot()), u).(phone := Some(clean)))
                            else old(Snapshot())
    {
      var clean := DigitsOnly(text);
      if PhonePattern(clean) || (|clean| == 11 && clean[0] == '7') {
        var data := DataOf(Snapshot(), u);
        userData := userData[u := data.(phone := Some(clean))];
        userStates := userStates[u := RequestingAge];
      }
    }

    /** The REQUESTING_AGE branch of the `message` handler. */
    method HandleAgeInput(u: UserId, text: string)
      modifies this
      ensures var age := AcceptedAge(text);
              Snapshot() == if age.Some?
                            then Advance(old(Snapshot()), u, Confirmation, DataOf(old(Snapshot()), u).(age := age))
                            else old(Snapshot())
    {
      var age := ParseInt(text);
      if age.None? || age.value < 14 || age.value > 100 {
        return;
      }
      var data := DataOf(Snapshot(), u);
      userData := userData[u := data.(age := age)];
      userStates := userStates[u := Confirmation];
    }

    /** The CHOOSING_VACANCY branch of the `message` handler. */
    method HandleVacancyChoice(u: UserId, text: string)
      modifies this
      ensures var data := DataOf(old(Snapshot()), u);
              var offered := if data.availableVacancies.Some? then data.availableVacancies.value else [];
              Snapshot() == if text in offered
                            then Advance(old(Snapshot()), u, RequestingLocation, data.(selectedVacancy := Some(text)))
                            else old(Snapshot())
    {
      var data := DataOf(Snapshot(), u);
      var offered := if data.availableVacancies.Some? then data.availableVacancies.value else [];
      if text !in offered {
        return;
      }
      userStates := userStates[u := RequestingLocation];
      userData := userData[u := data.(selectedVacancy := Some(text))];
    }

    /** The REQUESTING_LOCATION branch of the `message` handler: back to the vacancies, or
        geocode the typed address and, when that succeeds, show the nearest shops. */
    method HandleAddressInput(u: UserId, text: string, svc: Services)
      requires u in userData
      modifies this
      ensures var data := DataOf(old(Snapshot()), u);
              var coordinates := Geocoded(text, svc.lower, svc.primary, svc.secondary);
              var located := data.(userAddress := Some(text), userLocation := coordinates, locationType := Some("address"));
              Snapshot() == if text == BackToVacancies then ShowVacancies(old(Snapshot()), u, svc)
                            else if coordinates.None? then old(Snapshot())
                            else ShowShops(Advance(old(Snapshot()), u, ShowingShops, located), u, svc)
    {
      if text == BackToVacancies {
        var _ := LoadAndShowVacancies(u, svc);
        return;
      }
      var coordinates := GeocodeAddress(text, svc.lower, svc.primary, svc.secondary);
      if coordinates.None? {
        return;
      }
      var data := DataOf(Snapshot(), u);
      userStates := userStates[u := ShowingShops];
      userData := userData[u := data.(userAddress := Some(text), userLocation := coordinates, locationType := Some("address"))];
      var _ := LoadAndShowShops(u, svc);
    }

    /** The `message` handler, run for every inbound message: records the activity, then
        hands a plain text to the step of the user's state. */
    method OnMessage(msg: Message, now: int, svc: Services)
      requires Valid()
      modifies this
      ensures Snapshot() == MessageStep(old(Snapshot()), msg, now, svc, managerChat)
      ensures Valid()
      ensures lastActivity == old(lastActivity)[msg.from := Activity(now, msg.chat)]
    {
      MessageKeepsConsistent(Snapshot(), msg, now, svc, managerChat);
      var u := msg.from;
      Touch(u, msg.chat, now);
      if !IsPlainText(msg) || u !in userStates {
        return;
      }
      var text := msg.text.value;
      match userStates[u]
      case RequestingFio => HandleFioInput(u, text);
      case RequestingPhone => HandlePhoneInput(u, text);
      case RequestingAge => HandleAgeInput(u, text);
      case ChoosingVacancy => HandleVacancyChoice(u, text);
      case RequestingLocation => HandleAddressInput(u, text, svc);
      case ShowingShops => HandleShopSelection(u, text);
      case ShowingVacancyDetails => HandleVacancyDetails(u, text);
      case Confirmation => HandleConfirmation(u, text);
      case Start =>
    }

    /** The minute timer: every user in `order`, the enumeration order of `for (userId in
        userStates)`, whose last activity is more than thirty minutes old is sent the expiry
        notice (when the chat id is truthy) and loses state, form and activity record. */
    method Sweep(now: int, order: seq<UserId>)
      requires Distinct(order)
      requires forall u :: u in order <==> u in userStates
      requires Valid()
      modifies this
      ensures Valid()
      ensures Snapshot() == SweepSpec(old(Snapshot()), now, order)
      ensures var idle := set u | u in old(userStates) && Expired(old(Snapshot()), now, u);
              userStates == old(userStates) - idle && userData == old(userData) - idle
              && lastActivity == old(lastActivity) - idle
    {
      ghost var s0 := Snapshot();
      SweepForgetsExactlyIdleUsers(s0, now, order);
      SweepKeepsConsistent(s0, now, order);
      for i := 0 to |order|
        invariant Snapshot() == SweepSpec(s0, now, order[..i])
      {
        var u := order[i];
        if u in lastActivity && now - lastActivity[u].timestamp > InactivityTimeout {
          var chat := lastActivity[u].chat;
          if chat != 0 {
            outbox := outbox + [ExpiryNotice(chat)];
          }
          userStates := userStates - {u};
          userData := userData - {u};
          lastActivity := lastActivity - {u};
        }
        assert order[..i + 1][..i] == order[..i];
      }
      assert order[..|order|] == order;
    }
  }
}
